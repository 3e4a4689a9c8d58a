/**
 Looking file contexts up in a table that was compiled to a file and loaded
 again: the loaded table is a proper stem index once more, and it answers as
 the table that was written does.
 */
module LabelReload {
  import opened Wrappers
  import F = FcontextFile
  import L = LabelIndex

  // ---- the same table as text -------------------------------------------

  /** The characters with these codes. */
  function Text(b: F.Bytes): (t: string)
    ensures |t| == |b| && forall i :: 0 <= i < |b| ==> t[i] as int == b[i]
  {
    seq(|b|, i requires 0 <= i < |b| => b[i] as char)
  }

  /** The same specification; any number but 0 says that it has meta characters. */
  function AsSpec(s: F.Spec): (t: L.Spec)
    ensures (t.hasMeta <==> s.hasMeta > 0) && t.mode == s.mode && t.stemId == s.stemId && t.prefixLen == s.prefixLen
  {
    L.Spec(Text(s.regex), s.mode, s.stemId, s.hasMeta != 0, s.prefixLen, Text(s.context))
  }

  function Stems(d: F.Data): (t: seq<string>)
    ensures |t| == |d.stems|
  {
    seq(|d.stems|, i requires 0 <= i < |d.stems| => Text(d.stems[i]))
  }

  function Specs(d: F.Data): (t: seq<L.Spec>)
    ensures |t| == |d.specs|
  {
    seq(|d.specs|, i requires 0 <= i < |d.specs| => AsSpec(d.specs[i]))
  }

  lemma TextInjective(a: F.Bytes, b: F.Bytes)
    requires Text(a) == Text(b)
    ensures a == b
  {
    forall i | 0 <= i < |a| ensures a[i] == b[i] {
      assert Text(a)[i] == Text(b)[i];
    }
  }

  /** The invariant of the lookup table. */
  ghost predicate TableOk(specs: seq<L.Spec>, stems: seq<string>) {
    L.StemsOk(stems) && L.SpecsOk(specs, stems)
  }

  ghost predicate DataOk(d: F.Data) {
    TableOk(Specs(d), Stems(d))
  }

  // ---- what a specification means, whatever the number of its stem ------

  datatype Meaning =
    Meaning(regex: string, mode: nat, stem: Option<string>, hasMeta: bool, prefixLen: nat, context: string)

  function Meant(s: L.Spec, stems: seq<string>): Meaning {
    Meaning(s.regex, s.mode, if 0 <= s.stemId < |stems| then Some(stems[s.stemId]) else None, s.hasMeta, s.prefixLen,
            s.context)
  }

  function Meanings(specs: seq<L.Spec>, stems: seq<string>): (m: seq<Meaning>)
    ensures |m| == |specs|
  {
    seq(|specs|, i requires 0 <= i < |specs| => Meant(specs[i], stems))
  }

  /** Trying a specification depends on what it means alone. */
  lemma SameCheck(pcre: L.Pcre, s: L.Spec, stems: seq<string>, t: L.Spec, stems': seq<string>, key: string, mode: nat)
    requires key != "" && L.StemsOk(stems) && L.SpecOk(s, stems) && L.StemsOk(stems') && L.SpecOk(t, stems')
    requires Meant(s, stems) == Meant(t, stems')
    ensures L.Check(pcre, stems, s, key, mode) == L.Check(pcre, stems', t, key, mode)
  {
    if s.stemId >= 0 {
      L.CheckWithStem(pcre, stems, s, key, mode);
      L.CheckWithStem(pcre, stems', t, key, mode);
    }
  }

  lemma MeaningsAppend(specs: seq<L.Spec>, s: L.Spec, stems: seq<string>)
    ensures Meanings(specs + [s], stems) == Meanings(specs, stems) + [Meant(s, stems)]
    ensures specs + [] == specs
  {
  }

  lemma {:induction false} SameSelect(specs: seq<L.Spec>, stems: seq<string>, specs': seq<L.Spec>, stems': seq<string>, meta: bool)
    requires Meanings(specs, stems) == Meanings(specs', stems')
    ensures Meanings(L.Select(specs, meta), stems) == Meanings(L.Select(specs', meta), stems')
  {
    assert |specs| == |Meanings(specs, stems)| == |specs'|;
    if specs != [] {
      var k := |specs| - 1;
      assert Meanings(specs, stems)[k] == Meanings(specs', stems')[k];
      assert Meanings(specs[..k], stems) == Meanings(specs, stems)[..k];
      assert Meanings(specs'[..k], stems') == Meanings(specs', stems')[..k];
      SameSelect(specs[..k], stems, specs'[..k], stems', meta);
      MeaningsAppend(L.Select(specs[..k], meta), specs[k], stems);
      MeaningsAppend(L.Select(specs'[..k], meta), specs'[k], stems');
    }
  }

  lemma MeaningsConcat(a: seq<L.Spec>, b: seq<L.Spec>, stems: seq<string>)
    ensures Meanings(a + b, stems) == Meanings(a, stems) + Meanings(b, stems)
  {
  }

  /** Sorting does not look at stem numbers. */
  lemma SameOrder(specs: seq<L.Spec>, stems: seq<string>, specs': seq<L.Spec>, stems': seq<string>)
    requires Meanings(specs, stems) == Meanings(specs', stems')
    ensures Meanings(L.Ordered(specs), stems) == Meanings(L.Ordered(specs'), stems')
  {
    SameSelect(specs, stems, specs', stems', true);
    SameSelect(specs, stems, specs', stems', false);
    MeaningsConcat(L.Select(specs, true), L.Select(specs, false), stems);
    MeaningsConcat(L.Select(specs', true), L.Select(specs', false), stems');
  }

  /** Tables that mean the same answer alike. */
  lemma SameAnswer(pcre: L.Pcre, specs: seq<L.Spec>, stems: seq<string>, specs': seq<L.Spec>, stems': seq<string>,
                   key: string, mode: nat, partial: bool, r: L.Result)
    requires key != "" && TableOk(specs, stems) && TableOk(specs', stems')
    requires Meanings(specs, stems) == Meanings(specs', stems')
    requires L.LastMatch(specs, L.Checks(pcre, specs, stems, key, mode), partial, r)
    ensures L.LastMatch(specs', L.Checks(pcre, specs', stems', key, mode), partial, r)
  {
    hide L.Check, L.StemsOk, L.SpecOk;
    var m, m' := L.Checks(pcre, specs, stems, key, mode), L.Checks(pcre, specs', stems', key, mode);
    assert |specs| == |Meanings(specs, stems)| == |specs'|;
    forall i | 0 <= i < |specs| ensures m[i] == m'[i] && specs[i].context == specs'[i].context {
      assert Meanings(specs, stems)[i] == Meanings(specs', stems')[i];
      SameCheck(pcre, specs[i], stems, specs'[i], stems', key, mode);
    }
    assert m == m';
  }

  // ---- through the file --------------------------------------------------

  lemma LoadedStemsOk(table: F.Data, d: F.Data, loaded: F.Data)
    requires L.StemsOk(Stems(table)) && L.StemsOk(Stems(d))
    requires F.DistinctStems(loaded.stems) && forall s :: s in loaded.stems ==> s in table.stems || s in d.stems
    ensures L.StemsOk(Stems(loaded))
  {
    forall i, j | 0 <= i < j < |loaded.stems| ensures Stems(loaded)[i] != Stems(loaded)[j] {
      if Text(loaded.stems[i]) == Text(loaded.stems[j]) {
        TextInjective(loaded.stems[i], loaded.stems[j]);
      }
    }
    forall i | 0 <= i < |loaded.stems| ensures L.IsStem(Stems(loaded)[i]) {
      var s := loaded.stems[i];
      if s in table.stems {
        var k :| 0 <= k < |table.stems| && table.stems[k] == s;
        assert Stems(table)[k] == Text(s);
      } else {
        var k :| 0 <= k < |d.stems| && d.stems[k] == s;
        assert Stems(d)[k] == Text(s);
      }
    }
  }

  lemma DistinctText(d: F.Data)
    requires L.StemsOk(Stems(d))
    ensures F.DistinctStems(d.stems)
  {
    forall i, j | 0 <= i < j < |d.stems| ensures d.stems[i] != d.stems[j] {
      assert Stems(d)[i] != Stems(d)[j];
    }
  }

  /** A specification read back has its meaning, and a proper stem. */
  lemma SameSpecMeans(into: F.Data, got: F.Spec, from: F.Data, s: F.Spec)
    requires F.SameSpec(into, got, from, s) && L.SpecOk(AsSpec(s), Stems(from))
    ensures Meant(AsSpec(got), Stems(into)) == Meant(AsSpec(s), Stems(from)) && L.SpecOk(AsSpec(got), Stems(into))
  {
    hide Text;
    if s.stemId >= 0 {
      assert F.StemText(into, got) == Some(from.stems[s.stemId]);
    }
  }

  /** A specification of the table keeps its meaning when stems are added. */
  lemma KeptSpecMeans(into: F.Data, table: F.Data, s: F.Spec)
    requires table.stems <= into.stems && L.SpecOk(AsSpec(s), Stems(table))
    ensures Meant(AsSpec(s), Stems(into)) == Meant(AsSpec(s), Stems(table)) && L.SpecOk(AsSpec(s), Stems(into))
  {
    hide Text;
  }

  lemma LoadedText(table: F.Data, d: F.Data, pcre: F.Pcre, loaded: F.Data)
    requires F.TextStems(table.stems) && F.Writable(d, pcre)
    requires forall s :: s in loaded.stems ==> s in table.stems || s in d.stems
    ensures F.TextStems(loaded.stems)
  {
    hide F.SpecWritable;
    forall i | 0 <= i < |loaded.stems| ensures F.IsText(loaded.stems[i]) {
      var s := loaded.stems[i];
      if s in table.stems {
        var k :| 0 <= k < |table.stems| && table.stems[k] == s;
      } else {
        var k :| 0 <= k < |d.stems| && d.stems[k] == s;
        assert F.StemWritable(d.stems[k]);
      }
    }
  }

  /** Loading a written table onto another gives a proper table again, and it means both in turn. */
  lemma LoadedMeans(d: F.Data, pcre: F.Pcre, table: F.Data, padding: F.Bytes)
    requires F.Writable(d, pcre) && F.NoEmptySection(d) && F.TextStems(table.stems) && DataOk(d) && DataOk(table)
    ensures var x := F.LoadOnto(F.FileBytes(d, pcre) + padding, pcre, table);
            && x.Some? && DataOk(x.value) && F.TextStems(x.value.stems)
            && Meanings(Specs(x.value), Stems(x.value))
               == Meanings(Specs(table), Stems(table)) + Meanings(Specs(d), Stems(d))
  {
    hide F.LoadOnto, F.FileBytes, F.Writable, F.NoEmptySection, F.DistinctStems, F.SameSpec, L.SpecOk, L.StemsOk, Meant,
      AsSpec;
    F.RoundTrip(d, pcre, table, padding);
    DistinctText(table);
    var loaded := F.LoadOnto(F.FileBytes(d, pcre) + padding, pcre, table).value;
    LoadedStemsOk(table, d, loaded);
    LoadedText(table, d, pcre, loaded);
    var n := |table.specs|;
    forall i | 0 <= i < |loaded.specs|
      ensures L.SpecOk(Specs(loaded)[i], Stems(loaded))
      ensures Meant(Specs(loaded)[i], Stems(loaded))
              == if i < n then Meant(Specs(table)[i], Stems(table)) else Meant(Specs(d)[i - n], Stems(d))
    {
      if i < n {
        assert loaded.specs[i] == table.specs[i] && L.SpecOk(Specs(table)[i], Stems(table));
        KeptSpecMeans(loaded, table, table.specs[i]);
      } else {
        assert L.SpecOk(Specs(d)[i - n], Stems(d));
        SameSpecMeans(loaded, loaded.specs[n + (i - n)], d, d.specs[i - n]);
      }
    }
  }

  lemma EmptyMeans()
    ensures DataOk(F.Data([], [])) && F.TextStems([])
    ensures Meanings(Specs(F.Data([], [])), Stems(F.Data([], []))) == []
  {
  }

  /** A table that can be written and loaded. */
  ghost predicate Compilable(d: F.Data, pcre: F.Pcre) {
    F.Writable(d, pcre) && F.NoEmptySection(d) && DataOk(d)
  }

  /** What some tables mean in turn. */
  ghost function AllMeanings(ds: seq<F.Data>): seq<Meaning> {
    if ds == [] then [] else
      var d := ds[|ds| - 1];
      AllMeanings(ds[..|ds| - 1]) + Meanings(Specs(d), Stems(d))
  }

  /** A proper table, however its stems are numbered, that means the tables in turn. */
  ghost predicate MeansAll(specs: seq<L.Spec>, stems: seq<string>, ds: seq<F.Data>) {
    TableOk(specs, stems) && Meanings(specs, stems) == AllMeanings(ds)
  }

  /** A single written table means itself. */
  lemma MeansOne(d: F.Data)
    requires DataOk(d)
    ensures MeansAll(Specs(d), Stems(d), [d])
  {
    hide Meanings, Specs, Stems, TableOk;
    var ds := [d];
    assert ds[..|ds| - 1] == [] && ds[|ds| - 1] == d;
    assert AllMeanings(ds) == AllMeanings([]) + Meanings(Specs(d), Stems(d));
  }

  /** The answer of a table after sorting. */
  ghost predicate SortedAnswer(pcre: L.Pcre, specs: seq<L.Spec>, stems: seq<string>, key: string, mode: nat, partial: bool,
                               r: L.Result)
  {
    && key != "" && TableOk(L.Ordered(specs), stems)
    && L.LastMatch(L.Ordered(specs), L.Checks(pcre, L.Ordered(specs), stems, key, mode), partial, r)
  }

  lemma SortedAlike(pcre: L.Pcre, specs: seq<L.Spec>, stems: seq<string>, specs': seq<L.Spec>, stems': seq<string>,
                    key: string, mode: nat, partial: bool, r: L.Result)
    requires TableOk(specs', stems') && Meanings(specs, stems) == Meanings(specs', stems')
    requires SortedAnswer(pcre, specs, stems, key, mode, partial, r)
    ensures SortedAnswer(pcre, specs', stems', key, mode, partial, r)
  {
    hide L.Ordered, L.LastMatch, L.Checks, L.StemsOk, L.SpecsOk, Meanings;
    L.KeptOk(specs', L.Ordered(specs'), stems');
    SameOrder(specs, stems, specs', stems');
    SameAnswer(pcre, L.Ordered(specs), stems, L.Ordered(specs'), stems', key, mode, partial, r);
  }

  /** Write each table to its file, and load the files one after the other. */
  method WriteAndLoad(ds: seq<F.Data>, filePcre: F.Pcre) returns (loaded: F.Data)
    requires forall i :: 0 <= i < |ds| ==> Compilable(ds[i], filePcre)
    ensures MeansAll(Specs(loaded), Stems(loaded), ds)
  {
    hide F.LoadOnto, F.FileBytes, F.Writable, F.NoEmptySection, F.TextStems, TableOk, Meanings, Specs, Stems;
    var data := new F.SavedData();
    EmptyMeans();
    loaded := F.Data([], []);
    for i := 0 to |ds|
      invariant fresh(data) && data.Contents() == loaded && F.TextStems(loaded.stems)
      invariant MeansAll(Specs(loaded), Stems(loaded), ds[..i])
    {
      var file := F.WriteBinaryFile(ds[i], filePcre);
      assert Compilable(ds[i], filePcre);
      LoadedMeans(ds[i], filePcre, loaded, []);
      assert file + [] == file && ds[..i + 1][..i] == ds[..i];
      var ok := data.LoadMmap(file, filePcre);
      loaded := F.Data(data.stems, data.specs);
    }
    assert ds[..|ds|] == ds;
  }

  /** Write tables, load their files in turn, sort, and look a path up: the answer is that of every proper table that
      means the written ones in turn. */
  method LookupReloaded(ds: seq<F.Data>, filePcre: F.Pcre, pcre: L.Pcre, path: string, kind: nat, partial: bool)
    returns (r: L.Result)
    requires path != "" && forall i :: 0 <= i < |ds| ==> Compilable(ds[i], filePcre)
    ensures exists specs, stems :: MeansAll(specs, stems, ds)
    ensures forall specs, stems :: MeansAll(specs, stems, ds) ==>
              SortedAnswer(pcre, specs, stems, L.Collapsed(path), L.FileKind(kind), partial, r)
  {
    hide L.Ordered, L.LastMatch, L.Checks, L.StemsOk, L.SpecsOk, L.FullChecks, Meanings, Specs, Stems, Compilable, AllMeanings;
    var loaded := WriteAndLoad(ds, filePcre);
    var table := new L.SavedData();
    table.specs, table.stems := Specs(loaded), Stems(loaded);
    table.SortSpecs();
    r := table.Lookup(pcre, path, kind, partial);
    assert SortedAnswer(pcre, Specs(loaded), Stems(loaded), L.Collapsed(path), L.FileKind(kind), partial, r);
    forall specs, stems | MeansAll(specs, stems, ds)
      ensures SortedAnswer(pcre, specs, stems, L.Collapsed(path), L.FileKind(kind), partial, r)
    {
      SortedAlike(pcre, Specs(loaded), Stems(loaded), specs, stems, L.Collapsed(path), L.FileKind(kind), partial, r);
    }
  }
}
