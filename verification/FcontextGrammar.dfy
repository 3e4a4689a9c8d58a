/**
 Which byte sequences the loader of compiled file contexts accepts: exactly
 those that begin with a well-formed file of a known version, and what it then
 loads is what that file says.
 */
module FcontextGrammar {
  import opened Bits
  import opened FcontextFile
  import opened Wrappers

  // ---- files ------------------------------------------------------------

  /** A specification in the file. The strings hold at least their final NUL. */
  datatype RawSpec = RawSpec(context: Bytes, regex: Bytes, mode: u32, stem: u32, meta: u32, prefix: u32, blob: Bytes, study: Bytes)

  datatype RawFile = RawFile(version: u32, stems: seq<Bytes>, specs: seq<RawSpec>)

  function RawSpecBytes(s: RawSpec, version: u32): Bytes {
    BlobBytes(s.context) + BlobBytes(s.regex) + U32(s.mode) + U32(s.stem) + U32(s.meta)
    + PrefixBytesAt(s.prefix, version) + BlobBytes(s.blob) + BlobBytes(s.study)
  }

  function RawSpecsBytes(specs: seq<RawSpec>, version: u32): Bytes {
    if specs == [] then [] else RawSpecBytes(specs[0], version) + RawSpecsBytes(specs[1..], version)
  }

  function RawBytes(f: RawFile, pcre: Pcre): Bytes {
    HeaderBytesAt(pcre, f.version)
    + U32(Wrap32(|f.stems|)) + StemsBytes(f.stems) + U32(Wrap32(|f.specs|)) + RawSpecsBytes(f.specs, f.version)
  }

  predicate Sized(b: Bytes) {
    0 < |b| < 0x1_0000_0000
  }

  predicate Terminated(b: Bytes) {
    Sized(b) && b[|b| - 1] == 0
  }

  predicate StemFits(s: Bytes) {
    0 < |s| < 0xffff_ffff
  }

  predicate SpecFits(s: RawSpec, version: u32, pcre: Pcre) {
    && Terminated(s.context) && Terminated(s.regex)
    && Sized(s.blob) && pcre.size(s.blob) == |s.blob|
    && Sized(s.study) && pcre.studySize(s.blob, s.study) == |s.study|
    && (version < 4 ==> s.prefix == 0)
  }

  predicate SpecsFit(specs: seq<RawSpec>, version: u32, pcre: Pcre) {
    forall i :: 0 <= i < |specs| ==> SpecFits(specs[i], version, pcre)
  }

  predicate StemsFit(stems: seq<Bytes>) {
    forall i :: 0 <= i < |stems| ==> StemFits(stems[i])
  }

  predicate FileFits(f: RawFile, pcre: Pcre) {
    && f.version <= 4
    && 0 < |f.stems| < 0x1_0000_0000 && StemsFit(f.stems)
    && 0 < |f.specs| < 0x1_0000_0000 && SpecsFit(f.specs, f.version, pcre)
  }

  // ---- what a file says --------------------------------------------------

  /** The stem table and the map after the stems of a file. */
  function StemsSaid(stems: seq<Bytes>, t: StemTable): StemTable {
    if stems == [] then t else
      StemsSaid(stems[1..], StemTable(WithStem(t.stems, stems[0]), t.stemMap + [StemNumber(t.stems, stems[0])]))
  }

  function SpecSaid(s: RawSpec, stemMap: seq<nat>): Spec {
    Spec(CString(s.context), CString(s.regex), s.mode, MapStem(stemMap, Signed(s.stem)), s.meta % 256, s.prefix, s.blob, s.study)
  }

  function SpecsSaid(specs: seq<RawSpec>, stemMap: seq<nat>): (r: seq<Spec>)
    ensures |r| == |specs|
  {
    seq(|specs|, i requires 0 <= i < |specs| => SpecSaid(specs[i], stemMap))
  }

  function FileSaid(f: RawFile, table: Data): Data {
    var t := StemsSaid(f.stems, StemTable(table.stems, []));
    Data(t.stems, table.specs + SpecsSaid(f.specs, t.stemMap))
  }

  // ---- well-formed pieces are read ----------------------------------------

  lemma TextRead(raw: Bytes, rest: Bytes)
    requires Terminated(raw)
    ensures TakeText(BlobBytes(raw) + rest) == Some(Read(CString(raw), rest))
  {
    hide TakeBlob, BlobBytes, CString;
    BlobThrough(raw, rest);
  }

  lemma StringsRead(a: Bytes, b: Bytes, rest: Bytes)
    requires Terminated(a) && Terminated(b)
    ensures TakeStrings(BlobBytes(a) + (BlobBytes(b) + rest)) == Some(Read((CString(a), CString(b)), rest))
  {
    hide TakeText, BlobBytes, CString;
    TextRead(a, BlobBytes(b) + rest);
    TextRead(b, rest);
  }

  lemma SpecRead(s: RawSpec, version: u32, rest: Bytes, stemMap: seq<nat>, pcre: Pcre)
    requires SpecFits(s, version, pcre)
    ensures TakeSpec(RawSpecBytes(s, version) + rest, version, stemMap, pcre) == Some(Read(SpecSaid(s, stemMap), rest))
  {
    hide TakeStrings, TakeNumbers, TakePcre, BlobBytes, U32, MapStem, Signed, PrefixBytesAt, CString;
    var tail := BlobBytes(s.blob) + BlobBytes(s.study) + rest;
    var middle := U32(s.mode) + U32(s.stem) + U32(s.meta) + PrefixBytesAt(s.prefix, version) + tail;
    assert RawSpecBytes(s, version) + rest == BlobBytes(s.context) + (BlobBytes(s.regex) + middle);
    StringsRead(s.context, s.regex, middle);
    NumbersThrough(s.mode, s.stem, s.meta, s.prefix, version, tail);
    PcreThrough(s.blob, s.study, rest, pcre);
  }

  lemma {:induction false} SpecsRead(specs: seq<RawSpec>, version: u32, rest: Bytes, stemMap: seq<nat>, pcre: Pcre, before: seq<Spec>)
    requires SpecsFit(specs, version, pcre)
    ensures TakeSpecs(RawSpecsBytes(specs, version) + rest, |specs|, version, stemMap, pcre, before)
            == Some(Read(before + SpecsSaid(specs, stemMap), rest))
  {
    hide TakeSpec, RawSpecBytes, SpecSaid, SpecFits;
    if specs == [] {
      assert RawSpecsBytes(specs, version) + rest == rest && before + SpecsSaid(specs, stemMap) == before;
    } else {
      var s := specs[0];
      var more := RawSpecsBytes(specs[1..], version) + rest;
      assert RawSpecsBytes(specs, version) + rest == RawSpecBytes(s, version) + more;
      SpecRead(s, version, more, stemMap, pcre);
      SpecsRead(specs[1..], version, rest, stemMap, pcre, before + [SpecSaid(s, stemMap)]);
      assert before + SpecsSaid(specs, stemMap) == before + [SpecSaid(s, stemMap)] + SpecsSaid(specs[1..], stemMap);
    }
  }

  lemma {:induction false} StemsRead(stems: seq<Bytes>, rest: Bytes, t: StemTable)
    requires StemsFit(stems)
    ensures TakeStems(StemsBytes(stems) + rest, |stems|, t) == Some(Read(StemsSaid(stems, t), rest))
  {
    hide TakeStem, StemBytes, WithStem, StemNumber;
    if stems == [] {
      assert StemsBytes(stems) + rest == rest;
    } else {
      var s := stems[0];
      var more := StemsBytes(stems[1..]) + rest;
      assert StemsBytes(stems) + rest == StemBytes(s) + more;
      StemThrough(s, more);
      StemsRead(stems[1..], rest, StemTable(WithStem(t.stems, s), t.stemMap + [StemNumber(t.stems, s)]));
    }
  }

  /** A well-formed file is loaded as it says, whatever follows it. */
  lemma FileRead(f: RawFile, pcre: Pcre, table: Data, trail: Bytes)
    requires FileFits(f, pcre) && IsText(pcre.version) && |pcre.version| < 0x1_0000_0000
    ensures LoadOnto(RawBytes(f, pcre) + trail, pcre, table) == Some(FileSaid(f, table))
  {
    hide TakeHeader, TakeU32, U32, TakeStems, TakeSpecs, HeaderBytesAt, StemsBytes, RawSpecsBytes, StemsSaid, SpecsSaid,
      SpecsFit, StemsFit;
    var specPart := RawSpecsBytes(f.specs, f.version) + trail;
    var fromCount := U32(|f.specs|) + specPart;
    var stemPart := StemsBytes(f.stems) + fromCount;
    var body := U32(|f.stems|) + stemPart;
    assert RawBytes(f, pcre) + trail == HeaderBytesAt(pcre, f.version) + body;
    HeaderThrough(body, pcre, f.version);
    U32Through(|f.stems|, stemPart);
    U32Through(|f.specs|, specPart);
    var t := StemsSaid(f.stems, StemTable(table.stems, []));
    StemsRead(f.stems, fromCount, StemTable(table.stems, []));
    SpecsRead(f.specs, f.version, trail, t.stemMap, pcre, table.specs);
  }

  // ---- whatever is read is well-formed -------------------------------------

  lemma BytesBack(b: Bytes)
    requires |b| == 4
    ensures U32(FromU32(b)) == b
  {
    var b0: int, b1: int, b2: int, b3: int := b[0], b[1], b[2], b[3];
    var n := FromU32(b);
    assert n % 256 == b0 && n / 256 == b1 + 256 * (b2 + 256 * b3);
    assert n / 256 % 256 == b1 && n / 256 / 256 == b2 + 256 * b3;
    assert n / 256 / 256 % 256 == b2 && n / 256 / 256 / 256 == b3;
  }

  lemma U32Shape(r: Bytes)
    requires TakeU32(r).Some?
    ensures var x := TakeU32(r).value; r == U32(x.value) + x.rest
  {
    hide U32, FromU32;
    BytesBack(r[..4]);
    assert r == r[..4] + r[4..];
  }

  lemma BlobShape(r: Bytes)
    requires TakeBlob(r).Some?
    ensures var x := TakeBlob(r).value; Sized(x.value) && r == BlobBytes(x.value) + x.rest
  {
    hide U32, TakeU32;
    U32Shape(r);
    var n := TakeU32(r).value;
    assert n.rest == n.rest[..n.value] + n.rest[n.value..];
    assert BlobBytes(n.rest[..n.value]) + n.rest[n.value..] == U32(n.value) + n.rest;
  }

  lemma TextShape(r: Bytes) returns (raw: Bytes)
    requires TakeText(r).Some?
    ensures var x := TakeText(r).value; Terminated(raw) && x.value == CString(raw) && r == BlobBytes(raw) + x.rest
  {
    hide TakeBlob, BlobBytes, CString;
    BlobShape(r);
    raw := TakeBlob(r).value.value;
  }

  lemma StringsShape(r: Bytes) returns (a: Bytes, b: Bytes)
    requires TakeStrings(r).Some?
    ensures var x := TakeStrings(r).value;
            && Terminated(a) && Terminated(b) && x.value == (CString(a), CString(b))
            && r == BlobBytes(a) + (BlobBytes(b) + x.rest)
  {
    hide TakeText, BlobBytes, CString;
    a := TextShape(r);
    b := TextShape(TakeText(r).value.rest);
  }

  lemma NumbersShape(r: Bytes, version: u32)
    requires TakeNumbers(r, version).Some?
    ensures var x := TakeNumbers(r, version).value;
            && r == U32(x.value.0) + U32(x.value.1) + U32(x.value.2) + PrefixBytesAt(x.value.3, version) + x.rest
            && (version < 4 ==> x.value.3 == 0)
  {
    hide TakeU32, U32;
    U32Shape(r);
    var mode := TakeU32(r).value;
    U32Shape(mode.rest);
    var stem := TakeU32(mode.rest).value;
    U32Shape(stem.rest);
    var meta := TakeU32(stem.rest).value;
    if version >= 4 {
      U32Shape(meta.rest);
      var prefix := TakeU32(meta.rest).value;
      assert r == U32(mode.value) + (U32(stem.value) + (U32(meta.value) + (U32(prefix.value) + prefix.rest)));
    } else {
      assert r == U32(mode.value) + (U32(stem.value) + (U32(meta.value) + meta.rest));
    }
  }

  lemma PcreShape(r: Bytes, pcre: Pcre)
    requires TakePcre(r, pcre).Some?
    ensures var x := TakePcre(r, pcre).value;
            && Sized(x.value.0) && pcre.size(x.value.0) == |x.value.0|
            && Sized(x.value.1) && pcre.studySize(x.value.0, x.value.1) == |x.value.1|
            && r == BlobBytes(x.value.0) + BlobBytes(x.value.1) + x.rest
  {
    hide TakeBlob, BlobBytes;
    BlobShape(r);
    var blob := TakeBlob(r).value;
    BlobShape(blob.rest);
    var study := TakeBlob(blob.rest).value;
    assert BlobBytes(blob.value) + (BlobBytes(study.value) + study.rest)
        == BlobBytes(blob.value) + BlobBytes(study.value) + study.rest;
  }

  lemma SpecPieces(a: Bytes, b: Bytes, c: Bytes, d: Bytes, rest: Bytes)
    ensures a + (b + (c + (d + rest))) == a + b + c + d + rest
  {
  }

  lemma SpecShape(r: Bytes, version: u32, stemMap: seq<nat>, pcre: Pcre) returns (s: RawSpec)
    requires TakeSpec(r, version, stemMap, pcre).Some?
    ensures var x := TakeSpec(r, version, stemMap, pcre).value;
            SpecFits(s, version, pcre) && x.value == SpecSaid(s, stemMap) && r == RawSpecBytes(s, version) + x.rest
  {
    hide TakeStrings, TakeNumbers, TakePcre, BlobBytes, U32, MapStem, Signed, PrefixBytesAt, CString;
    var a, b := StringsShape(r);
    var text := TakeStrings(r).value;
    NumbersShape(text.rest, version);
    var n := TakeNumbers(text.rest, version).value;
    PcreShape(n.rest, pcre);
    var p := TakePcre(n.rest, pcre).value;
    s := RawSpec(a, b, n.value.0, n.value.1, n.value.2, n.value.3, p.value.0, p.value.1);
    var numbers := U32(s.mode) + U32(s.stem) + U32(s.meta) + PrefixBytesAt(s.prefix, version);
    SpecPieces(BlobBytes(a), BlobBytes(b), numbers, BlobBytes(s.blob) + BlobBytes(s.study), p.rest);
    assert RawSpecBytes(s, version) == BlobBytes(a) + BlobBytes(b) + numbers + (BlobBytes(s.blob) + BlobBytes(s.study));
  }

  lemma {:induction false} SpecsShape(r: Bytes, n: nat, version: u32, stemMap: seq<nat>, pcre: Pcre, before: seq<Spec>)
    returns (specs: seq<RawSpec>)
    requires TakeSpecs(r, n, version, stemMap, pcre, before).Some?
    ensures var x := TakeSpecs(r, n, version, stemMap, pcre, before).value;
            && |specs| == n && SpecsFit(specs, version, pcre) && x.value == before + SpecsSaid(specs, stemMap)
            && r == RawSpecsBytes(specs, version) + x.rest
    decreases n
  {
    hide TakeSpec, RawSpecBytes, SpecSaid, SpecFits;
    if n == 0 {
      specs := [];
      assert before + SpecsSaid(specs, stemMap) == before;
    } else {
      var s := SpecShape(r, version, stemMap, pcre);
      var x := TakeSpec(r, version, stemMap, pcre).value;
      var more := SpecsShape(x.rest, n - 1, version, stemMap, pcre, before + [x.value]);
      specs := [s] + more;
      assert specs[1..] == more;
      assert before + SpecsSaid(specs, stemMap) == before + [x.value] + SpecsSaid(more, stemMap);
    }
  }

  lemma StemShape(r: Bytes)
    requires TakeStem(r).Some?
    ensures var x := TakeStem(r).value; StemFits(x.value) && r == StemBytes(x.value) + x.rest
  {
    hide U32, TakeU32;
    U32Shape(r);
    var n := TakeU32(r).value;
    var body := n.rest[..n.value + 1];
    assert body == body[..n.value] + [NUL];
    assert n.rest == body + n.rest[n.value + 1..];
    assert StemBytes(body[..n.value]) + n.rest[n.value + 1..] == U32(n.value) + (body + n.rest[n.value + 1..]);
  }

  lemma {:induction false} StemsShape(r: Bytes, n: nat, t: StemTable) returns (stems: seq<Bytes>)
    requires TakeStems(r, n, t).Some?
    ensures var x := TakeStems(r, n, t).value;
            && |stems| == n && StemsFit(stems) && x.value == StemsSaid(stems, t) && r == StemsBytes(stems) + x.rest
    decreases n
  {
    hide TakeStem, StemBytes, WithStem, StemNumber, StemFits;
    if n == 0 {
      stems := [];
    } else {
      StemShape(r);
      var x := TakeStem(r).value;
      var more := StemsShape(x.rest, n - 1,
                             StemTable(WithStem(t.stems, x.value), t.stemMap + [StemNumber(t.stems, x.value)]));
      stems := [x.value] + more;
      assert stems[1..] == more;
    }
  }

  lemma SameCString(a: Bytes, b: Bytes)
    requires |a| == |b| && CString(a) == b
    ensures a == b
  {
    CStringIsPrefix(a);
  }

  lemma HeaderShape(r: Bytes, pcre: Pcre)
    requires TakeHeader(r, pcre).Some?
    ensures var x := TakeHeader(r, pcre).value; x.value <= 4 && r == HeaderBytesAt(pcre, x.value) + x.rest
  {
    hide TakeU32, U32, CString;
    U32Shape(r);
    var magic := TakeU32(r).value;
    U32Shape(magic.rest);
    var version := TakeU32(magic.rest).value;
    if version.value >= 2 {
      U32Shape(version.rest);
      var n := TakeU32(version.rest).value;
      SameCString(n.rest[..n.value], pcre.version);
      assert n.rest == pcre.version + n.rest[n.value..];
      assert r == U32(MAGIC) + (U32(version.value) + (U32(n.value) + (pcre.version + n.rest[n.value..])));
    } else {
      assert r == U32(MAGIC) + (U32(version.value) + version.rest);
    }
  }

  lemma FilePieces(a: Bytes, b: Bytes, c: Bytes, d: Bytes, e: Bytes, rest: Bytes)
    ensures a + (b + (c + (d + (e + rest)))) == a + b + c + d + e + rest
  {
  }

  /** Whatever the loader accepts begins with a well-formed file, and is loaded as that file says. */
  lemma FileShape(area: Bytes, pcre: Pcre, table: Data) returns (f: RawFile, trail: Bytes)
    requires LoadOnto(area, pcre, table).Some?
    ensures FileFits(f, pcre) && area == RawBytes(f, pcre) + trail && LoadOnto(area, pcre, table).value == FileSaid(f, table)
  {
    hide TakeHeader, TakeU32, U32, TakeStems, TakeSpecs, HeaderBytesAt, StemsBytes, RawSpecsBytes, StemsSaid, SpecsSaid,
      SpecsFit, StemsFit;
    HeaderShape(area, pcre);
    var version := TakeHeader(area, pcre).value;
    U32Shape(version.rest);
    var nstems := TakeCount(version.rest).value;
    var stems := StemsShape(nstems.rest, nstems.value, StemTable(table.stems, []));
    var t := TakeStems(nstems.rest, nstems.value, StemTable(table.stems, [])).value;
    U32Shape(t.rest);
    var nspecs := TakeCount(t.rest).value;
    var specs := SpecsShape(nspecs.rest, nspecs.value, version.value, t.value.stemMap, pcre, table.specs);
    trail := TakeSpecs(nspecs.rest, nspecs.value, version.value, t.value.stemMap, pcre, table.specs).value.rest;
    f := RawFile(version.value, stems, specs);
    FilePieces(HeaderBytesAt(pcre, f.version), U32(|stems|), StemsBytes(stems), U32(|specs|), RawSpecsBytes(specs, f.version), trail);
  }

  ghost predicate IsFile(area: Bytes, pcre: Pcre, f: RawFile, trail: Bytes) {
    FileFits(f, pcre) && area == RawBytes(f, pcre) + trail
  }

  /** On every byte sequence: the loader accepts it exactly when it begins with a well-formed file, and then every such
      reading of it says what was loaded. */
  lemma AcceptedExactly(area: Bytes, pcre: Pcre, table: Data)
    requires IsText(pcre.version) && |pcre.version| < 0x1_0000_0000
    ensures LoadOnto(area, pcre, table).Some? <==> exists f, trail :: IsFile(area, pcre, f, trail)
    ensures forall f, trail :: IsFile(area, pcre, f, trail) ==> LoadOnto(area, pcre, table) == Some(FileSaid(f, table))
  {
    hide LoadOnto, FileFits, RawBytes, FileSaid;
    if LoadOnto(area, pcre, table).Some? {
      var f, trail := FileShape(area, pcre, table);
      assert IsFile(area, pcre, f, trail);
    }
    forall f, trail | IsFile(area, pcre, f, trail) ensures LoadOnto(area, pcre, table) == Some(FileSaid(f, table)) {
      FileRead(f, pcre, table, trail);
    }
  }
}
