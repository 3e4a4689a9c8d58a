/** The join database of libsemanage: two child lists merged by key, and split again on flush. */
module RecordJoin {
  import opened RecordList
  import opened Wrappers

  /** The record_join_table: how two halves make a value, and how a value comes apart. */
  datatype JoinTable<!A, !B, !C> = JoinTable(join: (Option<A>, Option<B>) -> C, split: C -> (A, B))

  // ---- sorting --------------------------------------------------------

  predicate Ascending<V>(s: seq<Record<V>>) {
    forall i, j :: 0 <= i < j < |s| ==> s[i].key < s[j].key
  }

  function Insert<V>(s: seq<Record<V>>, r: Record<V>): (t: seq<Record<V>>)
    ensures |t| == |s| + 1
  {
    if s == [] || r.key < s[0].key then [r] + s else [s[0]] + Insert(s[1..], r)
  }

  /** qsort by key. */
  function Sorted<V>(s: seq<Record<V>>): (t: seq<Record<V>>)
    ensures |t| == |s|
  {
    if s == [] then [] else Insert(Sorted(s[..|s| - 1]), s[|s| - 1])
  }

  lemma {:induction false} InsertMembers<V>(s: seq<Record<V>>, r: Record<V>)
    ensures multiset(Insert(s, r)) == multiset(s) + multiset{r}
  {
    if s != [] && r.key >= s[0].key {
      InsertMembers(s[1..], r);
      assert s == [s[0]] + s[1..];
    }
  }

  ghost predicate Above<V>(key: int, s: seq<Record<V>>) {
    forall i :: 0 <= i < |s| ==> key < s[i].key
  }

  lemma {:induction false} InsertAscending<V>(s: seq<Record<V>>, r: Record<V>)
    requires Ascending(s) && forall i :: 0 <= i < |s| ==> s[i].key != r.key
    ensures Ascending(Insert(s, r))
    ensures forall k :: Above(k, s) && k < r.key ==> Above(k, Insert(s, r))
  {
    if s != [] && r.key >= s[0].key {
      InsertAscending(s[1..], r);
      assert Above(s[0].key, s[1..]);
      assert Above(s[0].key, Insert(s[1..], r));
      forall k | Above(k, s) && k < r.key ensures Above(k, Insert(s, r)) {
        assert Above(k, s[1..]);
      }
    }
  }

  lemma {:induction false} SortedMembers<V>(s: seq<Record<V>>)
    ensures multiset(Sorted(s)) == multiset(s)
    ensures DistinctKeys(s) ==> Ascending(Sorted(s))
  {
    if s != [] {
      var s', r := s[..|s| - 1], s[|s| - 1];
      SortedMembers(s');
      assert s == s' + [r];
      InsertMembers(Sorted(s'), r);
      if DistinctKeys(s) {
        forall i | 0 <= i < |Sorted(s')| ensures Sorted(s')[i].key != r.key {
          assert Sorted(s')[i] in multiset(Sorted(s'));
          assert Sorted(s')[i] in s';
        }
        InsertAscending(Sorted(s'), r);
      }
    }
  }

  // ---- merging --------------------------------------------------------

  /** The record for the smallest key of two sorted lists, and so on. */
  function Merge<A, B, C>(s: seq<Record<A>>, t: seq<Record<B>>, table: JoinTable<A, B, C>): seq<Record<C>>
    decreases |s| + |t|
  {
    if s == [] && t == [] then []
    else if s == [] || (t != [] && t[0].key < s[0].key) then
      [Record(t[0].key, table.join(None, Some(t[0].value)))] + Merge(s, t[1..], table)
    else if t == [] || s[0].key < t[0].key then
      [Record(s[0].key, table.join(Some(s[0].value), None))] + Merge(s[1..], t, table)
    else
      [Record(s[0].key, table.join(Some(s[0].value), Some(t[0].value)))] + Merge(s[1..], t[1..], table)
  }

  /** The value a list holds for a key. */
  ghost function Half<V>(s: seq<Record<V>>, key: int): Option<V> {
    var i := IndexOf(s, key);
    if i < |s| then Some(s[i].value) else None
  }

  /** The outer join: in ascending order, one record for each key of either list, made of the halves there are. */
  ghost predicate OuterJoin<A, B, C>(s: seq<Record<A>>, t: seq<Record<B>>, table: JoinTable<A, B, C>, out: seq<Record<C>>) {
    && Ascending(out)
    && forall key :: Half(out, key) ==
         if Half(s, key).None? && Half(t, key).None? then None else Some(table.join(Half(s, key), Half(t, key)))
  }

  /** In an ascending list the first record alone has its key, and smaller keys are absent. */
  lemma HalfSteps<V>(s: seq<Record<V>>, key: int)
    requires Ascending(s) && s != []
    ensures Half(s, key) == if key == s[0].key then Some(s[0].value) else Half(s[1..], key)
    ensures Ascending(s[1..]) && Above(s[0].key, s[1..])
    ensures key < s[0].key ==> Half(s, key) == None
  {
    if key < s[0].key {
      IndexAbsent(s, key);
    }
  }

  lemma ConsAscending<V>(r: Record<V>, s: seq<Record<V>>)
    requires Ascending(s) && Above(r.key, s)
    ensures Ascending([r] + s)
  {
  }

  lemma HalfCons<V>(r: Record<V>, s: seq<Record<V>>, key: int)
    ensures Half([r] + s, key) == if key == r.key then Some(r.value) else Half(s, key)
  {
    assert ([r] + s)[1..] == s;
  }

  /** The next key, what remains of the two lists, and the record made. */
  lemma MergeStep<A, B, C>(s: seq<Record<A>>, t: seq<Record<B>>, table: JoinTable<A, B, C>)
    returns (k: int, s': seq<Record<A>>, t': seq<Record<B>>)
    requires Ascending(s) && Ascending(t) && (s != [] || t != [])
    ensures s' == (if s != [] && s[0].key == k then s[1..] else s) && t' == (if t != [] && t[0].key == k then t[1..] else t)
    ensures |s'| + |t'| < |s| + |t| && Ascending(s') && Ascending(t') && Above(k, s') && Above(k, t')
    ensures (s != [] && s[0].key == k) || (t != [] && t[0].key == k)
    ensures Merge(s, t, table) == [Record(k, table.join(Half(s, k), Half(t, k)))] + Merge(s', t', table)
  {
    k := if s == [] || (t != [] && t[0].key < s[0].key) then t[0].key else s[0].key;
    s' := if s != [] && s[0].key == k then s[1..] else s;
    t' := if t != [] && t[0].key == k then t[1..] else t;
    if s != [] {
      HalfSteps(s, k);
    }
    if t != [] {
      HalfSteps(t, k);
    }
  }

  lemma {:induction false} MergeAscending<A, B, C>(s: seq<Record<A>>, t: seq<Record<B>>, table: JoinTable<A, B, C>)
    requires Ascending(s) && Ascending(t)
    ensures Ascending(Merge(s, t, table))
    ensures forall k :: Above(k, s) && Above(k, t) ==> Above(k, Merge(s, t, table))
    decreases |s| + |t|
  {
    if s == [] && t == [] {
    } else {
      var k, s', t' := MergeStep(s, t, table);
      MergeAscending(s', t', table);
      ConsAscending(Merge(s, t, table)[0], Merge(s', t', table));
      forall j | Above(j, s) && Above(j, t) ensures Above(j, Merge(s, t, table)) {
        assert Above(j, s') && Above(j, t');
      }
    }
  }

  /** The merge of two ascending lists is their outer join. */
  lemma {:induction false} MergeHalf<A, B, C>(s: seq<Record<A>>, t: seq<Record<B>>, table: JoinTable<A, B, C>, key: int)
    requires Ascending(s) && Ascending(t)
    ensures Half(Merge(s, t, table), key) ==
              if Half(s, key).None? && Half(t, key).None? then None else Some(table.join(Half(s, key), Half(t, key)))
    decreases |s| + |t|
  {
    if s != [] || t != [] {
      var k, s', t' := MergeStep(s, t, table);
      MergeHalf(s', t', table, key);
      HalfCons(Record(k, table.join(Half(s, k), Half(t, k))), Merge(s', t', table), key);
      if s != [] {
        HalfSteps(s, key);
      }
      if t != [] {
        HalfSteps(t, key);
      }
    }
  }

  lemma MergeIsOuterJoin<A, B, C>(s: seq<Record<A>>, t: seq<Record<B>>, table: JoinTable<A, B, C>)
    requires Ascending(s) && Ascending(t)
    ensures OuterJoin(s, t, table, Merge(s, t, table))
  {
    MergeAscending(s, t, table);
    forall key {
      MergeHalf(s, t, table, key);
    }
  }

  lemma KeyInBoth<V>(s: seq<Record<V>>, t: seq<Record<V>>, key: int)
    requires multiset(s) == multiset(t) && IndexOf(t, key) < |t|
    ensures IndexOf(s, key) < |s|
  {
    var x := t[IndexOf(t, key)];
    assert x in multiset(s);
    var k :| 0 <= k < |s| && s[k] == x;
  }

  /** With distinct keys, neither sorting nor reversing changes what a list holds. */
  lemma SameHalf<V>(s: seq<Record<V>>, t: seq<Record<V>>, key: int)
    requires DistinctKeys(s) && multiset(s) == multiset(t)
    ensures Half(s, key) == Half(t, key)
  {
    if IndexOf(t, key) < |t| {
      KeyInBoth(s, t, key);
      assert t[IndexOf(t, key)] in multiset(s);
      assert t[IndexOf(t, key)] in s;
    } else if IndexOf(s, key) < |s| {
      KeyInBoth(t, s, key);
    }
  }

  lemma {:induction false} ReversedMembers<V>(s: seq<Record<V>>)
    ensures multiset(Reversed(s)) == multiset(s)
    ensures DistinctKeys(s) ==> DistinctKeys(Reversed(s))
  {
    if s != [] {
      ReversedMembers(s[1..]);
      assert Reversed(s) == Reversed(s[1..]) + [s[0]];
      assert s == [s[0]] + s[1..];
    }
  }

  /** What dbase_join_cache computes from two lists with distinct keys. */
  lemma JoinedHalves<A, B, C>(a: seq<Record<A>>, b: seq<Record<B>>, table: JoinTable<A, B, C>)
    requires DistinctKeys(a) && DistinctKeys(b)
    ensures OuterJoin(a, b, table, Merge(Sorted(Reversed(a)), Sorted(Reversed(b)), table))
  {
    var s, t := Sorted(Reversed(a)), Sorted(Reversed(b));
    ReversedMembers(a);
    ReversedMembers(b);
    SortedMembers(Reversed(a));
    SortedMembers(Reversed(b));
    MergeIsOuterJoin(s, t, table);
    forall key ensures Half(a, key) == Half(s, key) && Half(b, key) == Half(t, key) {
      SameHalf(a, s, key);
      SameHalf(b, t, key);
    }
  }

  // ---- the join database ----------------------------------------------

  /** What one turn of the merge loop does at positions `i` and `j`. */
  lemma MergeAt<A, B, C>(s: seq<Record<A>>, t: seq<Record<B>>, i: nat, j: nat, table: JoinTable<A, B, C>)
    requires i <= |s| && j <= |t| && (i < |s| || j < |t|)
    ensures var rest := Merge(s[i..], t[j..], table);
            if i == |s| || (j < |t| && t[j].key < s[i].key) then
              rest == [Record(t[j].key, table.join(None, Some(t[j].value)))] + Merge(s[i..], t[j + 1..], table)
            else if j == |t| || t[j].key > s[i].key then
              rest == [Record(s[i].key, table.join(Some(s[i].value), None))] + Merge(s[i + 1..], t[j..], table)
            else
              rest == [Record(s[i].key, table.join(Some(s[i].value), Some(t[j].value)))] + Merge(s[i + 1..], t[j + 1..], table)
  {
    assert i < |s| ==> s[i..][1..] == s[i + 1..];
    assert j < |t| ==> t[j..][1..] == t[j + 1..];
  }

  lemma NothingMerged<A, B, C>(s: seq<Record<A>>, t: seq<Record<B>>, table: JoinTable<A, B, C>)
    requires s == [] && t == []
    ensures Merge(s, t, table) == []
  {
  }

  lemma ReversedPrepend<V>(r: Record<V>, s: seq<Record<V>>)
    ensures Reversed([r] + s) == Reversed(s) + [r]
  {
  }

  lemma NothingReversed<V>()
    ensures Reversed<V>([]) == []
  {
  }

  lemma Regrouped<V>(a: seq<V>, v: V, b: seq<V>)
    ensures a + ([v] + b) == a + [v] + b
  {
  }

  /** The merge loop of dbase_join_cache. */
  method MergeInto<A, B, C>(records1: seq<Record<A>>, records2: seq<Record<B>>, joined: List<C>, table: JoinTable<A, B, C>)
    requires joined.Valid() && joined.records == []
    modifies joined
    ensures joined.Valid() && Reversed(joined.records) == Merge(records1, records2, table)
    ensures joined.modified == old(joined.modified)
  {
    hide Reversed, Merge, Mirrored;
    var i, j := 0, 0;
    assert records1[0..] == records1 && records2[0..] == records2;
    NothingReversed<C>();
    while i < |records1| || j < |records2|
      invariant 0 <= i <= |records1| && 0 <= j <= |records2|
      invariant joined.Valid() && joined.modified == old(joined.modified)
      invariant Merge(records1, records2, table) == Reversed(joined.records) + Merge(records1[i..], records2[j..], table)
      decreases |records1| - i + |records2| - j
    {
      MergeAt(records1, records2, i, j, table);
      ghost var rest := Merge(records1[i..], records2[j..], table);
      var record;
      if i == |records1| || (j < |records2| && records2[j].key < records1[i].key) {
        record := Record(records2[j].key, table.join(None, Some(records2[j].value)));
        j := j + 1;
      } else if j == |records2| || records2[j].key > records1[i].key {
        record := Record(records1[i].key, table.join(Some(records1[i].value), None));
        i := i + 1;
      } else {
        record := Record(records1[i].key, table.join(Some(records1[i].value), Some(records2[j].value)));
        i, j := i + 1, j + 1;
      }
      assert rest == [record] + Merge(records1[i..], records2[j..], table);
      Regrouped(Reversed(joined.records), record, Merge(records1[i..], records2[j..], table));
      ReversedPrepend(record, joined.records);
      joined.Prepend(record);
    }
    NothingMerged(records1[i..], records2[j..], table);
  }

  /** dbase_join_cache: list and sort the children, merge them, prepend each record. */
  method JoinCache<A, B, C>(a: List<A>, b: List<B>, joined: List<C>, table: JoinTable<A, B, C>)
    requires a.Valid() && b.Valid() && (a as object) != joined && (b as object) != joined
    modifies joined
    ensures joined.Valid() && !joined.modified
    ensures Reversed(joined.records) == Merge(Sorted(Reversed(a.records)), Sorted(Reversed(b.records)), table)
    ensures DistinctKeys(a.records) && DistinctKeys(b.records) ==> OuterJoin(a.records, b.records, table, Reversed(joined.records))
  {
    hide Sorted, Reversed, Merge, DistinctKeys, OuterJoin, Mirrored;
    var records1 := a.ToSeq();
    var records2 := b.ToSeq();
    records1, records2 := Sorted(records1), Sorted(records2);
    joined.Clear();
    joined.modified := false;
    MergeInto(records1, records2, joined, table);
    if DistinctKeys(a.records) && DistinctKeys(b.records) {
      JoinedHalves(a.records, b.records, table);
    }
  }

  function First<A, B, C>(r: Record<C>, table: JoinTable<A, B, C>): Record<A> {
    Record(r.key, table.split(r.value).0)
  }

  function Second<A, B, C>(r: Record<C>, table: JoinTable<A, B, C>): Record<B> {
    Record(r.key, table.split(r.value).1)
  }

  function Firsts<A, B, C>(s: seq<Record<C>>, table: JoinTable<A, B, C>): (h: seq<Record<A>>)
    ensures |h| == |s|
  {
    seq(|s|, i requires 0 <= i < |s| => First(s[i], table))
  }

  function Seconds<A, B, C>(s: seq<Record<C>>, table: JoinTable<A, B, C>): (h: seq<Record<B>>)
    ensures |h| == |s|
  {
    seq(|s|, i requires 0 <= i < |s| => Second(s[i], table))
  }

  lemma FirstsAppend<A, B, C>(s: seq<Record<C>>, i: nat, table: JoinTable<A, B, C>)
    requires i < |s|
    ensures Firsts(s[..i + 1], table) == Firsts(s[..i], table) + [First(s[i], table)]
    ensures Seconds(s[..i + 1], table) == Seconds(s[..i], table) + [Second(s[i], table)]
    ensures Firsts(s[..0], table) == [] && Seconds(s[..0], table) == []
  {
  }

  /** dbase_join_flush: clear the children, then add both halves of every record, from the tail on. */
  method JoinFlush<A, B, C>(joined: List<C>, a: List<A>, b: List<B>, table: JoinTable<A, B, C>)
    requires joined.Valid() && a.Valid() && b.Valid()
    requires (a as object) != joined && (b as object) != joined && (a as object) != b
    modifies joined`modified, a, b
    ensures joined.Valid() && !joined.modified && a.Valid() && b.Valid()
    ensures old(joined.modified) ==> Reversed(a.records) == Firsts(Reversed(joined.records), table)
    ensures old(joined.modified) ==> Reversed(b.records) == Seconds(Reversed(joined.records), table)
    ensures old(joined.modified) ==> a.modified && b.modified
    ensures !old(joined.modified) ==> a.records == old(a.records) && b.records == old(b.records)
  {
    hide Reversed, Firsts, Seconds, Mirrored;
    if !joined.modified {
      return;
    }
    NothingReversed<A>();
    NothingReversed<B>();
    a.Clear();
    b.Clear();
    var records := joined.ToSeq();
    for i := 0 to |records|
      invariant a.Valid() && b.Valid() && a.modified && b.modified
      invariant Reversed(a.records) == Firsts(records[..i], table) && Reversed(b.records) == Seconds(records[..i], table)
    {
      var r := records[i];
      FirstsAppend(records, i, table);
      ReversedPrepend(First(r, table), a.records);
      ReversedPrepend(Second(r, table), b.records);
      a.Add(First(r, table));
      b.Add(Second(r, table));
    }
    assert records[..|records|] == records;
    joined.modified := false;
  }

  // ---- flush, then cache again ----------------------------------------

  ghost predicate Undoes<A, B, C>(table: JoinTable<A, B, C>, r: Record<C>) {
    table.join(Some(First(r, table).value), Some(Second(r, table).value)) == r.value
  }

  lemma {:induction false} InsertFirsts<A, B, C>(s: seq<Record<C>>, r: Record<C>, table: JoinTable<A, B, C>)
    ensures Firsts(Insert(s, r), table) == Insert(Firsts(s, table), First(r, table))
    ensures Seconds(Insert(s, r), table) == Insert(Seconds(s, table), Second(r, table))
  {
    if s != [] && r.key >= s[0].key {
      InsertFirsts(s[1..], r, table);
      assert Firsts(s, table)[1..] == Firsts(s[1..], table);
      assert Seconds(s, table)[1..] == Seconds(s[1..], table);
    }
  }

  /** Splitting keeps the keys, so it may be done before or after sorting. */
  lemma {:induction false} SortedFirsts<A, B, C>(s: seq<Record<C>>, table: JoinTable<A, B, C>)
    ensures Sorted(Firsts(s, table)) == Firsts(Sorted(s), table)
    ensures Sorted(Seconds(s, table)) == Seconds(Sorted(s), table)
  {
    if s != [] {
      var s', r := s[..|s| - 1], s[|s| - 1];
      SortedFirsts(s', table);
      assert Firsts(s, table)[..|s| - 1] == Firsts(s', table) && Seconds(s, table)[..|s| - 1] == Seconds(s', table);
      InsertFirsts(Sorted(s'), r, table);
    }
  }

  /** Merging the two halves of one list meets equal keys at every step. */
  lemma {:induction false} MergeHalves<A, B, C>(s: seq<Record<C>>, table: JoinTable<A, B, C>)
    ensures var out := Merge(Firsts(s, table), Seconds(s, table), table);
            |out| == |s| && forall i :: 0 <= i < |s| ==>
              out[i] == Record(s[i].key, table.join(Some(First(s[i], table).value), Some(Second(s[i], table).value)))
  {
    if s != [] {
      MergeHalves(s[1..], table);
      assert Firsts(s, table)[1..] == Firsts(s[1..], table) && Seconds(s, table)[1..] == Seconds(s[1..], table);
    }
  }

  /** Flushing into the children and caching again gives back the records, sorted by key, exactly when joining undoes
      splitting for each of them. */
  lemma FlushThenCache<A, B, C>(s: seq<Record<C>>, table: JoinTable<A, B, C>)
    ensures Merge(Sorted(Firsts(s, table)), Sorted(Seconds(s, table)), table) == Sorted(s)
            <==> forall i :: 0 <= i < |s| ==> Undoes(table, s[i])
  {
    hide Merge;
    SortedFirsts(s, table);
    SortedMembers(s);
    var t := Sorted(s);
    MergeHalves(t, table);
    var out := Merge(Firsts(t, table), Seconds(t, table), table);
    if out == t {
      forall i | 0 <= i < |s| ensures Undoes(table, s[i]) {
        assert s[i] in multiset(s);
        assert s[i] in t;
        var j :| 0 <= j < |t| && t[j] == s[i];
        assert out[j] == t[j];
      }
    }
    if forall i :: 0 <= i < |s| ==> Undoes(table, s[i]) {
      forall j | 0 <= j < |t| ensures out[j] == t[j] {
        assert t[j] in multiset(t);
        assert t[j] in s;
      }
    }
  }

  /** A flush followed by a new cache: a modified database comes back in key order exactly when joining undoes
      splitting for each of its records. */
  method FlushAndCache<A, B, C>(joined: List<C>, a: List<A>, b: List<B>, table: JoinTable<A, B, C>)
    requires joined.Valid() && a.Valid() && b.Valid()
    requires (a as object) != joined && (b as object) != joined && (a as object) != b
    modifies joined, a, b
    ensures joined.Valid() && a.Valid() && b.Valid()
    ensures old(joined.modified) ==>
              var was := Reversed(old(joined.records));
              Reversed(joined.records) == Sorted(was) <==> forall i :: 0 <= i < |was| ==> Undoes(table, was[i])
  {
    hide Merge, Sorted, Firsts, Seconds, Undoes;
    JoinFlush(joined, a, b, table);
    JoinCache(a, b, joined, table);
    FlushThenCache(Reversed(old(joined.records)), table);
  }

  // ---- the users database ---------------------------------------------

  /** The two halves of a user record, their shared name apart. */
  datatype UserBase = UserBase(roles: seq<string>, level: string, range: string)
  datatype UserExtra = UserExtra(prefix: string)
  datatype User = User(base: UserBase, extra: UserExtra)

  /** semanage_user_join, with a blank half for a missing one, and semanage_user_split. */
  const USERS: JoinTable<UserBase, UserExtra, User> :=
    JoinTable((a: Option<UserBase>, b: Option<UserExtra>) =>
                User(if a.Some? then a.value else UserBase([], "", ""), if b.Some? then b.value else UserExtra("user")),
              (u: User) => (u.base, u.extra))

  /** Flushing the users and caching them again loses nothing. */
  lemma UsersSurvive(s: seq<Record<User>>)
    ensures Merge(Sorted(Firsts(s, USERS)), Sorted(Seconds(s, USERS)), USERS) == Sorted(s)
  {
    hide Merge, Sorted, Firsts, Seconds;
    FlushThenCache(s, USERS);
    forall i | 0 <= i < |s| ensures Undoes(USERS, s[i]) {
    }
  }

  /** No record of the list has the key. */
  predicate NoKey<V>(s: seq<Record<V>>, key: int) {
    forall i :: 0 <= i < |s| ==> s[i].key != key
  }

  lemma HalfMeaning<V>(s: seq<Record<V>>, key: int, v: V)
    requires DistinctKeys(s)
    ensures Half(s, key) == Some(v) <==> Record(key, v) in s
    ensures Half(s, key).None? <==> NoKey(s, key)
  {
    hide IndexOf;
  }

  /** A user is joined of the halves there are, a blank base for a missing one and the prefix "user" for a missing
      extra half; a name in neither list has no user. */
  ghost predicate JoinedUser(bases: seq<Record<UserBase>>, extras: seq<Record<UserExtra>>, key: int, user: User) {
    && !(NoKey(bases, key) && NoKey(extras, key))
    && (Record(key, user.base) in bases || (NoKey(bases, key) && user.base == UserBase([], "", "")))
    && (Record(key, user.extra) in extras || (NoKey(extras, key) && user.extra == UserExtra("user")))
  }

  lemma UserHalves(bases: seq<Record<UserBase>>, extras: seq<Record<UserExtra>>, out: seq<Record<User>>, key: int, user: User)
    requires DistinctKeys(bases) && DistinctKeys(extras) && OuterJoin(bases, extras, USERS, out)
    ensures Record(key, user) in out <==> JoinedUser(bases, extras, key, user)
  {
    hide Half, NoKey;
    HalfMeaning(out, key, user);
    HalfMeaning(bases, key, user.base);
    HalfMeaning(extras, key, user.extra);
  }

  /** The users database as it is read: one user for each name of either file. */
  method CacheUsers(bases: List<UserBase>, extras: List<UserExtra>, users: List<User>)
    requires bases.Valid() && extras.Valid() && (bases as object) != users && (extras as object) != users
    modifies users
    ensures users.Valid()
    ensures DistinctKeys(bases.records) && DistinctKeys(extras.records) ==>
              && Ascending(Reversed(users.records))
              && forall key, user ::
                   Record(key, user) in Reversed(users.records) <==> JoinedUser(bases.records, extras.records, key, user)
  {
    hide Half, JoinedUser, Merge, Sorted, Reversed, DistinctKeys;
    JoinCache(bases, extras, users, USERS);
    if DistinctKeys(bases.records) && DistinctKeys(extras.records) {
      forall key, user
        ensures Record(key, user) in Reversed(users.records) <==> JoinedUser(bases.records, extras.records, key, user)
      {
        UserHalves(bases.records, extras.records, Reversed(users.records), key, user);
      }
    }
  }
}
