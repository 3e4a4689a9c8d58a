/**
 Reading the command list of an extended-permission rule into 16-bit ranges,
 and putting those ranges in normal form: sorted, merged and, after a `~`,
 complemented.
 */
module IoctlRanges {
  import opened Bits

  /** What the grammar leaves in the identifier queue: numbers, `-` and `~`. */
  datatype Token = Tilde | Dash | Num(value: nat)

  datatype Range = Range(low: u16, high: u16)

  datatype Result<T> = Ok(value: T) | Err

  const LAST: u16 := 0xffff

  predicate IsSingle(ts: seq<Token>) {
    |ts| >= 1 && ts[0].Num? && (|ts| >= 2 ==> !ts[1].Dash?)
  }

  predicate IsRange(ts: seq<Token>) {
    |ts| >= 3 && ts[0].Num? && ts[1].Dash? && ts[2].Num?
  }

  /** Single values, `a - b` ranges and `~`. The grammar queues a `~` after the numbers it applies to, but reading does
      not depend on its place. */
  predicate Elements(ts: seq<Token>)
    decreases |ts|
  {
    || ts == []
    || (ts[0].Tilde? && Elements(ts[1..]))
    || (IsRange(ts) && Elements(ts[3..]))
    || (IsSingle(ts) && Elements(ts[1..]))
  }

  predicate WellFormed(ts: seq<Token>) {
    Elements(ts) && exists k :: 0 <= k < |ts| && ts[k].Num?
  }

  /** The commands the list names: the union of its values and ranges. */
  predicate Named(ts: seq<Token>, c: u16)
    requires Elements(ts)
    decreases |ts|
  {
    if ts == [] then false
    else if ts[0].Tilde? then Named(ts[1..], c)
    else if IsRange(ts) then
      Wrap16(ts[0].value) <= c <= Wrap16(ts[2].value) || Named(ts[3..], c)
    else Wrap16(ts[0].value) == c || Named(ts[1..], c)
  }

  /** Every range is in ascending order once its ends are 16 bits wide. */
  predicate Ascending(ts: seq<Token>)
    requires Elements(ts)
    decreases |ts|
  {
    if ts == [] then true
    else if ts[0].Tilde? then Ascending(ts[1..])
    else if IsRange(ts) then Wrap16(ts[0].value) <= Wrap16(ts[2].value) && Ascending(ts[3..])
    else Ascending(ts[1..])
  }

  predicate Negated(ts: seq<Token>) {
    exists k :: 0 <= k < |ts| && ts[k].Tilde?
  }

  predicate In(r: Range, c: u16) {
    r.low <= c <= r.high
  }

  predicate Covers(rs: seq<Range>, c: u16) {
    exists i :: 0 <= i < |rs| && In(rs[i], c)
  }

  predicate Proper(rs: seq<Range>) {
    forall i :: 0 <= i < |rs| ==> rs[i].low <= rs[i].high
  }

  predicate Sorted(rs: seq<Range>) {
    forall i, j :: 0 <= i < j < |rs| ==> rs[i].low <= rs[j].low
  }

  /** No two ranges overlap or touch, and they ascend. */
  predicate Separated(rs: seq<Range>) {
    forall i, j :: 0 <= i < j < |rs| ==> rs[i].high + 1 < rs[j].low
  }

  // ---- reading --------------------------------------------------------

  /** All elements before `pos` are in `rs`; what remains is `ts[pos..]`. */
  ghost predicate Between(ts: seq<Token>, pos: nat, rs: seq<Range>)
    requires Elements(ts) && pos <= |ts|
  {
    && Elements(ts[pos..])
    && Ascending(ts) == Ascending(ts[pos..])
    && forall c: u16 :: Named(ts, c) <==> Covers(rs, c) || Named(ts[pos..], c)
  }

  /** The low end of a range has been read as a single value; its dash is at `pos`. */
  ghost predicate Midway(ts: seq<Token>, pos: nat, rs: seq<Range>)
    requires Elements(ts) && pos <= |ts|
  {
    && 1 <= pos && pos + 1 < |ts|
    && IsRange(ts[pos - 1..])
    && rs != []
    && rs[|rs| - 1] == Range(Wrap16(ts[pos - 1].value), Wrap16(ts[pos - 1].value))
    && Between(ts, pos - 1, rs[..|rs| - 1])
    && Elements(ts[pos + 2..])
  }

  lemma CoversAppend(rs: seq<Range>, r: Range, c: u16)
    ensures Covers(rs + [r], c) <==> Covers(rs, c) || In(r, c)
  {
    if Covers(rs, c) {
      var i :| 0 <= i < |rs| && In(rs[i], c);
      assert In((rs + [r])[i], c);
    }
    if In(r, c) {
      assert In((rs + [r])[|rs|], c);
    }
  }

  lemma ReadTilde(ts: seq<Token>, pos: nat, rs: seq<Range>)
    requires Elements(ts) && pos < |ts| && Between(ts, pos, rs) && ts[pos].Tilde?
    ensures Between(ts, pos + 1, rs)
  {
    assert ts[pos..][1..] == ts[pos + 1..];
  }

  lemma ReadNumber(ts: seq<Token>, pos: nat, rs: seq<Range>)
    requires Elements(ts) && pos < |ts| && Between(ts, pos, rs) && ts[pos].Num?
    ensures var low := Wrap16(ts[pos].value);
            Between(ts, pos + 1, rs + [Range(low, low)]) || Midway(ts, pos + 1, rs + [Range(low, low)])
  {
    var low := Wrap16(ts[pos].value);
    var rs' := rs + [Range(low, low)];
    var rest := ts[pos..];
    if IsRange(rest) {
      assert rs'[..|rs'| - 1] == rs;
      assert rest[3..] == ts[pos + 1 + 2..];
    } else {
      assert rest[1..] == ts[pos + 1..];
      forall c: u16 ensures Named(ts, c) <==> Covers(rs', c) || Named(ts[pos + 1..], c) {
        CoversAppend(rs, Range(low, low), c);
      }
    }
  }

  lemma ReadUpperBound(ts: seq<Token>, pos: nat, rs: seq<Range>)
    requires Elements(ts) && pos <= |ts| && Midway(ts, pos, rs)
    ensures var high := Wrap16(ts[pos + 1].value);
            var r := Range(rs[|rs| - 1].low, high);
            if high < rs[|rs| - 1].low then !Ascending(ts) else Between(ts, pos + 2, rs[..|rs| - 1] + [r])
  {
    var high := Wrap16(ts[pos + 1].value);
    var r := Range(rs[|rs| - 1].low, high);
    var rest := ts[pos - 1..];
    assert rest[3..] == ts[pos + 2..];
    forall c: u16
      ensures Named(ts, c) <==> Covers(rs[..|rs| - 1] + [r], c) || Named(ts[pos + 2..], c)
    {
      CoversAppend(rs[..|rs| - 1], r, c);
    }
  }

  /** avrule_read_ioctls: consume the queue left to right. */
  method ReadIoctls(ts: seq<Token>) returns (res: Result<(seq<Range>, bool)>)
    requires WellFormed(ts)
    ensures res.Ok? <==> Ascending(ts)
    ensures res.Ok? ==> res.value.0 != [] && Proper(res.value.0) && (res.value.1 <==> Negated(ts))
    ensures res.Ok? ==> forall c: u16 :: Covers(res.value.0, c) <==> Named(ts, c)
  {
    var rs: seq<Range> := [];
    var omit := false;
    var pos := 0;
    assert ts[0..] == ts;
    while pos < |ts|
      invariant 0 <= pos <= |ts|
      invariant Between(ts, pos, rs) || Midway(ts, pos, rs)
      invariant Proper(rs)
      invariant omit <==> exists k :: 0 <= k < pos && ts[k].Tilde?
      invariant rs != [] <==> exists k :: 0 <= k < pos && ts[k].Num?
      decreases |ts| - pos
    {
      var t := ts[pos];
      if t.Tilde? {
        ReadTilde(ts, pos, rs);
        omit := true;
        pos := pos + 1;
      } else if t.Dash? {
        ReadUpperBound(ts, pos, rs);
        var high := Wrap16(ts[pos + 1].value);
        var last := rs[|rs| - 1];
        if high < last.low {
          return Err;
        }
        rs := rs[..|rs| - 1] + [Range(last.low, high)];
        pos := pos + 2;
      } else {
        ReadNumber(ts, pos, rs);
        var low := Wrap16(t.value);
        rs := rs + [Range(low, low)];
        pos := pos + 1;
      }
    }
    return Ok((rs, omit));
  }

  // ---- sorting and merging --------------------------------------------

  lemma InsertKeepsMultiset(rs: seq<Range>, k: nat, r: Range)
    requires k <= |rs|
    ensures multiset(rs[..k] + [r] + rs[k..]) == multiset(rs) + multiset{r}
  {
    assert rs == rs[..k] + rs[k..];
  }

  lemma InsertKeepsOrder(rs: seq<Range>, k: nat, r: Range)
    requires Sorted(rs) && k <= |rs|
    requires k > 0 ==> rs[k - 1].low <= r.low
    requires k < |rs| ==> r.low <= rs[k].low
    ensures Sorted(rs[..k] + [r] + rs[k..])
  {
  }

  /** The inner scan of avrule_sort_ioctls, over a list that is not empty. */
  method Insert(sorted: seq<Range>, r: Range) returns (out: seq<Range>)
    requires sorted != [] && Sorted(sorted)
    ensures Sorted(out)
    ensures multiset(out) == multiset(sorted) + multiset{r}
  {
    var k := 0;
    ghost var place: nat;
    while true
      invariant 0 <= k < |sorted|
      invariant k > 0 ==> sorted[k].low <= r.low
      decreases |sorted| - k
    {
      if r.low < sorted[k].low {
        // the new head
        out := [r] + sorted[k..];
        place := 0;
        break;
      } else if k + 1 < |sorted| && r.low < sorted[k + 1].low {
        // between two elements
        out := sorted[..k + 1] + [r] + sorted[k + 1..];
        place := k + 1;
        break;
      } else if k + 1 == |sorted| {
        // the new tail
        out := sorted + [r];
        place := |sorted|;
        break;
      }
      k := k + 1;
    }
    assert out == sorted[..place] + [r] + sorted[place..];
    InsertKeepsMultiset(sorted, place, r);
    InsertKeepsOrder(sorted, place, r);
  }

  /** avrule_sort_ioctls: insertion sort on the low end; no range is lost or invented. */
  method SortIoctls(ranges: seq<Range>) returns (sorted: seq<Range>)
    ensures Sorted(sorted)
    ensures multiset(sorted) == multiset(ranges)
  {
    sorted := [];
    for i := 0 to |ranges|
      invariant Sorted(sorted)
      invariant multiset(sorted) == multiset(ranges[..i])
    {
      assert ranges[..i + 1] == ranges[..i] + [ranges[i]];
      if sorted == [] {
        sorted := [ranges[i]];
      } else {
        sorted := Insert(sorted, ranges[i]);
      }
    }
    assert ranges[..|ranges|] == ranges;
  }

  lemma SameRanges(rs: seq<Range>, qs: seq<Range>)
    requires multiset(rs) == multiset(qs)
    ensures forall c: u16 :: Covers(rs, c) <==> Covers(qs, c)
    ensures Proper(rs) ==> Proper(qs)
    ensures |rs| == |qs|
  {
    assert |multiset(rs)| == |rs| && |multiset(qs)| == |qs|;
    assert forall r :: r in rs <==> r in multiset(rs);
    assert forall r :: r in qs <==> r in multiset(qs);
    forall c: u16 ensures Covers(rs, c) <==> Covers(qs, c) {
      if Covers(rs, c) {
        var i :| 0 <= i < |rs| && In(rs[i], c);
        assert rs[i] in qs;
      }
      if Covers(qs, c) {
        var i :| 0 <= i < |qs| && In(qs[i], c);
        assert qs[i] in rs;
      }
    }
    if Proper(rs) {
      forall i | 0 <= i < |qs| ensures qs[i].low <= qs[i].high {
        assert qs[i] in rs;
      }
    }
  }

  /** Joining two overlapping or touching neighbours covers what both covered. */
  lemma JoinNeighbours(rs: seq<Range>, k: nat, high: u16)
    requires k + 1 < |rs|
    requires rs[k].low <= rs[k + 1].low <= rs[k].high + 1
    requires rs[k].low <= rs[k].high && rs[k + 1].low <= rs[k + 1].high
    requires high == if rs[k].high < rs[k + 1].high then rs[k + 1].high else rs[k].high
    ensures forall c: u16 :: Covers(rs[..k] + [Range(rs[k].low, high)] + rs[k + 2..], c) <==> Covers(rs, c)
  {
    var joined := rs[..k] + [Range(rs[k].low, high)] + rs[k + 2..];
    forall c: u16 ensures Covers(joined, c) <==> Covers(rs, c) {
      if Covers(rs, c) {
        var i :| 0 <= i < |rs| && In(rs[i], c);
        assert In(joined[if i <= k then i else i - 1], c);
      }
      if Covers(joined, c) {
        var i :| 0 <= i < |joined| && In(joined[i], c);
        if i == k {
          assert In(rs[k], c) || In(rs[k + 1], c);
        } else {
          assert In(rs[if i < k then i else i + 1], c);
        }
      }
    }
  }

  /** Everything before `k` is clear of all that follows it. */
  predicate SettledBelow(rs: seq<Range>, k: nat) {
    forall i, j :: 0 <= i < j < |rs| && i < k ==> rs[i].high + 1 < rs[j].low
  }

  lemma JoinKeepsOrder(rs: seq<Range>, k: nat, high: u16)
    requires k + 1 < |rs| && Sorted(rs) && Proper(rs) && SettledBelow(rs, k)
    requires rs[k].high <= high && rs[k + 1].high <= high
    ensures var joined := rs[..k] + [Range(rs[k].low, high)] + rs[k + 2..];
            Sorted(joined) && Proper(joined) && SettledBelow(joined, k)
  {
  }

  /** avrule_merge_ioctls: fold each range into its successor while they touch. */
  method MergeIoctls(ranges: seq<Range>) returns (rs: seq<Range>)
    requires Sorted(ranges) && Proper(ranges)
    ensures Separated(rs) && Proper(rs)
    ensures ranges != [] ==> rs != []
    ensures forall c: u16 :: Covers(rs, c) <==> Covers(ranges, c)
  {
    rs := ranges;
    var k := 0;
    while k + 1 < |rs|
      invariant 0 <= k && (rs != [] ==> k < |rs|)
      invariant ranges != [] ==> rs != []
      invariant Sorted(rs) && Proper(rs) && SettledBelow(rs, k)
      invariant forall c: u16 :: Covers(rs, c) <==> Covers(ranges, c)
      decreases |rs| - k
    {
      if rs[k].high + 1 >= rs[k + 1].low {
        var high := if rs[k].high < rs[k + 1].high then rs[k + 1].high else rs[k].high;
        JoinNeighbours(rs, k, high);
        JoinKeepsOrder(rs, k, high);
        rs := rs[..k] + [Range(rs[k].low, high)] + rs[k + 2..];
      } else {
        k := k + 1;
      }
    }
  }

  // ---- complementing --------------------------------------------------

  /** The space before range `g`, or after the last one when `g` is the length. */
  function Gap(rs: seq<Range>, g: nat): Range
    requires g <= |rs|
  {
    Range(if g == 0 then 0 else Wrap16(rs[g - 1].high + 1),
          if g == |rs| then LAST else Wrap16(rs[g].low - 1))
  }

  predicate StartsAtZero(rs: seq<Range>) {
    rs != [] && rs[0].low == 0
  }

  predicate LoneFromZero(rs: seq<Range>) {
    StartsAtZero(rs) && |rs| == 1
  }

  /** When the complement comes out right: something is left above the last range, and the list is not just `0..h`. */
  predicate Complementable(rs: seq<Range>)
    requires rs != []
  {
    rs[|rs| - 1].high < LAST && !LoneFromZero(rs)
  }

  function FirstGap(rs: seq<Range>): nat {
    if StartsAtZero(rs) then 1 else 0
  }

  predicate Normal(rs: seq<Range>) {
    rs != [] && Separated(rs) && Proper(rs)
  }

  predicate AreGaps(rs: seq<Range>, out: seq<Range>)
    requires Normal(rs)
  {
    && |out| == |rs| + 1 - FirstGap(rs)
    && forall j :: 0 <= j < |out| ==> out[j] == Gap(rs, FirstGap(rs) + j)
  }

  predicate Complements(out: seq<Range>, rs: seq<Range>) {
    forall c: u16 :: Covers(out, c) <==> !Covers(rs, c)
  }

  /** The list avrule_omit_ioctls builds: the gaps in order, or one half-filled node. */
  predicate Flipped(rs: seq<Range>, out: seq<Range>)
    requires Normal(rs)
  {
    if LoneFromZero(rs) then out == [Range(Wrap16(rs[0].high + 1), 0)] else AreGaps(rs, out)
  }

  predicate PartlyFlipped(rs: seq<Range>, out: seq<Range>, k: nat)
    requires rs != []
  {
    && FirstGap(rs) <= k <= |rs|
    && |out| == k + 1 - FirstGap(rs)
    && (forall j :: 0 <= j < |out| - 1 ==> out[j] == Gap(rs, FirstGap(rs) + j))
    && out[|out| - 1].low == Gap(rs, k).low
    && out[|out| - 1].high == if k == |rs| > FirstGap(rs) then LAST else 0
  }

  lemma FlipStep(rs: seq<Range>, out: seq<Range>, k: nat)
    requires rs != [] && k < |rs| && PartlyFlipped(rs, out, k)
    ensures var closed := out[|out| - 1 := out[|out| - 1].(high := Wrap16(rs[k].low - 1))];
            var next := Range(Wrap16(rs[k].high + 1), if k + 1 == |rs| then LAST else 0);
            PartlyFlipped(rs, closed + [next], k + 1)
  {
    var closed := out[|out| - 1 := out[|out| - 1].(high := Wrap16(rs[k].low - 1))];
    assert closed[|out| - 1] == Gap(rs, k);
  }

  lemma GapBounds(rs: seq<Range>, g: nat)
    requires Normal(rs) && FirstGap(rs) <= g <= |rs|
    ensures Gap(rs, g).low == if g == 0 then 0 else if rs[g - 1].high == LAST then 0 else rs[g - 1].high + 1
    ensures Gap(rs, g).high == if g == |rs| then LAST else rs[g].low - 1
    ensures Gap(rs, g).low <= Gap(rs, g).high
    ensures 0 < g < |rs| ==> rs[g - 1].high < LAST
  {
    if 0 < g < |rs| {
      assert rs[g - 1].high + 1 < rs[g].low;
    }
  }

  lemma GapIsUncovered(rs: seq<Range>, g: nat, c: u16)
    requires Normal(rs) && Complementable(rs) && FirstGap(rs) <= g <= |rs| && In(Gap(rs, g), c)
    ensures !Covers(rs, c)
  {
    GapBounds(rs, g);
    forall i | 0 <= i < |rs| ensures !In(rs[i], c) {
      if i + 1 < g {
        assert rs[i].high + 1 < rs[g - 1].low <= rs[g - 1].high;
      } else if i > g {
        assert rs[g].low <= rs[g].high < rs[i].low;
      }
    }
  }

  /** The number of ranges wholly below `c`. */
  function Below(rs: seq<Range>, c: u16, g: nat): (r: nat)
    requires g <= |rs|
    requires forall i :: 0 <= i < g ==> rs[i].high < c
    ensures g <= r <= |rs|
    ensures forall i :: 0 <= i < r ==> rs[i].high < c
    ensures r < |rs| ==> c <= rs[r].high
    decreases |rs| - g
  {
    if g < |rs| && rs[g].high < c then Below(rs, c, g + 1) else g
  }

  lemma UncoveredIsInGap(rs: seq<Range>, c: u16) returns (g: nat)
    requires Normal(rs) && Complementable(rs) && !Covers(rs, c)
    ensures FirstGap(rs) <= g <= |rs| && In(Gap(rs, g), c)
  {
    g := Below(rs, c, 0);
    assert g < |rs| ==> !In(rs[g], c);
    assert StartsAtZero(rs) ==> !In(rs[0], c);
    GapBounds(rs, g);
  }

  lemma GapsProper(rs: seq<Range>, out: seq<Range>)
    requires Normal(rs) && AreGaps(rs, out)
    ensures Proper(out)
  {
    forall j | 0 <= j < |out| ensures out[j].low <= out[j].high {
      GapBounds(rs, FirstGap(rs) + j);
    }
  }

  lemma GapsSeparated(rs: seq<Range>, out: seq<Range>)
    requires Normal(rs) && Complementable(rs) && AreGaps(rs, out)
    ensures Separated(out)
  {
    hide Gap;
    var first := FirstGap(rs);
    forall i, j | 0 <= i < j < |out| ensures out[i].high + 1 < out[j].low {
      GapBounds(rs, first + i);
      GapBounds(rs, first + j);
      var p, q := first + i, first + j - 1;
      assert rs[p].low <= rs[p].high;
      assert p < q ==> rs[p].high + 1 < rs[q].low;
    }
  }

  lemma GapsComplement(rs: seq<Range>, out: seq<Range>)
    requires Normal(rs) && Complementable(rs) && AreGaps(rs, out)
    ensures Complements(out, rs) && Normal(out)
  {
    GapsProper(rs, out);
    GapsSeparated(rs, out);
    forall c: u16 ensures Covers(out, c) <==> !Covers(rs, c) {
      if Covers(out, c) {
        var j :| 0 <= j < |out| && In(out[j], c);
        GapIsUncovered(rs, FirstGap(rs) + j, c);
      }
      if !Covers(rs, c) {
        var g := UncoveredIsInGap(rs, c);
        assert In(out[g - FirstGap(rs)], c);
      }
    }
  }

  /** When the last range ends at 0xffff, the final gap wraps to the whole space. */
  lemma WrappedGap(rs: seq<Range>, out: seq<Range>)
    requires Normal(rs) && !LoneFromZero(rs) && rs[|rs| - 1].high == LAST && AreGaps(rs, out)
    ensures !Complements(out, rs) && Proper(out) && forall c: u16 :: Covers(out, c)
  {
    GapsProper(rs, out);
    GapBounds(rs, |rs|);
    assert out[|out| - 1] == Range(0, LAST);
    forall c: u16 ensures Covers(out, c) {
      assert In(out[|out| - 1], c);
    }
    assert In(rs[|rs| - 1], LAST);
    assert Covers(out, LAST) && Covers(rs, LAST);
  }

  lemma LoneFails(rs: seq<Range>, out: seq<Range>)
    requires Normal(rs) && LoneFromZero(rs) && out == [Range(Wrap16(rs[0].high + 1), 0)]
    ensures !Complements(out, rs)
  {
    if rs[0].high == LAST {
      assert In(out[0], 0) && In(rs[0], 0);
      assert Covers(out, 0) && Covers(rs, 0);
    } else {
      assert !Covers(out, LAST) && !Covers(rs, LAST);
    }
  }

  lemma FlippedMeaning(rs: seq<Range>, out: seq<Range>)
    requires Normal(rs) && Flipped(rs, out)
    ensures Complements(out, rs) <==> Complementable(rs)
    ensures Complementable(rs) ==> Normal(out)
    ensures rs[|rs| - 1].high == LAST && !LoneFromZero(rs) ==> Proper(out) && forall c: u16 :: Covers(out, c)
  {
    if LoneFromZero(rs) {
      LoneFails(rs, out);
    } else if rs[|rs| - 1].high == LAST {
      WrappedGap(rs, out);
    } else {
      GapsComplement(rs, out);
    }
  }

  /** avrule_omit_ioctls as the source has it, with its 16-bit wrap-around and its zero-filled nodes. */
  method OmitIoctls(ranges: seq<Range>) returns (out: seq<Range>)
    requires Normal(ranges)
    ensures Flipped(ranges, out)
    ensures Complements(out, ranges) <==> Complementable(ranges)
    ensures Complementable(ranges) ==> Normal(out)
    ensures ranges[|ranges| - 1].high == LAST && !LoneFromZero(ranges) ==> Proper(out) && forall c: u16 :: Covers(out, c)
  {
    out := [Range(0, 0)];
    var k := 0;
    if ranges[0].low == 0 {
      out := [Range(Wrap16(ranges[0].high + 1), 0)];
      k := 1;
    }
    while k < |ranges|
      invariant PartlyFlipped(ranges, out, k)
    {
      FlipStep(ranges, out, k);
      out := out[|out| - 1 := out[|out| - 1].(high := Wrap16(ranges[k].low - 1))];
      out := out + [Range(Wrap16(ranges[k].high + 1), if k + 1 == |ranges| then LAST else 0)];
      k := k + 1;
    }
    FlippedMeaning(ranges, out);
  }

  // ---- the normal form ------------------------------------------------

  ghost predicate NamesUpTo(ts: seq<Token>, h: u16)
    requires Elements(ts)
  {
    forall c: u16 :: Named(ts, c) <==> c <= h
  }

  /** The condition on the list itself under which `~` yields the complement:
      0xffff is not named, and the named commands are not an initial segment. */
  ghost predicate Omittable(ts: seq<Token>)
    requires Elements(ts)
  {
    !Named(ts, LAST) && !exists h: u16 :: NamesUpTo(ts, h)
  }

  lemma OmittableIsComplementable(ts: seq<Token>, rs: seq<Range>)
    requires Elements(ts) && Normal(rs)
    requires forall c: u16 :: Covers(rs, c) <==> Named(ts, c)
    ensures Omittable(ts) <==> Complementable(rs)
  {
    var last := rs[|rs| - 1];
    if last.high == LAST {
      assert In(last, LAST);
    } else {
      assert forall i :: 0 <= i < |rs| ==> rs[i].high <= last.high;
      assert !Covers(rs, LAST);
    }
    if LoneFromZero(rs) {
      forall c: u16 ensures Named(ts, c) <==> c <= rs[0].high {
        assert Covers(rs, c) <==> In(rs[0], c);
      }
      assert NamesUpTo(ts, rs[0].high);
    }
    if exists h: u16 :: NamesUpTo(ts, h) {
      var h: u16 :| NamesUpTo(ts, h);
      assert Covers(rs, 0);
      assert rs[0].low == 0 by {
        var i :| 0 <= i < |rs| && In(rs[i], 0);
      }
      if |rs| > 1 {
        var hole := rs[0].high + 1;
        assert !Covers(rs, hole);
        assert In(rs[1], rs[1].low);
        assert Covers(rs, rs[1].low);
        assert false;
      }
    }
  }

  /** The queues of ~0xffff and ~{ 0-16 } are accepted, and neither can be complemented. */
  lemma ComplementFails()
    ensures var last := [Num(LAST), Tilde];
            WellFormed(last) && Ascending(last) && !Omittable(last)
    ensures var initial := [Num(0), Dash, Num(16), Tilde];
            WellFormed(initial) && Ascending(initial) && !Omittable(initial)
  {
    var last := [Num(LAST), Tilde];
    assert last[1..] == [Tilde] && last[1..][1..] == [];
    assert last[0].Num?;
    assert Named(last, LAST);
    var initial := [Num(0), Dash, Num(16), Tilde];
    assert initial[3..] == [Tilde] && initial[3..][1..] == [];
    assert initial[0].Num?;
    assert NamesUpTo(initial, 16);
  }

  /** What the failing complements look like: everything, one command too many, or one reversed range. */
  ghost predicate Misflipped(out: seq<Range>, ts: seq<Token>)
    requires Elements(ts)
  {
    || (Proper(out) && Named(ts, LAST) && forall c: u16 :: Covers(out, c))
    || (out == [Range(0, 0)] && Named(ts, 0))
    || (|out| == 1 && out[0].low > 0 && out[0].high == 0 && !Named(ts, LAST))
  }

  /** avrule_ioctl_ranges: read, sort, merge and, after `~`, complement. */
  method IoctlRangeList(ts: seq<Token>) returns (res: Result<seq<Range>>)
    requires WellFormed(ts)
    ensures res.Ok? <==> Ascending(ts)
    ensures res.Ok? && !Negated(ts) ==> Normal(res.value) && forall c: u16 :: Covers(res.value, c) <==> Named(ts, c)
    ensures res.Ok? && Negated(ts) ==>
              ((forall c: u16 :: Covers(res.value, c) <==> !Named(ts, c)) <==> Omittable(ts))
    ensures res.Ok? && Negated(ts) && Omittable(ts) ==> Normal(res.value)
    ensures res.Ok? && Negated(ts) && !Omittable(ts) ==> Misflipped(res.value, ts)
  {
    var read := ReadIoctls(ts);
    if read.Err? {
      return Err;
    }
    var (ranges, omit) := read.value;
    var sorted := SortIoctls(ranges);
    SameRanges(ranges, sorted);
    var rs := MergeIoctls(sorted);
    if omit {
      OmittableIsComplementable(ts, rs);
      var out := OmitIoctls(rs);
      if LoneFromZero(rs) {
        assert forall c: u16 :: Covers(rs, c) <==> In(rs[0], c);
        assert forall c: u16 :: Named(ts, c) <==> Covers(rs, c);
        assert Named(ts, rs[0].high);
      } else if rs[|rs| - 1].high == LAST {
        assert In(rs[|rs| - 1], LAST);
        assert Covers(rs, LAST);
      }
      return Ok(out);
    }
    return Ok(rs);
  }
}
