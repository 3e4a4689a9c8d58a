/**
 Compiling normal-form ioctl ranges into extended-permission rules: one bitmap
 of drivers that are granted whole, and one bitmap of functions for each driver
 that is granted in part.
 */
module IoctlCompile {
  import opened Bits
  import opened IoctlRanges
  import opened Wrappers

  /** The eight words of av_extended_perms_t, holding 256 bits. */
  type Words = w: seq<u32> | |w| == 8 witness [0, 0, 0, 0, 0, 0, 0, 0]

  datatype Kind = IoctlFunction | IoctlDriver

  datatype XPerms = XPerms(specified: Kind, driver: u8, perms: Words)

  /** xperm_test. */
  predicate Has(w: Words, x: u8) {
    Bit(w[x / 32], x % 32)
  }

  function Driver(c: u16): u8 {
    c / 256
  }

  function Func(c: u16): u8 {
    c % 256
  }

  function Command(d: u8, f: u8): u16 {
    d * 256 + f
  }

  /** Every command has one driver and one function: its two bytes, the driver's first. */
  lemma CommandParts(c: u16, d: u8, f: u8)
    ensures d == Driver(c) && f == Func(c) <==> c == 256 * d + f
    ensures Command(Driver(c), Func(c)) == c
  {
  }

  /** The commands a rule grants. */
  predicate Grants(rule: XPerms, c: u16) {
    match rule.specified
    case IoctlDriver => Has(rule.perms, Driver(c))
    case IoctlFunction => rule.driver == Driver(c) && Has(rule.perms, Func(c))
  }

  predicate Granted(rules: seq<XPerms>, c: u16) {
    exists i :: 0 <= i < |rules| && Grants(rules[i], c)
  }

  /** No command is granted by two rules. */
  ghost predicate Disjoint(rules: seq<XPerms>) {
    forall i, j, c: u16 :: 0 <= i < j < |rules| && Grants(rules[i], c) ==> !Grants(rules[j], c)
  }

  // ---- bit ranges -----------------------------------------------------

  const FULL: u32 := 0xffff_ffff

  lemma LowBitsFit(n: nat)
    requires n <= 32
    ensures LowBits(n) <= FULL && LowBits(32) == FULL
  {
    Width();
    SingleMonotone(n, 32);
  }

  lemma LowBitsOrder(m: nat, n: nat)
    requires m <= n
    ensures LowBits(0) == 0 && LowBits(m) <= LowBits(n)
  {
    SingleMonotone(m, n);
  }

  /** The bits avrule_xperm_setrangebits turns on in word `i`; subtraction is modulo 2^32. */
  function RangeWord(low: u8, high: u8, i: nat): u32
    requires low / 32 <= i <= high / 32
  {
    var h := high + 1;
    LowBitsFit(h % 32);
    LowBitsFit(low % 32);
    if low <= i * 32 && high >= i * 32 + 31 then FULL
    else if low <= i * 32 then LowBits(h % 32)
    else if high >= i * 32 + 31 then FULL - LowBits(low % 32)
    else Wrap32(LowBits(h % 32) - LowBits(low % 32))
  }

  /** Each branch is the run of bits from `m` up to `n` of its word. */
  lemma InWord(x: nat, i: nat)
    requires i * 32 <= x < i * 32 + 32
    ensures x % 32 == x - i * 32
  {
  }

  lemma RangeWordIsRun(low: u8, high: u8, i: nat) returns (n: nat, m: nat)
    requires low <= high && low / 32 <= i <= high / 32
    ensures m <= n <= 32 && RangeWord(low, high, i) == LowBits(n) - LowBits(m)
    ensures m == if low <= i * 32 then 0 else low - i * 32
    ensures n == if high >= i * 32 + 31 then 32 else high + 1 - i * 32
  {
    hide LowBits;
    m := if low <= i * 32 then 0 else low - i * 32;
    n := if high >= i * 32 + 31 then 32 else high + 1 - i * 32;
    if low > i * 32 {
      InWord(low, i);
    }
    if high < i * 32 + 31 {
      InWord(high + 1, i);
    }
    LowBitsFit(n);
    LowBitsOrder(m, n);
  }

  lemma RangeWordBit(low: u8, high: u8, i: nat, k: nat)
    requires low <= high && low / 32 <= i <= high / 32 && k < 32
    ensures Bit(RangeWord(low, high, i), k) <==> low <= i * 32 + k <= high
  {
    var n, m := RangeWordIsRun(low, high, i);
    MiddleBits(n, m, RangeWord(low, high, i), k);
  }

  lemma SetRangeMeaning(low: u8, high: u8, before: Words, after: Words)
    requires low <= high
    requires forall j :: 0 <= j < 8 ==>
               after[j] == if low / 32 <= j <= high / 32 then OrWord(before[j], RangeWord(low, high, j)) else before[j]
    ensures forall x: u8 :: Has(after, x) <==> Has(before, x) || low <= x <= high
  {
    forall x: u8 ensures Has(after, x) <==> Has(before, x) || low <= x <= high {
      var j := x / 32;
      if low / 32 <= j <= high / 32 {
        OrBit(before[j], RangeWord(low, high, j), x % 32);
        RangeWordBit(low, high, j, x % 32);
      }
    }
  }

  /** avrule_xperm_setrangebits: a range in order sets exactly its bits; one reversed down to 0 stays in the first word. */
  method SetRangeBits(low: u8, high: u8, perms: array<u32>)
    requires perms.Length == 8
    modifies perms
    ensures low <= high ==> forall x: u8 :: Has(perms[..], x) <==> old(Has(perms[..], x)) || low <= x <= high
    ensures high == 0 ==> forall i :: 0 < i < 8 ==> perms[i] == old(perms[i])
    ensures forall j :: 0 <= j < 8 ==>
              perms[j] == if low / 32 <= j <= high / 32 then OrWord(old(perms[j]), RangeWord(low, high, j)) else old(perms[j])
  {
    var i := low / 32;
    while i <= high / 32
      invariant low / 32 <= i <= 8
      invariant if low / 32 <= high / 32 then i <= high / 32 + 1 else i == low / 32
      invariant forall j :: 0 <= j < 8 && !(low / 32 <= j < i) ==> perms[j] == old(perms[j])
      invariant low / 32 <= high / 32 ==>
                  forall j :: low / 32 <= j < i ==> perms[j] == OrWord(old(perms[j]), RangeWord(low, high, j))
    {
      perms[i] := OrWord(perms[i], RangeWord(low, high, i));
      i := i + 1;
    }
    if low <= high {
      SetRangeMeaning(low, high, old(perms[..]), perms[..]);
    }
  }

  /** avrule_xperms_used. */
  method Used(perms: array<u32>) returns (used: bool)
    requires perms.Length == 8
    ensures used <==> exists x: u8 :: Has(perms[..], x)
  {
    for i := 0 to 8
      invariant forall j :: 0 <= j < i ==> perms[j] == 0
    {
      if perms[i] != 0 {
        UsedWord(perms[i]);
        var k: nat :| k < 32 && Bit(perms[i], k);
        assert Has(perms[..], i * 32 + k);
        return true;
      }
    }
    forall x: u8 ensures !Has(perms[..], x) {
      ZeroBit(x % 32);
    }
    return false;
  }

  /** calloc: no bit is set. */
  method NewWords() returns (perms: array<u32>)
    ensures perms.Length == 8 && fresh(perms)
    ensures forall x: u8 :: !Has(perms[..], x)
  {
    perms := new u32[8](_ => 0);
    forall x: u8 ensures !Has(perms[..], x) {
      ZeroBit(x % 32);
    }
  }

  /** xperm_set. */
  method SetBit(x: u8, perms: array<u32>)
    requires perms.Length == 8
    modifies perms
    ensures forall y: u8 :: Has(perms[..], y) <==> old(Has(perms[..], y)) || y == x
  {
    perms[x / 32] := OrWord(perms[x / 32], Shift1(x % 32));
    forall y: u8 ensures Has(perms[..], y) <==> old(Has(perms[..], y)) || y == x {
      OrBit(old(perms[x / 32]), Shift1(x % 32), y % 32);
      SingleBit(x % 32, y % 32);
    }
  }

  /** xperm_clear. */
  method ClearBit(x: u8, perms: array<u32>)
    requires perms.Length == 8
    modifies perms
    ensures forall y: u8 :: Has(perms[..], y) <==> old(Has(perms[..], y)) && y != x
  {
    perms[x / 32] := AndNotWord(perms[x / 32], Shift1(x % 32));
    forall y: u8 ensures Has(perms[..], y) <==> old(Has(perms[..], y)) && y != x {
      AndNotBit(old(perms[x / 32]), Shift1(x % 32), y % 32);
      SingleBit(x % 32, y % 32);
    }
  }

  // ---- the two bitmaps of drivers, and the function bitmaps -----------

  /** Range `r` holds every command of driver `d`. */
  predicate Whole(r: Range, d: u8) {
    r.low <= Command(d, 0) && Command(d, 255) <= r.high
  }

  /** Range `r` begins or ends in driver `d`. */
  predicate EndsIn(r: Range, d: u8) {
    d == Driver(r.low) || d == Driver(r.high)
  }

  predicate SomeWhole(rs: seq<Range>, d: u8) {
    exists i :: 0 <= i < |rs| && Whole(rs[i], d)
  }

  predicate SomeEndsIn(rs: seq<Range>, d: u8) {
    exists i :: 0 <= i < |rs| && EndsIn(rs[i], d)
  }

  /** A range with an end in driver `d` holds command `f` of it. */
  predicate SomeEndHolds(rs: seq<Range>, d: u8, f: u8) {
    exists i :: 0 <= i < |rs| && EndsIn(rs[i], d) && In(rs[i], Command(d, f))
  }

  lemma SomeWholeStep(rs: seq<Range>, k: nat, d: u8)
    requires k < |rs|
    ensures SomeWhole(rs[..k + 1], d) <==> SomeWhole(rs[..k], d) || Whole(rs[k], d)
  {
    assert rs[..k + 1] == rs[..k] + [rs[k]];
    if Whole(rs[k], d) {
      assert Whole(rs[..k + 1][k], d);
    }
    if SomeWhole(rs[..k], d) {
      var i :| 0 <= i < k && Whole(rs[..k][i], d);
      assert Whole(rs[..k + 1][i], d);
    }
  }

  lemma SomeEndsInStep(rs: seq<Range>, k: nat, d: u8)
    requires k < |rs|
    ensures SomeEndsIn(rs[..k + 1], d) <==> SomeEndsIn(rs[..k], d) || EndsIn(rs[k], d)
  {
    assert rs[..k + 1] == rs[..k] + [rs[k]];
    if EndsIn(rs[k], d) {
      assert EndsIn(rs[..k + 1][k], d);
    }
    if SomeEndsIn(rs[..k], d) {
      var i :| 0 <= i < k && EndsIn(rs[..k][i], d);
      assert EndsIn(rs[..k + 1][i], d);
    }
  }

  lemma SomeEndHoldsStep(rs: seq<Range>, k: nat, d: u8, f: u8)
    requires k < |rs|
    ensures SomeEndHolds(rs[..k + 1], d, f) <==>
              SomeEndHolds(rs[..k], d, f) || (EndsIn(rs[k], d) && In(rs[k], Command(d, f)))
  {
    assert rs[..k + 1] == rs[..k] + [rs[k]];
    if EndsIn(rs[k], d) && In(rs[k], Command(d, f)) {
      assert EndsIn(rs[..k + 1][k], d);
    }
    if SomeEndHolds(rs[..k], d, f) {
      var i :| 0 <= i < k && EndsIn(rs[..k][i], d) && In(rs[..k][i], Command(d, f));
      assert EndsIn(rs[..k + 1][i], d);
    }
  }

  /** Rounding a range inward to driver boundaries leaves the drivers it holds whole. */
  lemma InwardRounding(r: Range, d: u8)
    ensures var high := (r.high + 1) / 256;
            var low := Driver(r.low) + (if Func(r.low) != 0 then 1 else 0);
            low <= d < high <==> Whole(r, d)
  {
  }

  /** avrule_ioctl_completedriver: the drivers some range holds whole. */
  method CompleteDriver(rs: seq<Range>) returns (x: Option<XPerms>)
    ensures x.Some? <==> exists d: u8 :: SomeWhole(rs, d)
    ensures x.Some? ==> x.value.specified == IoctlDriver && forall d: u8 :: Has(x.value.perms, d) <==> SomeWhole(rs, d)
  {
    var perms := NewWords();
    for k := 0 to |rs|
      invariant forall d: u8 :: Has(perms[..], d) <==> SomeWhole(rs[..k], d)
    {
      var high := (rs[k].high + 1) / 256;
      var low: int := Driver(rs[k].low);
      if Func(rs[k].low) != 0 {
        low := low + 1;
      }
      ghost var before := perms[..];
      if high > low {
        SetRangeBits(low, high - 1, perms);
      }
      forall d: u8 ensures Has(perms[..], d) <==> SomeWhole(rs[..k + 1], d) {
        SomeWholeStep(rs, k, d);
        InwardRounding(rs[k], d);
        assert Has(before, d) <==> SomeWhole(rs[..k], d);
      }
    }
    assert rs[..|rs|] == rs;
    var used := Used(perms);
    if used {
      ghost var d: u8 :| Has(perms[..], d);
      assert SomeWhole(rs, d);
      return Some(XPerms(IoctlDriver, 0, perms[..]));
    }
    forall d: u8 ensures !SomeWhole(rs, d) {
      assert !Has(perms[..], d);
    }
    return None;
  }

  /** avrule_ioctl_partialdriver: the drivers some range has an end in, without the complete ones. */
  method PartialDriver(rs: seq<Range>, complete: Option<XPerms>) returns (perms: array<u32>, used: bool)
    ensures perms.Length == 8 && fresh(perms)
    ensures forall d: u8 :: Has(perms[..], d) <==> SomeEndsIn(rs, d) && !(complete.Some? && Has(complete.value.perms, d))
    ensures used <==> exists d: u8 :: Has(perms[..], d)
  {
    perms := NewWords();
    for k := 0 to |rs|
      invariant forall d: u8 :: Has(perms[..], d) <==>
                  SomeEndsIn(rs[..k], d) && !(complete.Some? && Has(complete.value.perms, d))
    {
      var low := Driver(rs[k].low);
      var high := Driver(rs[k].high);
      if complete.Some? {
        if !Has(complete.value.perms, low) {
          SetBit(low, perms);
        }
        if !Has(complete.value.perms, high) {
          SetBit(high, perms);
        }
      } else {
        SetBit(low, perms);
        SetBit(high, perms);
      }
      forall d: u8 { SomeEndsInStep(rs, k, d); }
    }
    assert rs[..|rs|] == rs;
    used := Used(perms);
  }

  /** The ranges the function stage can meet: in order, or the reversed range down to 0 that a failed complement leaves. */
  predicate Sane(rs: seq<Range>) {
    forall i :: 0 <= i < |rs| ==> rs[i].low <= rs[i].high || rs[i].high == 0
  }

  /** What the bitmap of driver `d` holds after the ranges `rs`; the first word is vouched for only when all are in order. */
  ghost predicate FuncBits(rs: seq<Range>, d: u8, w: Words) {
    forall f: u8 :: f >= 32 || Proper(rs) ==> (Has(w, f) <==> SomeEndHolds(rs, d, f))
  }

  /** The piece of `r` inside driver `d`, as avrule_ioctl_func clips it. */
  function Clip(r: Range, d: u8): Range {
    if d == Driver(r.low) then
      Range(r.low, if r.high > Command(d, 0xff) then Command(d, 0xff) else r.high)
    else
      Range(if r.low < Command(d, 0) then Command(d, 0) else r.low, r.high)
  }

  lemma ClipMeaning(r: Range, d: u8, f: u8)
    requires EndsIn(r, d) && r.low <= r.high
    ensures Func(Clip(r, d).low) <= Func(Clip(r, d).high)
    ensures Func(Clip(r, d).low) <= f <= Func(Clip(r, d).high) <==> In(r, Command(d, f))
  {
    var c := Clip(r, d);
    assert Driver(c.low) == d && Driver(c.high) == d;
    assert c.low == Command(d, Func(c.low)) && c.high == Command(d, Func(c.high));
  }

  lemma FuncStep(rs: seq<Range>, k: nat, d: u8, before: Words, after: Words)
    requires k < |rs| && Sane(rs) && FuncBits(rs[..k], d, before)
    requires !EndsIn(rs[k], d) ==> after == before
    requires EndsIn(rs[k], d) ==>
               var low, high := Func(Clip(rs[k], d).low), Func(Clip(rs[k], d).high);
               && (low <= high ==> forall f: u8 :: Has(after, f) <==> Has(before, f) || low <= f <= high)
               && (high == 0 ==> forall i :: 0 < i < 8 ==> after[i] == before[i])
    ensures FuncBits(rs[..k + 1], d, after)
  {
    var part := rs[..k + 1];
    assert part == rs[..k] + [rs[k]];
    assert Proper(part) ==> Proper(rs[..k]) && part[k].low <= part[k].high;
    forall f: u8 | f >= 32 || Proper(part) ensures Has(after, f) <==> SomeEndHolds(part, d, f) {
      SomeEndHoldsStep(rs, k, d, f);
      if EndsIn(rs[k], d) {
        if rs[k].low <= rs[k].high {
          ClipMeaning(rs[k], d, f);
        } else {
          assert Func(Clip(rs[k], d).high) == 0;
        }
      }
    }
  }

  /** avrule_ioctl_func: the functions of driver `d` in the ranges that begin or end there. */
  method FuncPerms(rs: seq<Range>, d: u8) returns (x: Option<XPerms>)
    requires Sane(rs)
    ensures x.Some? ==> x.value.specified == IoctlFunction && x.value.driver == d && FuncBits(rs, d, x.value.perms)
    ensures x.Some? ==> exists f: u8 :: Has(x.value.perms, f)
    ensures x.None? ==> forall f: u8 :: f >= 32 || Proper(rs) ==> !SomeEndHolds(rs, d, f)
  {
    var perms := NewWords();
    for k := 0 to |rs|
      invariant FuncBits(rs[..k], d, perms[..])
    {
      ghost var before := perms[..];
      if EndsIn(rs[k], d) {
        var piece := Clip(rs[k], d);
        SetRangeBits(Func(piece.low), Func(piece.high), perms);
      }
      FuncStep(rs, k, d, before, perms[..]);
    }
    assert rs[..|rs|] == rs;
    var used := Used(perms);
    if used {
      return Some(XPerms(IoctlFunction, d, perms[..]));
    }
    forall f: u8 | f >= 32 || Proper(rs) ensures !SomeEndHolds(rs, d, f) {
      assert !Has(perms[..], f);
    }
    return None;
  }

  /** xperms_for_each_bit: the lowest set bit at or above `from`, cleared as it is returned. */
  method NextBit(from: nat, perms: array<u32>) returns (found: bool, bit: u8)
    requires perms.Length == 8 && from <= 256
    modifies perms
    ensures found <==> exists x: u8 :: from <= x && old(Has(perms[..], x))
    ensures found ==> from <= bit && old(Has(perms[..], bit)) && forall x: u8 :: from <= x < bit ==> !old(Has(perms[..], x))
    ensures forall x: u8 :: Has(perms[..], x) <==> old(Has(perms[..], x)) && !(found && x == bit)
  {
    bit := 0;
    for i := from to 256
      invariant perms[..] == old(perms[..])
      invariant forall x: u8 :: from <= x < i ==> !Has(perms[..], x)
    {
      if Has(perms[..], i) {
        ClearBit(i, perms);
        return true, i;
      }
    }
    return false, 0;
  }

  // ---- the rules of one statement -------------------------------------

  ghost predicate IsDriverRule(r: XPerms, rs: seq<Range>) {
    r.specified == IoctlDriver && forall d: u8 :: Has(r.perms, d) <==> SomeWhole(rs, d)
  }

  ghost predicate IsFuncRule(r: XPerms, rs: seq<Range>) {
    && r.specified == IoctlFunction
    && SomeEndsIn(rs, r.driver) && !SomeWhole(rs, r.driver)
    && FuncBits(rs, r.driver, r.perms)
  }

  /** Driver `d` needs a function rule of its own. */
  ghost predicate NeedsRule(rs: seq<Range>, d: u8) {
    SomeEndsIn(rs, d) && !SomeWhole(rs, d)
  }

  ghost predicate HasRule(rules: seq<XPerms>, d: u8) {
    exists j :: 0 <= j < |rules| && rules[j].specified == IoctlFunction && rules[j].driver == d
  }

  ghost predicate Empty(rs: seq<Range>, d: u8) {
    forall f: u8 :: f >= 32 || Proper(rs) ==> !SomeEndHolds(rs, d, f)
  }

  ghost predicate Shapes(rs: seq<Range>, rules: seq<XPerms>) {
    forall j :: 0 <= j < |rules| ==> IsFuncRule(rules[j], rs) || (j == 0 && IsDriverRule(rules[j], rs))
  }

  ghost predicate GrantsSome(r: XPerms) {
    exists c: u16 :: Grants(r, c)
  }

  ghost predicate NoEmptyRule(rules: seq<XPerms>) {
    forall j :: 0 <= j < |rules| ==> GrantsSome(rules[j])
  }

  ghost predicate WholeServed(rs: seq<Range>, rules: seq<XPerms>) {
    forall d: u8 :: SomeWhole(rs, d) ==> rules != [] && IsDriverRule(rules[0], rs)
  }

  ghost predicate OneRuleEach(rules: seq<XPerms>) {
    forall i, j :: 0 <= i < j < |rules| && rules[i].specified == rules[j].specified ==> rules[i].driver != rules[j].driver
  }

  /** Every driver outside `todo` that needs a rule has one, and none inside does. */
  ghost predicate PartServed(rs: seq<Range>, rules: seq<XPerms>, todo: Words) {
    && (forall j :: 0 <= j < |rules| && rules[j].specified == IoctlFunction ==> !Has(todo, rules[j].driver))
    && (forall d: u8 :: NeedsRule(rs, d) && !Has(todo, d) ==> HasRule(rules, d) || Empty(rs, d))
  }

  /** The rules emitted so far, when the drivers in `todo` are still to come. */
  ghost predicate Compiled(rs: seq<Range>, rules: seq<XPerms>, todo: Words) {
    && Shapes(rs, rules) && NoEmptyRule(rules) && WholeServed(rs, rules) && OneRuleEach(rules)
    && PartServed(rs, rules, todo)
  }

  lemma CompiledDisjoint(rs: seq<Range>, rules: seq<XPerms>)
    requires Shapes(rs, rules) && OneRuleEach(rules)
    ensures Disjoint(rules)
  {
    forall i, j, c: u16 | 0 <= i < j < |rules| && Grants(rules[i], c) ensures !Grants(rules[j], c) {
      assert IsFuncRule(rules[j], rs);
      if rules[i].specified == IoctlDriver {
        assert IsDriverRule(rules[i], rs);
      }
    }
  }

  lemma GrantedIsCovered(rs: seq<Range>, rules: seq<XPerms>, d: u8, f: u8)
    requires Shapes(rs, rules) && Granted(rules, Command(d, f))
    requires Proper(rs) || f >= 32
    ensures Covers(rs, Command(d, f))
  {
    var c := Command(d, f);
    var j :| 0 <= j < |rules| && Grants(rules[j], c);
    assert Driver(c) == d && Func(c) == f;
    if IsFuncRule(rules[j], rs) {
      assert SomeEndHolds(rs, d, f);
    } else {
      assert SomeWhole(rs, d);
      var i :| 0 <= i < |rs| && Whole(rs[i], d);
      assert In(rs[i], c);
    }
  }

  /** A driver no range holds whole meets the ranges only at their ends. */
  lemma HeldAtAnEnd(rs: seq<Range>, d: u8, f: u8)
    requires !SomeWhole(rs, d) && Covers(rs, Command(d, f))
    ensures SomeEndHolds(rs, d, f) && NeedsRule(rs, d)
  {
    var i :| 0 <= i < |rs| && In(rs[i], Command(d, f));
    assert !Whole(rs[i], d);
    assert EndsIn(rs[i], d);
  }

  lemma CoveredIsGranted(rs: seq<Range>, rules: seq<XPerms>, todo: Words, d: u8, f: u8)
    requires Shapes(rs, rules) && WholeServed(rs, rules) && PartServed(rs, rules, todo)
    requires Proper(rs) && !Has(todo, d)
    requires Covers(rs, Command(d, f))
    ensures Granted(rules, Command(d, f))
  {
    var c := Command(d, f);
    assert Driver(c) == d && Func(c) == f;
    if SomeWhole(rs, d) {
      assert Grants(rules[0], c);
    } else {
      HeldAtAnEnd(rs, d, f);
      var j :| 0 <= j < |rules| && rules[j].specified == IoctlFunction && rules[j].driver == d;
      assert IsFuncRule(rules[j], rs) && Grants(rules[j], c);
    }
  }

  /** The set of commands is preserved. */
  lemma CompiledGrants(rs: seq<Range>, rules: seq<XPerms>, todo: Words, c: u16)
    requires Compiled(rs, rules, todo) && Proper(rs) && forall d: u8 :: !Has(todo, d)
    ensures Granted(rules, c) <==> Covers(rs, c)
  {
    assert c == Command(Driver(c), Func(c));
    if Granted(rules, c) {
      GrantedIsCovered(rs, rules, Driver(c), Func(c));
    }
    if Covers(rs, c) {
      CoveredIsGranted(rs, rules, todo, Driver(c), Func(c));
    }
  }

  lemma AppendShape(rs: seq<Range>, rules: seq<XPerms>, x: XPerms)
    requires Shapes(rs, rules) && WholeServed(rs, rules) && IsFuncRule(x, rs)
    ensures Shapes(rs, rules + [x]) && WholeServed(rs, rules + [x])
  {
    var rules' := rules + [x];
    forall d: u8 | SomeWhole(rs, d) ensures rules' != [] && IsDriverRule(rules'[0], rs) {
      assert rules'[0] == rules[0];
    }
  }

  lemma AppendNonEmpty(rules: seq<XPerms>, x: XPerms)
    requires NoEmptyRule(rules) && x.specified == IoctlFunction && exists f: u8 :: Has(x.perms, f)
    ensures NoEmptyRule(rules + [x])
  {
    var f: u8 :| Has(x.perms, f);
    var c := Command(x.driver, f);
    assert Driver(c) == x.driver && Func(c) == f;
    assert Grants(x, c);
  }

  lemma AppendServes(rs: seq<Range>, rules: seq<XPerms>, todo: Words, rest: Words, x: XPerms)
    requires OneRuleEach(rules) && PartServed(rs, rules, todo) && Has(todo, x.driver) && x.specified == IoctlFunction
    requires forall e: u8 :: Has(rest, e) <==> Has(todo, e) && e != x.driver
    ensures OneRuleEach(rules + [x]) && PartServed(rs, rules + [x], rest)
  {
    var rules' := rules + [x];
    forall e: u8 | NeedsRule(rs, e) && !Has(rest, e) ensures HasRule(rules', e) || Empty(rs, e) {
      if e == x.driver {
        assert rules'[|rules|].driver == e;
      } else if HasRule(rules, e) {
        var j :| 0 <= j < |rules| && rules[j].specified == IoctlFunction && rules[j].driver == e;
        assert rules'[j].driver == e;
      }
    }
  }

  lemma SkipRule(rs: seq<Range>, rules: seq<XPerms>, todo: Words, rest: Words, d: u8)
    requires Compiled(rs, rules, todo) && Empty(rs, d)
    requires forall e: u8 :: Has(rest, e) <==> Has(todo, e) && e != d
    ensures Compiled(rs, rules, rest)
  {
  }

  lemma FirstRules(rs: seq<Range>, complete: Option<XPerms>, todo: Words)
    requires complete.Some? <==> exists d: u8 :: SomeWhole(rs, d)
    requires complete.Some? ==> IsDriverRule(complete.value, rs)
    requires forall d: u8 :: Has(todo, d) <==> NeedsRule(rs, d)
    ensures Compiled(rs, if complete.Some? then [complete.value] else [], todo)
  {
    if complete.Some? {
      var d: u8 :| SomeWhole(rs, d);
      assert Driver(Command(d, 0)) == d;
      assert Grants([complete.value][0], Command(d, 0));
    }
  }

  /** The loop of define_te_avtab_ioctl over the partially used drivers. */
  method EmitFuncRules(rs: seq<Range>, partial: array<u32>, first: seq<XPerms>) returns (rules: seq<XPerms>)
    requires Sane(rs) && partial.Length == 8
    requires Compiled(rs, first, partial[..]) && forall d: u8 :: Has(partial[..], d) ==> NeedsRule(rs, d)
    modifies partial
    ensures Compiled(rs, rules, partial[..]) && forall d: u8 :: !Has(partial[..], d)
  {
    rules := first;
    var i := 0;
    while true
      invariant 0 <= i < 256
      invariant forall d: u8 :: Has(partial[..], d) ==> i <= d && NeedsRule(rs, d)
      invariant Compiled(rs, rules, partial[..])
      decreases 256 - i, if Has(partial[..], i) then 1 else 0
    {
      ghost var before := partial[..];
      var found, bit := NextBit(i, partial);
      if !found {
        break;
      }
      i := bit;
      var x := FuncPerms(rs, bit);
      if x.Some? {
        AppendShape(rs, rules, x.value);
        AppendNonEmpty(rules, x.value);
        AppendServes(rs, rules, before, partial[..], x.value);
        rules := rules + [x.value];
      } else {
        SkipRule(rs, rules, before, partial[..], bit);
      }
    }
  }

  /** define_te_avtab_ioctl, from ranges to the rules appended to the declaration. */
  method EmitRules(rs: seq<Range>) returns (rules: seq<XPerms>, ghost todo: Words)
    requires Sane(rs)
    ensures Compiled(rs, rules, todo) && forall d: u8 :: !Has(todo, d)
  {
    rules := [];
    var complete := CompleteDriver(rs);
    if complete.Some? {
      rules := [complete.value];
    }
    var partial, used := PartialDriver(rs, complete);
    FirstRules(rs, complete, partial[..]);
    if used {
      rules := EmitFuncRules(rs, partial, rules);
    }
    todo := partial[..];
  }

  /** What the list means: the named commands or, after `~`, the others. */
  predicate Meant(ts: seq<Token>, c: u16)
    requires Elements(ts)
  {
    Named(ts, c) != Negated(ts)
  }

  ghost predicate GrantsMeaning(rules: seq<XPerms>, ts: seq<Token>)
    requires Elements(ts)
  {
    forall c: u16 :: Granted(rules, c) <==> Meant(ts, c)
  }

  /** The three ways a complement fails are still wrong after compilation. */
  lemma MisflippedGrants(ts: seq<Token>, rs: seq<Range>, rules: seq<XPerms>, todo: Words)
    requires Elements(ts) && Negated(ts) && Misflipped(rs, ts)
    requires Compiled(rs, rules, todo) && forall d: u8 :: !Has(todo, d)
    ensures !GrantsMeaning(rules, ts)
  {
    if rs == [Range(0, 0)] && Named(ts, 0) {
      assert In(rs[0], 0);
      CompiledGrants(rs, rules, todo, 0);
      assert !Meant(ts, 0);
    } else if Proper(rs) {
      CompiledGrants(rs, rules, todo, LAST);
      assert !Meant(ts, LAST);
    } else {
      assert LAST == Command(255, 255);
      assert !Covers(rs, LAST);
      if Granted(rules, LAST) {
        GrantedIsCovered(rs, rules, 255, 255);
      }
      assert Meant(ts, LAST);
    }
  }

  /** One `allowxperm … ioctl` statement: the emitted rules are pairwise disjoint, none is empty, and together
      they grant what the list means, except for exactly those complements that wrap around. */
  method DefineIoctl(ts: seq<Token>) returns (res: Result<seq<XPerms>>)
    requires WellFormed(ts)
    ensures res.Ok? <==> Ascending(ts)
    ensures res.Ok? ==> Disjoint(res.value) && NoEmptyRule(res.value)
    ensures res.Ok? ==> (GrantsMeaning(res.value, ts) <==> (Negated(ts) ==> Omittable(ts)))
  {
    var ranges := IoctlRangeList(ts);
    if ranges.Err? {
      return Err;
    }
    var rs := ranges.value;
    var rules, todo := EmitRules(rs);
    CompiledDisjoint(rs, rules);
    if Negated(ts) && !Omittable(ts) {
      MisflippedGrants(ts, rs, rules, todo);
    } else {
      forall c: u16 ensures Granted(rules, c) <==> Meant(ts, c) {
        CompiledGrants(rs, rules, todo, c);
      }
    }
    return Ok(rules);
  }
}
