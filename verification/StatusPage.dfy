/**
 The kernel status page as libselinux reads it: a writer that makes the
 sequence number odd while it changes fields, and a reader that retries until
 it has seen the same even number before and after. Also the change detection
 built on that number, and its netlink fallback.
 */
module StatusPage {
  import opened Bits
  import opened Wrappers

  datatype Fields = Fields(enforcing: u32, policyload: u32, denyUnknown: u32)

  datatype Field = Enforcing | Policyload | DenyUnknown

  function Get(f: Fields, which: Field): u32 {
    match which
    case Enforcing => f.enforcing
    case Policyload => f.policyload
    case DenyUnknown => f.denyUnknown
  }

  /** What the three getters return for a field value. */
  function Returned(which: Field, v: u32): u32 {
    match which
    case Policyload => v
    case _ => if v != 0 then 1 else 0
  }

  /** Where a getter stands: before its first read_sequence, before the field, before the second read_sequence, done.
      Of the number it has read it holds only the low 32 bits. */
  datatype Reader =
    | Idle
    | First(which: Field)
    | Value(which: Field, seqno: nat)
    | Second(which: Field, seqno: nat, value: u32)
    | Done(which: Field, result: u32)

  /** Shared memory, the last state the writer completed, and one reader. The page shows the low 32 bits of the number
      of steps. */
  datatype System = System(sequence: nat, fields: Fields, committed: Fields, reader: Reader)

  // ---- steps ----------------------------------------------------------

  /** The writer: odd before the first change, even after the last. */
  ghost predicate WriterStep(s: System, t: System) {
    && t.reader == s.reader
    && (|| (s.sequence % 2 == 0 && t.sequence == s.sequence + 1 && t.fields == s.fields && t.committed == s.committed)
        || (s.sequence % 2 == 1 && t.sequence == s.sequence && t.committed == s.committed)
        || (s.sequence % 2 == 1 && t.sequence == s.sequence + 1 && t.fields == s.fields && t.committed == s.fields))
  }

  /** One memory access of a getter; an odd number is read again, a changed one starts over. */
  function ReaderStep(s: System): Reader {
    match s.reader
    case First(which) => if s.sequence % 2 == 1 then s.reader else Value(which, s.sequence)
    case Value(which, seqno) => Second(which, seqno, Get(s.fields, which))
    case Second(which, seqno, value) =>
      if s.sequence % 2 == 1 then s.reader
      else if Wrap32(s.sequence) == Wrap32(seqno) then Done(which, Returned(which, value))
      else First(which)
    case _ => s.reader
  }

  ghost predicate Next(s: System, t: System) {
    || WriterStep(s, t)
    || t == s.(reader := ReaderStep(s))
    || (exists which: Field :: (s.reader.Idle? || s.reader.Done?) && t == s.(reader := First(which)))
  }

  /** Outside an update the fields are the committed ones, and a number the reader holds was even. A value it read is
      the committed one for as long as the number has not moved. */
  ghost predicate Inv(s: System) {
    && (s.sequence % 2 == 0 ==> s.fields == s.committed)
    && match s.reader
       case Value(_, seqno) => seqno % 2 == 0 && seqno <= s.sequence
       case Second(which, seqno, value) =>
         seqno % 2 == 0 && seqno <= s.sequence && (s.sequence == seqno ==> value == Get(s.committed, which))
       case _ => true
  }

  ghost predicate IsRun(run: seq<System>) {
    && run != [] && Inv(run[0]) && run[0].reader == Idle
    && forall i :: 0 <= i < |run| - 1 ==> Next(run[i], run[i + 1])
  }

  lemma InvStep(s: System, t: System)
    requires Inv(s) && Next(s, t)
    ensures Inv(t)
  {
  }

  lemma {:induction false} InvAlways(run: seq<System>, i: nat)
    requires IsRun(run) && i < |run|
    ensures Inv(run[i])
  {
    if i > 0 {
      InvAlways(run, i - 1);
      InvStep(run[i - 1], run[i]);
    }
  }

  /** A call of a getter: started after `from`, finished at `to`. */
  ghost predicate Call(run: seq<System>, from: nat, to: nat, which: Field) {
    && from < to < |run|
    && run[from].reader == First(which) && run[to].reader.Done?
    && forall k :: from <= k < to ==> !run[k].reader.Idle? && !run[k].reader.Done?
  }

  lemma {:induction false} SameField(run: seq<System>, from: nat, to: nat, which: Field, k: nat)
    requires IsRun(run) && Call(run, from, to, which) && from <= k <= to
    ensures run[k].reader.which == which
  {
    if k > from {
      SameField(run, from, to, which, k - 1);
      assert Next(run[k - 1], run[k]);
    }
  }

  /** The number only grows, and what the reader holds was read since the call began. */
  lemma {:induction false} ReadSince(run: seq<System>, from: nat, to: nat, which: Field, k: nat)
    requires IsRun(run) && Call(run, from, to, which) && from <= k < to
    ensures run[from].sequence <= run[k].sequence
    ensures run[k].reader.Value? || run[k].reader.Second? ==> run[from].sequence <= run[k].reader.seqno
  {
    if k > from {
      ReadSince(run, from, to, which, k - 1);
      assert Next(run[k - 1], run[k]);
    }
  }

  /** What the caller of a getter is told when these fields are in force. */
  predicate Tells(which: Field, f: Fields, result: u32) {
    && (which == Enforcing ==> result == if f.enforcing == 0 then 0 else 1)
    && (which == DenyUnknown ==> result == if f.denyUnknown == 0 then 0 else 1)
    && (which == Policyload ==> result == f.policyload)
  }

  /** The getter has told what was committed at instant `k`. */
  ghost predicate TellsOf(run: seq<System>, k: nat, to: nat, which: Field) {
    k < |run| && to < |run| && run[to].reader.Done? && run[to].reader.which == which
    && Tells(which, run[k].committed, run[to].reader.result)
  }

  lemma SameNumber(n: nat, m: nat)
    requires m <= n < m + TWO32 && Wrap32(n) == Wrap32(m)
    ensures n == m
  {
    var d := n - m;
    assert n % TWO32 == m % TWO32;
    assert n == TWO32 * (n / TWO32) + n % TWO32 && m == TWO32 * (m / TWO32) + m % TWO32;
  }

  /** In every interleaving in which the number moves by less than 2^32 during a call, what the call returns was the
      committed value at some instant during the call. */
  lemma Linearizable(run: seq<System>, from: nat, to: nat, which: Field)
    requires IsRun(run) && Call(run, from, to, which)
    ensures run[to].sequence < run[from].sequence + TWO32 ==>
              exists k :: from <= k <= to && TellsOf(run, k, to, which)
  {
    InvAlways(run, to - 1);
    SameField(run, from, to, which, to - 1);
    SameField(run, from, to, which, to);
    ReadSince(run, from, to, which, to - 1);
    assert Next(run[to - 1], run[to]);
    if run[to].sequence < run[from].sequence + TWO32 {
      SameNumber(run[to - 1].sequence, run[to - 1].reader.seqno);
      assert run[to].reader == Done(which, Returned(which, Get(run[to - 1].committed, which)));
      assert TellsOf(run, to - 1, to, which);
    }
  }

  const CALM := Fields(0, 0, 0)
  const TORN := Fields(0, 7, 0)

  /** A run in which a getter reads a field in the middle of an update and then sleeps while 2^31 updates go by. */
  function Stalled(i: nat): System {
    if i == 0 then System(0, CALM, CALM, Idle)
    else if i == 1 then System(0, CALM, CALM, First(Policyload))
    else if i == 2 then System(0, CALM, CALM, Value(Policyload, 0))
    else if i == 3 then System(1, CALM, CALM, Value(Policyload, 0))
    else if i == 4 then System(1, TORN, CALM, Value(Policyload, 0))
    else if i == 5 then System(1, TORN, CALM, Second(Policyload, 0, 7))
    else if i < TWO32 + 6 then System(i - 5, CALM, CALM, Second(Policyload, 0, 7))
    else System(TWO32, CALM, CALM, Done(Policyload, 7))
  }

  lemma StalledStep(i: nat)
    requires i < TWO32 + 6
    ensures Next(Stalled(i), Stalled(i + 1))
  {
    if i == 0 {
      assert Stalled(1) == Stalled(0).(reader := First(Policyload));
    } else if i == TWO32 + 5 {
      assert Wrap32(TWO32) == Wrap32(0);
    }
  }

  /** When the number moves by exactly 2^32 a call can return a value that was never committed. */
  lemma WrapFails() returns (run: seq<System>, from: nat, to: nat)
    ensures IsRun(run) && Call(run, from, to, Policyload) && run[to].sequence == run[from].sequence + TWO32
    ensures forall k :: 0 <= k < |run| ==> !TellsOf(run, k, to, Policyload)
  {
    run, from, to := seq(TWO32 + 7, i requires 0 <= i < TWO32 + 7 => Stalled(i)), 1, TWO32 + 6;
    forall i | 0 <= i < |run| - 1 ensures Next(run[i], run[i + 1]) {
      StalledStep(i);
    }
  }

  ghost predicate Committed(run: seq<System>, from: nat, to: nat, which: Field) {
    exists k :: from <= k <= to && TellsOf(run, k, to, which)
  }

  /** Every call during which the number moves by less than `n` returns a value that was committed during the call. */
  ghost predicate SafeBelow(n: nat) {
    forall run: seq<System>, from: nat, to: nat, which: Field ::
      IsRun(run) && Call(run, from, to, which) && run[to].sequence < run[from].sequence + n ==> Committed(run, from, to, which)
  }

  /** The exact bound. */
  lemma SafeExactlyBelow(n: nat)
    ensures SafeBelow(n) <==> n <= TWO32
  {
    if n <= TWO32 {
      forall run: seq<System>, from: nat, to: nat, which: Field
        | IsRun(run) && Call(run, from, to, which) && run[to].sequence < run[from].sequence + n
        ensures Committed(run, from, to, which)
      {
        Linearizable(run, from, to, which);
      }
    } else {
      var run, from, to := WrapFails();
      assert !Committed(run, from, to, Policyload);
    }
  }

  // ---- change detection -----------------------------------------------

  datatype Mode = Closed | Mapped | Fallback

  const NEVER: u32 := 0xffff_ffff

  class Status {
    var mode: Mode
    var lastSeqno: u32
    var fallbackSequence: u32
    var fallbackEnforcing: int
    var fallbackPolicyload: int

    /** selinux_status_open; `mapped` tells whether the page could be mapped. */
    constructor (mapped: bool, enforcing: int)
      ensures mode == (if mapped then Mapped else Fallback) && lastSeqno == NEVER
      ensures fallbackSequence == 0 && fallbackEnforcing == enforcing && fallbackPolicyload == 0
    {
      mode := if mapped then Mapped else Fallback;
      lastSeqno, fallbackSequence, fallbackEnforcing, fallbackPolicyload := NEVER, 0, enforcing, 0;
    }

    /** fallback_cb_setenforce. */
    method OnSetEnforce(enforcing: int)
      modifies this`fallbackSequence, this`fallbackEnforcing
      ensures fallbackSequence == Wrap32(old(fallbackSequence) + 2) && fallbackEnforcing == enforcing
    {
      fallbackSequence := Wrap32(fallbackSequence + 2);
      fallbackEnforcing := enforcing;
    }

    /** fallback_cb_policyload. */
    method OnPolicyload(policyload: int)
      modifies this`fallbackSequence, this`fallbackPolicyload
      ensures fallbackSequence == Wrap32(old(fallbackSequence) + 2) && fallbackPolicyload == policyload
    {
      fallbackSequence := Wrap32(fallbackSequence + 2);
      fallbackPolicyload := policyload;
    }

    /** selinux_status_updated; `page` is what read_sequence returns from a mapped page, and `received` tells whether
        the notices could be received without one. */
    method Updated(page: u32, received: bool) returns (result: int)
      requires page % 2 == 0 && fallbackSequence % 2 == 0
      modifies this`lastSeqno
      ensures result == -1 <==> mode == Closed || (mode == Fallback && !received)
      ensures result == -1 ==> lastSeqno == old(lastSeqno)
      ensures result != -1 ==>
                var current := if mode == Mapped then page else fallbackSequence;
                lastSeqno == current && result == if old(lastSeqno) % 2 == 0 && old(lastSeqno) != current then 1 else 0
    {
      if mode == Closed || (mode == Fallback && !received) {
        return -1;
      }
      var current := if mode == Fallback then fallbackSequence else page;
      if lastSeqno % 2 == 1 {
        lastSeqno := current;
      }
      result := 0;
      if lastSeqno != current {
        lastSeqno := current;
        result := 1;
      }
    }
  }

  /** The number at call `i` is not that of the call before. */
  predicate Moved(pages: seq<u32>, i: nat)
    requires i < |pages|
  {
    i > 0 && pages[i] != pages[i - 1]
  }

  /** On a mapped page: never on the first call, then exactly when the number differs from the previous call's. */
  method MappedCalls(pages: seq<u32>) returns (answers: seq<bool>)
    requires forall i :: 0 <= i < |pages| ==> pages[i] % 2 == 0
    ensures |answers| == |pages|
    ensures forall i :: 0 <= i < |pages| ==> (answers[i] <==> Moved(pages, i))
  {
    var status := new Status(true, 1);
    answers := [];
    for i := 0 to |pages|
      invariant |answers| == i && status.mode == Mapped && status.fallbackSequence == 0
      invariant status.lastSeqno == if i == 0 then NEVER else pages[i - 1]
      invariant forall k :: 0 <= k < i ==> (answers[k] <==> Moved(pages, k))
    {
      var r := status.Updated(pages[i], true);
      answers := answers + [r == 1];
    }
  }

  /** What can happen in fallback mode: a notice arrives, or the application asks. */
  datatype Event = SetEnforce(val: int) | PolicyLoad(count: int) | Ask

  function Notices(events: seq<Event>): nat {
    if events == [] then 0 else
      Notices(events[..|events| - 1]) + (if events[|events| - 1].Ask? then 0 else 1)
  }

  /** How many notices had arrived when the application last asked. */
  function LastAsk(events: seq<Event>): Option<nat> {
    if events == [] then None
    else if events[|events| - 1].Ask? then Some(Notices(events))
    else LastAsk(events[..|events| - 1])
  }

  /** Asked after `events`: something is reported if notices have arrived since, counted modulo 2^31. */
  predicate Reports(events: seq<Event>) {
    LastAsk(events).Some? && (Notices(events) - LastAsk(events).value) % 0x8000_0000 != 0
  }

  function Answers(events: seq<Event>): seq<bool> {
    if events == [] then [] else
      var before := events[..|events| - 1];
      Answers(before) + (if events[|events| - 1].Ask? then [Reports(before)] else [])
  }

  lemma {:induction false} LastAskEarlier(events: seq<Event>)
    ensures LastAsk(events).Some? ==> LastAsk(events).value <= Notices(events)
  {
    if events != [] {
      LastAskEarlier(events[..|events| - 1]);
    }
  }

  /** Doubling modulo 2^32 distinguishes counts exactly modulo 2^31. */
  lemma DoubledDiffer(m: nat, n: nat)
    requires m <= n
    ensures Wrap32(2 * m) == Wrap32(2 * n) <==> (n - m) % 0x8000_0000 == 0
  {
    var d := n - m;
    var q, r := d / 0x8000_0000, d % 0x8000_0000;
    assert 2 * n == 2 * m + 2 * r + 0x1_0000_0000 * q;
    assert Wrap32(2 * n) == (2 * m + 2 * r) % 0x1_0000_0000;
  }

  lemma NextNotice(n: nat)
    ensures Wrap32(Wrap32(2 * n) + 2) == Wrap32(2 * (n + 1)) && Wrap32(2 * n) % 2 == 0
  {
  }

  /** In fallback mode, over every sequence of notices and questions, the answers are those counted above. */
  method FallbackRun(events: seq<Event>, enforcing: int) returns (answers: seq<bool>)
    ensures answers == Answers(events)
  {
    hide Wrap32;
    var status := new Status(false, enforcing);
    answers := [];
    NextNotice(0);
    for i := 0 to |events|
      invariant answers == Answers(events[..i]) && status.mode == Fallback
      invariant status.fallbackSequence == Wrap32(2 * Notices(events[..i]))
      invariant status.lastSeqno == match LastAsk(events[..i]) { case None => NEVER case Some(n) => Wrap32(2 * n) }
    {
      ghost var before := events[..i];
      assert events[..i + 1][..i] == before;
      NextNotice(Notices(before));
      LastAskEarlier(before);
      if LastAsk(before).Some? {
        DoubledDiffer(LastAsk(before).value, Notices(before));
        NextNotice(LastAsk(before).value);
      }
      match events[i] {
        case SetEnforce(val) => status.OnSetEnforce(val);
        case PolicyLoad(count) => status.OnPolicyload(count);
        case Ask =>
          var r := status.Updated(0, true);
          answers := answers + [r == 1];
      }
    }
    assert events[..|events|] == events;
  }
}
