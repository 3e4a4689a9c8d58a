/**
 Choosing a node to evict: a walk round the slots that takes the used mark off
 every node it passes and stops at the first node without one.
 */
module AvcEviction {
  import opened AvcCache

  /** `d` is `c` with some used marks taken away. */
  ghost predicate Aged(c: Cache, d: Cache) {
    && d.hash == c.hash && d.slots == c.slots && d.free == c.free && |d.nodes| == |c.nodes|
    && forall n :: 0 <= n < |c.nodes| ==> d.nodes[n] == c.nodes[n] || d.nodes[n] == c.nodes[n].(used := false)
  }

  lemma AgedLinked(c: Cache, d: Cache)
    requires Linked(c, {}) && Aged(c, d)
    ensures Linked(d, {})
  {
    forall h | 0 <= h < SLOTS ensures ChainOk(d, h, {}) {
      assert ChainOk(c, h, {});
    }
    forall n | 0 <= n < |d.nodes| ensures Placed(d, n) {
      assert Placed(c, n);
    }
  }

  lemma AgedTransitive(a: Cache, b: Cache, c: Cache)
    requires Aged(a, b) && Aged(b, c)
    ensures Aged(a, c)
  {
  }

  /** The slot reached after `k` steps from `hint`. */
  function After(hint: Slot, k: nat): Slot {
    (hint + k) % 512
  }

  lemma AfterNext(hint: Slot, k: nat)
    ensures After(hint, 0) == hint && (After(hint, k) + 1) % 512 == After(hint, k + 1)
  {
  }

  lemma AfterReaches(hint: Slot, h: Slot) returns (k: nat)
    ensures k < SLOTS && After(hint, k) == h
  {
    k := if h >= hint then h - hint else h + 512 - hint;
  }

  lemma AfterInjective(hint: Slot, j: nat, k: nat)
    requires j < SLOTS && k < SLOTS && j != k
    ensures After(hint, j) != After(hint, k)
  {
  }

  /** Node `n` was marked used before and is not now. */
  ghost predicate MarkLost(was: Cache, now: Cache, n: NodeId) {
    n < |was.nodes| && n < |now.nodes| && was.nodes[n].used && !now.nodes[n].used
  }

  ghost predicate Untouched(was: Cache, now: Cache, n: NodeId) {
    n < |was.nodes| && n < |now.nodes| && now.nodes[n] == was.nodes[n]
  }

  predicate Unused(c: Cache, n: NodeId) {
    n < |c.nodes| && !c.nodes[n].used
  }

  ghost predicate SlotAged(was: Cache, now: Cache, h: nat)
    requires h < |was.slots|
  {
    forall n :: n in was.slots[h] ==> MarkLost(was, now, n)
  }

  ghost predicate SlotUntouched(was: Cache, now: Cache, h: nat)
    requires h < |was.slots|
  {
    forall n :: n in was.slots[h] ==> Untouched(was, now, n)
  }

  // ---- one chain ------------------------------------------------------

  /** The first `i` nodes of chain `h` have lost their mark, and nothing else has changed. */
  ghost predicate ScannedTo(was: Cache, now: Cache, h: Slot, i: nat)
    requires Linked(was, {})
  {
    && Aged(was, now) && i <= |was.slots[h]|
    && (forall k :: 0 <= k < i ==> MarkLost(was, now, was.slots[h][k]))
    && (forall k :: i <= k < |was.slots[h]| ==> Untouched(was, now, was.slots[h][k]))
    && (forall n :: 0 <= n < |was.nodes| && n !in was.slots[h] ==> Untouched(was, now, n))
  }

  lemma ScanStart(was: Cache, h: Slot)
    requires Linked(was, {})
    ensures ScannedTo(was, was, h, 0)
  {
    assert ChainOk(was, h, {});
    forall k | 0 <= k < |was.slots[h]| ensures Untouched(was, was, was.slots[h][k]) {
      assert was.slots[h][k] in was.slots[h];
    }
  }

  lemma ScanStep(was: Cache, now: Cache, h: Slot, i: nat)
    requires Linked(was, {}) && ScannedTo(was, now, h, i) && i < |was.slots[h]|
    requires !Unused(now, was.slots[h][i])
    ensures was.slots[h][i] < |now.nodes|
    ensures var n := was.slots[h][i];
            ScannedTo(was, Amend(now, n, now.nodes[n].(used := false)), h, i + 1)
  {
    assert ChainOk(was, h, {});
    var n := was.slots[h][i];
    assert Untouched(was, now, n);
  }

  // ---- all the slots --------------------------------------------------

  /** The first `k` slots after the hint have lost their marks; the others are as before. */
  ghost predicate SweptTo(was: Cache, now: Cache, hint: Slot, k: nat)
    requires Linked(was, {})
  {
    && Aged(was, now)
    && (forall j :: 0 <= j < k ==> SlotAged(was, now, After(hint, j)))
    && (forall j :: k <= j < SLOTS ==> SlotUntouched(was, now, After(hint, j)))
  }

  lemma SweepStart(was: Cache, hint: Slot)
    requires Linked(was, {})
    ensures SweptTo(was, was, hint, 0)
  {
    forall j | 0 <= j < SLOTS ensures SlotUntouched(was, was, After(hint, j)) {
      assert ChainOk(was, After(hint, j), {});
    }
  }

  lemma OtherChains(c: Cache, g: Slot, h: Slot, n: NodeId)
    requires Linked(c, {}) && g != h && n in c.slots[g]
    ensures n < |c.nodes| && n !in c.slots[h]
  {
    assert ChainOk(c, g, {}) && ChainOk(c, h, {});
  }

  lemma SweepStep(was: Cache, mid: Cache, now: Cache, hint: Slot, k: nat)
    requires Linked(was, {}) && Linked(mid, {}) && k < SLOTS
    requires SweptTo(was, mid, hint, k)
    requires ScannedTo(mid, now, After(hint, k), |mid.slots[After(hint, k)]|)
    ensures SweptTo(was, now, hint, k + 1)
  {
    var h := After(hint, k);
    forall j | 0 <= j < SLOTS && j != k
      ensures if j < k then SlotAged(was, now, After(hint, j)) else SlotUntouched(was, now, After(hint, j))
    {
      AfterInjective(hint, j, k);
      forall n | n in was.slots[After(hint, j)] ensures if j < k then MarkLost(was, now, n) else Untouched(was, now, n) {
        OtherChains(mid, After(hint, j), h, n);
        assert Untouched(mid, now, n);
      }
    }
    forall n | n in was.slots[h] ensures MarkLost(was, now, n) {
      assert Untouched(was, mid, n);
      var i :| 0 <= i < |mid.slots[h]| && mid.slots[h][i] == n;
      assert MarkLost(mid, now, mid.slots[h][i]);
    }
  }

  /** Every chained node has lost its mark. */
  ghost predicate AllAged(was: Cache, now: Cache) {
    forall h :: 0 <= h < |was.slots| ==> SlotAged(was, now, h)
  }

  lemma SweepEnd(was: Cache, now: Cache, hint: Slot)
    requires Linked(was, {}) && SweptTo(was, now, hint, SLOTS)
    ensures AllAged(was, now)
  {
    forall h | 0 <= h < SLOTS ensures SlotAged(was, now, h) {
      var j := AfterReaches(hint, h);
    }
  }

  lemma VictimWasUnused(was: Cache, mid: Cache, now: Cache, h: Slot, i: nat, hint: Slot, k: nat)
    requires Linked(was, {}) && Linked(mid, {}) && k < SLOTS && h == After(hint, k)
    requires SweptTo(was, mid, hint, k) && ScannedTo(mid, now, h, i) && i < |now.slots[h]|
    requires Unused(now, now.slots[h][i])
    ensures Aged(was, now) && Unused(was, now.slots[h][i])
  {
    AgedTransitive(was, mid, now);
    var n := mid.slots[h][i];
    assert Untouched(mid, now, n);
    assert n in was.slots[h] && SlotUntouched(was, mid, h);
  }

  /** In the walk from `hint`, every node before node `i` of slot number `k` is marked. */
  ghost predicate MarkedBefore(c: Cache, hint: Slot, k: nat, i: nat) {
    && |c.slots| == SLOTS && k < SLOTS && i < |c.slots[After(hint, k)]|
    && (forall j, n :: 0 <= j < k && n in c.slots[After(hint, j)] ==> !Unused(c, n))
    && forall p :: 0 <= p < i ==> !Unused(c, c.slots[After(hint, k)][p])
  }

  /** The slots before number `k` in the walk are empty. */
  ghost predicate EmptyBefore(c: Cache, hint: Slot, k: nat) {
    |c.slots| == SLOTS && forall j :: 0 <= j < k ==> c.slots[After(hint, j)] == []
  }

  lemma LinkedSlots(c: Cache)
    requires Linked(c, {})
    ensures |c.slots| == SLOTS
  {
  }

  lemma VictimOrder(was: Cache, mid: Cache, now: Cache, i: nat, hint: Slot, k: nat)
    requires Linked(was, {}) && Linked(mid, {}) && k < SLOTS
    requires SweptTo(was, mid, hint, k) && ScannedTo(mid, now, After(hint, k), i) && i < |now.slots[After(hint, k)]|
    ensures MarkedBefore(was, hint, k, i)
  {
    hide After, Linked;
    LinkedSlots(was);
    forall j, n | 0 <= j < k && n in was.slots[After(hint, j)] ensures !Unused(was, n) {
      assert SlotAged(was, mid, After(hint, j)) && MarkLost(was, mid, n);
    }
    var h := After(hint, k);
    forall p | 0 <= p < i ensures !Unused(was, was.slots[h][p]) {
      var n := was.slots[h][p];
      assert MarkLost(mid, now, mid.slots[h][p]);
      assert n in was.slots[h] && SlotUntouched(was, mid, h) && Untouched(was, mid, n);
    }
  }

  // ---- two rounds -----------------------------------------------------

  /** Every chained node is marked as used. */
  ghost predicate AllMarked(c: Cache) {
    forall h, n :: 0 <= h < |c.slots| && n in c.slots[h] ==> !Unused(c, n)
  }

  ghost predicate NoneMarked(c: Cache) {
    forall h, n :: 0 <= h < |c.slots| && n in c.slots[h] ==> Unused(c, n)
  }

  lemma AgedOut(was: Cache, now: Cache)
    requires Aged(was, now) && AllAged(was, now)
    ensures AllMarked(was) && NoneMarked(now)
  {
    forall h, n | 0 <= h < |was.slots| && n in was.slots[h] ensures !Unused(was, n) && Unused(now, n) {
      assert SlotAged(was, now, h) && MarkLost(was, now, n);
    }
  }

  lemma HeadUnused(c: Cache, h: nat)
    requires NoneMarked(c) && h < |c.slots| && c.slots[h] != []
    ensures Unused(c, c.slots[h][0])
  {
    assert c.slots[h][0] in c.slots[h];
  }

  lemma HeadMarked(c: Cache, h: nat)
    requires AllMarked(c) && h < |c.slots| && c.slots[h] != []
    ensures !Unused(c, c.slots[h][0])
  {
    assert c.slots[h][0] in c.slots[h];
  }

  lemma NoneLeft(was: Cache, now: Cache)
    requires Aged(was, now) && NoneMarked(was) && AllMarked(was)
    ensures Total(now.slots) == 0
  {
    forall h | 0 <= h < |now.slots| ensures now.slots[h] == [] {
      if now.slots[h] != [] {
        HeadUnused(was, h);
        HeadMarked(was, h);
      }
    }
    EmptyChains(now.slots);
  }

  /** In the first round the victim was unmarked, in the second everything was marked. */
  lemma UnmarkedOrAll(was: Cache, before: Cache, n: NodeId)
    requires before == was || AllMarked(was)
    requires Unused(before, n)
    ensures Unused(was, n) || AllMarked(was)
  {
  }

  lemma HeadPassed(c: Cache, hint: Slot, k: nat, i: nat, j: nat)
    requires MarkedBefore(c, hint, k, i) && j < k && c.slots[After(hint, j)] != []
    ensures !Unused(c, c.slots[After(hint, j)][0])
  {
    hide After;
    assert c.slots[After(hint, j)][0] in c.slots[After(hint, j)];
  }

  lemma FirstPassed(c: Cache, hint: Slot, k: nat, i: nat)
    requires MarkedBefore(c, hint, k, i) && i > 0
    ensures !Unused(c, c.slots[After(hint, k)][0])
  {
    hide After;
  }

  /** When nothing is marked, the walk stops at the first node there is. */
  lemma SecondRound(c: Cache, hint: Slot, k: nat, i: nat)
    requires NoneMarked(c) && MarkedBefore(c, hint, k, i)
    ensures EmptyBefore(c, hint, k) && i == 0
  {
    hide After;
    forall j | 0 <= j < k ensures c.slots[After(hint, j)] == [] {
      if c.slots[After(hint, j)] != [] {
        HeadUnused(c, After(hint, j));
        HeadPassed(c, hint, k, i, j);
      }
    }
    if i > 0 {
      HeadUnused(c, After(hint, k));
      FirstPassed(c, hint, k, i);
    }
  }

  lemma WalkBounds(c: Cache, hint: Slot, k: nat, i: nat)
    requires MarkedBefore(c, hint, k, i)
    ensures |c.slots| == SLOTS && k < SLOTS && i < |c.slots[After(hint, k)]|
  {
  }

  lemma EmptyAlike(c: Cache, d: Cache, hint: Slot, k: nat)
    requires EmptyBefore(c, hint, k) && c.slots == d.slots
    ensures EmptyBefore(d, hint, k)
  {
  }

  // ---- the victim -----------------------------------------------------

  /** A position on a chain. */
  datatype Place = Place(slot: Slot, pos: nat)

  ghost predicate IsPlace(c: Cache, p: Place) {
    |c.slots| == SLOTS && p.pos < |c.slots[p.slot]|
  }

  ghost function NodeAt(c: Cache, p: Place): NodeId
    requires IsPlace(c, p)
  {
    c.slots[p.slot][p.pos]
  }

  /** `n`, at place `p` of the aged cache `c`, has been taken off its chain. */
  ghost predicate UnlinkedAt(was: Cache, c: Cache, now: Cache, n: NodeId, p: Place) {
    Aged(was, c) && IsPlace(c, p) && n == NodeAt(c, p) && now == Unlink(c, p.slot, p.pos)
  }

  /** Reclaiming unlinks `n` alone from slot `hint`, and a recently used node only when all were. */
  ghost predicate Reclaimed(was: Cache, now: Cache, n: NodeId, hint: Slot) {
    && (exists c: Cache, p: Place :: UnlinkedAt(was, c, now, n, p) && p.slot == hint)
    && (Unused(was, n) || AllMarked(was))
  }

  lemma ReclaimedLinked(was: Cache, now: Cache, n: NodeId, hint: Slot)
    requires Linked(was, {}) && Reclaimed(was, now, n, hint)
    ensures Linked(now, {n}) && n < |now.nodes| && Total(now.slots) == Total(was.slots) - 1
    ensures now.hash == was.hash && now.free == was.free && |now.nodes| == |was.nodes|
    ensures forall m :: 0 <= m < |now.nodes| ==> now.nodes[m] == was.nodes[m] || now.nodes[m] == was.nodes[m].(used := false)
  {
    var c: Cache, p: Place :| UnlinkedAt(was, c, now, n, p) && p.slot == hint;
    AgedLinked(was, c);
    UnlinkLinked(c, p.slot, p.pos);
    assert ChainOk(c, p.slot, {}) && n in c.slots[p.slot];
  }

  /** Node `n`, at node `i` of slot number `k`, is the one to evict: the first unmarked node in the walk from the hint,
      or the first node at all if every node is marked. */
  ghost predicate IsVictim(c: Cache, hint: Slot, n: NodeId, k: nat, i: nat) {
    && |c.slots| == SLOTS && k < SLOTS && i < |c.slots[After(hint, k)]| && n == c.slots[After(hint, k)][i]
    && ((Unused(c, n) && MarkedBefore(c, hint, k, i)) || (AllMarked(c) && EmptyBefore(c, hint, k) && i == 0))
  }

  ghost predicate ClockVictim(c: Cache, hint: Slot, n: NodeId) {
    exists k, i :: IsVictim(c, hint, n, k, i)
  }
}
