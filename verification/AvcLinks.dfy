/**
 The pointers of the access vector cache: the head of each chain, the `next`
 field of each node and the head of the free list. Following them gives the
 chains and the free list of `AvcCache`, and every pointer update keeps that.
 */
module AvcLinks {
  import opened AvcCache
  import opened Wrappers

  /** A node pointer; None is NULL. */
  type Ptr = Option<NodeId>

  datatype Links = Links(heads: seq<Ptr>, next: seq<Ptr>, freelist: Ptr)

  function At(s: seq<NodeId>, i: int): Ptr {
    if 0 <= i < |s| then Some(s[i]) else None
  }

  /** Following `next` from `head` visits `s` and ends. */
  ghost predicate Follows(next: seq<Ptr>, head: Ptr, s: seq<NodeId>) {
    head == At(s, 0) && forall i :: 0 <= i < |s| ==> s[i] < |next| && next[s[i]] == At(s, i + 1)
  }

  ghost predicate Threaded(l: Links, c: Cache) {
    && |c.slots| == |l.heads| == SLOTS && |l.next| == |c.nodes|
    && (forall h :: 0 <= h < SLOTS ==> Follows(l.next, l.heads[h], c.slots[h]))
    && Follows(l.next, l.freelist, c.free)
  }

  lemma Elsewhere(next: seq<Ptr>, head: Ptr, s: seq<NodeId>, p: NodeId, v: Ptr)
    requires Follows(next, head, s) && p < |next| && p !in s
    ensures Follows(next[p := v], head, s)
  {
    forall i | 0 <= i < |s| ensures s[i] < |next| && next[p := v][s[i]] == At(s, i + 1) {
      assert s[i] in s;
    }
  }

  /** The walk of a loop over chain `h`: from its head, and from each node to the one after it. */
  lemma Walk(l: Links, c: Cache, h: Slot, i: nat)
    requires Threaded(l, c) && i <= |c.slots[h]|
    ensures |c.slots| == |l.heads| == SLOTS && l.heads[h] == At(c.slots[h], 0)
    ensures i < |c.slots[h]| ==>
              c.slots[h][i] < |l.next| == |c.nodes| && l.next[c.slots[h][i]] == At(c.slots[h], i + 1)
  {
    assert Follows(l.next, l.heads[h], c.slots[h]);
  }

  lemma SameLists(l: Links, c: Cache, d: Cache)
    requires Threaded(l, c) && d.slots == c.slots && d.free == c.free && |d.nodes| == |c.nodes|
    ensures Threaded(l, d)
  {
  }

  /** The head of chain `h` replaced. */
  function Headed(l: Links, h: Slot, head: Ptr): Links
    requires |l.heads| == SLOTS
  {
    l.(heads := l.heads[h := head])
  }

  /** Changing an entry but not its key moves no node. */
  lemma AmendThreaded(l: Links, c: Cache, n: NodeId, e: Entry)
    requires Linked(c, {}) && Threaded(l, c) && n < |c.nodes| && e.key == c.nodes[n].key && e.key.ssid != 0
    ensures Linked(Amend(c, n, e), {}) && Threaded(l, Amend(c, n, e))
  {
    hide Linked, Threaded;
    AmendLinked(c, n, e);
    SameLists(l, c, Amend(c, n, e));
  }

  // ---- where a node is not ---------------------------------------------

  /** A chained node is on no other chain and not free. */
  lemma Alone(c: Cache, h: Slot, i: nat)
    requires Linked(c, {}) && i < |c.slots[h]|
    ensures c.slots[h][i] < |c.nodes| && c.slots[h][i] !in c.free
    ensures forall g :: 0 <= g < SLOTS && g != h ==> c.slots[h][i] !in c.slots[g]
  {
    assert ChainOk(c, h, {}) && c.slots[h][i] in c.slots[h];
    forall g | 0 <= g < SLOTS && g != h ensures c.slots[h][i] !in c.slots[g] {
      assert ChainOk(c, g, {});
    }
  }

  /** A node in hand is on no chain and not free. */
  lemma InHand(c: Cache, n: NodeId)
    requires Linked(c, {n})
    ensures n !in c.free
    ensures forall g :: 0 <= g < SLOTS ==> n !in c.slots[g]
  {
    forall g | 0 <= g < SLOTS ensures n !in c.slots[g] {
      assert ChainOk(c, g, {n});
    }
  }

  // ---- the updates ------------------------------------------------------

  /** Bridging over `cur`, whose predecessor on chain `h` is `prev`. */
  function UnlinkPtr(l: Links, h: Slot, prev: Ptr, cur: NodeId): Links
    requires |l.heads| == SLOTS && cur < |l.next|
  {
    if prev.None? then l.(heads := l.heads[h := l.next[cur]])
    else if prev.value < |l.next| then l.(next := l.next[prev.value := l.next[cur]])
    else l
  }

  lemma RemovedAt(s: seq<NodeId>, i: nat, k: int)
    requires i < |s| && 0 <= k
    ensures At(RemoveAt(s, i), k) == At(s, if k < i then k else k + 1)
  {
  }

  lemma FollowsAt(next: seq<Ptr>, head: Ptr, s: seq<NodeId>, i: nat)
    requires Follows(next, head, s) && i < |s|
    ensures s[i] < |next| && next[s[i]] == At(s, i + 1)
  {
  }

  lemma Apart(s: seq<NodeId>, i: nat, j: nat)
    requires NoDup(s) && i < |s| && j < |s| && i != j
    ensures s[i] != s[j]
  {
  }

  lemma BridgedAt(next: seq<Ptr>, head: Ptr, s: seq<NodeId>, i: nat, k: nat)
    requires Follows(next, head, s) && NoDup(s) && 0 < i < |s| && k < |s| - 1
    ensures s[i - 1] < |next| && s[i] < |next|
    ensures var r := RemoveAt(s, i); r[k] < |next| && next[s[i - 1] := next[s[i]]][r[k]] == At(r, k + 1)
  {
    hide RemoveAt, Follows, NoDup;
    RemovedAt(s, i, k);
    RemovedAt(s, i, k + 1);
    var j := if k < i then k else k + 1;
    FollowsAt(next, head, s, j);
    FollowsAt(next, head, s, i - 1);
    FollowsAt(next, head, s, i);
    if j != i - 1 {
      Apart(s, j, i - 1);
    }
  }

  lemma BridgedFirst(next: seq<Ptr>, head: Ptr, s: seq<NodeId>)
    requires Follows(next, head, s) && s != []
    ensures s[0] < |next| && Follows(next, next[s[0]], RemoveAt(s, 0))
  {
    var r := RemoveAt(s, 0);
    forall k | 0 <= k < |r| ensures r[k] < |next| && next[r[k]] == At(r, k + 1) {
      assert r[k] == s[k + 1];
    }
  }

  lemma Bridged(next: seq<Ptr>, head: Ptr, s: seq<NodeId>, i: nat)
    requires Follows(next, head, s) && NoDup(s) && 0 < i < |s|
    ensures s[i - 1] < |next| && s[i] < |next| && Follows(next[s[i - 1] := next[s[i]]], head, RemoveAt(s, i))
  {
    hide NoDup;
    var r := RemoveAt(s, i);
    forall k | 0 <= k < |r|
      ensures r[k] < |next| && s[i - 1] < |next| && s[i] < |next| && next[s[i - 1] := next[s[i]]][r[k]] == At(r, k + 1)
    {
      BridgedAt(next, head, s, i, k);
    }
  }

  lemma UnlinkThreaded(l: Links, c: Cache, h: Slot, i: nat)
    requires Linked(c, {}) && Threaded(l, c) && i < |c.slots[h]|
    ensures |l.heads| == SLOTS && c.slots[h][i] < |l.next|
    ensures Threaded(UnlinkPtr(l, h, At(c.slots[h], i - 1), c.slots[h][i]), Unlink(c, h, i))
  {
    hide Follows, RemoveAt;
    Walk(l, c, h, i);
    assert ChainOk(c, h, {});
    if i == 0 {
      BridgedFirst(l.next, l.heads[h], c.slots[h]);
    } else {
      Bridged(l.next, l.heads[h], c.slots[h], i);
    }
    var l', c' := UnlinkPtr(l, h, At(c.slots[h], i - 1), c.slots[h][i]), Unlink(c, h, i);
    if i > 0 {
      var p := c.slots[h][i - 1];
      Alone(c, h, i - 1);
      forall g | 0 <= g < SLOTS ensures Follows(l'.next, l'.heads[g], c'.slots[g]) {
        if g != h {
          Elsewhere(l.next, l.heads[g], c.slots[g], p, l.next[c.slots[h][i]]);
        }
      }
      Elsewhere(l.next, l.freelist, c.free, p, l.next[c.slots[h][i]]);
    }
  }

  function PopPtr(l: Links): Links {
    if l.freelist.Some? && l.freelist.value < |l.next| then l.(freelist := l.next[l.freelist.value]) else l
  }

  lemma PopThreaded(l: Links, c: Cache)
    requires Threaded(l, c)
    ensures l.freelist == At(c.free, 0)
    ensures c.free != [] ==> Threaded(PopPtr(l), PopFree(c))
  {
    if c.free != [] {
      var r := c.free[1..];
      forall k | 0 <= k < |r| ensures r[k] < |l.next| && l.next[r[k]] == At(r, k + 1) {
        assert r[k] == c.free[k + 1];
      }
    }
  }

  /** Node `n` becomes the head of chain `h`. */
  function LinkPtr(l: Links, h: Slot, n: NodeId): Links
    requires |l.heads| == SLOTS && n < |l.next|
  {
    l.(next := l.next[n := l.heads[h]], heads := l.heads[h := Some(n)])
  }

  lemma Pushed(next: seq<Ptr>, head: Ptr, s: seq<NodeId>, n: NodeId)
    requires Follows(next, head, s) && n < |next| && n !in s
    ensures Follows(next[n := head], Some(n), [n] + s)
  {
    Elsewhere(next, head, s, n, head);
    var r := [n] + s;
    forall k | 0 <= k < |r| ensures r[k] < |next| && next[n := head][r[k]] == At(r, k + 1) {
      if k > 0 {
        assert r[k] == s[k - 1];
      }
    }
  }

  lemma LinkThreaded(l: Links, c: Cache, n: NodeId, e: Entry)
    requires Linked(c, {n}) && Threaded(l, c) && n < |c.nodes|
    ensures |l.heads| == SLOTS && n < |l.next|
    ensures Threaded(LinkPtr(l, c.hash(e.key), n), Link(c, n, e))
  {
    hide Follows, Linked;
    InHand(c, n);
    var h := c.hash(e.key);
    var l', c' := LinkPtr(l, h, n), Link(c, n, e);
    forall g | 0 <= g < SLOTS ensures Follows(l'.next, l'.heads[g], c'.slots[g]) {
      if g == h {
        Pushed(l.next, l.heads[h], c.slots[h], n);
      } else {
        Elsewhere(l.next, l.heads[g], c.slots[g], n, l.heads[h]);
      }
    }
    Elsewhere(l.next, l.freelist, c.free, n, l.heads[h]);
  }

  /** Node `n` becomes the head of the free list. */
  function ReleasePtr(l: Links, n: NodeId): Links
    requires n < |l.next|
  {
    l.(next := l.next[n := l.freelist], freelist := Some(n))
  }

  lemma ReleaseThreaded(l: Links, c: Cache, n: NodeId)
    requires Linked(c, {n}) && Threaded(l, c) && n < |c.nodes|
    ensures n < |l.next| && Threaded(ReleasePtr(l, n), Release(c, n))
  {
    hide Follows, Linked;
    InHand(c, n);
    forall g | 0 <= g < SLOTS ensures Follows(l.next[n := l.freelist], l.heads[g], c.slots[g]) {
      Elsewhere(l.next, l.heads[g], c.slots[g], n, l.freelist);
    }
    Pushed(l.next, l.freelist, c.free, n);
  }

  // ---- the pool ---------------------------------------------------------

  function NewCache(hash: Key -> Slot): Cache {
    Cache(hash, [], seq(SLOTS, _ => []), [])
  }

  function NewLinks(): Links {
    Links(seq(SLOTS, _ => None), [], None)
  }

  /** `n` nodes, all free. */
  ghost predicate EmptyPoolOf(l: Links, c: Cache, n: nat) {
    && Linked(c, {}) && Threaded(l, c)
    && |c.nodes| == |c.free| == n && (forall k :: 0 <= k < n ==> c.nodes[k] == NOENTRY)
    && |c.slots| == SLOTS && (forall h :: 0 <= h < SLOTS ==> c.slots[h] == []) && Total(c.slots) == 0
  }

  lemma EmptyPool(hash: Key -> Slot)
    ensures EmptyPoolOf(NewLinks(), NewCache(hash), 0)
  {
    EmptyChains(NewCache(hash).slots);
  }

  /** A newly allocated, cleared node goes to the free list. */
  function Allocated(c: Cache): Cache {
    c.(nodes := c.nodes + [NOENTRY], free := [|c.nodes|] + c.free)
  }

  function AllocatedPtr(l: Links): Links {
    l.(next := l.next + [l.freelist], freelist := Some(|l.next|))
  }

  lemma AllocatedFollows(next: seq<Ptr>, head: Ptr, s: seq<NodeId>)
    requires Follows(next, head, s)
    ensures Follows(next + [head], Some(|next|), [|next|] + s)
  {
    var r := [|next|] + s;
    forall k | 0 <= k < |r| ensures r[k] < |next + [head]| && (next + [head])[r[k]] == At(r, k + 1) {
      if k > 0 {
        assert r[k] == s[k - 1];
      }
    }
  }

  lemma AllocatedLinked(c: Cache)
    requires Linked(c, {}) && forall h :: 0 <= h < SLOTS ==> c.slots[h] == []
    ensures Linked(Allocated(c), {})
  {
    var c' := Allocated(c);
    assert c'.free[0] == |c.nodes|;
    forall k | 0 <= k < |c.free| ensures c.free[k] < |c.nodes| {
      assert c.free[k] in c.free;
    }
    forall n | n in c'.free ensures n < |c'.nodes| && c'.nodes[n] == NOENTRY {
      assert n == |c.nodes| || n in c.free;
    }
    forall n | 0 <= n < |c'.nodes| ensures Placed(c', n) {
      if n < |c.nodes| {
        assert Placed(c, n);
      }
    }
  }

  lemma EmptyFollows(next: seq<Ptr>, head: Ptr, next': seq<Ptr>)
    requires Follows(next, head, [])
    ensures Follows(next', head, [])
  {
  }

  lemma AllocatedThreaded(l: Links, c: Cache)
    requires EmptyPoolOf(l, c, |c.nodes|)
    ensures EmptyPoolOf(AllocatedPtr(l), Allocated(c), |c.nodes| + 1) && Allocated(c).hash == c.hash
  {
    hide Total, Linked, Follows;
    AllocatedLinked(c);
    AllocatedFollows(l.next, l.freelist, c.free);
    forall h | 0 <= h < SLOTS ensures Follows(AllocatedPtr(l).next, l.heads[h], c.slots[h]) {
      assert Follows(l.next, l.heads[h], c.slots[h]);
      EmptyFollows(l.next, l.heads[h], AllocatedPtr(l).next);
    }
  }
}
