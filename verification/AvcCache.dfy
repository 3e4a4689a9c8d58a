/**
 The storage of the userspace access vector cache: a pool of nodes, each of
 which is on one hash chain, on the free list, or briefly in the hands of the
 operation that is moving it.
 */
module AvcCache {
  import opened BitMasks
  import opened Bits
  import opened Wrappers

  const SLOTS: nat := 512
  const MAXNODES: nat := 410

  type Slot = h: nat | h < 512
  /** A security identifier; NULL is 0. */
  type Sid = nat
  type NodeId = nat

  datatype Key = Key(ssid: Sid, tsid: Sid, tclass: nat)

  /** struct av_decision. */
  datatype Decision = Decision(allowed: bv32, decided: bv32, auditallow: bv32, auditdeny: bv32, seqno: u32, flags: bv32)

  datatype Entry = Entry(key: Key, avd: Decision, createSid: Sid, used: bool)

  const NODECISION := Decision(0, 0, 0, 0, 0, 0)
  const NOENTRY := Entry(Key(0, 0, 0), NODECISION, 0, false)

  /** The entry is that of the key and holds the label computed for it. */
  predicate Remembers(e: Entry, key: Key, sid: Sid) {
    e.key == key && e.createSid == sid
  }

  /** The pool. The chains and the free list stand for the pointers that `AvcLinks` describes. */
  datatype Cache = Cache(hash: Key -> Slot, nodes: seq<Entry>, ghost slots: seq<seq<NodeId>>, ghost free: seq<NodeId>)

  predicate NoDup(s: seq<NodeId>) {
    forall i, j :: 0 <= i < j < |s| ==> s[i] != s[j]
  }

  /** A node in use is on the chain of its own key. */
  ghost predicate ChainOk(c: Cache, h: nat, limbo: set<NodeId>)
    requires h < |c.slots|
  {
    && NoDup(c.slots[h])
    && forall n :: n in c.slots[h] ==>
         n < |c.nodes| && n !in limbo && c.nodes[n].key.ssid != 0 && c.hash(c.nodes[n].key) == h
  }

  ghost predicate FreeOk(c: Cache, limbo: set<NodeId>) {
    && NoDup(c.free)
    && forall n :: n in c.free ==> n < |c.nodes| && n !in limbo && c.nodes[n] == NOENTRY
  }

  /** Where the node with this entry belongs. */
  ghost predicate Placed(c: Cache, n: NodeId)
    requires |c.slots| == SLOTS && n < |c.nodes|
  {
    if c.nodes[n].key.ssid == 0 then n in c.free else n in c.slots[c.hash(c.nodes[n].key)]
  }

  /** Every node outside `limbo` is in exactly one chain or on the free list. */
  ghost predicate Linked(c: Cache, limbo: set<NodeId>) {
    && |c.slots| == SLOTS
    && (forall h :: 0 <= h < SLOTS ==> ChainOk(c, h, limbo))
    && FreeOk(c, limbo)
    && (forall n :: 0 <= n < |c.nodes| && n !in limbo ==> Placed(c, n))
  }

  function Total(slots: seq<seq<NodeId>>): nat {
    if slots == [] then 0 else Total(slots[..|slots| - 1]) + |slots[|slots| - 1]|
  }

  lemma {:induction false} TotalUpdate(slots: seq<seq<NodeId>>, h: nat, chain: seq<NodeId>)
    requires h < |slots|
    ensures Total(slots[h := chain]) == Total(slots) - |slots[h]| + |chain|
  {
    var last := |slots| - 1;
    if h == last {
      assert slots[h := chain][..last] == slots[..last];
    } else {
      assert slots[h := chain][..last] == slots[..last][h := chain];
      TotalUpdate(slots[..last], h, chain);
    }
  }

  lemma {:induction false} EmptyChains(slots: seq<seq<NodeId>>)
    requires forall h :: 0 <= h < |slots| ==> slots[h] == []
    ensures Total(slots) == 0
  {
    if slots != [] {
      EmptyChains(slots[..|slots| - 1]);
    }
  }

  // ---- moving nodes ---------------------------------------------------

  function RemoveAt(s: seq<NodeId>, i: nat): seq<NodeId>
    requires i < |s|
  {
    s[..i] + s[i + 1..]
  }

  lemma RemoveAtMembers(s: seq<NodeId>, i: nat)
    requires i < |s| && NoDup(s)
    ensures NoDup(RemoveAt(s, i))
    ensures forall n :: n in RemoveAt(s, i) <==> n in s && n != s[i]
  {
    var r := RemoveAt(s, i);
    forall n | n in s && n != s[i] ensures n in r {
      var k :| 0 <= k < |s| && s[k] == n;
      assert r[if k < i then k else k - 1] == n;
    }
  }

  /** Take the node at position `i` out of chain `h`. */
  function Unlink(c: Cache, h: Slot, ghost i: nat): Cache
    requires |c.slots| == SLOTS && i < |c.slots[h]|
  {
    c.(slots := c.slots[h := RemoveAt(c.slots[h], i)])
  }

  lemma UnlinkLinked(c: Cache, h: Slot, i: nat)
    requires Linked(c, {}) && i < |c.slots[h]|
    ensures Linked(Unlink(c, h, i), {c.slots[h][i]})
    ensures Total(Unlink(c, h, i).slots) == Total(c.slots) - 1
  {
    var n := c.slots[h][i];
    var c' := Unlink(c, h, i);
    assert ChainOk(c, h, {});
    RemoveAtMembers(c.slots[h], i);
    TotalUpdate(c.slots, h, RemoveAt(c.slots[h], i));
    forall g | 0 <= g < SLOTS ensures ChainOk(c', g, {n}) {
      assert ChainOk(c, g, {});
    }
    forall m | 0 <= m < |c'.nodes| && m !in {n} ensures Placed(c', m) {
      assert Placed(c, m);
    }
  }

  /** Take the first node off the free list. */
  function PopFree(c: Cache): Cache
    requires c.free != []
  {
    c.(free := c.free[1..])
  }

  lemma PopFreeLinked(c: Cache)
    requires Linked(c, {}) && c.free != []
    ensures Linked(PopFree(c), {c.free[0]})
  {
    var n := c.free[0];
    var c' := PopFree(c);
    assert c.free == [n] + c'.free;
    forall m | m in c'.free ensures m in c.free && m != n {
      var i :| 0 <= i < |c'.free| && c'.free[i] == m;
      assert c.free[i + 1] == m;
    }
    forall g | 0 <= g < SLOTS ensures ChainOk(c', g, {n}) {
      assert ChainOk(c, g, {});
    }
    forall m | 0 <= m < |c'.nodes| && m !in {n} ensures Placed(c', m) {
      assert Placed(c, m);
    }
  }

  /** Put node `n` with entry `e` at the head of its key's chain. */
  function Link(c: Cache, n: NodeId, e: Entry): Cache
    requires |c.slots| == SLOTS && n < |c.nodes|
  {
    var h := c.hash(e.key);
    c.(nodes := c.nodes[n := e], slots := c.slots[h := [n] + c.slots[h]])
  }

  lemma LinkLinked(c: Cache, n: NodeId, e: Entry)
    requires Linked(c, {n}) && n < |c.nodes| && e.key.ssid != 0
    ensures Linked(Link(c, n, e), {})
    ensures Total(Link(c, n, e).slots) == Total(c.slots) + 1
  {
    var c' := Link(c, n, e);
    var h := c.hash(e.key);
    TotalUpdate(c.slots, h, [n] + c.slots[h]);
    forall g | 0 <= g < SLOTS ensures ChainOk(c', g, {}) {
      assert ChainOk(c, g, {n});
    }
    forall m | 0 <= m < |c'.nodes| ensures Placed(c', m) {
      if m != n {
        assert Placed(c, m);
      }
    }
  }

  /** Clear node `n` and put it on the free list. */
  function Release(c: Cache, n: NodeId): Cache
    requires n < |c.nodes|
  {
    c.(nodes := c.nodes[n := NOENTRY], free := [n] + c.free)
  }

  lemma ReleaseLinked(c: Cache, n: NodeId)
    requires Linked(c, {n}) && n < |c.nodes|
    ensures Linked(Release(c, n), {})
  {
    var c' := Release(c, n);
    forall g | 0 <= g < SLOTS ensures ChainOk(c', g, {}) {
      assert ChainOk(c, g, {n});
    }
    forall m | 0 <= m < |c'.nodes| ensures Placed(c', m) {
      if m != n {
        assert Placed(c, m);
      }
    }
  }

  /** Change the entry of a chained node but not its key. */
  function Amend(c: Cache, n: NodeId, e: Entry): Cache
    requires n < |c.nodes|
  {
    c.(nodes := c.nodes[n := e])
  }

  lemma AmendLinked(c: Cache, n: NodeId, e: Entry)
    requires Linked(c, {}) && n < |c.nodes| && e.key == c.nodes[n].key && e.key.ssid != 0
    ensures Linked(Amend(c, n, e), {})
  {
    var c' := Amend(c, n, e);
    forall g | 0 <= g < SLOTS ensures ChainOk(c', g, {}) {
      assert ChainOk(c, g, {});
    }
    forall m | 0 <= m < |c'.nodes| ensures Placed(c', m) {
      assert Placed(c, m);
    }
  }

  /** A node that carries a key with a source is on that key's chain, and nowhere else. */
  lemma KeyedIsChained(c: Cache, n: NodeId)
    requires Linked(c, {}) && n < |c.nodes| && c.nodes[n].key.ssid != 0
    ensures n in c.slots[c.hash(c.nodes[n].key)] && n !in c.free
    ensures forall h :: 0 <= h < SLOTS && n in c.slots[h] ==> h == c.hash(c.nodes[n].key)
  {
    assert Placed(c, n);
    forall h | 0 <= h < SLOTS && n in c.slots[h] ensures h == c.hash(c.nodes[n].key) {
      assert ChainOk(c, h, {});
    }
  }

  /** The first node of a chain with this key. */
  ghost function FirstKeyed(nodes: seq<Entry>, chain: seq<NodeId>, key: Key): Option<NodeId> {
    if chain == [] then None
    else if chain[0] < |nodes| && nodes[chain[0]].key == key then Some(chain[0])
    else FirstKeyed(nodes, chain[1..], key)
  }

  /** The node a search for this key comes to, if any. */
  ghost function Entered(c: Cache, key: Key): Option<NodeId> {
    if |c.slots| == SLOTS then FirstKeyed(c.nodes, c.slots[c.hash(key)], key) else None
  }

  lemma {:induction false} FirstKeyedMissing(nodes: seq<Entry>, chain: seq<NodeId>, key: Key, n: NodeId)
    requires FirstKeyed(nodes, chain, key).None? && n in chain && n < |nodes|
    ensures nodes[n].key != key
  {
    if chain[0] != n {
      FirstKeyedMissing(nodes, chain[1..], key, n);
    }
  }

  /** A search comes to nothing only when no node has the key. */
  lemma NotEntered(c: Cache, key: Key, n: NodeId)
    requires Linked(c, {}) && key.ssid != 0 && Entered(c, key).None? && n < |c.nodes|
    ensures c.nodes[n].key != key
  {
    if c.nodes[n].key == key {
      KeyedIsChained(c, n);
      FirstKeyedMissing(c.nodes, c.slots[c.hash(key)], key, n);
    }
  }

  /** Everything requested has been decided. */
  predicate Covers(d: Decision, requested: bv32) {
    Includes(d.decided, requested)
  }

  /** The node exists and its decision covers everything requested. */
  predicate Decides(c: Cache, n: Option<NodeId>, requested: bv32) {
    n.Some? && n.value < |c.nodes| && Covers(c.nodes[n.value].avd, requested)
  }

  lemma NothingDecides(c: Cache, requested: bv32)
    ensures !Decides(c, None, requested)
  {
  }

  lemma DecidesMarked(c: Cache, n: NodeId, requested: bv32)
    requires n < |c.nodes|
    ensures Decides(Amend(c, n, c.nodes[n].(used := true)), Some(n), requested) <==> Decides(c, Some(n), requested)
  {
    hide Covers;
  }

  lemma FreeInPool(c: Cache)
    requires Linked(c, {}) && c.free != []
    ensures c.free[0] < |c.nodes|
  {
    assert c.free[0] in c.free;
  }
}
