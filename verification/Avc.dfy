/** The userspace access vector cache of libselinux, one public call or notice at a time. */
module Avc {
  import opened Bits
  import opened AvcCache
  import opened AvcEviction
  import opened AvcLinks
  import opened AvcServer
  import opened Wrappers

  class Avc {
    /** The nodes, and the chains and free list that `links` threads through them. */
    var cache: Cache
    var links: Links
    var lruHint: Slot
    var activeNodes: nat
    var latestNotif: u32
    var enforcing: bool
    /** avc_setenforce: the mode was fixed when the cache was opened. */
    const fixedMode: bool
    /** The security server as seen from here; it changes only when a policy is loaded. */
    var server: Key -> Answer
    var create: Key -> Option<LiveSid>

    ghost function Environment(): Env
      reads this
    {
      Env(server, create, |cache.nodes|, enforcing, fixedMode, latestNotif)
    }

    ghost predicate Shaped()
      reads this
    {
      && Linked(cache, {}) && Threaded(links, cache)
      && activeNodes == Total(cache.slots)
      && activeNodes + |cache.free| == |cache.nodes| <= MAXNODES
    }

    ghost predicate Valid()
      reads this
    {
      Shaped() && AllFaithful(cache, Environment())
    }

    /** The inner loop of avc_reclaim_node over one chain; the node found comes with its predecessor. */
    method ScanSlot(h: Slot) returns (prev: Ptr, cur: Ptr, ghost i: nat)
      requires Linked(cache, {}) && Threaded(links, cache)
      modifies this`cache
      ensures Aged(old(cache), cache) && i <= |cache.slots[h]| && ScannedTo(old(cache), cache, h, i)
      ensures cur == At(cache.slots[h], i) && prev == At(cache.slots[h], i - 1)
      ensures cur.Some? ==> Unused(cache, cur.value)
    {
      hide Linked, Threaded;
      Walk(links, cache, h, 0);
      prev, cur, i := None, links.heads[h], 0;
      ScanStart(cache, h);
      while cur.Some?
        invariant ScannedTo(old(cache), cache, h, i)
        invariant cur == At(cache.slots[h], i) && prev == At(cache.slots[h], i - 1)
        decreases |cache.slots[h]| - i
      {
        var n := cur.value;
        SameLists(links, old(cache), cache);
        Walk(links, cache, h, i);
        if Unused(cache, n) {
          return;
        }
        ScanStep(old(cache), cache, h, i);
        cache := Amend(cache, n, cache.nodes[n].(used := false));
        prev, cur := cur, links.next[n];
        i := i + 1;
      }
    }

    /** One pass of avc_reclaim_node round all the slots, starting at the hint. */
    method Sweep() returns (slot: Slot, prev: Ptr, cur: Ptr, ghost pos: nat, ghost k: nat)
      requires Linked(cache, {}) && Threaded(links, cache)
      modifies this`cache
      ensures Aged(old(cache), cache)
      ensures cur.Some? ==> IsPlace(cache, Place(slot, pos)) && cur.value == NodeAt(cache, Place(slot, pos))
      ensures cur.Some? ==> prev == At(cache.slots[slot], pos - 1) && Unused(old(cache), cur.value)
      ensures cur.Some? ==> slot == After(lruHint, k) && MarkedBefore(old(cache), lruHint, k, pos)
      ensures cur.None? ==> AllAged(old(cache), cache)
    {
      hide After, ScannedTo, AllAged, SlotAged, SlotUntouched, Threaded, MarkedBefore;
      slot := lruHint;
      k := 0;
      AfterNext(lruHint, 0);
      SweepStart(cache, lruHint);
      prev, cur, pos := None, None, 0;
      for n := 0 to SLOTS
        invariant k == n && slot == After(lruHint, k) && cur.None?
        invariant SweptTo(old(cache), cache, lruHint, k)
      {
        AgedLinked(old(cache), cache);
        SameLists(links, old(cache), cache);
        ghost var mid := cache;
        prev, cur, pos := ScanSlot(slot);
        if cur.Some? {
          VictimWasUnused(old(cache), mid, cache, slot, pos, lruHint, k);
          VictimOrder(old(cache), mid, cache, pos, lruHint, k);
          return;
        }
        SweepStep(old(cache), mid, cache, lruHint, k);
        AfterNext(lruHint, k);
        slot := (slot + 1) % 512;
        k := k + 1;
      }
      SweepEnd(old(cache), cache, lruHint);
    }

    /** avc_reclaim_node: unlink one node, recently used ones only when no other is left. */
    method Reclaim() returns (victim: Ptr)
      requires Linked(cache, {}) && Threaded(links, cache)
      modifies this`cache, this`links, this`lruHint
      ensures Threaded(links, cache)
      ensures victim.None? ==> Aged(old(cache), cache) && Total(cache.slots) == 0
      ensures victim.Some? ==> Reclaimed(old(cache), cache, victim.value, lruHint)
      ensures victim.Some? ==> ClockVictim(old(cache), old(lruHint), victim.value)
    {
      hide Linked, Threaded, AllAged, AllMarked, NoneMarked, MarkedBefore, EmptyBefore, After;
      for attempt := 0 to 2
        invariant Aged(old(cache), cache) && links == old(links) && lruHint == old(lruHint)
        invariant attempt == 0 ==> cache == old(cache)
        invariant attempt >= 1 ==> AllMarked(old(cache))
        invariant attempt == 2 ==> Total(cache.slots) == 0
        invariant attempt >= 1 ==> NoneMarked(cache)
      {
        AgedLinked(old(cache), cache);
        SameLists(links, old(cache), cache);
        ghost var before := cache;
        ghost var pos, k;
        var slot, prev;
        slot, prev, victim, pos, k := Sweep();
        AgedTransitive(old(cache), before, cache);
        SameLists(links, before, cache);
        if victim.Some? {
          ghost var c := cache;
          if attempt == 1 {
            SecondRound(before, lruHint, k, pos);
            EmptyAlike(before, old(cache), lruHint, k);
          }
          WalkBounds(before, lruHint, k, pos);
          assert IsVictim(old(cache), lruHint, victim.value, k, pos);
          AgedLinked(old(cache), cache);
          UnlinkThreaded(links, cache, slot, pos);
          lruHint := slot;
          links := UnlinkPtr(links, slot, prev, victim.value);
          cache := Unlink(cache, slot, pos);
          UnmarkedOrAll(old(cache), before, victim.value);
          assert UnlinkedAt(old(cache), c, cache, victim.value, Place(slot, pos));
          return;
        }
        AgedOut(before, cache);
        if attempt == 1 {
          NoneLeft(before, cache);
        }
      }
      SameLists(links, old(cache), cache);
      return None;
    }

    /** avc_claim_node with the copy of avc_insert: a node at the head of its chain, holding the entry. */
    method Claim(e: Entry) returns (node: Ptr)
      requires Shaped() && e.key.ssid != 0
      modifies this`cache, this`links, this`lruHint, this`activeNodes
      ensures Shaped() && |cache.nodes| == |old(cache.nodes)| && cache.hash == old(cache.hash)
      ensures node.None? <==> |cache.nodes| == 0
      ensures node.Some? ==> node.value < |cache.nodes| && cache.nodes[node.value] == e
      ensures forall n :: 0 <= n < |cache.nodes| && Some(n) != node ==>
                cache.nodes[n] == old(cache.nodes)[n] || cache.nodes[n] == old(cache.nodes)[n].(used := false)
    {
      hide Linked, Threaded, Total, Reclaimed;
      var n;
      PopThreaded(links, cache);
      if links.freelist.Some? {
        PopFreeLinked(cache);
        n := links.freelist.value;
        FreeInPool(cache);
        cache, links := PopFree(cache), PopPtr(links);
        activeNodes := activeNodes + 1;
      } else {
        var victim := Reclaim();
        if victim.None? {
          AgedLinked(old(cache), cache);
          return None;
        }
        n := victim.value;
        ReclaimedLinked(old(cache), cache, n, lruHint);
      }
      LinkLinked(cache, n, e);
      LinkThreaded(links, cache, n, e);
      links := LinkPtr(links, cache.hash(e.key), n);
      cache := Link(cache, n, e);
      return Some(n);
    }

    /** avc_search_node: the first node of the chain with this key, marked as used. */
    method Search(key: Key) returns (node: Ptr)
      requires Shaped() && key.ssid != 0
      modifies this`cache
      ensures Shaped() && |cache.nodes| == |old(cache.nodes)| && node == Entered(old(cache), key)
      ensures node.None? ==> cache == old(cache) && forall n :: 0 <= n < |cache.nodes| ==> cache.nodes[n].key != key
      ensures node.Some? ==> node.value < |cache.nodes| && cache.nodes[node.value].key == key
      ensures node.Some? ==> cache == Amend(old(cache), node.value, old(cache.nodes)[node.value].(used := true))
    {
      hide Linked, Threaded, Total;
      var h := cache.hash(key);
      Walk(links, cache, h, 0);
      ghost var chain := cache.slots[h];
      ghost var i := 0;
      node := links.heads[h];
      assert chain[0..] == chain;
      while node.Some? && cache.nodes[node.value].key != key
        invariant cache == old(cache)
        invariant i <= |chain| && node == At(chain, i) && (node.Some? ==> node.value < |cache.nodes|)
        invariant FirstKeyed(cache.nodes, chain, key) == FirstKeyed(cache.nodes, chain[i..], key)
        decreases |chain| - i
      {
        Walk(links, cache, h, i);
        assert chain[i..][1..] == chain[i + 1..];
        node := links.next[node.value];
        i := i + 1;
        Walk(links, cache, h, i);
      }
      if node.Some? {
        var n := node.value;
        assert chain[i..][0] == n;
        AmendThreaded(links, cache, n, cache.nodes[n].(used := true));
        cache := Amend(cache, n, cache.nodes[n].(used := true));
      } else {
        forall n | 0 <= n < |cache.nodes| ensures cache.nodes[n].key != key {
          NotEntered(cache, key, n);
        }
      }
    }

    /** avc_reset, one chain: every node is cleared and goes to the free list. The head is cleared only at the end. */
    method FlushSlot(h: Slot)
      requires Shaped()
      modifies this`cache, this`links, this`activeNodes
      ensures Shaped() && |cache.nodes| == |old(cache.nodes)| && cache.hash == old(cache.hash)
      ensures cache.slots == old(cache.slots)[h := []]
      ensures forall n :: 0 <= n < |cache.nodes| ==> cache.nodes[n] == NOENTRY || cache.nodes[n] == old(cache.nodes)[n]
    {
      hide Linked, Threaded, Total;
      Walk(links, cache, h, 0);
      var node := links.heads[h];
      assert Headed(links, h, node) == links;
      while node.Some?
        invariant |links.heads| == SLOTS && Linked(cache, {}) && Threaded(Headed(links, h, node), cache)
        invariant activeNodes == Total(cache.slots) && activeNodes + |cache.free| == |cache.nodes|
        invariant |cache.nodes| == |old(cache.nodes)| && cache.hash == old(cache.hash)
        invariant |cache.slots| == SLOTS && cache.slots == old(cache.slots)[h := cache.slots[h]]
        invariant node == At(cache.slots[h], 0)
        invariant forall n :: 0 <= n < |cache.nodes| ==> cache.nodes[n] == NOENTRY || cache.nodes[n] == old(cache.nodes)[n]
        decreases |cache.slots[h]|
      {
        var tmp := node.value;
        ghost var before := cache;
        Walk(Headed(links, h, node), cache, h, 0);
        UnlinkLinked(cache, h, 0);
        UnlinkThreaded(Headed(links, h, node), cache, h, 0);
        assert UnlinkPtr(Headed(links, h, node), h, None, tmp) == Headed(links, h, links.next[tmp]);
        node := links.next[tmp];
        cache := Unlink(cache, h, 0);
        ReleaseLinked(cache, tmp);
        ReleaseThreaded(Headed(links, h, node), cache, tmp);
        cache := Release(cache, tmp);
        links := ReleasePtr(links, tmp);
        Walk(Headed(links, h, node), cache, h, 0);
        activeNodes := activeNodes - 1;
      }
      links := Headed(links, h, None);
    }

    /** avc_reset. */
    method Reset()
      requires Shaped()
      modifies this`cache, this`links, this`activeNodes, this`lruHint
      ensures Shaped() && |cache.nodes| == |old(cache.nodes)| && cache.hash == old(cache.hash)
      ensures activeNodes == 0 && forall n :: 0 <= n < |cache.nodes| ==> cache.nodes[n] == NOENTRY
    {
      for i := 0 to SLOTS
        invariant Shaped() && |cache.nodes| == |old(cache.nodes)| && cache.hash == old(cache.hash)
        invariant forall h :: 0 <= h < i ==> cache.slots[h] == []
      {
        FlushSlot(i);
      }
      lruHint := 0;
      EmptyChains(cache.slots);
      forall n | 0 <= n < |cache.nodes| ensures cache.nodes[n] == NOENTRY {
        assert Placed(cache, n);
      }
    }

    /** avc_init with `pool` nodes allocated, under the mode the caller fixed or the kernel reports. */
    constructor (hash: Key -> Slot, pool: nat, server: Key -> Answer, create: Key -> Option<LiveSid>, enforcing: bool, fixedMode: bool)
      requires pool <= MAXNODES
      ensures Valid() && Environment() == Env(server, create, pool, enforcing, fixedMode, 0)
      ensures |cache.free| == pool <= 410 && |cache.slots| == 512 && activeNodes == lruHint == 0
    {
      hide Linked, Threaded, Total, Allocated, AllocatedPtr;
      this.cache, this.links := NewCache(hash), NewLinks();
      this.lruHint, this.activeNodes, this.latestNotif := 0, 0, 0;
      this.enforcing, this.fixedMode := enforcing, fixedMode;
      this.server, this.create := server, create;
      new;
      EmptyPool(hash);
      for i := 0 to pool
        modifies this`cache, this`links
        invariant EmptyPoolOf(links, cache, i)
      {
        AllocatedThreaded(links, cache);
        cache, links := Allocated(cache), AllocatedPtr(links);
      }
    }

    /** avc_lookup: a cached entry that decides everything requested. */
    method Lookup(key: Key, requested: bv32) returns (node: Ptr)
      requires Valid() && key.ssid != 0
      modifies this`cache
      ensures Valid() && Environment() == old(Environment())
      ensures node == if Decides(old(cache), Entered(old(cache), key), requested) then Entered(old(cache), key) else None
      ensures node.Some? ==> node.value < |cache.nodes| && cache.nodes[node.value].key == key && cache.nodes[node.value].used
    {
      hide Linked, Threaded, Total, Faithful, Decides, Entered;
      node := Search(key);
      if node.Some? {
        TouchFaithful(old(cache), cache, node.value, Environment());
        DecidesMarked(old(cache), node.value, requested);
      } else {
        NothingDecides(cache, requested);
      }
      if !Decides(cache, node, requested) {
        return None;
      }
    }

    /** avc_insert: refuse stale decisions, else give the key a node of its own. */
    method Insert(key: Key, avd: Decision) returns (rc: Outcome, node: NodeId)
      requires Valid() && key.ssid != 0 && server(key) == Answer(avd)
      modifies this`cache, this`links, this`lruHint, this`activeNodes
      ensures Valid() && Environment() == old(Environment())
      ensures rc == if avd.seqno < latestNotif then Failed(EAGAIN) else if |cache.nodes| == 0 then Failed(ENOMEM) else Granted
      ensures rc.Granted? ==> node < |cache.nodes| && cache.nodes[node].key == key && cache.nodes[node].used
    {
      if avd.seqno < latestNotif {
        return Failed(EAGAIN), 0;
      }
      var e := Entry(key, avd, 0, true);
      var claimed := Claim(e);
      AllowsItself(avd.allowed);
      ClaimFaithful(old(cache), cache, claimed, e, Environment());
      if claimed.None? {
        return Failed(ENOMEM), 0;
      }
      return Granted, claimed.value;
    }

    /** avc_has_perm_noaudit up to the entry: the caller's reference, else the cache, else the server. */
    method FindEntry(key: Key, requested: bv32, aeref: Option<NodeId>)
      returns (ae: Option<NodeId>, rc: Outcome, ref: Option<NodeId>)
      requires Valid() && key.ssid != 0
      requires aeref.Some? ==> aeref.value < |cache.nodes|
      modifies this`cache, this`links, this`lruHint, this`activeNodes
      ensures Valid() && Environment() == old(Environment())
      ensures ae.Some? <==> Current(Environment(), key) && |cache.nodes| > 0
      ensures ae.Some? ==> ae.value < |cache.nodes| && cache.nodes[ae.value].key == key && cache.nodes[ae.value].used
      ensures ae.None? ==> rc == Direct(Environment(), key, requested)
      ensures ref.Some? ==> ref.value < |cache.nodes|
      ensures ae.Some? ==> ref == ae
      ensures Decides(old(cache), Entered(old(cache), key), requested) ==> links == old(links)
    {
      hide Linked, Threaded, Total, Covers, Decides, Entered;
      ref := aeref;
      rc := Granted;
      if ref.Some? {
        var n := ref.value;
        if cache.nodes[n].key == key && Covers(cache.nodes[n].avd, requested) {
          AmendThreaded(links, cache, n, cache.nodes[n].(used := true));
          cache := Amend(cache, n, cache.nodes[n].(used := true));
          TouchFaithful(old(cache), cache, n, Environment());
          return ref, rc, ref;
        }
      }
      ae := Lookup(key, requested);
      NothingDecides(old(cache), requested);
      if ae.None? {
        var answer := server(key);
        if answer.Refused? {
          rc := if answer.error == EINVAL && !enforcing then Granted else Failed(answer.error);
          return None, rc, ref;
        }
        var node;
        rc, node := Insert(key, answer.avd);
        if rc.Failed? {
          return None, rc, ref;
        }
        ae := Some(node);
      }
      ref := ae;
    }

    /** avc_has_perm_noaudit: whatever the cache holds, the verdict is the server's. */
    method HasPermNoAudit(key: Key, requested: bv32, aeref: Option<NodeId>)
      returns (rc: Outcome, ref: Option<NodeId>, avd: Option<Decision>)
      requires Valid() && key.ssid != 0
      requires aeref.Some? ==> aeref.value < |cache.nodes|
      modifies this`cache, this`links, this`lruHint, this`activeNodes
      ensures Valid() && Environment() == old(Environment())
      ensures rc == Direct(Environment(), key, requested) && QueryLaw(Environment(), key, requested, rc)
      ensures ref.Some? ==> ref.value < |cache.nodes|
      ensures avd.Some? <==> Current(Environment(), key) && |cache.nodes| > 0
      ensures avd.Some? && enforcing && !Permissive(avd.value) ==> avd.value == server(key).avd
      ensures avd.Some? ==> ref.Some? && cache.nodes[ref.value].key == key && cache.nodes[ref.value].used
      ensures avd.Some? ==>
                var widen := Denies(avd.value, requested) && rc.Granted?;
                cache.nodes[ref.value].avd == if widen then WithAllowed(avd.value, requested) else avd.value
      ensures Decides(old(cache), Entered(old(cache), key), requested) ==> links == old(links)
    {
      hide Linked, Threaded, Total, Denies, Direct, Faithful, Permissive, WithAllowed, Current, QueryLaw, Decides, Entered;
      DirectLaw(Environment(), key, requested);
      var ae;
      ae, rc, ref := FindEntry(key, requested, aeref);
      if ae.None? {
        return rc, ref, None;
      }
      var n := ae.value;
      var e := cache.nodes[n];
      EntryVerdict(e, requested, Environment());
      avd := Some(e.avd);
      if Denies(e.avd, requested) {
        if !enforcing || Permissive(e.avd) {
          WidenFaithful(cache, n, requested, Environment());
          AmendThreaded(links, cache, n, Widened(e, requested));
          cache := Amend(cache, n, Widened(e, requested));
        } else {
          rc := Failed(EACCES);
          return;
        }
      }
      rc := Granted;
    }

    /** avc_compute_create: the label is remembered in the entry. */
    method ComputeCreate(key: Key) returns (rc: Outcome)
      requires Valid() && key.ssid != 0
      modifies this`cache, this`links, this`lruHint, this`activeNodes
      ensures Valid() && Environment() == old(Environment())
      ensures rc == DirectCreate(Environment(), key)
      ensures rc.Created? ==> exists n :: 0 <= n < |cache.nodes| && Remembers(cache.nodes[n], key, rc.sid)
      ensures Decides(old(cache), Entered(old(cache), key), 0) ==> links == old(links)
    {
      hide Linked, Threaded, Total, Covers, Decides, Entered, AllowsAtLeast, Permissive;
      var ae := Lookup(key, 0);
      NothingDecides(old(cache), 0);
      var n;
      if ae.Some? {
        n := ae.value;
      } else {
        var answer := server(key);
        if answer.Refused? {
          return Failed(answer.error);
        }
        rc, n := Insert(key, answer.avd);
        if rc.Failed? {
          return;
        }
      }
      var e := cache.nodes[n];
      assert Faithful(e, Environment());
      if e.createSid == 0 {
        var made := create(key);
        if made.None? {
          return Failed(OTHER);
        }
        AmendThreaded(links, cache, n, e.(createSid := made.value));
        cache := Amend(cache, n, e.(createSid := made.value));
        assert Remembers(cache.nodes[n], key, made.value);
        return Created(made.value);
      }
      assert Remembers(e, key, e.createSid);
      return Created(e.createSid);
    }

    /** avc_ss_reset: flush, then raise the notification number. */
    method SsReset(seqno: u32)
      requires Shaped()
      modifies this`cache, this`links, this`activeNodes, this`lruHint, this`latestNotif
      ensures Valid() && |cache.nodes| == |old(cache.nodes)|
      ensures latestNotif == if seqno > old(latestNotif) then seqno else old(latestNotif)
    {
      Reset();
      if seqno > latestNotif {
        latestNotif := seqno;
      }
    }

    /** avc_netlink_process on a setenforce notice: entering enforcement flushes what permissive queries widened. */
    method SetEnforceNotice(val: bool)
      requires Valid()
      modifies this`cache, this`links, this`activeNodes, this`lruHint, this`latestNotif, this`enforcing
      ensures Valid() && Environment() == EnvStep(old(Environment()), SetEnforce(val))
      ensures enforcing == if fixedMode then old(enforcing) else val
    {
      if fixedMode {
        return;
      }
      enforcing := val;
      if enforcing {
        SsReset(0);
      }
    }

    /** avc_netlink_process on a policyload notice, with the policy the server now answers from. */
    method PolicyLoadNotice(server: Key -> Answer, create: Key -> Option<LiveSid>, seqno: u32)
      requires Valid()
      modifies this
      ensures Valid() && Environment() == EnvStep(old(Environment()), PolicyLoad(server, create, seqno))
      ensures this.server == server && this.create == create && enforcing == old(enforcing)
      ensures latestNotif == if seqno > old(latestNotif) then seqno else old(latestNotif)
    {
      this.server, this.create := server, create;
      SsReset(seqno);
    }

    /** avc_reset called by the application. */
    method Flushed()
      requires Valid()
      modifies this`cache, this`links, this`activeNodes, this`lruHint
      ensures Valid() && Environment() == old(Environment())
    {
      Reset();
    }

    /** One public call or notice; `refs` are the entry references callers have kept. */
    method Perform(op: Op, refs: map<nat, NodeId>) returns (outcome: Outcome, refs': map<nat, NodeId>)
      requires Valid() && SourceGiven(op)
      requires forall k :: k in refs ==> refs[k] < |cache.nodes|
      modifies this
      ensures Valid() && Environment() == EnvStep(old(Environment()), op)
      ensures outcome == DirectOutcome(old(Environment()), op)
      ensures forall k :: k in refs' ==> refs'[k] < |cache.nodes|
      ensures forall k :: k in refs && !(op.Query? && k == op.handle) ==> k in refs' && refs'[k] == refs[k]
      ensures op.Query? && Current(old(Environment()), op.key) && |cache.nodes| > 0 ==>
                op.handle in refs' && cache.nodes[refs'[op.handle]].key == op.key
    {
      hide Valid, Direct, DirectCreate, Current, Decides, Entered;
      outcome, refs' := Granted, refs;
      match op
      case Query(key, requested, handle) =>
        var aeref := if handle in refs then Some(refs[handle]) else None;
        var ref, avd;
        outcome, ref, avd := HasPermNoAudit(key, requested, aeref);
        if ref.Some? {
          refs' := refs[handle := ref.value];
        }
      case Create(key) =>
        outcome := ComputeCreate(key);
      case SetEnforce(val) =>
        SetEnforceNotice(val);
      case PolicyLoad(server, create, seqno) =>
        PolicyLoadNotice(server, create, seqno);
      case Flush =>
        Flushed();
    }
  }

  /** In every run, cache, reclaim, kept references and flushes are invisible: each call comes out as if the server
      had been asked. */
  method Run(hash: Key -> Slot, env: Env, ops: seq<Op>) returns (outcomes: seq<Outcome>)
    requires env.pool <= MAXNODES && env.latestNotif == 0
    requires forall i :: 0 <= i < |ops| ==> SourceGiven(ops[i])
    ensures outcomes == DirectRun(env, ops)
    ensures |outcomes| == |ops| && forall i :: 0 <= i < |ops| && ops[i].Query? ==>
              QueryLaw(EnvAfter(env, ops[..i]), ops[i].key, ops[i].requested, outcomes[i])
  {
    hide DirectOutcome, EnvStep, QueryLaw, Denies, Permissive, Current, Covers, Avc.Valid, Linked,
      Threaded, Total;
    outcomes := [];
    var avc := new Avc(hash, env.pool, env.server, env.create, env.enforcing, env.fixedMode);
    var refs: map<nat, NodeId> := map[];
    for i := 0 to |ops|
      invariant avc.Valid() && fresh(avc)
      invariant avc.Environment() == EnvAfter(env, ops[..i])
      invariant outcomes == DirectRun(env, ops[..i])
      invariant forall k :: k in refs ==> refs[k] < |avc.cache.nodes|
    {
      assert ops[..i + 1][..i] == ops[..i];
      var outcome;
      outcome, refs := avc.Perform(ops[i], refs);
      outcomes := outcomes + [outcome];
    }
    assert ops[..|ops|] == ops;
    DirectRunLength(env, ops);
    forall i | 0 <= i < |ops| && ops[i].Query?
      ensures QueryLaw(EnvAfter(env, ops[..i]), ops[i].key, ops[i].requested, outcomes[i])
    {
      RunLaw(env, ops, i);
    }
  }
}
