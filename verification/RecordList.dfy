/** The in-memory record cache of libsemanage: a doubly linked list with a count. */
module RecordList {
  import opened Wrappers

  /** A record and the key it is compared by; keys are totally ordered. */
  datatype Record<V> = Record(key: int, value: V)

  // ---- the list as a value --------------------------------------------

  /** The first position with this key, or the length. */
  function IndexOf<V>(s: seq<Record<V>>, key: int): (i: nat)
    ensures i <= |s|
    ensures i < |s| ==> s[i].key == key
    ensures forall j :: 0 <= j < i ==> s[j].key != key
  {
    if s == [] || s[0].key == key then 0 else 1 + IndexOf(s[1..], key)
  }

  function Replaced<V>(s: seq<Record<V>>, key: int, r: Record<V>): seq<Record<V>> {
    var i := IndexOf(s, key);
    if i < |s| then s[i := r] else s
  }

  /** dbase_llist_modify. */
  function Modified<V>(s: seq<Record<V>>, key: int, r: Record<V>): seq<Record<V>> {
    if IndexOf(s, key) < |s| then Replaced(s, key, r) else [r] + s
  }

  /** dbase_llist_del. */
  function Deleted<V>(s: seq<Record<V>>, key: int): seq<Record<V>> {
    var i := IndexOf(s, key);
    if i < |s| then s[..i] + s[i + 1..] else s
  }

  function Reversed<V>(s: seq<Record<V>>): (r: seq<Record<V>>)
    ensures |r| == |s|
    ensures forall i :: 0 <= i < |s| ==> r[i] == s[|s| - 1 - i]
  {
    seq(|s|, i requires 0 <= i < |s| => s[|s| - 1 - i])
  }

  ghost predicate DistinctKeys<V>(s: seq<Record<V>>) {
    forall i, j :: 0 <= i < j < |s| ==> s[i].key != s[j].key
  }

  /** The finite map a list of records stands for; the record nearest the head counts. */
  ghost function AsMap<V>(s: seq<Record<V>>): map<int, Record<V>> {
    if s == [] then map[] else AsMap(s[1..])[s[0].key := s[0]]
  }

  lemma {:induction false} AsMapAt<V>(s: seq<Record<V>>, key: int)
    ensures key in AsMap(s) <==> IndexOf(s, key) < |s|
    ensures key in AsMap(s) ==> AsMap(s)[key] == s[IndexOf(s, key)]
  {
    if s != [] {
      AsMapAt(s[1..], key);
    }
  }

  lemma IndexUnique<V>(s: seq<Record<V>>, i: nat, key: int)
    requires i < |s| && s[i].key == key && forall j :: 0 <= j < i ==> s[j].key != key
    ensures IndexOf(s, key) == i
  {
  }

  lemma IndexAbsent<V>(s: seq<Record<V>>, key: int)
    requires forall j :: 0 <= j < |s| ==> s[j].key != key
    ensures IndexOf(s, key) == |s|
  {
  }

  lemma ModifiedIndex<V>(s: seq<Record<V>>, key: int, r: Record<V>, k: int)
    requires DistinctKeys(s) && r.key == key
    ensures var t := Modified(s, key, r); var i := IndexOf(t, k);
            if k == key then i < |t| && t[i] == r
            else (i < |t| <==> IndexOf(s, k) < |s|) && (i < |t| ==> t[i] == s[IndexOf(s, k)])
  {
    var t, at, i := Modified(s, key, r), IndexOf(s, key), IndexOf(s, k);
    if at < |s| {
      if k == key {
        IndexUnique(t, at, k);
      } else if i < |s| {
        IndexUnique(t, i, k);
      } else {
        IndexAbsent(t, k);
      }
    } else if k == key {
      IndexUnique(t, 0, k);
    } else if i < |s| {
      IndexUnique(t, i + 1, k);
    } else {
      IndexAbsent(t, k);
    }
  }

  /** With distinct keys and data that carries its key, modifying is a map update. */
  lemma ModifiedRefines<V>(s: seq<Record<V>>, key: int, r: Record<V>)
    requires DistinctKeys(s) && r.key == key
    ensures DistinctKeys(Modified(s, key, r)) && AsMap(Modified(s, key, r)) == AsMap(s)[key := r]
  {
    var t := Modified(s, key, r);
    forall k ensures k in AsMap(t) <==> k in AsMap(s)[key := r]
             ensures k in AsMap(t) ==> AsMap(t)[k] == AsMap(s)[key := r][k]
    {
      AsMapAt(s, k);
      AsMapAt(t, k);
      ModifiedIndex(s, key, r, k);
    }
  }

  lemma DeletedIndex<V>(s: seq<Record<V>>, key: int, k: int)
    requires DistinctKeys(s)
    ensures var t := Deleted(s, key); var i := IndexOf(t, k);
            && (i < |t| <==> IndexOf(s, k) < |s| && k != key)
            && (i < |t| ==> t[i] == s[IndexOf(s, k)])
  {
    hide IndexOf;
    var t, at, i := Deleted(s, key), IndexOf(s, key), IndexOf(s, k);
    if at < |s| {
      if i < |s| && i != at {
        IndexUnique(t, if i < at then i else i - 1, k);
      } else {
        IndexAbsent(t, k);
      }
    }
  }

  /** Deleting is removal from the map. */
  lemma DeletedRefines<V>(s: seq<Record<V>>, key: int)
    requires DistinctKeys(s)
    ensures DistinctKeys(Deleted(s, key)) && AsMap(Deleted(s, key)) == AsMap(s) - {key}
  {
    hide IndexOf;
    var t := Deleted(s, key);
    forall k ensures k in AsMap(t) <==> k in AsMap(s) - {key}
             ensures k in AsMap(t) ==> AsMap(t)[k] == AsMap(s)[k]
    {
      AsMapAt(s, k);
      AsMapAt(t, k);
      DeletedIndex(s, key, k);
    }
  }

  // ---- the list in memory ---------------------------------------------

  /** The address of an entry; NULL is 0. */
  type Ptr = nat

  const NULL: Ptr := 0

  /** cache_entry_t. */
  datatype Entry<V> = Entry(data: Record<V>, prev: Ptr, next: Ptr)

  type Memory<V> = map<Ptr, Entry<V>>

  /** Node `i` of the list, or NULL outside it. */
  function At(nodes: seq<Ptr>, i: int): Ptr {
    if 0 <= i < |nodes| then nodes[i] else NULL
  }

  ghost predicate Distinct(nodes: seq<Ptr>) {
    forall i, j :: 0 <= i < j < |nodes| ==> nodes[i] != nodes[j]
  }

  ghost predicate EntryAt<V>(m: Memory<V>, nodes: seq<Ptr>, i: nat, r: Record<V>)
    requires i < |nodes|
  {
    nodes[i] != NULL && nodes[i] in m && m[nodes[i]] == Entry(r, At(nodes, i - 1), At(nodes, i + 1))
  }

  /** Following `next` from the head and `prev` from the tail meets the same nodes in opposite orders. */
  ghost predicate Mirrored<V>(m: Memory<V>, nodes: seq<Ptr>, records: seq<Record<V>>) {
    && Distinct(nodes) && |records| == |nodes|
    && forall i :: 0 <= i < |nodes| ==> EntryAt(m, nodes, i, records[i])
  }

  /** The memory after prepending an entry at address `p`. */
  function LinkedFirst<V>(m: Memory<V>, head: Ptr, p: Ptr, r: Record<V>): Memory<V> {
    var m1 := m[p := Entry(r, NULL, head)];
    if head != NULL && head in m1 then m1[head := m1[head].(prev := p)] else m1
  }

  lemma PrependMirrored<V>(m: Memory<V>, nodes: seq<Ptr>, records: seq<Record<V>>, p: Ptr, r: Record<V>)
    requires Mirrored(m, nodes, records) && p != NULL && p !in nodes
    ensures Mirrored(LinkedFirst(m, At(nodes, 0), p, r), [p] + nodes, [r] + records)
  {
    var m', nodes', records' := LinkedFirst(m, At(nodes, 0), p, r), [p] + nodes, [r] + records;
    forall i | 0 <= i < |nodes'| ensures EntryAt(m', nodes', i, records'[i]) {
      if i > 0 {
        assert EntryAt(m, nodes, i - 1, records[i - 1]);
      }
    }
  }

  lemma StoreMirrored<V>(m: Memory<V>, nodes: seq<Ptr>, records: seq<Record<V>>, i: nat, r: Record<V>)
    requires Mirrored(m, nodes, records) && i < |nodes|
    ensures nodes[i] in m && Mirrored(m[nodes[i] := m[nodes[i]].(data := r)], nodes, records[i := r])
  {
    assert EntryAt(m, nodes, i, records[i]);
    var m', records' := m[nodes[i] := m[nodes[i]].(data := r)], records[i := r];
    forall j | 0 <= j < |nodes| ensures EntryAt(m', nodes, j, records'[j]) {
      assert EntryAt(m, nodes, j, records[j]);
    }
  }

  /** The memory after an entry has been taken out: its neighbours are joined. */
  function Bridged<V>(m: Memory<V>, prev: Ptr, next: Ptr): Memory<V> {
    var m1 := if prev in m then m[prev := m[prev].(next := next)] else m;
    if next in m1 then m1[next := m1[next].(prev := prev)] else m1
  }

  lemma UnlinkMirrored<V>(m: Memory<V>, nodes: seq<Ptr>, records: seq<Record<V>>, i: nat)
    requires Mirrored(m, nodes, records) && i < |nodes| && NULL !in m
    ensures Mirrored(Bridged(m, At(nodes, i - 1), At(nodes, i + 1)), nodes[..i] + nodes[i + 1..], records[..i] + records[i + 1..])
  {
    var m' := Bridged(m, At(nodes, i - 1), At(nodes, i + 1));
    var nodes', records' := nodes[..i] + nodes[i + 1..], records[..i] + records[i + 1..];
    forall j | 0 <= j < |nodes'| ensures EntryAt(m', nodes', j, records'[j]) {
      var k := if j < i then j else j + 1;
      assert nodes'[j] == nodes[k] && records'[j] == records[k];
      assert EntryAt(m, nodes, k, records[k]);
      assert At(nodes', j + 1) == if k + 1 == i then At(nodes, i + 1) else At(nodes, k + 1);
      assert At(nodes', j - 1) == if k == i + 1 then At(nodes, i - 1) else At(nodes, k - 1);
    }
  }

  lemma EntryFields<V>(m: Memory<V>, nodes: seq<Ptr>, records: seq<Record<V>>, i: nat)
    requires Mirrored(m, nodes, records) && i < |nodes|
    ensures |records| == |nodes| && nodes[i] in m && m[nodes[i]] == Entry(records[i], At(nodes, i - 1), At(nodes, i + 1))
  {
    assert EntryAt(m, nodes, i, records[i]);
  }

  lemma BridgedKeys<V>(m: Memory<V>, prev: Ptr, next: Ptr)
    ensures forall p :: p in Bridged(m, prev, next) <==> p in m
  {
  }

  /** Head and tail after node `i` has been taken out. */
  lemma UnlinkEnds(nodes: seq<Ptr>, i: nat)
    requires i < |nodes| && NULL !in nodes
    ensures var nodes' := nodes[..i] + nodes[i + 1..];
            && At(nodes', 0) == (if At(nodes, i - 1) == NULL then At(nodes, i + 1) else At(nodes, 0))
            && At(nodes', |nodes'| - 1) == (if At(nodes, i + 1) == NULL then At(nodes, i - 1) else At(nodes, |nodes| - 1))
  {
    assert forall k :: 0 <= k < |nodes| ==> nodes[k] in nodes;
  }

  lemma NodesInMemory<V>(m: Memory<V>, nodes: seq<Ptr>, records: seq<Record<V>>)
    requires Mirrored(m, nodes, records)
    ensures |records| == |nodes| && forall i :: 0 <= i < |nodes| ==> nodes[i] != NULL && nodes[i] in m
  {
    forall i | 0 <= i < |nodes| ensures nodes[i] != NULL && nodes[i] in m {
      assert EntryAt(m, nodes, i, records[i]);
    }
  }

  class List<V> {
    var memory: Memory<V>
    /** The next address malloc gives out. */
    var top: Ptr
    var cache: Ptr
    var cacheTail: Ptr
    var cacheSize: nat
    var modified: bool
    /** Addresses and records from head to tail. */
    ghost var nodes: seq<Ptr>
    ghost var records: seq<Record<V>>

    ghost predicate Valid()
      reads this
    {
      && Mirrored(memory, nodes, records) && top != NULL && (forall p :: p in memory ==> NULL < p < top)
      && cache == At(nodes, 0) && cacheTail == At(nodes, |nodes| - 1) && cacheSize == |nodes|
    }

    constructor ()
      ensures Valid() && records == [] && !modified
    {
      memory, top, cache, cacheTail, cacheSize, modified := map[], 1, NULL, NULL, 0, false;
      nodes, records := [], [];
    }

    /** dbase_llist_cache_prepend. */
    method Prepend(r: Record<V>)
      requires Valid()
      modifies this
      ensures Valid() && records == [r] + old(records) && modified == old(modified)
    {
      NodesInMemory(memory, nodes, records);
      var entry := top;
      top := top + 1;
      PrependMirrored(memory, nodes, records, entry, r);
      memory := memory[entry := Entry(r, NULL, cache)];
      if cache != NULL {
        memory := memory[cache := memory[cache].(prev := entry)];
      }
      if cacheTail == NULL {
        cacheTail := entry;
      }
      cache := entry;
      cacheSize := cacheSize + 1;
      nodes, records := [entry] + nodes, [r] + records;
    }

    /** dbase_llist_cache_locate: the entry nearest the head. */
    method Locate(key: int) returns (entry: Ptr, ghost i: nat)
      requires Valid()
      ensures i == IndexOf(records, key) && entry == At(nodes, i)
      ensures entry != NULL ==> i < |nodes| && entry in memory
    {
      hide IndexOf;
      NodesInMemory(memory, nodes, records);
      entry := cache;
      i := 0;
      while entry != NULL
        invariant 0 <= i <= |nodes| && entry == At(nodes, i)
        invariant forall j :: 0 <= j < i ==> records[j].key != key
        decreases |nodes| - i
      {
        assert EntryAt(memory, nodes, i, records[i]);
        if memory[entry].data.key == key {
          IndexUnique(records, i, key);
          return;
        }
        entry := memory[entry].next;
        i := i + 1;
      }
      IndexAbsent(records, key);
    }

    /** dbase_llist_query. */
    method Query(key: int) returns (r: Option<Record<V>>)
      requires Valid()
      ensures r == if IndexOf(records, key) < |records| then Some(records[IndexOf(records, key)]) else None
    {
      hide IndexOf;
      var entry, i := Locate(key);
      NodesInMemory(memory, nodes, records);
      if entry == NULL {
        return None;
      }
      assert EntryAt(memory, nodes, i, records[i]);
      return Some(memory[entry].data);
    }

    /** dbase_llist_add: the keys are not looked at. */
    method Add(r: Record<V>)
      requires Valid()
      modifies this
      ensures Valid() && records == [r] + old(records) && modified
    {
      Prepend(r);
      modified := true;
    }

    /** dbase_llist_set: an error if there is no such record. */
    method Set(key: int, r: Record<V>) returns (ok: bool)
      requires Valid()
      modifies this
      ensures Valid() && (ok <==> IndexOf(old(records), key) < |old(records)|)
      ensures records == Replaced(old(records), key, r) && modified == (ok || old(modified))
    {
      hide IndexOf;
      NodesInMemory(memory, nodes, records);
      var entry, i := Locate(key);
      if entry == NULL {
        return false;
      }
      StoreMirrored(memory, nodes, records, i, r);
      memory := memory[entry := memory[entry].(data := r)];
      records := records[i := r];
      modified := true;
      return true;
    }

    /** dbase_llist_modify: replace, or prepend when there is nothing to replace. */
    method Modify(key: int, r: Record<V>)
      requires Valid()
      modifies this
      ensures Valid() && records == Modified(old(records), key, r) && modified
    {
      hide IndexOf;
      var ok := Set(key, r);
      if !ok {
        Prepend(r);
        modified := true;
      }
    }

    /** dbase_llist_clear. */
    method Clear()
      modifies this
      ensures Valid() && records == [] && modified
    {
      memory, top, cache, cacheTail, cacheSize, modified := map[], 1, NULL, NULL, 0, true;
      nodes, records := [], [];
    }

    /** dbase_llist_list: from the tail along `prev`. */
    method ToSeq() returns (out: seq<Record<V>>)
      requires Valid()
      ensures out == Reversed(records)
    {
      NodesInMemory(memory, nodes, records);
      out := [];
      var ptr := cacheTail;
      ghost var i := |nodes| - 1;
      while ptr != NULL
        invariant -1 <= i < |nodes| && ptr == At(nodes, i)
        invariant |out| == |nodes| - 1 - i
        invariant forall k :: 0 <= k < |out| ==> out[k] == records[|nodes| - 1 - k]
        decreases i + 1
      {
        assert EntryAt(memory, nodes, i, records[i]);
        out := out + [memory[ptr].data];
        ptr := memory[ptr].prev;
        i := i - 1;
      }
    }

    /** dbase_llist_del: take out the first entry with this key, if there is one. */
    method Delete(key: int)
      requires Valid()
      modifies this
      ensures Valid() && records == Deleted(old(records), key)
      ensures modified == (old(modified) || IndexOf(old(records), key) < |old(records)|)
    {
      hide IndexOf, Mirrored, Bridged;
      NodesInMemory(memory, nodes, records);
      var ptr, i := Locate(key);
      if ptr == NULL {
        return;
      }
      EntryFields(memory, nodes, records, i);
      UnlinkMirrored(memory, nodes, records, i);
      UnlinkEnds(nodes, i);
      BridgedKeys(memory, memory[ptr].prev, memory[ptr].next);
      var e := memory[ptr];
      memory := Bridged(memory, e.prev, e.next);
      if e.prev == NULL {
        cache := e.next;
      }
      if e.next == NULL {
        cacheTail := e.prev;
      }
      cacheSize := cacheSize - 1;
      modified := true;
      nodes, records := nodes[..i] + nodes[i + 1..], records[..i] + records[i + 1..];
    }
  }

  // ---- whole runs -----------------------------------------------------

  /** A public call; the data carries the key it is stored under. */
  datatype Op<V> = ModifyOp(r: Record<V>) | SetOp(r: Record<V>) | DeleteOp(key: int) | ClearOp

  /** The same call on a finite map. */
  ghost function MapStep<V>(m: map<int, Record<V>>, op: Op<V>): map<int, Record<V>> {
    match op
    case ModifyOp(r) => m[r.key := r]
    case SetOp(r) => if r.key in m then m[r.key := r] else m
    case DeleteOp(key) => m - {key}
    case ClearOp => map[]
  }

  ghost function MapRun<V>(ops: seq<Op<V>>): map<int, Record<V>> {
    if ops == [] then map[] else MapStep(MapRun(ops[..|ops| - 1]), ops[|ops| - 1])
  }

  lemma SetRefines<V>(s: seq<Record<V>>, r: Record<V>)
    requires DistinctKeys(s)
    ensures DistinctKeys(Replaced(s, r.key, r))
    ensures AsMap(Replaced(s, r.key, r)) == if r.key in AsMap(s) then AsMap(s)[r.key := r] else AsMap(s)
  {
    AsMapAt(s, r.key);
    ModifiedRefines(s, r.key, r);
  }

  lemma NoRecords<V>()
    ensures AsMap<V>([]) == map[] && DistinctKeys<V>([])
  {
  }

  /** Without `add`, every run of the list is a run of a finite map from keys to records. */
  method Run<V>(ops: seq<Op<V>>) returns (out: seq<Record<V>>)
    ensures DistinctKeys(Reversed(out)) && AsMap(Reversed(out)) == MapRun(ops)
  {
    hide IndexOf, Modified, Replaced, Deleted, Mirrored, DistinctKeys;
    var list := new List();
    NoRecords<V>();
    for i := 0 to |ops|
      invariant fresh(list) && list.Valid() && DistinctKeys(list.records)
      invariant AsMap(list.records) == MapRun(ops[..i])
    {
      assert ops[..i + 1][..i] == ops[..i];
      match ops[i] {
        case ModifyOp(r) =>
          ModifiedRefines(list.records, r.key, r);
          list.Modify(r.key, r);
        case SetOp(r) =>
          SetRefines(list.records, r);
          var ok := list.Set(r.key, r);
        case DeleteOp(key) =>
          DeletedRefines(list.records, key);
          list.Delete(key);
        case ClearOp =>
          list.Clear();
      }
    }
    assert ops[..|ops|] == ops;
    out := list.ToSeq();
    assert Reversed(out) == list.records;
  }
}
