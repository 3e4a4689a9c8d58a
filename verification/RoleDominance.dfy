/** Role dominance in the policy compiler: bitmaps raised in place until the relation is closed again. */
module RoleDominance {

  type Role = nat

  /** Bit `z` of the bitmap of role `y`: `y` dominates `z`. A role not declared yet dominates only itself. */
  type Relation = seq<set<Role>>

  /** A dominance statement: a role and, in braces, the statements it dominates. */
  datatype Dom = Dom(role: Role, children: Doms)
  datatype Doms = Nil | Snoc(init: Doms, last: Dom)

  /** What the parser hands on for a list: one role, or the bitmap of a temporary role. */
  datatype Merged = One(role: Role) | Temporary(bits: set<Role>)

  ghost predicate Reflexive(r: Relation) {
    forall y :: 0 <= y < |r| ==> y in r[y]
  }

  ghost predicate Within(r: Relation) {
    forall y, z :: 0 <= y < |r| && z in r[y] ==> z < |r|
  }

  /** Whatever a role dominates, it dominates what that dominates. */
  ghost predicate Transitive(r: Relation) {
    forall y, z :: 0 <= y < |r| && z in r[y] && z < |r| ==> r[z] <= r[y]
  }

  ghost predicate Closed(r: Relation) {
    Reflexive(r) && Within(r) && Transitive(r)
  }

  ghost predicate Extends(r: Relation, s: Relation) {
    |s| == |r| && forall y :: 0 <= y < |r| ==> r[y] <= s[y]
  }

  /** A set of roles that holds what its members dominate. */
  ghost predicate DownClosed(r: Relation, m: set<Role>) {
    forall z :: z in m ==> z < |r| && r[z] <= m
  }

  // ---- one definition -------------------------------------------------

  /** The relation after `x` has been given the roles in `m`. */
  function Raised(r: Relation, x: Role, m: set<Role>): (s: Relation)
    requires x < |r|
    ensures |s| == |r|
  {
    var top := r[x] + m;
    seq(|r|, y requires 0 <= y < |r| => if y == x then top else if x in r[y] then r[y] + top else r[y])
  }

  /** After a definition the relation is closed again, holds the new edges, and is least among such relations. */
  lemma RaisedClosed(r: Relation, x: Role, m: set<Role>)
    requires Closed(r) && x < |r| && DownClosed(r, m)
    ensures Closed(Raised(r, x, m)) && Extends(r, Raised(r, x, m)) && m <= Raised(r, x, m)[x]
  {
    var s := Raised(r, x, m);
    forall y, z | 0 <= y < |s| && z in s[y] && z < |s| ensures s[z] <= s[y] {
      if z in r[y] {
        assert r[z] <= r[y];
      } else {
        assert z in r[x] + m;
      }
    }
  }

  lemma RaisedLeast(r: Relation, x: Role, m: set<Role>, s: Relation)
    requires Closed(r) && x < |r| && Closed(s) && Extends(r, s) && m <= s[x]
    ensures Extends(Raised(r, x, m), s)
  {
    var t := Raised(r, x, m);
    forall y | 0 <= y < |t| ensures t[y] <= s[y] {
      assert r[x] <= s[x];
      if x in r[y] {
        assert x in s[y];
        assert s[x] <= s[y];
      }
    }
  }

  // ---- whole statements -----------------------------------------------

  predicate RolesIn(t: Dom, n: nat) {
    t.role < n && AllRolesIn(t.children, n)
  }

  predicate AllRolesIn(ds: Doms, n: nat) {
    ds.Snoc? ==> AllRolesIn(ds.init, n) && RolesIn(ds.last, n)
  }

  function Bits(m: Merged, r: Relation): set<Role> {
    match m
    case One(c) => if c < |r| then r[c] else {}
    case Temporary(bits) => bits
  }

  /** The relation after a statement: its children first, then the role itself. */
  function After(t: Dom, r: Relation): (s: Relation)
    requires RolesIn(t, |r|)
    ensures |s| == |r|
  {
    if t.children.Nil? then r else
      var (r1, m) := AfterList(t.children, r);
      Raised(r1, t.role, Bits(m, r1))
  }

  /** A list of statements; merging reads the bitmaps right after each further statement. */
  function AfterList(ds: Doms, r: Relation): (s: (Relation, Merged))
    requires ds.Snoc? && AllRolesIn(ds, |r|)
    ensures |s.0| == |r|
  {
    if ds.init.Nil? then (After(ds.last, r), One(ds.last.role)) else
      var (r0, m0) := AfterList(ds.init, r);
      var r1 := After(ds.last, r0);
      (r1, Temporary(Bits(m0, r1) + r1[ds.last.role]))
  }

  /** The roles at the head of the statements in a list. */
  function Heads(ds: Doms): set<Role> {
    if ds.Nil? then {} else Heads(ds.init) + {ds.last.role}
  }

  /** `r` has every edge the statement asks for. */
  ghost predicate Holds(r: Relation, t: Dom)
    requires RolesIn(t, |r|)
  {
    Heads(t.children) <= r[t.role] && HoldsAll(r, t.children)
  }

  ghost predicate HoldsAll(r: Relation, ds: Doms)
    requires AllRolesIn(ds, |r|)
  {
    ds.Snoc? ==> HoldsAll(r, ds.init) && Holds(r, ds.last)
  }

  /** Nothing was raised by more than `top`. */
  ghost predicate RaisedWithin(r: Relation, s: Relation, top: set<Role>) {
    |s| == |r| && forall y :: 0 <= y < |r| ==> s[y] <= r[y] + top
  }

  lemma {:induction false} HoldsMore(r: Relation, s: Relation, t: Dom)
    requires Extends(r, s) && RolesIn(t, |r|) && Holds(r, t)
    ensures Holds(s, t)
    decreases t
  {
    HoldsAllMore(r, s, t.children);
  }

  lemma {:induction false} HoldsAllMore(r: Relation, s: Relation, ds: Doms)
    requires Extends(r, s) && AllRolesIn(ds, |r|) && HoldsAll(r, ds)
    ensures HoldsAll(s, ds)
    decreases ds
  {
    if ds.Snoc? {
      HoldsAllMore(r, s, ds.init);
      HoldsMore(r, s, ds.last);
    }
  }

  /** The relation a statement leaves is closed, holds the old one and all its edges. */
  lemma {:induction false} StatementCloses(t: Dom, r: Relation)
    requires RolesIn(t, |r|) && Closed(r)
    ensures Closed(After(t, r)) && Extends(r, After(t, r)) && Holds(After(t, r), t)
    ensures RaisedWithin(r, After(t, r), After(t, r)[t.role])
    decreases t
  {
    if t.children.Snoc? {
      ListCloses(t.children, r);
      var (r1, m) := AfterList(t.children, r);
      RaisedClosed(r1, t.role, Bits(m, r1));
      HoldsAllMore(r1, After(t, r), t.children);
    }
  }

  /** Although a temporary bitmap is not raised with the rest, merging in the last statement makes it whole. */
  lemma MergedClosed(r0: Relation, r1: Relation, m0: Merged, c: Role)
    requires Closed(r1) && Extends(r0, r1) && c < |r1| && DownClosed(r0, Bits(m0, r0)) && RaisedWithin(r0, r1, r1[c])
    ensures Bits(m0, r0) <= Bits(m0, r1)
    ensures DownClosed(r1, Bits(m0, r1) + r1[c])
  {
    forall z | z in Bits(m0, r1) + r1[c] ensures z < |r1| && r1[z] <= Bits(m0, r1) + r1[c] {
      if z in r1[c] {
        assert r1[z] <= r1[c];
      } else if m0.Temporary? {
        assert r0[z] <= Bits(m0, r0);
      }
    }
  }

  lemma {:induction false} ListCloses(ds: Doms, r: Relation)
    requires ds.Snoc? && AllRolesIn(ds, |r|) && Closed(r)
    ensures var (s, m) := AfterList(ds, r);
            && Closed(s) && Extends(r, s) && HoldsAll(s, ds)
            && Heads(ds) <= Bits(m, s) && DownClosed(s, Bits(m, s)) && RaisedWithin(r, s, Bits(m, s))
    decreases ds
  {
    if ds.init.Nil? {
      StatementCloses(ds.last, r);
    } else {
      ListCloses(ds.init, r);
      var (r0, m0) := AfterList(ds.init, r);
      StatementCloses(ds.last, r0);
      var r1 := After(ds.last, r0);
      HoldsAllMore(r0, r1, ds.init);
      MergedClosed(r0, r1, m0, ds.last.role);
    }
  }

  /** It is the least closed relation that does. */
  lemma {:induction false} StatementLeast(t: Dom, r: Relation, s: Relation)
    requires RolesIn(t, |r|) && Closed(r) && Closed(s) && Extends(r, s) && Holds(s, t)
    ensures Extends(After(t, r), s)
    decreases t
  {
    if t.children.Snoc? {
      ListLeast(t.children, r, s);
      ListCloses(t.children, r);
      var (r1, m) := AfterList(t.children, r);
      HeadsReach(t.children, r, s, t.role);
      RaisedLeast(r1, t.role, Bits(m, r1), s);
    }
  }

  lemma {:induction false} ListLeast(ds: Doms, r: Relation, s: Relation)
    requires ds.Snoc? && AllRolesIn(ds, |r|) && Closed(r) && Closed(s) && Extends(r, s) && HoldsAll(s, ds)
    ensures Extends(AfterList(ds, r).0, s)
    decreases ds, 0
  {
    if ds.init.Nil? {
      StatementLeast(ds.last, r, s);
    } else {
      ListLeast(ds.init, r, s);
      ListCloses(ds.init, r);
      StatementLeast(ds.last, AfterList(ds.init, r).0, s);
    }
  }

  /** A role that dominates the heads of a list dominates its whole merged bitmap. */
  lemma {:induction false} HeadsReach(ds: Doms, r: Relation, s: Relation, x: Role)
    requires ds.Snoc? && AllRolesIn(ds, |r|) && Closed(r) && Closed(s) && Extends(r, s) && HoldsAll(s, ds)
    requires x < |s| && Heads(ds) <= s[x]
    ensures Bits(AfterList(ds, r).1, AfterList(ds, r).0) <= s[x]
    decreases ds, 1
  {
    ListLeast(ds, r, s);
    var (r1, m) := AfterList(ds, r);
    var c := ds.last.role;
    assert c in s[x] && r1[c] <= s[c] <= s[x];
    if ds.init.Snoc? {
      HeadsReach(ds.init, r, s, x);
      var (r0, m0) := AfterList(ds.init, r);
      if m0.One? {
        assert m0.role == ds.init.last.role && m0.role in s[x];
        assert r1[m0.role] <= s[m0.role] <= s[x];
      }
    }
  }

  // ---- the role table, changed in place -------------------------------

  /** A table order names every role. */
  predicate IsOrder(order: seq<Role>, n: nat) {
    (forall y :: 0 <= y < n ==> y in order) && forall i :: 0 <= i < |order| ==> order[i] < n
  }

  class RoleTable {
    var dominates: Relation

    constructor (n: nat)
      ensures dominates == seq(n, y => {y})
    {
      dominates := seq(n, y => {y});
    }

    /** define_role_dom: raise the role itself, then let dominate_role_recheck visit the table in any order. */
    method DefineRoleDom(x: Role, m: set<Role>, order: seq<Role>)
      requires x < |dominates| && IsOrder(order, |dominates|)
      modifies this
      ensures dominates == Raised(old(dominates), x, m)
    {
      dominates := dominates[x := dominates[x] + m];
      for i := 0 to |order|
        invariant |dominates| == |old(dominates)|
        invariant forall y :: 0 <= y < |dominates| ==>
                    dominates[y] == if y == x || y in order[..i] then Raised(old(dominates), x, m)[y] else old(dominates)[y]
      {
        var y := order[i];
        if y != x && x in dominates[y] {
          dominates := dominates[y := dominates[y] + dominates[x]];
        }
      }
      assert order[..|order|] == order;
    }

    /** The parser's actions on one statement; `order` is the order of the role table. */
    method Statement(t: Dom, order: seq<Role>)
      requires RolesIn(t, |dominates|) && IsOrder(order, |dominates|)
      modifies this
      ensures dominates == After(t, old(dominates))
      decreases t
    {
      if t.children.Snoc? {
        var m := Statements(t.children, order);
        DefineRoleDom(t.role, Bits(m, dominates), order);
      }
    }

    /** A list of statements, with merge_roles_dom after each but the first. */
    method Statements(ds: Doms, order: seq<Role>) returns (m: Merged)
      requires ds.Snoc? && AllRolesIn(ds, |dominates|) && IsOrder(order, |dominates|)
      modifies this
      ensures (dominates, m) == AfterList(ds, old(dominates))
      decreases ds
    {
      if ds.init.Nil? {
        Statement(ds.last, order);
        return One(ds.last.role);
      }
      m := Statements(ds.init, order);
      Statement(ds.last, order);
      m := Temporary(Bits(m, dominates) + dominates[ds.last.role]);
    }
  }

  // ---- whole policies --------------------------------------------------

  /** The statement puts `z` right under `y`, itself or in its braces. */
  ghost predicate Says(t: Dom, y: Role, z: Role) {
    (y == t.role && z in Heads(t.children)) || SaysAny(t.children, y, z)
  }

  ghost predicate SaysAny(ds: Doms, y: Role, z: Role) {
    ds.Snoc? && (SaysAny(ds.init, y, z) || Says(ds.last, y, z))
  }

  lemma {:induction false} HoldsSaid(r: Relation, t: Dom, y: Role, z: Role)
    requires RolesIn(t, |r|) && Holds(r, t) && Says(t, y, z)
    ensures y < |r| && z in r[y]
    decreases t
  {
    if !(y == t.role && z in Heads(t.children)) {
      HoldsSaidAny(r, t.children, y, z);
    }
  }

  lemma {:induction false} HoldsSaidAny(r: Relation, ds: Doms, y: Role, z: Role)
    requires AllRolesIn(ds, |r|) && HoldsAll(r, ds) && SaysAny(ds, y, z)
    ensures y < |r| && z in r[y]
    decreases ds
  {
    if SaysAny(ds.init, y, z) {
      HoldsSaidAny(r, ds.init, y, z);
    } else {
      HoldsSaid(r, ds.last, y, z);
    }
  }

  ghost predicate Step(ts: seq<Doms>, y: Role, z: Role) {
    exists k :: 0 <= k < |ts| && SaysAny(ts[k], y, z)
  }

  /** From role to role along the statements. */
  ghost predicate Path(ts: seq<Doms>, p: seq<Role>) {
    p != [] && forall i :: 0 <= i < |p| - 1 ==> Step(ts, p[i], p[i + 1])
  }

  ghost predicate Dominates(ts: seq<Doms>, y: Role, z: Role) {
    exists p :: Path(ts, p) && p[0] == y && p[|p| - 1] == z
  }

  lemma DominatesItself(ts: seq<Doms>, y: Role)
    ensures Dominates(ts, y, y)
  {
    assert Path(ts, [y]) && [y][0] == y;
  }

  lemma DominatesNext(ts: seq<Doms>, y: Role, z: Role)
    requires Step(ts, y, z)
    ensures Dominates(ts, y, z)
  {
    var p := [y, z];
    assert Path(ts, p) && p[0] == y && p[|p| - 1] == z;
  }

  lemma DominatesFurther(ts: seq<Doms>, x: Role, y: Role, z: Role)
    requires Dominates(ts, x, y) && Dominates(ts, y, z)
    ensures Dominates(ts, x, z)
  {
    hide Step;
    var p :| Path(ts, p) && p[0] == x && p[|p| - 1] == y;
    var q :| Path(ts, q) && q[0] == y && q[|q| - 1] == z;
    var pq := p + q[1..];
    forall i | 0 <= i < |pq| - 1 ensures Step(ts, pq[i], pq[i + 1]) {
      if i < |p| - 1 {
        assert pq[i] == p[i] && pq[i + 1] == p[i + 1];
      } else {
        var j := i - (|p| - 1);
        assert pq[i] == q[j] && pq[i + 1] == q[j + 1];
      }
    }
    assert Path(ts, pq) && pq[0] == x && pq[|pq| - 1] == z;
  }

  /** Everything the statements ask for, directly or not. */
  ghost function Asked(ts: seq<Doms>, n: nat): (r: Relation)
    ensures |r| == n
  {
    seq(n, y requires 0 <= y < n => set z: Role | z < n && Dominates(ts, y, z))
  }

  lemma AskedClosed(ts: seq<Doms>, n: nat)
    ensures Closed(Asked(ts, n))
  {
    hide Dominates;
    var r := Asked(ts, n);
    forall y | 0 <= y < n ensures y in r[y] {
      DominatesItself(ts, y);
    }
    forall y, z | 0 <= y < n && z in r[y] && z < n ensures r[z] <= r[y] {
      forall x | x in r[z] ensures x in r[y] {
        DominatesFurther(ts, y, z, x);
      }
    }
  }

  lemma HeadsIn(ds: Doms, n: nat, z: Role)
    requires AllRolesIn(ds, n) && z in Heads(ds)
    ensures z < n
  {
  }

  lemma {:induction false} AskedHolds(ts: seq<Doms>, n: nat, k: nat, t: Dom)
    requires k < |ts| && RolesIn(t, n) && forall y, z :: Says(t, y, z) ==> SaysAny(ts[k], y, z)
    ensures Holds(Asked(ts, n), t)
    decreases t
  {
    hide Dominates;
    forall z | z in Heads(t.children) ensures z in Asked(ts, n)[t.role] {
      HeadsIn(t.children, n, z);
      assert Says(t, t.role, z);
      assert Step(ts, t.role, z);
      DominatesNext(ts, t.role, z);
    }
    forall y, z | SaysAny(t.children, y, z) ensures SaysAny(ts[k], y, z) {
      assert Says(t, y, z);
    }
    AskedHoldsAll(ts, n, k, t.children);
  }

  lemma {:induction false} AskedHoldsAll(ts: seq<Doms>, n: nat, k: nat, ds: Doms)
    requires k < |ts| && AllRolesIn(ds, n) && forall y, z :: SaysAny(ds, y, z) ==> SaysAny(ts[k], y, z)
    ensures HoldsAll(Asked(ts, n), ds)
    decreases ds
  {
    hide Asked, Holds;
    if ds.Snoc? {
      AskedHoldsAll(ts, n, k, ds.init);
      AskedHolds(ts, n, k, ds.last);
    }
  }

  /** A closed relation that has every edge of the statements has their paths. */
  lemma {:induction false} PathHeld(ts: seq<Doms>, r: Relation, p: seq<Role>)
    requires Closed(r) && (forall k :: 0 <= k < |ts| ==> AllRolesIn(ts[k], |r|) && HoldsAll(r, ts[k]))
    requires Path(ts, p) && p[0] < |r|
    ensures p[|p| - 1] in r[p[0]]
    decreases |p|
  {
    if |p| > 1 {
      assert Step(ts, p[0], p[1]);
      var k :| 0 <= k < |ts| && SaysAny(ts[k], p[0], p[1]);
      HoldsSaidAny(r, ts[k], p[0], p[1]);
      var rest := p[1..];
      forall i | 0 <= i < |rest| - 1 ensures Step(ts, rest[i], rest[i + 1]) {
        assert rest[i] == p[i + 1] && rest[i + 1] == p[i + 1 + 1];
      }
      PathHeld(ts, r, rest);
      assert r[p[1]] <= r[p[0]];
    }
  }

  /** So it is the relation asked for, if it holds nothing else. */
  lemma AskedExactly(ts: seq<Doms>, r: Relation)
    requires Closed(r) && (forall k :: 0 <= k < |ts| ==> AllRolesIn(ts[k], |r|) && HoldsAll(r, ts[k]))
    requires Extends(r, Asked(ts, |r|))
    ensures forall y, z :: 0 <= y < |r| && 0 <= z < |r| ==> (z in r[y] <==> Dominates(ts, y, z))
  {
    forall y, z | 0 <= y < |r| && 0 <= z < |r| ensures z in r[y] <==> Dominates(ts, y, z) {
      assert r[y] <= Asked(ts, |r|)[y];
      if Dominates(ts, y, z) {
        var p :| Path(ts, p) && p[0] == y && p[|p| - 1] == z;
        PathHeld(ts, r, p);
      }
    }
  }

  lemma NewRoles(r: Relation, ts: seq<Doms>)
    requires forall y :: 0 <= y < |r| ==> r[y] == {y}
    ensures Closed(r) && Extends(r, Asked(ts, |r|))
  {
    AskedClosed(ts, |r|);
  }

  /** All dominance statements of a policy with `n` roles, whatever the order of its table: in the end a role dominates
      another exactly when the statements lead from the one to the other. */
  method Policy(n: nat, ts: seq<Doms>, order: seq<Role>) returns (table: RoleTable)
    requires IsOrder(order, n) && forall k :: 0 <= k < |ts| ==> ts[k].Snoc? && AllRolesIn(ts[k], n)
    ensures |table.dominates| == n && Closed(table.dominates)
    ensures forall y, z :: 0 <= y < n && 0 <= z < n ==> (z in table.dominates[y] <==> Dominates(ts, y, z))
  {
    hide Dominates, Asked, Closed, HoldsAll, AllRolesIn, Extends, AfterList, SaysAny;
    table := new RoleTable(n);
    NewRoles(table.dominates, ts);
    for i := 0 to |ts|
      invariant fresh(table) && |table.dominates| == n && Closed(table.dominates)
      invariant Extends(table.dominates, Asked(ts, n))
      invariant forall k :: 0 <= k < i ==> HoldsAll(table.dominates, ts[k])
    {
      ghost var r := table.dominates;
      AskedClosed(ts, n);
      AskedHoldsAll(ts, n, i, ts[i]);
      ListCloses(ts[i], r);
      ListLeast(ts[i], r, Asked(ts, n));
      var _ := table.Statements(ts[i], order);
      forall k | 0 <= k < i ensures HoldsAll(table.dominates, ts[k]) {
        HoldsAllMore(r, table.dominates, ts[k]);
      }
    }
    AskedExactly(ts, table.dominates);
  }
}
