/**
 Conditional (and constraint) expressions of the policy compiler: lists built
 in postfix order by pointer walking, checked for depth, evaluated with a stack.
 */
module CondExpr {
  import opened Wrappers

  datatype BinOp = And | Or | Xor | Eq | Neq

  /** The kinds of list element; anything the switch does not know is Other. */
  datatype Item = Bool(id: nat) | Not | Bin(op: BinOp) | Other

  datatype Tree = Leaf(id: nat) | Negation(sub: Tree) | Binary(op: BinOp, left: Tree, right: Tree)

  type Assignment = nat -> bool

  const COND_EXPR_MAXDEPTH: nat := 10
  const CEXPR_MAXDEPTH: nat := 5

  /** The machine's operators. */
  function Apply(op: BinOp, a: bool, b: bool): bool {
    match op
    case And => a && b
    case Or => a || b
    case Xor => a != b
    case Eq => a == b
    case Neq => a != b
  }

  /** The meaning of an expression. */
  function TreeValue(t: Tree, env: Assignment): bool {
    match t
    case Leaf(id) => env(id)
    case Negation(sub) => !TreeValue(sub, env)
    case Binary(And, l, r) => TreeValue(l, env) && TreeValue(r, env)
    case Binary(Or, l, r) => TreeValue(l, env) || TreeValue(r, env)
    case Binary(Eq, l, r) => TreeValue(l, env) <==> TreeValue(r, env)
    case Binary(_, l, r) => !(TreeValue(l, env) <==> TreeValue(r, env))
  }

  function Postfix(t: Tree): (s: seq<Item>)
    ensures s != []
  {
    match t
    case Leaf(id) => [Bool(id)]
    case Negation(sub) => Postfix(sub) + [Not]
    case Binary(op, l, r) => Postfix(l) + Postfix(r) + [Bin(op)]
  }

  // ---- the stack machine ----------------------------------------------

  /** One item on a stack of at most `max` values, top last; None on underflow, overflow or an unknown item. */
  function Step(stack: seq<bool>, item: Item, env: Assignment, max: nat): Option<seq<bool>> {
    var n := |stack|;
    match item
    case Bool(id) => if n >= max then None else Some(stack + [env(id)])
    case Not => if n < 1 then None else Some(stack[..n - 1] + [!stack[n - 1]])
    case Bin(op) => if n < 2 then None else Some(stack[..n - 2] + [Apply(op, stack[n - 2], stack[n - 1])])
    case Other => None
  }

  function Execute(stack: seq<bool>, items: seq<Item>, env: Assignment, max: nat): Option<seq<bool>>
    decreases |items|
  {
    if items == [] then Some(stack) else
      match Step(stack, items[0], env, max)
      case None => None
      case Some(next) => Execute(next, items[1..], env, max)
  }

  /** The list runs within `max` values and leaves one. */
  ghost predicate Runs(items: seq<Item>, max: nat) {
    forall env: Assignment :: Execute([], items, env, max).Some? && |Execute([], items, env, max).value| == 1
  }

  lemma {:induction false} ExecuteConcat(stack: seq<bool>, a: seq<Item>, b: seq<Item>, env: Assignment, max: nat)
    ensures Execute(stack, a + b, env, max) ==
              match Execute(stack, a, env, max) { case None => None case Some(mid) => Execute(mid, b, env, max) }
    decreases |a|
  {
    hide Step;
    if a == [] {
      assert a + b == b;
    } else {
      assert (a + b)[0] == a[0] && (a + b)[1..] == a[1..] + b;
      var next := Step(stack, a[0], env, max);
      if next.Some? {
        ExecuteConcat(next.value, a[1..], b, env, max);
      }
    }
  }

  lemma ExecuteOne(stack: seq<bool>, item: Item, env: Assignment, max: nat)
    ensures Execute(stack, [item], env, max) == Step(stack, item, env, max)
  {
    hide Step;
    assert [item][1..] == [];
  }

  /** How many values the postfix form of a tree needs at once. */
  function Need(t: Tree): nat {
    match t
    case Leaf(_) => 1
    case Negation(sub) => Need(sub)
    case Binary(_, l, r) => if Need(l) > 1 + Need(r) then Need(l) else 1 + Need(r)
  }

  /** Stack evaluation of the postfix form is tree evaluation, exactly when the stack is deep enough. */
  lemma {:induction false} PostfixEvaluates(t: Tree, stack: seq<bool>, env: Assignment, max: nat)
    ensures Execute(stack, Postfix(t), env, max) ==
              if |stack| + Need(t) <= max then Some(stack + [TreeValue(t, env)]) else None
    decreases t
  {
    hide Execute;
    match t
    case Leaf(id) =>
      ExecuteOne(stack, Bool(id), env, max);
    case Negation(sub) =>
      PostfixEvaluates(sub, stack, env, max);
      ExecuteConcat(stack, Postfix(sub), [Not], env, max);
      if |stack| + Need(t) <= max {
        ExecuteOne(stack + [TreeValue(sub, env)], Not, env, max);
        assert (stack + [TreeValue(sub, env)])[..|stack|] == stack;
      }
    case Binary(op, l, r) =>
      var a, b := TreeValue(l, env), TreeValue(r, env);
      PostfixEvaluates(l, stack, env, max);
      PostfixEvaluates(r, stack + [a], env, max);
      ExecuteConcat(stack, Postfix(l), Postfix(r), env, max);
      ExecuteConcat(stack, Postfix(l) + Postfix(r), [Bin(op)], env, max);
      if |stack| + Need(t) <= max {
        ExecuteOne(stack + [a] + [b], Bin(op), env, max);
        assert (stack + [a] + [b])[..|stack|] == stack;
      }
  }

  // ---- the depth check ------------------------------------------------

  /** The number of values on the stack after an item, which does not depend on the values. */
  function Height(h: nat, item: Item, max: nat): Option<nat> {
    match item
    case Bool(_) => if h >= max then None else Some(h + 1)
    case Not => if h < 1 then None else Some(h)
    case Bin(_) => if h < 2 then None else Some(h - 1)
    case Other => None
  }

  function Heights(h: nat, items: seq<Item>, max: nat): Option<nat>
    decreases |items|
  {
    if items == [] then Some(h) else
      match Height(h, items[0], max)
      case None => None
      case Some(next) => Heights(next, items[1..], max)
  }

  lemma HeightOfStep(stack: seq<bool>, item: Item, env: Assignment, max: nat)
    ensures Step(stack, item, env, max).Some? <==> Height(|stack|, item, max).Some?
    ensures Step(stack, item, env, max).Some? ==> |Step(stack, item, env, max).value| == Height(|stack|, item, max).value
  {
  }

  lemma {:induction false} HeightsOfExecute(stack: seq<bool>, items: seq<Item>, env: Assignment, max: nat)
    ensures Execute(stack, items, env, max).Some? <==> Heights(|stack|, items, max).Some?
    ensures Execute(stack, items, env, max).Some? ==> |Execute(stack, items, env, max).value| == Heights(|stack|, items, max).value
    decreases |items|
  {
    hide Step, Height;
    if items != [] {
      HeightOfStep(stack, items[0], env, max);
      var next := Step(stack, items[0], env, max);
      if next.Some? {
        HeightsOfExecute(next.value, items[1..], env, max);
      }
    }
  }

  lemma RunsIsHeights(items: seq<Item>, max: nat)
    ensures Runs(items, max) <==> Heights(0, items, max) == Some(1)
  {
    hide Execute, Heights;
    forall env: Assignment
      ensures Execute([], items, env, max).Some? && |Execute([], items, env, max).value| == 1 <==> Heights(0, items, max) == Some(1)
    {
      HeightsOfExecute([], items, env, max);
    }
    if Runs(items, max) {
      var env: Assignment := _ => true;
      assert Execute([], items, env, max).Some?;
    }
  }

  datatype Depth = Fits | TooDeep | Malformed

  /** The list runs and leaves the stack full. */
  ghost predicate Fills(items: seq<Item>, max: nat) {
    forall env: Assignment :: Execute([], items, env, max).Some? && |Execute([], items, env, max).value| == max
  }

  /** A leaf is met when the stack is full. */
  ghost predicate OverflowsAt(items: seq<Item>, k: nat, max: nat)
    requires k < |items|
  {
    items[k].Bool? && Fills(items[..k], max)
  }

  ghost predicate Overflows(items: seq<Item>, max: nat) {
    exists k :: 0 <= k < |items| && OverflowsAt(items, k, max)
  }

  lemma FillsIsHeights(items: seq<Item>, max: nat)
    ensures Fills(items, max) <==> Heights(0, items, max) == Some(max)
  {
    hide Execute, Heights;
    forall env: Assignment
      ensures Execute([], items, env, max).Some? && |Execute([], items, env, max).value| == max <==> Heights(0, items, max) == Some(max)
    {
      HeightsOfExecute([], items, env, max);
    }
    if Fills(items, max) {
      var env: Assignment := _ => true;
      assert Execute([], items, env, max).Some?;
    }
  }

  lemma {:induction false} HeightsConcat(h: nat, a: seq<Item>, b: seq<Item>, max: nat)
    ensures Heights(h, a + b, max) == match Heights(h, a, max) { case None => None case Some(g) => Heights(g, b, max) }
    decreases |a|
  {
    if a == [] {
      assert a + b == b;
    } else {
      assert (a + b)[1..] == a[1..] + b;
      var next := Height(h, a[0], max);
      if next.Some? {
        HeightsConcat(next.value, a[1..], b, max);
      }
    }
  }

  lemma {:induction false} HeightsBound(h: nat, items: seq<Item>, max: nat)
    requires h <= max
    ensures Heights(h, items, max).Some? ==> Heights(h, items, max).value <= max
    decreases |items|
  {
    if items != [] {
      var next := Height(h, items[0], max);
      if next.Some? {
        HeightsBound(next.value, items[1..], max);
      }
    }
  }

  /** One item more. */
  lemma HeightsNext(items: seq<Item>, k: nat, max: nat)
    requires k < |items|
    ensures Heights(0, items[..k + 1], max) ==
              match Heights(0, items[..k], max) { case None => None case Some(g) => Height(g, items[k], max) }
  {
    hide Height;
    assert items[..k + 1] == items[..k] + [items[k]];
    HeightsConcat(0, items[..k], [items[k]], max);
    assert [items[k]][1..] == [];
  }

  /** A list that gets past an item does not overflow there. */
  lemma PassedAt(items: seq<Item>, k: nat, n: nat, max: nat)
    requires k < n <= |items| && Heights(0, items[..n], max).Some?
    ensures !OverflowsAt(items, k, max)
  {
    hide Heights, Fills;
    FillsIsHeights(items[..k], max);
    HeightsNext(items, k, max);
    assert items[..n] == items[..k + 1] + items[k + 1..n];
    HeightsConcat(0, items[..k + 1], items[k + 1..n], max);
  }

  lemma NotPastStuck(items: seq<Item>, i: nat, k: nat, max: nat)
    requires i < k <= |items| && Heights(0, items[..i], max).Some?
    requires Height(Heights(0, items[..i], max).value, items[i], max).None?
    ensures Heights(0, items[..k], max).None?
  {
    hide Heights, Height;
    HeightsNext(items, i, max);
    assert items[..k] == items[..i + 1] + items[i + 1..k];
    HeightsConcat(0, items[..i + 1], items[i + 1..k], max);
  }

  /** A list that is stuck at item `i` overflows exactly when that item is a leaf. */
  lemma StuckAt(items: seq<Item>, i: nat, max: nat)
    requires i < |items| && Heights(0, items[..i], max).Some?
    requires Height(Heights(0, items[..i], max).value, items[i], max).None?
    ensures Overflows(items, max) <==> items[i].Bool?
  {
    hide Heights, Fills;
    FillsIsHeights(items[..i], max);
    HeightsBound(0, items[..i], max);
    if items[i].Bool? {
      assert OverflowsAt(items, i, max);
    } else if Overflows(items, max) {
      var k :| 0 <= k < |items| && OverflowsAt(items, k, max);
      if k < i {
        PassedAt(items, k, i, max);
      } else if k > i {
        NotPastStuck(items, i, k, max);
        FillsIsHeights(items[..k], max);
      }
    }
  }

  /** A list that runs to the end never overflows. */
  lemma RunsThrough(items: seq<Item>, max: nat)
    requires Heights(0, items, max).Some?
    ensures !Overflows(items, max)
  {
    hide Heights, Fills;
    assert items[..|items|] == items;
    forall k | 0 <= k < |items| ensures !OverflowsAt(items, k, max) {
      PassedAt(items, k, |items|, max);
    }
  }

  lemma NoHeights(max: nat)
    ensures Heights(0, [], max) == Some(0)
  {
  }

  /** The verification loop of define_conditional, define_constraint and define_validatetrans. */
  method CheckDepth(items: seq<Item>, max: nat) returns (verdict: Depth)
    ensures verdict.Fits? <==> Runs(items, max)
    ensures verdict.TooDeep? <==> Overflows(items, max)
  {
    hide Runs, Overflows, Heights;
    RunsIsHeights(items, max);
    var depth := -1;
    NoHeights(max);
    assert items[..0] == [];
    for i := 0 to |items|
      invariant -1 <= depth < max || depth == -1
      invariant Heights(0, items[..i], max) == Some(depth + 1)
    {
      HeightsNext(items, i, max);
      if Height(depth + 1, items[i], max).None? {
        StuckAt(items, i, max);
        NotPastStuck(items, i, |items|, max);
        assert items[..|items|] == items;
      }
      match items[i] {
        case Not =>
          if depth < 0 {
            return Malformed;
          }
        case Bin(_) =>
          if depth < 1 {
            return Malformed;
          }
          depth := depth - 1;
        case Bool(_) =>
          if depth == max - 1 {
            return TooDeep;
          }
          depth := depth + 1;
        case Other =>
          return Malformed;
      }
    }
    assert items[..|items|] == items;
    RunsThrough(items, max);
    return if depth == 0 then Fits else Malformed;
  }

  // ---- which lists pass -----------------------------------------------

  /** The postfix forms of a stack of trees, one after the other. */
  function Flat(trees: seq<Tree>): seq<Item> {
    if trees == [] then [] else Flat(trees[..|trees| - 1]) + Postfix(trees[|trees| - 1])
  }

  /** The same machine on trees instead of values. */
  function Grow(trees: seq<Tree>, item: Item): Option<seq<Tree>> {
    var n := |trees|;
    match item
    case Bool(id) => Some(trees + [Leaf(id)])
    case Not => if n < 1 then None else Some(trees[..n - 1] + [Negation(trees[n - 1])])
    case Bin(op) => if n < 2 then None else Some(trees[..n - 2] + [Binary(op, trees[n - 2], trees[n - 1])])
    case Other => None
  }

  lemma FlatPush(trees: seq<Tree>, t: Tree)
    ensures Flat(trees + [t]) == Flat(trees) + Postfix(t)
  {
    assert (trees + [t])[..|trees|] == trees;
  }

  lemma PostfixParts(t: Tree)
    ensures t.Leaf? ==> Postfix(t) == [Bool(t.id)]
    ensures t.Negation? ==> Postfix(t) == Postfix(t.sub) + [Not]
    ensures t.Binary? ==> Postfix(t) == Postfix(t.left) + Postfix(t.right) + [Bin(t.op)]
  {
  }

  lemma Reassociate(a: seq<Item>, b: seq<Item>, c: seq<Item>)
    ensures a + (b + c) == a + b + c
  {
  }

  lemma FlatNot(below: seq<Tree>, t: Tree)
    ensures Flat(below + [Negation(t)]) == Flat(below + [t]) + [Not]
  {
    hide Flat, Postfix;
    FlatPush(below, Negation(t));
    FlatPush(below, t);
    PostfixParts(Negation(t));
    Reassociate(Flat(below), Postfix(t), [Not]);
  }

  lemma FlatBin(below: seq<Tree>, l: Tree, r: Tree, op: BinOp)
    ensures Flat(below + [Binary(op, l, r)]) == Flat(below + [l] + [r]) + [Bin(op)]
  {
    hide Flat, Postfix;
    FlatPush(below, Binary(op, l, r));
    FlatPush(below, l);
    FlatPush(below + [l], r);
    PostfixParts(Binary(op, l, r));
    Reassociate(Flat(below), Postfix(l) + Postfix(r), [Bin(op)]);
    Reassociate(Flat(below), Postfix(l), Postfix(r));
  }

  lemma GrowFlat(trees: seq<Tree>, item: Item, max: nat)
    requires Height(|trees|, item, max).Some?
    ensures Grow(trees, item).Some? && |Grow(trees, item).value| == Height(|trees|, item, max).value
    ensures Flat(Grow(trees, item).value) == Flat(trees) + [item]
  {
    hide Flat, Postfix;
    var n := |trees|;
    match item
    case Bool(id) =>
      FlatPush(trees, Leaf(id));
      PostfixParts(Leaf(id));
    case Not =>
      FlatNot(trees[..n - 1], trees[n - 1]);
      assert trees[..n - 1] + [trees[n - 1]] == trees;
    case Bin(op) =>
      FlatBin(trees[..n - 2], trees[n - 2], trees[n - 1], op);
      assert trees[..n - 2] + [trees[n - 2]] + [trees[n - 1]] == trees;
  }

  lemma FlatOne(t: Tree)
    ensures Flat([t]) == Postfix(t)
  {
    hide Postfix;
    assert [t][..0] == [];
  }

  lemma {:induction false} AcceptedGrows(trees: seq<Tree>, items: seq<Item>, max: nat) returns (t: Tree)
    requires Heights(|trees|, items, max) == Some(1)
    ensures Postfix(t) == Flat(trees) + items
    decreases |items|
  {
    hide Grow, Height, Flat, Postfix;
    if items == [] {
      t := trees[0];
      FlatOne(t);
      assert trees == [t];
    } else {
      GrowFlat(trees, items[0], max);
      t := AcceptedGrows(Grow(trees, items[0]).value, items[1..], max);
      assert items == [items[0]] + items[1..];
    }
  }

  lemma TreeRuns(t: Tree, max: nat)
    ensures Runs(Postfix(t), max) <==> Need(t) <= max
  {
    hide Execute, Postfix, Need;
    forall env: Assignment
      ensures Execute([], Postfix(t), env, max).Some? <==> Need(t) <= max
      ensures Execute([], Postfix(t), env, max).Some? ==> |Execute([], Postfix(t), env, max).value| == 1
    {
      PostfixEvaluates(t, [], env, max);
    }
    if Runs(Postfix(t), max) {
      var env: Assignment := _ => true;
      assert Execute([], Postfix(t), env, max).Some?;
    }
  }

  /** A list passes the check exactly when it is the postfix form of a tree that needs no more than `max` values. */
  lemma PassesIffTree(items: seq<Item>, max: nat)
    ensures Runs(items, max) <==> exists t: Tree :: Postfix(t) == items && Need(t) <= max
  {
    if Runs(items, max) {
      RunsIsHeights(items, max);
      var t := AcceptedGrows([], items, max);
      assert Flat([]) + items == items;
      TreeRuns(t, max);
    }
    if exists t: Tree :: Postfix(t) == items && Need(t) <= max {
      var t: Tree :| Postfix(t) == items && Need(t) <= max;
      TreeRuns(t, max);
    }
  }

  function GrowAll(trees: seq<Tree>, items: seq<Item>): Option<seq<Tree>>
    decreases |items|
  {
    if items == [] then Some(trees) else
      match Grow(trees, items[0])
      case None => None
      case Some(next) => GrowAll(next, items[1..])
  }

  lemma {:induction false} GrowsTo(trees: seq<Tree>, t: Tree, rest: seq<Item>)
    ensures GrowAll(trees, Postfix(t) + rest) == GrowAll(trees + [t], rest)
    decreases t
  {
    match t
    case Leaf(id) =>
      assert ([Bool(id)] + rest)[1..] == rest;
    case Negation(sub) =>
      assert Postfix(t) + rest == Postfix(sub) + ([Not] + rest);
      GrowsTo(trees, sub, [Not] + rest);
      assert ([Not] + rest)[1..] == rest;
      assert (trees + [sub])[..|trees|] == trees;
    case Binary(op, l, r) =>
      assert Postfix(t) + rest == Postfix(l) + (Postfix(r) + ([Bin(op)] + rest));
      GrowsTo(trees, l, Postfix(r) + ([Bin(op)] + rest));
      GrowsTo(trees + [l], r, [Bin(op)] + rest);
      assert ([Bin(op)] + rest)[1..] == rest;
      assert (trees + [l] + [r])[..|trees|] == trees;
  }

  /** The list determines the tree. */
  lemma SameListSameTree(s: Tree, t: Tree)
    requires Postfix(s) == Postfix(t)
    ensures s == t
  {
    GrowsTo([], s, []);
    GrowsTo([], t, []);
    assert Postfix(s) + [] == Postfix(s) && Postfix(t) + [] == Postfix(t);
    assert [] + [s] == [s] && [] + [t] == [t];
    assert GrowAll([s], []) == GrowAll([t], []);
    assert [s][0] == [t][0];
  }

  // ---- constraints ----------------------------------------------------

  /** An element of a constraint; a leaf may look at the attributes of the new context of a transition. */
  datatype ConstraintItem = Attribute(id: nat, ofTarget: bool) | NotItem | AndItem | OrItem | Unknown

  /** Only validatetrans rules may use such a leaf. */
  function Read(c: ConstraintItem, transition: bool): Item {
    match c
    case Attribute(id, ofTarget) => if ofTarget && !transition then Other else Bool(id)
    case NotItem => Not
    case AndItem => Bin(And)
    case OrItem => Bin(Or)
    case Unknown => Other
  }

  function ReadAll(cs: seq<ConstraintItem>, transition: bool): (s: seq<Item>)
    ensures |s| == |cs|
  {
    seq(|cs|, i requires 0 <= i < |cs| => Read(cs[i], transition))
  }

  /** A constraint as it is written: the grammar knows and, or and not only. */
  datatype Constraint =
    | Compare(id: nat, ofTarget: bool)
    | Negated(sub: Constraint)
    | Conjoined(left: Constraint, right: Constraint)
    | Disjoined(left: Constraint, right: Constraint)

  function Written(c: Constraint): (s: seq<ConstraintItem>)
    ensures s != []
  {
    match c
    case Compare(id, ofTarget) => [Attribute(id, ofTarget)]
    case Negated(sub) => Written(sub) + [NotItem]
    case Conjoined(l, r) => Written(l) + Written(r) + [AndItem]
    case Disjoined(l, r) => Written(l) + Written(r) + [OrItem]
  }

  function Larger(a: nat, b: nat): (m: nat)
    ensures m >= a && m >= b && (m == a || m == b)
  {
    if a > b then a else b
  }

  /** How many values are held at once. */
  function Held(c: Constraint): nat {
    match c
    case Compare(_, _) => 1
    case Negated(sub) => Held(sub)
    case Conjoined(l, r) => Larger(Held(l), 1 + Held(r))
    case Disjoined(l, r) => Larger(Held(l), 1 + Held(r))
  }

  predicate NoTarget(c: Constraint) {
    match c
    case Compare(_, ofTarget) => !ofTarget
    case Negated(sub) => NoTarget(sub)
    case Conjoined(l, r) => NoTarget(l) && NoTarget(r)
    case Disjoined(l, r) => NoTarget(l) && NoTarget(r)
  }

  /** A constraint of at most five values, which looks at a new context only in a validatetrans rule. */
  ghost predicate Allowed(c: Constraint, cs: seq<ConstraintItem>, transition: bool) {
    Written(c) == cs && Held(c) <= 5 && (transition || NoTarget(c))
  }

  lemma ReadAllSplit(a: seq<ConstraintItem>, b: seq<ConstraintItem>, transition: bool)
    ensures ReadAll(a + b, transition) == ReadAll(a, transition) + ReadAll(b, transition)
    ensures |b| == 1 ==> ReadAll(b, transition) == [Read(b[0], transition)]
  {
  }

  lemma SameParts(a: seq<Item>, b: seq<Item>, c: seq<Item>, d: seq<Item>)
    requires a + b == c + d && |a| == |c|
    ensures a == c && b == d
  {
    assert a == (a + b)[..|a|] && c == (c + d)[..|c|];
    assert b == (a + b)[|a|..] && d == (c + d)[|c|..];
  }

  lemma SameEnds(a: seq<Item>, x: Item, c: seq<Item>, y: Item)
    requires a + [x] == c + [y]
    ensures a == c && x == y
  {
    SameParts(a, [x], c, [y]);
    assert [x][0] == [y][0];
  }

  /** A list that reads as the postfix form of a tree is that of a constraint. */
  lemma {:induction false} ConstraintOf(t: Tree, cs: seq<ConstraintItem>, transition: bool) returns (c: Constraint)
    requires Postfix(t) == ReadAll(cs, transition)
    ensures Written(c) == cs && Held(c) == Need(t) && (transition || NoTarget(c))
    decreases t
  {
    hide ReadAll;
    var n := |cs|;
    PostfixParts(t);
    ReadAllSplit(cs[..n - 1], cs[n - 1..], transition);
    assert cs[..n - 1] + cs[n - 1..] == cs;
    match t
    case Leaf(id) =>
      assert cs == [cs[0]];
      c := Compare(id, cs[0].ofTarget);
    case Negation(sub) =>
      SameEnds(Postfix(sub), Not, ReadAll(cs[..n - 1], transition), Read(cs[n - 1], transition));
      var s := ConstraintOf(sub, cs[..n - 1], transition);
      c := Negated(s);
    case Binary(op, l, r) =>
      SameEnds(Postfix(l) + Postfix(r), Bin(op), ReadAll(cs[..n - 1], transition), Read(cs[n - 1], transition));
      var m := |Postfix(l)|;
      var front, back := cs[..m], cs[m..n - 1];
      assert front + back == cs[..n - 1];
      ReadAllSplit(front, back, transition);
      SameParts(Postfix(l), Postfix(r), ReadAll(front, transition), ReadAll(back, transition));
      var left := ConstraintOf(l, front, transition);
      var right := ConstraintOf(r, back, transition);
      c := if cs[n - 1].AndItem? then Conjoined(left, right) else Disjoined(left, right);
  }

  /** And the other way round. */
  lemma {:induction false} TreeOf(c: Constraint, transition: bool) returns (t: Tree)
    requires transition || NoTarget(c)
    ensures Postfix(t) == ReadAll(Written(c), transition) && Need(t) == Held(c)
    decreases c
  {
    hide ReadAll;
    match c
    case Compare(id, ofTarget) =>
      t := Leaf(id);
      ReadAllSplit([], [Attribute(id, ofTarget)], transition);
    case Negated(sub) =>
      var s := TreeOf(sub, transition);
      t := Negation(s);
      ReadAllSplit(Written(sub), [NotItem], transition);
    case Conjoined(l, r) =>
      var a := TreeOf(l, transition);
      var b := TreeOf(r, transition);
      t := Binary(And, a, b);
      ReadAllSplit(Written(l) + Written(r), [AndItem], transition);
      ReadAllSplit(Written(l), Written(r), transition);
    case Disjoined(l, r) =>
      var a := TreeOf(l, transition);
      var b := TreeOf(r, transition);
      t := Binary(Or, a, b);
      ReadAllSplit(Written(l) + Written(r), [OrItem], transition);
      ReadAllSplit(Written(l), Written(r), transition);
  }

  /** The values held behind a list, if it gets there with at most five at a time. */
  function HeldBehind(cs: seq<ConstraintItem>, transition: bool): Option<nat> {
    if cs == [] then Some(0) else
      match HeldBehind(cs[..|cs| - 1], transition)
      case None => None
      case Some(h) =>
        match cs[|cs| - 1]
        case Attribute(_, ofTarget) => if h < 5 && (transition || !ofTarget) then Some(h + 1) else None
        case NotItem => if h >= 1 then Some(h) else None
        case AndItem => if h >= 2 then Some(h - 1) else None
        case OrItem => if h >= 2 then Some(h - 1) else None
        case Unknown => None
  }

  lemma {:induction false} HeldIsHeights(cs: seq<ConstraintItem>, transition: bool)
    ensures Heights(0, ReadAll(cs, transition), CEXPR_MAXDEPTH) == HeldBehind(cs, transition)
    decreases |cs|
  {
    hide Heights;
    var items := ReadAll(cs, transition);
    if cs == [] {
      NoHeights(CEXPR_MAXDEPTH);
      assert items == [];
    } else {
      var n := |cs| - 1;
      HeldIsHeights(cs[..n], transition);
      assert items[..n] == ReadAll(cs[..n], transition) && items[..n + 1] == items;
      HeightsNext(items, n, CEXPR_MAXDEPTH);
    }
  }

  /** A comparison is met when five values are held. */
  predicate SixthAt(cs: seq<ConstraintItem>, k: nat, transition: bool)
    requires k < |cs|
  {
    cs[k].Attribute? && (transition || !cs[k].ofTarget) && HeldBehind(cs[..k], transition) == Some(5)
  }

  lemma SixthIsOverflow(cs: seq<ConstraintItem>, transition: bool)
    ensures Overflows(ReadAll(cs, transition), CEXPR_MAXDEPTH) <==> exists k :: 0 <= k < |cs| && SixthAt(cs, k, transition)
  {
    hide Heights, Fills, HeldBehind;
    var items := ReadAll(cs, transition);
    forall k | 0 <= k < |cs| ensures OverflowsAt(items, k, CEXPR_MAXDEPTH) <==> SixthAt(cs, k, transition) {
      FillsIsHeights(items[..k], CEXPR_MAXDEPTH);
      HeldIsHeights(cs[..k], transition);
      assert items[..k] == ReadAll(cs[..k], transition);
    }
  }

  lemma FitsIsAllowed(cs: seq<ConstraintItem>, transition: bool)
    ensures Runs(ReadAll(cs, transition), CEXPR_MAXDEPTH) <==> exists c: Constraint :: Allowed(c, cs, transition)
  {
    hide Runs, ReadAll, Postfix, Need, Written, Held, NoTarget;
    var items := ReadAll(cs, transition);
    PassesIffTree(items, CEXPR_MAXDEPTH);
    if Runs(items, CEXPR_MAXDEPTH) {
      var t: Tree :| Postfix(t) == items && Need(t) <= CEXPR_MAXDEPTH;
      var c := ConstraintOf(t, cs, transition);
      assert Allowed(c, cs, transition);
    }
    if exists c: Constraint :: Allowed(c, cs, transition) {
      var c: Constraint :| Allowed(c, cs, transition);
      var t := TreeOf(c, transition);
      assert Postfix(t) == items;
    }
  }

  /** The check of define_constraint, and of define_validatetrans with `transition`. */
  method CheckConstraint(cs: seq<ConstraintItem>, transition: bool) returns (verdict: Depth)
    ensures verdict.Fits? <==> exists c: Constraint :: Allowed(c, cs, transition)
    ensures verdict.TooDeep? <==> exists k :: 0 <= k < |cs| && SixthAt(cs, k, transition)
  {
    hide Runs, Overflows, ReadAll, Allowed, SixthAt;
    verdict := CheckDepth(ReadAll(cs, transition), CEXPR_MAXDEPTH);
    FitsIsAllowed(cs, transition);
    SixthIsOverflow(cs, transition);
  }

  // ---- building the lists ---------------------------------------------

  /** struct cond_expr. */
  class Node {
    const item: Item
    var next: Node?

    constructor (item: Item)
      ensures this.item == item && next == null
    {
      this.item, next := item, null;
    }
  }

  /** What the link of element `i` should be. */
  ghost function Following(nodes: seq<Node>, i: nat): Node? {
    if i + 1 < |nodes| then nodes[i + 1] else null
  }

  /** `nodes` are linked in order and end in NULL; no node occurs twice. */
  ghost predicate Chain(nodes: seq<Node>)
    reads nodes
  {
    && nodes != []
    && (forall i :: 0 <= i < |nodes| ==> nodes[i].next == Following(nodes, i))
    && forall i, j :: 0 <= i < j < |nodes| ==> nodes[i] != nodes[j]
  }

  function Items(nodes: seq<Node>): (s: seq<Item>)
    ensures |s| == |nodes|
  {
    seq(|nodes|, i requires 0 <= i < |nodes| => nodes[i].item)
  }

  /** The walk to the last element. */
  method LastOf(head: Node, ghost nodes: seq<Node>) returns (last: Node)
    requires Chain(nodes) && nodes[0] == head
    ensures last == nodes[|nodes| - 1]
  {
    last := head;
    ghost var i := 0;
    while last.next != null
      invariant 0 <= i < |nodes| && last == nodes[i]
      decreases |nodes| - i
    {
      last := last.next;
      i := i + 1;
    }
    assert nodes[i].next == Following(nodes, i);
  }

  /** Hang a chain on the last element of another. */
  method Hang(head: Node, tail: Node, ghost front: seq<Node>, ghost back: seq<Node>)
    requires Chain(front) && Chain(back) && front[0] == head && back[0] == tail
    requires forall n :: n in front ==> n !in back
    modifies front[|front| - 1]
    ensures Chain(front + back)
  {
    var last := LastOf(head, front);
    assert forall i :: 0 <= i < |back| ==> back[i] in back;
    assert forall i :: 0 <= i < |front| ==> front[i] in front;
    last.next := tail;
    ghost var all := front + back;
    forall i | 0 <= i < |all| ensures all[i].next == Following(all, i) {
      if i >= |front| {
        assert all[i] == back[i - |front|];
      }
    }
    forall i, j | 0 <= i < j < |all| ensures all[i] != all[j] {
    }
  }

  /** define_cond_expr for COND_NOT: one new element at the end. */
  method DefineNot(arg: Node, ghost nodes: seq<Node>) returns (head: Node, ghost out: seq<Node>)
    requires Chain(nodes) && nodes[0] == arg
    modifies nodes
    ensures Chain(out) && out[0] == head && fresh(set n | n in out && n !in nodes)
    ensures Items(out) == Items(nodes) + [Not]
  {
    var expr := new Node(Not);
    assert expr !in nodes;
    Hang(arg, expr, nodes, [expr]);
    head, out := arg, nodes + [expr];
  }

  lemma ItemsConcat(a: seq<Node>, b: seq<Node>)
    ensures Items(a + b) == Items(a) + Items(b)
    ensures |b| == 1 ==> Items(b) == [b[0].item]
  {
  }

  /** define_cond_expr for the binary operators: the second list after the first, then the operator. */
  method DefineBinary(op: BinOp, arg1: Node, arg2: Node, ghost first: seq<Node>, ghost second: seq<Node>)
    returns (head: Node, ghost out: seq<Node>)
    requires Chain(first) && first[0] == arg1 && Chain(second) && second[0] == arg2
    requires forall n :: n in first ==> n !in second
    modifies first, second
    ensures Chain(out) && out[0] == head && fresh(set n | n in out && n !in first && n !in second)
    ensures Items(out) == Items(first) + Items(second) + [Bin(op)]
  {
    hide Items;
    var expr := new Node(Bin(op));
    assert expr !in first && expr !in second;
    Hang(arg1, arg2, first, second);
    // the last element of the second list is now the last of both
    ghost var both := first + second;
    Hang(arg1, expr, both, [expr]);
    head, out := arg1, both + [expr];
    ItemsConcat(first, second);
    ItemsConcat(both, [expr]);
  }

  /** The parser's actions on an expression, innermost first: the list is the postfix form. */
  method Build(t: Tree) returns (head: Node, ghost out: seq<Node>)
    ensures Chain(out) && out[0] == head && fresh(set n | n in out)
    ensures Items(out) == Postfix(t)
    decreases t
  {
    match t
    case Leaf(id) =>
      head := new Node(Bool(id));
      out := [head];
    case Negation(sub) =>
      var h, s := Build(sub);
      head, out := DefineNot(h, s);
    case Binary(op, l, r) =>
      var h1, s1 := Build(l);
      assert forall n :: n in s1 ==> n in set m | m in s1;
      var h2, s2 := Build(r);
      assert forall n :: n in s2 ==> n in set m | m in s2;
      head, out := DefineBinary(op, h1, h2, s1, s2);
  }

  // ---- conditionals ---------------------------------------------------

  datatype Conditional<T> =
    | Dropped
    | Illegal(why: Depth)
    | Kept(items: seq<Item>, whenTrue: seq<T>, whenFalse: seq<T>)

  /** The value a list that runs leaves on the stack. */
  function Value(items: seq<Item>, env: Assignment): bool {
    match Execute([], items, env, COND_EXPR_MAXDEPTH)
    case Some(stack) => |stack| == 1 && stack[0]
    case None => false
  }

  /** That is the meaning of the expression. */
  lemma ValueOfTree(t: Tree, env: Assignment)
    requires Need(t) <= 10
    ensures Value(Postfix(t), env) <==> TreeValue(t, env)
  {
    hide Execute, Postfix, Need, TreeValue;
    PostfixEvaluates(t, [], env, COND_EXPR_MAXDEPTH);
  }

  lemma NotKeepsDepth(items: seq<Item>, max: nat)
    requires items != []
    ensures Runs(items + [Not], max) <==> Runs(items, max)
  {
    hide Runs;
    RunsIsHeights(items, max);
    RunsIsHeights(items + [Not], max);
    HeightsConcat(0, items, [Not], max);
    assert [Not][1..] == [];
  }

  lemma NotKeepsOverflow(items: seq<Item>, max: nat)
    ensures Overflows(items + [Not], max) <==> Overflows(items, max)
  {
    hide Fills;
    forall k | 0 <= k < |items| ensures OverflowsAt(items + [Not], k, max) <==> OverflowsAt(items, k, max) {
      assert (items + [Not])[..k] == items[..k];
    }
    if Overflows(items + [Not], max) {
      var k :| 0 <= k < |items + [Not]| && OverflowsAt(items + [Not], k, max);
      assert OverflowsAt(items, k, max);
    }
    if Overflows(items, max) {
      var k :| 0 <= k < |items| && OverflowsAt(items, k, max);
      assert OverflowsAt(items + [Not], k, max);
    }
  }

  lemma NotNegates(items: seq<Item>, env: Assignment)
    requires Runs(items, COND_EXPR_MAXDEPTH)
    ensures Value(items + [Not], env) == !Value(items, env)
  {
    hide Execute;
    ExecuteConcat([], items, [Not], env, COND_EXPR_MAXDEPTH);
    ExecuteOne(Execute([], items, env, COND_EXPR_MAXDEPTH).value, Not, env, COND_EXPR_MAXDEPTH);
  }

  /** define_conditional up to the check: an empty true branch is swapped with the false one under a NOT. */
  method DefineConditional<T>(items: seq<Item>, whenTrue: seq<T>, whenFalse: seq<T>) returns (c: Conditional<T>)
    requires items != []
    ensures c.Dropped? <==> whenTrue == [] && whenFalse == []
    ensures c.Illegal? <==> !(whenTrue == [] && whenFalse == []) && !Runs(items, 10)
    ensures c.Illegal? ==> c.why == if Overflows(items, 10) then TooDeep else Malformed
    ensures c.Kept? ==> c.whenTrue != []
    ensures c.Kept? ==> Runs(items, 10) && Runs(c.items, 10)
    ensures c.Kept? ==> forall env: Assignment ::
              (if Value(c.items, env) then c.whenTrue else c.whenFalse) == if Value(items, env) then whenTrue else whenFalse
  {
    hide Runs, Value, Overflows;
    var expr, t, f := items, whenTrue, whenFalse;
    if t == [] {
      if f == [] {
        return Dropped;
      }
      t, f := f, [];
      expr := items + [Not];
      NotKeepsDepth(items, COND_EXPR_MAXDEPTH);
      NotKeepsOverflow(items, COND_EXPR_MAXDEPTH);
    }
    var verdict := CheckDepth(expr, COND_EXPR_MAXDEPTH);
    if !verdict.Fits? {
      return Illegal(verdict);
    }
    if whenTrue == [] {
      forall env: Assignment ensures Value(items + [Not], env) == !Value(items, env) {
        NotNegates(items, env);
      }
    }
    return Kept(expr, t, f);
  }
}
