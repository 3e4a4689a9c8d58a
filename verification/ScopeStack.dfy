/**
 The scope stack of the module compiler. A policy module is parsed twice: pass 1
 builds blocks and declarations for its optional blocks, pass 2 walks the same
 text and must meet the same declarations again.
 */
module ScopeStack {
  import opened Wrappers

  /** A symbol or class permission that can be required. */
  type Symbol = nat

  /** What the grammar allows inside a block. A require statement records some symbols: a class with its permissions,
      or a single symbol, or none when the symbol is declared in the current scope already. */
  datatype Body =
    | Done
    | Require(syms: set<Symbol>, rest: Body)
    | Optional(main: Body, alt: Alt, rest: Body)

  datatype Alt = NoElse | Else(body: Body)

  datatype Decl = Decl(id: nat, required: set<Symbol>)

  /** An avrule block: its declaration and, after an else, a second one. */
  datatype Block = Block(decls: seq<Decl>)

  datatype Frame = Frame(block: nat, decl: nat, inElse: bool, requireGiven: bool)

  /** One declaration met by an event. */
  datatype Visit = Visit(block: nat, decl: nat, id: nat)

  // ---- what the text determines ---------------------------------------

  /** How many declarations the text opens. */
  function Count(b: Body): nat {
    match b
    case Done => 0
    case Require(_, rest) => Count(rest)
    case Optional(main, alt, rest) => 1 + Count(main) + CountAlt(alt) + Count(rest)
  }

  function CountAlt(alt: Alt): nat {
    match alt
    case NoElse => 0
    case Else(body) => 1 + Count(body)
  }

  /** What the text requires in its own declaration. */
  function Own(b: Body): set<Symbol> {
    match b
    case Done => {}
    case Require(syms, rest) => syms + Own(rest)
    case Optional(_, _, rest) => Own(rest)
  }

  /** The declarations of one optional block; `inherited` is what its surroundings add. */
  function DeclsOf(main: Body, alt: Alt, id: nat, inherited: set<Symbol>): seq<Decl> {
    [Decl(id, Own(main) + inherited)]
    + match alt
      case NoElse => []
      case Else(body) => [Decl(id + 1 + Count(main), Own(body) + inherited)]
  }

  /** The blocks of a text in the order they are opened, numbered from `id`. With `inherit`, each declaration also
      holds `above` and what the blocks around it require. */
  function Made(b: Body, id: nat, above: set<Symbol>, inherit: bool): seq<Block> {
    match b
    case Done => []
    case Require(_, rest) => Made(rest, id, above, inherit)
    case Optional(main, alt, rest) =>
      [Block(DeclsOf(main, alt, id, if inherit then above else {}))]
      + Made(main, id + 1, above + Own(main), inherit)
      + MadeAlt(alt, id + 1 + Count(main), above, inherit)
      + Made(rest, id + 1 + Count(main) + CountAlt(alt), above, inherit)
  }

  function MadeAlt(alt: Alt, id: nat, above: set<Symbol>, inherit: bool): seq<Block> {
    match alt
    case NoElse => []
    case Else(body) => Made(body, id + 1, above + Own(body), inherit)
  }

  /** A measure of the text. */
  function Size(b: Body): nat {
    match b
    case Done => 0
    case Require(_, rest) => 1 + Size(rest)
    case Optional(main, alt, rest) => 2 + Size(main) + SizeAlt(alt) + Size(rest)
  }

  function SizeAlt(alt: Alt): nat {
    match alt
    case NoElse => 0
    case Else(body) => 1 + Size(body)
  }

  /** How many blocks that is. */
  function Width(b: Body): nat {
    match b
    case Done => 0
    case Require(_, rest) => Width(rest)
    case Optional(main, alt, rest) => 1 + Width(main) + WidthAlt(alt) + Width(rest)
  }

  function WidthAlt(alt: Alt): nat {
    match alt
    case NoElse => 0
    case Else(body) => Width(body)
  }

  /** The declarations met, in order, when the first new block has number `k`. */
  function Path(b: Body, k: nat, id: nat): seq<Visit> {
    match b
    case Done => []
    case Require(_, rest) => Path(rest, k, id)
    case Optional(main, alt, rest) =>
      [Visit(k, 0, id)] + Path(main, k + 1, id + 1)
      + PathAlt(alt, k, k + 1 + Width(main), id + 1 + Count(main))
      + Path(rest, k + 1 + Width(main) + WidthAlt(alt), id + 1 + Count(main) + CountAlt(alt))
  }

  function PathAlt(alt: Alt, k: nat, next: nat, id: nat): seq<Visit> {
    match alt
    case NoElse => []
    case Else(body) => [Visit(k, 1, id)] + Path(body, next, id + 1)
  }

  lemma {:induction false} MadeWidth(b: Body, id: nat, above: set<Symbol>, inherit: bool)
    ensures |Made(b, id, above, inherit)| == Width(b)
    decreases b
  {
    hide Own, Count, CountAlt, DeclsOf, MadeAlt, WidthAlt;
    match b
    case Done =>
    case Require(_, rest) => MadeWidth(rest, id, above, inherit);
    case Optional(main, alt, rest) =>
      MadeWidth(main, id + 1, above + Own(main), inherit);
      MadeAltWidth(alt, id + 1 + Count(main), above, inherit);
      MadeWidth(rest, id + 1 + Count(main) + CountAlt(alt), above, inherit);
  }

  lemma {:induction false} MadeAltWidth(alt: Alt, id: nat, above: set<Symbol>, inherit: bool)
    ensures |MadeAlt(alt, id, above, inherit)| == WidthAlt(alt)
    decreases alt
  {
    if alt.Else? {
      MadeWidth(alt.body, id + 1, above + Own(alt.body), inherit);
    }
  }

  /** Ids ascend by one from `id`. */
  predicate Numbered(p: seq<Visit>, id: nat) {
    forall i :: 0 <= i < |p| ==> p[i].id == id + i
  }

  lemma NumberedConcat(p: seq<Visit>, q: seq<Visit>, id: nat)
    requires Numbered(p, id) && Numbered(q, id + |p|)
    ensures Numbered(p + q, id)
  {
  }

  lemma NumberedParts(v: Visit, m: seq<Visit>, e: seq<Visit>, r: seq<Visit>)
    requires Numbered(m, v.id + 1) && Numbered(e, v.id + 1 + |m|) && Numbered(r, v.id + 1 + |m| + |e|)
    ensures Numbered([v] + m + e + r, v.id)
  {
    NumberedConcat([v], m, v.id);
    NumberedConcat([v] + m, e, v.id);
    NumberedConcat([v] + m + e, r, v.id);
  }

  lemma OptionalCount(main: Body, alt: Alt, rest: Body)
    ensures Count(Optional(main, alt, rest)) == 1 + Count(main) + CountAlt(alt) + Count(rest)
  {
  }

  function PathOptional(main: Body, alt: Alt, k: nat, id: nat): seq<Visit> {
    [Visit(k, 0, id)] + Path(main, k + 1, id + 1) + PathAlt(alt, k, k + 1 + Width(main), id + 1 + Count(main))
  }

  lemma PathUnfold(b: Body, k: nat, id: nat)
    requires b.Optional?
    ensures Path(b, k, id) == PathOptional(b.main, b.alt, k, id)
              + Path(b.rest, k + 1 + Width(b.main) + WidthAlt(b.alt), id + 1 + Count(b.main) + CountAlt(b.alt))
  {
  }

  lemma OptionalConsecutive(main: Body, alt: Alt, rest: Body, k: nat, id: nat)
    requires var p := Path(main, k + 1, id + 1); |p| == Count(main) && Numbered(p, id + 1)
    requires var p := PathAlt(alt, k, k + 1 + Width(main), id + 1 + Count(main));
             |p| == CountAlt(alt) && Numbered(p, id + 1 + Count(main))
    requires var p := Path(rest, k + 1 + Width(main) + WidthAlt(alt), id + 1 + Count(main) + CountAlt(alt));
             |p| == Count(rest) && Numbered(p, id + 1 + Count(main) + CountAlt(alt))
    ensures var b := Optional(main, alt, rest);
            |Path(b, k, id)| == Count(b) && Numbered(Path(b, k, id), id)
  {
    hide Numbered, PathAlt, CountAlt, WidthAlt, Path, Count, Width;
    PathUnfold(Optional(main, alt, rest), k, id);
    OptionalCount(main, alt, rest);
    NumberedParts(Visit(k, 0, id), Path(main, k + 1, id + 1), PathAlt(alt, k, k + 1 + Width(main), id + 1 + Count(main)),
                  Path(rest, k + 1 + Width(main) + WidthAlt(alt), id + 1 + Count(main) + CountAlt(alt)));
  }

  /** Declaration ids are met in order: consecutive, from `id`, each once. */
  lemma {:induction false} PathConsecutive(b: Body, k: nat, id: nat)
    ensures |Path(b, k, id)| == Count(b) && Numbered(Path(b, k, id), id)
    decreases b
  {
    match b
    case Done =>
    case Require(_, rest) => PathConsecutive(rest, k, id);
    case Optional(main, alt, rest) =>
      PathConsecutive(main, k + 1, id + 1);
      AltConsecutive(alt, k, k + 1 + Width(main), id + 1 + Count(main));
      PathConsecutive(rest, k + 1 + Width(main) + WidthAlt(alt), id + 1 + Count(main) + CountAlt(alt));
      OptionalConsecutive(main, alt, rest, k, id);
  }

  lemma {:induction false} AltConsecutive(alt: Alt, k: nat, next: nat, id: nat)
    ensures |PathAlt(alt, k, next, id)| == CountAlt(alt) && Numbered(PathAlt(alt, k, next, id), id)
    decreases alt
  {
    match alt
    case NoElse =>
    case Else(body) =>
      PathConsecutive(body, next, id + 1);
      NumberedConcat([Visit(k, 1, id)], Path(body, next, id + 1), id);
  }

  // ---- the operations -------------------------------------------------

  /** The compiler's globals; `path` records the declarations met. */
  datatype State = State(blocks: seq<Block>, stack: seq<Frame>, lastBlock: nat, nextId: nat, path: seq<Visit>)

  predicate OnBlock(f: Frame, blocks: seq<Block>) {
    f.block < |blocks| && f.decl < |blocks[f.block].decls|
  }

  /** Frames name existing declarations, of blocks in the order they were opened. */
  predicate Sound(s: State) {
    && s.stack != [] && s.lastBlock < |s.blocks|
    && (forall i :: 0 <= i < |s.stack| ==> OnBlock(s.stack[i], s.blocks) && s.stack[i].block <= s.lastBlock)
    && (forall i, j :: 0 <= i < j < |s.stack| ==> s.stack[i].block < s.stack[j].block)
  }

  function Top(s: State): Frame
    requires s.stack != []
  {
    s.stack[|s.stack| - 1]
  }

  function WithTop(s: State, f: Frame): State
    requires s.stack != []
  {
    s.(stack := s.stack[|s.stack| - 1 := f])
  }

  function Below(s: State): seq<Frame>
    requires s.stack != []
  {
    s.stack[..|s.stack| - 1]
  }

  function AddRequired(b: Block, j: nat, s: set<Symbol>): Block
    requires j < |b.decls|
  {
    Block(b.decls[j := b.decls[j].(required := b.decls[j].required + s)])
  }

  function AddAt(blocks: seq<Block>, f: Frame, s: set<Symbol>): seq<Block>
    requires OnBlock(f, blocks)
  {
    blocks[f.block := AddRequired(blocks[f.block], f.decl, s)]
  }

  /** Pushing a block in begin_optional. */
  function Pushed(s: State, blocks: seq<Block>): State {
    State(blocks, s.stack + [Frame(s.lastBlock + 1, 0, false, false)], s.lastBlock + 1, s.nextId + 1,
          s.path + [Visit(s.lastBlock + 1, 0, s.nextId)])
  }

  /** begin_optional: pass 1 makes a block after the last one; pass 2 asserts that it is there. */
  function Begin(s: State, pass: int): Option<State>
    requires Sound(s)
  {
    if pass == 1 then Some(Pushed(s, s.blocks[..s.lastBlock + 1] + [Block([Decl(s.nextId, {})])]))
    else if s.lastBlock + 1 < |s.blocks| && s.blocks[s.lastBlock + 1].decls != []
            && s.blocks[s.lastBlock + 1].decls[0].id == s.nextId
    then Some(Pushed(s, s.blocks))
    else None
  }

  function Switched(s: State, blocks: seq<Block>): State
    requires s.stack != []
  {
    var f := Top(s);
    State(blocks, s.stack[|s.stack| - 1 := Frame(f.block, f.decl + 1, true, false)], s.lastBlock, s.nextId + 1,
          s.path + [Visit(f.block, f.decl + 1, s.nextId)])
  }

  /** begin_optional_else: pass 1 adds a declaration; pass 2 asserts that it is there and the last. */
  function BeginElse(s: State, pass: int): Option<State>
    requires Sound(s)
  {
    var f := Top(s);
    var decls := s.blocks[f.block].decls;
    if f.inElse then None
    else if pass == 1 then
      Some(Switched(s, s.blocks[f.block := Block(decls[..f.decl + 1] + [Decl(s.nextId, {})])]))
    else if f.decl + 2 == |decls| && decls[f.decl + 1].id == s.nextId then Some(Switched(s, s.blocks))
    else None
  }

  /** end_optional. */
  function Pop(s: State): Option<State> {
    if |s.stack| < 2 then None else Some(s.(stack := s.stack[..|s.stack| - 1]))
  }

  /** A require statement: read in pass 1 only, and refused in an else branch. */
  function Record(s: State, syms: set<Symbol>, pass: int): Option<State>
    requires Sound(s)
  {
    var f := Top(s);
    if pass == 2 then Some(s)
    else if f.inElse then None
    else Some(WithTop(s, f.(requireGiven := true)).(blocks := AddAt(s.blocks, f, syms)))
  }

  /** The requirements recorded in the declarations of some frames. */
  function Gathered(frames: seq<Frame>, blocks: seq<Block>): set<Symbol> {
    if frames == [] then {} else
      var f := frames[|frames| - 1];
      Gathered(frames[..|frames| - 1], blocks) + (if OnBlock(f, blocks) then blocks[f.block].decls[f.decl].required else {})
  }

  /** end_avrule_block: pass 2 adds what the frames below hold; pass 1 wants a require, except in an else branch and
      in the optional blocks of a base policy. */
  function Close(s: State, pass: int, base: bool): Option<State>
    requires Sound(s)
  {
    var f := Top(s);
    if pass == 2 then Some(s.(blocks := AddAt(s.blocks, f, Gathered(Below(s), s.blocks))))
    else if f.inElse || f.requireGiven || (base && |s.stack| > 1) then Some(s)
    else None
  }

  lemma SoundBegin(s: State, pass: int)
    requires Sound(s)
    ensures Begin(s, pass).Some? ==> Sound(Begin(s, pass).value)
  {
  }

  lemma SoundBeginElse(s: State, pass: int)
    requires Sound(s)
    ensures BeginElse(s, pass).Some? ==> Sound(BeginElse(s, pass).value)
  {
  }

  lemma SoundPop(s: State)
    requires Sound(s)
    ensures Pop(s).Some? ==> Sound(Pop(s).value)
  {
  }

  lemma SoundClose(s: State, pass: int, base: bool)
    requires Sound(s)
    ensures Close(s, pass, base).Some? ==> Sound(Close(s, pass, base).value)
  {
  }

  lemma SoundRecord(s: State, syms: set<Symbol>, pass: int)
    requires Sound(s)
    ensures Record(s, syms, pass).Some? ==> Sound(Record(s, syms, pass).value)
  {
  }

  // ---- a pass ---------------------------------------------------------

  /** The parser's events for the contents of the current block. */
  function Parse(b: Body, s: State, pass: int, base: bool): (r: Option<State>)
    requires Sound(s)
    ensures r.Some? ==> Sound(r.value)
    decreases Size(b), 1
  {
    match b
    case Done => Some(s)
    case Require(syms, rest) =>
      SoundRecord(s, syms, pass);
      var s1 := Record(s, syms, pass);
      if s1.None? then None else Parse(rest, s1.value, pass, base)
    case Optional(main, alt, rest) =>
      var s1 := ParseOptional(main, alt, s, pass, base);
      if s1.None? then None else Parse(rest, s1.value, pass, base)
  }

  /** optional_block: the events of one block and its else branch. */
  function ParseOptional(main: Body, alt: Alt, s: State, pass: int, base: bool): (r: Option<State>)
    requires Sound(s)
    ensures r.Some? ==> Sound(r.value)
    decreases 1 + Size(main) + SizeAlt(alt), 0
  {
    SoundBegin(s, pass);
    var s1 := Begin(s, pass);
    if s1.None? then None else
    var s2 := ParseBranch(main, s1.value, pass, base);
    if s2.None? then None else
    var s3 := ParseElse(alt, s2.value, pass, base);
    if s3.None? then None else
    SoundPop(s3.value);
    Pop(s3.value)
  }

  function ParseElse(alt: Alt, s: State, pass: int, base: bool): (r: Option<State>)
    requires Sound(s)
    ensures r.Some? ==> Sound(r.value)
    decreases SizeAlt(alt), 1
  {
    SoundBeginElse(s, pass);
    match alt
    case NoElse => Some(s)
    case Else(body) =>
      var s1 := BeginElse(s, pass);
      if s1.None? then None else ParseBranch(body, s1.value, pass, base)
  }

  /** A braced block: its contents, then end_avrule_block. */
  function ParseBranch(b: Body, s: State, pass: int, base: bool): (r: Option<State>)
    requires Sound(s)
    ensures r.Some? ==> Sound(r.value)
    decreases Size(b), 2
  {
    var s1 := Parse(b, s, pass, base);
    if s1.None? then None else
    SoundClose(s1.value, pass, base);
    Close(s1.value, pass, base)
  }

  // ---- pass 1 ---------------------------------------------------------

  predicate HasRequire(b: Body) {
    match b
    case Done => false
    case Require(_, _) => true
    case Optional(_, _, rest) => HasRequire(rest)
  }

  /** What pass 1 accepts: no require directly in an else branch, and one in every other optional block of a module. */
  predicate Accepted(b: Body, inElse: bool, base: bool) {
    match b
    case Done => true
    case Require(_, rest) => !inElse && Accepted(rest, inElse, base)
    case Optional(main, alt, rest) =>
      && Accepted(main, false, base) && (base || HasRequire(main))
      && (alt.Else? ==> Accepted(alt.body, true, base))
      && Accepted(rest, inElse, base)
  }

  /** No block has been opened that pass 1 did not just open. */
  predicate Building(s: State) {
    Sound(s) && s.lastBlock + 1 == |s.blocks|
  }

  lemma AddNothing(b: Block, j: nat)
    requires j < |b.decls|
    ensures AddRequired(b, j, {}) == b
  {
    assert b.decls[j].required + {} == b.decls[j].required;
    assert b.decls[j := b.decls[j]] == b.decls;
  }

  /** Two additions are one. */
  lemma AddTwice(b: Block, j: nat, s: set<Symbol>, t: set<Symbol>)
    requires j < |b.decls|
    ensures AddRequired(AddRequired(b, j, s), j, t) == AddRequired(b, j, s + t)
  {
    assert b.decls[j].required + s + t == b.decls[j].required + (s + t);
  }

  /** Pass 1 does not look at the surroundings. */
  lemma {:induction false} MadeIgnores(b: Body, id: nat, x: set<Symbol>, y: set<Symbol>)
    ensures Made(b, id, x, false) == Made(b, id, y, false)
    decreases b
  {
    hide Own, Count, CountAlt, DeclsOf;
    match b
    case Done =>
    case Require(_, rest) => MadeIgnores(rest, id, x, y);
    case Optional(main, alt, rest) =>
      MadeIgnores(main, id + 1, x + Own(main), y + Own(main));
      if alt.Else? {
        MadeIgnores(alt.body, id + 1 + Count(main) + 1, x + Own(alt.body), y + Own(alt.body));
      }
      MadeIgnores(rest, id + 1 + Count(main) + CountAlt(alt), x, y);
  }

  function MadeOptional(main: Body, alt: Alt, id: nat, above: set<Symbol>, inherit: bool): seq<Block> {
    [Block(DeclsOf(main, alt, id, if inherit then above else {}))]
    + Made(main, id + 1, above + Own(main), inherit)
    + MadeAlt(alt, id + 1 + Count(main), above, inherit)
  }

  lemma MadeUnfold(b: Body, id: nat, above: set<Symbol>, inherit: bool)
    requires b.Optional?
    ensures Made(b, id, above, inherit) == MadeOptional(b.main, b.alt, id, above, inherit)
              + Made(b.rest, id + 1 + Count(b.main) + CountAlt(b.alt), above, inherit)
    ensures |MadeOptional(b.main, b.alt, id, above, inherit)| == 1 + Width(b.main) + WidthAlt(b.alt)
  {
    hide Own, Count, CountAlt, DeclsOf;
    MadeWidth(b.main, id + 1, above + Own(b.main), inherit);
    MadeAltWidth(b.alt, id + 1 + Count(b.main), above, inherit);
  }

  /** The state after pass 1 has read a text inside the current block. */
  function Built(s: State, b: Body): State
    requires Sound(s)
  {
    var f := Top(s);
    State(AddAt(s.blocks, f, Own(b)) + Made(b, s.nextId, {}, false),
          s.stack[|s.stack| - 1 := f.(requireGiven := f.requireGiven || HasRequire(b))],
          s.lastBlock + Width(b), s.nextId + Count(b), s.path + Path(b, s.lastBlock + 1, s.nextId))
  }

  function BuiltOptional(s: State, main: Body, alt: Alt): State {
    State(s.blocks + MadeOptional(main, alt, s.nextId, {}, false), s.stack, s.lastBlock + 1 + Width(main) + WidthAlt(alt),
          s.nextId + 1 + Count(main) + CountAlt(alt), s.path + PathOptional(main, alt, s.lastBlock + 1, s.nextId))
  }

  lemma BuiltDone(s: State)
    requires Sound(s)
    ensures Built(s, Done) == s
  {
    AddNothing(s.blocks[Top(s).block], Top(s).decl);
    assert s.blocks + [] == s.blocks && s.path + [] == s.path;
  }

  lemma BuiltRequire(s: State, b: Body)
    requires Sound(s) && b.Require? && !Top(s).inElse
    ensures var s1 := Record(s, b.syms, 1).value;
            Sound(s1) && s1.lastBlock == s.lastBlock && |s1.blocks| == |s.blocks| && !Top(s1).inElse
            && Built(s1, b.rest) == Built(s, b)
  {
    SoundRecord(s, b.syms, 1);
    var f := Top(s);
    AddTwice(s.blocks[f.block], f.decl, b.syms, Own(b.rest));
  }

  lemma AddAtPrefix(blocks: seq<Block>, more: seq<Block>, f: Frame, x: set<Symbol>)
    requires OnBlock(f, blocks)
    ensures OnBlock(f, blocks + more) && AddAt(blocks + more, f, x) == AddAt(blocks, f, x) + more
  {
  }

  lemma BuildingAfter(s: State, main: Body, alt: Alt)
    requires Building(s)
    ensures Building(BuiltOptional(s, main, alt))
  {
    hide Made, MadeOptional, Path, PathOptional;
    MadeUnfold(Optional(main, alt, Done), s.nextId, {}, false);
  }

  lemma HasRequireOptional(b: Body)
    requires b.Optional?
    ensures HasRequire(b) == HasRequire(b.rest) && Own(b) == Own(b.rest)
    ensures Count(b) == 1 + Count(b.main) + CountAlt(b.alt) + Count(b.rest)
    ensures Width(b) == 1 + Width(b.main) + WidthAlt(b.alt) + Width(b.rest)
  {
  }

  lemma SoundTop(s: State)
    requires Sound(s)
    ensures s.stack != [] && OnBlock(Top(s), s.blocks) && s.lastBlock < |s.blocks|
  {
  }

  lemma BuiltThenRest(s: State, b: Body)
    requires Building(s) && b.Optional?
    ensures var s1 := BuiltOptional(s, b.main, b.alt);
            Building(s1) && Top(s1) == Top(s) && Built(s1, b.rest) == Built(s, b)
  {
    hide Made, MadeOptional, Path, PathOptional, Count, CountAlt, Width, WidthAlt, Own, HasRequire, AddAt, Sound;
    SoundTop(s);
    BuildingAfter(s, b.main, b.alt);
    MadeUnfold(b, s.nextId, {}, false);
    PathUnfold(b, s.lastBlock + 1, s.nextId);
    HasRequireOptional(b);
    AddAtPrefix(s.blocks, MadeOptional(b.main, b.alt, s.nextId, {}, false), Top(s), Own(b));
  }

  /** After the main branch: one new declaration, then the blocks inside it. */
  function MainBuilt(s: State, main: Body): State {
    State(s.blocks + [Block([Decl(s.nextId, Own(main) + {})])] + Made(main, s.nextId + 1, {}, false),
          s.stack + [Frame(s.lastBlock + 1, 0, false, HasRequire(main))],
          s.lastBlock + 1 + Width(main), s.nextId + 1 + Count(main),
          s.path + [Visit(s.lastBlock + 1, 0, s.nextId)] + Path(main, s.lastBlock + 2, s.nextId + 1))
  }

  lemma AddAtMiddle(before: seq<Block>, b: Block, more: seq<Block>, j: nat, x: set<Symbol>)
    requires j < |b.decls|
    ensures forall f: Frame :: f.block == |before| && f.decl == j ==>
              OnBlock(f, before + [b] + more) && AddAt(before + [b] + more, f, x) == before + [AddRequired(b, j, x)] + more
  {
  }

  lemma BegunMain(s: State, main: Body)
    requires Building(s)
    ensures var s1 := Begin(s, 1).value; Building(s1) && !Top(s1).inElse && Built(s1, main) == MainBuilt(s, main)
  {
    hide Made, Path, Own, HasRequire, Count, Width;
    SoundBegin(s, 1);
    assert s.blocks[..s.lastBlock + 1] == s.blocks;
    var fresh0 := Block([Decl(s.nextId, {})]);
    assert AddRequired(fresh0, 0, Own(main)) == Block([Decl(s.nextId, Own(main) + {})]) by {
      assert {} + Own(main) == Own(main) + {};
    }
    AddAtMiddle(s.blocks, fresh0, [], 0, Own(main));
    assert s.blocks + [fresh0] + [] == s.blocks + [fresh0];
    var s1 := Begin(s, 1).value;
    assert Built(s1, main).stack == MainBuilt(s, main).stack;
  }

  /** After the else branch: the block has a second declaration. */
  function ElseBuilt(s: State, main: Body, body: Body): State {
    var id := s.nextId + 1 + Count(main);
    State(s.blocks + [Block([Decl(s.nextId, Own(main) + {}), Decl(id, Own(body) + {})])]
          + Made(main, s.nextId + 1, {}, false) + Made(body, id + 1, {}, false),
          s.stack + [Frame(s.lastBlock + 1, 1, true, HasRequire(body))],
          s.lastBlock + 1 + Width(main) + Width(body), id + 1 + Count(body),
          s.path + [Visit(s.lastBlock + 1, 0, s.nextId)] + Path(main, s.lastBlock + 2, s.nextId + 1)
          + [Visit(s.lastBlock + 1, 1, id)] + Path(body, s.lastBlock + 2 + Width(main), id + 1))
  }

  lemma SoundMain(s: State, main: Body)
    requires Building(s)
    ensures Building(MainBuilt(s, main))
  {
    hide Made, Path, Own, HasRequire, Count, Width;
    MadeWidth(main, s.nextId + 1, {}, false);
  }

  lemma BegunElse(s: State, main: Body, body: Body)
    requires Building(s)
    ensures Building(MainBuilt(s, main))
    ensures var s3 := BeginElse(MainBuilt(s, main), 1);
            s3.Some? && Building(s3.value) && Top(s3.value).inElse && Built(s3.value, body) == ElseBuilt(s, main, body)
  {
    hide Made, Path, Own, HasRequire, Count, Width;
    SoundMain(s, main);
    var s2 := MainBuilt(s, main);
    SoundBeginElse(s2, 1);
    var k, id := |s.blocks|, s2.nextId;
    var first := Decl(s.nextId, Own(main) + {});
    var more := Made(main, s.nextId + 1, {}, false);
    assert s2.blocks[k].decls[..1] + [Decl(id, {})] == [first, Decl(id, {})];
    var s3 := BeginElse(s2, 1).value;
    assert s3.blocks == s.blocks + [Block([first, Decl(id, {})])] + more;
    assert AddRequired(Block([first, Decl(id, {})]), 1, Own(body)) == Block([first, Decl(id, Own(body) + {})]) by {
      assert {} + Own(body) == Own(body) + {};
    }
    AddAtMiddle(s.blocks, Block([first, Decl(id, {})]), more, 1, Own(body));
  }

  predicate AcceptedOptional(main: Body, alt: Alt, base: bool) {
    && Accepted(main, false, base) && (base || HasRequire(main))
    && (alt.Else? ==> Accepted(alt.body, true, base))
  }

  lemma NoElseAdds(main: Body, id: nat, k: nat)
    ensures MadeOptional(main, NoElse, id, {}, false) ==
              [Block([Decl(id, Own(main) + {})])] + Made(main, id + 1, {} + Own(main), false)
    ensures PathOptional(main, NoElse, k, id) == [Visit(k, 0, id)] + Path(main, k + 1, id + 1)
  {
    assert DeclsOf(main, NoElse, id, {}) == [Decl(id, Own(main) + {})];
  }

  lemma OptionalBuiltNoElse(s: State, main: Body)
    requires Building(s)
    ensures Pop(MainBuilt(s, main)) == Some(BuiltOptional(s, main, NoElse))
  {
    hide Made, Path, Own, HasRequire, Count, Width, MadeOptional, PathOptional;
    MadeIgnores(main, s.nextId + 1, {}, {} + Own(main));
    NoElseAdds(main, s.nextId, s.lastBlock + 1);
    var got, want := Pop(MainBuilt(s, main)).value, BuiltOptional(s, main, NoElse);
    assert got.stack == want.stack && got.blocks == want.blocks && got.path == want.path;
  }

  lemma ElseAdds(main: Body, body: Body, id: nat, k: nat)
    ensures var id' := id + 1 + Count(main);
            MadeOptional(main, Else(body), id, {}, false) ==
              [Block([Decl(id, Own(main) + {}), Decl(id', Own(body) + {})])]
              + Made(main, id + 1, {} + Own(main), false) + Made(body, id' + 1, {} + Own(body), false)
    ensures var id' := id + 1 + Count(main);
            PathOptional(main, Else(body), k, id) ==
              [Visit(k, 0, id)] + Path(main, k + 1, id + 1) + [Visit(k, 1, id')] + Path(body, k + 1 + Width(main), id' + 1)
  {
    hide Made, Path, Own, Count, Width;
    var id' := id + 1 + Count(main);
    assert DeclsOf(main, Else(body), id, {}) == [Decl(id, Own(main) + {}), Decl(id', Own(body) + {})];
  }

  lemma OptionalBuiltElse(s: State, main: Body, body: Body)
    requires Building(s)
    ensures Pop(ElseBuilt(s, main, body)) == Some(BuiltOptional(s, main, Else(body)))
  {
    hide Made, Path, Own, HasRequire, Count, Width, MadeOptional, PathOptional;
    MadeIgnores(main, s.nextId + 1, {}, {} + Own(main));
    MadeIgnores(body, s.nextId + 1 + Count(main) + 1, {}, {} + Own(body));
    ElseAdds(main, body, s.nextId, s.lastBlock + 1);
    var got, want := Pop(ElseBuilt(s, main, body)).value, BuiltOptional(s, main, Else(body));
    assert got.stack == want.stack && got.blocks == want.blocks && got.path == want.path;
  }

  lemma OptionalBuilt(s: State, main: Body, alt: Alt)
    requires Building(s)
    ensures Pop(if alt.Else? then ElseBuilt(s, main, alt.body) else MainBuilt(s, main)) == Some(BuiltOptional(s, main, alt))
  {
    hide Pop, ElseBuilt, MainBuilt, BuiltOptional;
    match alt
    case Else(body) => OptionalBuiltElse(s, main, body);
    case NoElse => OptionalBuiltNoElse(s, main);
  }

  lemma Pass1Require(s: State, b: Body)
    requires Sound(s) && b.Require?
    ensures Record(s, b.syms, 1).Some? <==> !Top(s).inElse
  {
  }

  /** Pass 1 accepts exactly the texts described above, and makes the blocks, ids and path the text determines. */
  lemma {:induction false} Pass1(b: Body, s: State, base: bool)
    requires Building(s)
    ensures Parse(b, s, 1, base) == if Accepted(b, Top(s).inElse, base) then Some(Built(s, b)) else None
    decreases Size(b), 1
  {
    hide Built, BuiltOptional, ParseOptional, Record;
    match b
    case Done =>
      BuiltDone(s);
    case Require(syms, rest) =>
      Pass1Require(s, b);
      if !Top(s).inElse {
        BuiltRequire(s, b);
        Pass1(rest, Record(s, syms, 1).value, base);
      }
    case Optional(main, alt, rest) =>
      Pass1Optional(main, alt, s, base);
      BuiltThenRest(s, b);
      Pass1(rest, BuiltOptional(s, main, alt), base);
  }

  lemma BeginSome(s: State)
    requires Sound(s)
    ensures Begin(s, 1).Some?
  {
  }

  lemma {:induction false} Pass1Optional(main: Body, alt: Alt, s: State, base: bool)
    requires Building(s)
    ensures ParseOptional(main, alt, s, 1, base) ==
              if AcceptedOptional(main, alt, base) then Some(BuiltOptional(s, main, alt)) else None
    decreases 1 + Size(main) + SizeAlt(alt), 1
  {
    hide Built, BuiltOptional, Parse, ParseBranch, ParseElse, MainBuilt, ElseBuilt, Begin, Pop;
    BeginSome(s);
    SoundBegin(s, 1);
    SoundMain(s, main);
    Main1(main, s, base);
    OptionalBuilt(s, main, alt);
    Else1(main, alt, s, base);
  }

  lemma {:induction false} Main1(main: Body, s: State, base: bool)
    requires Building(s)
    ensures Begin(s, 1).Some? && Sound(Begin(s, 1).value)
    ensures ParseBranch(main, Begin(s, 1).value, 1, base) ==
              if Accepted(main, false, base) && (base || HasRequire(main)) then Some(MainBuilt(s, main)) else None
    decreases Size(main), 2
  {
    hide Built, Parse, Made, Path, HasRequire, Accepted;
    BegunMain(s, main);
    Pass1(main, Begin(s, 1).value, base);
  }

  lemma {:induction false} Else1(main: Body, alt: Alt, s: State, base: bool)
    requires Building(s)
    ensures Sound(MainBuilt(s, main))
    ensures ParseElse(alt, MainBuilt(s, main), 1, base) ==
              if alt.NoElse? then Some(MainBuilt(s, main))
              else if Accepted(alt.body, true, base) then Some(ElseBuilt(s, main, alt.body)) else None
    decreases 1 + Size(main) + SizeAlt(alt), 0
  {
    hide Built, Parse, Made, Path, HasRequire, Accepted;
    SoundMain(s, main);
    if alt.Else? {
      BegunElse(s, main, alt.body);
      Pass1(alt.body, BeginElse(MainBuilt(s, main), 1).value, base);
    }
  }

  // ---- pass 2 ---------------------------------------------------------

  /** The blocks that pass 1 made for a text come next. */
  predicate Waiting(s: State, b: Body, later: seq<Block>) {
    Sound(s) && s.blocks == s.blocks[..s.lastBlock + 1] + Made(b, s.nextId, {}, false) + later
  }

  /** The state after pass 2 has read a text inside the current block. */
  function Replayed(s: State, b: Body, later: seq<Block>): State
    requires Sound(s)
  {
    State(s.blocks[..s.lastBlock + 1] + Made(b, s.nextId, Gathered(s.stack, s.blocks), true) + later,
          s.stack, s.lastBlock + Width(b), s.nextId + Count(b), s.path + Path(b, s.lastBlock + 1, s.nextId))
  }

  /** Requirements depend only on the blocks the frames name. */
  lemma {:induction false} GatheredSame(frames: seq<Frame>, was: seq<Block>, now: seq<Block>, n: nat)
    requires n <= |was| && n <= |now| && was[..n] == now[..n]
    requires forall i :: 0 <= i < |frames| ==> frames[i].block < n
    ensures Gathered(frames, now) == Gathered(frames, was)
  {
    if frames != [] {
      GatheredSame(frames[..|frames| - 1], was, now, n);
      var f := frames[|frames| - 1];
      assert was[f.block] == was[..n][f.block] && now[f.block] == now[..n][f.block];
    }
  }

  lemma GatheredTop(s: State)
    requires Sound(s)
    ensures Gathered(s.stack, s.blocks) == Gathered(Below(s), s.blocks) + s.blocks[Top(s).block].decls[Top(s).decl].required
  {
  }

  /** The blocks before `s.lastBlock + 1`, with the current declaration closed. */
  function ClosedPrefix(s: State): seq<Block>
    requires Sound(s)
  {
    AddAt(s.blocks, Top(s), Gathered(Below(s), s.blocks))[..s.lastBlock + 1]
  }

  /** Closing after the contents have been replayed adds what the frames below held at the start. */
  lemma CloseReplayed(s: State, b: Body, later: seq<Block>, base: bool)
    requires Waiting(s, b, later)
    requires Sound(Replayed(s, b, later))
    ensures var r := Replayed(s, b, later);
            Close(r, 2, base).value == r.(blocks := ClosedPrefix(s) + Made(b, s.nextId, Gathered(s.stack, s.blocks), true) + later)
  {
    hide Made, Path, Count, Width;
    var r := Replayed(s, b, later);
    var n := s.lastBlock + 1;
    assert r.blocks[..n] == s.blocks[..n];
    forall i | 0 <= i < |Below(s)| ensures Below(s)[i].block < n {
      assert Below(s)[i] == s.stack[i];
    }
    GatheredSame(Below(s), s.blocks, r.blocks, n);
    var f := Top(s);
    assert r.blocks[f.block] == s.blocks[f.block];
  }

  lemma SoundReplayed(s: State, b: Body, later: seq<Block>)
    requires Waiting(s, b, later)
    ensures Sound(Replayed(s, b, later))
  {
    hide Made, Path, Count, Width, Gathered;
    MadeWidth(b, s.nextId, Gathered(s.stack, s.blocks), true);
    MadeWidth(b, s.nextId, {}, false);
    var r := Replayed(s, b, later);
    forall i | 0 <= i < |s.stack| ensures OnBlock(s.stack[i], r.blocks) {
      assert r.blocks[s.stack[i].block] == s.blocks[s.stack[i].block];
    }
  }

  /** The state between blocks when an optional block has been replayed. */
  function ReplayedOptional(s: State, main: Body, alt: Alt, later: seq<Block>): State
    requires Sound(s)
  {
    State(s.blocks[..s.lastBlock + 1] + MadeOptional(main, alt, s.nextId, Gathered(s.stack, s.blocks), true) + later,
          s.stack, s.lastBlock + 1 + Width(main) + WidthAlt(alt), s.nextId + 1 + Count(main) + CountAlt(alt),
          s.path + PathOptional(main, alt, s.lastBlock + 1, s.nextId))
  }

  predicate WaitingOptional(s: State, main: Body, alt: Alt, later: seq<Block>) {
    Sound(s) && s.blocks == s.blocks[..s.lastBlock + 1] + MadeOptional(main, alt, s.nextId, {}, false) + later
  }

  lemma SoundReplayedOptional(s: State, main: Body, alt: Alt, later: seq<Block>)
    requires WaitingOptional(s, main, alt, later)
    ensures Sound(ReplayedOptional(s, main, alt, later))
  {
    hide MadeOptional, PathOptional, Count, CountAlt, Width, WidthAlt, Gathered;
    MadeUnfold(Optional(main, alt, Done), s.nextId, Gathered(s.stack, s.blocks), true);
    var r := ReplayedOptional(s, main, alt, later);
    forall i | 0 <= i < |s.stack| ensures OnBlock(s.stack[i], r.blocks) {
      assert r.blocks[s.stack[i].block] == s.blocks[s.stack[i].block];
    }
  }

  /** The rest of the text is waiting after an optional block, and the whole comes out as the text says. */
  lemma ReplayThenRest(s: State, b: Body, later: seq<Block>)
    requires Waiting(s, b, later) && b.Optional?
    ensures var more := Made(b.rest, s.nextId + 1 + Count(b.main) + CountAlt(b.alt), {}, false) + later;
            var s1 := ReplayedOptional(s, b.main, b.alt, more);
            && WaitingOptional(s, b.main, b.alt, more)
            && Waiting(s1, b.rest, later) && Replayed(s1, b.rest, later) == Replayed(s, b, later)
  {
    hide Made, MadeOptional, Path, PathOptional, Count, CountAlt, Width, WidthAlt, Gathered;
    var g := Gathered(s.stack, s.blocks);
    var n := s.lastBlock + 1;
    var rest := Made(b.rest, s.nextId + 1 + Count(b.main) + CountAlt(b.alt), {}, false);
    MadeUnfold(b, s.nextId, {}, false);
    MadeUnfold(b, s.nextId, g, true);
    PathUnfold(b, n, s.nextId);
    HasRequireOptional(b);
    assert s.blocks == s.blocks[..n] + MadeOptional(b.main, b.alt, s.nextId, {}, false) + (rest + later);
    SoundReplayedOptional(s, b.main, b.alt, rest + later);
    var s1 := ReplayedOptional(s, b.main, b.alt, rest + later);
    var prefix := s.blocks[..n] + MadeOptional(b.main, b.alt, s.nextId, g, true);
    assert s1.blocks[..s1.lastBlock + 1] == prefix;
    assert s1.blocks == prefix + rest + later;
    GatheredSame(s.stack, s.blocks, s1.blocks, n);
  }

  /** Pass 2 over texts that pass 1 has read. */
  lemma {:induction false} Pass2(b: Body, s: State, base: bool, later: seq<Block>)
    requires Waiting(s, b, later)
    ensures Parse(b, s, 2, base) == Some(Replayed(s, b, later))
    decreases Size(b), 1
  {
    hide ParseOptional, ReplayedOptional, MadeOptional, PathOptional;
    match b
    case Done =>
      assert s.path + [] == s.path;
    case Require(syms, rest) =>
      Pass2(rest, s, base, later);
    case Optional(main, alt, rest) =>
      var more := Made(rest, s.nextId + 1 + Count(main) + CountAlt(alt), {}, false) + later;
      ReplayThenRest(s, b, later);
      Pass2Optional(main, alt, s, base, more);
      Pass2(rest, ReplayedOptional(s, main, alt, more), base, later);
  }

  /** After the main branch in pass 2; `second` is the declaration of an else branch still to come. */
  function MainReplayed(s: State, main: Body, second: seq<Decl>, later: seq<Block>): State
    requires Sound(s)
  {
    var g := Gathered(s.stack, s.blocks);
    State(s.blocks[..s.lastBlock + 1] + [Block([Decl(s.nextId, Own(main) + g)] + second)]
          + Made(main, s.nextId + 1, g + Own(main), true) + later,
          s.stack + [Frame(s.lastBlock + 1, 0, false, false)], s.lastBlock + 1 + Width(main), s.nextId + 1 + Count(main),
          s.path + [Visit(s.lastBlock + 1, 0, s.nextId)] + Path(main, s.lastBlock + 2, s.nextId + 1))
  }

  /** Blocks in which the main branch of an optional block comes next. */
  predicate WaitingMain(s: State, main: Body, second: seq<Decl>, later: seq<Block>) {
    Sound(s) && s.blocks == s.blocks[..s.lastBlock + 1] + [Block([Decl(s.nextId, Own(main) + {})] + second)]
                            + Made(main, s.nextId + 1, {}, false) + later
  }

  lemma BegunMain2(s: State, main: Body, second: seq<Decl>, later: seq<Block>)
    requires WaitingMain(s, main, second, later)
    ensures Begin(s, 2) == Some(Pushed(s, s.blocks)) && Waiting(Pushed(s, s.blocks), main, later)
  {
    hide Made, Own;
    var n := s.lastBlock + 1;
    assert s.blocks[n] == Block([Decl(s.nextId, Own(main) + {})] + second);
    SoundBegin(s, 2);
    var s1 := Pushed(s, s.blocks);
    assert s1.blocks[..n + 1] == s.blocks[..n] + [s.blocks[n]];
  }

  lemma FirstDecl(d: Decl, second: seq<Decl>, x: set<Symbol>)
    ensures AddRequired(Block([d] + second), 0, x) == Block([Decl(d.id, d.required + x)] + second)
  {
  }

  lemma MainGathered(s: State, main: Body, second: seq<Decl>, later: seq<Block>)
    requires WaitingMain(s, main, second, later)
    ensures var s1 := Pushed(s, s.blocks); var g := Gathered(s.stack, s.blocks);
            && Sound(s1) && Below(s1) == s.stack && Gathered(s1.stack, s1.blocks) == g + Own(main)
            && ClosedPrefix(s1) == s.blocks[..s.lastBlock + 1] + [Block([Decl(s.nextId, Own(main) + g)] + second)]
  {
    hide Made, Own;
    BegunMain2(s, main, second, later);
    var n := s.lastBlock + 1;
    var s1 := Pushed(s, s.blocks);
    assert Below(s1) == s.stack;
    assert s.blocks[n] == Block([Decl(s.nextId, Own(main) + {})] + second);
    GatheredTop(s1);
    assert Own(main) + {} == Own(main);
    FirstDecl(Decl(s.nextId, Own(main)), second, Gathered(s.stack, s.blocks));
  }

  lemma {:induction false} Main2(main: Body, s: State, base: bool, second: seq<Decl>, later: seq<Block>)
    requires WaitingMain(s, main, second, later)
    ensures Begin(s, 2).Some? && Sound(Begin(s, 2).value)
    ensures ParseBranch(main, Begin(s, 2).value, 2, base) == Some(MainReplayed(s, main, second, later))
    decreases Size(main), 2
  {
    hide Made, Path, Own, Count, Width, Parse, Gathered;
    BegunMain2(s, main, second, later);
    MainGathered(s, main, second, later);
    var s1 := Pushed(s, s.blocks);
    Pass2(main, s1, base, later);
    SoundReplayed(s1, main, later);
    CloseReplayed(s1, main, later, base);
  }

  /** After the else branch in pass 2. */
  function ElseReplayed(s: State, main: Body, body: Body, later: seq<Block>): State
    requires Sound(s)
  {
    var g := Gathered(s.stack, s.blocks);
    var id := s.nextId + 1 + Count(main);
    State(s.blocks[..s.lastBlock + 1] + [Block([Decl(s.nextId, Own(main) + g)] + [Decl(id, Own(body) + g)])]
          + Made(main, s.nextId + 1, g + Own(main), true) + Made(body, id + 1, g + Own(body), true) + later,
          s.stack + [Frame(s.lastBlock + 1, 1, true, false)], s.lastBlock + 1 + Width(main) + Width(body), id + 1 + Count(body),
          s.path + [Visit(s.lastBlock + 1, 0, s.nextId)] + Path(main, s.lastBlock + 2, s.nextId + 1)
          + [Visit(s.lastBlock + 1, 1, id)] + Path(body, s.lastBlock + 2 + Width(main), id + 1))
  }

  function ElseDecl(s: State, main: Body, body: Body): Decl {
    Decl(s.nextId + 1 + Count(main), Own(body) + {})
  }

  /** What lies behind the main branch when an else branch follows. */
  function BehindMain(s: State, main: Body, body: Body, later: seq<Block>): seq<Block> {
    Made(body, s.nextId + 1 + Count(main) + 1, {}, false) + later
  }

  lemma SoundMainReplayed(s: State, main: Body, second: seq<Decl>, later: seq<Block>)
    requires Sound(s)
    ensures Sound(MainReplayed(s, main, second, later))
  {
    hide Made, Path, Own, Count, Width, Gathered;
    MadeWidth(main, s.nextId + 1, Gathered(s.stack, s.blocks) + Own(main), true);
    var r := MainReplayed(s, main, second, later);
    forall i | 0 <= i < |s.stack| ensures OnBlock(s.stack[i], r.blocks) {
      assert r.blocks[s.stack[i].block] == s.blocks[s.stack[i].block];
    }
    assert r.blocks[s.lastBlock + 1].decls != [];
  }

  lemma Pieces(w: seq<Block>, a: seq<Block>, x: Block, c: seq<Block>, d: seq<Block>)
    requires w == a + [x] + c + d
    ensures w[|a|] == x && w[..|a|] == a && w[..|a| + 1 + |c|] == a + [x] + c && w == w[..|a| + 1 + |c|] + d
  {
  }

  /** Changing the piece in the middle. */
  lemma ChangedPiece(w: seq<Block>, a: seq<Block>, x: Block, c: seq<Block>, d: seq<Block>, y: Block)
    requires w == a + [x] + c + d
    ensures w[|a| := y][..|a| + 1 + |c|] == a + [y] + c
  {
  }

  /** The parts of the state after the main branch in pass 2. */
  lemma MainFields(s: State, main: Body, second: seq<Decl>, later: seq<Block>)
    requires Sound(s)
    ensures var s2 := MainReplayed(s, main, second, later);
            var g := Gathered(s.stack, s.blocks);
            && Sound(s2) && s2.stack == s.stack + [Frame(s.lastBlock + 1, 0, false, false)]
            && Below(s2) == s.stack && Top(s2) == Frame(s.lastBlock + 1, 0, false, false)
            && s2.blocks == s.blocks[..s.lastBlock + 1] + [Block([Decl(s.nextId, Own(main) + g)] + second)]
                 + Made(main, s.nextId + 1, g + Own(main), true) + later
            && s2.nextId == s.nextId + 1 + Count(main)
            && s2.lastBlock + 1 == s.lastBlock + 1 + 1 + |Made(main, s.nextId + 1, g + Own(main), true)|
            && |s.blocks[..s.lastBlock + 1]| == s.lastBlock + 1
  {
    hide Made, Path, Own, Count, Width, Gathered, Sound;
    SoundMainReplayed(s, main, second, later);
    MadeWidth(main, s.nextId + 1, Gathered(s.stack, s.blocks) + Own(main), true);
    SoundTop(s);
  }

  lemma AppendLater(a: seq<Block>, b: seq<Block>, c: seq<Block>)
    ensures a + (b + c) == a + b + c
  {
  }

  lemma FramesBefore(s: State)
    requires Sound(s)
    ensures s.lastBlock < |s.blocks| && forall i :: 0 <= i < |s.stack| ==> s.stack[i].block < s.lastBlock + 1
  {
  }

  lemma BegunElse2(s: State, main: Body, body: Body, later: seq<Block>)
    requires Sound(s)
    ensures var s2 := MainReplayed(s, main, [ElseDecl(s, main, body)], BehindMain(s, main, body, later));
            && Sound(s2) && BeginElse(s2, 2) == Some(Switched(s2, s2.blocks)) && Waiting(Switched(s2, s2.blocks), body, later)
  {
    hide Made, Own, Count, Gathered, Sound, MainReplayed;
    FramesBefore(s);
    var second := [ElseDecl(s, main, body)];
    var behind := BehindMain(s, main, body, later);
    MainFields(s, main, second, behind);
    var s2 := MainReplayed(s, main, second, behind);
    var g := Gathered(s.stack, s.blocks);
    var first := [Decl(s.nextId, Own(main) + g)];
    Pieces(s2.blocks, s.blocks[..s.lastBlock + 1], Block(first + second), Made(main, s.nextId + 1, g + Own(main), true), behind);
    assert (first + second)[1] == second[0] && |first + second| == 2;
    SoundBeginElse(s2, 2);
    AppendLater(s2.blocks[..s2.lastBlock + 1], Made(body, s2.nextId + 1, {}, false), later);
  }

  lemma SecondDecl(a: Decl, d: Decl, x: set<Symbol>)
    ensures AddRequired(Block([a] + [d]), 1, x) == Block([a] + [Decl(d.id, d.required + x)])
  {
  }

  lemma ElseGathered(s: State, main: Body, body: Body, later: seq<Block>)
    requires Sound(s)
    ensures var s2 := MainReplayed(s, main, [ElseDecl(s, main, body)], BehindMain(s, main, body, later));
            var g := Gathered(s.stack, s.blocks);
            var s3 := Switched(s2, s2.blocks);
            && Sound(s3) && Below(s3) == s.stack && Gathered(s3.stack, s3.blocks) == g + Own(body)
            && ClosedPrefix(s3) == s.blocks[..s.lastBlock + 1]
                 + [Block([Decl(s.nextId, Own(main) + g)] + [Decl(s.nextId + 1 + Count(main), Own(body) + g)])]
                 + Made(main, s.nextId + 1, g + Own(main), true)
  {
    hide Made, Own, Count, Gathered, Sound, MainReplayed;
    FramesBefore(s);
    BegunElse2(s, main, body, later);
    MainFields(s, main, [ElseDecl(s, main, body)], BehindMain(s, main, body, later));
    var s2 := MainReplayed(s, main, [ElseDecl(s, main, body)], BehindMain(s, main, body, later));
    var s3 := Switched(s2, s2.blocks);
    var n, g := s.lastBlock + 1, Gathered(s.stack, s.blocks);
    var first := Decl(s.nextId, Own(main) + g);
    var made, behind := Made(main, s.nextId + 1, g + Own(main), true), BehindMain(s, main, body, later);
    Pieces(s2.blocks, s.blocks[..n], Block([first] + [ElseDecl(s, main, body)]), made, behind);
    SecondDecl(first, ElseDecl(s, main, body), g);
    assert Own(body) + {} == Own(body);
    ChangedPiece(s2.blocks, s.blocks[..n], Block([first] + [ElseDecl(s, main, body)]), made, behind,
                 Block([first] + [Decl(s.nextId + 1 + Count(main), Own(body) + g)]));
    assert Below(s3) == s.stack;
    GatheredTop(s3);
    GatheredSame(s.stack, s.blocks, s3.blocks, n);
  }

  lemma ElseFields(s: State, main: Body, body: Body, later: seq<Block>)
    requires Sound(s)
    ensures var g := Gathered(s.stack, s.blocks);
            var s2 := MainReplayed(s, main, [ElseDecl(s, main, body)], BehindMain(s, main, body, later));
            var s3 := Switched(s2, s2.blocks);
            var want := ElseReplayed(s, main, body, later);
            && want.stack == s3.stack && want.path == s3.path + Path(body, s3.lastBlock + 1, s3.nextId)
            && want.lastBlock == s3.lastBlock + Width(body) && want.nextId == s3.nextId + Count(body)
  {
    hide Made, Path, Own, Count, Width, Gathered;
  }

  lemma {:induction false} Else2(main: Body, body: Body, s: State, base: bool, later: seq<Block>)
    requires Sound(s)
    ensures var s2 := MainReplayed(s, main, [ElseDecl(s, main, body)], BehindMain(s, main, body, later));
            Sound(s2) && ParseElse(Else(body), s2, 2, base) == Some(ElseReplayed(s, main, body, later))
    decreases 1 + Size(main) + SizeAlt(Else(body)), 0
  {
    hide Made, Path, Own, Count, Width, Parse, Gathered, ClosedPrefix, AddAt;
    BegunElse2(s, main, body, later);
    ElseGathered(s, main, body, later);
    var s2 := MainReplayed(s, main, [ElseDecl(s, main, body)], BehindMain(s, main, body, later));
    var s3 := Switched(s2, s2.blocks);
    Pass2(body, s3, base, later);
    SoundReplayed(s3, body, later);
    CloseReplayed(s3, body, later, base);
    ElseFields(s, main, body, later);
  }

  lemma WaitingParts(s: State, main: Body, alt: Alt, later: seq<Block>)
    requires WaitingOptional(s, main, alt, later)
    ensures alt.NoElse? ==> WaitingMain(s, main, [], later)
    ensures alt.Else? ==> WaitingMain(s, main, [ElseDecl(s, main, alt.body)], BehindMain(s, main, alt.body, later))
  {
    hide Made, Own, Count;
    MadeIgnores(main, s.nextId + 1, {}, {} + Own(main));
    if alt.Else? {
      MadeIgnores(alt.body, s.nextId + 1 + Count(main) + 1, {}, {} + Own(alt.body));
    }
  }

  lemma OptionalReplayedElse(s: State, main: Body, body: Body, later: seq<Block>)
    requires Sound(s)
    ensures Pop(ElseReplayed(s, main, body, later)) == Some(ReplayedOptional(s, main, Else(body), later))
  {
    hide Made, Path, Own, Count, Width, Gathered;
    var got, want := Pop(ElseReplayed(s, main, body, later)).value, ReplayedOptional(s, main, Else(body), later);
    assert got.stack == want.stack && got.blocks == want.blocks && got.path == want.path;
  }

  lemma OptionalReplayedNoElse(s: State, main: Body, later: seq<Block>)
    requires Sound(s)
    ensures Pop(MainReplayed(s, main, [], later)) == Some(ReplayedOptional(s, main, NoElse, later))
  {
    hide Made, Path, Own, Count, Width, Gathered;
    var got, want := Pop(MainReplayed(s, main, [], later)).value, ReplayedOptional(s, main, NoElse, later);
    assert got.stack == want.stack && got.blocks == want.blocks && got.path == want.path;
  }

  lemma {:induction false} Pass2Optional(main: Body, alt: Alt, s: State, base: bool, later: seq<Block>)
    requires WaitingOptional(s, main, alt, later)
    ensures ParseOptional(main, alt, s, 2, base) == Some(ReplayedOptional(s, main, alt, later))
    decreases 1 + Size(main) + SizeAlt(alt), 1
  {
    hide Made, Path, Own, ParseBranch, ReplayedOptional, MainReplayed, ElseReplayed, Begin, Pop, MadeOptional;
    WaitingParts(s, main, alt, later);
    match alt
    case NoElse =>
      Main2(main, s, base, [], later);
      OptionalReplayedNoElse(s, main, later);
    case Else(body) =>
      hide ParseElse;
      Main2(main, s, base, [ElseDecl(s, main, body)], BehindMain(s, main, body, later));
      Else2(main, body, s, base, later);
      OptionalReplayedElse(s, main, body, later);
  }

  // ---- both passes ----------------------------------------------------

  const START := State([Block([Decl(1, {})])], [Frame(0, 0, false, false)], 0, 2, [])

  /** define_policy before pass 2: the stack and the counters start again, the blocks stay. */
  function Restarted(s: State): State {
    State(s.blocks, [Frame(0, 0, false, false)], 0, 2, [])
  }

  lemma GatheredGlobal(s: State, own: set<Symbol>)
    requires s.stack == [Frame(0, 0, false, false)] && OnBlock(s.stack[0], s.blocks) && s.blocks[0].decls[0].required == own
    ensures Gathered(s.stack, s.blocks) == own
  {
    assert s.stack[..0] == [];
  }

  /** Pass 2 over a text that pass 1 accepted violates no assertion, meets the same declarations with ids 2, 3, …, and
      leaves every closed declaration with its own requirements and those of all blocks around it. */
  lemma TwoPasses(b: Body, base: bool)
    ensures Sound(START)
    ensures Parse(b, START, 1, base).Some? <==> Accepted(b, false, base)
    ensures Accepted(b, false, base) ==>
              var first := Parse(b, START, 1, base).value;
              && Sound(Restarted(first))
              && var second := Parse(b, Restarted(first), 2, base);
              && second.Some? && second.value.path == first.path == Path(b, 1, 2)
              && second.value.blocks == [Block([Decl(1, Own(b))])] + Made(b, 2, Own(b), true)
              && |first.path| == Count(b) && Numbered(first.path, 2)
              && first == Built(START, b) && second.value.stack == [Frame(0, 0, false, false)]
  {
    hide Parse, Made, Path, Own, Accepted, Count, Width, HasRequire;
    Pass1(b, START, base);
    if Accepted(b, false, base) {
      PathConsecutive(b, 1, 2);
      assert AddRequired(Block([Decl(1, {})]), 0, Own(b)) == Block([Decl(1, Own(b))]) by {
        assert {} + Own(b) == Own(b);
      }
      var first := Parse(b, START, 1, base).value;
      var s := Restarted(first);
      var global := [Block([Decl(1, Own(b))])];
      assert first.blocks == global + Made(b, 2, {}, false);
      assert s.blocks[..1] == global;
      assert s.blocks == s.blocks[..1] + Made(b, 2, {}, false) + [];
      Pass2(b, s, base, []);
      GatheredGlobal(s, Own(b));
    }
  }

  // ---- the compiler's globals, changed in place -----------------------

  lemma {:induction false} GatheredElsewhere(frames: seq<Frame>, was: seq<Block>, now: seq<Block>, k: nat)
    requires k < |was| && |now| == |was| && forall i :: 0 <= i < |was| && i != k ==> now[i] == was[i]
    requires forall i :: 0 <= i < |frames| ==> frames[i].block != k
    ensures Gathered(frames, now) == Gathered(frames, was)
  {
    if frames != [] {
      GatheredElsewhere(frames[..|frames| - 1], was, now, k);
    }
  }

  class Compiler {
    var blocks: seq<Block>
    var stack: seq<Frame>
    var lastBlock: nat
    var nextId: nat
    ghost var path: seq<Visit>
    /** Building a base policy rather than a module. */
    const base: bool

    ghost function Now(): State
      reads this
    {
      State(blocks, stack, lastBlock, nextId, path)
    }

    constructor (base: bool)
      ensures Now() == START && this.base == base
    {
      this.base := base;
      blocks, stack, lastBlock, nextId, path := [Block([Decl(1, {})])], [Frame(0, 0, false, false)], 0, 2, [];
    }

    /** define_policy at the start of a pass. */
    method DefinePolicy()
      modifies this
      ensures Now() == Restarted(old(Now()))
    {
      nextId := 2;
      stack := [Frame(0, 0, false, false)];
      lastBlock := 0;
      path := [];
    }

    /** begin_optional; not ok means that its assertion fails. */
    method BeginOptional(pass: int) returns (ok: bool)
      requires Sound(Now())
      modifies this
      ensures ok <==> Begin(old(Now()), pass).Some?
      ensures Now() == if ok then Begin(old(Now()), pass).value else old(Now())
    {
      if pass == 1 {
        blocks := blocks[..lastBlock + 1] + [Block([Decl(nextId, {})])];
      } else {
        var next := lastBlock + 1;
        if !(next < |blocks| && blocks[next].decls != [] && blocks[next].decls[0].id == nextId) {
          return false;
        }
      }
      lastBlock := lastBlock + 1;
      stack := stack + [Frame(lastBlock, 0, false, false)];
      path := path + [Visit(lastBlock, 0, nextId)];
      nextId := nextId + 1;
      return true;
    }

    /** begin_optional_else. */
    method BeginOptionalElse(pass: int) returns (ok: bool)
      requires Sound(Now())
      modifies this
      ensures ok <==> BeginElse(old(Now()), pass).Some?
      ensures Now() == if ok then BeginElse(old(Now()), pass).value else old(Now())
    {
      var top := stack[|stack| - 1];
      var decls := blocks[top.block].decls;
      if top.inElse {
        return false;
      }
      if pass == 1 {
        blocks := blocks[top.block := Block(decls[..top.decl + 1] + [Decl(nextId, {})])];
      } else if !(top.decl + 2 == |decls| && decls[top.decl + 1].id == nextId) {
        return false;
      }
      stack := stack[|stack| - 1 := Frame(top.block, top.decl + 1, true, false)];
      path := path + [Visit(top.block, top.decl + 1, nextId)];
      nextId := nextId + 1;
      return true;
    }

    /** copy_requirements: down the stack, one frame at a time. */
    method CopyRequirements(top: Frame, depth: nat)
      requires depth <= |stack| && OnBlock(top, blocks)
      requires forall i :: 0 <= i < depth ==> OnBlock(stack[i], blocks) && stack[i].block != top.block
      modifies this`blocks
      ensures blocks == AddAt(old(blocks), top, Gathered(stack[..depth], old(blocks)))
      decreases depth
    {
      if depth == 0 {
        AddNothing(blocks[top.block], top.decl);
        return;
      }
      var f := stack[depth - 1];
      ghost var was := blocks;
      ghost var here, below := was[f.block].decls[f.decl].required, Gathered(stack[..depth - 1], was);
      assert stack[..depth][..depth - 1] == stack[..depth - 1];
      blocks := AddAt(blocks, top, blocks[f.block].decls[f.decl].required);
      GatheredElsewhere(stack[..depth - 1], was, blocks, top.block);
      AddTwice(was[top.block], top.decl, here, below);
      assert here + below == below + here;
      CopyRequirements(top, depth - 1);
    }

    /** end_avrule_block. */
    method EndBlock(pass: int) returns (ok: bool)
      requires Sound(Now())
      modifies this`blocks
      ensures ok <==> Close(old(Now()), pass, base).Some?
      ensures Now() == if ok then Close(old(Now()), pass, base).value else old(Now())
    {
      var top := stack[|stack| - 1];
      if pass == 2 {
        CopyRequirements(top, |stack| - 1);
        return true;
      }
      return top.inElse || top.requireGiven || (base && |stack| > 1);
    }

    /** A require statement. */
    method RequireSymbols(syms: set<Symbol>, pass: int) returns (ok: bool)
      requires Sound(Now())
      modifies this`blocks, this`stack
      ensures ok <==> Record(old(Now()), syms, pass).Some?
      ensures Now() == if ok then Record(old(Now()), syms, pass).value else old(Now())
    {
      var top := stack[|stack| - 1];
      if pass == 2 {
        return true;
      }
      if top.inElse {
        return false;
      }
      blocks := AddAt(blocks, top, syms);
      stack := stack[|stack| - 1 := top.(requireGiven := true)];
      return true;
    }

    /** end_optional. */
    method EndOptional() returns (ok: bool)
      modifies this`stack
      ensures ok <==> Pop(old(Now())).Some?
      ensures Now() == if ok then Pop(old(Now())).value else old(Now())
    {
      if |stack| < 2 {
        return false;
      }
      stack := stack[..|stack| - 1];
      return true;
    }

    /** The parser's actions on the contents of a block. */
    method Contents(b: Body, pass: int) returns (ok: bool)
      requires Sound(Now())
      modifies this
      ensures ok <==> Parse(b, old(Now()), pass, base).Some?
      ensures ok ==> Now() == Parse(b, old(Now()), pass, base).value
      decreases Size(b), 1
    {
      hide ParseOptional, Record, Sound;
      match b
      case Done => return true;
      case Require(syms, rest) =>
        SoundRecord(Now(), syms, pass);
        ok := RequireSymbols(syms, pass);
        if ok {
          ok := Contents(rest, pass);
        }
      case Optional(main, alt, rest) =>
        ok := OptionalBlock(main, alt, pass);
        if ok {
          ok := Contents(rest, pass);
        }
    }

    method OptionalBlock(main: Body, alt: Alt, pass: int) returns (ok: bool)
      requires Sound(Now())
      modifies this
      ensures ok <==> ParseOptional(main, alt, old(Now()), pass, base).Some?
      ensures ok ==> Now() == ParseOptional(main, alt, old(Now()), pass, base).value
      decreases 1 + Size(main) + SizeAlt(alt), 0
    {
      hide Parse, Begin, BeginElse, Pop, Close, Sound;
      SoundBegin(Now(), pass);
      ok := BeginOptional(pass);
      if ok {
        ok := Branch(main, pass);
        if ok && alt.Else? {
          SoundBeginElse(Now(), pass);
          ok := BeginOptionalElse(pass);
          if ok {
            ok := Branch(alt.body, pass);
          }
        }
        if ok {
          ok := EndOptional();
        }
      }
    }

    method Branch(b: Body, pass: int) returns (ok: bool)
      requires Sound(Now())
      modifies this
      ensures ok <==> ParseBranch(b, old(Now()), pass, base).Some?
      ensures ok ==> Now() == ParseBranch(b, old(Now()), pass, base).value
      decreases Size(b), 2
    {
      hide Parse, Close, Sound;
      ok := Contents(b, pass);
      if ok {
        ok := EndBlock(pass);
      }
    }
  }

  /** The global block of a module must hold a require, as its optional blocks must. */
  lemma ModuleEnds(b: Body)
    ensures Sound(START) && Sound(Built(START, b)) ==>
              Close(Built(START, b), 1, false) == if HasRequire(b) then Some(Built(START, b)) else None
  {
  }

  /** The global block has no surroundings to inherit from. */
  lemma GlobalInheritsNothing(s: State, base: bool)
    requires Sound(s) && s.stack == [Frame(0, 0, false, false)]
    ensures Close(s, 2, base) == Some(s)
  {
    assert Below(s) == [] && OnBlock(s.stack[0], s.blocks);
    AddNothing(s.blocks[0], 0);
    assert s.blocks[0 := s.blocks[0]] == s.blocks;
  }

  /** Both passes over a policy: which texts are accepted, and the blocks that are left at the end. */
  method CompilePolicy(b: Body, base: bool) returns (ok: bool, blocks: seq<Block>)
    ensures ok <==> Accepted(b, false, base) && (base || HasRequire(b))
    ensures ok ==> blocks == [Block([Decl(1, Own(b))])] + Made(b, 2, Own(b), true)
  {
    hide Parse, Made, Path, Own, Accepted, Count, Width, HasRequire, Close, Built;
    TwoPasses(b, base);
    ModuleEnds(b);
    blocks := [];
    var compiler := new Compiler(base);
    ok := compiler.Contents(b, 1);
    if ok && !base {
      ok := compiler.EndBlock(1);
    }
    if ok {
      compiler.DefinePolicy();
      ok := compiler.Contents(b, 2);
      if !base {
        GlobalInheritsNothing(compiler.Now(), base);
        ok := compiler.EndBlock(2);
      }
      blocks := compiler.blocks;
    }
  }
}
