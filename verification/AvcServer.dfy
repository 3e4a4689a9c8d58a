/**
 What the access vector cache must not change: the outcomes of asking the
 security server, and how a cached entry may differ from the server's decision.
 */
module AvcServer {
  import opened BitMasks
  import opened Bits
  import opened AvcCache
  import opened Wrappers

  datatype Error = EINVAL | EACCES | EAGAIN | ENOMEM | OTHER

  /** What security_compute_av_flags_raw returns for a key. */
  datatype Answer = Answer(avd: Decision) | Refused(error: Error)

  type LiveSid = s: nat | s != 0 witness 1

  datatype Outcome = Granted | Created(sid: Sid) | Failed(error: Error)

  /** Everything a query depends on when there is no cache. */
  datatype Env = Env(server: Key -> Answer, create: Key -> Option<LiveSid>, pool: nat,
                     enforcing: bool, fixedMode: bool, latestNotif: u32)

  predicate Permissive(d: Decision) {
    d.flags & 1 == 1
  }

  /** Nothing was requested, or something that is not allowed. */
  predicate Denies(d: Decision, requested: bv32) {
    requested == 0 || requested & !d.allowed != 0
  }

  lemma NotContained(r: bv32, a: bv32)
    ensures r & !a != 0 <==> !Contained(r, a)
  {
    hide Contained;
    BeyondIsContained(r, a);
  }

  /** What is not denied: something, all of it allowed. */
  lemma DeniesMeaning(d: Decision, requested: bv32)
    ensures Denies(d, requested) <==> !(requested != 0 && Contained(requested, d.allowed))
  {
    hide Contained;
    NotContained(requested, d.allowed);
  }

  lemma PermissiveMeaning(d: Decision)
    ensures Permissive(d) <==> BitSet(d.flags, 0)
  {
  }

  /** What an entry must have decided to answer a request. */
  lemma CoversMeaning(d: Decision, requested: bv32)
    ensures Covers(d, requested) <==> Contained(requested, d.decided)
  {
    hide Contained, Includes;
    IncludesContained(d.decided, requested);
  }

  /** The verdict on a decision, without the widening. */
  function Verdict(d: Decision, requested: bv32, enforcing: bool): Outcome {
    if Denies(d, requested) && enforcing && !Permissive(d) then Failed(EACCES) else Granted
  }

  /** The server has a current decision for the key. */
  predicate Current(env: Env, key: Key) {
    env.server(key).Answer? && env.server(key).avd.seqno >= env.latestNotif
  }

  /** Asking the server directly; with an empty node pool there is nowhere to put its answer. */
  function Direct(env: Env, key: Key, requested: bv32): Outcome {
    match env.server(key)
    case Refused(error) => if error == EINVAL && !env.enforcing then Granted else Failed(error)
    case Answer(d) =>
      if d.seqno < env.latestNotif then Failed(EAGAIN)
      else if env.pool == 0 then Failed(ENOMEM)
      else Verdict(d, requested, env.enforcing)
  }

  /** The outcome of a query in terms of single permissions. */
  ghost predicate QueryLaw(env: Env, key: Key, requested: bv32, rc: Outcome) {
    match env.server(key)
    case Refused(error) => rc == if error == EINVAL && !env.enforcing then Granted else Failed(error)
    case Answer(d) =>
      if d.seqno < env.latestNotif then rc == Failed(EAGAIN)
      else if env.pool == 0 then rc == Failed(ENOMEM)
      else if !env.enforcing || BitSet(d.flags, 0) then rc == Granted
      else rc == if requested != 0 && Contained(requested, d.allowed) then Granted else Failed(EACCES)
  }

  /** While enforcing outside permissive domains, a request is granted exactly when it is not empty and each of its
      permissions is allowed. */
  lemma DirectLaw(env: Env, key: Key, requested: bv32)
    ensures QueryLaw(env, key, requested, Direct(env, key, requested))
  {
    hide Denies, Permissive, Contained, BitSet;
    if env.server(key).Answer? {
      DeniesMeaning(env.server(key).avd, requested);
      PermissiveMeaning(env.server(key).avd);
    }
  }

  /** Asking the server for the label of a new object. */
  function DirectCreate(env: Env, key: Key): Outcome {
    match env.server(key)
    case Refused(error) => Failed(error)
    case Answer(d) =>
      if d.seqno < env.latestNotif then Failed(EAGAIN)
      else if env.pool == 0 then Failed(ENOMEM)
      else if env.create(key).None? then Failed(OTHER)
      else Created(env.create(key).value)
  }

  // ---- what the cache owes the server ---------------------------------

  predicate AllowsAtLeast(a: bv32, b: bv32) {
    b & !a == 0
  }

  /** An entry is the server's current decision for its key; only outside enforcement may it allow more. */
  ghost predicate Faithful(e: Entry, env: Env) {
    && Current(env, e.key)
    && var d := env.server(e.key).avd;
    && e.avd == d.(allowed := e.avd.allowed)
    && AllowsAtLeast(e.avd.allowed, d.allowed)
    && (env.enforcing && !Permissive(d) ==> e.avd.allowed == d.allowed)
    && (e.createSid != 0 ==> env.create(e.key) == Some(e.createSid))
  }

  ghost predicate AllFaithful(c: Cache, env: Env) {
    forall n :: 0 <= n < |c.nodes| && c.nodes[n].key.ssid != 0 ==> Faithful(c.nodes[n], env)
  }

  lemma Widening(a: bv32, b: bv32, r: bv32)
    requires AllowsAtLeast(a, b)
    ensures AllowsAtLeast(a | r, b)
  {
  }

  lemma AllowsItself(a: bv32)
    ensures AllowsAtLeast(a, a)
  {
  }

  // ---- entries ---------------------------------------------------------

  /** A faithful entry leads to the server's verdict. */
  lemma EntryVerdict(e: Entry, requested: bv32, env: Env)
    requires Faithful(e, env) && env.pool > 0
    ensures Verdict(e.avd, requested, env.enforcing) == Direct(env, e.key, requested)
    ensures Permissive(e.avd) <==> Permissive(env.server(e.key).avd)
    ensures env.enforcing && !Permissive(e.avd) ==> e.avd == env.server(e.key).avd
  {
  }

  /** `ae->avd.allowed |= requested`. */
  function WithAllowed(d: Decision, requested: bv32): Decision {
    d.(allowed := d.allowed | requested)
  }

  function Widened(e: Entry, requested: bv32): Entry {
    e.(avd := WithAllowed(e.avd, requested))
  }

  lemma TouchFaithful(was: Cache, now: Cache, n: NodeId, env: Env)
    requires AllFaithful(was, env) && n < |was.nodes| && now == Amend(was, n, was.nodes[n].(used := true))
    ensures AllFaithful(now, env)
  {
  }

  lemma ClaimFaithful(was: Cache, now: Cache, claimed: Option<NodeId>, e: Entry, env: Env)
    requires AllFaithful(was, env) && |now.nodes| == |was.nodes|
    requires claimed.Some? ==> claimed.value < |now.nodes| && now.nodes[claimed.value] == e && Faithful(e, env)
    requires forall n :: 0 <= n < |now.nodes| && Some(n) != claimed ==>
               now.nodes[n] == was.nodes[n] || now.nodes[n] == was.nodes[n].(used := false)
    ensures AllFaithful(now, env)
  {
    forall n | 0 <= n < |now.nodes| && now.nodes[n].key.ssid != 0 ensures Faithful(now.nodes[n], env) {
      if Some(n) != claimed {
        assert Faithful(was.nodes[n], env);
      }
    }
  }

  lemma WidenedFaithful(e: Entry, requested: bv32, env: Env)
    requires Faithful(e, env) && (!env.enforcing || Permissive(e.avd))
    ensures Faithful(Widened(e, requested), env)
  {
    hide Permissive, AllowsAtLeast;
    Widening(e.avd.allowed, env.server(e.key).avd.allowed, requested);
  }

  lemma FaithfulIsCurrent(e: Entry, env: Env)
    requires Faithful(e, env)
    ensures Current(env, e.key)
  {
  }

  lemma WidenFaithful(c: Cache, n: NodeId, requested: bv32, env: Env)
    requires AllFaithful(c, env) && n < |c.nodes| && c.nodes[n].key.ssid != 0
    requires !env.enforcing || Permissive(c.nodes[n].avd)
    ensures Widened(c.nodes[n], requested).key == c.nodes[n].key
    ensures AllFaithful(Amend(c, n, Widened(c.nodes[n], requested)), env)
  {
    hide Faithful;
    WidenedFaithful(c.nodes[n], requested, env);
  }

  // ---- what enforcement rests on --------------------------------------

  lemma ExactMeansNoExtra(a: bv32)
    ensures a & !a == 0
  {
  }

  /** While enforcing, no cached entry without the permissive flag allows a bit the server did not return,
      and none is older than the latest notification. */
  lemma EnforcingNeverWidens(c: Cache, env: Env, n: NodeId)
    requires AllFaithful(c, env) && n < |c.nodes| && c.nodes[n].key.ssid != 0
    ensures env.server(c.nodes[n].key).Answer? && c.nodes[n].avd.seqno >= env.latestNotif
    ensures env.enforcing && !Permissive(c.nodes[n].avd) ==>
              c.nodes[n].avd.allowed & !env.server(c.nodes[n].key).avd.allowed == 0
  {
    assert Faithful(c.nodes[n], env);
    ExactMeansNoExtra(c.nodes[n].avd.allowed);
  }

  lemma CoversItself(a: bv32, r: bv32)
    ensures r & !(a | r) == 0
  {
  }

  lemma WidenedDeniesNothing(e: Entry, r: bv32)
    requires r != 0
    ensures !Denies(Widened(e, r).avd, r)
  {
    CoversItself(e.avd.allowed, r);
  }

  /** The flush on entering enforcement is needed: every denied query leaves, while permissive, an entry that is
      faithful then and would grant what the server denies if it survived the switch. */
  lemma SurvivorWouldGrant(e: Entry, requested: bv32, env: Env)
    requires !env.enforcing && env.pool > 0 && Faithful(e, env)
    requires requested != 0 && Denies(env.server(e.key).avd, requested) && !Permissive(env.server(e.key).avd)
    ensures Faithful(Widened(e, requested), env)
    ensures Verdict(Widened(e, requested).avd, requested, true) == Granted
    ensures Direct(env.(enforcing := true), e.key, requested) == Failed(EACCES)
  {
    hide Denies, Permissive, Widened, Faithful;
    WidenedFaithful(e, requested, env);
    WidenedDeniesNothing(e, requested);
    assert Current(env, e.key) by { FaithfulIsCurrent(e, env); }
  }

  // ---- runs without a cache --------------------------------------------

  datatype Op =
    | Query(key: Key, requested: bv32, handle: nat)
    | Create(key: Key)
    | SetEnforce(val: bool)
    | PolicyLoad(server: Key -> Answer, create: Key -> Option<LiveSid>, seqno: u32)
    | Flush

  /** Queries name a source; its context is read on a miss. */
  predicate SourceGiven(op: Op) {
    (op.Query? || op.Create?) ==> op.key.ssid != 0
  }

  /** What an operation does to the world outside the cache. */
  function EnvStep(env: Env, op: Op): Env {
    match op
    case SetEnforce(val) => if env.fixedMode then env else env.(enforcing := val)
    case PolicyLoad(server, create, seqno) =>
      env.(server := server, create := create, latestNotif := if seqno > env.latestNotif then seqno else env.latestNotif)
    case _ => env
  }

  /** The outcome of an operation when nothing is cached. */
  function DirectOutcome(env: Env, op: Op): Outcome {
    match op
    case Query(key, requested, _) => Direct(env, key, requested)
    case Create(key) => DirectCreate(env, key)
    case _ => Granted
  }

  function EnvAfter(env: Env, ops: seq<Op>): Env {
    if ops == [] then env else EnvStep(EnvAfter(env, ops[..|ops| - 1]), ops[|ops| - 1])
  }

  function DirectRun(env: Env, ops: seq<Op>): seq<Outcome> {
    if ops == [] then [] else
      DirectRun(env, ops[..|ops| - 1]) + [DirectOutcome(EnvAfter(env, ops[..|ops| - 1]), ops[|ops| - 1])]
  }

  lemma {:induction false} DirectRunLength(env: Env, ops: seq<Op>)
    ensures |DirectRun(env, ops)| == |ops|
  {
    hide DirectOutcome, EnvAfter;
    if ops != [] {
      DirectRunLength(env, ops[..|ops| - 1]);
    }
  }

  lemma {:induction false} DirectRunAt(env: Env, ops: seq<Op>, i: nat)
    requires i < |ops|
    ensures |DirectRun(env, ops)| == |ops| && DirectRun(env, ops)[i] == DirectOutcome(EnvAfter(env, ops[..i]), ops[i])
  {
    hide DirectOutcome, EnvAfter;
    var init := ops[..|ops| - 1];
    DirectRunLength(env, init);
    if i < |init| {
      DirectRunAt(env, init, i);
      assert init[..i] == ops[..i];
    }
  }

  /** Every query of a run meets the law, under the mode and the policy of its moment. */
  lemma RunLaw(env: Env, ops: seq<Op>, i: nat)
    requires i < |ops| && ops[i].Query?
    ensures |DirectRun(env, ops)| == |ops|
    ensures QueryLaw(EnvAfter(env, ops[..i]), ops[i].key, ops[i].requested, DirectRun(env, ops)[i])
  {
    hide Direct, QueryLaw, EnvAfter, DirectRun;
    DirectRunAt(env, ops, i);
    DirectLaw(EnvAfter(env, ops[..i]), ops[i].key, ops[i].requested);
  }
}
