/** What every grant rests on (internal/secrets/handler.go:312-354): an authorisation of its own, an
    allowlist the store held after it, and everything the bound inventory had admitted. */
module ReleaseGrants {
  import opened Bytes
  import opened Release
  import CachedPolicy
  import Ledger
  import Matching
  import ReleaseFacts
  import ReleaseOnce

  // ---- what holds of every request ----

  ghost predicate Logged(s: State, t: nat, r: Request, host: bytes) {
    exists i | 0 <= i < |s.log| :: s.log[i].thread == t && s.log[i].request == r && s.log[i].host == host
  }

  predicate Past(pc: Pc) {
    pc.Authorised? || pc.Ready? || pc.Granted?
  }

  /** The document was the store's at an instant after the authorisation. */
  ghost predicate PolicyOK(s: State, pc: Pc)
    requires pc.Ready? || pc.Granted?
  {
    pc.since <= pc.answer.from && CachedPolicy.DuringCall(s.policy.history, pc.answer) && pc.asked < |s.inventories|
  }

  /** The report is a snapshot, nothing unresolved, of what the bound host had recorded of the
      request's sandbox, taken after the policy was read; and it releases the entry. */
  ghost predicate ReportOK(c: Config, s: State, pc: Pc)
    requires pc.Granted?
  {
    var place := (pc.host, pc.request.sandboxID);
    && pc.asked <= pc.fetched < |s.inventories| && place in s.inventories[pc.fetched]
    && (exists ds :: Snapshots(c, s.inventories[pc.fetched][place], ds, pc.report))
    && Releases(c, pc.answer.document, pc.report, pc.workload)
  }

  ghost predicate StageOK(c: Config, s: State, t: nat, pc: Pc) {
    && (Past(pc) ==> Logged(s, t, pc.request, pc.host))
    && (pc.Authorised? ==> pc.since < |s.policy.history|)
    && (pc.Ready? ==> PolicyOK(s, pc))
    && (pc.Granted? ==> PolicyOK(s, pc) && ReportOK(c, s, pc))
  }

  /** A request inside the policy cache is authorised, and was before its call began. */
  ghost predicate CallsInv(s: State) {
    forall t | t in s.policy.threads && t in s.threads ::
      s.threads[t].Authorised? && s.threads[t].since <= s.policy.threads[t].from
  }

  ghost predicate GrantInv(c: Config, s: State) {
    CachedPolicy.Inv(s.policy) && CallsInv(s) && forall t | t in s.threads :: StageOK(c, s, t, s.threads[t])
  }

  // ---- it goes on holding ----

  ghost predicate Extends(s: State, s': State) {
    s.policy.history <= s'.policy.history && s.inventories <= s'.inventories && s.log <= s'.log
  }

  lemma LoggedStays(s: State, s': State, t: nat, r: Request, host: bytes)
    requires Logged(s, t, r, host) && s.log <= s'.log
    ensures Logged(s', t, r, host)
  {
    var i :| 0 <= i < |s.log| && s.log[i].thread == t && s.log[i].request == r && s.log[i].host == host;
    assert s'.log[i] == s.log[i];
  }

  lemma HeldStays(history: seq<(CachedPolicy.Document, nat)>, longer: seq<(CachedPolicy.Document, nat)>,
                  a: CachedPolicy.Answer)
    requires history <= longer && CachedPolicy.DuringCall(history, a)
    ensures CachedPolicy.DuringCall(longer, a)
  {
    var i :| a.from <= i <= a.until && history[i].0 == a.document;
    assert longer[i] == history[i];
  }

  lemma ReportStays(c: Config, s: State, s': State, pc: Pc)
    requires pc.Granted? && ReportOK(c, s, pc) && s.inventories <= s'.inventories
    ensures ReportOK(c, s', pc)
  {
    assert s'.inventories[pc.fetched] == s.inventories[pc.fetched];
  }

  lemma StageStays(c: Config, s: State, s': State, t: nat, pc: Pc)
    requires Extends(s, s') && StageOK(c, s, t, pc)
    ensures StageOK(c, s', t, pc)
  {
    if Past(pc) { LoggedStays(s, s', t, pc.request, pc.host); }
    if pc.Ready? || pc.Granted? { HeldStays(s.policy.history, s'.policy.history, pc.answer); }
    if pc.Granted? { ReportStays(c, s, s', pc); }
  }

  lemma OthersStay(c: Config, s: State, s': State, t: nat, pc: Pc)
    requires GrantInv(c, s) && Extends(s, s') && s'.threads == s.threads[t := pc] && StageOK(c, s', t, pc)
    ensures forall u | u in s'.threads :: StageOK(c, s', u, s'.threads[u])
  {
    forall u | u in s'.threads ensures StageOK(c, s', u, s'.threads[u]) {
      if u != t { StageStays(c, s, s', u, s.threads[u]); }
    }
  }

  lemma AllStay(c: Config, s: State, s': State)
    requires GrantInv(c, s) && Extends(s, s') && s'.threads == s.threads
    ensures forall u | u in s'.threads :: StageOK(c, s', u, s'.threads[u])
  {
    forall u | u in s'.threads ensures StageOK(c, s', u, s'.threads[u]) { StageStays(c, s, s', u, s.threads[u]); }
  }

  /** A request that is not in the policy cache moves. */
  lemma MoveKeepsGrants(c: Config, s: State, s': State, t: nat, pc: Pc)
    requires GrantInv(c, s) && Extends(s, s') && s'.policy == s.policy && s'.threads == s.threads[t := pc]
    requires t !in s.policy.threads && StageOK(c, s', t, pc)
    ensures GrantInv(c, s')
  {
    OthersStay(c, s, s', t, pc);
  }

  lemma WorldFrame(c: Config, s: State, step: WorldStep)
    requires Started(s)
    ensures var s' := WorldMove(c, s, step);
            s'.threads == s.threads && s'.policy == s.policy && s'.log == s.log && s.inventories <= s'.inventories
  {
  }

  lemma WorldKeepsGrants(c: Config, s: State, step: WorldStep)
    requires GrantInv(c, s) && Started(s)
    ensures GrantInv(c, WorldMove(c, s, step))
  {
    WorldFrame(c, s, step);
    AllStay(c, s, WorldMove(c, s, step));
  }

  // ---- the steps to an authorisation ----

  /** Not authorised yet, so outside the policy cache. */
  lemma EarlyKeepsGrants(c: Config, s: State, s': State, t: nat)
    requires GrantInv(c, s) && t in s.threads && !Past(s.threads[t])
    requires s'.policy == s.policy && s'.inventories == s.inventories && s'.log == s.log
    requires t in s'.threads && s'.threads == s.threads[t := s'.threads[t]] && !Past(s'.threads[t])
    ensures GrantInv(c, s')
  {
    MoveKeepsGrants(c, s, s', t, s'.threads[t]);
  }

  lemma ConsumeKeepsGrants(c: Config, s: State, t: nat)
    requires GrantInv(c, s) && t in s.threads && s.threads[t].Arrived?
    ensures GrantInv(c, ConsumeStep(c, s, t, s.threads[t].request))
  {
    EarlyKeepsGrants(c, s, ConsumeStep(c, s, t, s.threads[t].request), t);
  }

  lemma LookupKeepsGrants(c: Config, s: State, t: nat)
    requires GrantInv(c, s) && t in s.threads && s.threads[t].Fresh?
    ensures GrantInv(c, LookupStep(c, s, t, s.threads[t].request))
  {
    EarlyKeepsGrants(c, s, LookupStep(c, s, t, s.threads[t].request), t);
  }

  lemma VerifyKeepsGrants(c: Config, s: State, t: nat)
    requires GrantInv(c, s) && Started(s) && t in s.threads && s.threads[t].Bound?
    ensures GrantInv(c, VerifyStep(c, s, t, s.threads[t]))
  {
    var s' := VerifyStep(c, s, t, s.threads[t]);
    if s'.threads[t].Authorised? { assert s'.log[|s.log|].thread == t; }
    MoveKeepsGrants(c, s, s', t, s'.threads[t]);
  }

  lemma RequestKeepsGrants(c: Config, s: State, t: nat, step: RequestStep)
    requires GrantInv(c, s) && Started(s)
    ensures GrantInv(c, RequestMove(c, s, t, step))
  {
    if step.Begin? {
      if t !in s.policy.threads { MoveKeepsGrants(c, s, Moved(s, t, Arrived(step.request)), t, Arrived(step.request)); }
    } else if t in s.threads {
      if step.Consume? && s.threads[t].Arrived? { ConsumeKeepsGrants(c, s, t); }
      if step.Lookup? && s.threads[t].Fresh? { LookupKeepsGrants(c, s, t); }
      if step.Verify? && s.threads[t].Bound? { VerifyKeepsGrants(c, s, t); }
    }
  }

  // ---- the decision ----

  /** A call of the request's own ends. */
  lemma AnswerIsOK(c: Config, s: State, p: CachedPolicy.State, t: nat)
    requires GrantInv(c, s) && Started(s) && t in s.threads && s.threads[t].Authorised? && t in s.policy.threads &&
             t !in p.threads
    requires CachedPolicy.Inv(p) && CachedPolicy.CallMoves(s.policy, p, t) && |p.answers| != |s.policy.answers|
    ensures |p.answers| > |s.policy.answers|
    ensures var pc, s' := s.threads[t], s.(policy := p);
            StageOK(c, s', t, Ready(pc.request, pc.host, pc.since, p.answers[|s.policy.answers|], Present(s)))
  {
    var d :| p.answers == s.policy.answers +
      [CachedPolicy.Answer(s.policy.threads[t].from, CachedPolicy.Now(s.policy), d)];
    assert CachedPolicy.DuringCall(p.history, p.answers[|s.policy.answers|]);
    LoggedStays(s, s.(policy := p), t, s.threads[t].request, s.threads[t].host);
  }

  /** The caller aside, every request's call goes on as it was. */
  lemma CallsStay(c: Config, s: State, step: CachedPolicy.Step, u: nat)
    requires CallsInv(s) && Started(s) && u in s.threads && (step.Mutate? || u != step.thread)
    ensures var p := CachedPolicy.Apply(s.policy, step, c.key);
            u in p.threads ==> s.threads[u].Authorised? && s.threads[u].since <= p.threads[u].from
  {
    CachedPolicy.StepMoves(s.policy, step, c.key, u);
  }

  lemma CallerStays(c: Config, s: State, step: CachedPolicy.Step)
    requires GrantInv(c, s) && Started(s) && !step.Mutate? && step.thread in s.threads &&
             s.threads[step.thread].Authorised?
    ensures var p := CachedPolicy.Apply(s.policy, step, c.key);
            step.thread in p.threads ==> s.threads[step.thread].since <= p.threads[step.thread].from
  {
    CachedPolicy.StepMoves(s.policy, step, c.key, step.thread);
    assert StageOK(c, s, step.thread, s.threads[step.thread]);
  }

  /** The requests stay where they are while the cache and the store move. */
  lemma PolicyRuns(c: Config, s: State, step: CachedPolicy.Step)
    requires GrantInv(c, s) && Started(s)
    requires step.Mutate? || step.thread !in s.threads || s.threads[step.thread].Authorised?
    ensures GrantInv(c, s.(policy := CachedPolicy.Apply(s.policy, step, c.key)))
  {
    var p := CachedPolicy.Apply(s.policy, step, c.key);
    var s' := s.(policy := p);
    CachedPolicy.StepKeeps(s.policy, step, c.key);
    CachedPolicy.StepMoves(s.policy, step, c.key, 0);
    AllStay(c, s, s');
    forall u | u in p.threads && u in s.threads
      ensures s.threads[u].Authorised? && s.threads[u].since <= p.threads[u].from
    {
      if step.Mutate? || u != step.thread { CallsStay(c, s, step, u); } else { CallerStays(c, s, step); }
    }
  }

  lemma PolicyKeepsGrants(c: Config, s: State, step: CachedPolicy.Step)
    requires GrantInv(c, s) && Started(s)
    ensures GrantInv(c, PolicyStep(c, s, step))
  {
    if step.Mutate? || step.thread !in s.threads || s.threads[step.thread].Authorised? {
      PolicyRuns(c, s, step);
      var p := CachedPolicy.Apply(s.policy, step, c.key);
      if !step.Mutate? && step.thread in s.threads && step.thread in s.policy.threads && step.thread !in p.threads {
        var t, s' := step.thread, PolicyStep(c, s, step);
        if |p.answers| != |s.policy.answers| {
          CachedPolicy.StepMoves(s.policy, step, c.key, t);
          AnswerIsOK(c, s, p, t);
        }
        MoveKeepsGrants(c, s.(policy := p), s', t, s'.threads[t]);
      }
    }
  }

  lemma FetchKeepsGrants(c: Config, s: State, t: nat, digests: seq<bytes>, report: seq<Matching.SandboxContainer>)
    requires GrantInv(c, s) && Started(s) && t in s.threads && s.threads[t].Ready?
    ensures GrantInv(c, FetchStep(c, s, t, s.threads[t], digests, report))
  {
    var s' := FetchStep(c, s, t, s.threads[t], digests, report);
    if s' != s {
      assert StageOK(c, s, t, s.threads[t]);
      MoveKeepsGrants(c, s, s', t, s'.threads[t]);
    }
  }

  lemma DecisionKeepsGrants(c: Config, s: State, step: DecisionStep)
    requires GrantInv(c, s) && Started(s)
    ensures GrantInv(c, DecisionMove(c, s, step))
  {
    match step
    case Policy(p) => PolicyKeepsGrants(c, s, p);
    case Fetch(t, digests, report) =>
      if t in s.threads && s.threads[t].Ready? { FetchKeepsGrants(c, s, t, digests, report); }
    case PolicyFails(t) => if t !in s.policy.threads { MoveKeepsGrants(c, s, Moved(s, t, Denied), t, Denied); }
    case FetchFails(t) => if t !in s.policy.threads { MoveKeepsGrants(c, s, Moved(s, t, Denied), t, Denied); }
  }

  lemma {:induction false} GrantsAlways(c: Config, steps: seq<Step>)
    ensures GrantInv(c, Exec(c, steps))
  {
    if steps != [] {
      var s := Exec(c, steps[..|steps| - 1]);
      GrantsAlways(c, steps[..|steps| - 1]);
      match steps[|steps| - 1]
      case World(event) => WorldKeepsGrants(c, s, event);
      case Authorise(t, move) => RequestKeepsGrants(c, s, t, move);
      case Decide(decision) => DecisionKeepsGrants(c, s, decision);
    }
  }

  // ---- every grant ----

  ghost predicate HasGrant(c: Config, steps: seq<Step>, t: nat) {
    t in Exec(c, steps).threads && Exec(c, steps).threads[t].Granted?
  }

  lemma GrantAuthorised(c: Config, steps: seq<Step>, t: nat) returns (i: nat)
    requires HasGrant(c, steps, t)
    ensures var s := Exec(c, steps);
            i < |s.log| && s.log[i].thread == t && s.log[i].request == s.threads[t].request &&
              s.log[i].host == s.threads[t].host
  {
    GrantsAlways(c, steps);
    var s := Exec(c, steps);
    assert StageOK(c, s, t, s.threads[t]);
    i :| 0 <= i < |s.log| && s.log[i].thread == t && s.log[i].request == s.threads[t].request &&
      s.log[i].host == s.threads[t].host;
  }

  /** Every grant belongs to an authorisation of its own request by the host the ledger held for
      the sandbox (i); its allowlist was the store's at an instant after that (j); its report is
      that very host's record of that very sandbox, all of it, taken later still; and the grant is
      what the matching stage makes of the two. */
  lemma GrantsRestOnTheirHost(c: Config, steps: seq<Step>, t: nat) returns (i: nat, j: nat)
    requires HasGrant(c, steps, t)
    ensures var s := Exec(c, steps);
            var pc := s.threads[t];
            && i < |s.log| && s.log[i].thread == t && s.log[i].request == pc.request && s.log[i].host == pc.host
            && ReleaseFacts.SignedFor(c, s, s.log[i])
            && ReleaseFacts.LookedUpHost(c, s, pc.request, pc.host, s.log[i].looked, s.log[i].at)
            && Ledger.Vouched(s.ledger, c.ledgerTTL, c.ledgerMax, s.log[i].looked, pc.request.sandboxID, pc.host,
               s.log[i].at)
            && pc.since <= j < |s.policy.history| && s.policy.history[j].0 == pc.answer.document
            && ReportOK(c, s, pc)
  {
    i := GrantAuthorised(c, steps, t);
    GrantsAlways(c, steps);
    var s := Exec(c, steps);
    var pc := s.threads[t];
    assert StageOK(c, s, t, pc);
    ReleaseFacts.AuthorisedByBoundInventory(c, steps, i);
    j :| pc.answer.from <= j <= pc.answer.until && s.policy.history[j].0 == pc.answer.document;
  }

  /** No challenge and no token serves two grants. */
  lemma GrantsShareNothing(c: Config, steps: seq<Step>, t: nat, u: nat)
    requires HasGrant(c, steps, t) && HasGrant(c, steps, u) && t != u
    ensures var threads := Exec(c, steps).threads;
            && threads[t].request.challenge != threads[u].request.challenge
            && threads[t].request.token != threads[u].request.token
  {
    var i := GrantAuthorised(c, steps, t);
    var k := GrantAuthorised(c, steps, u);
    if i < k {
      ReleaseOnce.ChallengeAuthorisesOnce(c, steps, i, k);
      ReleaseFacts.TokenAuthorisesOnce(c, steps, i, k);
    } else {
      ReleaseOnce.ChallengeAuthorisesOnce(c, steps, k, i);
      ReleaseFacts.TokenAuthorisesOnce(c, steps, k, i);
    }
  }
}
