/** The other direction: what a request needs is also enough (internal/secrets/handler.go:147-185,
    312-354).  A request that finds its challenge live, its sandbox bound, its token signed and its
    sandbox's history fitting one entry of the allowlist is granted that entry. */
module ReleaseReaches {
  import opened Bytes
  import opened Wrappers
  import opened Allowlist
  import opened Grants
  import opened Matching
  import opened ContainerKey
  import opened Release
  import CachedPolicy
  import Challenges = ChallengeStore
  import Decision = Explain
  import History
  import Ledger
  import Normalise
  import ReleaseGrants
  import ReleaseHistory
  import Sorting

  // ---- running on from a state ----

  ghost function Run(c: Config, s: State, steps: seq<Step>): (s': State)
    requires Started(s)
    ensures Started(s')
    decreases |steps|
  {
    if steps == [] then s else Run(c, Apply(c, s, steps[0]), steps[1..])
  }

  lemma {:induction false} ExecRun(c: Config, before: seq<Step>, steps: seq<Step>)
    ensures Exec(c, before + steps) == Run(c, Exec(c, before), steps)
    decreases |steps|
  {
    if steps == [] {
      assert before + steps == before;
    } else {
      var longer := before + [steps[0]];
      assert longer[..|longer| - 1] == before && before + steps == longer + steps[1..];
      ExecRun(c, longer, steps[1..]);
    }
  }

  // ---- the policy cache answers ----

  /** An undisturbed call returns the present document. */
  lemma CallReturns(s: CachedPolicy.State, t: nat, key: Normalise.Rendering)
    requires CachedPolicy.Inv(s) && t !in s.threads && s.holder == None
    ensures var s1 := CachedPolicy.Apply(s, CachedPolicy.ReadVersion(t), key);
            var s2 := CachedPolicy.Apply(s1, CachedPolicy.Compare(t), key);
            var s3 := CachedPolicy.Apply(s2, CachedPolicy.Load(t, true), key);
            var now := CachedPolicy.Now(s);
            var answers := s.answers + [CachedPolicy.Answer(now, now, s.history[now].0)];
            && t in s1.threads && s1.answers == s.answers
            && (if t in s2.threads then s2.answers == s.answers && t !in s3.threads && s3.answers == answers
                else s2.answers == answers)
  {
    var now := CachedPolicy.Now(s);
    var read := s.history[now].1;
    if CachedPolicy.Hit(s.cached, s.version, read) {
      CachedPolicy.SameVersion(s.history, s.cached.value, s.version, now);
    }
  }

  // ---- the request ----

  /** The place's record at present. */
  ghost predicate Holds(s: State, place: Place, log: seq<History.Admission>)
    requires Started(s)
  {
    place in s.inventories[Present(s)] && s.inventories[Present(s)][place] == log
  }

  /** Nothing is in the way of request r. */
  ghost predicate CanAuthorise(c: Config, s: State, t: nat, r: Request, host: bytes) {
    && t !in s.threads && t !in s.policy.threads && Unforged(s, r) && CanonicalSecretPath(r.path).Ok?
    && Challenges.Consume(s.challenges, r.challenge, s.now, c.challengeTTL).1
    && r.sandboxID != [] && Ledger.LookedUp(Bindings(c, s.ledger), r.sandboxID, s.now) == Some(host) && c.allowed(host)
    && host in s.keys && TokenFor(c, r, host, s.keys[host])
  }

  function Asking(t: nat, r: Request): seq<Step> {
    [Authorise(t, Begin(r)), Authorise(t, Consume), Authorise(t, Lookup), Authorise(t, Verify)]
  }

  /** Only the challenges and the request's own place have changed. */
  ghost predicate Reached(s: State, s': State, t: nat, pc: Pc) {
    && s'.threads == s.threads[t := pc] && s'.policy == s.policy && s'.inventories == s.inventories
    && s'.now == s.now && s'.ledger == s.ledger && s'.keys == s.keys
  }

  lemma Arrives(c: Config, s: State, t: nat, r: Request, host: bytes)
    requires Started(s) && CanAuthorise(c, s, t, r, host)
    ensures var s' := Apply(c, s, Authorise(t, Begin(r)));
            Reached(s, s', t, Arrived(r)) && s'.challenges == s.challenges
  {
  }

  lemma Consumes(c: Config, s: State, t: nat, r: Request)
    requires Started(s) && t in s.threads && s.threads[t] == Arrived(r) && CanonicalSecretPath(r.path).Ok?
    requires Challenges.Consume(s.challenges, r.challenge, s.now, c.challengeTTL).1
    ensures Reached(s, Apply(c, s, Authorise(t, Consume)), t, Fresh(r))
  {
  }

  lemma LooksUp(c: Config, s: State, t: nat, r: Request, host: bytes)
    requires Started(s) && t in s.threads && s.threads[t] == Fresh(r) && r.sandboxID != [] && c.allowed(host)
    requires Ledger.LookedUp(Bindings(c, s.ledger), r.sandboxID, s.now) == Some(host)
    ensures Reached(s, Apply(c, s, Authorise(t, Lookup)), t, Bound(r, host, |s.ledger|, s.now))
  {
  }

  lemma Verifies(c: Config, s: State, t: nat, r: Request, host: bytes, looked: nat, at: Time)
    requires Started(s) && t in s.threads && s.threads[t] == Bound(r, host, looked, at)
    requires host in s.keys && TokenFor(c, r, host, s.keys[host])
    ensures Reached(s, Apply(c, s, Authorise(t, Verify)), t, Authorised(r, host, CachedPolicy.Now(s.policy)))
  {
  }

  lemma ReachedOn(s: State, s': State, s'': State, t: nat, pc: Pc, pc': Pc)
    requires Reached(s, s', t, pc) && Reached(s', s'', t, pc')
    ensures Reached(s, s'', t, pc')
  {
    assert s.threads[t := pc][t := pc'] == s.threads[t := pc'];
  }

  lemma BecomesFresh(c: Config, s: State, t: nat, r: Request, host: bytes)
    requires Started(s) && CanAuthorise(c, s, t, r, host)
    ensures Reached(s, Apply(c, Apply(c, s, Authorise(t, Begin(r))), Authorise(t, Consume)), t, Fresh(r))
  {
    var s1 := Apply(c, s, Authorise(t, Begin(r)));
    Arrives(c, s, t, r, host);
    Consumes(c, s1, t, r);
    ReachedOn(s, s1, Apply(c, s1, Authorise(t, Consume)), t, Arrived(r), Fresh(r));
  }

  lemma BecomesAuthorised(c: Config, s: State, t: nat, r: Request, host: bytes)
    requires Started(s) && t in s.threads && s.threads[t] == Fresh(r) && r.sandboxID != [] && c.allowed(host)
    requires Ledger.LookedUp(Bindings(c, s.ledger), r.sandboxID, s.now) == Some(host)
    requires host in s.keys && TokenFor(c, r, host, s.keys[host])
    ensures Reached(s, Apply(c, Apply(c, s, Authorise(t, Lookup)), Authorise(t, Verify)), t,
                    Authorised(r, host, CachedPolicy.Now(s.policy)))
  {
    var s1, pc := Apply(c, s, Authorise(t, Lookup)), Bound(r, host, |s.ledger|, s.now);
    LooksUp(c, s, t, r, host);
    Verifies(c, s1, t, r, host, |s.ledger|, s.now);
    ReachedOn(s, s1, Apply(c, s1, Authorise(t, Verify)), t, pc, Authorised(r, host, CachedPolicy.Now(s.policy)));
  }

  lemma RunStep(c: Config, s: State, a: Step, rest: seq<Step>)
    requires Started(s)
    ensures Run(c, s, [a] + rest) == Run(c, Apply(c, s, a), rest)
  {
    assert ([a] + rest)[1..] == rest;
  }

  lemma RunThree(c: Config, s: State, a: Step, b: Step, d: Step)
    requires Started(s)
    ensures Run(c, s, [a, b, d]) == Apply(c, Apply(c, Apply(c, s, a), b), d)
  {
    assert [a, b, d] == [a] + [b, d] && [b, d] == [b] + [d] && [d] == [d] + [];
    RunStep(c, s, a, [b, d]);
    RunStep(c, Apply(c, s, a), b, [d]);
    RunStep(c, Apply(c, Apply(c, s, a), b), d, []);
  }

  lemma Authorises(c: Config, s: State, t: nat, r: Request, host: bytes)
    requires Started(s) && CanAuthorise(c, s, t, r, host)
    ensures Reached(s, Run(c, s, Asking(t, r)), t, Authorised(r, host, CachedPolicy.Now(s.policy)))
  {
    var steps := Asking(t, r);
    var s1 := Apply(c, s, steps[0]);
    var s2 := Apply(c, s1, steps[1]);
    BecomesFresh(c, s, t, r, host);
    BecomesAuthorised(c, s2, t, r, host);
    ReachedOn(s, s2, Apply(c, Apply(c, s2, steps[2]), steps[3]), t, Fresh(r),
              Authorised(r, host, CachedPolicy.Now(s.policy)));
    assert steps == [steps[0]] + [steps[1], steps[2], steps[3]];
    RunStep(c, s, steps[0], [steps[1], steps[2], steps[3]]);
    RunThree(c, s1, steps[1], steps[2], steps[3]);
  }

  function Loading(t: nat): seq<Step> {
    [Decide(Policy(CachedPolicy.ReadVersion(t))), Decide(Policy(CachedPolicy.Compare(t))),
     Decide(Policy(CachedPolicy.Load(t, true)))]
  }

  /** What a step of an authorised request's own call does to it. */
  lemma PolicyStepIs(c: Config, s: State, step: CachedPolicy.Step, t: nat)
    requires Started(s) && !step.Mutate? && step.thread == t && t in s.threads && s.threads[t].Authorised?
    ensures var p, pc := CachedPolicy.Apply(s.policy, step, c.key), s.threads[t];
            PolicyStep(c, s, step) ==
            if t !in s.policy.threads || t in p.threads then s.(policy := p)
            else if |p.answers| == |s.policy.answers| then Moved(s.(policy := p), t, Denied)
            else Moved(s.(policy := p), t,
              Ready(pc.request, pc.host, pc.since, p.answers[|s.policy.answers|], Present(s)))
  {
  }

  /** The request's call has returned the present document. */
  ghost predicate Loaded(s: State, s': State, t: nat, pc: Pc)
    requires Started(s)
  {
    var now := CachedPolicy.Now(s.policy);
    && pc.Authorised? && s'.inventories == s.inventories
    && s'.threads == s.threads[t := Ready(pc.request, pc.host, pc.since,
                                          CachedPolicy.Answer(now, now, s.policy.history[now].0), Present(s))]
  }

  lemma Loads(c: Config, s: State, t: nat)
    requires Started(s) && t in s.threads && s.threads[t].Authorised?
    requires CachedPolicy.Inv(s.policy) && t !in s.policy.threads && s.policy.holder == None
    ensures var s1 := PolicyStep(c, s, CachedPolicy.ReadVersion(t));
            && Started(s1)
            && var s2 := PolicyStep(c, s1, CachedPolicy.Compare(t));
            && Started(s2) && Loaded(s, PolicyStep(c, s2, CachedPolicy.Load(t, true)), t, s.threads[t])
  {
    CallReturns(s.policy, t, c.key);
    PolicyStepIs(c, s, CachedPolicy.ReadVersion(t), t);
    var s1 := PolicyStep(c, s, CachedPolicy.ReadVersion(t));
    PolicyStepIs(c, s1, CachedPolicy.Compare(t), t);
    var s2 := PolicyStep(c, s1, CachedPolicy.Compare(t));
    if t in s2.policy.threads { PolicyStepIs(c, s2, CachedPolicy.Load(t, true), t); }
  }

  lemma LoadingLoads(c: Config, s: State, t: nat)
    requires Started(s) && t in s.threads && s.threads[t].Authorised?
    requires CachedPolicy.Inv(s.policy) && t !in s.policy.threads && s.policy.holder == None
    ensures Loaded(s, Run(c, s, Loading(t)), t, s.threads[t])
  {
    Loads(c, s, t);
    RunThree(c, s, Loading(t)[0], Loading(t)[1], Loading(t)[2]);
  }

  lemma OneRelease(c: Config, ws: Workloads, report: seq<SandboxContainer>, name: bytes, g: SecretsPolicy, other: bytes)
    requires Decision.Released(c.hashing, ws, report, name, g) && Releases(c, ws, report, other)
    ensures other == name
  {
    OutcomeDetermined(c.hashing, ws, Candidates(ws, report), Unique(name), Unique(other));
  }

  lemma Fetches(c: Config, s: State, t: nat, log: seq<History.Admission>, digests: seq<bytes>,
                report: seq<SandboxContainer>, name: bytes, g: SecretsPolicy)
    requires Started(s) && t in s.threads && s.threads[t].Ready?
    requires var pc := s.threads[t];
             && Holds(s, (pc.host, pc.request.sandboxID), log) && Snapshots(c, log, digests, report)
             && Decision.Released(c.hashing, pc.answer.document, report, name, g)
    ensures var pc := s.threads[t];
            Apply(c, s, Decide(Fetch(t, digests, report))) ==
            Moved(s, t, Granted(pc.request, pc.host, pc.since, pc.answer, pc.asked, Present(s), report, name))
  {
    var pc := s.threads[t];
    assert Releases(c, pc.answer.document, report, name);
    var end := Decided(c, pc, Present(s), report);
    OneRelease(c, pc.answer.document, report, name, g, end.workload);
  }

  // ---- a snapshot can be had ----

  lemma {:induction false} Enumerated(byKey: map<bytes, SandboxContainer>, todo: set<bytes>)
    returns (keys: seq<bytes>, containers: seq<SandboxContainer>)
    requires todo <= byKey.Keys
    ensures History.Lists(byKey, keys, containers) && forall k :: k in keys <==> k in todo
    decreases |todo|
  {
    if todo == {} {
      keys, containers := [], [];
    } else {
      var k :| k in todo;
      keys, containers := Enumerated(byKey, todo - {k});
      History.ListsGrows(byKey, keys, containers, k);
      keys, containers := keys + [k], containers + [byKey[k]];
    }
  }

  lemma SnapshotExists(byKey: map<bytes, SandboxContainer>, p: Printable)
    returns (ds: seq<bytes>, cs: seq<SandboxContainer>)
    requires History.Consistent(byKey, p)
    ensures History.IsSnapshot(byKey, ds, cs, p)
  {
    var keys, containers := Enumerated(byKey, byKey.Keys);
    var digests := seq(|containers|, i requires 0 <= i < |containers| => containers[i].digest);
    assert History.Walked(byKey, digests, containers);
    History.SnapshotSorts(byKey, digests, containers, p);
    ds, cs := Sorting.Compact(Sorting.Sort(digests, Sorting.LexLeq)), Sorting.Sort(containers, History.Leq(p));
  }

  lemma ReportExists(c: Config, log: seq<History.Admission>) returns (ds: seq<bytes>, cs: seq<SandboxContainer>)
    requires forall id :: !History.Pending(log, id)
    ensures Snapshots(c, log, ds, cs)
  {
    var (byKey, unresolved) := History.After(log, c.printable);
    var any := SandboxContainer([], None, None, None);
    forall id ensures id !in unresolved { History.HistoryIsTheSet(log, c.printable, any, id); }
    History.HistoryIsTheSet(log, c.printable, any, []);
    ds, cs := SnapshotExists(byKey, c.printable);
  }

  // ---- what is needed is enough ----

  /** The present allowlist and the record of the request's sandbox at its host release an entry. */
  ghost predicate CanGrant(c: Config, s: State, t: nat, r: Request, host: bytes, log: seq<History.Admission>,
                           name: bytes, g: SecretsPolicy)
  {
    && Started(s) && CanAuthorise(c, s, t, r, host) && s.policy.holder == None
    && Holds(s, (host, r.sandboxID), log) && (forall id :: !History.Pending(log, id))
    && ReleaseHistory.HistoryReleases(c.hashing, s.policy.history[CachedPolicy.Now(s.policy)].0, log, name, g)
  }

  function Attempt(t: nat, r: Request, digests: seq<bytes>, report: seq<SandboxContainer>): seq<Step> {
    Asking(t, r) + Loading(t) + [Decide(Fetch(t, digests, report))]
  }

  /** The request is granted the entry, for the host that the ledger held. */
  ghost predicate GrantedTo(s: State, t: nat, r: Request, host: bytes, name: bytes) {
    && t in s.threads && s.threads[t].Granted?
    && s.threads[t].request == r && s.threads[t].host == host && s.threads[t].workload == name
  }

  lemma AskingAndLoading(c: Config, s: State, t: nat, r: Request, host: bytes)
    requires Started(s) && CanAuthorise(c, s, t, r, host) && CachedPolicy.Inv(s.policy) && s.policy.holder == None
    ensures var s' := Run(c, Run(c, s, Asking(t, r)), Loading(t));
            && s'.inventories == s.inventories && t in s'.threads && s'.threads[t].Ready?
            && s'.threads[t].request == r && s'.threads[t].host == host
            && s'.threads[t].answer.document == s.policy.history[CachedPolicy.Now(s.policy)].0
  {
    Authorises(c, s, t, r, host);
    LoadingLoads(c, Run(c, s, Asking(t, r)), t);
  }

  lemma RunAttempt(c: Config, steps: seq<Step>, t: nat, r: Request, digests: seq<bytes>, report: seq<SandboxContainer>)
    ensures var s := Exec(c, steps);
            Exec(c, steps + Attempt(t, r, digests, report)) ==
            Apply(c, Run(c, Run(c, s, Asking(t, r)), Loading(t)), Decide(Fetch(t, digests, report)))
  {
    var a, b, f := Asking(t, r), Loading(t), Decide(Fetch(t, digests, report));
    assert steps + Attempt(t, r, digests, report) == ((steps + a) + b) + [f];
    ExecRun(c, steps, a);
    ExecRun(c, steps + a, b);
    ExecRun(c, (steps + a) + b, [f]);
    assert [f][1..] == [];
  }

  /** After any run, a request that finds everything in place is granted the entry. */
  lemma FittingRequestIsGranted(c: Config, steps: seq<Step>, t: nat, r: Request, host: bytes,
                                log: seq<History.Admission>, name: bytes, g: SecretsPolicy)
    returns (digests: seq<bytes>, report: seq<SandboxContainer>)
    requires CanGrant(c, Exec(c, steps), t, r, host, log, name, g)
    ensures GrantedTo(Exec(c, steps + Attempt(t, r, digests, report)), t, r, host, name)
  {
    var s := Exec(c, steps);
    var ws := s.policy.history[CachedPolicy.Now(s.policy)].0;
    digests, report := ReportExists(c, log);
    ReleaseHistory.ReleasedIffHistory(c.hashing, ws, log, digests, report, c.printable, name, g);
    ReleaseGrants.GrantsAlways(c, steps);
    AskingAndLoading(c, s, t, r, host);
    Fetches(c, Run(c, Run(c, s, Asking(t, r)), Loading(t)), t, log, digests, report, name, g);
    RunAttempt(c, steps, t, r, digests, report);
  }
}
