/** Over every run of the release machine each challenge authorises at most one request
    (internal/secrets/handler.go:147-164). */
module ReleaseOnce {
  import opened Wrappers
  import opened Release
  import Challenges = ChallengeStore

  // ---- each challenge once ----

  /** Still on the way to an authorisation, with its challenge consumed. */
  predicate Pending(pc: Pc) {
    pc.Fresh? || pc.Bound?
  }

  ghost predicate ChallengesOwned(s: State) {
    && (forall k | k in s.challenges.challenges :: k in s.minted && k !in s.owner)
    && (forall k | k in s.owner :: k in s.minted)
  }

  ghost predicate PendingOwn(s: State) {
    forall t | t in s.threads && Pending(s.threads[t]) ::
      s.threads[t].request.challenge in s.owner && s.owner[s.threads[t].request.challenge] == t
  }

  ghost predicate LogOwned(s: State) {
    forall i | 0 <= i < |s.log| ::
      && s.log[i].request.challenge in s.owner && s.owner[s.log[i].request.challenge] == s.log[i].thread
      && s.log[i].thread in s.threads && !Pending(s.threads[s.log[i].thread]) && !s.threads[s.log[i].thread].Arrived?
  }

  ghost predicate LogOnce(s: State) {
    forall i, j | 0 <= i < j < |s.log| :: s.log[i].thread != s.log[j].thread
  }

  ghost predicate OwnInv(s: State) {
    ChallengesOwned(s) && PendingOwn(s) && LogOwned(s) && LogOnce(s)
  }

  lemma {:induction false} DropExpiredKeys(st: Challenges.Store, now: Time, ttl: int)
    ensures Challenges.DropExpired(st, now, ttl).challenges.Keys <= st.challenges.Keys
    decreases |st.issued|
  {
    if st.issued != [] && !Challenges.IsLive(st.challenges, st.issued[0], now, ttl) {
      DropExpiredKeys(Challenges.DropOldest(st), now, ttl);
    }
  }

  lemma CreateKeys(st: Challenges.Store, key: Challenges.Key, now: Time, ttl: int)
    ensures Challenges.Create(st, key, now, ttl).challenges.Keys <= st.challenges.Keys + {key}
  {
    DropExpiredKeys(st, now, ttl);
  }

  lemma MintKeepsOwn(c: Config, s: State, k: Challenges.Key)
    requires OwnInv(s) && Started(s)
    ensures OwnInv(WorldMove(c, s, Mint(k)))
  {
    CreateKeys(s.challenges, k, s.now, c.challengeTTL);
    var s' := WorldMove(c, s, Mint(k));
    forall x | x in s'.challenges.challenges ensures x in s'.minted && x !in s'.owner {
      assert x in s'.challenges.challenges.Keys;
    }
  }

  /** A request ends or moves on with its challenge still its own. */
  lemma MoveKeepsOwn(s: State, s': State, t: nat, pc: Pc)
    requires OwnInv(s) && t in s.threads && !pc.Arrived?
    requires s'.threads == s.threads[t := pc] && s'.log == s.log && s'.owner == s.owner && s'.minted == s.minted
    requires s'.challenges.challenges.Keys <= s.challenges.challenges.Keys
    requires Pending(pc) ==> Pending(s.threads[t]) && pc.request == s.threads[t].request
    ensures OwnInv(s')
  {
    forall k | k in s'.challenges.challenges ensures k in s'.minted && k !in s'.owner {
      assert k in s'.challenges.challenges.Keys;
    }
    forall i | 0 <= i < |s.log| ensures s.log[i].thread != t || !Pending(pc) { }
  }

  lemma TakeKeepsOwn(s: State, s': State, t: nat, r: Request)
    requires OwnInv(s) && t in s.threads && s.threads[t] == Arrived(r) && r.challenge in s.challenges.challenges
    requires s' == s.(challenges := s'.challenges, owner := s.owner[r.challenge := t],
             threads := s.threads[t := Fresh(r)])
    requires s'.challenges.challenges.Keys == s.challenges.challenges.Keys - {r.challenge}
    ensures OwnInv(s')
  {
    forall k | k in s'.challenges.challenges ensures k in s'.minted && k !in s'.owner {
      assert k in s'.challenges.challenges.Keys;
    }
    forall i | 0 <= i < |s.log| ensures s.log[i].request.challenge != r.challenge && s.log[i].thread != t { }
  }

  lemma ConsumeKeepsOwn(c: Config, s: State, t: nat)
    requires OwnInv(s) && t in s.threads && s.threads[t].Arrived?
    ensures OwnInv(ConsumeStep(c, s, t, s.threads[t].request))
  {
    var r, s' := s.threads[t].request, ConsumeStep(c, s, t, s.threads[t].request);
    if s'.threads[t].Denied? { MoveKeepsOwn(s, s', t, Denied); } else { TakeKeepsOwn(s, s', t, r); }
  }

  lemma LookupKeepsOwn(c: Config, s: State, t: nat)
    requires OwnInv(s) && t in s.threads && s.threads[t].Fresh?
    ensures OwnInv(LookupStep(c, s, t, s.threads[t].request))
  {
    var s' := LookupStep(c, s, t, s.threads[t].request);
    MoveKeepsOwn(s, s', t, s'.threads[t]);
  }

  lemma VerifyKeepsOwn(c: Config, s: State, t: nat)
    requires OwnInv(s) && Started(s) && t in s.threads && s.threads[t].Bound?
    ensures OwnInv(VerifyStep(c, s, t, s.threads[t]))
  {
    var s' := VerifyStep(c, s, t, s.threads[t]);
    MoveKeepsOwn(s, s'.(log := s.log), t, s'.threads[t]);
    assert forall i | 0 <= i < |s.log| :: s.log[i].thread != t;
  }

  lemma RequestKeepsOwn(c: Config, s: State, t: nat, step: RequestStep)
    requires OwnInv(s) && Started(s)
    ensures OwnInv(RequestMove(c, s, t, step))
  {
    if t in s.threads {
      if step.Consume? && s.threads[t].Arrived? { ConsumeKeepsOwn(c, s, t); }
      if step.Lookup? && s.threads[t].Fresh? { LookupKeepsOwn(c, s, t); }
      if step.Verify? && s.threads[t].Bound? { VerifyKeepsOwn(c, s, t); }
    }
  }

  lemma WorldKeepsOwn(c: Config, s: State, step: WorldStep)
    requires OwnInv(s) && Started(s)
    ensures OwnInv(WorldMove(c, s, step))
  {
    if step.Mint? { MintKeepsOwn(c, s, step.challenge); }
  }

  lemma DecisionKeepsOwn(c: Config, s: State, step: DecisionStep)
    requires OwnInv(s) && Started(s)
    ensures OwnInv(DecisionMove(c, s, step))
  {
    DecisionMoves(c, s, step);
  }

  lemma StepKeepsOwn(c: Config, s: State, step: Step)
    requires OwnInv(s) && Started(s)
    ensures OwnInv(Apply(c, s, step))
  {
    match step
    case World(event) => WorldKeepsOwn(c, s, event);
    case Authorise(t, move) => RequestKeepsOwn(c, s, t, move);
    case Decide(decision) => DecisionKeepsOwn(c, s, decision);
  }

  lemma {:induction false} OwnAlways(c: Config, steps: seq<Step>)
    ensures OwnInv(Exec(c, steps))
  {
    if steps != [] {
      OwnAlways(c, steps[..|steps| - 1]);
      StepKeepsOwn(c, Exec(c, steps[..|steps| - 1]), steps[|steps| - 1]);
    }
  }

  /** Every challenge authorises at most one request. */
  lemma ChallengeAuthorisesOnce(c: Config, steps: seq<Step>, i: nat, j: nat)
    requires i < j < |Exec(c, steps).log|
    ensures var log := Exec(c, steps).log; log[i].request.challenge != log[j].request.challenge
  {
    OwnAlways(c, steps);
  }
}
