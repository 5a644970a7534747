/** The fail-closed synchronous path: one attempt at a time, and what a handshake may be
    handed, over every interleaving (pkg/ratls/tls.go:256-428, 457-462). */
module CertSync {
  import opened Wrappers
  import opened CertState
  import opened CertMachine
  import CertRotation

  /** Between taking and giving back `inflight`. */
  predicate LeadsSync(pc: Pc) {
    match pc
    case Capturing(_, _) => true
    case Rechecking(_, _, _) => true
    case Finishing(_, _, _) => true
    case Provisioning(run, _, _) => run.SyncRun?
    case Checked(run, _, _, _, _, _) => run.SyncRun?
    case Installing(run, _, _, _, _, _, _) => run.SyncRun?
    case Clearing(run, _, _) => run.SyncRun?
    case _ => false
  }

  function AttemptOf(pc: Pc): nat
    requires LeadsSync(pc)
  {
    if InRun(pc) then pc.run.attempt else pc.attempt
  }

  /** An error-free outcome carries a certificate that was usable at a reading in [from, to]. */
  predicate GoodOutcome(o: Outcome, from: Time, to: Time) {
    o.err.None? ==> o.cert.Some? && Usable(o.cert.value, o.judged) && from <= o.judged <= to
  }

  predicate AttemptOk(a: Attempt, now: Time) {
    && a.startedAt <= now
    && (a.outcome.Some? ==> a.closedAt <= now && GoodOutcome(a.outcome.value, a.startedAt, a.closedAt))
  }

  /** What every return of getOrProvision satisfies: without an error, the certificate was
      judged inside its window at a reading of this call, or of the attempt it joined, which
      then was closed while the call was waiting. */
  predicate ReturnOk(e: Event) {
    e.HandshakeReturned? && e.outcome.err.None? ==>
      && e.outcome.cert.Some? && Usable(e.outcome.cert.value, e.outcome.judged) && e.entry <= e.at
      && match e.joined
         case None => e.entry <= e.outcome.judged <= e.at
         case Some(a) =>
           && a.outcome == Some(e.outcome) && a.startedAt <= e.outcome.judged <= a.closedAt
           && e.entry <= a.closedAt <= e.at
  }

  ghost predicate Owns(s: State, t: nat, k: nat, entry: Time) {
    && k in s.attempts && s.attempts[k].owner == t && s.attempts[k].outcome.None?
    && entry <= s.attempts[k].startedAt <= s.now
  }

  ghost predicate RunOk(s: State, t: nat, run: Run) {
    run.SyncRun? ==> Owns(s, t, run.attempt, run.entry)
  }

  ghost predicate CertOk(s: State, run: Run, cert: Cert, judged: Time) {
    run.SyncRun? ==>
      Usable(cert, judged) && judged <= s.now &&
      (run.attempt in s.attempts ==> s.attempts[run.attempt].startedAt <= judged)
  }

  ghost predicate PcOk(s: State, t: nat, pc: Pc) {
    match pc
    case Entered(entry) => entry <= s.now
    case Deciding(entry, _, _, _, _, _) => entry <= s.now
    case Requesting(entry, serving, _, _) => entry <= s.now && Usable(serving, entry)
    case SyncEntering(entry) => entry <= s.now
    case Joined(entry, k) =>
      entry <= s.now && k in s.attempts && (s.attempts[k].outcome.Some? ==> entry <= s.attempts[k].closedAt)
    case Capturing(entry, k) => Owns(s, t, k, entry)
    case Rechecking(entry, k, _) => Owns(s, t, k, entry)
    case Finishing(entry, k, o) => Owns(s, t, k, entry) && GoodOutcome(o, s.attempts[k].startedAt, s.now)
    case Closing(entry, k, o) => Owns(s, t, k, entry) && GoodOutcome(o, s.attempts[k].startedAt, s.now)
    case Provisioning(run, _, _) => RunOk(s, t, run)
    case Checked(run, _, _, cert, judged, _) => RunOk(s, t, run) && CertOk(s, run, cert, judged)
    case Installing(run, _, _, cert, judged, _, _) => RunOk(s, t, run) && CertOk(s, run, cert, judged)
    case Clearing(run, cert, judged) => RunOk(s, t, run) && CertOk(s, run, cert, judged)
    case _ => true
  }

  /** The negative cache never replays "no error". */
  predicate CooldownErrSet(sh: Shared) {
    sh.cooldownUntil != ZERO_TIME ==> sh.cooldownErr.Some?
  }

  ghost predicate FlightOk(s: State) {
    && CooldownErrSet(s.sh)
    && (forall t | t in s.threads :: LeadsSync(s.threads[t]) <==> s.syncer == Some(t))
    && (s.syncer.Some? ==> s.syncer.value in s.threads)
    && s.sh.inflight == (if s.syncer.Some? && s.syncer.value in s.threads && LeadsSync(s.threads[s.syncer.value])
                         then Some(AttemptOf(s.threads[s.syncer.value])) else None)
  }

  ghost predicate AttemptsOk(s: State) {
    forall k | k in s.attempts :: k < s.nextAttempt && AttemptOk(s.attempts[k], s.now)
  }

  ghost predicate ReturnsOk(log: seq<Event>) {
    forall i | 0 <= i < |log| :: ReturnOk(log[i])
  }

  ghost predicate SyncInv(s: State) {
    && FlightOk(s) && AttemptsOk(s) && ReturnsOk(s.log)
    && forall t | t in s.threads :: PcOk(s, t, s.threads[t])
  }

  /** What a move of thread t does to the clock and to the attempts. */
  ghost predicate Advances(s: State, s': State, t: nat) {
    && s.now <= s'.now
    && forall k | k in s.attempts ::
         && k in s'.attempts && s'.attempts[k].owner == s.attempts[k].owner
         && s'.attempts[k].startedAt == s.attempts[k].startedAt
         && (s'.attempts[k] == s.attempts[k] ||
             (s.attempts[k].owner == t && s.attempts[k].outcome.None? && s.now <= s'.attempts[k].closedAt))
  }

  lemma PcOkPersists(s: State, s': State, t: nat, u: nat, pc: Pc)
    requires PcOk(s, u, pc) && Advances(s, s', t) && u != t
    ensures PcOk(s', u, pc)
  {
  }

  lemma Assemble(s: State, s': State, t: nat)
    requires SyncInv(s) && Advances(s, s', t) && OneThreadChanged(s, s', t)
    requires FlightOk(s') && AttemptsOk(s') && ReturnsOk(s'.log)
    requires t in s'.threads ==> PcOk(s', t, s'.threads[t])
    requires s.nextThread in s'.threads && s.nextThread !in s.threads ==>
             PcOk(s', s.nextThread, s'.threads[s.nextThread])
    ensures SyncInv(s')
  {
    forall u | u in s'.threads ensures PcOk(s', u, s'.threads[u]) {
      if u != t && (u != s.nextThread || u in s.threads) { PcOkPersists(s, s', t, u, s.threads[u]); }
    }
  }

  /** A move that leaves the attempts and the leadership as they are. */
  ghost predicate Neutral(s: State, s': State, t: nat)
    requires t in s.threads
  {
    && s'.sh.inflight == s.sh.inflight && s'.syncer == s.syncer && s'.attempts == s.attempts
    && s'.nextAttempt == s.nextAttempt && s'.now == s.now && (CooldownErrSet(s.sh) ==> CooldownErrSet(s'.sh))
    && (if t in s'.threads
        then s'.threads == s.threads[t := s'.threads[t]] && PcOk(s, t, s'.threads[t]) &&
          SameLead(s.threads[t], s'.threads[t])
        else s'.threads == s.threads - {t} && !LeadsSync(s.threads[t]))
    && (s'.log == s.log ||
        (|s'.log| > 0 && s'.log == s.log + [s'.log[|s'.log| - 1]] && ReturnOk(s'.log[|s'.log| - 1])))
  }

  ghost predicate SameLead(pc: Pc, pc': Pc) {
    && (LeadsSync(pc) <==> LeadsSync(pc'))
    && (LeadsSync(pc) && LeadsSync(pc') ==> AttemptOf(pc) == AttemptOf(pc'))
  }

  lemma NeutralKeepsSync(s: State, s': State, t: nat)
    requires SyncInv(s) && t in s.threads && s.nextThread !in s.threads && Neutral(s, s', t)
    ensures SyncInv(s')
  {
    if t in s'.threads { assert PcOk(s', t, s'.threads[t]); }
    Assemble(s, s', t);
  }

  lemma BegunKeepsSync(s: State, s': State, t: nat, n: nat, e: Event)
    requires SyncInv(s) && t in s.threads && s.threads[t].Requesting? && n == s.nextThread && n !in s.threads
    requires ReturnOk(e) && s'.log == s.log + [RotationStarted(n), e] && s'.sh == Begun(s.sh)
    requires n in s'.threads && s'.threads == s.threads[n := s'.threads[n]] - {t}
    requires s'.threads[n].Provisioning? && s'.threads[n].run.RotationRun?
    requires s'.syncer == s.syncer && s'.attempts == s.attempts && s'.nextAttempt == s.nextAttempt && s'.now == s.now
    ensures SyncInv(s')
  {
    Assemble(s, s', t);
  }

  lemma RequestKeepsSync(s: State, t: nat)
    requires SyncInv(s) && t in s.threads && s.nextThread !in s.threads && s.threads[t].Requesting?
    ensures SyncInv(Request(s, t, s.threads[t]))
  {
    var pc, s' := s.threads[t], Request(s, t, s.threads[t]);
    assert PcOk(s, t, pc);
    if s'.nextThread != s.nextThread {
      BegunKeepsSync(s, s', t, s.nextThread,
                     HandshakeReturned(t, pc.entry, s.now, Outcome(Some(pc.serving), None, pc.entry), None));
    } else {
      NeutralKeepsSync(s, s', t);
    }
  }

  lemma HandshakeNeutral(s: State, t: nat)
    requires t in s.threads && PcOk(s, t, s.threads[t]) && (s.threads[t].Entered? || s.threads[t].Deciding?)
    ensures Neutral(s, HandshakeMove(s, t, s.threads[t]), t)
  {
  }

  lemma FailedNeutral(s: State, t: nat, err: Error)
    requires t in s.threads && s.threads[t].Provisioning? && PcOk(s, t, s.threads[t])
    ensures Neutral(s, Failed(s, t, s.threads[t].run, s.threads[t].revision, err), t)
  {
  }

  lemma CheckedNeutral(s: State, t: nat, cert: Cert, ttl: nat)
    requires t in s.threads && s.threads[t].Provisioning? && PcOk(s, t, s.threads[t]) &&
             UsableForHandshake(cert, s.now).None?
    ensures var pc := s.threads[t]; Neutral(s, Go(s, t, Checked(pc.run, pc.provider, pc.revision, cert, s.now, ttl)), t)
  {
  }

  lemma AnswerNeutral(s: State, t: nat, answer: Answer)
    requires t in s.threads && s.threads[t].Provisioning? && PcOk(s, t, s.threads[t])
    ensures Neutral(s, ProviderAnswered(s, t, s.threads[t], answer), t)
  {
    var pc := s.threads[t];
    if answer.Refused? {
      FailedNeutral(s, t, ProvisionError);
    } else {
      var checked := EnsureLeaf(Issued(pc.provider, answer.cert));
      if checked.1.Some? {
        FailedNeutral(s, t, checked.1.value);
      } else {
        var err := UsableForHandshake(checked.0.value, s.now);
        if err.Some? { FailedNeutral(s, t, err.value); } else { CheckedNeutral(s, t, checked.0.value, answer.ttl); }
      }
    }
  }

  lemma StaleNeutral(s: State, t: nat)
    requires t in s.threads && s.threads[t].Installing? && PcOk(s, t, s.threads[t])
    requires !s.threads[t].run.SwapRun? && s.sh.revision != s.threads[t].revision
    ensures Neutral(s, Install(s, t, s.threads[t]), t)
  {
  }

  lemma InstallNeutral(s: State, t: nat)
    requires t in s.threads && s.threads[t].Installing? && PcOk(s, t, s.threads[t])
    ensures Neutral(s, Install(s, t, s.threads[t]), t)
  {
    if !s.threads[t].run.SwapRun? && s.sh.revision != s.threads[t].revision { StaleNeutral(s, t); }
  }

  lemma RunNeutral(c: Config, s: State, t: nat, choice: Choice)
    requires t in s.threads && InRun(s.threads[t]) && PcOk(s, t, s.threads[t])
    ensures Neutral(s, RunMove(c, s, t, s.threads[t], choice), t)
  {
    if s.threads[t].Provisioning? {
      AnswerNeutral(s, t, choice.answer);
    } else if s.threads[t].Installing? {
      InstallNeutral(s, t);
    }
  }

  lemma EndNeutral(s: State, t: nat, choice: Choice)
    requires t in s.threads && InEnd(s.threads[t])
    ensures Neutral(s, EndMove(s, t, s.threads[t], choice), t)
  {
  }

  lemma StopNeutral(s: State, t: nat, choice: Choice)
    requires t in s.threads
    requires s.threads[t].WorkerStopping? || s.threads[t].WorkerSpinning? || s.threads[t].WorkerReceiving?
    ensures Neutral(s, WorkerMove(s, t, s.threads[t], choice), t)
  {
  }

  lemma WorkerNeutral(s: State, t: nat, choice: Choice)
    requires t in s.threads && !s.threads[t].WorkerPolling?
    requires !InHandshake(s.threads[t]) && !InSync(s.threads[t]) && !InRun(s.threads[t]) && !InEnd(s.threads[t])
    ensures Neutral(s, WorkerMove(s, t, s.threads[t], choice), t)
  {
    if s.threads[t].WorkerStopping? || s.threads[t].WorkerSpinning? || s.threads[t].WorkerReceiving? {
      StopNeutral(s, t, choice);
    }
  }

  lemma PollKeepsSync(s: State, t: nat, ctxDone: bool)
    requires SyncInv(s) && t in s.threads && s.nextThread !in s.threads && s.threads[t].WorkerPolling?
    ensures SyncInv(Poll(s, t, ctxDone))
  {
    Assemble(s, Poll(s, t, ctxDone), t);
  }

  lemma EnterNeutral(s: State, t: nat)
    requires t in s.threads && s.threads[t].SyncEntering? && PcOk(s, t, s.threads[t]) && CooldownErrSet(s.sh)
    requires !DecideSync(s.sh, s.threads[t].entry).Lead? && !DecideSync(s.sh, s.threads[t].entry).Join?
    ensures Neutral(s, EnterSync(s, t, s.threads[t].entry), t)
  {
  }

  lemma JoinNeutral(s: State, t: nat)
    requires SyncInv(s) && t in s.threads && s.threads[t].SyncEntering? && DecideSync(s.sh, s.threads[t].entry).Join?
    ensures Neutral(s, EnterSync(s, t, s.threads[t].entry), t)
  {
    assert PcOk(s, t, s.threads[t]);
    assert PcOk(s, s.syncer.value, s.threads[s.syncer.value]);
  }

  lemma LeadKeepsSync(s: State, t: nat)
    requires SyncInv(s) && t in s.threads && s.nextThread !in s.threads
    requires s.threads[t].SyncEntering? && DecideSync(s.sh, s.threads[t].entry).Lead?
    ensures SyncInv(EnterSync(s, t, s.threads[t].entry))
  {
    assert PcOk(s, t, s.threads[t]);
    Assemble(s, EnterSync(s, t, s.threads[t].entry), t);
  }

  lemma EnterKeepsSync(s: State, t: nat)
    requires SyncInv(s) && t in s.threads && s.nextThread !in s.threads && s.threads[t].SyncEntering?
    ensures SyncInv(EnterSync(s, t, s.threads[t].entry))
  {
    var s' := EnterSync(s, t, s.threads[t].entry);
    assert PcOk(s, t, s.threads[t]);
    if DecideSync(s.sh, s.threads[t].entry).Lead? {
      LeadKeepsSync(s, t);
    } else {
      if DecideSync(s.sh, s.threads[t].entry).Join? { JoinNeutral(s, t); } else { EnterNeutral(s, t); }
      NeutralKeepsSync(s, s', t);
    }
  }

  lemma FinishKeepsSync(c: Config, s: State, t: nat, ctxAlive: bool)
    requires SyncInv(s) && t in s.threads && s.nextThread !in s.threads && s.threads[t].Finishing?
    ensures SyncInv(Finish(c, s, t, s.threads[t], ctxAlive))
  {
    assert PcOk(s, t, s.threads[t]);
    Assemble(s, Finish(c, s, t, s.threads[t], ctxAlive), t);
  }

  lemma CloseKeepsSync(s: State, t: nat)
    requires SyncInv(s) && t in s.threads && s.nextThread !in s.threads && s.threads[t].Closing?
    ensures SyncInv(Close(s, t, s.threads[t]))
  {
    assert PcOk(s, t, s.threads[t]);
    Assemble(s, Close(s, t, s.threads[t]), t);
  }

  lemma SyncKeepsSync(c: Config, s: State, t: nat, choice: Choice)
    requires SyncInv(s) && t in s.threads && s.nextThread !in s.threads && InSync(s.threads[t])
    ensures SyncInv(SyncMove(c, s, t, s.threads[t], choice))
  {
    if s.threads[t].SyncEntering? {
      EnterKeepsSync(s, t);
    } else if s.threads[t].Finishing? {
      FinishKeepsSync(c, s, t, choice.flag);
    } else if s.threads[t].Closing? {
      CloseKeepsSync(s, t);
    } else {
      assert PcOk(s, t, s.threads[t]);
      NeutralKeepsSync(s, SyncMove(c, s, t, s.threads[t], choice), t);
    }
  }

  lemma MoveKeepsSync(c: Config, s: State, t: nat, choice: Choice)
    requires SyncInv(s) && CanMove(s, t) && s.nextThread !in s.threads
    ensures SyncInv(Move(c, s, t, s.threads[t], choice))
  {
    var s' := Move(c, s, t, s.threads[t], choice);
    if InSync(s.threads[t]) {
      SyncKeepsSync(c, s, t, choice);
    } else if s.threads[t].Requesting? {
      RequestKeepsSync(s, t);
    } else if s.threads[t].WorkerPolling? {
      PollKeepsSync(s, t, choice.flag);
    } else {
      assert PcOk(s, t, s.threads[t]);
      if InHandshake(s.threads[t]) {
        HandshakeNeutral(s, t);
      } else if InRun(s.threads[t]) {
        RunNeutral(c, s, t, choice);
      } else if InEnd(s.threads[t]) {
        EndNeutral(s, t, choice);
      } else {
        WorkerNeutral(s, t, choice);
      }
      NeutralKeepsSync(s, s', t);
    }
  }

  lemma SpawnedKeepsSync(s: State, s': State, pc: Pc)
    requires SyncInv(s) && s.nextThread !in s.threads && s'.threads == s.threads[s.nextThread := pc]
    requires s'.sh == s.sh && s'.syncer == s.syncer && s'.attempts == s.attempts
    requires s'.nextAttempt == s.nextAttempt && s'.now == s.now
    requires s'.log == s.log || s'.log == s.log + [WorkerBegan(s.nextThread)]
    requires PcOk(s, s.nextThread, pc) && !LeadsSync(pc)
    ensures SyncInv(s')
  {
    Assemble(s, s', s.nextThread);
  }

  lemma SpawnKeepsSync(c: Config, s: State, step: Step)
    requires SyncInv(s) && !step.Act? && s.nextThread !in s.threads
    ensures SyncInv(Apply(c, s, step))
  {
    match step
    case Tick(_) => Assemble(s, Apply(c, s, step), s.nextThread);
    case Handshake => SpawnedKeepsSync(s, Apply(c, s, step), Entered(s.now));
    case SwapProvider(p) => SpawnedKeepsSync(s, Apply(c, s, step), Provisioning(SwapRun, p, 0));
    case RunRotation => if |s.workers| < c.maxWorkers { SpawnedKeepsSync(s, Apply(c, s, step), WorkerStarting); }
  }

  lemma {:induction false} SyncInvAlways(c: Config, steps: seq<Step>)
    ensures SyncInv(Exec(c, steps))
  {
    if steps != [] {
      var s, last := Exec(c, steps[..|steps| - 1]), steps[|steps| - 1];
      SyncInvAlways(c, steps[..|steps| - 1]);
      CertRotation.RotationInvAlways(c, steps[..|steps| - 1]);
      if !last.Act? {
        SpawnKeepsSync(c, s, last);
      } else if CanMove(s, last.thread) {
        MoveKeepsSync(c, s, last.thread, last.choice);
      }
    }
  }

  /** In every interleaving at most one synchronous provision is in flight, and `inflight` names it. */
  lemma SingleFlight(c: Config, steps: seq<Step>, t: nat, u: nat)
    requires t in Exec(c, steps).threads && LeadsSync(Exec(c, steps).threads[t])
    requires u in Exec(c, steps).threads && LeadsSync(Exec(c, steps).threads[u])
    ensures t == u && Exec(c, steps).sh.inflight == Some(AttemptOf(Exec(c, steps).threads[t]))
  {
    SyncInvAlways(c, steps);
  }

  /** In every interleaving every error-free return was judged inside its validity window. */
  lemma ErrorFreeReturnsAreUsable(c: Config, steps: seq<Step>, e: Event)
    requires e in Exec(c, steps).log
    ensures ReturnOk(e)
    ensures e.HandshakeReturned? && e.outcome.err.None? ==> InWindow(e.outcome.cert.value, e.outcome.judged)
  {
    SyncInvAlways(c, steps);
    if e.HandshakeReturned? && e.outcome.err.None? { UsableIffInWindow(e.outcome.cert.value, e.outcome.judged); }
  }
}
