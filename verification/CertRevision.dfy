/** Which certificate is cached: over every interleaving it comes from the installed
    provider, and a renewal installs only if nothing was installed since it captured the
    revision (pkg/ratls/tls.go:256-290, 362-418, 465-528, 559-592; pkg/ratls/rotation.go:33-74). */
module CertRevision {
  import opened Wrappers
  import opened CertState
  import opened CertMachine
  import CertRotation

  function Installs(log: seq<Event>): nat {
    if log == [] then 0
    else Installs(log[..|log| - 1]) + if log[|log| - 1].InstalledCert? then 1 else 0
  }

  ghost predicate HasCapture(log: seq<Event>, revision: nat) {
    exists i | 0 <= i < |log| :: log[i].CapturedRevision? && log[i].revision == revision
  }

  /** A revision is the number of installs before it was read, and an install made against
      a captured revision happens while that still is the number of installs. */
  ghost predicate EventOk(before: seq<Event>, e: Event) {
    match e
    case CapturedRevision(_, r) => r == Installs(before)
    case InstalledCert(_, captured, provider, cert, _) =>
      && cert.origin == provider
      && (captured.Some? ==> captured.value == Installs(before) && HasCapture(before, captured.value))
    case _ => true
  }

  ghost predicate LogOk(log: seq<Event>) {
    forall k {:trigger EventOk(log[..k], log[k])} | 0 <= k < |log| :: EventOk(log[..k], log[k])
  }

  lemma LogOkAppend(log: seq<Event>, e: Event)
    requires LogOk(log) && EventOk(log, e)
    ensures LogOk(log + [e])
    ensures Installs(log + [e]) == Installs(log) + if e.InstalledCert? then 1 else 0
  {
    var log' := log + [e];
    assert log'[..|log|] == log;
    forall k | 0 <= k < |log'| ensures EventOk(log'[..k], log'[k]) {
      if k < |log| { assert log'[..k] == log[..k] && EventOk(log[..k], log[k]); }
    }
  }

  /** A thread that carries a captured revision has read it, and as long as it is the current
      one, the provider it carries is the current one too. */
  ghost predicate CarriesOk(s: State, provider: Provider, revision: nat) {
    && revision <= s.sh.revision
    && (revision == s.sh.revision ==> provider == s.sh.provider)
    && HasCapture(s.log, revision)
  }

  ghost predicate PcOk(s: State, pc: Pc) {
    match pc
    case Deciding(_, _, _, _, provider, revision) => CarriesOk(s, provider, revision)
    case Requesting(_, _, provider, revision) => CarriesOk(s, provider, revision)
    case Provisioning(run, provider, revision) => run.SwapRun? || CarriesOk(s, provider, revision)
    case Checked(run, provider, revision, cert, _, _) =>
      cert.origin == provider && (run.SwapRun? || CarriesOk(s, provider, revision))
    case Installing(run, provider, revision, cert, _, _, _) =>
      cert.origin == provider && (run.SwapRun? || CarriesOk(s, provider, revision))
    case _ => true
  }

  ghost predicate CacheOk(s: State) {
    && s.sh.revision == Installs(s.log)
    && (s.sh.cert.Some? ==> s.sh.cert.value.origin == s.sh.provider)
    && LogOk(s.log)
  }

  ghost predicate RevisionInv(s: State) {
    CacheOk(s) && forall t | t in s.threads :: PcOk(s, s.threads[t])
  }

  /** How the state moves on: the provider only changes together with the revision. */
  ghost predicate Advances(s: State, s': State) {
    && s.log <= s'.log && s.sh.revision <= s'.sh.revision
    && (s'.sh.revision == s.sh.revision ==> s'.sh.provider == s.sh.provider)
  }

  lemma CapturePersists(s: State, s': State, revision: nat)
    requires s.log <= s'.log && HasCapture(s.log, revision)
    ensures HasCapture(s'.log, revision)
  {
    var i :| 0 <= i < |s.log| && s.log[i].CapturedRevision? && s.log[i].revision == revision;
    assert s'.log[i] == s.log[i];
  }

  lemma PcOkPersists(s: State, s': State, pc: Pc)
    requires PcOk(s, pc) && Advances(s, s')
    ensures PcOk(s', pc)
  {
    if pc.Deciding? || pc.Requesting? || ((pc.Provisioning? || pc.Checked? || pc.Installing?) && !pc.run.SwapRun?) {
      CapturePersists(s, s', pc.revision);
    }
  }

  lemma Assemble(s: State, s': State, t: nat)
    requires RevisionInv(s) && Advances(s, s') && CacheOk(s') && OneThreadChanged(s, s', t)
    requires t in s'.threads ==> PcOk(s', s'.threads[t])
    requires s.nextThread in s'.threads && s.nextThread !in s.threads ==> PcOk(s', s'.threads[s.nextThread])
    ensures RevisionInv(s')
  {
    forall u | u in s'.threads ensures PcOk(s', s'.threads[u]) {
      if u != t && (u != s.nextThread || u in s.threads) { PcOkPersists(s, s', s.threads[u]); }
    }
  }

  lemma CaptureLogged(s: State, t: nat)
    requires RevisionInv(s)
    ensures CacheOk(Logged(s, CapturedRevision(t, s.sh.revision)))
    ensures HasCapture(Logged(s, CapturedRevision(t, s.sh.revision)).log, s.sh.revision)
  {
    LogOkAppend(s.log, CapturedRevision(t, s.sh.revision));
    assert (s.log + [CapturedRevision(t, s.sh.revision)])[|s.log|].CapturedRevision?;
  }

  /** A move that leaves provider, certificate and revision alone, logs at most one event of
      no interest here, and lets its thread carry nothing new. */
  ghost predicate Neutral(s: State, s': State, t: nat)
    requires t in s.threads
  {
    && s'.sh.revision == s.sh.revision && s'.sh.provider == s.sh.provider && s'.sh.cert == s.sh.cert
    && OneThreadChanged(s, s', t) && (s.nextThread !in s.threads ==> s.nextThread !in s'.threads || t == s.nextThread)
    && (t in s'.threads ==> PcOk(s, s'.threads[t]))
    && (s'.log == s.log || (|s'.log| > 0 && s'.log == s.log + [s'.log[|s'.log| - 1]] &&
        !s'.log[|s'.log| - 1].InstalledCert? && !s'.log[|s'.log| - 1].CapturedRevision?))
  }

  lemma NeutralKeepsRevisions(s: State, s': State, t: nat)
    requires RevisionInv(s) && t in s.threads && Neutral(s, s', t)
    ensures RevisionInv(s')
  {
    if s'.log != s.log {
      LogOkAppend(s.log, s'.log[|s'.log| - 1]);
    }
    if t in s'.threads { PcOkPersists(s, s', s'.threads[t]); }
    Assemble(s, s', t);
  }

  lemma BegunKeepsRevisions(s: State, s': State, t: nat, e: Event)
    requires RevisionInv(s) && t in s.threads && s.threads[t].Requesting? && s.nextThread != t
    requires e.HandshakeReturned? && s'.log == s.log + [RotationStarted(s.nextThread), e]
    requires s'.sh == Begun(s.sh)
    requires s'.threads == s.threads[s.nextThread := Provisioning(RotationRun(false), s.threads[t].provider,
             s.threads[t].revision)] - {t}
    ensures RevisionInv(s')
  {
    LogOkAppend(s.log, RotationStarted(s.nextThread));
    LogOkAppend(s.log + [RotationStarted(s.nextThread)], e);
    assert s'.log == s.log + [RotationStarted(s.nextThread)] + [e];
    PcOkPersists(s, s', s.threads[t]);
    forall u | u in s'.threads ensures PcOk(s', s'.threads[u]) {
      if u != s.nextThread { PcOkPersists(s, s', s.threads[u]); }
    }
  }

  lemma RequestKeepsRevisions(s: State, t: nat)
    requires RevisionInv(s) && t in s.threads && s.threads[t].Requesting? && s.nextThread != t
    ensures RevisionInv(Request(s, t, s.threads[t]))
  {
    var pc, s' := s.threads[t], Request(s, t, s.threads[t]);
    if s'.nextThread != s.nextThread {
      BegunKeepsRevisions(s, s', t,
        HandshakeReturned(t, pc.entry, s.now, Outcome(Some(pc.serving), None, pc.entry), None));
    } else {
      NeutralKeepsRevisions(s, s', t);
    }
  }

  lemma HandshakeKeepsRevisions(s: State, t: nat)
    requires RevisionInv(s) && t in s.threads && InHandshake(s.threads[t]) && s.nextThread != t
    ensures RevisionInv(HandshakeMove(s, t, s.threads[t]))
  {
    var pc, s' := s.threads[t], HandshakeMove(s, t, s.threads[t]);
    if pc.Requesting? {
      RequestKeepsRevisions(s, t);
    } else if pc.Entered? {
      CaptureLogged(s, t);
      Assemble(s, s', t);
    } else {
      NeutralKeepsRevisions(s, s', t);
    }
  }

  lemma SyncNeutral(c: Config, s: State, t: nat, choice: Choice)
    requires t in s.threads && InSync(s.threads[t]) && !s.threads[t].Capturing?
    ensures Neutral(s, SyncMove(c, s, t, s.threads[t], choice), t)
  {
  }

  lemma SyncKeepsRevisions(c: Config, s: State, t: nat, choice: Choice)
    requires RevisionInv(s) && t in s.threads && InSync(s.threads[t])
    ensures RevisionInv(SyncMove(c, s, t, s.threads[t], choice))
  {
    var s' := SyncMove(c, s, t, s.threads[t], choice);
    if s.threads[t].Capturing? {
      CaptureLogged(s, t);
      Assemble(s, s', t);
    } else {
      SyncNeutral(c, s, t, choice);
      NeutralKeepsRevisions(s, s', t);
    }
  }

  lemma AnswerNeutral(s: State, t: nat, answer: Answer)
    requires t in s.threads && s.threads[t].Provisioning? && PcOk(s, s.threads[t])
    ensures Neutral(s, ProviderAnswered(s, t, s.threads[t], answer), t)
  {
  }

  lemma InstalledKeepsRevisions(s: State, s': State, t: nat, e: Event)
    requires RevisionInv(s) && t in s.threads && e.InstalledCert? && EventOk(s.log, e)
    requires s'.log == s.log + [e] && t in s'.threads && s'.threads[t].Clearing? &&
             s'.threads == s.threads[t := s'.threads[t]]
    requires s'.sh.cert == Some(e.cert) && s'.sh.provider == e.provider && s'.sh.revision == s.sh.revision + 1
    ensures RevisionInv(s')
  {
    LogOkAppend(s.log, e);
    Assemble(s, s', t);
  }

  lemma InstallKeepsRevisions(s: State, t: nat)
    requires RevisionInv(s) && t in s.threads && s.threads[t].Installing?
    ensures RevisionInv(Install(s, t, s.threads[t]))
  {
    var pc, s' := s.threads[t], Install(s, t, s.threads[t]);
    assert PcOk(s, pc);
    if pc.run.SwapRun? {
      InstalledKeepsRevisions(s, s', t, InstalledCert(t, None, pc.provider, pc.cert, pc.renewal));
    } else if s.sh.revision == pc.revision {
      InstalledKeepsRevisions(s, s', t, InstalledCert(t, Some(pc.revision), pc.provider, pc.cert, pc.renewal));
    } else {
      NeutralKeepsRevisions(s, s', t);
    }
  }

  lemma RunKeepsRevisions(c: Config, s: State, t: nat, choice: Choice)
    requires RevisionInv(s) && t in s.threads && InRun(s.threads[t])
    ensures RevisionInv(RunMove(c, s, t, s.threads[t], choice))
  {
    var s' := RunMove(c, s, t, s.threads[t], choice);
    if s.threads[t].Installing? {
      InstallKeepsRevisions(s, t);
    } else {
      if s.threads[t].Provisioning? { AnswerNeutral(s, t, choice.answer); }
      NeutralKeepsRevisions(s, s', t);
    }
  }

  lemma EndKeepsRevisions(s: State, t: nat, choice: Choice)
    requires RevisionInv(s) && t in s.threads && InEnd(s.threads[t])
    ensures RevisionInv(EndMove(s, t, s.threads[t], choice))
  {
    NeutralKeepsRevisions(s, EndMove(s, t, s.threads[t], choice), t);
  }

  lemma PollKeepsRevisions(s: State, t: nat, ctxDone: bool)
    requires RevisionInv(s) && t in s.threads
    ensures RevisionInv(Poll(s, t, ctxDone))
  {
    var s' := Poll(s, t, ctxDone);
    if s'.log != s.log {
      var captured := s.log + [CapturedRevision(t, s.sh.revision)];
      CaptureLogged(s, t);
      LogOkAppend(captured, RotationStarted(t));
      assert s'.log == captured + [RotationStarted(t)] && s'.log[|s.log|].CapturedRevision?;
    }
    Assemble(s, s', t);
  }

  lemma WorkerLoopNeutral(s: State, t: nat, choice: Choice)
    requires t in s.threads &&
             (s.threads[t].WorkerStarting? || s.threads[t].WorkerLooping? || s.threads[t].WorkerSleeping?)
    ensures Neutral(s, WorkerMove(s, t, s.threads[t], choice), t)
  {
  }

  lemma WorkerStopNeutral(s: State, t: nat, choice: Choice)
    requires t in s.threads &&
             (s.threads[t].WorkerStopping? || s.threads[t].WorkerSpinning? || s.threads[t].WorkerReceiving?)
    ensures Neutral(s, WorkerMove(s, t, s.threads[t], choice), t)
  {
  }

  lemma WorkerKeepsRevisions(s: State, t: nat, choice: Choice)
    requires RevisionInv(s) && t in s.threads
    ensures RevisionInv(WorkerMove(s, t, s.threads[t], choice))
  {
    var pc, s' := s.threads[t], WorkerMove(s, t, s.threads[t], choice);
    if pc.WorkerPolling? {
      PollKeepsRevisions(s, t, choice.flag);
    } else if pc.WorkerStarting? || pc.WorkerLooping? || pc.WorkerSleeping? {
      WorkerLoopNeutral(s, t, choice);
      NeutralKeepsRevisions(s, s', t);
    } else if pc.WorkerStopping? || pc.WorkerSpinning? || pc.WorkerReceiving? {
      WorkerStopNeutral(s, t, choice);
      NeutralKeepsRevisions(s, s', t);
    } else {
      assert s' == s;
    }
  }

  lemma MoveKeepsRevisions(c: Config, s: State, t: nat, choice: Choice)
    requires RevisionInv(s) && CanMove(s, t) && s.nextThread != t
    ensures RevisionInv(Move(c, s, t, s.threads[t], choice))
  {
    if InHandshake(s.threads[t]) {
      HandshakeKeepsRevisions(s, t);
    } else if InSync(s.threads[t]) {
      SyncKeepsRevisions(c, s, t, choice);
    } else if InRun(s.threads[t]) {
      RunKeepsRevisions(c, s, t, choice);
    } else if InEnd(s.threads[t]) {
      EndKeepsRevisions(s, t, choice);
    } else {
      WorkerKeepsRevisions(s, t, choice);
    }
  }

  lemma SpawnKeepsRevisions(c: Config, s: State, step: Step)
    requires RevisionInv(s) && !step.Act?
    ensures RevisionInv(Apply(c, s, step))
  {
    var s' := Apply(c, s, step);
    if step.RunRotation? { LogOkAppend(s.log, WorkerBegan(s.nextThread)); }
    Assemble(s, s', s.nextThread);
  }

  lemma {:induction false} RevisionInvAlways(c: Config, steps: seq<Step>)
    ensures RevisionInv(Exec(c, steps))
  {
    if steps != [] {
      var s, last := Exec(c, steps[..|steps| - 1]), steps[|steps| - 1];
      RevisionInvAlways(c, steps[..|steps| - 1]);
      CertRotation.RotationInvAlways(c, steps[..|steps| - 1]);
      if !last.Act? {
        SpawnKeepsRevisions(c, s, last);
      } else if CanMove(s, last.thread) {
        MoveKeepsRevisions(c, s, last.thread, last.choice);
      }
    }
  }

  /** The certificate that handshakes are served came from the provider that is installed. */
  lemma CachedCertFromProvider(c: Config, steps: seq<Step>)
    requires Exec(c, steps).sh.cert.Some?
    ensures Exec(c, steps).sh.cert.value.origin == Exec(c, steps).sh.provider
  {
    RevisionInvAlways(c, steps);
  }

  lemma {:induction false} InstallsGrow(log: seq<Event>, i: nat, k: nat)
    requires i <= k <= |log|
    ensures Installs(log[..i]) <= Installs(log[..k])
    ensures Installs(log[..i]) == Installs(log[..k]) ==> forall j | i <= j < k :: !log[j].InstalledCert?
  {
    if i < k {
      assert log[..k][..k - 1] == log[..k - 1];
      InstallsGrow(log, i, k - 1);
    }
  }

  /** A run that captured a revision installs only if no install happened since that capture,
      so a slow renewal never overwrites a newer certificate.  (SwapProvider captures none.) */
  lemma StaleRenewalNeverInstalls(c: Config, steps: seq<Step>, i: nat, k: nat)
    requires var log := Exec(c, steps).log;
             && i < k < |log| && log[i].CapturedRevision?
             && log[k].InstalledCert? && log[k].captured == Some(log[i].revision)
    ensures forall j | i <= j < k :: !Exec(c, steps).log[j].InstalledCert?
  {
    RevisionInvAlways(c, steps);
    var log := Exec(c, steps).log;
    assert EventOk(log[..i], log[i]) && EventOk(log[..k], log[k]);
    InstallsGrow(log, i, k);
  }

  /** Every such install goes back to a capture, so the rule above covers all of them. */
  lemma EveryRenewalCaptured(c: Config, steps: seq<Step>, k: nat) returns (i: nat)
    requires var log := Exec(c, steps).log; k < |log| && log[k].InstalledCert? && log[k].captured.Some?
    ensures var log := Exec(c, steps).log;
            && i < k && log[i].CapturedRevision? && log[k].captured == Some(log[i].revision)
            && forall j | i <= j < k :: !log[j].InstalledCert?
  {
    RevisionInvAlways(c, steps);
    var log := Exec(c, steps).log;
    assert EventOk(log[..k], log[k]);
    i :| 0 <= i < |log[..k]| && log[..k][i].CapturedRevision? && log[..k][i].revision == log[k].captured.value;
    StaleRenewalNeverInstalls(c, steps, i, k);
  }
}
