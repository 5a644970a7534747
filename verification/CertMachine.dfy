/** Interleavings of the certificate manager (pkg/ratls/tls.go, pkg/ratls/rotation.go).

    Any number of handshakes, SwapProvider calls, background renewals and RunRotation
    workers run at once.  A step is one critical section, one atomic access, one channel
    operation or one clock reading of one thread, or the passing of time; what the
    environment decides (the provider's answer, whether a context has ended, the backoff
    delay) comes with the step.  A step that is not enabled leaves the state as it is, so
    "every interleaving" is "every sequence of steps". */
module CertMachine {
  import opened Wrappers
  import opened CertState

  /** `judged` is the clock reading at which `cert` was found usable, when err is None. */
  datatype Outcome = Outcome(cert: Option<Cert>, err: Option<Error>, judged: Time)

  /** One provisionAttempt: `owner` leads it, `outcome` is set when `done` is closed. */
  datatype Attempt = Attempt(owner: nat, startedAt: Time, outcome: Option<Outcome>, closedAt: Time)

  /** When a certificate was found good, and the TTL its provider gave. */
  datatype Renewal = Renewal(from: Time, answered: nat)

  datatype Run = SyncRun(entry: Time, attempt: nat) | RotationRun(worker: bool) | SwapRun

  datatype Pc =
    // getOrProvision
    | Entered(entry: Time)
    | Deciding(entry: Time, cached: Option<Cert>, rotateAt: Time, retryAt: Time, provider: Provider, revision: nat)
    | Requesting(entry: Time, serving: Cert, provider: Provider, revision: nat)
    // syncProvision
    | SyncEntering(entry: Time)
    | Joined(entry: Time, attempt: nat)
    | Capturing(entry: Time, attempt: nat)
    | Rechecking(entry: Time, attempt: nat, current: Cert)
    | Finishing(entry: Time, attempt: nat, outcome: Outcome)
    | Closing(entry: Time, attempt: nat, outcome: Outcome)
    // provisionNow, backgroundProvision and SwapProvider
    | Provisioning(run: Run, provider: Provider, revision: nat)
    | Checked(run: Run, provider: Provider, revision: nat, cert: Cert, judged: Time, ttl: nat)
    | Installing(run: Run, provider: Provider, revision: nat, cert: Cert, judged: Time, renewAt: Time, renewal: Renewal)
    | Clearing(run: Run, cert: Cert, judged: Time)
    // the end of backgroundProvision
    | Retrying(worker: bool, revision: nat)
    | Ending(worker: bool)
    | Notifying(worker: bool)
    // RunRotation and stopRotation
    | WorkerStarting
    | WorkerLooping
    | WorkerPolling
    | WorkerSleeping
    | WorkerStopping
    | WorkerSpinning
    | WorkerReceiving

  datatype Event =
    | CapturedRevision(thread: nat, revision: nat)
    | InstalledCert(thread: nat, captured: Option<nat>, provider: Provider, cert: Cert, renewal: Renewal)
    | SyncStarted(thread: nat, attempt: nat, at: Time)
    | SyncFailed(thread: nat, attempt: nat, at: Time, ctxAlive: bool)
    | ClearedCooldown(thread: nat, at: Time)
    | RotationStarted(thread: nat)
    | WorkerBegan(thread: nat)
    | WorkerReturned(thread: nat)
    | HandshakeReturned(thread: nat, entry: Time, at: Time, outcome: Outcome, joined: Option<Attempt>)

  /** `rotator`, `syncer`, `holder` and `workers` name the threads that run the background
      rotation, lead the synchronous attempt, hold mu between two atomic operations, and
      execute RunRotation; `log` records what happened.  Only `holder`, which stands for the
      lock, and the number of `workers`, which the callers bound, influence a step. */
  datatype State = State(
    sh: Shared, threads: map<nat, Pc>, nextThread: nat, attempts: map<nat, Attempt>, nextAttempt: nat,
    now: Time, holder: Option<nat>,
    rotator: Option<nat>, syncer: Option<nat>, workers: set<nat>, log: seq<Event>)

  datatype Config = Config(maxWorkers: nat, syncCooldown: int, defaultTTL: int, provider: Provider)

  datatype Answer = Refused | Answered(cert: Option<Cert>, ttl: nat)

  /** What the environment decides in a step. */
  datatype Choice = Choice(answer: Answer, flag: bool, delay: nat)

  datatype Step =
    | Tick(elapsed: nat)
    | Handshake
    | SwapProvider(provider: Provider)
    | RunRotation
    | Act(thread: nat, choice: Choice)

  function Initial(c: Config): State {
    State(Fresh(c.provider), map[], 0, map[], 0, ZERO_TIME, None, None, None, {}, [])
  }

  function Go(s: State, t: nat, pc: Pc): State {
    s.(threads := s.threads[t := pc])
  }

  function Logged(s: State, e: Event): State {
    s.(log := s.log + [e])
  }

  function Gone(s: State, t: nat): State {
    s.(threads := s.threads - {t})
  }

  function Spawned(s: State, pc: Pc): State {
    s.(threads := s.threads[s.nextThread := pc], nextThread := s.nextThread + 1)
  }

  function Returned(s: State, t: nat, entry: Time, o: Outcome, joined: Option<Attempt>): State {
    Logged(Gone(s, t), HandshakeReturned(t, entry, s.now, o, joined))
  }

  /** A provider only ever hands out certificates of its own. */
  function Issued(p: Provider, cert: Option<Cert>): Option<Cert> {
    if cert.None? then None else Some(cert.value.(origin := p))
  }

  function Failed(s: State, t: nat, run: Run, revision: nat, err: Error): State {
    match run
    case SyncRun(entry, k) => Go(s, t, Finishing(entry, k, Outcome(None, Some(err), s.now)))
    case RotationRun(w) => Go(s, t, Retrying(w, revision))
    case SwapRun => Gone(s, t)
  }

  /** The provider's answer, ensureLeaf and the validity check at the current clock. */
  function ProviderAnswered(s: State, t: nat, pc: Pc, answer: Answer): State
    requires pc.Provisioning?
  {
    match answer
    case Refused => Failed(s, t, pc.run, pc.revision, ProvisionError)
    case Answered(cert, ttl) =>
      var checked := EnsureLeaf(Issued(pc.provider, cert));
      if checked.1.Some? then Failed(s, t, pc.run, pc.revision, checked.1.value)
      else
        var err := UsableForHandshake(checked.0.value, s.now);
        if err.Some? then Failed(s, t, pc.run, pc.revision, err.value)
        else Go(s, t, Checked(pc.run, pc.provider, pc.revision, checked.0.value, s.now, ttl))
  }

  function Install(s: State, t: nat, pc: Pc): State
    requires pc.Installing?
  {
    if pc.run.SwapRun? then
      Go(Logged(s.(sh := Swapped(s.sh, pc.provider, pc.cert, pc.renewAt)),
                InstalledCert(t, None, pc.provider, pc.cert, pc.renewal)),
         t, Clearing(pc.run, pc.cert, pc.judged))
    else if s.sh.revision == pc.revision then
      Go(Logged(s.(sh := InstalledIfCurrent(s.sh, pc.cert, pc.renewAt, pc.revision)),
                InstalledCert(t, Some(pc.revision), pc.provider, pc.cert, pc.renewal)),
         t, Clearing(pc.run, pc.cert, pc.judged))
    else
      match pc.run
      case RotationRun(w) => Go(s, t, Ending(w))
      case SyncRun(entry, k) =>
        if s.sh.cert.None? then Go(s, t, Finishing(entry, k, Outcome(None, Some(ChangedMeanwhile), s.now)))
        else Go(s, t, Rechecking(entry, k, s.sh.cert.value))
  }

  function Clear(s: State, t: nat, pc: Pc): State
    requires pc.Clearing?
  {
    var s' := Logged(s.(sh := CooldownCleared(s.sh)), ClearedCooldown(t, s.now));
    match pc.run
    case SyncRun(entry, k) => Go(s', t, Finishing(entry, k, Outcome(Some(pc.cert), None, pc.judged)))
    case RotationRun(w) => Go(s', t, Ending(w))
    case SwapRun => Gone(s', t)
  }

  function Request(s: State, t: nat, pc: Pc): State
    requires pc.Requesting?
  {
    var o := Outcome(Some(pc.serving), None, pc.entry);
    if !s.sh.channel && MayBegin(s.sh, false, pc.revision, s.now) then
      var n := s.nextThread;
      var s' := Logged(Spawned(s.(sh := Begun(s.sh), rotator := Some(n)),
                               Provisioning(RotationRun(false), pc.provider, pc.revision)),
                       RotationStarted(n));
      Returned(s', t, pc.entry, o, None)
    else Returned(s, t, pc.entry, o, None)
  }

  function EnterSync(s: State, t: nat, entry: Time): State {
    match DecideSync(s.sh, entry)
    case UseCached(cert) => Returned(s, t, entry, Outcome(Some(cert), None, entry), None)
    case Join(k) => Go(s, t, Joined(entry, k))
    case Replay(err) => Returned(s, t, entry, Outcome(None, err, entry), None)
    case Lead =>
      var k := s.nextAttempt;
      Go(Logged(s.(sh := AttemptOpened(s.sh, k), syncer := Some(t), nextAttempt := k + 1,
                   attempts := s.attempts[k := Attempt(t, s.now, None, s.now)]),
                SyncStarted(t, k, s.now)),
         t, Capturing(entry, k))
  }

  function Finish(c: Config, s: State, t: nat, pc: Pc, ctxAlive: bool): State
    requires pc.Finishing?
  {
    var cooldown := EffectiveSyncCooldown(c.syncCooldown);
    s.(sh := AttemptClosed(s.sh, pc.outcome.err, ctxAlive, s.now, cooldown),
       syncer := None,
       log := if pc.outcome.err.Some? then s.log + [SyncFailed(t, pc.attempt, s.now, ctxAlive)] else s.log,
       threads := s.threads[t := Closing(pc.entry, pc.attempt, pc.outcome)])
  }

  function Close(s: State, t: nat, pc: Pc): State
    requires pc.Closing?
  {
    if pc.attempt !in s.attempts then s
    else
      var a := s.attempts[pc.attempt].(outcome := Some(pc.outcome), closedAt := s.now);
      Returned(s.(attempts := s.attempts[pc.attempt := a]), t, pc.entry, pc.outcome, None)
  }

  function Await(s: State, t: nat, pc: Pc, ctxDone: bool): State
    requires pc.Joined?
  {
    if pc.attempt !in s.attempts then s
    else
      var a := s.attempts[pc.attempt];
      if ctxDone then Returned(s, t, pc.entry, Outcome(None, Some(ContextDone), s.now), Some(a))
      else if a.outcome.Some? then Returned(s, t, pc.entry, a.outcome.value, Some(a))
      else s
  }

  function Poll(s: State, t: nat, ctxDone: bool): State {
    if RotationDue(s.sh, s.now) && MayBegin(s.sh, ctxDone, s.sh.revision, s.now) then
      Go(s.(sh := Begun(s.sh), rotator := Some(t),
            log := s.log + [CapturedRevision(t, s.sh.revision), RotationStarted(t)]),
         t, Provisioning(RotationRun(true), s.sh.provider, s.sh.revision))
    else Go(s, t, WorkerSleeping)
  }

  function Decide(s: State, t: nat, pc: Pc): State
    requires pc.Deciding?
  {
    if pc.cached.Some? && Usable(pc.cached.value, pc.entry) then
      if pc.entry < pc.rotateAt || pc.entry < pc.retryAt
      then Returned(s, t, pc.entry, Outcome(pc.cached, None, pc.entry), None)
      else Go(s, t, Requesting(pc.entry, pc.cached.value, pc.provider, pc.revision))
    else Go(s, t, SyncEntering(pc.entry))
  }

  predicate InHandshake(pc: Pc) {
    pc.Entered? || pc.Deciding? || pc.Requesting?
  }

  predicate InSync(pc: Pc) {
    pc.SyncEntering? || pc.Joined? || pc.Capturing? || pc.Rechecking? || pc.Finishing? || pc.Closing?
  }

  predicate InRun(pc: Pc) {
    pc.Provisioning? || pc.Checked? || pc.Installing? || pc.Clearing?
  }

  predicate InEnd(pc: Pc) {
    pc.Retrying? || pc.Ending? || pc.Notifying?
  }

  function HandshakeMove(s: State, t: nat, pc: Pc): State {
    match pc
    case Entered(entry) =>
      Go(Logged(s, CapturedRevision(t, s.sh.revision)), t,
         Deciding(entry, s.sh.cert, s.sh.rotateAt, s.sh.retryAt, s.sh.provider, s.sh.revision))
    case Deciding(_, _, _, _, _, _) => Decide(s, t, pc)
    case Requesting(_, _, _, _) => Request(s, t, pc)
    case _ => s
  }

  function SyncMove(c: Config, s: State, t: nat, pc: Pc, choice: Choice): State {
    match pc
    case SyncEntering(entry) => EnterSync(s, t, entry)
    case Joined(_, _) => Await(s, t, pc, choice.flag)
    case Capturing(entry, k) =>
      Go(Logged(s, CapturedRevision(t, s.sh.revision)), t,
         Provisioning(SyncRun(entry, k), s.sh.provider, s.sh.revision))
    case Rechecking(entry, k, current) =>
      Go(s, t, Finishing(entry, k, Outcome(Some(current), UsableForHandshake(current, s.now), s.now)))
    case Finishing(_, _, _) => Finish(c, s, t, pc, choice.flag)
    case Closing(_, _, _) => Close(s, t, pc)
    case _ => s
  }

  function RunMove(c: Config, s: State, t: nat, pc: Pc, choice: Choice): State {
    match pc
    case Provisioning(_, _, _) => ProviderAnswered(s, t, pc, choice.answer)
    case Checked(run, provider, revision, cert, judged, ttl) =>
      var renewAt := s.now + EffectiveTTL(c.defaultTTL, ttl) / 2;
      Go(s, t, Installing(run, provider, revision, cert, judged, renewAt, Renewal(s.now, ttl)))
    case Installing(_, _, _, _, _, _, _) => Install(s, t, pc)
    case Clearing(_, _, _) => Clear(s, t, pc)
    case _ => s
  }

  function EndMove(s: State, t: nat, pc: Pc, choice: Choice): State {
    match pc
    case Retrying(w, revision) =>
      Go(s.(sh := RetryScheduled(s.sh, revision, s.now + choice.delay)), t, Ending(w))
    case Ending(w) =>
      Go(s.(sh := Stopped(s.sh), rotator := None, holder := Some(t)), t, Notifying(w))
    case Notifying(w) =>
      var s' := s.(sh := Notified(s.sh), holder := None);
      if w then Go(s', t, WorkerSleeping) else Gone(s', t)
    case _ => s
  }

  function WorkerMove(s: State, t: nat, pc: Pc, choice: Choice): State {
    match pc
    case WorkerStarting => Go(s.(sh := Opened(s.sh)), t, WorkerLooping)
    case WorkerLooping => Go(s, t, if choice.flag then WorkerStopping else WorkerPolling)
    case WorkerPolling => Poll(s, t, choice.flag)
    case WorkerSleeping => Go(s, t, if choice.flag then WorkerStopping else WorkerLooping)
    case WorkerStopping => Go(s.(sh := CancelRequested(s.sh)), t, WorkerSpinning)
    case WorkerSpinning =>
      if s.sh.rotating then Go(s, t, WorkerReceiving)
      else Logged(Gone(s.(workers := s.workers - {t}), t), WorkerReturned(t))
    case WorkerReceiving =>
      if s.sh.token then Go(s.(sh := s.sh.(token := false)), t, WorkerSpinning) else s
    case _ => s
  }

  function Move(c: Config, s: State, t: nat, pc: Pc, choice: Choice): State {
    if InHandshake(pc) then HandshakeMove(s, t, pc)
    else if InSync(pc) then SyncMove(c, s, t, pc, choice)
    else if InRun(pc) then RunMove(c, s, t, pc, choice)
    else if InEnd(pc) then EndMove(s, t, pc, choice)
    else WorkerMove(s, t, pc, choice)
  }

  /** The moves that are a section of mu; they wait while another thread holds it. */
  predicate NeedsLock(pc: Pc) {
    pc.Entered? || pc.Requesting? || pc.SyncEntering? || pc.Capturing? || pc.Installing? || pc.Retrying? ||
    pc.Ending? || pc.WorkerStarting? || pc.WorkerPolling? || pc.WorkerStopping?
  }

  predicate CanMove(s: State, t: nat) {
    t in s.threads && (NeedsLock(s.threads[t]) ==> s.holder.None?)
  }

  function Apply(c: Config, s: State, step: Step): State {
    match step
    case Tick(d) => s.(now := s.now + d)
    case Handshake => Spawned(s, Entered(s.now))
    case SwapProvider(p) => Spawned(s, Provisioning(SwapRun, p, 0))
    case RunRotation =>
      if |s.workers| < c.maxWorkers then
        Logged(Spawned(s.(workers := s.workers + {s.nextThread}), WorkerStarting), WorkerBegan(s.nextThread))
      else s
    case Act(t, choice) => if CanMove(s, t) then Move(c, s, t, s.threads[t], choice) else s
  }

  /** Only thread t and the thread that is spawned next may differ. */
  ghost predicate OneThreadChanged(s: State, s': State, t: nat) {
    forall u | u in s'.threads ::
      u == t || (u == s.nextThread && u !in s.threads) || (u in s.threads && s'.threads[u] == s.threads[u])
  }

  function Exec(c: Config, steps: seq<Step>): State {
    if steps == [] then Initial(c)
    else Apply(c, Exec(c, steps[..|steps| - 1]), steps[|steps| - 1])
  }
}
