/** Background rotation: mutual exclusion, wake-up and shutdown, over every interleaving
    (pkg/ratls/rotation.go, pkg/ratls/tls.go:465-475). */
module CertRotation {
  import opened Wrappers
  import opened CertState
  import opened CertMachine

  /** Between a successful beginRotationLocked and `rotating.Store(false)`. */
  predicate IsRotating(pc: Pc) {
    match pc
    case Provisioning(run, _, _) => run.RotationRun?
    case Checked(run, _, _, _, _, _) => run.RotationRun?
    case Installing(run, _, _, _, _, _, _) => run.RotationRun?
    case Clearing(run, _, _) => run.RotationRun?
    case Retrying(_, _) => true
    case Ending(_) => true
    case _ => false
  }

  /** Inside RunRotation, its own rotations included. */
  predicate IsWorker(pc: Pc) {
    match pc
    case Provisioning(run, _, _) => run == RotationRun(true)
    case Checked(run, _, _, _, _, _) => run == RotationRun(true)
    case Installing(run, _, _, _, _, _, _) => run == RotationRun(true)
    case Clearing(run, _, _) => run == RotationRun(true)
    case Retrying(w, _) => w
    case Ending(w) => w
    case Notifying(w) => w
    case WorkerStarting => true
    case WorkerLooping => true
    case WorkerPolling => true
    case WorkerSleeping => true
    case WorkerStopping => true
    case WorkerSpinning => true
    case WorkerReceiving => true
    case _ => false
  }

  ghost predicate ThreadInv(s: State) {
    forall t | t in s.threads ::
      && t < s.nextThread
      && (IsRotating(s.threads[t]) <==> s.rotator == Some(t))
      && (s.threads[t].Notifying? <==> s.holder == Some(t))
      && (IsWorker(s.threads[t]) <==> t in s.workers)
      && (IsWorker(s.threads[t]) && !s.threads[t].WorkerStarting? ==> s.sh.channel)
  }

  ghost predicate RotationInv(c: Config, s: State) {
    && ThreadInv(s)
    && (s.rotator.Some? ==> s.rotator.value in s.threads)
    && (s.holder.Some? ==> s.holder.value in s.threads && s.rotator.None?)
    && (s.sh.rotating <==> s.rotator.Some?)
    && (s.sh.cancel <==> s.rotator.Some?)
    && s.workers <= s.threads.Keys
    && |s.workers| <= c.maxWorkers
    && (s.sh.channel && s.workers == {} ==> s.rotator.None?)
  }

  /** What the rotation invariant reads, apart from the threads. */
  ghost predicate SameRotationState(s: State, s': State) {
    && s'.rotator == s.rotator && s'.holder == s.holder && s'.workers == s.workers
    && s'.sh.channel == s.sh.channel && s'.sh.rotating == s.sh.rotating && s'.sh.cancel == s.sh.cancel
  }

  ghost predicate SameSignals(s: State, s': State) {
    s'.sh.token == s.sh.token && s'.sh.cancelled == s.sh.cancelled
  }

  ghost predicate SameRole(pc: Pc, pc': Pc) {
    && (IsRotating(pc) <==> IsRotating(pc')) && (IsWorker(pc) <==> IsWorker(pc'))
    && (pc.Notifying? <==> pc'.Notifying?) && (pc'.WorkerStarting? || !pc.WorkerStarting?)
  }

  /** A move that neither begins nor ends a rotation or a worker. */
  ghost predicate PlainChange(s: State, s': State, t: nat)
    requires t in s.threads
  {
    && s'.nextThread == s.nextThread && SameRotationState(s, s')
    && if t in s'.threads then s'.threads == s.threads[t := s'.threads[t]] && SameRole(s.threads[t], s'.threads[t])
       else s'.threads == s.threads - {t} && !IsRotating(s.threads[t]) && !IsWorker(s.threads[t]) &&
            !s.threads[t].Notifying?
  }

  /** A plain move that also leaves the channel and the cancellation alone. */
  ghost predicate QuietChange(s: State, s': State, t: nat)
    requires t in s.threads
  {
    && PlainChange(s, s', t) && SameSignals(s, s')
    && (t in s'.threads ==> !s'.threads[t].WorkerSpinning? && !s'.threads[t].WorkerReceiving?)
  }

  lemma PlainFinish(c: Config, s: State, t: nat, ctxAlive: bool)
    requires t in s.threads && s.threads[t].Finishing?
    ensures QuietChange(s, Finish(c, s, t, s.threads[t], ctxAlive), t)
  {
  }

  lemma PlainEnterSync(s: State, t: nat)
    requires t in s.threads && s.threads[t].SyncEntering?
    ensures QuietChange(s, EnterSync(s, t, s.threads[t].entry), t)
  {
  }

  lemma PlainSyncMove(c: Config, s: State, t: nat, choice: Choice)
    requires t in s.threads && InSync(s.threads[t])
    ensures QuietChange(s, SyncMove(c, s, t, s.threads[t], choice), t)
  {
    if s.threads[t].SyncEntering? {
      PlainEnterSync(s, t);
    } else if s.threads[t].Finishing? {
      PlainFinish(c, s, t, choice.flag);
    }
  }

  lemma PlainAnswer(s: State, t: nat, answer: Answer)
    requires t in s.threads && s.threads[t].Provisioning?
    ensures QuietChange(s, ProviderAnswered(s, t, s.threads[t], answer), t)
  {
  }

  lemma PlainStale(s: State, t: nat)
    requires t in s.threads && s.threads[t].Installing?
    requires !s.threads[t].run.SwapRun? && s.sh.revision != s.threads[t].revision
    ensures QuietChange(s, Install(s, t, s.threads[t]), t)
  {
  }

  lemma PlainInstall(s: State, t: nat)
    requires t in s.threads && s.threads[t].Installing?
    ensures QuietChange(s, Install(s, t, s.threads[t]), t)
  {
    if !s.threads[t].run.SwapRun? && s.sh.revision != s.threads[t].revision { PlainStale(s, t); }
  }

  lemma PlainRunMove(c: Config, s: State, t: nat, choice: Choice)
    requires t in s.threads && InRun(s.threads[t])
    ensures QuietChange(s, RunMove(c, s, t, s.threads[t], choice), t)
  {
    if s.threads[t].Provisioning? {
      PlainAnswer(s, t, choice.answer);
    } else if s.threads[t].Installing? {
      PlainInstall(s, t);
    }
  }

  lemma PlainChangeKeepsInv(c: Config, s: State, s': State, t: nat)
    requires RotationInv(c, s) && t in s.threads && PlainChange(s, s', t)
    ensures RotationInv(c, s')
  {
  }

  lemma HandshakeKeepsInv(c: Config, s: State, t: nat)
    requires RotationInv(c, s) && CanMove(s, t) && InHandshake(s.threads[t])
    ensures RotationInv(c, HandshakeMove(s, t, s.threads[t]))
  {
    var s' := HandshakeMove(s, t, s.threads[t]);
    if s'.nextThread == s.nextThread {
      PlainChangeKeepsInv(c, s, s', t);
    }
  }

  lemma EndKeepsInv(c: Config, s: State, t: nat, choice: Choice)
    requires RotationInv(c, s) && CanMove(s, t) && InEnd(s.threads[t])
    ensures RotationInv(c, EndMove(s, t, s.threads[t], choice))
  {
  }

  lemma StartingKeepsInv(c: Config, s: State, t: nat)
    requires RotationInv(c, s) && CanMove(s, t) && s.threads[t].WorkerStarting?
    ensures RotationInv(c, Go(s.(sh := Opened(s.sh)), t, WorkerLooping))
  {
  }

  predicate Starts(s: State, ctxDone: bool) {
    RotationDue(s.sh, s.now) && MayBegin(s.sh, ctxDone, s.sh.revision, s.now)
  }

  lemma IdlePoll(s: State, t: nat, ctxDone: bool)
    requires t in s.threads && s.threads[t].WorkerPolling? && !Starts(s, ctxDone)
    ensures PlainChange(s, Poll(s, t, ctxDone), t)
  {
  }

  lemma PollKeepsInv(c: Config, s: State, t: nat, ctxDone: bool)
    requires RotationInv(c, s) && CanMove(s, t) && s.threads[t].WorkerPolling?
    ensures RotationInv(c, Poll(s, t, ctxDone))
  {
    if !Starts(s, ctxDone) {
      IdlePoll(s, t, ctxDone);
      PlainChangeKeepsInv(c, s, Poll(s, t, ctxDone), t);
    }
  }

  lemma ReturnKeepsInv(c: Config, s: State, t: nat)
    requires RotationInv(c, s) && CanMove(s, t) && s.threads[t].WorkerSpinning? && !s.sh.rotating
    ensures RotationInv(c, Logged(Gone(s.(workers := s.workers - {t}), t), WorkerReturned(t)))
  {
  }

  lemma PlainWorkerMove(s: State, t: nat, choice: Choice)
    requires t in s.threads
    requires s.threads[t].WorkerLooping? || s.threads[t].WorkerSleeping? || s.threads[t].WorkerStopping? ||
             s.threads[t].WorkerReceiving? || (s.threads[t].WorkerSpinning? && s.sh.rotating)
    ensures PlainChange(s, WorkerMove(s, t, s.threads[t], choice), t)
  {
    if s.threads[t].WorkerStopping? || s.threads[t].WorkerReceiving? { PlainStopping(s, t, choice); }
  }

  lemma PlainStopping(s: State, t: nat, choice: Choice)
    requires t in s.threads && (s.threads[t].WorkerStopping? || s.threads[t].WorkerReceiving?)
    ensures PlainChange(s, WorkerMove(s, t, s.threads[t], choice), t)
  {
  }

  lemma WorkerKeepsInv(c: Config, s: State, t: nat, choice: Choice)
    requires RotationInv(c, s) && CanMove(s, t)
    requires !InHandshake(s.threads[t]) && !InSync(s.threads[t]) && !InRun(s.threads[t]) && !InEnd(s.threads[t])
    ensures RotationInv(c, WorkerMove(s, t, s.threads[t], choice))
  {
    var pc := s.threads[t];
    if pc.WorkerStarting? {
      StartingKeepsInv(c, s, t);
    } else if pc.WorkerPolling? {
      PollKeepsInv(c, s, t, choice.flag);
    } else if pc.WorkerSpinning? && !s.sh.rotating {
      ReturnKeepsInv(c, s, t);
    } else {
      PlainWorkerMove(s, t, choice);
      PlainChangeKeepsInv(c, s, WorkerMove(s, t, pc, choice), t);
    }
  }

  lemma ActKeepsInv(c: Config, s: State, t: nat, choice: Choice)
    requires RotationInv(c, s) && CanMove(s, t)
    ensures RotationInv(c, Move(c, s, t, s.threads[t], choice))
  {
    var s' := Move(c, s, t, s.threads[t], choice);
    if InHandshake(s.threads[t]) {
      HandshakeKeepsInv(c, s, t);
    } else if InSync(s.threads[t]) {
      PlainSyncMove(c, s, t, choice);
      PlainChangeKeepsInv(c, s, s', t);
    } else if InRun(s.threads[t]) {
      PlainRunMove(c, s, t, choice);
      PlainChangeKeepsInv(c, s, s', t);
    } else if InEnd(s.threads[t]) {
      EndKeepsInv(c, s, t, choice);
    } else {
      WorkerKeepsInv(c, s, t, choice);
    }
  }

  lemma NewThreadKeepsInv(c: Config, s: State, pc: Pc)
    requires RotationInv(c, s) && (pc.Entered? || (pc.Provisioning? && pc.run.SwapRun?))
    ensures RotationInv(c, Spawned(s, pc))
  {
  }

  lemma NewWorkerKeepsInv(c: Config, s: State)
    requires RotationInv(c, s)
    ensures RotationInv(c, Apply(c, s, RunRotation))
  {
  }

  lemma TickKeepsInv(c: Config, s: State, elapsed: nat)
    requires RotationInv(c, s)
    ensures RotationInv(c, Apply(c, s, Tick(elapsed)))
  {
  }

  lemma SpawnKeepsInv(c: Config, s: State, step: Step)
    requires RotationInv(c, s) && !step.Act?
    ensures RotationInv(c, Apply(c, s, step))
  {
    if step.Tick? {
      TickKeepsInv(c, s, step.elapsed);
    } else if step.RunRotation? {
      NewWorkerKeepsInv(c, s);
    } else if step.Handshake? {
      NewThreadKeepsInv(c, s, Entered(s.now));
    } else {
      NewThreadKeepsInv(c, s, Provisioning(SwapRun, step.provider, 0));
    }
  }

  lemma StepKeepsRotationInv(c: Config, s: State, step: Step)
    requires RotationInv(c, s)
    ensures RotationInv(c, Apply(c, s, step))
  {
    if !step.Act? {
      SpawnKeepsInv(c, s, step);
    } else if CanMove(s, step.thread) {
      ActKeepsInv(c, s, step.thread, step.choice);
    }
  }

  lemma {:induction false} RotationInvAlways(c: Config, steps: seq<Step>)
    ensures RotationInv(c, Exec(c, steps))
  {
    if steps != [] {
      RotationInvAlways(c, steps[..|steps| - 1]);
      StepKeepsRotationInv(c, Exec(c, steps[..|steps| - 1]), steps[|steps| - 1]);
    }
  }

  /** In every interleaving at most one background rotation runs, and the flag says whether one does. */
  lemma AtMostOneRotation(c: Config, steps: seq<Step>, t: nat, u: nat)
    requires t in Exec(c, steps).threads && IsRotating(Exec(c, steps).threads[t])
    requires u in Exec(c, steps).threads && IsRotating(Exec(c, steps).threads[u])
    ensures t == u && Exec(c, steps).sh.rotating
  {
    RotationInvAlways(c, steps);
  }

  // ---- wake-up of a stopping worker ----

  ghost predicate RotationActive(s: State) {
    exists u | u in s.threads :: IsRotating(s.threads[u]) || s.threads[u].Notifying?
  }

  /** A worker that has seen `rotating` and waits on the channel will be woken: a rotation is
      still on its way to the send, or its message is already there. */
  ghost predicate NoLostWakeup(s: State) {
    forall t | t in s.threads && s.threads[t].WorkerReceiving? :: s.sh.token || RotationActive(s)
  }

  /** The rotation a stopping worker waits for has had its context cancelled. */
  ghost predicate WaitsForCancelled(s: State) {
    forall t | t in s.threads && (s.threads[t].WorkerSpinning? || s.threads[t].WorkerReceiving?) ::
      s.sh.rotating ==> s.sh.cancelled
  }

  ghost predicate WakeInv(s: State) {
    forall t | t in s.threads && t in s.workers ::
      && (s.threads[t].WorkerReceiving? ==> s.sh.token || s.rotator.Some? || s.holder.Some?)
      && (s.threads[t].WorkerSpinning? || s.threads[t].WorkerReceiving? ==> s.rotator.Some? ==> s.sh.cancelled)
  }

  lemma OneWorker(s: State, t: nat, u: nat)
    requires |s.workers| <= 1 && t in s.workers && u in s.workers
    ensures t == u
  {
    assert |s.workers - {t}| == |s.workers| - 1;
  }

  lemma PlainChangeKeepsWake(c: Config, s: State, s': State, t: nat)
    requires RotationInv(c, s) && WakeInv(s) && CanMove(s, t) && (InSync(s.threads[t]) || InRun(s.threads[t]))
    requires QuietChange(s, s', t)
    ensures WakeInv(s')
  {
  }

  lemma HandshakeKeepsWake(c: Config, s: State, t: nat)
    requires RotationInv(c, s) && WakeInv(s) && CanMove(s, t) && InHandshake(s.threads[t])
    ensures WakeInv(HandshakeMove(s, t, s.threads[t]))
  {
  }

  lemma EndKeepsWake(c: Config, s: State, t: nat, choice: Choice)
    requires RotationInv(c, s) && WakeInv(s) && CanMove(s, t) && InEnd(s.threads[t])
    ensures WakeInv(EndMove(s, t, s.threads[t], choice))
  {
  }

  lemma WorkerKeepsWake(c: Config, s: State, t: nat, choice: Choice)
    requires c.maxWorkers <= 1 && RotationInv(c, s) && WakeInv(s) && CanMove(s, t) && IsWorker(s.threads[t])
    requires !InRun(s.threads[t]) && !InEnd(s.threads[t])
    ensures WakeInv(WorkerMove(s, t, s.threads[t], choice))
  {
    var s' := WorkerMove(s, t, s.threads[t], choice);
    forall u | u in s'.threads && u in s'.workers
      ensures s'.threads[u].WorkerReceiving? ==> s'.sh.token || s'.rotator.Some? || s'.holder.Some?
      ensures s'.threads[u].WorkerSpinning? || s'.threads[u].WorkerReceiving? ==> s'.rotator.Some? ==> s'.sh.cancelled
    {
      OneWorker(s, t, u);
    }
  }

  lemma MoveKeepsWake(c: Config, s: State, t: nat, choice: Choice)
    requires c.maxWorkers <= 1 && RotationInv(c, s) && WakeInv(s) && CanMove(s, t)
    ensures WakeInv(Move(c, s, t, s.threads[t], choice))
  {
    var s' := Move(c, s, t, s.threads[t], choice);
    if InHandshake(s.threads[t]) {
      HandshakeKeepsWake(c, s, t);
    } else if InSync(s.threads[t]) {
      PlainSyncMove(c, s, t, choice);
      PlainChangeKeepsWake(c, s, s', t);
    } else if InRun(s.threads[t]) {
      PlainRunMove(c, s, t, choice);
      PlainChangeKeepsWake(c, s, s', t);
    } else if InEnd(s.threads[t]) {
      EndKeepsWake(c, s, t, choice);
    } else {
      WorkerKeepsWake(c, s, t, choice);
    }
  }

  lemma StepKeepsWake(c: Config, s: State, step: Step)
    requires c.maxWorkers <= 1 && RotationInv(c, s) && WakeInv(s)
    ensures WakeInv(Apply(c, s, step))
  {
    if step.Act? && CanMove(s, step.thread) {
      MoveKeepsWake(c, s, step.thread, step.choice);
    }
  }

  lemma {:induction false} WakeInvAlways(c: Config, steps: seq<Step>)
    requires c.maxWorkers <= 1
    ensures WakeInv(Exec(c, steps))
  {
    if steps != [] {
      var before := steps[..|steps| - 1];
      WakeInvAlways(c, before);
      RotationInvAlways(c, before);
      StepKeepsWake(c, Exec(c, before), steps[|steps| - 1]);
    }
  }

  /** With one worker per manager, stopRotation never waits for a message that is not coming,
      and whatever it waits for has been told to stop. */
  lemma OneWorkerNeverStuck(c: Config, steps: seq<Step>)
    requires c.maxWorkers <= 1
    ensures NoLostWakeup(Exec(c, steps)) && WaitsForCancelled(Exec(c, steps))
  {
    RotationInvAlways(c, steps);
    WakeInvAlways(c, steps);
  }

  // ---- shutdown ----

  /** The log grew by events that neither start a rotation nor end a worker. */
  ghost predicate Uneventful(s: State, s': State) {
    && s.log <= s'.log && s'.workers == s.workers && s'.sh.channel == s.sh.channel
    && forall i | |s.log| <= i < |s'.log| :: !s'.log[i].RotationStarted? && !s'.log[i].WorkerReturned?
  }

  lemma SyncUneventful(c: Config, s: State, t: nat, choice: Choice)
    requires t in s.threads && InSync(s.threads[t])
    ensures Uneventful(s, SyncMove(c, s, t, s.threads[t], choice))
  {
  }

  lemma RunUneventful(c: Config, s: State, t: nat, choice: Choice)
    requires t in s.threads && InRun(s.threads[t])
    ensures Uneventful(s, RunMove(c, s, t, s.threads[t], choice))
  {
  }

  lemma EndUneventful(s: State, t: nat, choice: Choice)
    requires t in s.threads && InEnd(s.threads[t])
    ensures Uneventful(s, EndMove(s, t, s.threads[t], choice))
  {
  }

  lemma HandshakeUneventful(s: State, t: nat)
    requires t in s.threads && InHandshake(s.threads[t]) && s.sh.channel
    ensures Uneventful(s, HandshakeMove(s, t, s.threads[t]))
  {
  }

  ghost predicate Quiescent(s: State) {
    s.sh.channel && s.workers == {}
  }

  lemma QuiescentMove(c: Config, s: State, t: nat, choice: Choice)
    requires RotationInv(c, s) && Quiescent(s) && CanMove(s, t)
    ensures Uneventful(s, Move(c, s, t, s.threads[t], choice))
  {
    if InHandshake(s.threads[t]) {
      HandshakeUneventful(s, t);
    } else if InSync(s.threads[t]) {
      SyncUneventful(c, s, t, choice);
    } else if InRun(s.threads[t]) {
      RunUneventful(c, s, t, choice);
    } else if InEnd(s.threads[t]) {
      EndUneventful(s, t, choice);
    } else {
      assert false;
    }
  }

  lemma QuiescentStep(c: Config, s: State, step: Step)
    requires RotationInv(c, s) && Quiescent(s) && !step.RunRotation?
    ensures Uneventful(s, Apply(c, s, step))
  {
    if step.Act? && CanMove(s, step.thread) { QuiescentMove(c, s, step.thread, step.choice); }
  }

  lemma UneventfulChain(s: State, s': State, s'': State)
    requires Uneventful(s, s') && Uneventful(s', s'')
    ensures Uneventful(s, s'')
  {
    assert forall i | 0 <= i < |s'.log| :: s''.log[i] == s'.log[i];
  }

  lemma QuiescentExtends(c: Config, start: State, s: State, step: Step)
    requires RotationInv(c, s) && Quiescent(start) && Uneventful(start, s) && !step.RunRotation?
    ensures Uneventful(start, Apply(c, s, step))
  {
    QuiescentStep(c, s, step);
    UneventfulChain(start, s, Apply(c, s, step));
  }

  lemma ExecAppend(c: Config, steps: seq<Step>, step: Step)
    ensures Exec(c, steps + [step]) == Apply(c, Exec(c, steps), step)
  {
    assert (steps + [step])[..|steps|] == steps;
  }

  lemma {:induction false} QuiescentForever(c: Config, p: seq<Step>, q: seq<Step>)
    requires Quiescent(Exec(c, p)) && forall i | 0 <= i < |q| :: !q[i].RunRotation?
    ensures Uneventful(Exec(c, p), Exec(c, p + q))
  {
    if q == [] {
      assert p + q == p;
    } else {
      var n := |q| - 1;
      QuiescentForever(c, p, q[..n]);
      RotationInvAlways(c, p + q[..n]);
      QuiescentExtends(c, Exec(c, p), Exec(c, p + q[..n]), q[n]);
      assert p + q == p + q[..n] + [q[n]];
      ExecAppend(c, p + q[..n], q[n]);
    }
  }

  /** A worker can only have returned once the channel exists. */
  ghost predicate ReturnedInv(s: State) {
    forall i | 0 <= i < |s.log| && s.log[i].WorkerReturned? :: s.sh.channel
  }

  lemma HandshakeReturnsNoWorker(s: State, t: nat)
    requires ReturnedInv(s) && t in s.threads && InHandshake(s.threads[t])
    ensures ReturnedInv(HandshakeMove(s, t, s.threads[t]))
  {
  }

  lemma WorkerReturnsWithChannel(c: Config, s: State, t: nat, choice: Choice)
    requires RotationInv(c, s) && ReturnedInv(s) && t in s.threads
    requires !InHandshake(s.threads[t]) && !InSync(s.threads[t]) && !InRun(s.threads[t]) && !InEnd(s.threads[t])
    ensures ReturnedInv(WorkerMove(s, t, s.threads[t], choice))
  {
  }

  lemma UneventfulKeepsReturned(s: State, s': State)
    requires ReturnedInv(s) && Uneventful(s, s')
    ensures ReturnedInv(s')
  {
    forall i | 0 <= i < |s'.log| && s'.log[i].WorkerReturned? ensures s'.sh.channel {
      assert i < |s.log| && s.log[i] == s'.log[i];
    }
  }

  lemma MoveKeepsReturned(c: Config, s: State, t: nat, choice: Choice)
    requires RotationInv(c, s) && ReturnedInv(s) && CanMove(s, t)
    ensures ReturnedInv(Move(c, s, t, s.threads[t], choice))
  {
    var s' := Move(c, s, t, s.threads[t], choice);
    if InHandshake(s.threads[t]) {
      HandshakeReturnsNoWorker(s, t);
    } else if InSync(s.threads[t]) {
      SyncUneventful(c, s, t, choice);
      UneventfulKeepsReturned(s, s');
    } else if InRun(s.threads[t]) {
      RunUneventful(c, s, t, choice);
      UneventfulKeepsReturned(s, s');
    } else if InEnd(s.threads[t]) {
      EndUneventful(s, t, choice);
      UneventfulKeepsReturned(s, s');
    } else {
      WorkerReturnsWithChannel(c, s, t, choice);
    }
  }

  lemma StepKeepsReturned(c: Config, s: State, step: Step)
    requires RotationInv(c, s) && ReturnedInv(s)
    ensures ReturnedInv(Apply(c, s, step))
  {
    if step.Act? && CanMove(s, step.thread) { MoveKeepsReturned(c, s, step.thread, step.choice); }
  }

  lemma {:induction false} ReturnedInvAlways(c: Config, steps: seq<Step>)
    ensures ReturnedInv(Exec(c, steps))
  {
    if steps != [] {
      ReturnedInvAlways(c, steps[..|steps| - 1]);
      RotationInvAlways(c, steps[..|steps| - 1]);
      StepKeepsReturned(c, Exec(c, steps[..|steps| - 1]), steps[|steps| - 1]);
    }
  }

  /** Once every RunRotation has returned, no rotation is running, and none starts again
      unless RunRotation is called anew: handshakes no longer start their own. */
  lemma ShutdownIsFinal(c: Config, p: seq<Step>, q: seq<Step>, worker: nat, t: nat)
    requires Exec(c, p).workers == {} && WorkerReturned(worker) in Exec(c, p).log && RunRotation !in q
    ensures t in Exec(c, p + q).threads ==> !IsRotating(Exec(c, p + q).threads[t])
    ensures forall i | |Exec(c, p).log| <= i < |Exec(c, p + q).log| :: !Exec(c, p + q).log[i].RotationStarted?
  {
    ReturnedInvAlways(c, p);
    assert forall i | 0 <= i < |q| :: q[i] in q;
    QuiescentForever(c, p, q);
    RotationInvAlways(c, p + q);
  }
}
