/** What delays and what cancels a background renewal (pkg/ratls/rotation.go:59-81,
    pkg/ratls/tls.go:466-504). */
module CertRetry {
  import opened CertMachine
  import CertRevision
  import CertRotation

  /** An install clears the retry time, a failure of a run whose revision is current sets it. */
  ghost predicate RetryMoved(s: State, s': State, pc: Pc, delay: nat) {
    s'.sh.retryAt ==
      if s'.sh.revision != s.sh.revision then 0
      else if pc.Retrying? && pc.revision == s.sh.revision then s.now + delay
      else s.sh.retryAt
  }

  /** A renewal starts with its context alive, and a worker that stops cancels it. */
  ghost predicate CancelMoved(s: State, s': State, pc: Pc) {
    s'.sh.rotating ==>
      s'.sh.cancelled == (s.sh.rotating && (s.sh.cancelled || (pc.WorkerStopping? && s.sh.cancel)))
  }

  ghost predicate Moved(s: State, s': State, pc: Pc, choice: Choice) {
    RetryMoved(s, s', pc, choice.delay) && CancelMoved(s, s', pc)
  }

  lemma HandshakeMoved(s: State, t: nat, choice: Choice)
    requires t in s.threads && InHandshake(s.threads[t])
    ensures Moved(s, HandshakeMove(s, t, s.threads[t]), s.threads[t], choice)
  {
  }

  lemma SyncMoved(c: Config, s: State, t: nat, choice: Choice)
    requires t in s.threads && InSync(s.threads[t])
    ensures Moved(s, SyncMove(c, s, t, s.threads[t], choice), s.threads[t], choice)
  {
  }

  lemma RunMoved(c: Config, s: State, t: nat, choice: Choice)
    requires t in s.threads && InRun(s.threads[t])
    ensures Moved(s, RunMove(c, s, t, s.threads[t], choice), s.threads[t], choice)
  {
  }

  lemma EndMoved(s: State, t: nat, choice: Choice)
    requires t in s.threads && InEnd(s.threads[t])
    ensures Moved(s, EndMove(s, t, s.threads[t], choice), s.threads[t], choice)
  {
  }

  lemma WorkerMoved(s: State, t: nat, choice: Choice)
    requires t in s.threads && !InHandshake(s.threads[t]) && !InSync(s.threads[t]) && !InRun(s.threads[t])
    requires !InEnd(s.threads[t])
    ensures Moved(s, WorkerMove(s, t, s.threads[t], choice), s.threads[t], choice)
  {
  }

  lemma ActMoved(c: Config, s: State, t: nat, choice: Choice)
    requires CanMove(s, t)
    ensures Moved(s, Move(c, s, t, s.threads[t], choice), s.threads[t], choice)
  {
    if InHandshake(s.threads[t]) {
      HandshakeMoved(s, t, choice);
    } else if InSync(s.threads[t]) {
      SyncMoved(c, s, t, choice);
    } else if InRun(s.threads[t]) {
      RunMoved(c, s, t, choice);
    } else if InEnd(s.threads[t]) {
      EndMoved(s, t, choice);
    } else {
      WorkerMoved(s, t, choice);
    }
  }

  /** The move is that of a failed renewal during which nothing was installed. */
  ghost predicate FailsUndisturbed(s: State, step: Step) {
    && step.Act? && CanMove(s, step.thread) && s.threads[step.thread].Retrying?
    && s.threads[step.thread].revision == CertRevision.Installs(s.log)
  }

  ghost predicate WorkerStops(s: State, step: Step) {
    step.Act? && CanMove(s, step.thread) && s.threads[step.thread].WorkerStopping?
  }

  lemma ExecOn(c: Config, steps: seq<Step>, step: Step)
    ensures Exec(c, steps + [step]) == Apply(c, Exec(c, steps), step)
  {
    assert (steps + [step])[..|steps|] == steps;
  }

  /** In every interleaving the retry time is set by a failed renewal during which nothing was installed,
      to the end of its delay, cleared by an install, and otherwise left alone. */
  lemma RetryIs(c: Config, steps: seq<Step>, step: Step)
    ensures var s, s' := Exec(c, steps), Exec(c, steps + [step]);
            s'.sh.retryAt ==
            if CertRevision.Installs(s'.log) != CertRevision.Installs(s.log) then 0
            else if FailsUndisturbed(s, step) then s.now + step.choice.delay
            else s.sh.retryAt
  {
    var s := Exec(c, steps);
    ExecOn(c, steps, step);
    CertRevision.RevisionInvAlways(c, steps);
    CertRevision.RevisionInvAlways(c, steps + [step]);
    if step.Act? && CanMove(s, step.thread) { ActMoved(c, s, step.thread, step.choice); }
  }

  /** In every interleaving a renewal that runs has been cancelled exactly when a worker stopped since it
      started. */
  lemma CancelledIs(c: Config, steps: seq<Step>, step: Step)
    requires Exec(c, steps + [step]).sh.rotating
    ensures var s, s' := Exec(c, steps), Exec(c, steps + [step]);
            s'.sh.cancelled <==> s.sh.rotating && (s.sh.cancelled || WorkerStops(s, step))
  {
    var s := Exec(c, steps);
    ExecOn(c, steps, step);
    CertRotation.RotationInvAlways(c, steps);
    if step.Act? && CanMove(s, step.thread) { ActMoved(c, s, step.thread, step.choice); }
  }
}
