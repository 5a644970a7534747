/** The negative cache of the synchronous path: after a failed attempt the provider is left
    alone for the cooldown, unless a successful install clears it in between
    (pkg/ratls/tls.go:334-355, 399, 420-428, 523, 597). */
module CertCooldown {
  import opened Wrappers
  import opened CertState
  import opened CertMachine
  import CertRotation
  import CertSync

  /** The last failure with a live context that has not been cleared since. */
  function LastFailure(log: seq<Event>): Option<Time> {
    if log == [] then None
    else
      var e := log[|log| - 1];
      if e.ClearedCooldown? then None
      else if e.SyncFailed? && e.ctxAlive then Some(e.at)
      else LastFailure(log[..|log| - 1])
  }

  /** The last thing thread t did that is logged is the install at position i. */
  ghost predicate LastIsInstall(log: seq<Event>, t: nat, i: nat) {
    && i < |log| && log[i].InstalledCert? && log[i].thread == t
    && forall j | i < j < |log| :: log[j].thread != t
  }

  ghost predicate HasInstall(log: seq<Event>, t: nat) {
    exists i: nat :: LastIsInstall(log, t, i)
  }

  ghost predicate EventOk(cooldown: nat, before: seq<Event>, e: Event) {
    match e
    case SyncStarted(_, _, at) => LastFailure(before).Some? ==> LastFailure(before).value + cooldown <= at
    case SyncFailed(_, _, at, _) => LastFailure(before).Some? ==> LastFailure(before).value <= at
    case ClearedCooldown(t, _) => HasInstall(before, t)
    case _ => true
  }

  ghost predicate LogOk(cooldown: nat, log: seq<Event>) {
    forall k {:trigger EventOk(cooldown, log[..k], log[k])} | 0 <= k < |log| :: EventOk(cooldown, log[..k], log[k])
  }

  lemma LogOkAppend(cooldown: nat, log: seq<Event>, e: Event)
    requires LogOk(cooldown, log) && EventOk(cooldown, log, e)
    ensures LogOk(cooldown, log + [e])
    ensures LastFailure(log + [e]) ==
            if e.ClearedCooldown? then None else if e.SyncFailed? && e.ctxAlive then Some(e.at) else LastFailure(log)
  {
    var log' := log + [e];
    assert log'[..|log|] == log;
    forall k | 0 <= k < |log'| ensures EventOk(cooldown, log'[..k], log'[k]) {
      if k < |log| { assert log'[..k] == log[..k] && EventOk(cooldown, log[..k], log[k]); }
    }
  }

  function Cooldown(c: Config): nat {
    EffectiveSyncCooldown(c.syncCooldown)
  }

  ghost predicate CacheOk(c: Config, s: State) {
    && LogOk(Cooldown(c), s.log)
    && match LastFailure(s.log)
       case None => s.sh.cooldownUntil == ZERO_TIME
       case Some(f) => s.sh.cooldownUntil == f + Cooldown(c) && f <= s.now
  }

  ghost predicate CooldownInv(c: Config, s: State) {
    CacheOk(c, s) && forall t | t in s.threads && s.threads[t].Clearing? :: HasInstall(s.log, t)
  }

  lemma InstallPersists(log: seq<Event>, log': seq<Event>, t: nat)
    requires HasInstall(log, t) && log <= log' && forall i | |log| <= i < |log'| :: log'[i].thread != t
    ensures HasInstall(log', t)
  {
    var i: nat :| LastIsInstall(log, t, i);
    assert LastIsInstall(log', t, i) by {
      forall j | i < j < |log'| ensures log'[j].thread != t { if j < |log| { assert log'[j] == log[j]; } }
    }
  }

  /** No thread becomes one that has to clear the cache, and those that have to log nothing. */
  ghost predicate Undisturbed(s: State, s': State) {
    forall u | u in s'.threads && s'.threads[u].Clearing? ::
      u in s.threads && s.threads[u].Clearing? && forall i | |s.log| <= i < |s'.log| :: s'.log[i].thread != u
  }

  lemma Assemble(c: Config, s: State, s': State)
    requires CooldownInv(c, s) && CacheOk(c, s') && s.log <= s'.log && Undisturbed(s, s')
    ensures CooldownInv(c, s')
  {
    forall u | u in s'.threads && s'.threads[u].Clearing? ensures HasInstall(s'.log, u) {
      InstallPersists(s.log, s'.log, u);
    }
  }

  predicate Trivial(e: Event) {
    !e.SyncStarted? && !e.SyncFailed? && !e.ClearedCooldown?
  }

  /** A move that neither touches the negative cache nor logs anything about it. */
  ghost predicate Neutral(s: State, s': State) {
    && s'.sh.cooldownUntil == s.sh.cooldownUntil && s'.now == s.now && Undisturbed(s, s')
    && (|| s'.log == s.log
        || (|s'.log| >= 1 && s'.log == s.log + [s'.log[|s'.log| - 1]] && Trivial(s'.log[|s'.log| - 1]))
        || (|s'.log| >= 2 && s'.log == s.log + [s'.log[|s'.log| - 2], s'.log[|s'.log| - 1]] &&
            Trivial(s'.log[|s'.log| - 2]) && Trivial(s'.log[|s'.log| - 1])))
  }

  lemma NeutralKeeps(c: Config, s: State, s': State)
    requires CooldownInv(c, s) && Neutral(s, s')
    ensures CooldownInv(c, s')
  {
    var n := |s'.log|;
    if n == |s.log| + 1 {
      LogOkAppend(Cooldown(c), s.log, s'.log[n - 1]);
    } else if n == |s.log| + 2 {
      LogOkAppend(Cooldown(c), s.log, s'.log[n - 2]);
      LogOkAppend(Cooldown(c), s.log + [s'.log[n - 2]], s'.log[n - 1]);
      assert s'.log == s.log + [s'.log[n - 2]] + [s'.log[n - 1]];
    }
    Assemble(c, s, s');
  }

  lemma HandshakeNeutral(s: State, t: nat)
    requires t in s.threads && InHandshake(s.threads[t]) && s.nextThread !in s.threads
    ensures Neutral(s, HandshakeMove(s, t, s.threads[t]))
  {
  }

  lemma AnswerNeutral(s: State, t: nat, answer: Answer)
    requires t in s.threads && s.threads[t].Provisioning?
    ensures Neutral(s, ProviderAnswered(s, t, s.threads[t], answer))
  {
  }

  lemma EndNeutral(s: State, t: nat, choice: Choice)
    requires t in s.threads && InEnd(s.threads[t])
    ensures Neutral(s, EndMove(s, t, s.threads[t], choice))
  {
  }

  lemma WorkerLoopNeutral(s: State, t: nat, choice: Choice)
    requires t in s.threads &&
             (s.threads[t].WorkerStarting? || s.threads[t].WorkerLooping? || s.threads[t].WorkerSleeping?)
    ensures Neutral(s, WorkerMove(s, t, s.threads[t], choice))
  {
  }

  lemma WorkerStopNeutral(s: State, t: nat, choice: Choice)
    requires t in s.threads &&
             (s.threads[t].WorkerStopping? || s.threads[t].WorkerSpinning? || s.threads[t].WorkerReceiving?)
    ensures Neutral(s, WorkerMove(s, t, s.threads[t], choice))
  {
  }

  lemma WorkerNeutral(s: State, t: nat, choice: Choice)
    requires t in s.threads && !s.threads[t].WorkerPolling?
    ensures Neutral(s, WorkerMove(s, t, s.threads[t], choice))
  {
    var pc := s.threads[t];
    if pc.WorkerStarting? || pc.WorkerLooping? || pc.WorkerSleeping? { WorkerLoopNeutral(s, t, choice); }
    else if pc.WorkerStopping? || pc.WorkerSpinning? || pc.WorkerReceiving? { WorkerStopNeutral(s, t, choice); }
    else { assert WorkerMove(s, t, pc, choice) == s; }
  }

  lemma PollNeutral(s: State, t: nat, ctxDone: bool)
    requires t in s.threads && s.threads[t].WorkerPolling?
    ensures Neutral(s, Poll(s, t, ctxDone))
  {
  }

  lemma SyncNeutral(c: Config, s: State, t: nat, choice: Choice)
    requires t in s.threads &&
             (s.threads[t].Joined? || s.threads[t].Capturing? || s.threads[t].Rechecking? || s.threads[t].Closing?)
    ensures Neutral(s, SyncMove(c, s, t, s.threads[t], choice))
  {
  }

  lemma LeadUndisturbed(s: State, t: nat)
    requires t in s.threads && s.threads[t].SyncEntering? && DecideSync(s.sh, s.threads[t].entry).Lead?
    ensures var s' := EnterSync(s, t, s.threads[t].entry);
            && s'.log == s.log + [SyncStarted(t, s.nextAttempt, s.now)] && Undisturbed(s, s')
            && s'.sh.cooldownUntil == s.sh.cooldownUntil && s'.now == s.now
  {
  }

  lemma FollowNeutral(s: State, t: nat)
    requires t in s.threads && s.threads[t].SyncEntering? && !DecideSync(s.sh, s.threads[t].entry).Lead?
    ensures Neutral(s, EnterSync(s, t, s.threads[t].entry))
  {
  }

  lemma EnterKeeps(c: Config, s: State, t: nat)
    requires CooldownInv(c, s) && t in s.threads && s.threads[t].SyncEntering? && s.threads[t].entry <= s.now
    ensures CooldownInv(c, EnterSync(s, t, s.threads[t].entry))
  {
    var s' := EnterSync(s, t, s.threads[t].entry);
    if DecideSync(s.sh, s.threads[t].entry).Lead? {
      LeadUndisturbed(s, t);
      LogOkAppend(Cooldown(c), s.log, SyncStarted(t, s.nextAttempt, s.now));
      Assemble(c, s, s');
    } else {
      FollowNeutral(s, t);
      NeutralKeeps(c, s, s');
    }
  }

  lemma FinishUndisturbed(c: Config, s: State, t: nat, ctxAlive: bool)
    requires t in s.threads && s.threads[t].Finishing?
    ensures var s' := Finish(c, s, t, s.threads[t], ctxAlive);
            var failed := s.threads[t].outcome.err.Some?;
            && Undisturbed(s, s') && s'.now == s.now
            && s'.log == (if failed then s.log + [SyncFailed(t, s.threads[t].attempt, s.now, ctxAlive)] else s.log)
            && s'.sh.cooldownUntil == if failed && ctxAlive then s.now + Cooldown(c) else s.sh.cooldownUntil
  {
  }

  lemma FinishKeeps(c: Config, s: State, t: nat, ctxAlive: bool)
    requires CooldownInv(c, s) && t in s.threads && s.threads[t].Finishing?
    ensures CooldownInv(c, Finish(c, s, t, s.threads[t], ctxAlive))
  {
    var s' := Finish(c, s, t, s.threads[t], ctxAlive);
    FinishUndisturbed(c, s, t, ctxAlive);
    assert CacheOk(c, s') by {
      if s.threads[t].outcome.err.Some? {
        LogOkAppend(Cooldown(c), s.log, SyncFailed(t, s.threads[t].attempt, s.now, ctxAlive));
      }
    }
    Assemble(c, s, s');
  }

  lemma InstallKeeps(c: Config, s: State, t: nat)
    requires CooldownInv(c, s) && t in s.threads && s.threads[t].Installing?
    ensures CooldownInv(c, Install(s, t, s.threads[t]))
  {
    var pc, s' := s.threads[t], Install(s, t, s.threads[t]);
    if s'.log != s.log {
      var e := s'.log[|s.log|];
      assert s'.log == s.log + [e];
      LogOkAppend(Cooldown(c), s.log, e);
      forall u | u in s'.threads && s'.threads[u].Clearing? ensures HasInstall(s'.log, u) {
        if u == t { assert LastIsInstall(s'.log, t, |s.log|); } else { InstallPersists(s.log, s'.log, u); }
      }
    }
  }

  lemma ClearKeeps(c: Config, s: State, t: nat)
    requires CooldownInv(c, s) && t in s.threads && s.threads[t].Clearing?
    ensures CooldownInv(c, Clear(s, t, s.threads[t]))
  {
    LogOkAppend(Cooldown(c), s.log, ClearedCooldown(t, s.now));
    Assemble(c, s, Clear(s, t, s.threads[t]));
  }

  lemma RunKeeps(c: Config, s: State, t: nat, choice: Choice)
    requires CooldownInv(c, s) && t in s.threads && InRun(s.threads[t])
    ensures CooldownInv(c, RunMove(c, s, t, s.threads[t], choice))
  {
    if s.threads[t].Installing? {
      InstallKeeps(c, s, t);
    } else if s.threads[t].Clearing? {
      ClearKeeps(c, s, t);
    } else {
      if s.threads[t].Provisioning? { AnswerNeutral(s, t, choice.answer); }
      NeutralKeeps(c, s, RunMove(c, s, t, s.threads[t], choice));
    }
  }

  lemma SyncKeeps(c: Config, s: State, t: nat, choice: Choice)
    requires CooldownInv(c, s) && t in s.threads && InSync(s.threads[t]) && CertSync.PcOk(s, t, s.threads[t])
    ensures CooldownInv(c, SyncMove(c, s, t, s.threads[t], choice))
  {
    if s.threads[t].SyncEntering? {
      EnterKeeps(c, s, t);
    } else if s.threads[t].Finishing? {
      FinishKeeps(c, s, t, choice.flag);
    } else {
      SyncNeutral(c, s, t, choice);
      NeutralKeeps(c, s, SyncMove(c, s, t, s.threads[t], choice));
    }
  }

  lemma MoveKeeps(c: Config, s: State, t: nat, choice: Choice)
    requires CooldownInv(c, s) && CanMove(s, t) && CertSync.PcOk(s, t, s.threads[t]) && s.nextThread !in s.threads
    ensures CooldownInv(c, Move(c, s, t, s.threads[t], choice))
  {
    if InSync(s.threads[t]) {
      SyncKeeps(c, s, t, choice);
    } else if InRun(s.threads[t]) {
      RunKeeps(c, s, t, choice);
    } else {
      if InHandshake(s.threads[t]) {
        HandshakeNeutral(s, t);
      } else if InEnd(s.threads[t]) {
        EndNeutral(s, t, choice);
      } else if s.threads[t].WorkerPolling? {
        PollNeutral(s, t, choice.flag);
      } else {
        WorkerNeutral(s, t, choice);
      }
      NeutralKeeps(c, s, Move(c, s, t, s.threads[t], choice));
    }
  }

  lemma SpawnKeeps(c: Config, s: State, step: Step)
    requires CooldownInv(c, s) && !step.Act? && s.nextThread !in s.threads
    ensures CooldownInv(c, Apply(c, s, step))
  {
    if step.Tick? {
      Assemble(c, s, Apply(c, s, step));
    } else {
      NeutralKeeps(c, s, Apply(c, s, step));
    }
  }

  lemma {:induction false} CooldownInvAlways(c: Config, steps: seq<Step>)
    ensures CooldownInv(c, Exec(c, steps))
  {
    if steps != [] {
      var s, last := Exec(c, steps[..|steps| - 1]), steps[|steps| - 1];
      CooldownInvAlways(c, steps[..|steps| - 1]);
      CertSync.SyncInvAlways(c, steps[..|steps| - 1]);
      CertRotation.RotationInvAlways(c, steps[..|steps| - 1]);
      if !last.Act? {
        SpawnKeeps(c, s, last);
      } else if CanMove(s, last.thread) {
        MoveKeeps(c, s, last.thread, last.choice);
      }
    }
  }

  lemma {:induction false} FailurePersists(cooldown: nat, log: seq<Event>, i: nat, k: nat)
    requires LogOk(cooldown, log) && i < k <= |log| && log[i].SyncFailed? && log[i].ctxAlive
    requires forall j | i < j < k :: !log[j].ClearedCooldown?
    ensures LastFailure(log[..k]).Some? && log[i].at <= LastFailure(log[..k]).value
  {
    assert log[..k][..k - 1] == log[..k - 1];
    if i < k - 1 {
      FailurePersists(cooldown, log, i, k - 1);
      assert EventOk(cooldown, log[..k - 1], log[k - 1]);
    }
  }

  /** In every interleaving, after a synchronous attempt fails with its caller still there, the
      next one starts only after the cooldown, or after a clear in between. */
  lemma CooldownRespected(c: Config, steps: seq<Step>, i: nat, k: nat)
    requires var log := Exec(c, steps).log;
             i < k < |log| && log[i].SyncFailed? && log[i].ctxAlive && log[k].SyncStarted?
    ensures var log := Exec(c, steps).log;
            log[i].at + Cooldown(c) <= log[k].at || exists j | i < j < k :: log[j].ClearedCooldown?
  {
    CooldownInvAlways(c, steps);
    var log := Exec(c, steps).log;
    if forall j | i < j < k :: !log[j].ClearedCooldown? {
      FailurePersists(Cooldown(c), log, i, k);
      assert EventOk(Cooldown(c), log[..k], log[k]);
    }
  }

  /** And what clears it is the success of that very run: the last thing its thread did before was
      to install. */
  lemma ClearsFollowInstalls(c: Config, steps: seq<Step>, k: nat) returns (i: nat)
    requires k < |Exec(c, steps).log| && Exec(c, steps).log[k].ClearedCooldown?
    ensures var log := Exec(c, steps).log;
            && i < k && log[i].InstalledCert? && log[i].thread == log[k].thread
            && forall j | i < j < k :: log[j].thread != log[k].thread
  {
    CooldownInvAlways(c, steps);
    var log := Exec(c, steps).log;
    assert EventOk(Cooldown(c), log[..k], log[k]);
    i :| LastIsInstall(log[..k], log[k].thread, i);
    forall j | i < j < k ensures log[j].thread != log[k].thread { assert log[..k][j] == log[j]; }
  }
}
