/** When certificates are renewed (pkg/ratls/tls.go:334-342, 385-391; pkg/ratls/rotation.go:33-50): a
    renewal is due halfway through the TTL or at the leaf's end, and a synchronous attempt starts as
    soon as it may. */
module CertRenewal {
  import opened Wrappers
  import opened CertState
  import opened CertMachine
  import CertCooldown
  import CertRotation
  import CertSync

  // ---- the renewal time ----

  function LastInstalled(log: seq<Event>): Option<Event> {
    if log == [] then None
    else if log[|log| - 1].InstalledCert? then Some(log[|log| - 1])
    else LastInstalled(log[..|log| - 1])
  }

  /** The provider's TTL, or else the configured one, or else a day. */
  function TTL(c: Config, answered: nat): nat {
    if answered != 0 then answered else if c.defaultTTL > 0 then c.defaultTTL else 86_400_000_000_000
  }

  predicate Halfway(c: Config, renewal: Renewal, at: Time) {
    renewal.from + TTL(c, renewal.answered) / 2 == at
  }

  /** The cached certificate is the one installed last, to be renewed halfway through its TTL. */
  ghost predicate CacheTimed(c: Config, s: State) {
    match LastInstalled(s.log)
    case None => s.sh.cert == None && s.sh.rotateAt == ZERO_TIME
    case Some(e) => e.InstalledCert? && s.sh.cert == Some(e.cert) && Halfway(c, e.renewal, s.sh.rotateAt)
  }

  ghost predicate PcTimed(c: Config, s: State, pc: Pc) {
    pc.Installing? ==> Halfway(c, pc.renewal, pc.renewAt) && pc.renewal.from <= s.now
  }

  ghost predicate TimedInv(c: Config, s: State) {
    CacheTimed(c, s) && forall t | t in s.threads :: PcTimed(c, s, s.threads[t])
  }

  lemma LastAppend(log: seq<Event>, e: Event)
    ensures LastInstalled(log + [e]) == if e.InstalledCert? then Some(e) else LastInstalled(log)
  {
    assert (log + [e])[..|log|] == log;
  }

  /** At most two events more, none an install. */
  ghost predicate Quietly(log: seq<Event>, log': seq<Event>) {
    && log <= log' && |log'| <= |log| + 2
    && forall i | |log| <= i < |log'| :: !log'[i].InstalledCert?
  }

  lemma QuietlyLast(log: seq<Event>, log': seq<Event>)
    requires Quietly(log, log')
    ensures LastInstalled(log') == LastInstalled(log)
  {
    var n := |log|;
    if |log'| == n + 1 {
      assert log' == log + [log'[n]];
      LastAppend(log, log'[n]);
    } else if |log'| == n + 2 {
      assert log' == (log + [log'[n]]) + [log'[n + 1]];
      LastAppend(log, log'[n]);
      LastAppend(log + [log'[n]], log'[n + 1]);
    } else {
      assert log' == log;
    }
  }

  /** A move that neither installs nor gets ready to. */
  ghost predicate Untimed(s: State, s': State) {
    && s'.sh.cert == s.sh.cert && s'.sh.rotateAt == s.sh.rotateAt && s.now <= s'.now && Quietly(s.log, s'.log)
    && forall u | u in s'.threads && s'.threads[u].Installing? :: u in s.threads && s'.threads[u] == s.threads[u]
  }

  lemma UntimedKeeps(c: Config, s: State, s': State)
    requires TimedInv(c, s) && Untimed(s, s')
    ensures TimedInv(c, s')
  {
    QuietlyLast(s.log, s'.log);
    forall u | u in s'.threads ensures PcTimed(c, s', s'.threads[u]) {
      if s'.threads[u].Installing? { assert PcTimed(c, s, s.threads[u]); }
    }
  }

  lemma HandshakeUntimed(s: State, t: nat)
    requires t in s.threads && InHandshake(s.threads[t])
    ensures Untimed(s, HandshakeMove(s, t, s.threads[t]))
  {
  }

  lemma EnterUntimed(s: State, t: nat)
    requires t in s.threads && s.threads[t].SyncEntering?
    ensures Untimed(s, EnterSync(s, t, s.threads[t].entry))
  {
  }

  lemma SyncUntimed(c: Config, s: State, t: nat, choice: Choice)
    requires t in s.threads && InSync(s.threads[t])
    ensures Untimed(s, SyncMove(c, s, t, s.threads[t], choice))
  {
    if s.threads[t].SyncEntering? { EnterUntimed(s, t); }
  }

  lemma AnswerUntimed(s: State, t: nat, answer: Answer)
    requires t in s.threads && s.threads[t].Provisioning?
    ensures Untimed(s, ProviderAnswered(s, t, s.threads[t], answer))
  {
  }

  lemma ClearUntimed(s: State, t: nat)
    requires t in s.threads && s.threads[t].Clearing?
    ensures Untimed(s, Clear(s, t, s.threads[t]))
  {
  }

  lemma EndUntimed(s: State, t: nat, choice: Choice)
    requires t in s.threads && InEnd(s.threads[t])
    ensures Untimed(s, EndMove(s, t, s.threads[t], choice))
  {
  }

  lemma PollUntimed(s: State, t: nat, ctxDone: bool)
    requires t in s.threads
    ensures Untimed(s, Poll(s, t, ctxDone))
  {
  }

  lemma WorkerUntimed(s: State, t: nat, choice: Choice)
    requires t in s.threads
    ensures Untimed(s, WorkerMove(s, t, s.threads[t], choice))
  {
    if s.threads[t].WorkerPolling? { PollUntimed(s, t, choice.flag); }
  }

  /** The clock is read once more when the certificate has been found good. */
  lemma CheckedKeeps(c: Config, s: State, t: nat, choice: Choice)
    requires TimedInv(c, s) && t in s.threads && s.threads[t].Checked?
    ensures TimedInv(c, RunMove(c, s, t, s.threads[t], choice))
  {
    var s' := RunMove(c, s, t, s.threads[t], choice);
    forall u | u in s'.threads ensures PcTimed(c, s', s'.threads[u]) {
      if u != t { assert PcTimed(c, s, s.threads[u]); }
    }
  }

  lemma InstallKeeps(c: Config, s: State, t: nat)
    requires TimedInv(c, s) && t in s.threads && s.threads[t].Installing?
    ensures TimedInv(c, Install(s, t, s.threads[t]))
  {
    var s' := Install(s, t, s.threads[t]);
    assert PcTimed(c, s, s.threads[t]);
    forall u | u in s'.threads ensures PcTimed(c, s', s'.threads[u]) {
      if u != t { assert PcTimed(c, s, s.threads[u]); }
    }
    if s'.log != s.log {
      assert s'.log == s.log + [s'.log[|s.log|]];
      LastAppend(s.log, s'.log[|s.log|]);
    }
  }

  lemma RunKeeps(c: Config, s: State, t: nat, choice: Choice)
    requires TimedInv(c, s) && t in s.threads && InRun(s.threads[t])
    ensures TimedInv(c, RunMove(c, s, t, s.threads[t], choice))
  {
    var pc := s.threads[t];
    if pc.Checked? {
      CheckedKeeps(c, s, t, choice);
    } else if pc.Installing? {
      InstallKeeps(c, s, t);
    } else {
      if pc.Provisioning? { AnswerUntimed(s, t, choice.answer); } else { ClearUntimed(s, t); }
      UntimedKeeps(c, s, RunMove(c, s, t, pc, choice));
    }
  }

  lemma MoveKeeps(c: Config, s: State, t: nat, choice: Choice)
    requires TimedInv(c, s) && t in s.threads
    ensures TimedInv(c, Move(c, s, t, s.threads[t], choice))
  {
    var pc := s.threads[t];
    if InRun(pc) {
      RunKeeps(c, s, t, choice);
    } else {
      if InHandshake(pc) { HandshakeUntimed(s, t); }
      else if InSync(pc) { SyncUntimed(c, s, t, choice); }
      else if InEnd(pc) { EndUntimed(s, t, choice); }
      else { WorkerUntimed(s, t, choice); }
      UntimedKeeps(c, s, Move(c, s, t, pc, choice));
    }
  }

  lemma SpawnKeeps(c: Config, s: State, step: Step)
    requires TimedInv(c, s) && !step.Act?
    ensures TimedInv(c, Apply(c, s, step))
  {
    UntimedKeeps(c, s, Apply(c, s, step));
  }

  lemma {:induction false} TimedAlways(c: Config, steps: seq<Step>)
    ensures TimedInv(c, Exec(c, steps))
  {
    if steps != [] {
      var s, last := Exec(c, steps[..|steps| - 1]), steps[|steps| - 1];
      TimedAlways(c, steps[..|steps| - 1]);
      if !last.Act? {
        SpawnKeeps(c, s, last);
      } else if CanMove(s, last.thread) {
        MoveKeeps(c, s, last.thread, last.choice);
      }
    }
  }

  // ---- when a renewal starts ----

  ghost predicate SomeoneRotates(s: State) {
    exists u | u in s.threads :: CertRotation.IsRotating(s.threads[u])
  }

  /** Nothing is cached, or half the TTL of what is has passed since it was found good, or it has
      expired. */
  ghost predicate Due(c: Config, s: State) {
    match LastInstalled(s.log)
    case None => true
    case Some(e) =>
      e.InstalledCert? ==>
        || e.renewal.from + TTL(c, e.renewal.answered) / 2 <= s.now
        || (e.cert.leaf.Some? && e.cert.leaf.value.notAfter <= s.now)
  }

  lemma DueIff(c: Config, s: State)
    requires TimedInv(c, s)
    ensures RotationDue(s.sh, s.now) <==> Due(c, s) && s.sh.retryAt <= s.now
  {
  }

  lemma RotatingIff(c: Config, s: State)
    requires CertRotation.RotationInv(c, s)
    ensures s.sh.rotating <==> SomeoneRotates(s)
  {
  }

  ghost predicate Starts(c: Config, s: State, t: nat, choice: Choice) {
    var s' := Apply(c, s, Act(t, choice));
    |s'.log| == |s.log| + 2 && s'.log[|s.log| + 1] == RotationStarted(t)
  }

  /** In every interleaving a worker's poll starts a renewal if and only if its context lives, none
      runs, the retry time has come and the certificate is due. */
  lemma PollRenewsIff(c: Config, steps: seq<Step>, t: nat, choice: Choice)
    requires CanMove(Exec(c, steps), t) && Exec(c, steps).threads[t].WorkerPolling?
    ensures var s := Exec(c, steps);
            Starts(c, s, t, choice) <==> !choice.flag && !SomeoneRotates(s) && s.sh.retryAt <= s.now && Due(c, s)
  {
    var s := Exec(c, steps);
    TimedAlways(c, steps);
    CertRotation.RotationInvAlways(c, steps);
    DueIff(c, s);
    RotatingIff(c, s);
  }

  /** A handshake that read a valid certificate serves it, at once while its renewal or the next retry
      lies ahead, and otherwise having asked for a renewal; one that did not provisions. */
  lemma HandshakeServesIff(c: Config, s: State, t: nat, choice: Choice)
    requires CanMove(s, t) && s.threads[t].Deciding?
    ensures var pc, s' := s.threads[t], Apply(c, s, Act(t, choice));
            if pc.cached.None? || !InWindow(pc.cached.value, pc.entry) then
              s' == s.(threads := s.threads[t := SyncEntering(pc.entry)])
            else if pc.rotateAt <= pc.entry && pc.retryAt <= pc.entry then
              s' == s.(threads := s.threads[t := Requesting(pc.entry, pc.cached.value, pc.provider, pc.revision)])
            else
              && t !in s'.threads
              && s'.log == s.log + [HandshakeReturned(t, pc.entry, s.now, Outcome(pc.cached, None, pc.entry), None)]
  {
    var pc := s.threads[t];
    if pc.cached.Some? { UsableIffInWindow(pc.cached.value, pc.entry); }
  }

  /** In every interleaving such a request starts a renewal if and only if no worker has been set up, no
      renewal runs, the retry time has come and nothing was installed since; the certificate is served
      either way. */
  lemma RequestRenewsIff(c: Config, steps: seq<Step>, t: nat, choice: Choice)
    requires CanMove(Exec(c, steps), t) && Exec(c, steps).threads[t].Requesting?
    ensures var s := Exec(c, steps);
            var pc, s' := s.threads[t], Apply(c, s, Act(t, choice));
            var served := HandshakeReturned(t, pc.entry, s.now, Outcome(Some(pc.serving), None, pc.entry), None);
            if !s.sh.channel && !SomeoneRotates(s) && s.sh.retryAt <= s.now && s.sh.revision == pc.revision
            then s'.log == s.log + [RotationStarted(s.nextThread), served]
            else s'.log == s.log + [served]
  {
    var s := Exec(c, steps);
    CertRotation.RotationInvAlways(c, steps);
    RotatingIff(c, s);
  }

  // ---- when a synchronous attempt starts ----

  ghost predicate SomeoneLeads(s: State) {
    exists u | u in s.threads :: CertSync.LeadsSync(s.threads[u])
  }

  /** The last failure that still counts was a cooldown ago. */
  ghost predicate CooledDown(c: Config, s: State, at: Time) {
    var f := CertCooldown.LastFailure(s.log);
    f.None? || f.value + (if c.syncCooldown > 0 then c.syncCooldown else 5_000_000_000) <= at
  }

  predicate ServesCached(s: State, at: Time) {
    s.sh.cert.Some? && InWindow(s.sh.cert.value, at)
  }

  lemma FlightIff(s: State)
    requires CertSync.FlightOk(s)
    ensures s.sh.inflight.Some? <==> SomeoneLeads(s)
  {
  }

  /** In every interleaving a call of the synchronous path starts an attempt if and only if the cached
      certificate is not valid at its entry, no attempt is in flight and the cooldown has passed;
      otherwise it serves the certificate, joins the attempt, or fails. */
  lemma SyncStartsIff(c: Config, steps: seq<Step>, t: nat, choice: Choice)
    requires CanMove(Exec(c, steps), t) && Exec(c, steps).threads[t].SyncEntering?
    ensures var s := Exec(c, steps);
            var s', entry := Apply(c, s, Act(t, choice)), s.threads[t].entry;
            if ServesCached(s, entry) then
              s'.log == s.log + [HandshakeReturned(t, entry, s.now, Outcome(s.sh.cert, None, entry), None)]
            else if SomeoneLeads(s) then s'.log == s.log && t in s'.threads && s'.threads[t].Joined?
            else if CooledDown(c, s, entry) then s'.log == s.log + [SyncStarted(t, s.nextAttempt, s.now)]
            else
              && s.sh.cooldownErr.Some?
              && s'.log == s.log + [HandshakeReturned(t, entry, s.now, Outcome(None, s.sh.cooldownErr, entry), None)]
  {
    var s := Exec(c, steps);
    CertCooldown.CooldownInvAlways(c, steps);
    CertSync.SyncInvAlways(c, steps);
    FlightIff(s);
    if s.sh.cert.Some? { UsableIffInWindow(s.sh.cert.value, s.threads[t].entry); }
  }
}
