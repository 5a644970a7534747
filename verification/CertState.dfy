/** The cached certificate of an RA-TLS endpoint (pkg/ratls/tls.go, pkg/ratls/rotation.go).

    `Shared` is the value of the fields guarded by the two locks of `certState`; each
    critical section is a function on it.  `CertStateObject` is the object itself: one method
    per critical section, proved to do to the fields what the function says.  The
    interleavings of the critical sections are in module CertMachine. */
module CertState {
  import opened Wrappers

  const ZERO_TIME: Time := 0
  const SECOND: nat := 1_000_000_000
  const LEAF_VALIDITY_SKEW: nat := 300 * SECOND
  const DEFAULT_SYNC_COOLDOWN: nat := 5 * SECOND
  const DEFAULT_CERT_TTL: nat := 24 * 3600 * SECOND

  datatype Provider = Provider(id: nat)

  datatype Leaf = Leaf(notBefore: Time, notAfter: Time)

  /** `leaf` is the parsed leaf; `encoded` is what parsing the first DER block would give
      (None when there is no block or it does not parse).  `origin` is the provider that
      issued the certificate. */
  datatype Cert = Cert(serial: nat, origin: Provider, leaf: Option<Leaf>, encoded: Option<Leaf>)

  datatype Error =
    | ProvisionError | NoCertificate | NoLeaf | NotYetValid | Expired
    | ChangedMeanwhile | ContextDone

  /** certutil.CheckValidity behind usableForHandshake: None is "usable". */
  function UsableForHandshake(cert: Cert, now: Time): Option<Error> {
    match cert.leaf
    case None => Some(NoLeaf)
    case Some(leaf) =>
      if now + LEAF_VALIDITY_SKEW < leaf.notBefore then Some(NotYetValid)
      else if now > leaf.notAfter then Some(Expired)
      else None
  }

  predicate Usable(cert: Cert, now: Time) {
    UsableForHandshake(cert, now) == None
  }

  /** The leaf is valid at that moment, five minutes of clock skew before its start allowed. */
  predicate InWindow(cert: Cert, at: Time) {
    cert.leaf.Some? && cert.leaf.value.notBefore <= at + 300_000_000_000 && at <= cert.leaf.value.notAfter
  }

  /** What the check refuses, and why. */
  lemma UsableIffInWindow(cert: Cert, now: Time)
    ensures Usable(cert, now) <==> InWindow(cert, now)
    ensures UsableForHandshake(cert, now) == Some(NoLeaf) <==> cert.leaf.None?
    ensures UsableForHandshake(cert, now) == Some(NotYetValid) <==>
            cert.leaf.Some? && now + 300_000_000_000 < cert.leaf.value.notBefore
    ensures UsableForHandshake(cert, now) == Some(Expired) <==>
            cert.leaf.Some? && cert.leaf.value.notBefore <= now + 300_000_000_000 && cert.leaf.value.notAfter < now
  {
  }

  /** ensureLeaf: the certificate with its leaf populated, or the error. */
  function EnsureLeaf(cert: Option<Cert>): (r: (Option<Cert>, Option<Error>))
    ensures r.0.Some? <==> r.1.None?
    ensures r.0.Some? <==> cert.Some? && (cert.value.leaf.Some? || cert.value.encoded.Some?)
    ensures r.0.Some? ==> r.0.value.leaf.Some? && r.0.value == cert.value.(leaf := r.0.value.leaf)
    ensures r.0.Some? ==> r.0.value.leaf == if cert.value.leaf.Some? then cert.value.leaf else cert.value.encoded
    ensures r.1.Some? ==> r.1.value == if cert.None? then NoCertificate else NoLeaf
  {
    match cert
    case None => (None, Some(NoCertificate))
    case Some(c) =>
      if c.leaf.Some? then (Some(c), None)
      else if c.encoded.Some? then (Some(c.(leaf := c.encoded)), None)
      else (None, Some(NoLeaf))
  }

  function EffectiveSyncCooldown(configured: int): (d: nat)
    ensures d > 0
  {
    if configured > 0 then configured else DEFAULT_SYNC_COOLDOWN
  }

  function EffectiveTTL(configured: int, ttl: nat): nat {
    if ttl != 0 then ttl else if configured > 0 then configured else DEFAULT_CERT_TTL
  }

  /** The fields of certState.  `channel` says that rotationEnded has been made, `token`
      that it holds its one message, `cancel` that rotationCancel is set, and `cancelled`
      that the context of the current rotation has been cancelled. */
  datatype Shared = Shared(
    cert: Option<Cert>, rotateAt: Time, revision: nat, retryAt: Time, provider: Provider,
    rotating: bool, channel: bool, token: bool, cancel: bool, cancelled: bool,
    inflight: Option<nat>, cooldownUntil: Time, cooldownErr: Option<Error>)

  function Fresh(provider: Provider): Shared {
    Shared(None, ZERO_TIME, 0, ZERO_TIME, provider, false, false, false, false, false, None, ZERO_TIME, None)
  }

  // ---- sections under mu ----

  function Installed(sh: Shared, cert: Cert, rotateAt: Time): Shared {
    sh.(cert := Some(cert), rotateAt := rotateAt, revision := sh.revision + 1, retryAt := ZERO_TIME)
  }

  function InstalledIfCurrent(sh: Shared, cert: Cert, rotateAt: Time, revision: nat): Shared {
    if sh.revision == revision then Installed(sh, cert, rotateAt) else sh
  }

  function Swapped(sh: Shared, provider: Provider, cert: Cert, rotateAt: Time): Shared {
    Installed(sh.(provider := provider), cert, rotateAt)
  }

  predicate MayBegin(sh: Shared, ctxDone: bool, revision: nat, now: Time) {
    !ctxDone && sh.revision == revision && now >= sh.retryAt && !sh.rotating
  }

  function Begun(sh: Shared): Shared {
    sh.(rotating := true, cancel := true, cancelled := false)
  }

  predicate RotationDue(sh: Shared, now: Time) {
    var deadline :=
      if sh.cert.Some? && sh.cert.value.leaf.Some? && sh.cert.value.leaf.value.notAfter < sh.rotateAt
      then sh.cert.value.leaf.value.notAfter else sh.rotateAt;
    now >= deadline && now >= sh.retryAt
  }

  function RetryScheduled(sh: Shared, revision: nat, at: Time): Shared {
    if sh.revision == revision then sh.(retryAt := at) else sh
  }

  function Opened(sh: Shared): Shared {
    sh.(channel := true)
  }

  function CancelRequested(sh: Shared): Shared {
    if sh.cancel then sh.(cancelled := true) else sh
  }

  function Stopped(sh: Shared): Shared {
    sh.(cancel := false, cancelled := sh.cancelled || sh.cancel, rotating := false)
  }

  /** A send that never blocks: a missing or full channel drops the message. */
  function Notified(sh: Shared): Shared {
    if sh.channel then sh.(token := true) else sh
  }

  // ---- sections under syncMu ----

  datatype SyncDecision = UseCached(cert: Cert) | Join(attempt: nat) | Replay(err: Option<Error>) | Lead

  function DecideSync(sh: Shared, now: Time): SyncDecision {
    if sh.cert.Some? && Usable(sh.cert.value, now) then UseCached(sh.cert.value)
    else if sh.inflight.Some? then Join(sh.inflight.value)
    else if now < sh.cooldownUntil then Replay(sh.cooldownErr)
    else Lead
  }

  function AttemptOpened(sh: Shared, attempt: nat): Shared {
    sh.(inflight := Some(attempt))
  }

  function AttemptClosed(sh: Shared, err: Option<Error>, ctxAlive: bool, now: Time, cooldown: nat): Shared {
    var done := sh.(inflight := None);
    if err.Some? && ctxAlive then done.(cooldownUntil := now + cooldown, cooldownErr := err) else done
  }

  function CooldownCleared(sh: Shared): Shared {
    sh.(cooldownUntil := ZERO_TIME, cooldownErr := None)
  }

  /** The object behind a CertManager. */
  class CertStateObject {
    var cert: Option<Cert>
    var rotateAt: Time
    var revision: nat
    var retryAt: Time
    var provider: Provider
    var rotating: bool
    var channel: bool
    var token: bool
    var cancel: bool
    var cancelled: bool
    var inflight: Option<nat>
    var cooldownUntil: Time
    var cooldownErr: Option<Error>
    const syncCooldown: int

    ghost function View(): Shared
      reads this
    {
      Shared(cert, rotateAt, revision, retryAt, provider, rotating, channel, token, cancel, cancelled,
             inflight, cooldownUntil, cooldownErr)
    }

    constructor (p: Provider, configuredCooldown: int)
      ensures View() == Fresh(p) && syncCooldown == configuredCooldown
    {
      cert, rotateAt, revision, retryAt, provider := None, ZERO_TIME, 0, ZERO_TIME, p;
      rotating, channel, token, cancel, cancelled := false, false, false, false, false;
      inflight, cooldownUntil, cooldownErr := None, ZERO_TIME, None;
      syncCooldown := configuredCooldown;
    }

    method CertificateInstalledLocked()
      modifies this
      ensures View() == old(View()).(revision := old(revision) + 1, retryAt := ZERO_TIME)
    {
      revision := revision + 1;
      retryAt := ZERO_TIME;
    }

    /** installProvisionedCertificate, and the locked tail of backgroundProvision. */
    method InstallProvisionedCertificate(c: Cert, at: Time, captured: nat)
      returns (current: Option<Cert>, installed: bool)
      modifies this
      ensures installed <==> old(revision) == captured
      ensures View() == InstalledIfCurrent(old(View()), c, at, captured)
      ensures current == cert
    {
      if revision != captured {
        return cert, false;
      }
      cert := Some(c);
      rotateAt := at;
      CertificateInstalledLocked();
      return Some(c), true;
    }

    /** The locked section of SwapProvider. */
    method SwapLocked(p: Provider, c: Cert, at: Time)
      modifies this
      ensures View() == Swapped(old(View()), p, c, at)
    {
      provider := p;
      cert := Some(c);
      rotateAt := at;
      CertificateInstalledLocked();
    }

    method BeginRotationLocked(ctxDone: bool, captured: nat, now: Time) returns (started: bool)
      modifies this
      ensures started <==> MayBegin(old(View()), ctxDone, captured, now)
      ensures View() == if started then Begun(old(View())) else old(View())
    {
      if ctxDone || revision != captured || now < retryAt || rotating {
        return false;
      }
      rotating := true;
      cancel := true;
      cancelled := false;
      return true;
    }

    method RequestRotation(captured: nat, now: Time) returns (started: bool)
      modifies this
      ensures started <==> !old(channel) && MayBegin(old(View()), false, captured, now)
      ensures View() == if started then Begun(old(View())) else old(View())
    {
      if channel {
        return false;
      }
      started := BeginRotationLocked(false, captured, now);
    }

    /** The locked section of rotateIfDue. */
    method RotateIfDue(ctxDone: bool, now: Time) returns (started: bool, p: Provider, captured: nat)
      modifies this
      ensures started <==> RotationDue(old(View()), now) && MayBegin(old(View()), ctxDone, old(revision), now)
      ensures started ==> p == old(provider) && captured == old(revision)
      ensures View() == if started then Begun(old(View())) else old(View())
    {
      p, captured := provider, revision;
      var deadline := rotateAt;
      if cert.Some? && cert.value.leaf.Some? && cert.value.leaf.value.notAfter < deadline {
        deadline := cert.value.leaf.value.notAfter;
      }
      if now < deadline || now < retryAt {
        started := false;
        return;
      }
      started := BeginRotationLocked(ctxDone, captured, now);
    }

    /** The failure branch of backgroundProvision; `delay` is what the backoff yields. */
    method ScheduleRetry(captured: nat, now: Time, delay: nat)
      modifies this
      ensures View() == RetryScheduled(old(View()), captured, now + delay)
    {
      if revision == captured {
        retryAt := now + delay;
      }
    }

    method NotifyRotationEndedLocked()
      modifies this
      ensures View() == Notified(old(View()))
    {
      if channel && !token {
        token := true;
      }
    }

    /** The deferred section of backgroundProvision. */
    method EndRotation()
      modifies this
      ensures View() == Notified(Stopped(old(View())))
    {
      if cancel {
        cancelled := true;
        cancel := false;
      }
      rotating := false;
      NotifyRotationEndedLocked();
    }

    /** The first section of stopRotation. */
    method CancelRotation()
      modifies this
      ensures View() == CancelRequested(old(View()))
    {
      if cancel {
        cancelled := true;
      }
    }

    /** The first section of syncProvision; `attempt` names a fresh provisionAttempt. */
    method EnterSync(now: Time, attempt: nat) returns (d: SyncDecision)
      modifies this
      ensures d == DecideSync(old(View()), now)
      ensures View() == if d.Lead? then AttemptOpened(old(View()), attempt) else old(View())
    {
      if cert.Some? {
        var err := UsableForHandshake(cert.value, now);
        if err.None? {
          return UseCached(cert.value);
        }
      }
      if inflight.Some? {
        return Join(inflight.value);
      }
      if now < cooldownUntil {
        return Replay(cooldownErr);
      }
      inflight := Some(attempt);
      return Lead;
    }

    /** The last section of syncProvision. */
    method LeaveSync(err: Option<Error>, ctxAlive: bool, now: Time)
      modifies this
      ensures View() == AttemptClosed(old(View()), err, ctxAlive, now, EffectiveSyncCooldown(syncCooldown))
    {
      inflight := None;
      if err.Some? && ctxAlive {
        cooldownUntil := now + EffectiveSyncCooldown(syncCooldown);
        cooldownErr := err;
      }
    }

    method ClearCooldown()
      modifies this
      ensures View() == CooldownCleared(old(View()))
    {
      cooldownUntil := ZERO_TIME;
      cooldownErr := None;
    }
  }
}
