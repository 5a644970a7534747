/** What every authorisation rests on: the bound inventory, its signature, the ledger
    (internal/secrets/handler.go:312-427; pkg/workloadclaims/sandboxtoken.go:127-162). */
module ReleaseFacts {
  import opened Bytes
  import opened Wrappers
  import opened Release
  import Ledger
  import ReleaseOnce

  // ---- what an authorisation rests on ----

  ghost predicate LedgerInv(s: State) {
    Ledger.Possible(s.ledger) && forall i | 0 <= i < |s.ledger| :: s.ledger[i].at <= s.now
  }

  ghost predicate KeysInv(s: State) {
    && (forall h | h in s.keys :: s.keys[h] in s.keyOf && s.keyOf[s.keys[h]] == h)
    && (forall p | p in s.signed :: p.0 in s.keyOf)
  }

  ghost predicate Unfinished(pc: Pc) {
    pc.Arrived? || pc.Fresh? || pc.Bound?
  }

  ghost predicate RequestsUnforged(s: State) {
    forall t | t in s.threads && Unfinished(s.threads[t]) :: Unforged(s, s.threads[t].request)
  }

  /** The host was the ledger's, in the node bound, when it was looked up. */
  ghost predicate LookedUpHost(c: Config, s: State, r: Request, host: bytes, looked: nat, at: Time) {
    && looked <= |s.ledger| && at <= s.now && (looked > 0 ==> s.ledger[looked - 1].at <= at)
    && r.sandboxID != [] && c.allowed(host)
    && Ledger.LookedUp(Bindings(c, s.ledger[..looked]), r.sandboxID, at) == Some(host)
  }

  ghost predicate BoundInv(c: Config, s: State) {
    forall t | t in s.threads && s.threads[t].Bound? ::
      LookedUpHost(c, s, s.threads[t].request, s.threads[t].host, s.threads[t].looked, s.threads[t].at)
  }

  /** The token was signed by the bound host's inventory for this sandbox, requester key and
      challenge. */
  ghost predicate SignedFor(c: Config, s: State, e: Event) {
    && TokenFor(c, e.request, e.host, e.key)
    && (e.key, e.request.token.value) in s.signed && e.key in s.keyOf && s.keyOf[e.key] == e.host
  }

  ghost predicate EventOK(c: Config, s: State, e: Event) {
    SignedFor(c, s, e) && LookedUpHost(c, s, e.request, e.host, e.looked, e.at)
  }

  ghost predicate LogInv(c: Config, s: State) {
    forall i | 0 <= i < |s.log| :: EventOK(c, s, s.log[i])
  }

  ghost predicate FactInv(c: Config, s: State) {
    LedgerInv(s) && KeysInv(s) && RequestsUnforged(s) && BoundInv(c, s) && LogInv(c, s)
  }

  /** Nothing but additions to what the facts refer to. */
  ghost predicate Grows(s: State, s': State) {
    && s.now <= s'.now && s.ledger <= s'.ledger && s.signed <= s'.signed
    && (forall k | k in s.keyOf :: k in s'.keyOf && s'.keyOf[k] == s.keyOf[k])
  }

  lemma LookedUpStays(c: Config, s: State, s': State, r: Request, host: bytes, looked: nat, at: Time)
    requires Grows(s, s') && LookedUpHost(c, s, r, host, looked, at)
    ensures LookedUpHost(c, s', r, host, looked, at)
  {
    assert s'.ledger[..looked] == s.ledger[..looked];
  }

  lemma FactsStay(c: Config, s: State, s': State)
    requires Grows(s, s') && FactInv(c, s) && OnlyLateMoves(s, s') && s'.log == s.log
    ensures RequestsUnforged(s') && BoundInv(c, s') && LogInv(c, s')
  {
    forall t | t in s'.threads && s'.threads[t].Bound?
      ensures LookedUpHost(c, s', s.threads[t].request, s.threads[t].host, s.threads[t].looked, s.threads[t].at)
    {
      LookedUpStays(c, s, s', s.threads[t].request, s.threads[t].host, s.threads[t].looked, s.threads[t].at);
    }
    forall i | 0 <= i < |s.log| ensures EventOK(c, s', s.log[i]) {
      var e := s.log[i];
      assert EventOK(c, s, e);
      LookedUpStays(c, s, s', e.request, e.host, e.looked, e.at);
    }
  }

  lemma WorldGrows(c: Config, s: State, step: WorldStep)
    requires KeysInv(s) && Started(s)
    ensures var s' := WorldMove(c, s, step); Grows(s, s') && s'.threads == s.threads && s'.log == s.log
  {
  }

  lemma WorldKeepsKeys(c: Config, s: State, step: WorldStep)
    requires LedgerInv(s) && KeysInv(s) && Started(s)
    ensures LedgerInv(WorldMove(c, s, step)) && KeysInv(WorldMove(c, s, step))
  {
  }

  lemma WorldKeepsFacts(c: Config, s: State, step: WorldStep)
    requires FactInv(c, s) && Started(s)
    ensures FactInv(c, WorldMove(c, s, step))
  {
    WorldGrows(c, s, step);
    WorldKeepsKeys(c, s, step);
    FactsStay(c, s, WorldMove(c, s, step));
  }

  /** A request moves on, its new place carrying what it must. */
  lemma MoveKeepsFacts(c: Config, s: State, s': State, t: nat, pc: Pc)
    requires FactInv(c, s) && s'.threads == s.threads[t := pc] && s'.log == s.log
    requires s'.now == s.now && s'.ledger == s.ledger && s'.keys == s.keys && s'.keyOf == s.keyOf &&
             s'.signed == s.signed
    requires Unfinished(pc) ==> Unforged(s, pc.request)
    requires pc.Bound? ==> LookedUpHost(c, s, pc.request, pc.host, pc.looked, pc.at)
    ensures FactInv(c, s')
  {
    forall u | u in s'.threads && s'.threads[u].Bound?
      ensures LookedUpHost(c, s', s'.threads[u].request, s'.threads[u].host, s'.threads[u].looked, s'.threads[u].at)
    {
      LookedUpStays(c, s, s', s'.threads[u].request, s'.threads[u].host, s'.threads[u].looked, s'.threads[u].at);
    }
    forall i | 0 <= i < |s.log| ensures EventOK(c, s', s.log[i]) {
      var e := s.log[i];
      assert EventOK(c, s, e);
      LookedUpStays(c, s, s', e.request, e.host, e.looked, e.at);
    }
  }

  lemma LookupKeepsFacts(c: Config, s: State, t: nat)
    requires FactInv(c, s) && t in s.threads && s.threads[t].Fresh?
    ensures FactInv(c, LookupStep(c, s, t, s.threads[t].request))
  {
    assert s.ledger[..|s.ledger|] == s.ledger;
    var s' := LookupStep(c, s, t, s.threads[t].request);
    MoveKeepsFacts(c, s, s', t, s'.threads[t]);
  }

  lemma VerifyKeepsFacts(c: Config, s: State, t: nat)
    requires FactInv(c, s) && Started(s) && t in s.threads && s.threads[t].Bound?
    ensures FactInv(c, VerifyStep(c, s, t, s.threads[t]))
  {
    var pc, s' := s.threads[t], VerifyStep(c, s, t, s.threads[t]);
    MoveKeepsFacts(c, s, s'.(log := s.log), t, s'.threads[t]);
    if s'.threads[t].Authorised? {
      var e := s'.log[|s.log|];
      assert EventOK(c, s', e);
      forall i | 0 <= i < |s'.log| ensures EventOK(c, s', s'.log[i]) {
        if i < |s.log| { assert EventOK(c, s'.(log := s.log), s.log[i]); }
      }
    }
  }

  lemma ConsumeKeepsFacts(c: Config, s: State, t: nat)
    requires FactInv(c, s) && t in s.threads && s.threads[t].Arrived?
    ensures FactInv(c, ConsumeStep(c, s, t, s.threads[t].request))
  {
    var s' := ConsumeStep(c, s, t, s.threads[t].request);
    MoveKeepsFacts(c, s, s', t, s'.threads[t]);
  }

  lemma RequestKeepsFacts(c: Config, s: State, t: nat, step: RequestStep)
    requires FactInv(c, s) && Started(s)
    ensures FactInv(c, RequestMove(c, s, t, step))
  {
    if step.Begin? {
      if Unforged(s, step.request) {
        MoveKeepsFacts(c, s, Moved(s, t, Arrived(step.request)), t, Arrived(step.request));
      }
    } else if t in s.threads {
      if step.Consume? && s.threads[t].Arrived? { ConsumeKeepsFacts(c, s, t); }
      if step.Lookup? && s.threads[t].Fresh? { LookupKeepsFacts(c, s, t); }
      if step.Verify? && s.threads[t].Bound? { VerifyKeepsFacts(c, s, t); }
    }
  }

  lemma DecisionKeepsFacts(c: Config, s: State, step: DecisionStep)
    requires FactInv(c, s) && Started(s)
    ensures FactInv(c, DecisionMove(c, s, step))
  {
    DecisionMoves(c, s, step);
    FactsStay(c, s, DecisionMove(c, s, step));
  }

  lemma StepKeepsFacts(c: Config, s: State, step: Step)
    requires FactInv(c, s) && Started(s)
    ensures FactInv(c, Apply(c, s, step))
  {
    match step
    case World(event) => WorldKeepsFacts(c, s, event);
    case Authorise(t, move) => RequestKeepsFacts(c, s, t, move);
    case Decide(decision) => DecisionKeepsFacts(c, s, decision);
  }

  lemma {:induction false} FactsAlways(c: Config, steps: seq<Step>)
    ensures FactInv(c, Exec(c, steps))
  {
    if steps != [] {
      FactsAlways(c, steps[..|steps| - 1]);
      StepKeepsFacts(c, Exec(c, steps[..|steps| - 1]), steps[|steps| - 1]);
    }
  }

  /** Every signed token authorises at most one request. */
  lemma TokenAuthorisesOnce(c: Config, steps: seq<Step>, i: nat, j: nat)
    requires i < j < |Exec(c, steps).log|
    ensures var log := Exec(c, steps).log; log[i].request.token != log[j].request.token
  {
    var s := Exec(c, steps);
    FactsAlways(c, steps);
    ReleaseOnce.ChallengeAuthorisesOnce(c, steps, i, j);
    assert EventOK(c, s, s.log[i]) && EventOK(c, s, s.log[j]);
  }

  /** The host consulted for a sandbox is the one the ledger held, inside the node bound; its own
      inventory signed the token for this sandbox, requester key and challenge; and some accepted
      record of that very host was less than a TTL old. */
  lemma AuthorisedByBoundInventory(c: Config, steps: seq<Step>, i: nat)
    requires i < |Exec(c, steps).log|
    ensures var s := Exec(c, steps);
            var e := s.log[i];
            && SignedFor(c, s, e) && LookedUpHost(c, s, e.request, e.host, e.looked, e.at)
            && Ledger.Vouched(s.ledger, c.ledgerTTL, c.ledgerMax, e.looked, e.request.sandboxID, e.host, e.at)
  {
    var s := Exec(c, steps);
    var e := s.log[i];
    FactsAlways(c, steps);
    assert EventOK(c, s, e);
    Ledger.LookupExactly(s.ledger, c.ledgerTTL, c.ledgerMax, e.looked, e.request.sandboxID, e.host, e.at);
  }

  /** Two authorisations for one sandbox consulted the same host, unless a full TTL passed since
      every record the first could rest on. */
  lemma HostsChangeOnlyAfterTtl(c: Config, steps: seq<Step>, i: nat, j: nat, k: nat)
    requires i < |Exec(c, steps).log| && j < |Exec(c, steps).log| && k < |Exec(c, steps).ledger|
    requires var s := Exec(c, steps);
             var e, f := s.log[i], s.log[j];
             && e.request.sandboxID == f.request.sandboxID && e.host != f.host && k < f.looked && e.at <= f.at
             && Ledger.Vouches(s.ledger, c.ledgerTTL, c.ledgerMax, k, e.request.sandboxID, e.host, e.at)
    ensures var s := Exec(c, steps); s.log[j].at >= s.ledger[k].at + c.ledgerTTL
  {
    var s := Exec(c, steps);
    var e, f := s.log[i], s.log[j];
    FactsAlways(c, steps);
    assert EventOK(c, s, f);
    Ledger.LookupExactly(s.ledger, c.ledgerTTL, c.ledgerMax, f.looked, f.request.sandboxID, e.host, f.at);
    if f.at < s.ledger[k].at + c.ledgerTTL {
      assert Ledger.Vouches(s.ledger, c.ledgerTTL, c.ledgerMax, k, f.request.sandboxID, e.host, f.at);
    }
  }
}
