/** Both ends of an over-encryption channel and the network between them
    (pkg/overenc/overenc.go:290-342).

    The network is the adversary: it decides which record reaches which end, in which order
    and how often, under any sequence number, with any ciphertext it has seen or made up.
    What it cannot do is produce an ideal ciphertext that neither end sealed. */
module OverencProtocol {
  import opened Bytes
  import opened ReplayWindow
  import opened Overenc

  datatype Message = Message(seqno: nat, plaintext: bytes)

  /** `requests` and `responses` are the messages sealed by the client and by the server,
      `accepted` those the server took, `answers` those the client opened for the request
      sequence they name; `answered[i]` is the accepted request `responses[i]` replies to. */
  datatype State = State(
    keys: Keys, client: End, server: End, wire: set<Ciphertext>, calls: nat,
    requests: seq<Message>, accepted: seq<Message>, responses: seq<Message>, answered: seq<nat>,
    answers: seq<Message>)

  datatype Step =
    | SealRequest(plaintext: bytes)
    | DeliverRequest(rec: Record)
    | Respond(index: nat, plaintext: bytes)
    | DeliverResponse(rec: Record, requestSeq: nat)

  function Initial(k: Keys, sessionID: bytes): State {
    State(k, ClientEnd(k, sessionID), ServerEnd(k, sessionID), {}, 0, [], [], [], [], [])
  }

  /** A ciphertext the network can put into a record; the sequence field is a uint64. */
  predicate Deliverable(s: State, rec: Record) {
    rec.seqno < UINT64 && (rec.ct.Sealed? ==> rec.ct in s.wire)
  }

  function Apply(s: State, step: Step): State {
    match step
    case SealRequest(pt) =>
      var (client, r) := RequestSealed(s.client, pt);
      if r.Err? then s.(client := client, calls := s.calls + 1)
      else s.(client := client, calls := s.calls + 1, wire := s.wire + {r.value.ct},
              requests := s.requests + [Message(r.value.seqno, pt)])
    case DeliverRequest(rec) =>
      if !Deliverable(s, rec) then s
      else
        var (server, r) := RequestOpened(s.server, rec);
        s.(server := server, accepted := if r.Ok? then s.accepted + [Message(rec.seqno, r.value)] else s.accepted)
    case Respond(i, pt) =>
      if i >= |s.accepted| then s
      else
        var r := Seal(s.server, pt, s.accepted[i].seqno);
        if r.Err? then s
        else s.(wire := s.wire + {r.value.ct}, answered := s.answered + [i],
                responses := s.responses + [Message(r.value.seqno, pt)])
    case DeliverResponse(rec, q) =>
      if !Deliverable(s, rec) then s
      else
        var r := ResponseOpened(s.client, rec, q);
        if r.Err? then s else s.(answers := s.answers + [Message(q, r.value)])
  }

  function Exec(k: Keys, sessionID: bytes, steps: seq<Step>): State {
    if steps == [] then Initial(k, sessionID)
    else Apply(Exec(k, sessionID, steps[..|steps| - 1]), steps[|steps| - 1])
  }

  // ---- what holds in every run ----

  ghost predicate EndsFixed(s: State, id: bytes) {
    && s.client == ClientEnd(s.keys, id).(nextSeq := s.client.nextSeq)
    && s.server == ServerEnd(s.keys, id).(window := s.server.window)
    && s.client.nextSeq < UINT64
  }

  function RequestCt(s: State, id: bytes, m: Message): Ciphertext {
    Sealed(s.keys.c2sKey, Nonce(s.keys.c2sIV, m.seqno), Aad(REQUEST_TAG, id, m.seqno), m.plaintext)
  }

  function ResponseCt(s: State, id: bytes, m: Message): Ciphertext {
    Sealed(s.keys.s2cKey, Nonce(s.keys.s2cIV, m.seqno), Aad(RESPONSE_TAG, id, m.seqno), m.plaintext)
  }

  /** Every ciphertext on the wire was sealed by one of the ends, for a message it recorded. */
  ghost predicate WireOk(s: State, id: bytes) {
    forall ct | ct in s.wire ::
      || (exists m | m in s.requests :: m.seqno < UINT64 && ct == RequestCt(s, id, m))
      || (exists m | m in s.responses :: m.seqno < UINT64 && ct == ResponseCt(s, id, m))
  }

  ghost predicate AcceptedOk(s: State) {
    && (forall i | 0 <= i < |s.accepted| :: s.accepted[i] in s.requests && 0 < s.accepted[i].seqno < UINT64)
    && (forall i, j | 0 <= i < j < |s.accepted| :: s.accepted[i].seqno != s.accepted[j].seqno)
    && Represents(s.server.window, Seqnos(s.accepted))
  }

  ghost function Seqnos(ms: seq<Message>): set<nat> {
    set i | 0 <= i < |ms| :: ms[i].seqno
  }

  ghost predicate AnswersOk(s: State) {
    && (forall i | 0 <= i < |s.answers| :: s.answers[i] in s.responses)
    && |s.answered| == |s.responses|
    && (forall i | 0 <= i < |s.answered| ::
          s.answered[i] < |s.accepted| && s.responses[i].seqno == s.accepted[s.answered[i]].seqno)
  }

  ghost predicate Inv(s: State, id: bytes) {
    EndsFixed(s, id) && WireOk(s, id) && AcceptedOk(s) && AnswersOk(s)
  }

  /** An ideal ciphertext that opens in one direction was sealed in that direction, at the
      very sequence the record claims: the additional data leaves no other reading. */
  lemma OpenedRequestWasSealed(s: State, id: bytes, rec: Record)
    requires EndsFixed(s, id) && WireOk(s, id) && Deliverable(s, rec) && Open(s.server, rec).Ok?
    ensures var m := Message(rec.seqno, Open(s.server, rec).value); m in s.requests && rec.ct == RequestCt(s, id, m)
  {
    forall m | m in s.responses ensures rec.ct != ResponseCt(s, id, m) {
      DirectionsDisjoint(id, rec.seqno, m.seqno);
    }
    var m :| m in s.requests && m.seqno < UINT64 && rec.ct == RequestCt(s, id, m);
    AadPinsSequence(REQUEST_TAG, id, rec.seqno, m.seqno);
  }

  lemma OpenedResponseWasSealed(s: State, id: bytes, rec: Record)
    requires EndsFixed(s, id) && WireOk(s, id) && Deliverable(s, rec) && Open(s.client, rec).Ok?
    ensures var m := Message(rec.seqno, Open(s.client, rec).value); m in s.responses && rec.ct == ResponseCt(s, id, m)
  {
    forall m | m in s.requests ensures rec.ct != RequestCt(s, id, m) {
      DirectionsDisjoint(id, m.seqno, rec.seqno);
    }
    var m :| m in s.responses && m.seqno < UINT64 && rec.ct == ResponseCt(s, id, m);
    AadPinsSequence(RESPONSE_TAG, id, rec.seqno, m.seqno);
  }

  lemma SealRequestKeepsInv(s: State, id: bytes, pt: bytes)
    requires Inv(s, id)
    ensures Inv(Apply(s, SealRequest(pt)), id)
  {
    var s' := Apply(s, SealRequest(pt));
    if s.client.nextSeq != 0 {
      var m := Message(s.client.nextSeq, pt);
      assert s'.requests == s.requests + [m];
      forall ct | ct in s'.wire
        ensures (exists m | m in s'.requests :: m.seqno < UINT64 && ct == RequestCt(s', id, m)) ||
                (exists m | m in s'.responses :: m.seqno < UINT64 && ct == ResponseCt(s', id, m))
      {
        if ct in s.wire {
          if r :| r in s.requests && r.seqno < UINT64 && ct == RequestCt(s, id, r) {
            assert r in s'.requests && ct == RequestCt(s', id, r);
          }
        } else {
          assert m in s'.requests && ct == RequestCt(s', id, m);
        }
      }
    }
  }

  lemma DeliverRequestKeepsInv(s: State, id: bytes, rec: Record)
    requires Inv(s, id)
    ensures Inv(Apply(s, DeliverRequest(rec)), id)
  {
    var s' := Apply(s, DeliverRequest(rec));
    if Deliverable(s, rec) && rec.seqno != 0 && Open(s.server, rec).Ok? {
      OpenedRequestWasSealed(s, id, rec);
      AcceptIsExact(s.server.window, Seqnos(s.accepted), rec.seqno);
      if s'.accepted != s.accepted {
        var m := s'.accepted[|s.accepted|];
        assert s'.accepted == s.accepted + [m];
        forall i | 0 <= i < |s.accepted| ensures s.accepted[i].seqno != m.seqno {
          assert s.accepted[i].seqno in Seqnos(s.accepted);
        }
        SeqnosAppend(s.accepted, m);
      }
    }
  }

  lemma SeqnosAppend(ms: seq<Message>, m: Message)
    ensures Seqnos(ms + [m]) == Seqnos(ms) + {m.seqno}
  {
    var all := ms + [m];
    forall x ensures x in Seqnos(all) <==> x in Seqnos(ms) || x == m.seqno {
      if x in Seqnos(ms) {
        var i :| 0 <= i < |ms| && ms[i].seqno == x;
        assert all[i].seqno == x;
      }
      if x == m.seqno { assert all[|ms|].seqno == x; }
    }
  }

  lemma RespondKeepsInv(s: State, id: bytes, i: nat, pt: bytes)
    requires Inv(s, id)
    ensures Inv(Apply(s, Respond(i, pt)), id)
  {
    var s' := Apply(s, Respond(i, pt));
    if i < |s.accepted| {
      var m := Message(s.accepted[i].seqno, pt);
      assert s'.responses == s.responses + [m] && s'.answered == s.answered + [i];
      forall ct | ct in s'.wire
        ensures (exists m | m in s'.requests :: m.seqno < UINT64 && ct == RequestCt(s', id, m)) ||
                (exists m | m in s'.responses :: m.seqno < UINT64 && ct == ResponseCt(s', id, m))
      {
        if ct in s.wire {
          if r :| r in s.responses && r.seqno < UINT64 && ct == ResponseCt(s, id, r) {
            assert r in s'.responses && ct == ResponseCt(s', id, r);
          }
        } else {
          assert m in s'.responses && ct == ResponseCt(s', id, m);
        }
      }
    }
  }

  lemma DeliverResponseKeepsInv(s: State, id: bytes, rec: Record, q: nat)
    requires Inv(s, id)
    ensures Inv(Apply(s, DeliverResponse(rec, q)), id)
  {
    if Deliverable(s, rec) && ResponseOpened(s.client, rec, q).Ok? {
      OpenedResponseWasSealed(s, id, rec);
    }
  }

  lemma {:induction false} InvAlways(k: Keys, id: bytes, steps: seq<Step>)
    ensures Inv(Exec(k, id, steps), id)
  {
    if steps == [] {
      EmptyRepresentsNothing();
      assert Seqnos([]) == {};
    } else {
      var s, last := Exec(k, id, steps[..|steps| - 1]), steps[|steps| - 1];
      InvAlways(k, id, steps[..|steps| - 1]);
      match last
      case SealRequest(pt) => SealRequestKeepsInv(s, id, pt);
      case DeliverRequest(rec) => DeliverRequestKeepsInv(s, id, rec);
      case Respond(i, pt) => RespondKeepsInv(s, id, i, pt);
      case DeliverResponse(rec, q) => DeliverResponseKeepsInv(s, id, rec, q);
    }
  }

  /** Under every network schedule the server accepts each sequence at most once, and what it
      accepts is a message the client sealed at that sequence. */
  lemma RequestsAcceptedAtMostOnce(k: Keys, id: bytes, steps: seq<Step>)
    ensures var s := Exec(k, id, steps);
            && (forall i, j | 0 <= i < j < |s.accepted| :: s.accepted[i].seqno != s.accepted[j].seqno)
            && (forall i | 0 <= i < |s.accepted| :: s.accepted[i] in s.requests)
  {
    InvAlways(k, id, steps);
  }

  /** Under every network schedule an answer the client opens for a request was sealed by the
      server as the response to an accepted request of that very sequence. */
  lemma AnswersBelongToTheirRequest(k: Keys, id: bytes, steps: seq<Step>, i: nat)
    requires i < |Exec(k, id, steps).answers|
    ensures var s := Exec(k, id, steps);
            exists j | 0 <= j < |s.responses| ::
              && s.responses[j] == s.answers[i]
              && j < |s.answered| && s.answered[j] < |s.accepted| &&
                 s.accepted[s.answered[j]].seqno == s.answers[i].seqno
  {
    InvAlways(k, id, steps);
    var s := Exec(k, id, steps);
    assert s.answers[i] in s.responses;
    var j :| 0 <= j < |s.responses| && s.responses[j] == s.answers[i];
  }

  // ---- what the network cannot do ----

  /** A delivery of a record as its sender sealed it, to the end it is meant for and, for a
      request, not accepted before; and every step of the two ends themselves. */
  ghost predicate Genuine(s: State, id: bytes, step: Step) {
    match step
    case DeliverRequest(rec) =>
      rec.seqno !in Seqnos(s.accepted) && exists m | m in s.requests ::
        m.seqno == rec.seqno && rec.ct == RequestCt(s, id, m)
    case DeliverResponse(rec, q) =>
      q == rec.seqno && exists m | m in s.responses :: m.seqno == rec.seqno && rec.ct == ResponseCt(s, id, m)
    case _ => true
  }

  /** The schedule with every forged, altered, misdirected or replayed delivery left out. */
  ghost function GenuineSteps(k: Keys, id: bytes, steps: seq<Step>): seq<Step> {
    if steps == [] then []
    else
      var init, last := steps[..|steps| - 1], steps[|steps| - 1];
      GenuineSteps(k, id, init) + if Genuine(Exec(k, id, init), id, last) then [last] else []
  }

  lemma OthersChangeNothing(s: State, id: bytes, step: Step)
    requires Inv(s, id) && !Genuine(s, id, step)
    ensures Apply(s, step) == s
  {
    if step.DeliverRequest? && Deliverable(s, step.rec) && step.rec.seqno != 0 && Open(s.server, step.rec).Ok? {
      OpenedRequestWasSealed(s, id, step.rec);
      AcceptIsExact(s.server.window, Seqnos(s.accepted), step.rec.seqno);
    }
    if step.DeliverResponse? && Deliverable(s, step.rec) && ResponseOpened(s.client, step.rec, step.requestSeq).Ok? {
      OpenedResponseWasSealed(s, id, step.rec);
    }
  }

  /** Whatever the network adds to a schedule, both ends finish as if it had not. */
  lemma {:induction false} ForgeriesChangeNothing(k: Keys, id: bytes, steps: seq<Step>)
    ensures Exec(k, id, GenuineSteps(k, id, steps)) == Exec(k, id, steps)
  {
    if steps != [] {
      var init, last := steps[..|steps| - 1], steps[|steps| - 1];
      ForgeriesChangeNothing(k, id, init);
      InvAlways(k, id, init);
      if Genuine(Exec(k, id, init), id, last) {
        var kept := GenuineSteps(k, id, init) + [last];
        assert kept[..|kept| - 1] == GenuineSteps(k, id, init);
      } else {
        OthersChangeNothing(Exec(k, id, init), id, last);
        assert GenuineSteps(k, id, steps) == GenuineSteps(k, id, init);
      }
    }
  }

  // ---- nonces ----

  ghost predicate Distinct<T(!new)>(xs: seq<T>) {
    forall i, j | 0 <= i < j < |xs| :: xs[i] != xs[j]
  }

  /** The nonces under which an end has sealed. */
  function Nonces(iv: bytes, ms: seq<Message>): seq<bytes> {
    seq(|ms|, i requires 0 <= i < |ms| => Nonce(iv, ms[i].seqno))
  }

  /** Towards the client: since accepted sequences are distinct, a nonce repeats exactly when
      an accepted request is answered twice. */
  lemma ResponseNoncesDistinctIff(k: Keys, id: bytes, steps: seq<Step>)
    ensures var s := Exec(k, id, steps);
            Distinct(Nonces(k.s2cIV, s.responses)) <==> Distinct(s.answered)
  {
    InvAlways(k, id, steps);
    var s := Exec(k, id, steps);
    var ns := Nonces(k.s2cIV, s.responses);
    forall i, j | 0 <= i < j < |ns| ensures ns[i] == ns[j] <==> s.answered[i] == s.answered[j] {
      var a, b := s.answered[i], s.answered[j];
      assert a != b ==> s.accepted[a].seqno != s.accepted[b].seqno;
      if ns[i] == ns[j] {
        NonceInjective(k.s2cIV, s.responses[i].seqno, s.responses[j].seqno);
      }
    }
  }

  const CYCLE: nat := UINT64 - 1

  /** The client runs through the non-zero sequences in a cycle; the call that meets zero fails. */
  ghost predicate CounterOk(s: State, wraps: nat, rest: nat) {
    && s.calls == UINT64 * wraps + rest && rest < UINT64
    && |s.requests| == CYCLE * wraps + rest
    && s.client.nextSeq == (rest + 1) % UINT64
    && forall i | 0 <= i < |s.requests| :: s.requests[i].seqno == i % CYCLE + 1
  }

  lemma CounterStep(s: State, wraps: nat, rest: nat, pt: bytes)
    requires CounterOk(s, wraps, rest)
    ensures if rest == CYCLE then CounterOk(Apply(s, SealRequest(pt)), wraps + 1, 0)
            else CounterOk(Apply(s, SealRequest(pt)), wraps, rest + 1)
  {
    var s' := Apply(s, SealRequest(pt));
    if rest != CYCLE {
      assert s'.requests == s.requests + [Message(rest + 1, pt)];
      assert |s.requests| % CYCLE == rest by {
        UniqueQuotient(|s.requests|, CYCLE, wraps, rest);
      }
    }
  }

  lemma {:induction false} CounterAlways(k: Keys, id: bytes, steps: seq<Step>) returns (wraps: nat, rest: nat)
    ensures CounterOk(Exec(k, id, steps), wraps, rest)
  {
    if steps == [] {
      wraps, rest := 0, 0;
    } else {
      wraps, rest := CounterAlways(k, id, steps[..|steps| - 1]);
      var s, last := Exec(k, id, steps[..|steps| - 1]), steps[|steps| - 1];
      if last.SealRequest? {
        CounterStep(s, wraps, rest, last.plaintext);
        if rest == CYCLE { wraps, rest := wraps + 1, 0; } else { rest := rest + 1; }
      } else {
        assert Exec(k, id, steps).requests == s.requests && Exec(k, id, steps).client == s.client;
      }
    }
  }

  lemma CallsAndRequests(calls: nat, requests: nat, wraps: nat, rest: nat)
    requires calls == UINT64 * wraps + rest && rest < UINT64 && requests == CYCLE * wraps + rest
    ensures calls <= UINT64 <==> requests <= CYCLE
  {
  }

  lemma CycleDistinctIff(iv: bytes, ms: seq<Message>)
    requires forall i | 0 <= i < |ms| :: ms[i].seqno == i % CYCLE + 1
    ensures Distinct(Nonces(iv, ms)) <==> |ms| <= CYCLE
  {
    var ns := Nonces(iv, ms);
    if |ms| <= CYCLE {
      forall i, j | 0 <= i < j < |ns| ensures ns[i] != ns[j] {
        assert ms[i].seqno == i + 1 && ms[j].seqno == j + 1;
        DifferentNonces(iv, i + 1, j + 1);
      }
    } else {
      assert ms[0].seqno == 1 && ms[CYCLE].seqno == 1;
      assert ns[0] == ns[CYCLE];
    }
  }

  lemma DifferentNonces(iv: bytes, m: nat, n: nat)
    requires m < n < UINT64
    ensures Nonce(iv, m) != Nonce(iv, n)
  {
    if Nonce(iv, m) == Nonce(iv, n) { NonceInjective(iv, m, n); }
  }

  /** Towards the server: no nonce is sealed twice for as long as SealRequest has been called
      at most 2^64 times, and the next call after that repeats the first one. */
  lemma RequestNoncesDistinctIff(k: Keys, id: bytes, steps: seq<Step>)
    ensures var s := Exec(k, id, steps);
            Distinct(Nonces(k.c2sIV, s.requests)) <==> s.calls <= UINT64
  {
    var wraps, rest := CounterAlways(k, id, steps);
    var s := Exec(k, id, steps);
    CallsAndRequests(s.calls, |s.requests|, wraps, rest);
    CycleDistinctIff(k.c2sIV, s.requests);
  }
}
