/** What the network can do: deliver.  A record that arrives as it was sealed is opened, whatever
    else the network did before (pkg/overenc/overenc.go:290-377). */
module OverencDelivery {
  import opened Bytes
  import opened ReplayWindow
  import opened Overenc
  import opened OverencProtocol

  // ---- what was sealed is on the wire ----

  function RequestRecord(s: State, id: bytes, m: Message): Record {
    Record(m.seqno, RequestCt(s, id, m))
  }

  function ResponseRecord(s: State, id: bytes, m: Message): Record {
    Record(m.seqno, ResponseCt(s, id, m))
  }

  ghost predicate Sent(s: State, id: bytes) {
    && (forall m | m in s.requests :: 0 < m.seqno && Deliverable(s, RequestRecord(s, id, m)))
    && (forall m | m in s.responses :: 0 < m.seqno && Deliverable(s, ResponseRecord(s, id, m)))
  }

  lemma SealSends(s: State, id: bytes, pt: bytes)
    requires Inv(s, id) && Sent(s, id)
    ensures Sent(Apply(s, SealRequest(pt)), id)
  {
    var s' := Apply(s, SealRequest(pt));
    if s.client.nextSeq != 0 {
      var m := Message(s.client.nextSeq, pt);
      assert s'.requests == s.requests + [m] && RequestCt(s', id, m) in s'.wire;
    }
  }

  lemma RespondSends(s: State, id: bytes, i: nat, pt: bytes)
    requires Inv(s, id) && Sent(s, id)
    ensures Sent(Apply(s, Respond(i, pt)), id)
  {
    var s' := Apply(s, Respond(i, pt));
    if i < |s.accepted| {
      var m := Message(s.accepted[i].seqno, pt);
      assert s'.responses == s.responses + [m] && ResponseCt(s', id, m) in s'.wire;
    }
  }

  lemma {:induction false} SentAlways(k: Keys, id: bytes, steps: seq<Step>)
    ensures Sent(Exec(k, id, steps), id)
  {
    if steps != [] {
      var s, last := Exec(k, id, steps[..|steps| - 1]), steps[|steps| - 1];
      SentAlways(k, id, steps[..|steps| - 1]);
      InvAlways(k, id, steps[..|steps| - 1]);
      match last
      case SealRequest(pt) => SealSends(s, id, pt);
      case Respond(i, pt) => RespondSends(s, id, i, pt);
      case DeliverRequest(rec) =>
      case DeliverResponse(rec, q) =>
    }
  }

  // ---- genuine records are opened ----

  /** Not accepted before, and less than 64 behind whatever was. */
  ghost predicate Fresh(accepted: seq<Message>, q: nat) {
    q !in Seqnos(accepted) && forall i | 0 <= i < |accepted| :: accepted[i].seqno < q + 64
  }

  lemma FreshIsAccepted(s: State, q: nat)
    requires AcceptedOk(s) && 0 < q < UINT64
    ensures Accept(s.server.window, q).1 <==> Fresh(s.accepted, q)
    ensures !Fresh(s.accepted, q) ==> Accept(s.server.window, q).0 == s.server.window
  {
    var w, taken := s.server.window, Seqnos(s.accepted);
    AcceptIsExact(w, taken, q);
    forall i | 0 <= i < |s.accepted| ensures s.accepted[i].seqno <= w.high { assert s.accepted[i].seqno in taken; }
    if w.high > 0 { var i :| 0 <= i < |s.accepted| && s.accepted[i].seqno == w.high; }
  }

  /** After any schedule, a request that arrives as the client sealed it is accepted, with its
      plaintext, if it is fresh, and otherwise changes nothing. */
  lemma GenuineRequestIsAccepted(k: Keys, id: bytes, steps: seq<Step>, m: Message)
    requires m in Exec(k, id, steps).requests
    ensures var s := Exec(k, id, steps);
            var s' := Apply(s, DeliverRequest(RequestRecord(s, id, m)));
            if Fresh(s.accepted, m.seqno) then s' == s.(server := s'.server, accepted := s.accepted + [m]) else s' == s
  {
    var s := Exec(k, id, steps);
    InvAlways(k, id, steps);
    SentAlways(k, id, steps);
    FreshIsAccepted(s, m.seqno);
  }

  /** After any schedule, a response that arrives as the server sealed it answers the request of its
      sequence, and no other. */
  lemma GenuineResponseAnswers(k: Keys, id: bytes, steps: seq<Step>, m: Message, q: nat)
    requires m in Exec(k, id, steps).responses
    ensures var s := Exec(k, id, steps);
            Apply(s, DeliverResponse(ResponseRecord(s, id, m), q)) ==
            if q == m.seqno then s.(answers := s.answers + [m]) else s
  {
    InvAlways(k, id, steps);
    SentAlways(k, id, steps);
  }

  // ---- a round trip ----

  lemma ExecOne(k: Keys, id: bytes, steps: seq<Step>, x: Step)
    ensures Exec(k, id, steps + [x]) == Apply(Exec(k, id, steps), x)
  {
    assert (steps + [x])[..|steps|] == steps;
  }

  /** Until the counter wraps, the sequences used are the numbers of the calls. */
  lemma FirstCycle(s: State, wraps: nat, rest: nat)
    requires CounterOk(s, wraps, rest) && s.calls < CYCLE
    ensures wraps == 0 && s.client.nextSeq == s.calls + 1 && |s.requests| == s.calls
    ensures forall i | 0 <= i < |s.requests| :: s.requests[i].seqno == i + 1
  {
    assert wraps == 0;
  }

  lemma UsedAreSmaller(s: State, id: bytes, q: nat)
    requires Inv(s, id) && forall i | 0 <= i < |s.requests| :: s.requests[i].seqno < q
    ensures Fresh(s.accepted, q)
  {
    forall i | 0 <= i < |s.accepted| ensures s.accepted[i].seqno < q {
      var j :| 0 <= j < |s.requests| && s.requests[j] == s.accepted[i];
    }
  }

  /** The sequence that the next call seals under has not been used. */
  lemma NextIsFresh(k: Keys, id: bytes, steps: seq<Step>)
    requires Exec(k, id, steps).calls < CYCLE
    ensures var s := Exec(k, id, steps); s.client.nextSeq == s.calls + 1 && Fresh(s.accepted, s.calls + 1)
  {
    var s := Exec(k, id, steps);
    var wraps, rest := CounterAlways(k, id, steps);
    FirstCycle(s, wraps, rest);
    InvAlways(k, id, steps);
    UsedAreSmaller(s, id, s.calls + 1);
  }

  lemma SealsNext(k: Keys, id: bytes, steps: seq<Step>, pt: bytes)
    requires Exec(k, id, steps).calls < CYCLE
    ensures var s := Exec(k, id, steps);
            var s' := Exec(k, id, steps + [SealRequest(pt)]);
            && s'.requests == s.requests + [Message(s.calls + 1, pt)]
            && s'.accepted == s.accepted && s'.answers == s.answers && Fresh(s'.accepted, s.calls + 1)
  {
    NextIsFresh(k, id, steps);
    ExecOne(k, id, steps, SealRequest(pt));
  }

  /** The server takes the request and answers it. */
  lemma TakesAndAnswers(k: Keys, id: bytes, steps: seq<Step>, m: Message, reply: bytes) returns (more: seq<Step>)
    requires m in Exec(k, id, steps).requests && Fresh(Exec(k, id, steps).accepted, m.seqno)
    ensures var s, s' := Exec(k, id, steps), Exec(k, id, steps + more);
            && s'.accepted == s.accepted + [m] && s'.answers == s.answers
            && Message(m.seqno, reply) in s'.responses
  {
    var s := Exec(k, id, steps);
    var d, r := DeliverRequest(RequestRecord(s, id, m)), Respond(|s.accepted|, reply);
    InvAlways(k, id, steps);
    SentAlways(k, id, steps);
    GenuineRequestIsAccepted(k, id, steps, m);
    ExecOne(k, id, steps, d);
    ExecOne(k, id, steps + [d], r);
    more := [d] + [r];
    assert (steps + [d]) + [r] == steps + more;
    var s' := Exec(k, id, steps + more);
    assert s'.responses[|s'.responses| - 1] == Message(m.seqno, reply);
  }

  /** After any schedule with fewer than 2^64 - 1 sealed requests, whatever the network did, the next
      request can be sent, taken, answered and its answer opened, each as it was sealed. */
  lemma RoundTrip(k: Keys, id: bytes, steps: seq<Step>, pt: bytes, reply: bytes) returns (more: seq<Step>)
    requires Exec(k, id, steps).calls < CYCLE
    ensures var s, s' := Exec(k, id, steps), Exec(k, id, steps + more);
            && s'.accepted == s.accepted + [Message(s.calls + 1, pt)]
            && s'.answers == s.answers + [Message(s.calls + 1, reply)]
  {
    var q := Exec(k, id, steps).calls + 1;
    var sealed := steps + [SealRequest(pt)];
    SealsNext(k, id, steps, pt);
    var middle := TakesAndAnswers(k, id, sealed, Message(q, pt), reply);
    var s2 := Exec(k, id, sealed + middle);
    var last := DeliverResponse(ResponseRecord(s2, id, Message(q, reply)), q);
    GenuineResponseAnswers(k, id, sealed + middle, Message(q, reply), q);
    ExecOne(k, id, sealed + middle, last);
    more := [SealRequest(pt)] + middle + [last];
    assert (sealed + middle) + [last] == steps + more;
  }
}
