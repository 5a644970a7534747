/** The record layer of the over-encryption channel (pkg/overenc/overenc.go:172-377).

    AES-GCM is ideal: a ciphertext is the term that sealed it, and it opens under exactly
    the key, nonce and additional data it was sealed with. */
module Overenc {
  import opened Wrappers
  import opened Bytes
  import opened ReplayWindow

  const SESSION_ID_BYTES: nat := 16
  const SEQ_BYTES: nat := 8
  const REQUEST_TAG: bytes := Ascii("c8s-verify/v1/tunnel-request")
  const RESPONSE_TAG: bytes := Ascii("c8s-verify/v1/tunnel-response")

  type Key = nat

  datatype Ciphertext =
    | Sealed(key: Key, nonce: bytes, aad: bytes, plaintext: bytes)
    | Forged(noise: bytes)

  function AeadOpen(key: Key, nonce: bytes, ct: Ciphertext, aad: bytes): Result<bytes, Error> {
    if ct.Sealed? && ct.key == key && ct.nonce == nonce && ct.aad == aad then Ok(ct.plaintext)
    else Err(AuthenticationFailed)
  }

  datatype Error = AuthenticationFailed | ReplayedRecord | SequenceInvalid | BadSessionID

  datatype Record = Record(seqno: nat, ct: Ciphertext)

  /** The key schedule of one session; HKDF outputs are taken as given. */
  datatype Keys = Keys(c2sKey: Key, s2cKey: Key, c2sIV: bytes, s2cIV: bytes)

  /** One end of the channel: fixed parameters, the client's next sequence and the server's window. */
  datatype End = End(
    sessionID: bytes, sendKey: Key, recvKey: Key, sendIV: bytes, recvIV: bytes, sendTag: bytes, recvTag: bytes,
    nextSeq: nat, window: Window)

  function ClientEnd(k: Keys, sessionID: bytes): End {
    End(sessionID, k.c2sKey, k.s2cKey, k.c2sIV, k.s2cIV, REQUEST_TAG, RESPONSE_TAG, 1, EMPTY)
  }

  function ServerEnd(k: Keys, sessionID: bytes): End {
    End(sessionID, k.s2cKey, k.c2sKey, k.s2cIV, k.c2sIV, RESPONSE_TAG, REQUEST_TAG, 1, EMPTY)
  }

  // ---- framing ----

  function Aad(tag: bytes, sessionID: bytes, seqno: nat): bytes {
    tag + sessionID + BigEndian(seqno, SEQ_BYTES)
  }

  function Nonce(iv: bytes, seqno: nat): bytes {
    iv + BigEndian(seqno, SEQ_BYTES)
  }

  lemma Pow256Of8()
    ensures Pow256(8) == UINT64
  {
    assert Pow256(4) == 0x1_0000_0000;
    assert Pow256(8) == 0x1_0000_0000 * Pow256(4);
  }

  /** Nonces repeat only when sequences do. */
  lemma NonceInjective(iv: bytes, m: nat, n: nat)
    requires m < UINT64 && n < UINT64 && Nonce(iv, m) == Nonce(iv, n)
    ensures m == n
  {
    Pow256Of8();
    SplitEqual(iv, BigEndian(m, 8), iv, BigEndian(n, 8));
    BigEndianInjective(m, n, 8);
  }

  /** The additional data pins the direction, whatever the keys are ... */
  lemma DirectionsDisjoint(sessionID: bytes, m: nat, n: nat)
    ensures Aad(REQUEST_TAG, sessionID, m) != Aad(RESPONSE_TAG, sessionID, n)
  {
    assert |Aad(REQUEST_TAG, sessionID, m)| == 28 + |sessionID| + 8;
    assert |Aad(RESPONSE_TAG, sessionID, n)| == 29 + |sessionID| + 8;
  }

  /** ... and the sequence. */
  lemma AadPinsSequence(tag: bytes, sessionID: bytes, m: nat, n: nat)
    requires m < UINT64 && n < UINT64 && Aad(tag, sessionID, m) == Aad(tag, sessionID, n)
    ensures m == n
  {
    Pow256Of8();
    SplitEqual(tag + sessionID, BigEndian(m, 8), tag + sessionID, BigEndian(n, 8));
    BigEndianInjective(m, n, 8);
  }

  // ---- operations ----

  function Seal(e: End, plaintext: bytes, seqno: nat): Result<Record, Error> {
    if seqno == 0 then Err(SequenceInvalid)
    else Ok(Record(seqno, Sealed(e.sendKey, Nonce(e.sendIV, seqno), Aad(e.sendTag, e.sessionID, seqno), plaintext)))
  }

  function Open(e: End, rec: Record): Result<bytes, Error> {
    AeadOpen(e.recvKey, Nonce(e.recvIV, rec.seqno), rec.ct, Aad(e.recvTag, e.sessionID, rec.seqno))
  }

  /** SealRequest: the sequence counter is a uint64 and wraps. */
  function RequestSealed(e: End, plaintext: bytes): (End, Result<Record, Error>) {
    (e.(nextSeq := (e.nextSeq + 1) % UINT64), Seal(e, plaintext, e.nextSeq))
  }

  function RequestOpened(e: End, rec: Record): (End, Result<bytes, Error>) {
    if rec.seqno == 0 then (e, Err(SequenceInvalid))
    else
      var pt := Open(e, rec);
      if pt.Err? then (e, pt)
      else
        var (w, ok) := Accept(e.window, rec.seqno);
        (e.(window := w), if ok then pt else Err(ReplayedRecord))
  }

  function ResponseOpened(e: End, rec: Record, requestSeq: nat): Result<bytes, Error> {
    if rec.seqno == 0 || rec.seqno != requestSeq then Err(SequenceInvalid) else Open(e, rec)
  }

  /** The object; its methods are the functions above on its fields. */
  class Channel {
    const sessionID: bytes
    const sendKey: Key
    const recvKey: Key
    const sendIV: bytes
    const recvIV: bytes
    const sendTag: bytes
    const recvTag: bytes
    var nextSeq: nat
    var seqHigh: nat
    var seqMask: nat

    ghost function View(): End
      reads this
    {
      End(sessionID, sendKey, recvKey, sendIV, recvIV, sendTag, recvTag, nextSeq, Window(seqHigh, seqMask))
    }

    constructor Client(k: Keys, id: bytes)
      ensures View() == ClientEnd(k, id)
    {
      sessionID, sendKey, recvKey, sendIV, recvIV := id, k.c2sKey, k.s2cKey, k.c2sIV, k.s2cIV;
      sendTag, recvTag, nextSeq, seqHigh, seqMask := REQUEST_TAG, RESPONSE_TAG, 1, 0, 0;
    }

    constructor Server(k: Keys, id: bytes)
      ensures View() == ServerEnd(k, id)
    {
      sessionID, sendKey, recvKey, sendIV, recvIV := id, k.s2cKey, k.c2sKey, k.s2cIV, k.c2sIV;
      sendTag, recvTag, nextSeq, seqHigh, seqMask := RESPONSE_TAG, REQUEST_TAG, 1, 0, 0;
    }

    method SealRequest(plaintext: bytes) returns (r: Result<Record, Error>)
      modifies this`nextSeq
      ensures (View(), r) == RequestSealed(old(View()), plaintext)
    {
      var seqno := nextSeq;
      nextSeq := (nextSeq + 1) % UINT64;
      r := SealResponse(plaintext, seqno);
    }

    /** SealResponse, and the common tail of both. */
    method SealResponse(plaintext: bytes, seqno: nat) returns (r: Result<Record, Error>)
      ensures r == Seal(View(), plaintext, seqno)
    {
      if seqno == 0 {
        return Err(SequenceInvalid);
      }
      return Ok(Record(seqno, Sealed(sendKey, Nonce(sendIV, seqno), Aad(sendTag, sessionID, seqno), plaintext)));
    }

    method AcceptSeq(seqno: nat) returns (ok: bool)
      modifies this`seqHigh, this`seqMask
      ensures (Window(seqHigh, seqMask), ok) == Accept(old(Window(seqHigh, seqMask)), seqno)
    {
      if seqno > seqHigh {
        var shift := seqno - seqHigh;
        if shift >= REPLAY_WINDOW {
          seqMask := 0;
        } else {
          seqMask := ShiftLeft(seqMask, shift);
        }
        seqMask := SetBit(seqMask, 0);
        seqHigh := seqno;
        return true;
      }
      if seqHigh - seqno >= REPLAY_WINDOW {
        return false;
      }
      if Bit(seqMask, seqHigh - seqno) {
        return false;
      }
      seqMask := SetBit(seqMask, seqHigh - seqno);
      return true;
    }

    method OpenRequest(rec: Record) returns (r: Result<bytes, Error>)
      modifies this`seqHigh, this`seqMask
      ensures (View(), r) == RequestOpened(old(View()), rec)
      ensures r.Err? ==> View() == old(View())
    {
      if rec.seqno == 0 {
        return Err(SequenceInvalid);
      }
      r := AeadOpen(recvKey, Nonce(recvIV, rec.seqno), rec.ct, Aad(recvTag, sessionID, rec.seqno));
      if r.Err? {
        return;
      }
      var ok := AcceptSeq(rec.seqno);
      if !ok {
        return Err(ReplayedRecord);
      }
    }

    method OpenResponse(rec: Record, requestSeq: nat) returns (r: Result<bytes, Error>)
      ensures r == ResponseOpened(View(), rec, requestSeq)
    {
      if rec.seqno == 0 || rec.seqno != requestSeq {
        return Err(SequenceInvalid);
      }
      r := AeadOpen(recvKey, Nonce(recvIV, rec.seqno), rec.ct, Aad(recvTag, sessionID, rec.seqno));
    }
  }

  /** NewClientChannel and NewServerChannel: a session id of the wrong length is refused. */
  method NewChannel(client: bool, k: Keys, id: bytes) returns (r: Result<Channel, Error>)
    ensures r.Ok? <==> |id| == SESSION_ID_BYTES
    ensures r.Ok? ==> fresh(r.value) && r.value.View() == if client then ClientEnd(k, id) else ServerEnd(k, id)
    ensures r.Err? ==> r.error == BadSessionID
  {
    if |id| != SESSION_ID_BYTES {
      return Err(BadSessionID);
    }
    var ch: Channel;
    if client {
      ch := new Channel.Client(k, id);
    } else {
      ch := new Channel.Server(k, id);
    }
    return Ok(ch);
  }
}
