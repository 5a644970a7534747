/** Reading a transcript back: a verifier in another language finds every field, in its place
    (pkg/overenc/identity.go:50-125, pkg/operatorauth/keyset.go:20-54). */
module TranscriptReader {
  import opened Bytes
  import opened Wrappers
  import opened Sorting
  import opened Transcripts
  import Overenc

  /** The number a big-endian string stands for. */
  function Value(b: bytes): nat {
    if b == [] then 0 else 256 * Value(b[..|b| - 1]) + b[|b| - 1]
  }

  lemma {:induction false} ValueOfBigEndian(n: nat, width: nat)
    requires n < Pow256(width)
    ensures Value(BigEndian(n, width)) == n
  {
    if width > 0 {
      var init := BigEndian(n / 256, width - 1);
      ValueOfBigEndian(n / 256, width - 1);
      assert (init + [n % 256])[..width - 1] == init;
    }
  }

  /** The fields of a framing, each after four bytes that give its length. */
  function Unframed(b: bytes): Option<seq<bytes>> {
    if b == [] then Some([])
    else if |b| < 4 || |b| - 4 < Value(b[..4]) then None
    else
      var end := 4 + Value(b[..4]);
      var rest := Unframed(b[end..]);
      if rest.None? then None else Some([b[4..end]] + rest.value)
  }

  lemma UnframedFirst(field: bytes, rest: bytes)
    requires |field| <= 0xFFFF_FFFF
    ensures Unframed(BigEndian(|field|, 4) + field + rest) ==
            if Unframed(rest).None? then None else Some([field] + Unframed(rest).value)
  {
    var head := BigEndian(|field|, 4);
    var b := head + field + rest;
    Pow256Of4();
    ValueOfBigEndian(|field|, 4);
    assert b[..4] == head && b[4..4 + |field|] == field && b[4 + |field|..] == rest;
  }

  /** Reading undoes framing. */
  lemma {:induction false} UnframedFramed(fields: seq<bytes>)
    requires Framed(fields).Some?
    ensures Unframed(Framed(fields).value) == Some(fields)
  {
    if fields != [] {
      UnframedFramed(fields[1..]);
      UnframedFirst(fields[0], Framed(fields[1..]).value);
      assert fields == [fields[0]] + fields[1..];
    }
  }

  /** A framing exists exactly when every length fits in four bytes. */
  lemma {:induction false} FramedIff(fields: seq<bytes>)
    ensures Framed(fields).Some? <==> forall i | 0 <= i < |fields| :: |fields[i]| < 0x1_0000_0000
  {
    if fields != [] {
      FramedIff(fields[1..]);
      assert forall i | 0 < i < |fields| :: fields[i] == fields[1..][i - 1];
    }
  }

  /** The identity transcript is refused unless every part has its size, and otherwise reads as its domain,
      mode, CA and leaf digests, the key exchange, the session and the nonce. */
  lemma IdentityReads(t: Identity, d: Digest)
    requires |d(t.ca)| == 32 && |d(t.leaf)| == 32
    ensures IdentityPreimage(t, d).Some? <==>
            && 0 < |t.mode| < 0x1_0000_0000 && |t.ek| == 1216 && |t.ct| == 1120 && |t.sessionID| == 16
            && |t.nonce| == 32 && t.leaf != [] && t.ca != []
    ensures IdentityPreimage(t, d).Some? ==>
              Unframed(IdentityPreimage(t, d).value) ==
              Some([Ascii("c8s-verify/v1"), t.mode, d(t.ca), d(t.leaf), t.ek, t.ct, t.sessionID, t.nonce])
  {
    FramedIff(IdentityFields(t, d));
    if IdentityPreimage(t, d).Some? { UnframedFramed(IdentityFields(t, d)); }
  }

  lemma LBReads(t: LB, d: Digest)
    requires |d(t.servingLeaf)| == 32 && |d(t.meshLeaf)| == 32 && |d(t.ca)| == 32
    ensures LBPreimage(t, d).Some? <==>
            0 < |t.mode| < 0x1_0000_0000 && |t.nonce| == 32 && t.servingLeaf != [] && t.meshLeaf != [] && t.ca != []
    ensures LBPreimage(t, d).Some? ==>
              Unframed(LBPreimage(t, d).value) ==
              Some([Ascii("c8s/attest-lb/v1"), t.mode, t.nonce, d(t.servingLeaf), d(t.meshLeaf), d(t.ca)])
  {
    FramedIff(LBFields(t, d));
    if LBPreimage(t, d).Some? { UnframedFramed(LBFields(t, d)); }
  }

  // ---- key sets ----

  /** The string cut into pieces of 32 bytes. */
  function Pieces(b: bytes): seq<bytes> {
    if |b| < 32 then [] else Pieces(b[..|b| - 32]) + [b[|b| - 32..]]
  }

  lemma {:induction false} PiecesOfFlattened(fps: seq<bytes>)
    requires AllFingerprints(fps)
    ensures Pieces(Flattened(fps)) == fps
  {
    if fps != [] {
      var n := |fps| - 1;
      var init := Flattened(fps[..n]);
      PiecesOfFlattened(fps[..n]);
      assert (init + fps[n])[..|init|] == init && (init + fps[n])[|init|..] == fps[n];
      assert fps == fps[..n] + [fps[n]];
    }
  }

  /** After its domain the key-set text is the fingerprints of the set, each once, ascending. */
  lemma KeySetReads(fps: seq<bytes>)
    requires AllFingerprints(fps)
    ensures var written, domain := KeySetPreimage(fps), Ascii("c8s-operator-key-set-v1") + [0];
            && |written| >= 24 && written[..24] == domain
            && var pieces := Pieces(written[24..]);
               && (forall x :: x in pieces <==> x in fps) && Distinct(pieces)
               && forall i, j | 0 <= i < j < |pieces| :: LexLeq(pieces[i], pieces[j])
  {
    var r := Compact(Sort(fps, LexLeq));
    SortedSet(fps);
    forall i | 0 <= i < |r| ensures |r[i]| == FINGERPRINT_BYTES { assert r[i] in fps; }
    PiecesOfFlattened(r);
    assert KeySetPreimage(fps)[24..] == Flattened(r);
  }

  // ---- records ----

  /** A nonce is the direction's prefix and the sequence in eight bytes. */
  lemma NonceReads(iv: bytes, q: nat)
    requires q < 0x1_0000_0000_0000_0000
    ensures var n := Overenc.Nonce(iv, q); |n| == |iv| + 8 && n[..|iv|] == iv && Value(n[|iv|..]) == q
  {
    Overenc.Pow256Of8();
    ValueOfBigEndian(q, 8);
    assert Overenc.Nonce(iv, q)[|iv|..] == BigEndian(q, 8);
  }

  lemma AadParts(tag: bytes, id: bytes, q: nat)
    requires q < 0x1_0000_0000_0000_0000
    ensures var a, n := Overenc.Aad(tag, id, q), |tag| + |id|;
            |a| == n + 8 && a[..|tag|] == tag && a[|tag|..n] == id && Value(a[n..]) == q
  {
    Overenc.Pow256Of8();
    ValueOfBigEndian(q, 8);
    assert Overenc.Aad(tag, id, q)[|tag| + |id|..] == BigEndian(q, 8);
  }

  /** The additional data is the direction's tag, the session and the sequence in eight bytes; what one end
      sends with is what the other receives with. */
  lemma AadReads(k: Overenc.Keys, id: bytes, q: nat)
    requires |id| == 16 && q < 0x1_0000_0000_0000_0000
    ensures var client, server := Overenc.ClientEnd(k, id), Overenc.ServerEnd(k, id);
            var req, resp := Overenc.Aad(client.sendTag, id, q), Overenc.Aad(server.sendTag, id, q);
            && client.sendTag == server.recvTag && server.sendTag == client.recvTag && |req| == 52 && |resp| == 53
            && req[..28] == Ascii("c8s-verify/v1/tunnel-request") && req[28..44] == id && Value(req[44..]) == q
            && resp[..29] == Ascii("c8s-verify/v1/tunnel-response") && resp[29..45] == id && Value(resp[45..]) == q
  {
    AadParts(Overenc.ClientEnd(k, id).sendTag, id, q);
    AadParts(Overenc.ServerEnd(k, id).sendTag, id, q);
  }
}
