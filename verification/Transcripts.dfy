/** The length-prefixed transcripts (pkg/overenc/identity.go) and the key-set commitment
    (pkg/operatorauth/keyset.go): what the hashes are taken of determines every field. */
module Transcripts {
  import opened Bytes
  import opened Wrappers
  import opened Sorting
  import Overenc

  const MAX_UINT32: nat := 0xFFFF_FFFF

  function LengthPrefixed(field: bytes): Option<bytes> {
    if |field| > MAX_UINT32 then None else Some(BigEndian(|field|, 4) + field)
  }

  /** All fields one after the other; None when one is too long to be prefixed. */
  function Framed(fields: seq<bytes>): Option<bytes> {
    if fields == [] then Some([])
    else
      var first, rest := LengthPrefixed(fields[0]), Framed(fields[1..]);
      if first.None? || rest.None? then None else Some(first.value + rest.value)
  }

  lemma {:induction false} FramedConcat(a: seq<bytes>, b: seq<bytes>)
    ensures Framed(a + b) == if Framed(a).None? || Framed(b).None? then None
            else Some(Framed(a).value + Framed(b).value)
  {
    if a == [] {
      assert a + b == b;
      if Framed(b).Some? { assert [] + Framed(b).value == Framed(b).value; }
    } else {
      assert (a + b)[1..] == a[1..] + b && (a + b)[0] == a[0];
      FramedConcat(a[1..], b);
      if Framed(a).Some? && Framed(b).Some? {
        assert LengthPrefixed(a[0]).value + (Framed(a[1..]).value + Framed(b).value) == Framed(a).value +
               Framed(b).value;
      }
    }
  }

  lemma FramedOne(field: bytes)
    ensures Framed([field]) == LengthPrefixed(field)
  {
    assert [field][1..] == [];
    if LengthPrefixed(field).Some? { assert LengthPrefixed(field).value + [] == LengthPrefixed(field).value; }
  }

  /** The loop that appends to the buffer. */
  method Encode(fields: seq<bytes>) returns (encoded: Option<bytes>)
    ensures encoded == Framed(fields)
  {
    var buf: bytes := [];
    for i := 0 to |fields|
      invariant Framed(fields[..i]) == Some(buf)
    {
      assert fields[..i + 1] == fields[..i] + [fields[i]];
      FramedConcat(fields[..i], [fields[i]]);
      FramedOne(fields[i]);
      assert fields == fields[..i + 1] + fields[i + 1..];
      FramedConcat(fields[..i + 1], fields[i + 1..]);
      var next := LengthPrefixed(fields[i]);
      if next.None? {
        return None;
      }
      buf := buf + next.value;
    }
    assert fields[..|fields|] == fields;
    return Some(buf);
  }

  lemma Pow256Of4()
    ensures Pow256(4) == 0x1_0000_0000
  {
    assert Pow256(0) == 1 && Pow256(1) == 0x100 && Pow256(2) == 0x1_0000 && Pow256(3) == 0x100_0000;
  }

  lemma Regroup(m: bytes, a: bytes, x: bytes, n: bytes, b: bytes, y: bytes)
    requires m + a + x == n + b + y && |m| == |n|
    ensures m == n && a + x == b + y
  {
    assert m + a + x == m + (a + x) && n + b + y == n + (b + y);
    SplitEqual(m, a + x, n, b + y);
  }

  lemma PrefixedRead(a: bytes, b: bytes, x: bytes, y: bytes)
    requires |a| <= MAX_UINT32 && |b| <= MAX_UINT32
    requires BigEndian(|a|, 4) + a + x == BigEndian(|b|, 4) + b + y
    ensures a == b && x == y
  {
    Regroup(BigEndian(|a|, 4), a, x, BigEndian(|b|, 4), b, y);
    Pow256Of4();
    BigEndianInjective(|a|, |b|, 4);
    SplitEqual(a, x, b, y);
  }

  /** Equal framings have equal fields, however many there are. */
  lemma {:induction false} FramedInjective(a: seq<bytes>, b: seq<bytes>)
    requires Framed(a).Some? && Framed(a) == Framed(b)
    ensures a == b
  {
    if a != [] && b != [] {
      PrefixedRead(a[0], b[0], Framed(a[1..]).value, Framed(b[1..]).value);
      FramedInjective(a[1..], b[1..]);
      assert a == [a[0]] + a[1..] && b == [b[0]] + b[1..];
    }
  }

  // ---- the two transcripts ----

  const IDENTITY_DOMAIN: bytes := Ascii("c8s-verify/v1")
  const LB_DOMAIN: bytes := Ascii("c8s/attest-lb/v1")
  const XWING_EK_BYTES: nat := 1216
  const XWING_CT_BYTES: nat := 1120
  const NONCE_BYTES: nat := 32

  /** SHA-256. */
  type Digest = bytes -> bytes

  datatype Identity = Identity(mode: bytes, ek: bytes, ct: bytes, sessionID: bytes, nonce: bytes, leaf: bytes,
    ca: bytes)

  datatype LB = LB(mode: bytes, nonce: bytes, servingLeaf: bytes, meshLeaf: bytes, ca: bytes)

  predicate IdentityAccepted(t: Identity) {
    t.mode != [] && |t.ek| == XWING_EK_BYTES && |t.ct| == XWING_CT_BYTES && |t.sessionID| == Overenc.SESSION_ID_BYTES &&
    |t.nonce| == NONCE_BYTES && t.leaf != [] && t.ca != []
  }

  predicate LBAccepted(t: LB) {
    t.mode != [] && |t.nonce| == NONCE_BYTES && t.servingLeaf != [] && t.meshLeaf != [] && t.ca != []
  }

  function IdentityFields(t: Identity, d: Digest): seq<bytes> {
    [IDENTITY_DOMAIN, t.mode, d(t.ca), d(t.leaf), t.ek, t.ct, t.sessionID, t.nonce]
  }

  function LBFields(t: LB, d: Digest): seq<bytes> {
    [LB_DOMAIN, t.mode, t.nonce, d(t.servingLeaf), d(t.meshLeaf), d(t.ca)]
  }

  /** What the SHA-384 of the identity transcript is taken of. */
  function IdentityPreimage(t: Identity, d: Digest): Option<bytes> {
    if IdentityAccepted(t) then Framed(IdentityFields(t, d)) else None
  }

  function LBPreimage(t: LB, d: Digest): Option<bytes> {
    if LBAccepted(t) then Framed(LBFields(t, d)) else None
  }

  /** No two certificates share a digest. */
  ghost predicate CollisionFree(d: Digest) {
    forall x, y | d(x) == d(y) :: x == y
  }

  lemma IdentityInjective(t: Identity, u: Identity, d: Digest)
    requires CollisionFree(d) && IdentityPreimage(t, d).Some? && IdentityPreimage(t, d) == IdentityPreimage(u, d)
    ensures t == u
  {
    var a, b := IdentityFields(t, d), IdentityFields(u, d);
    FramedInjective(a, b);
    assert a[1] == b[1] && a[2] == b[2] && a[3] == b[3] && a[4] == b[4] && a[5] == b[5] && a[6] == b[6] && a[7] == b[7];
  }

  lemma LBInjective(t: LB, u: LB, d: Digest)
    requires CollisionFree(d) && LBPreimage(t, d).Some? && LBPreimage(t, d) == LBPreimage(u, d)
    ensures t == u
  {
    var a, b := LBFields(t, d), LBFields(u, d);
    FramedInjective(a, b);
    assert a[1] == b[1] && a[2] == b[2] && a[3] == b[3] && a[4] == b[4] && a[5] == b[5];
  }

  /** The two endpoints never commit to the same bytes, whatever the digest. */
  lemma EndpointsNeverCoincide(t: Identity, u: LB, d: Digest)
    requires IdentityPreimage(t, d).Some?
    ensures IdentityPreimage(t, d) != LBPreimage(u, d)
  {
    var a, b := IdentityFields(t, d), LBFields(u, d);
    assert |a| != |b|;
    if Framed(a) == Framed(b) { FramedInjective(a, b); }
  }

  // ---- operator key sets ----

  const KEY_SET_DOMAIN: bytes := Ascii("c8s-operator-key-set-v1") + [0]
  const FINGERPRINT_BYTES: nat := 32

  function Flattened(fps: seq<bytes>): bytes {
    if fps == [] then [] else Flattened(fps[..|fps| - 1]) + fps[|fps| - 1]
  }

  /** What the key-set digest is taken of. */
  function KeySetPreimage(fps: seq<bytes>): bytes {
    KEY_SET_DOMAIN + Flattened(Compact(Sort(fps, LexLeq)))
  }

  lemma CompactStep(s: seq<bytes>, i: nat)
    requires i < |s|
    ensures Compact(s[..i + 1]) ==
            if i > 0 && s[i] == s[i - 1] then Compact(s[..i]) else Compact(s[..i]) + [s[i]]
  {
    assert s[..i + 1][..i] == s[..i];
  }

  lemma FlattenedAppend(fps: seq<bytes>, fp: bytes)
    ensures Flattened(fps + [fp]) == Flattened(fps) + fp
  {
    assert (fps + [fp])[..|fps|] == fps;
  }

  /** The loop that writes each fingerprint unless it repeats the previous one. */
  method WriteSorted(sorted: seq<bytes>) returns (written: bytes)
    requires AllFingerprints(sorted)
    ensures written == KEY_SET_DOMAIN + Flattened(Compact(sorted))
  {
    written := KEY_SET_DOMAIN;
    var prev: bytes := [];
    for i := 0 to |sorted|
      invariant written == KEY_SET_DOMAIN + Flattened(Compact(sorted[..i]))
      invariant prev == if i == 0 then [] else sorted[i - 1]
    {
      CompactStep(sorted, i);
      if sorted[i] == prev {
        continue;
      }
      FlattenedAppend(Compact(sorted[..i]), sorted[i]);
      Associate(KEY_SET_DOMAIN, Flattened(Compact(sorted[..i])), sorted[i]);
      written := written + sorted[i];
      prev := sorted[i];
    }
    assert sorted[..|sorted|] == sorted;
  }

  lemma Associate(a: bytes, b: bytes, c: bytes)
    ensures a + b + c == a + (b + c)
  {
  }

  /** The bytes KeySetDigest hashes for these fingerprints. */
  method WriteKeySet(fps: seq<bytes>) returns (written: bytes)
    requires AllFingerprints(fps)
    ensures written == KeySetPreimage(fps)
  {
    var sorted := Sort(fps, LexLeq);
    SortPermutes(fps, LexLeq);
    SameElements(fps, sorted);
    forall i | 0 <= i < |sorted| ensures |sorted[i]| == FINGERPRINT_BYTES { assert sorted[i] in fps; }
    written := WriteSorted(sorted);
  }

  ghost predicate AllFingerprints(fps: seq<bytes>) {
    forall i | 0 <= i < |fps| :: |fps[i]| == FINGERPRINT_BYTES
  }

  lemma {:induction false} FlattenedInjective(a: seq<bytes>, b: seq<bytes>)
    requires AllFingerprints(a) && AllFingerprints(b) && Flattened(a) == Flattened(b)
    ensures a == b
  {
    if a != [] && b != [] {
      var x, y := a[|a| - 1], b[|b| - 1];
      var u, v := Flattened(a[..|a| - 1]), Flattened(b[..|b| - 1]);
      assert |u| == |v|;
      SplitEqual(u, x, v, y);
      FlattenedInjective(a[..|a| - 1], b[..|b| - 1]);
      assert a == a[..|a| - 1] + [x] && b == b[..|b| - 1] + [y];
    }
  }

  lemma SortedSet(fps: seq<bytes>)
    ensures var r := Compact(Sort(fps, LexLeq)); Sorted(r, LexLeq) && Distinct(r) && forall x :: x in r <==> x in fps
  {
    LexPreorder();
    SortSorted(fps, LexLeq);
    SortPermutes(fps, LexLeq);
    SameElements(fps, Sort(fps, LexLeq));
    CompactSorted(Sort(fps, LexLeq));
  }

  lemma SameSetSameList(r: seq<bytes>, s: seq<bytes>)
    requires Sorted(r, LexLeq) && Sorted(s, LexLeq) && Distinct(r) && Distinct(s) && forall x :: x in r <==> x in s
    ensures r == s
  {
    DistinctSameMultiset(r, s);
    LexNoTies(r);
    SortedUnique(r, s, LexLeq);
  }

  lemma SameBytesSameList(r: seq<bytes>, s: seq<bytes>)
    requires AllFingerprints(r) && AllFingerprints(s) && KEY_SET_DOMAIN + Flattened(r) == KEY_SET_DOMAIN + Flattened(s)
    ensures r == s
  {
    SplitEqual(KEY_SET_DOMAIN, Flattened(r), KEY_SET_DOMAIN, Flattened(s));
    FlattenedInjective(r, s);
  }

  /** Two key sets are written the same exactly when they are the same set of fingerprints. */
  lemma KeySetPreimageIsTheSet(a: seq<bytes>, b: seq<bytes>)
    requires AllFingerprints(a) && AllFingerprints(b)
    ensures KeySetPreimage(a) == KeySetPreimage(b) <==> forall x :: x in a <==> x in b
  {
    var r, s := Compact(Sort(a, LexLeq)), Compact(Sort(b, LexLeq));
    SortedSet(a);
    SortedSet(b);
    if forall x :: x in a <==> x in b { SameSetSameList(r, s); }
    if KeySetPreimage(a) == KeySetPreimage(b) {
      forall i | 0 <= i < |r| ensures |r[i]| == FINGERPRINT_BYTES { assert r[i] in a; }
      forall i | 0 <= i < |s| ensures |s[i]| == FINGERPRINT_BYTES { assert s[i] in b; }
      SameBytesSameList(r, s);
    }
  }
}
