/** The identity of an admission in the cumulative inventory (pkg/workloadclaims/container_key.go):
    a text that is equal for two containers exactly when they are the same admission. */
module ContainerKey {
  import opened Bytes
  import opened Wrappers
  import opened Quoting
  import opened Allowlist
  import opened Matching

  const OPEN: byte := 91
  const CLOSE: byte := 93
  const LEFT: byte := 123
  const RIGHT: byte := 125
  const SPACE: byte := 32
  const NIL: bytes := Ascii("nil")

  type Printable = nat -> bool

  /** The rest of a %q list after its first element. */
  function ListRest(items: seq<bytes>, p: Printable): bytes {
    if items == [] then [CLOSE] else [SPACE] + (Quote(items[0], p) + ListRest(items[1..], p))
  }

  function ListText(items: seq<bytes>, p: Printable): bytes {
    [OPEN] + if items == [] then [CLOSE] else Quote(items[0], p) + ListRest(items[1..], p)
  }

  function EnvText(env: Option<EnvObservation>, p: Printable): bytes {
    match env
    case None => NIL
    case Some(e) => [LEFT] + (Quote(e.format, p) + ([SPACE] + (Quote(e.digest, p) + [RIGHT])))
  }

  function BoolText(b: bool): bytes {
    if b then Ascii("true") else Ascii("false")
  }

  function MountText(m: ObservedMount, p: Printable): bytes {
    [LEFT] + (Quote(m.destination, p) + ([SPACE] + (Quote(m.class_, p) + ([SPACE] + (Quote(m.storage, p) +
    ([SPACE] + (Quote(m.hostSourceDigest, p) + ([SPACE] + (BoolText(m.readOnly) + [RIGHT])))))))))
  }

  function MountsRest(ms: seq<ObservedMount>, p: Printable): bytes {
    if ms == [] then [CLOSE] else MountText(ms[0], p) + MountsRest(ms[1..], p)
  }

  function MountsText(mounts: Option<seq<ObservedMount>>, p: Printable): bytes {
    match mounts
    case None => NIL
    case Some(ms) => [OPEN] + MountsRest(ms, p)
  }

  const DIGEST_IS: bytes := Ascii("digest=")
  const ARGV_IS: bytes := Ascii(" argv=")
  const ENV_IS: bytes := Ascii(" env=")
  const MOUNTS_IS: bytes := Ascii(" mounts=")

  function Key(c: SandboxContainer, p: Printable): bytes {
    DIGEST_IS + (Quote(c.digest, p) + (ARGV_IS + (ListText(Argv(c), p) + (ENV_IS + (EnvText(c.env, p) +
    (MOUNTS_IS + MountsText(c.mounts, p)))))))
  }

  /** The string builder, with its loop over the mounts. */
  method BuildKey(c: SandboxContainer, p: Printable) returns (key: bytes)
    ensures key == Key(c, p)
  {
    key := DIGEST_IS + Quote(c.digest, p) + ARGV_IS + ListText(Argv(c), p) + ENV_IS;
    if c.env.None? {
      key := key + NIL;
    } else {
      key := key + EnvText(c.env, p);
    }
    key := key + MOUNTS_IS;
    ghost var head := key;
    if c.mounts.None? {
      key := key + NIL;
    } else {
      var ms := c.mounts.value;
      key := key + [OPEN];
      for i := 0 to |ms|
        invariant key + MountsRest(ms[i..], p) == head + MountsText(c.mounts, p)
      {
        MountsUnfold(ms, i, p);
        AssociateThree(key, MountText(ms[i], p), MountsRest(ms[i + 1..], p));
        key := key + MountText(ms[i], p);
      }
      assert ms[|ms|..] == [];
      key := key + [CLOSE];
    }
    assert key == head + MountsText(c.mounts, p);
    Associate(Quote(c.digest, p), ListText(Argv(c), p), EnvText(c.env, p), MountsText(c.mounts, p));
  }

  lemma MountsUnfold(ms: seq<ObservedMount>, i: nat, p: Printable)
    requires i < |ms|
    ensures MountsRest(ms[i..], p) == MountText(ms[i], p) + MountsRest(ms[i + 1..], p)
  {
    assert ms[i..][1..] == ms[i + 1..];
  }

  lemma AssociateThree(a: bytes, b: bytes, c: bytes)
    ensures a + (b + c) == a + b + c
  {
  }

  lemma Associate(d: bytes, a: bytes, e: bytes, m: bytes)
    ensures DIGEST_IS + d + ARGV_IS + a + ENV_IS + e + MOUNTS_IS + m ==
            DIGEST_IS + (d + (ARGV_IS + (a + (ENV_IS + (e + (MOUNTS_IS + m))))))
  {
  }

  // ---- reading a key back ----

  lemma {:induction false} ListRestRead(a: seq<bytes>, b: seq<bytes>, x: bytes, y: bytes, p: Printable)
    requires ListRest(a, p) + x == ListRest(b, p) + y
    ensures a == b && x == y
  {
    ListRestFirst(a, x, p);
    ListRestFirst(b, y, p);
    if a == [] {
      SplitEqual([CLOSE], x, [CLOSE], y);
    } else {
      ListRestUnfold(a, x, p);
      ListRestUnfold(b, y, p);
      SplitEqual([SPACE], Quote(a[0], p) + (ListRest(a[1..], p) + x), [SPACE],
        Quote(b[0], p) + (ListRest(b[1..], p) + y));
      QuoteRead(a[0], b[0], ListRest(a[1..], p) + x, ListRest(b[1..], p) + y, p);
      ListRestRead(a[1..], b[1..], x, y, p);
      assert a == [a[0]] + a[1..] && b == [b[0]] + b[1..];
    }
  }

  lemma ListRestFirst(a: seq<bytes>, x: bytes, p: Printable)
    ensures (ListRest(a, p) + x)[0] == if a == [] then CLOSE else SPACE
  {
  }

  lemma ListRestUnfold(a: seq<bytes>, x: bytes, p: Printable)
    requires a != []
    ensures ListRest(a, p) + x == [SPACE] + (Quote(a[0], p) + (ListRest(a[1..], p) + x))
  {
    Regroup(SPACE, Quote(a[0], p), ListRest(a[1..], p), x);
  }

  lemma Regroup(b: byte, q: bytes, r: bytes, x: bytes)
    ensures [b] + (q + r) + x == [b] + (q + (r + x))
  {
  }

  lemma FieldRead(sep: byte, a: bytes, b: bytes, x: bytes, y: bytes, p: Printable)
    requires [sep] + (Quote(a, p) + x) == [sep] + (Quote(b, p) + y)
    ensures a == b && x == y
  {
    SplitEqual([sep], Quote(a, p) + x, [sep], Quote(b, p) + y);
    QuoteRead(a, b, x, y, p);
  }

  lemma ListRead(a: seq<bytes>, b: seq<bytes>, x: bytes, y: bytes, p: Printable)
    requires ListText(a, p) + x == ListText(b, p) + y
    ensures a == b && x == y
  {
    ListFirst(a, x, p);
    ListFirst(b, y, p);
    if a == [] {
      SplitEqual([OPEN] + [CLOSE], x, [OPEN] + [CLOSE], y);
    } else {
      Regroup(OPEN, Quote(a[0], p), ListRest(a[1..], p), x);
      Regroup(OPEN, Quote(b[0], p), ListRest(b[1..], p), y);
      FieldRead(OPEN, a[0], b[0], ListRest(a[1..], p) + x, ListRest(b[1..], p) + y, p);
      ListRestRead(a[1..], b[1..], x, y, p);
      assert a == [a[0]] + a[1..] && b == [b[0]] + b[1..];
    }
  }

  lemma ListFirst(a: seq<bytes>, x: bytes, p: Printable)
    ensures |ListText(a, p)| > 1 && (ListText(a, p) + x)[1] == if a == [] then CLOSE else QUOTE
  {
  }

  lemma PushIn(a: bytes, b: bytes, c: bytes, d: bytes, e: bytes, x: bytes)
    ensures [LEFT] + (a + ([SPACE] + (b + ([SPACE] + (c + ([SPACE] + (d + ([SPACE] + (e + [RIGHT]))))))))) + x ==
            [LEFT] + (a + ([SPACE] + (b + ([SPACE] + (c + ([SPACE] + (d + ([SPACE] + (e + ([RIGHT] + x))))))))))
  {
  }

  lemma BoolRead(a: bool, b: bool, x: bytes, y: bytes)
    requires [SPACE] + (BoolText(a) + ([RIGHT] + x)) == [SPACE] + (BoolText(b) + ([RIGHT] + y))
    ensures a == b && x == y
  {
    SplitEqual([SPACE], BoolText(a) + ([RIGHT] + x), [SPACE], BoolText(b) + ([RIGHT] + y));
    assert (BoolText(a) + ([RIGHT] + x))[0] == BoolText(a)[0] && (BoolText(b) + ([RIGHT] + y))[0] == BoolText(b)[0];
    SplitEqual(BoolText(a), [RIGHT] + x, BoolText(b), [RIGHT] + y);
    SplitEqual([RIGHT], x, [RIGHT], y);
  }

  predicate SameMount(a: ObservedMount, b: ObservedMount) {
    a.(source := []) == b.(source := [])
  }

  lemma MountRead(a: ObservedMount, b: ObservedMount, x: bytes, y: bytes, p: Printable)
    requires MountText(a, p) + x == MountText(b, p) + y
    ensures SameMount(a, b) && x == y
  {
    PushIn(Quote(a.destination, p), Quote(a.class_, p), Quote(a.storage, p), Quote(a.hostSourceDigest, p),
      BoolText(a.readOnly), x);
    PushIn(Quote(b.destination, p), Quote(b.class_, p), Quote(b.storage, p), Quote(b.hostSourceDigest, p),
      BoolText(b.readOnly), y);
    var a5, b5 := [SPACE] + (BoolText(a.readOnly) + ([RIGHT] + x)), [SPACE] + (BoolText(b.readOnly) + ([RIGHT] + y));
    var a4, b4 := [SPACE] + (Quote(a.hostSourceDigest, p) + a5), [SPACE] + (Quote(b.hostSourceDigest, p) + b5);
    var a3, b3 := [SPACE] + (Quote(a.storage, p) + a4), [SPACE] + (Quote(b.storage, p) + b4);
    var a2, b2 := [SPACE] + (Quote(a.class_, p) + a3), [SPACE] + (Quote(b.class_, p) + b3);
    FieldRead(LEFT, a.destination, b.destination, a2, b2, p);
    FieldRead(SPACE, a.class_, b.class_, a3, b3, p);
    FieldRead(SPACE, a.storage, b.storage, a4, b4, p);
    FieldRead(SPACE, a.hostSourceDigest, b.hostSourceDigest, a5, b5, p);
    BoolRead(a.readOnly, b.readOnly, x, y);
  }

  predicate SameMounts(a: seq<ObservedMount>, b: seq<ObservedMount>) {
    |a| == |b| && forall i | 0 <= i < |a| :: SameMount(a[i], b[i])
  }

  lemma {:induction false} MountsRead(a: seq<ObservedMount>, b: seq<ObservedMount>, p: Printable)
    requires MountsRest(a, p) == MountsRest(b, p)
    ensures SameMounts(a, b)
  {
    MountsFirst(a, p);
    MountsFirst(b, p);
    if a != [] {
      MountRead(a[0], b[0], MountsRest(a[1..], p), MountsRest(b[1..], p), p);
      MountsRead(a[1..], b[1..], p);
      forall i | 0 <= i < |a| ensures SameMount(a[i], b[i]) {
        if i > 0 { assert a[i] == a[1..][i - 1] && b[i] == b[1..][i - 1]; }
      }
    }
  }

  lemma MountsFirst(a: seq<ObservedMount>, p: Printable)
    ensures MountsRest(a, p) != [] && MountsRest(a, p)[0] == if a == [] then CLOSE else LEFT
  {
  }

  lemma {:induction false} MountsWritten(a: seq<ObservedMount>, b: seq<ObservedMount>, p: Printable)
    requires SameMounts(a, b)
    ensures MountsRest(a, p) == MountsRest(b, p)
  {
    if a != [] {
      assert SameMount(a[0], b[0]);
      MountsWritten(a[1..], b[1..], p);
    }
  }

  lemma EnvRead(a: Option<EnvObservation>, b: Option<EnvObservation>, x: bytes, y: bytes, p: Printable)
    requires EnvText(a, p) + x == EnvText(b, p) + y
    ensures a == b && x == y
  {
    assert NIL[0] == 110;
    assert (EnvText(a, p) + x)[0] == EnvText(a, p)[0] && (EnvText(b, p) + y)[0] == EnvText(b, p)[0];
    if a.None? {
      SplitEqual(NIL, x, NIL, y);
    } else {
      var e, f := a.value, b.value;
      EnvPushIn(Quote(e.format, p), Quote(e.digest, p), x);
      EnvPushIn(Quote(f.format, p), Quote(f.digest, p), y);
      FieldRead(LEFT, e.format, f.format, [SPACE] + (Quote(e.digest, p) + ([RIGHT] + x)),
        [SPACE] + (Quote(f.digest, p) + ([RIGHT] + y)), p);
      FieldRead(SPACE, e.digest, f.digest, [RIGHT] + x, [RIGHT] + y, p);
      SplitEqual([RIGHT], x, [RIGHT], y);
    }
  }

  lemma EnvPushIn(a: bytes, b: bytes, x: bytes)
    ensures [LEFT] + (a + ([SPACE] + (b + [RIGHT]))) + x == [LEFT] + (a + ([SPACE] + (b + ([RIGHT] + x))))
  {
  }

  predicate SameMountEvidence(a: Option<seq<ObservedMount>>, b: Option<seq<ObservedMount>>) {
    if a.Some? && b.Some? then SameMounts(a.value, b.value) else a == b
  }

  lemma MountsTextRead(a: Option<seq<ObservedMount>>, b: Option<seq<ObservedMount>>, p: Printable)
    ensures MountsText(a, p) == MountsText(b, p) <==> SameMountEvidence(a, b)
  {
    assert NIL[0] == 110;
    if MountsText(a, p) == MountsText(b, p) {
      assert MountsText(a, p)[0] == MountsText(b, p)[0];
      if a.Some? {
        SplitEqual([OPEN], MountsRest(a.value, p), [OPEN], MountsRest(b.value, p));
        MountsRead(a.value, b.value, p);
      }
    }
    if a.Some? && b.Some? && SameMounts(a.value, b.value) { MountsWritten(a.value, b.value, p); }
  }

  /** The same admission: digest, argv with nil as empty, environment and mounts, a mount's
      source aside. */
  predicate SameAdmission(a: SandboxContainer, b: SandboxContainer) {
    a.digest == b.digest && Argv(a) == Argv(b) && a.env == b.env && SameMountEvidence(a.mounts, b.mounts)
  }

  /** Two containers have the same key exactly when they are the same admission. */
  lemma KeyInjective(a: SandboxContainer, b: SandboxContainer, p: Printable)
    ensures Key(a, p) == Key(b, p) <==> SameAdmission(a, b)
  {
    MountsTextRead(a.mounts, b.mounts, p);
    if Key(a, p) == Key(b, p) { KeyRead(a, b, p); }
  }

  lemma KeyRead(a: SandboxContainer, b: SandboxContainer, p: Printable)
    requires Key(a, p) == Key(b, p)
    ensures a.digest == b.digest && Argv(a) == Argv(b) && a.env == b.env
    ensures MountsText(a.mounts, p) == MountsText(b.mounts, p)
  {
    var a4, b4 := MOUNTS_IS + MountsText(a.mounts, p), MOUNTS_IS + MountsText(b.mounts, p);
    var a3, b3 := ENV_IS + (EnvText(a.env, p) + a4), ENV_IS + (EnvText(b.env, p) + b4);
    var a2, b2 := ARGV_IS + (ListText(Argv(a), p) + a3), ARGV_IS + (ListText(Argv(b), p) + b3);
    SplitEqual(DIGEST_IS, Quote(a.digest, p) + a2, DIGEST_IS, Quote(b.digest, p) + b2);
    QuoteRead(a.digest, b.digest, a2, b2, p);
    SplitEqual(ARGV_IS, ListText(Argv(a), p) + a3, ARGV_IS, ListText(Argv(b), p) + b3);
    ListRead(Argv(a), Argv(b), a3, b3, p);
    SplitEqual(ENV_IS, EnvText(a.env, p) + a4, ENV_IS, EnvText(b.env, p) + b4);
    EnvRead(a.env, b.env, a4, b4, p);
    SplitEqual(MOUNTS_IS, MountsText(a.mounts, p), MOUNTS_IS, MountsText(b.mounts, p));
  }
}
