/** What a container policy admits, said of the launch itself (pkg/allowlist/match.go:123-207,
    pkg/allowlist/env.go:60-102, pkg/allowlist/mount_rule.go). */
module Admission {
  import opened Bytes
  import opened Wrappers
  import opened Quoting
  import opened Allowlist
  import opened HostIndependence
  import opened PolicyJson
  import opened Matching
  import NormalForm

  // ---- digests ----

  /** The hexadecimal digit of this value, in lower or upper case. */
  function LowerHex(v: nat): byte
    requires v < 16
  {
    if v < 10 then 48 + v else 97 + (v - 10)
  }

  predicate Spells(b: byte, v: nat)
    requires v < 16
  {
    b == LowerHex(v) || (v >= 10 && b == 65 + (v - 10))
  }

  predicate IsHex(b: byte) {
    exists v: nat | v < 16 :: Spells(b, v)
  }

  lemma HexDigits(b: byte)
    ensures IsHexDigit(b) <==> IsHex(b)
    ensures forall v: nat | v < 16 && Spells(b, v) :: ToLower(b) == LowerHex(v)
  {
    if 48 <= b <= 57 {
      assert Spells(b, b - 48);
    } else if 97 <= b <= 102 {
      assert Spells(b, b - 87);
    } else if 65 <= b <= 70 {
      assert Spells(b, b - 55);
    }
  }

  /** A digest is `sha256:` and 64 hexadecimal digits, and it is read as those digits in lower case. */
  lemma DigestIs(s: bytes)
    ensures ParseDigest(s).Some? <==>
            |s| == 71 && s[..7] == Ascii("sha256:") && forall i | 7 <= i < 71 :: IsHex(s[i])
    ensures ParseDigest(s).Some? ==>
            var d := ParseDigest(s).value;
            && |d| == 71 && d[..7] == s[..7]
            && forall i, v: nat | 7 <= i < 71 && v < 16 && Spells(s[i], v) :: d[i] == LowerHex(v)
  {
    forall b: byte { HexDigits(b); }
  }

  // ---- what is dropped from a report ----

  /** The entry's container has this digest and lets any command line run. */
  ghost predicate Unconstrained(w: Workload, digest: bytes) {
    exists c | c in w.initContainers || c in w.containers ::
      c.digest == digest && c.command.policy == Any && c.args.policy == Any
  }

  lemma UnconstrainedIff(w: Workload, digest: bytes)
    ensures Unconstrained(w, digest) <==>
            exists i | 0 <= i < |AllContainers(w)| ::
              AllContainers(w)[i].digest == digest && AnyArgv(AllContainers(w)[i])
  {
    var cs := AllContainers(w);
    assert forall c :: c in cs <==> c in w.initContainers || c in w.containers;
    if Unconstrained(w, digest) {
      var c :| c in cs && c.digest == digest && AnyArgv(c);
      var i :| 0 <= i < |cs| && cs[i] == c;
    }
  }

  /** A reported container is taken for an injected one exactly when it runs one of the four entrypoints
      of c8s and some entry lets its image run with any command line. */
  lemma DroppedIff(ws: Workloads, c: SandboxContainer)
    ensures IsInjected(ws, c) <==>
            && c.argv.Some? && c.argv.value != []
            && (|| c.argv.value[0] == Ascii("get-cert") || c.argv.value[0] == Ascii("get-secret")
                || c.argv.value[0] == Ascii("get-volume") || c.argv.value[0] == Ascii("/c8s"))
            && ParseDigest(c.digest).Some? && exists n | n in ws :: Unconstrained(ws[n], ParseDigest(c.digest).value)
  {
    if ParseDigest(c.digest).Some? {
      forall n | n in ws { UnconstrainedIff(ws[n], ParseDigest(c.digest).value); }
    }
  }

  // ---- argv ----

  /** An entry with a grant can be released only if every container pins its argv: neither part of it is
      left open. */
  lemma PinnedIff(w: Workload)
    ensures ArgvPinned(w) <==>
            forall c | c in w.initContainers || c in w.containers ::
              c.command.policy in {Absent, Deny, Exact} && c.args.policy in {Absent, Deny, Exact}
  {
    NormalForm.PinnedByMembers(w);
  }

  /** And then at most one argv is admitted. */
  lemma PinnedAdmitsOne(w: Workload, c: Container, argv: seq<bytes>, argv': seq<bytes>)
    requires ArgvPinned(w) && (c in w.initContainers || c in w.containers)
    requires ProcessAdmits(c, argv) && ProcessAdmits(c, argv')
    ensures argv == argv'
  {
    PinnedIff(w);
    ArgvAdmittedIff(c, argv);
    ArgvAdmittedIff(c, argv');
  }

  /** What is left of an argv for args to judge. */
  predicate ArgsAdmit(p: ArgvPolicy, rest: seq<bytes>) {
    || p.policy == Any || (p.policy == Deny && rest == []) || (p.policy == Exact && rest == p.argv)
  }

  /** An exact command is the beginning of the argv and args judge what follows it; otherwise args
      judge all of it, which under a denied command is empty. */
  lemma ArgvAdmittedIff(c: Container, argv: seq<bytes>)
    ensures ProcessAdmits(c, argv) <==>
            || (c.command.policy == Exact && exists rest :: argv == c.command.argv + rest && ArgsAdmit(c.args, rest))
            || (c.command.policy == Any && ArgsAdmit(c.args, argv))
            || (c.command.policy == Deny && argv == [] && ArgsAdmit(c.args, []))
  {
    var front := c.command.argv;
    if c.command.policy == Exact {
      if ProcessAdmits(c, argv) { assert argv == front + argv[|front|..] && ArgsAdmit(c.args, argv[|front|..]); }
      if rest :| argv == front + rest && ArgsAdmit(c.args, rest) { assert argv[|front|..] == rest; }
    }
  }

  /** Every argv is admitted exactly by a container that leaves both parts open, an exact command being
      of at least one word. */
  lemma OpenIff(c: Container)
    requires c.command.policy == Exact ==> c.command.argv != []
    ensures AnyArgv(c) <==> forall argv :: ProcessAdmits(c, argv)
  {
    if !AnyArgv(c) {
      var argv := if c.command.policy == Exact then [] else if c.command.policy == Any then c.args.argv + [[]]
        else [[]];
      ArgvAdmittedIff(c, argv);
      assert !ProcessAdmits(c, argv);
    }
  }

  /** Both parts of the argv are pinned, there is no host mount and no open mount policy, and the
      environment is denied or given exactly. */
  ghost predicate Settled(c: Container) {
    && c.command.policy in {Absent, Deny, Exact} && c.args.policy in {Absent, Deny, Exact}
    && c.mounts.policy in {Absent, Deny, Exact} && c.env.policy in {Deny, Exact}
    && forall r | r in c.mounts.rules :: r.kind == Ascii("emptyDir") || r.kind == Ascii("data")
  }

  lemma SettledIff(c: Container)
    ensures ContainerHostIndependent(c) <==> Settled(c)
  {
    var rules := c.mounts.rules;
    assert forall i | 0 <= i < |rules| :: rules[i] in rules;
  }

  /** An entry is independent of the host exactly when every container, init or main, is settled. */
  lemma HostIndependentIff(w: Workload)
    ensures HostIndependent(w) <==> forall c | c in w.initContainers || c in w.containers :: Settled(c)
  {
    var cs := AllContainers(w);
    assert forall c :: c in cs <==> c in w.initContainers || c in w.containers;
    forall i | 0 <= i < |cs| ensures cs[i] in cs && (ContainerHostIndependent(cs[i]) <==> Settled(cs[i])) {
      SettledIff(cs[i]);
    }
  }

  // ---- environment ----

  /** The digest is 64 lower-case hexadecimal digits. */
  predicate WellFormed(digest: bytes) {
    |digest| == 64 && forall i | 0 <= i < 64 :: 48 <= digest[i] <= 57 || 97 <= digest[i] <= 102
  }

  /** What an enforcer reports of a launch in environment u. */
  function ObservationOf(h: Hashing, u: map<bytes, bytes>): Option<EnvObservation> {
    Some(EnvObservation(Ascii("c8s.env/v1"), h.env(u)))
  }

  /** Deny and exact need a well-formed observation, of the empty environment or of the one given; an open
      policy needs none. */
  lemma EnvAdmittedIff(h: Hashing, p: EnvPolicy, o: Option<EnvObservation>)
    ensures EnvAdmits(h, p, o) <==>
            || p.policy == Any || p.policy == Absent
            || (&& o.Some? && o.value.format == Ascii("c8s.env/v1") && WellFormed(o.value.digest)
                && (|| (p.policy == Deny && o.value.digest == h.env(map[]))
                    || (p.policy == Exact && p.values.Some? && o.value.digest == h.env(p.values.value))))
  {
    assert o.Some? && |o.value.digest| == 64 ==>
        forall i | 0 <= i < 64 :: IsLowerHex(o.value.digest[i]) <==>
          48 <= o.value.digest[i] <= 57 || 97 <= o.value.digest[i] <= 102;
  }

  // ---- what the digest is taken of ----

  const FORMAT_MARK: bytes := Ascii("c8s.env/v1") + [0]

  /** The JSON object of the values, sorted by name. */
  ghost function ObjectText(u: map<bytes, bytes>): bytes {
    [123] + Items(Pairs(u), PairText, RIGHT)
  }

  ghost function EnvPreimage(u: map<bytes, bytes>): bytes {
    FORMAT_MARK + ObjectText(u)
  }

  ghost predicate ValidValues(u: map<bytes, bytes>) {
    forall k | k in u :: GoodPair((k, u[k]))
  }

  lemma FirstOfItems(ps: seq<(bytes, bytes)>)
    ensures var t := Items(ps, PairText, RIGHT); t != [] && (t[0] == RIGHT <==> ps == [])
  {
    if ps != [] { assert PairText(ps[0])[0] == QUOTE; }
  }

  lemma NoPairs(u: map<bytes, bytes>)
    ensures Pairs(u) == [] <==> u == map[]
  {
    if u != map[] { PairsOfSome(u); }
    if Pairs(u) != [] { assert Pairs(u)[0].0 in u; }
  }

  /** Environments with valid strings have different preimages. */
  lemma PreimageTells(u: map<bytes, bytes>, v: map<bytes, bytes>)
    requires ValidValues(u) && ValidValues(v) && EnvPreimage(u) == EnvPreimage(v)
    ensures u == v
  {
    var s, t := Items(Pairs(u), PairText, RIGHT), Items(Pairs(v), PairText, RIGHT);
    Cut(FORMAT_MARK, ObjectText(u), ObjectText(v));
    Cut([123], s, t);
    FirstOfItems(Pairs(u));
    FirstOfItems(Pairs(v));
    NoPairs(u);
    NoPairs(v);
    if u != map[] {
      GoodPairs(u);
      GoodPairs(v);
      PairsReadable();
      assert s + [] == s && t + [] == t;
      ItemsRead(Pairs(u), Pairs(v), PairText, GoodPair, RIGHT, [], []);
      PairsTell(u, v);
    }
  }

  /** The enforcer's digest is a hash of the preimage that tells these two apart. */
  ghost predicate Tells(h: Hashing, sha: bytes -> bytes, u: map<bytes, bytes>, v: map<bytes, bytes>) {
    && h.env(u) == sha(EnvPreimage(u)) && h.env(v) == sha(EnvPreimage(v))
    && (sha(EnvPreimage(u)) == sha(EnvPreimage(v)) ==> EnvPreimage(u) == EnvPreimage(v))
  }

  /** An exact policy admits its own environment and no other, and deny the empty one only. */
  lemma ExactEnvIsTheEnv(h: Hashing, sha: bytes -> bytes, u: map<bytes, bytes>, v: map<bytes, bytes>)
    requires WellFormed(h.env(u)) && ValidValues(u) && ValidValues(v) && Tells(h, sha, u, v)
    ensures EnvAdmits(h, EnvPolicy(Exact, Some(v)), ObservationOf(h, u)) <==> u == v
    ensures v == map[] ==> (EnvAdmits(h, EnvPolicy(Deny, None), ObservationOf(h, u)) <==> u == map[])
  {
    EnvAdmittedIff(h, EnvPolicy(Exact, Some(v)), ObservationOf(h, u));
    EnvAdmittedIff(h, EnvPolicy(Deny, None), ObservationOf(h, u));
    if h.env(u) == h.env(v) { PreimageTells(u, v); }
  }

  // ---- mounts ----

  /** Storage in memory or encrypted, or a host path that some rule names by its digest and with its
      read-only flag. */
  predicate Contained(h: Hashing, rules: seq<MountRule>, m: ObservedMount) {
    || ((m.class_ == Ascii("emptyDir") || m.class_ == Ascii("data")) &&
        (m.storage == Ascii("memory") || m.storage == Ascii("encrypted")))
    || (m.class_ == Ascii("host") &&
        exists j | 0 <= j < |rules| ::
          m.hostSourceDigest == h.source(rules[j].source) && m.readOnly == rules[j].readOnly)
  }

  /** Every mount of an admitted launch is the platform's or contained, unless any is admitted; under
      deny, or no policy, all are the platform's. */
  lemma AdmittedMountsAreContained(h: Hashing, p: MountPolicy, ms: seq<ObservedMount>, m: ObservedMount)
    requires MountsAdmit(h, p, Some(ms)) && p.policy != Any && m in ms
    ensures m.class_ == Ascii("platform") || (p.policy == Exact && Contained(h, p.rules, m))
  {
    if p.policy == Exact {
      if m.class_ != PLATFORM {
        CoveringIsBijection(h, p.rules, Foreign(ms));
        ForeignHas(ms, m);
        var i :| 0 <= i < |Foreign(ms)| && Foreign(ms)[i] == m;
        assert Ruled(h, p.rules, Foreign(ms)[i]);
      }
    } else {
      NoForeign(ms);
    }
  }

  lemma {:induction false} ForeignHas(ms: seq<ObservedMount>, m: ObservedMount)
    requires m in ms && m.class_ != PLATFORM
    ensures m in Foreign(ms)
  {
    var init, last := ms[..|ms| - 1], ms[|ms| - 1];
    if m != last {
      assert ms == init + [last];
      ForeignHas(init, m);
    }
  }

  /** Under deny, or no policy, a launch is admitted exactly when all its mounts are the platform's. */
  lemma DenyAdmitsPlatformOnly(h: Hashing, p: MountPolicy, ms: seq<ObservedMount>)
    requires p.policy == Deny || p.policy == Absent
    ensures MountsAdmit(h, p, Some(ms)) <==> forall i | 0 <= i < |ms| :: ms[i].class_ == Ascii("platform")
    ensures !MountsAdmit(h, p, None)
  {
    NoForeign(ms);
  }
}
