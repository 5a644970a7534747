/** The allowlist document and what its entries admit (pkg/allowlist: allowlist.go,
    constraints.go, policy.go, mount_rule.go, env.go, match.go).  Go strings are byte strings. */
module Allowlist {
  import opened Bytes
  import opened Grants
  import opened Paths
  import opened Wrappers

  /** A policy word; `Absent` is the empty one. */
  datatype Policy = Absent | Deny | Any | Exact | Allow | Unknown(word: bytes)

  const PLATFORM: bytes := Ascii("platform")
  const EMPTY_DIR: bytes := Ascii("emptyDir")
  const DATA: bytes := Ascii("data")
  const HOST: bytes := Ascii("host")
  const MEMORY: bytes := Ascii("memory")
  const ENCRYPTED: bytes := Ascii("encrypted")
  const DATA_MOUNT_PREFIX: bytes := Ascii("/mnt/c8s-data/")
  const ENV_FORMAT: bytes := Ascii("c8s.env/v1")

  datatype ArgvPolicy = ArgvPolicy(policy: Policy, argv: seq<bytes>)
  datatype MountRule = MountRule(destination: bytes, kind: bytes, source: bytes, readOnly: bool)
  datatype MountPolicy = MountPolicy(policy: Policy, rules: seq<MountRule>)
  datatype EnvPolicy = EnvPolicy(policy: Policy, values: Option<map<bytes, bytes>>)
  datatype SecretsPolicy = SecretsPolicy(policy: Policy, read: seq<bytes>, write: seq<bytes>)

  datatype Container = Container(
    digest: bytes, image: bytes, command: ArgvPolicy, args: ArgvPolicy, mounts: MountPolicy, env: EnvPolicy)

  datatype Workload = Workload(
    imageLabel: bytes, initContainers: seq<Container>, containers: seq<Container>, secrets: Option<SecretsPolicy>)

  type Workloads = map<bytes, Workload>

  // ---- what an enforcer observed ----

  datatype ObservedMount = ObservedMount(
    destination: bytes, source: bytes, class_: bytes, storage: bytes, hostSourceDigest: bytes, readOnly: bool)

  datatype EnvObservation = EnvObservation(format: bytes, digest: bytes)

  /** `None` for mounts or environment is unavailable evidence, not an empty list. */
  datatype Running = Running(
    digest: bytes, argv: seq<bytes>, mounts: Option<seq<ObservedMount>>, env: Option<EnvObservation>)

  /** The digests taken of an environment and of a host path, in hexadecimal. */
  datatype Hashing = Hashing(env: map<bytes, bytes> -> bytes, source: bytes -> bytes)

  // ---- digests ----

  const SHA256_PREFIX: bytes := Ascii("sha256:")

  predicate IsHexDigit(b: byte) {
    48 <= b <= 57 || 97 <= b <= 102 || 65 <= b <= 70
  }

  function ToLower(b: byte): byte {
    if 65 <= b <= 90 then b + 32 else b
  }

  function ParseDigest(s: bytes): Option<bytes> {
    if SHA256_PREFIX <= s && |s| == |SHA256_PREFIX| + 64 && (forall i | |SHA256_PREFIX| <= i < |s| :: IsHexDigit(s[i]))
    then Some(seq(|s|, i requires 0 <= i < |s| => if i < |SHA256_PREFIX| then s[i] else ToLower(s[i])))
    else None
  }

  // ---- argv ----

  /** What is left of argv after the command, if the command admits its front. */
  function MatchCommand(p: ArgvPolicy, argv: seq<bytes>): Option<seq<bytes>> {
    match p.policy
    case Any => Some(argv)
    case Deny => if argv == [] then Some(argv) else None
    case Exact => if p.argv <= argv then Some(argv[|p.argv|..]) else None
    case _ => None
  }

  predicate MatchArgs(p: ArgvPolicy, rest: seq<bytes>) {
    match p.policy
    case Any => true
    case Deny => rest == []
    case Exact => rest == p.argv
    case _ => false
  }

  predicate ProcessAdmits(c: Container, argv: seq<bytes>) {
    var rest := MatchCommand(c.command, argv);
    rest.Some? && MatchArgs(c.args, rest.value)
  }

  predicate ArgvHostIndependent(p: Policy) {
    p in {Absent, Deny, Exact}
  }

  predicate AnyArgv(c: Container) {
    c.command.policy == Any && c.args.policy == Any
  }

  // ---- mounts ----

  function HostSourceDigest(h: Hashing, source: bytes): Option<bytes> {
    if IsClean(source) && 0 !in source then Some(h.source(source)) else None
  }

  predicate RuleAdmits(h: Hashing, r: MountRule, m: ObservedMount) {
    if r.kind == EMPTY_DIR || r.kind == DATA then m.storage == MEMORY || m.storage == ENCRYPTED
    else r.kind == HOST && HostSourceDigest(h, r.source) == Some(m.hostSourceDigest) && m.readOnly == r.readOnly
  }

  predicate RuleHostIndependent(r: MountRule) {
    r.kind == EMPTY_DIR || r.kind == DATA
  }

  predicate Names(r: MountRule, m: ObservedMount) {
    r.destination == m.destination && r.kind == m.class_
  }

  /** The first rule that names the mount decides. */
  function FirstRule(rules: seq<MountRule>, m: ObservedMount): (i: nat)
    ensures i <= |rules| && (i < |rules| ==> Names(rules[i], m))
    ensures forall j | 0 <= j < i :: !Names(rules[j], m)
  {
    if rules == [] || Names(rules[0], m) then 0 else
      var i := FirstRule(rules[1..], m);
      assert forall j | 1 <= j <= i :: rules[j] == rules[1..][j - 1];
      1 + i
  }

  predicate AdmitsMount(h: Hashing, rules: seq<MountRule>, m: ObservedMount) {
    var i := FirstRule(rules, m);
    i < |rules| && RuleAdmits(h, rules[i], m)
  }

  /** The mounts the policy is about. */
  function Foreign(mounts: seq<ObservedMount>): seq<ObservedMount> {
    if mounts == [] then []
    else
      var rest := Foreign(mounts[..|mounts| - 1]);
      var m := mounts[|mounts| - 1];
      if m.class_ == PLATFORM then rest else rest + [m]
  }

  ghost function Destinations(mounts: seq<ObservedMount>): set<bytes> {
    set i | 0 <= i < |mounts| :: mounts[i].destination
  }

  ghost predicate DistinctDestinations(mounts: seq<ObservedMount>) {
    forall i, j | 0 <= i < j < |mounts| :: mounts[i].destination != mounts[j].destination
  }

  ghost predicate Covered(h: Hashing, rules: seq<MountRule>, foreign: seq<ObservedMount>) {
    DistinctDestinations(foreign) && forall i | 0 <= i < |foreign| :: AdmitsMount(h, rules, foreign[i])
  }

  ghost predicate ExactAdmits(h: Hashing, rules: seq<MountRule>, mounts: seq<ObservedMount>) {
    Covered(h, rules, Foreign(mounts)) && |Foreign(mounts)| == |rules|
  }

  ghost predicate MountsAdmit(h: Hashing, p: MountPolicy, mounts: Option<seq<ObservedMount>>) {
    match p.policy
    case Any => true
    case Deny => mounts.Some? && Foreign(mounts.value) == []
    case Absent => mounts.Some? && Foreign(mounts.value) == []
    case Exact => mounts.Some? && ExactAdmits(h, p.rules, mounts.value)
    case _ => false
  }

  lemma {:induction false} NoForeign(mounts: seq<ObservedMount>)
    ensures Foreign(mounts) == [] <==> forall i | 0 <= i < |mounts| :: mounts[i].class_ == PLATFORM
  {
    if mounts != [] {
      NoForeign(mounts[..|mounts| - 1]);
      assert forall i | 0 <= i < |mounts| - 1 :: mounts[..|mounts| - 1][i] == mounts[i];
    }
  }

  /** The loop that fills `seen`. */
  method ExactMountsAdmitted(h: Hashing, rules: seq<MountRule>, mounts: seq<ObservedMount>) returns (ok: bool)
    ensures ok <==> ExactAdmits(h, rules, mounts)
  {
    var seen: set<bytes> := {};
    var n := 0;
    while n < |mounts|
      invariant n <= |mounts|
      invariant seen == Destinations(Foreign(mounts[..n])) && Covered(h, rules, Foreign(mounts[..n]))
    {
      ghost var foreign := Foreign(mounts[..n]);
      assert mounts[..n + 1][..n] == mounts[..n];
      var mount := mounts[n];
      if mount.class_ != PLATFORM {
        assert Foreign(mounts[..n + 1]) == foreign + [mount];
        CoveredAppend(h, rules, foreign, mount);
        DestinationsAppend(foreign, mount);
        if mount.destination in seen || !AdmitsMount(h, rules, mount) {
          ForeignPrefix(mounts, n + 1);
          CoveredPrefix(h, rules, foreign + [mount], Foreign(mounts));
          return false;
        }
        seen := seen + {mount.destination};
      }
      n := n + 1;
    }
    assert mounts[..n] == mounts;
    DestinationsCount(Foreign(mounts));
    return |seen| == |rules|;
  }

  /** MountPolicy.admits. */
  method MountPolicyAdmits(h: Hashing, p: MountPolicy, mounts: Option<seq<ObservedMount>>) returns (ok: bool)
    ensures ok <==> MountsAdmit(h, p, mounts)
  {
    if p.policy == Any {
      return true;
    }
    if mounts.None? {
      return false;
    }
    var ms := mounts.value;
    if p.policy == Deny || p.policy == Absent {
      NoForeign(ms);
      return !exists i | 0 <= i < |ms| :: ms[i].class_ != PLATFORM;
    }
    if p.policy != Exact {
      return false;
    }
    ok := ExactMountsAdmitted(h, p.rules, ms);
  }

  lemma CoveredAppend(h: Hashing, rules: seq<MountRule>, foreign: seq<ObservedMount>, m: ObservedMount)
    ensures Covered(h, rules, foreign + [m]) <==>
            Covered(h, rules, foreign) && m.destination !in Destinations(foreign) && AdmitsMount(h, rules, m)
  {
    var all := foreign + [m];
    assert all[|foreign|] == m;
    assert forall i | 0 <= i < |foreign| :: all[i] == foreign[i];
    if Covered(h, rules, all) {
      assert forall i | 0 <= i < |foreign| :: all[i].destination != all[|foreign|].destination;
    }
  }

  lemma CoveredPrefix(h: Hashing, rules: seq<MountRule>, a: seq<ObservedMount>, b: seq<ObservedMount>)
    requires a <= b
    ensures Covered(h, rules, b) ==> Covered(h, rules, a)
  {
  }

  lemma {:induction false} DestinationsCount(mounts: seq<ObservedMount>)
    requires DistinctDestinations(mounts)
    ensures |Destinations(mounts)| == |mounts|
  {
    if mounts != [] {
      var init, m := mounts[..|mounts| - 1], mounts[|mounts| - 1];
      DestinationsCount(init);
      assert mounts == init + [m];
      DestinationsAppend(init, m);
      assert m.destination !in Destinations(init);
    }
  }

  lemma DestinationsAppend(mounts: seq<ObservedMount>, m: ObservedMount)
    ensures Destinations(mounts + [m]) == Destinations(mounts) + {m.destination}
  {
    var all := mounts + [m];
    assert all[|mounts|] == m;
    forall x ensures x in Destinations(all) <==> x in Destinations(mounts) || x == m.destination {
      if x in Destinations(mounts) {
        var i :| 0 <= i < |mounts| && mounts[i].destination == x;
        assert all[i].destination == x;
      }
    }
  }

  lemma {:induction false} ForeignPrefix(mounts: seq<ObservedMount>, n: nat)
    requires n <= |mounts|
    ensures Foreign(mounts[..n]) <= Foreign(mounts)
    decreases |mounts|
  {
    if n < |mounts| {
      ForeignPrefix(mounts[..|mounts| - 1], n);
      assert mounts[..|mounts| - 1][..n] == mounts[..n];
    } else {
      assert mounts[..n] == mounts;
    }
  }

  // ---- environment ----

  predicate IsLowerHex(b: byte) {
    48 <= b <= 57 || 97 <= b <= 102
  }

  predicate ValidObservation(o: Option<EnvObservation>) {
    o.Some? && o.value.format == ENV_FORMAT && |o.value.digest| == 64 &&
    forall i | 0 <= i < 64 :: IsLowerHex(o.value.digest[i])
  }

  function FingerprintEnv(h: Hashing, values: map<bytes, bytes>): EnvObservation {
    EnvObservation(ENV_FORMAT, h.env(values))
  }

  predicate EnvAdmits(h: Hashing, p: EnvPolicy, o: Option<EnvObservation>) {
    match p.policy
    case Any => true
    case Absent => true
    case Deny => ValidObservation(o) && o.value == FingerprintEnv(h, map[])
    case Exact => p.values.Some? && ValidObservation(o) && o.value == FingerprintEnv(h, p.values.value)
    case _ => false
  }

  // ---- containers and entries ----

  ghost predicate Admits(h: Hashing, c: Container, r: Running) {
    && c.digest == r.digest
    && ProcessAdmits(c, r.argv) && MountsAdmit(h, c.mounts, r.mounts) && EnvAdmits(h, c.env, r.env)
  }

  function AllContainers(w: Workload): seq<Container> {
    w.initContainers + w.containers
  }

  predicate ArgvPinned(w: Workload) {
    var cs := AllContainers(w);
    forall i | 0 <= i < |cs| :: ArgvHostIndependent(cs[i].command.policy) && ArgvHostIndependent(cs[i].args.policy)
  }

  predicate ContainerHostIndependent(c: Container) {
    && ArgvHostIndependent(c.command.policy) && ArgvHostIndependent(c.args.policy)
    && c.mounts.policy in {Absent, Deny, Exact}
    && (forall i | 0 <= i < |c.mounts.rules| :: RuleHostIndependent(c.mounts.rules[i]))
    && c.env.policy in {Deny, Exact}
  }

  predicate HostIndependent(w: Workload) {
    var cs := AllContainers(w);
    forall i | 0 <= i < |cs| :: ContainerHostIndependent(cs[i])
  }

  predicate AdmitsAnyArgv(ws: Workloads, digest: bytes) {
    var d := ParseDigest(digest);
    d.Some? &&
    exists n | n in ws :: exists i | 0 <= i < |AllContainers(ws[n])| ::
      AllContainers(ws[n])[i].digest == d.value && AnyArgv(AllContainers(ws[n])[i])
  }

  datatype Operation = Read | Write

  predicate Allows(p: Option<SecretsPolicy>, path: bytes, op: Operation) {
    p.Some? && p.value.policy == Allow && AnyMatches(if op == Write then p.value.write else p.value.read, path)
  }

  ghost predicate AcceptedGrant(p: SecretsPolicy) {
    && (forall i | 0 <= i < |p.read| :: GlobAccepted(p.read[i]))
    && (forall i | 0 <= i < |p.write| :: GlobAccepted(p.write[i]))
  }

  /** An allow lets read what one of its read globs covers, segment by segment, and write what one of
      its write globs does; any other grant, or none, allows nothing. */
  ghost predicate MayRead(p: SecretsPolicy, path: bytes)
    requires AcceptedGrant(p) && CanonicalSecretPath(path).Ok?
  {
    p.policy == Allow && exists i | 0 <= i < |p.read| :: Covers(p.read[i], Segments(path))
  }

  ghost predicate MayWrite(p: SecretsPolicy, path: bytes)
    requires AcceptedGrant(p) && CanonicalSecretPath(path).Ok?
  {
    p.policy == Allow && exists i | 0 <= i < |p.write| :: Covers(p.write[i], Segments(path))
  }

  lemma AllowsExactly(p: SecretsPolicy, path: bytes)
    requires AcceptedGrant(p) && CanonicalSecretPath(path).Ok?
    ensures Allows(Some(p), path, Read) <==> MayRead(p, path)
    ensures Allows(Some(p), path, Write) <==> MayWrite(p, path)
    ensures !Allows(None, path, Read) && !Allows(None, path, Write)
  {
    AllowsSegments(p.read, path);
    AllowsSegments(p.write, path);
  }
}
