/** Which documents are accepted, said of the document as it comes (pkg/allowlist/allowlist.go:353-644). */
module Acceptance {
  import opened Bytes
  import opened Wrappers
  import opened Paths
  import opened Grants
  import opened Quoting
  import opened Allowlist
  import opened Normalise
  import Admission

  /** Deny and any take no argv, exact takes one; an absent policy is read as deny. */
  predicate ArgvOK(p: ArgvPolicy) {
    || p.policy == Absent || (p.policy in {Deny, Any} && p.argv == []) || (p.policy == Exact && p.argv != [])
  }

  /** A clean destination, and below the data directory for data; only a host rule has a source, a clean
      one without NUL, and may be read-only. */
  predicate RuleOK(r: MountRule) {
    && IsClean(r.destination)
    && if r.kind == Ascii("emptyDir") then r.source == [] && !r.readOnly
       else if r.kind == Ascii("data") then
         r.source == [] && !r.readOnly && |r.destination| >= 14 && r.destination[..14] == Ascii("/mnt/c8s-data/")
       else r.kind == Ascii("host") && IsClean(r.source) && 0 !in r.source
  }

  ghost predicate MountsOK(p: MountPolicy) {
    || (p.policy in {Absent, Deny, Any} && p.rules == [])
    || (&& p.policy == Exact && p.rules != [] && (forall r | r in p.rules :: RuleOK(r))
        && forall i, j | 0 <= i < j < |p.rules| :: p.rules[i].destination != p.rules[j].destination)
  }

  /** No NUL anywhere, no `=` in a name, names not empty and all of it UTF-8. */
  ghost predicate EnvOK(p: EnvPolicy) {
    || (p.policy in {Absent, Deny, Any} && p.values.None?)
    || (&& p.policy == Exact && p.values.Some?
        && forall n | n in p.values.value ::
             var v := p.values.value[n];
             n != [] && 61 !in n && 0 !in n + v && ValidUtf8(n) && ValidUtf8(v))
  }

  ghost predicate ContainerOK(c: Container) {
    c.digest != [] && ArgvOK(c.command) && ArgvOK(c.args) && MountsOK(c.mounts) && EnvOK(c.env)
  }

  /** An allow has read globs, and its globs are paths, or subtrees, without another star. */
  ghost predicate GrantOK(s: SecretsPolicy) {
    || (s.policy in {Absent, Deny} && s.read == [] && s.write == [])
    || (&& s.policy == Allow && s.read != [] && (forall g | g in s.read :: IsGlob(g))
        && forall g | g in s.write :: IsGlob(g))
  }

  /** Letters, digits, and after the first byte also dot, underscore and hyphen. */
  predicate NameByte(b: byte, first: bool) {
    || 'a' as int <= b <= 'z' as int || 'A' as int <= b <= 'Z' as int || '0' as int <= b <= '9' as int
    || (!first && b in {'.' as int, '_' as int, '-' as int})
  }

  predicate NameOK(name: bytes) {
    name != [] && forall i | 0 <= i < |name| :: NameByte(name[i], i == 0)
  }

  predicate Open(c: Container) {
    c.command.policy == Any || c.args.policy == Any
  }

  ghost predicate NoneOpen(cs: seq<Container>) {
    forall c | c in cs :: !Open(c)
  }

  ghost predicate AllOK(cs: seq<Container>) {
    forall c | c in cs :: ContainerOK(c)
  }

  ghost predicate WorkloadOK(w: Workload, strict: bool) {
    && AllOK(w.initContainers) && AllOK(w.containers) && (w.secrets.Some? ==> GrantOK(w.secrets.value))
    && (strict && w.secrets.Some? && w.secrets.value.policy == Allow ==>
          NoneOpen(w.initContainers) && NoneOpen(w.containers))
  }

  /** A strict document refuses names longer than 63 bytes and grants to containers with an open argv; a
      served one drops the long names, contents unread. */
  ghost predicate EntryLegal(name: bytes, w: Workload, strict: bool) {
    NameOK(name) && if |name| > 63 then !strict else WorkloadOK(w, strict)
  }

  lemma ContainerAcceptedIff(c: Container)
    ensures NormalContainer(c).Some? <==> ContainerOK(c)
    ensures NormalContainer(c).Some? ==>
            (Open(NormalContainer(c).value) <==> Open(c)) && !Odd(NormalContainer(c).value)
  {
    assert forall r :: r in c.mounts.rules ==> (RuleValid(r) <==> RuleOK(r));
  }

  /** A word that no argv policy has. */
  predicate Odd(c: Container) {
    c.command.policy !in {Any, Deny, Exact} || c.args.policy !in {Any, Deny, Exact}
  }

  lemma GlobsAcceptedIff(globs: seq<bytes>)
    ensures AllAccepted(globs) <==> forall g | g in globs :: IsGlob(g)
  {
    forall g | g in globs ensures GlobAccepted(g) <==> IsGlob(g) { GlobsAreSegments(g); }
    assert forall i | 0 <= i < |globs| :: globs[i] in globs;
  }

  lemma GrantAcceptedIff(s: Option<SecretsPolicy>)
    ensures NormalSecrets(s).Some? <==> s.None? || GrantOK(s.value)
    ensures NormalSecrets(s).Some? ==> (NormalSecrets(s).value.Some? <==> s.Some? && s.value.policy == Allow)
  {
    if s.Some? {
      GlobsAcceptedIff(s.value.read);
      GlobsAcceptedIff(s.value.write);
    }
  }

  lemma AllAcceptedIff(cs: seq<Container>)
    ensures AllNormal(cs) <==> AllOK(cs)
  {
    forall c | c in cs ensures NormalContainer(c).Some? <==> ContainerOK(c) { ContainerAcceptedIff(c); }
    assert forall i | 0 <= i < |cs| :: cs[i] in cs;
  }

  ghost predicate AllPinned(cs: seq<Container>) {
    forall c | c in cs :: c.command.policy in {Absent, Deny, Exact} && c.args.policy in {Absent, Deny, Exact}
  }

  lemma PinnedIffNoneOpen(cs: seq<Container>)
    requires AllNormal(cs)
    ensures AllPinned(NormalContainers(cs)) <==> NoneOpen(cs)
  {
    var ds := NormalContainers(cs);
    forall i | 0 <= i < |cs| ensures (Open(ds[i]) <==> Open(cs[i])) && !Odd(ds[i]) { ContainerAcceptedIff(cs[i]); }
    assert forall i | 0 <= i < |cs| :: cs[i] in cs && ds[i] in ds;
  }

  lemma WorkloadAcceptedIff(w: Workload, strict: bool, key: Rendering)
    ensures NormalWorkload(w, strict, key).Some? <==> WorkloadOK(w, strict)
  {
    AllAcceptedIff(w.initContainers);
    AllAcceptedIff(w.containers);
    GrantAcceptedIff(w.secrets);
    if AllNormal(w.initContainers) && AllNormal(w.containers) && NormalSecrets(w.secrets).Some? {
      var inits, mains := NormalContainers(w.initContainers), NormalContainers(w.containers);
      PinnedIffNoneOpen(w.initContainers);
      PinnedIffNoneOpen(w.containers);
      PlainPinnedIff(Workload(w.imageLabel, inits, mains, NormalSecrets(w.secrets).value));
    }
  }

  lemma PlainPinnedIff(plain: Workload)
    ensures ArgvPinned(plain) <==> AllPinned(plain.initContainers) && AllPinned(plain.containers)
  {
    Admission.PinnedIff(plain);
  }

  lemma EntryAcceptedIff(name: bytes, w: Workload, strict: bool, key: Rendering)
    ensures EntryOK(name, w, strict, key) <==> EntryLegal(name, w, strict)
  {
    WorkloadAcceptedIff(w, strict, key);
    assert forall i | 0 <= i < |name| :: NameByteOK(name[i], i == 0) <==> NameByte(name[i], i == 0);
  }

  /** A document is accepted exactly when it has the schema and every entry is legal, and then keeps
      exactly the entries whose names fit. */
  lemma DocumentAcceptedIff(schema: bytes, ws: Workloads, strict: bool, key: Rendering)
    ensures NormalDocument(schema, ws, strict, key).Some? <==>
            schema == Ascii("c8s.allowlist/v1") && forall n | n in ws :: EntryLegal(n, ws[n], strict)
    ensures NormalDocument(schema, ws, strict, key).Some? ==>
            forall n :: n in NormalDocument(schema, ws, strict, key).value <==> n in ws && |n| <= 63
  {
    forall n | n in ws ensures EntryOK(n, ws[n], strict, key) <==> EntryLegal(n, ws[n], strict) {
      EntryAcceptedIff(n, ws[n], strict, key);
    }
  }
}
