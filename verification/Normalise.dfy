/** The canonical form of an allowlist document (pkg/allowlist/allowlist.go:353-644). */
module Normalise {
  import opened Bytes
  import opened Wrappers
  import opened Sorting
  import opened Paths
  import opened Grants
  import opened Quoting
  import opened Allowlist
  import opened HostIndependence

  // ---- the parts of a container, None when refused ----

  function NormalArgv(p: ArgvPolicy): Option<ArgvPolicy> {
    match p.policy
    case Deny => if p.argv == [] then Some(p) else None
    case Any => if p.argv == [] then Some(p) else None
    case Exact => if p.argv != [] then Some(p) else None
    case Absent => Some(ArgvPolicy(Deny, []))
    case _ => None
  }

  predicate RuleValid(r: MountRule) {
    && IsClean(r.destination)
    && if r.kind == EMPTY_DIR then r.source == [] && !r.readOnly
       else if r.kind == DATA then r.source == [] && !r.readOnly && DATA_MOUNT_PREFIX <= r.destination
       else r.kind == HOST && IsClean(r.source) && 0 !in r.source
  }

  predicate RuleLeq(a: MountRule, b: MountRule) {
    LexLeq(a.destination, b.destination)
  }

  ghost predicate RulesAccepted(rules: seq<MountRule>) {
    rules != [] && DistinctRules(rules) && forall i | 0 <= i < |rules| :: RuleValid(rules[i])
  }

  ghost function NormalMounts(p: MountPolicy): Option<MountPolicy> {
    match p.policy
    case Any => if p.rules == [] then Some(p) else None
    case Deny => if p.rules == [] then Some(p) else None
    case Absent => if p.rules == [] then Some(MountPolicy(Deny, [])) else None
    case Exact => if RulesAccepted(p.rules) then Some(MountPolicy(Exact, Sort(p.rules, RuleLeq))) else None
    case _ => None
  }

  const EQUALS: byte := 61

  predicate ValidEnvPair(name: bytes, value: bytes) {
    name != [] && EQUALS !in name && 0 !in name && 0 !in value && ValidUtf8(name) && ValidUtf8(value)
  }

  function NormalEnv(p: EnvPolicy): Option<EnvPolicy> {
    match p.policy
    case Any => if p.values.None? then Some(p) else None
    case Deny => if p.values.None? then Some(p) else None
    case Absent => if p.values.None? then Some(EnvPolicy(Any, None)) else None
    case Exact =>
      if p.values.None? || exists n | n in p.values.value :: !ValidEnvPair(n, p.values.value[n]) then None
      else if |p.values.value| == 0 then Some(EnvPolicy(Deny, None)) else Some(p)
    case _ => None
  }

  ghost function NormalContainer(c: Container): Option<Container> {
    var command, args, mounts, env :=
      NormalArgv(c.command), NormalArgv(c.args), NormalMounts(c.mounts), NormalEnv(c.env);
    if c.digest == [] || command.None? || args.None? || mounts.None? || env.None? then None
    else Some(Container(c.digest, c.image, command.value, args.value, mounts.value, env.value))
  }

  ghost predicate AllNormal(cs: seq<Container>) {
    forall i | 0 <= i < |cs| :: NormalContainer(cs[i]).Some?
  }

  ghost function NormalContainers(cs: seq<Container>): seq<Container>
    requires AllNormal(cs)
  {
    seq(|cs|, i requires 0 <= i < |cs| => NormalContainer(cs[i]).value)
  }

  // ---- grants ----

  predicate AllAccepted(globs: seq<bytes>) {
    forall i | 0 <= i < |globs| :: GlobAccepted(globs[i])
  }

  function NormalGlobs(globs: seq<bytes>): seq<bytes> {
    Sort(Dedupe(globs), LexLeq)
  }

  /** The outer None is a refusal; the inner one grants nothing. */
  function NormalSecrets(s: Option<SecretsPolicy>): Option<Option<SecretsPolicy>> {
    if s.None? then Some(None)
    else
      match s.value.policy
      case Deny => if s.value.read == [] && s.value.write == [] then Some(None) else None
      case Absent => if s.value.read == [] && s.value.write == [] then Some(None) else None
      case Allow =>
        if AllAccepted(s.value.read) && AllAccepted(s.value.write) && s.value.read != []
        then Some(Some(SecretsPolicy(Allow, NormalGlobs(s.value.read), NormalGlobs(s.value.write)))) else None
      case _ => None
  }

  // ---- entries and the document ----

  /** What policyKey renders. */
  datatype Policies = Policies(command: ArgvPolicy, args: ArgvPolicy, mounts: MountPolicy, env: EnvPolicy)

  type Rendering = Policies -> bytes

  function PoliciesOf(c: Container): Policies {
    Policies(c.command, c.args, c.mounts, c.env)
  }

  predicate ContainerLeq(key: Rendering, a: Container, b: Container) {
    if a.digest != b.digest then LexLeq(a.digest, b.digest) else LexLeq(key(PoliciesOf(a)), key(PoliciesOf(b)))
  }

  function Leq(key: Rendering): (Container, Container) -> bool {
    (a, b) => ContainerLeq(key, a, b)
  }

  ghost function NormalWorkload(w: Workload, strict: bool, key: Rendering): Option<Workload> {
    if !AllNormal(w.initContainers) || !AllNormal(w.containers) || NormalSecrets(w.secrets).None? then None
    else
      var plain := Workload(w.imageLabel, NormalContainers(w.initContainers), NormalContainers(w.containers),
        NormalSecrets(w.secrets).value);
      if strict && plain.secrets.Some? && !ArgvPinned(plain) then None
      else Some(plain.(initContainers := Sort(plain.initContainers, Leq(key)),
        containers := Sort(plain.containers, Leq(key))))
  }

  const MAX_WORKLOAD_NAME_LEN: nat := 63

  predicate NameByteOK(b: byte, first: bool) {
    97 <= b <= 122 || 65 <= b <= 90 || 48 <= b <= 57 || ((b == 46 || b == 95 || b == 45) && !first)
  }

  predicate NameGrammarOK(name: bytes) {
    name != [] && forall i | 0 <= i < |name| :: NameByteOK(name[i], i == 0)
  }

  /** An entry keeps its place when its name fits; a longer one is refused or, in a served
      document, dropped. */
  ghost predicate EntryOK(name: bytes, w: Workload, strict: bool, key: Rendering) {
    && NameGrammarOK(name)
    && if |name| > MAX_WORKLOAD_NAME_LEN then !strict else NormalWorkload(w, strict, key).Some?
  }

  ghost predicate AllEntriesOK(ws: Workloads, strict: bool, key: Rendering) {
    forall n | n in ws :: EntryOK(n, ws[n], strict, key)
  }

  ghost function Done(w: Workload, strict: bool, key: Rendering): Workload {
    var r := NormalWorkload(w, strict, key);
    if r.Some? then r.value else w
  }

  ghost function NormalEntries(ws: Workloads, strict: bool, key: Rendering): Workloads {
    map n | n in ws && |n| <= MAX_WORKLOAD_NAME_LEN :: Done(ws[n], strict, key)
  }

  const SCHEMA: bytes := Ascii("c8s.allowlist/v1")

  ghost function NormalDocument(schema: bytes, ws: Workloads, strict: bool, key: Rendering): Option<Workloads> {
    if schema != SCHEMA || !AllEntriesOK(ws, strict, key) then None else Some(NormalEntries(ws, strict, key))
  }

  // ---- the loops ----

  method NormalizeMountRules(rules: seq<MountRule>) returns (r: Option<seq<MountRule>>)
    ensures r == if RulesAccepted(rules) then Some(Sort(rules, RuleLeq)) else None
  {
    if |rules| == 0 {
      return None;
    }
    var seen: set<bytes> := {};
    for n := 0 to |rules|
      invariant seen == RuleDestinations(rules[..n]) && DistinctRules(rules[..n])
      invariant forall i | 0 <= i < n :: RuleValid(rules[i])
    {
      var rule := rules[n];
      assert rules[..n + 1] == rules[..n] + [rule];
      RuleDestinationsAppend(rules[..n], rule);
      if !IsClean(rule.destination) {
        return None;
      }
      if rule.destination in seen {
        ghost var i :| 0 <= i < n && rules[..n][i].destination == rule.destination;
        assert rules[i].destination == rules[n].destination;
        return None;
      }
      seen := seen + {rule.destination};
      if !RuleValid(rule) {
        return None;
      }
      assert forall i | 0 <= i < n :: rules[..n][i].destination in RuleDestinations(rules[..n]);
    }
    assert rules[..|rules|] == rules;
    return Some(Sort(rules, RuleLeq));
  }

  method NormalizeGlobs(globs: seq<bytes>) returns (r: Option<seq<bytes>>)
    ensures r == if AllAccepted(globs) then Some(NormalGlobs(globs)) else None
  {
    var out: seq<bytes> := [];
    for n := 0 to |globs|
      invariant out == Dedupe(globs[..n]) && AllAccepted(globs[..n])
    {
      assert globs[..n + 1][..n] == globs[..n];
      assert globs[..n + 1] == globs[..n] + [globs[n]];
      if !GlobAccepted(globs[n]) {
        return None;
      }
      if globs[n] in out {
        continue;
      }
      out := out + [globs[n]];
    }
    assert globs[..|globs|] == globs;
    return Some(Sort(out, LexLeq));
  }

  method NormalizeMounts(p: MountPolicy) returns (r: Option<MountPolicy>)
    ensures r == NormalMounts(p)
  {
    if p.policy == Exact {
      var rules := NormalizeMountRules(p.rules);
      return if rules.None? then None else Some(MountPolicy(Exact, rules.value));
    }
    if p.policy != Any && p.policy != Deny && p.policy != Absent {
      return None;
    }
    if p.rules != [] {
      return None;
    }
    return Some(MountPolicy(if p.policy == Absent then Deny else p.policy, []));
  }

  method NormalizeContainers(cs: seq<Container>) returns (r: Option<seq<Container>>)
    ensures r == if AllNormal(cs) then Some(NormalContainers(cs)) else None
  {
    var out: seq<Container> := [];
    for n := 0 to |cs|
      invariant |out| == n && forall i | 0 <= i < n :: NormalContainer(cs[i]) == Some(out[i])
    {
      var c := cs[n];
      if c.digest == [] {
        return None;
      }
      var command, args, env := NormalArgv(c.command), NormalArgv(c.args), NormalEnv(c.env);
      if command.None? || args.None? {
        return None;
      }
      var mounts := NormalizeMounts(c.mounts);
      if mounts.None? || env.None? {
        return None;
      }
      out := out + [Container(c.digest, c.image, command.value, args.value, mounts.value, env.value)];
    }
    assert AllNormal(cs) && out == NormalContainers(cs);
    return Some(out);
  }

  method NormalizeSecrets(s: Option<SecretsPolicy>) returns (r: Option<Option<SecretsPolicy>>)
    ensures r == NormalSecrets(s)
  {
    if s.None? {
      return Some(None);
    }
    var p := s.value;
    if p.policy == Deny || p.policy == Absent {
      return if p.read == [] && p.write == [] then Some(None) else None;
    }
    if p.policy != Allow {
      return None;
    }
    var read := NormalizeGlobs(p.read);
    if read.None? {
      return None;
    }
    var write := NormalizeGlobs(p.write);
    if write.None? {
      return None;
    }
    DedupeIs(p.read);
    if |read.value| == 0 {
      assert |Dedupe(p.read)| == 0;
      return None;
    }
    assert p.read == [] ==> Dedupe(p.read) == [];
    return Some(Some(SecretsPolicy(Allow, read.value, write.value)));
  }

  method NormalizeWorkload(w: Workload, strict: bool, key: Rendering) returns (r: Option<Workload>)
    ensures r == NormalWorkload(w, strict, key)
  {
    var init := NormalizeContainers(w.initContainers);
    if init.None? {
      return None;
    }
    var mains := NormalizeContainers(w.containers);
    if mains.None? {
      return None;
    }
    var secrets := NormalizeSecrets(w.secrets);
    if secrets.None? {
      return None;
    }
    var plain := Workload(w.imageLabel, init.value, mains.value, secrets.value);
    if strict && secrets.value.Some? && !ArgvPinned(plain) {
      return None;
    }
    return Some(plain.(initContainers := Sort(init.value, Leq(key)), containers := Sort(mains.value, Leq(key))));
  }

  /** The document, normalised in place. */
  class Document {
    var schema: bytes
    var workloads: Workloads

    constructor (schema: bytes, workloads: Workloads)
      ensures this.schema == schema && this.workloads == workloads
    {
      this.schema, this.workloads := schema, workloads;
    }

    /** The entries are walked in no particular order; a refusal leaves the document half done
        and the caller discards it. */
    method Normalize(strict: bool, key: Rendering) returns (ok: bool)
      modifies this`workloads
      ensures ok <==> NormalDocument(schema, old(workloads), strict, key).Some?
      ensures ok ==> workloads == NormalDocument(schema, old(workloads), strict, key).value
    {
      if schema != SCHEMA {
        return false;
      }
      ghost var was := workloads;
      var todo := workloads.Keys;
      while todo != {}
        invariant todo <= was.Keys && SettledOK(was, todo, strict, key)
        invariant workloads == Progress(was, todo, strict, key)
        decreases |todo|
      {
        var name :| name in todo;
        ProgressStep(was, todo, name, strict, key);
        todo := todo - {name};
        var fits, w := NormalizeEntry(name, workloads[name], strict, key);
        if !fits {
          RefusedEntry(schema, was, name, strict, key);
          return false;
        }
        if w.None? {
          workloads := workloads - {name};
        } else {
          workloads := workloads[name := w.value];
        }
      }
      ProgressDone(schema, was, strict, key);
      return true;
    }
  }

  /** One entry: refused, dropped (None), or normalised. */
  method NormalizeEntry(name: bytes, w: Workload, strict: bool, key: Rendering)
    returns (fits: bool, r: Option<Workload>)
    ensures fits <==> EntryOK(name, w, strict, key)
    ensures fits ==> r == if |name| > MAX_WORKLOAD_NAME_LEN then None else Some(Done(w, strict, key))
  {
    if !NameGrammarOK(name) {
      return false, None;
    }
    if |name| > MAX_WORKLOAD_NAME_LEN {
      return !strict, None;
    }
    r := NormalizeWorkload(w, strict, key);
    return r.Some?, r;
  }

  lemma RefusedEntry(schema: bytes, was: Workloads, name: bytes, strict: bool, key: Rendering)
    requires name in was && !EntryOK(name, was[name], strict, key)
    ensures NormalDocument(schema, was, strict, key).None?
  {
  }

  lemma ProgressDone(schema: bytes, was: Workloads, strict: bool, key: Rendering)
    requires schema == SCHEMA && SettledOK(was, {}, strict, key)
    ensures NormalDocument(schema, was, strict, key) == Some(Progress(was, {}, strict, key))
  {
    assert AllEntriesOK(was, strict, key);
    assert NormalEntries(was, strict, key) == Progress(was, {}, strict, key);
  }

  ghost predicate SettledOK(was: Workloads, todo: set<bytes>, strict: bool, key: Rendering) {
    forall n | n in was && n !in todo :: EntryOK(n, was[n], strict, key)
  }

  /** The document when the entries of `todo` have not been visited yet. */
  ghost function Progress(was: Workloads, todo: set<bytes>, strict: bool, key: Rendering): Workloads {
    map n | n in was && (n in todo || |n| <= MAX_WORKLOAD_NAME_LEN) :: if n in todo then was[n]
      else Done(was[n], strict, key)
  }

  lemma ProgressStep(was: Workloads, todo: set<bytes>, name: bytes, strict: bool, key: Rendering)
    requires name in was && name in todo
    ensures name in Progress(was, todo, strict, key) && Progress(was, todo, strict, key)[name] == was[name]
    ensures Progress(was, todo - {name}, strict, key) ==
            if |name| > MAX_WORKLOAD_NAME_LEN then Progress(was, todo, strict, key) - {name}
            else Progress(was, todo, strict, key)[name := Done(was[name], strict, key)]
  {
  }
}
