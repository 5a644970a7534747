/** What normalisation keeps: it is idempotent, does not change what environment and mount
    policies admit, and forgets the order of containers, rules and globs. */
module NormalForm {
  import opened Bytes
  import opened Wrappers
  import opened Sorting
  import opened Grants
  import opened Allowlist
  import opened HostIndependence
  import opened Normalise

  // ---- rules ----

  lemma RulePreorder()
    ensures Preorder(RuleLeq)
  {
    forall a, b ensures RuleLeq(a, b) || RuleLeq(b, a) { LexTotal(a.destination, b.destination); }
    forall a, b, c | RuleLeq(a, b) && RuleLeq(b, c) ensures RuleLeq(a, c) {
      LexTransitive(a.destination, b.destination, c.destination);
    }
  }

  lemma RulesNoTies(rules: seq<MountRule>)
    requires DistinctRules(rules)
    ensures NoTies(rules, RuleLeq)
  {
    forall i, j | 0 <= i < |rules| && 0 <= j < |rules| && RuleLeq(rules[i], rules[j]) && RuleLeq(rules[j], rules[i])
      ensures rules[i] == rules[j]
    {
      LexAntisymmetric(rules[i].destination, rules[j].destination);
    }
  }

  lemma RuleDestinationsSubset(a: seq<MountRule>, b: seq<MountRule>)
    requires forall r | r in a :: r in b
    ensures RuleDestinations(a) <= RuleDestinations(b)
  {
    forall x | x in RuleDestinations(a) ensures x in RuleDestinations(b) {
      var i :| 0 <= i < |a| && a[i].destination == x;
      assert a[i] in b;
      var j :| 0 <= j < |b| && b[j] == a[i];
      assert b[j].destination == x;
    }
  }

  lemma RulesAcceptedPermuted(a: seq<MountRule>, b: seq<MountRule>)
    requires RulesAccepted(a) && multiset(a) == multiset(b)
    ensures RulesAccepted(b)
  {
    SameElements(a, b);
    RuleDestinationsSubset(a, b);
    RuleDestinationsSubset(b, a);
    assert RuleDestinations(a) == RuleDestinations(b);
    RuleDestinationsCount(a);
    RuleDestinationsCount(b);
    forall i | 0 <= i < |b| ensures RuleValid(b[i]) { assert b[i] in a; }
  }

  lemma RulesSorted(rules: seq<MountRule>)
    ensures multiset(Sort(rules, RuleLeq)) == multiset(rules)
    ensures Sort(Sort(rules, RuleLeq), RuleLeq) == Sort(rules, RuleLeq)
  {
    RulePreorder();
    SortPermutes(rules, RuleLeq);
    SortSorted(rules, RuleLeq);
    SortOfSorted(Sort(rules, RuleLeq), RuleLeq);
  }

  // ---- idempotence ----

  lemma MountsNormalTwice(p: MountPolicy)
    requires NormalMounts(p).Some?
    ensures NormalMounts(NormalMounts(p).value) == NormalMounts(p)
  {
    if p.policy == Exact {
      RulesSorted(p.rules);
      RulesAcceptedPermuted(p.rules, Sort(p.rules, RuleLeq));
    }
  }

  lemma ContainerNormalTwice(c: Container)
    requires NormalContainer(c).Some?
    ensures NormalContainer(NormalContainer(c).value) == NormalContainer(c)
  {
    MountsNormalTwice(c.mounts);
  }

  lemma NormalGlobsAre(globs: seq<bytes>)
    ensures var out := NormalGlobs(globs); Sorted(out, LexLeq) && Distinct(out) && forall g :: g in out <==> g in globs
  {
    LexPreorder();
    DedupeIs(globs);
    SortPermutes(Dedupe(globs), LexLeq);
    SortSorted(Dedupe(globs), LexLeq);
    DistinctPermuted(Dedupe(globs), NormalGlobs(globs));
    SameElements(Dedupe(globs), NormalGlobs(globs));
  }

  lemma GlobsNormalTwice(globs: seq<bytes>)
    ensures NormalGlobs(NormalGlobs(globs)) == NormalGlobs(globs)
  {
    NormalGlobsAre(globs);
    DedupeOfDistinct(NormalGlobs(globs));
    SortOfSorted(NormalGlobs(globs), LexLeq);
  }

  lemma SameGlobs(globs: seq<bytes>, out: seq<bytes>)
    requires forall g :: g in out <==> g in globs
    ensures (AllAccepted(globs) <==> AllAccepted(out)) && (globs == [] <==> out == [])
  {
    assert AllAccepted(globs) <==> forall g | g in globs :: GlobAccepted(g);
    assert AllAccepted(out) <==> forall g | g in out :: GlobAccepted(g);
    if globs != [] { assert globs[0] in out; }
    if out != [] { assert out[0] in globs; }
  }

  lemma SecretsNormalTwice(s: Option<SecretsPolicy>)
    requires NormalSecrets(s).Some?
    ensures NormalSecrets(NormalSecrets(s).value) == NormalSecrets(s)
  {
    if s.Some? {
      NormalGlobsAre(s.value.read);
      NormalGlobsAre(s.value.write);
      SameGlobs(s.value.read, NormalGlobs(s.value.read));
      SameGlobs(s.value.write, NormalGlobs(s.value.write));
      GlobsNormalTwice(s.value.read);
      GlobsNormalTwice(s.value.write);
    }
  }

  lemma ContainerTotal(key: Rendering, a: Container, b: Container)
    ensures ContainerLeq(key, a, b) || ContainerLeq(key, b, a)
  {
    LexTotal(a.digest, b.digest);
    LexTotal(key(PoliciesOf(a)), key(PoliciesOf(b)));
  }

  lemma ContainerTransitive(key: Rendering, a: Container, b: Container, c: Container)
    requires ContainerLeq(key, a, b) && ContainerLeq(key, b, c)
    ensures ContainerLeq(key, a, c)
  {
    if a.digest == b.digest == c.digest {
      LexTransitive(key(PoliciesOf(a)), key(PoliciesOf(b)), key(PoliciesOf(c)));
    } else if a.digest != b.digest && b.digest != c.digest {
      LexTransitive(a.digest, b.digest, c.digest);
      if a.digest == c.digest { LexAntisymmetric(a.digest, b.digest); }
    }
  }

  lemma ContainerPreorder(key: Rendering)
    ensures Preorder(Leq(key))
  {
    forall a, b ensures Leq(key)(a, b) || Leq(key)(b, a) { ContainerTotal(key, a, b); }
    forall a, b, c | Leq(key)(a, b) && Leq(key)(b, c) ensures Leq(key)(a, c) { ContainerTransitive(key, a, b, c); }
  }

  lemma NormalListTwice(cs: seq<Container>, key: Rendering)
    requires AllNormal(cs)
    ensures var out := Sort(NormalContainers(cs), Leq(key));
            && AllNormal(out) && NormalContainers(out) == out && Sort(out, Leq(key)) == out
            && (forall c :: c in out <==> c in NormalContainers(cs))
  {
    var plain := NormalContainers(cs);
    var out := Sort(plain, Leq(key));
    ContainerPreorder(key);
    SortPermutes(plain, Leq(key));
    SameElements(plain, out);
    SortSorted(plain, Leq(key));
    SortOfSorted(out, Leq(key));
    forall i | 0 <= i < |out| ensures NormalContainer(out[i]) == Some(out[i]) {
      assert out[i] in plain;
      var j :| 0 <= j < |plain| && plain[j] == out[i];
      ContainerNormalTwice(cs[j]);
    }
    assert AllNormal(out);
  }

  predicate Pinned(c: Container) {
    ArgvHostIndependent(c.command.policy) && ArgvHostIndependent(c.args.policy)
  }

  lemma PinnedByMembers(w: Workload)
    ensures ArgvPinned(w) <==>
            (forall c | c in w.initContainers :: Pinned(c)) && (forall c | c in w.containers :: Pinned(c))
  {
    var cs := AllContainers(w);
    if ArgvPinned(w) {
      forall c | c in cs ensures Pinned(c) { var i :| 0 <= i < |cs| && cs[i] == c; }
      forall c | c in w.initContainers ensures c in cs { }
      forall c | c in w.containers ensures c in cs { }
    } else {
      var i :| 0 <= i < |cs| && !Pinned(cs[i]);
      assert cs[i] in w.initContainers || cs[i] in w.containers;
    }
  }

  lemma WorkloadNormalTwice(w: Workload, strict: bool, key: Rendering)
    requires NormalWorkload(w, strict, key).Some?
    ensures NormalWorkload(NormalWorkload(w, strict, key).value, strict, key) == NormalWorkload(w, strict, key)
  {
    var out := NormalWorkload(w, strict, key).value;
    NormalListTwice(w.initContainers, key);
    NormalListTwice(w.containers, key);
    SecretsNormalTwice(w.secrets);
    var plain := Workload(w.imageLabel, NormalContainers(w.initContainers), NormalContainers(w.containers),
      out.secrets);
    PinnedByMembers(plain);
    PinnedByMembers(out);
  }

  lemma EntryNormalTwice(n: bytes, w: Workload, strict: bool, key: Rendering)
    requires EntryOK(n, w, strict, key) && |n| <= MAX_WORKLOAD_NAME_LEN
    ensures EntryOK(n, Done(w, strict, key), strict, key) &&
            Done(Done(w, strict, key), strict, key) == Done(w, strict, key)
  {
    WorkloadNormalTwice(w, strict, key);
  }

  lemma EntriesNormalTwice(ws: Workloads, strict: bool, key: Rendering)
    requires AllEntriesOK(ws, strict, key)
    ensures var out := NormalEntries(ws, strict, key);
            AllEntriesOK(out, strict, key) && NormalEntries(out, strict, key) == out
  {
    var out := NormalEntries(ws, strict, key);
    forall n | n in out ensures EntryOK(n, out[n], strict, key) && Done(out[n], strict, key) == out[n] {
      EntryNormalTwice(n, ws[n], strict, key);
    }
  }

  /** Normalising a normalised document changes nothing. */
  lemma NormalisationIsIdempotent(schema: bytes, ws: Workloads, strict: bool, key: Rendering)
    requires NormalDocument(schema, ws, strict, key).Some?
    ensures NormalDocument(schema, NormalDocument(schema, ws, strict, key).value, strict, key) ==
            NormalDocument(schema, ws, strict, key)
  {
    EntriesNormalTwice(ws, strict, key);
  }

  // ---- what is admitted ----

  lemma EnvPreserved(h: Hashing, p: EnvPolicy, o: Option<EnvObservation>)
    requires NormalEnv(p).Some?
    ensures EnvAdmits(h, NormalEnv(p).value, o) <==> EnvAdmits(h, p, o)
  {
    if p.policy == Exact && |p.values.value| == 0 { assert p.values.value == map[]; }
  }

  lemma AdmitsIffRuled(h: Hashing, rules: seq<MountRule>, m: ObservedMount)
    requires DistinctRules(rules)
    ensures AdmitsMount(h, rules, m) <==> Ruled(h, rules, m)
  {
    if Ruled(h, rules, m) {
      var j :| 0 <= j < |rules| && Fits(h, rules[j], m);
      FitsIff(h, rules[j], m);
      OnlyRule(h, rules, m, j);
    }
    if AdmitsMount(h, rules, m) { FitsIff(h, rules[FirstRule(rules, m)], m); }
  }

  lemma RuledPermuted(h: Hashing, a: seq<MountRule>, b: seq<MountRule>, m: ObservedMount)
    requires (forall r | r in a :: r in b) && Ruled(h, a, m)
    ensures Ruled(h, b, m)
  {
    var j :| 0 <= j < |a| && Fits(h, a[j], m);
    assert a[j] in b;
    var k :| 0 <= k < |b| && b[k] == a[j];
    assert Fits(h, b[k], m);
  }

  lemma CoveredByPermuted(h: Hashing, a: seq<MountRule>, b: seq<MountRule>, foreign: seq<ObservedMount>)
    requires DistinctRules(a) && DistinctRules(b) && (forall r | r in a :: r in b) && Covered(h, a, foreign)
    ensures Covered(h, b, foreign)
  {
    forall i | 0 <= i < |foreign| ensures AdmitsMount(h, b, foreign[i]) {
      assert AdmitsMount(h, a, foreign[i]);
      AdmitsIffRuled(h, a, foreign[i]);
      RuledPermuted(h, a, b, foreign[i]);
      AdmitsIffRuled(h, b, foreign[i]);
    }
  }

  lemma MountsPreserved(h: Hashing, p: MountPolicy, mounts: Option<seq<ObservedMount>>)
    requires NormalMounts(p).Some?
    ensures MountsAdmit(h, NormalMounts(p).value, mounts) <==> MountsAdmit(h, p, mounts)
  {
    if p.policy == Exact && mounts.Some? {
      var sorted, foreign := Sort(p.rules, RuleLeq), Foreign(mounts.value);
      RulesSorted(p.rules);
      RulesAcceptedPermuted(p.rules, sorted);
      SameElements(p.rules, sorted);
      if Covered(h, p.rules, foreign) { CoveredByPermuted(h, p.rules, sorted, foreign); }
      if Covered(h, sorted, foreign) { CoveredByPermuted(h, sorted, p.rules, foreign); }
    }
  }

  /** Normalisation changes nothing about the environments and mounts a container admits. */
  lemma EnvAndMountsPreserved(h: Hashing, c: Container, r: Running)
    requires NormalContainer(c).Some?
    ensures var c' := NormalContainer(c).value;
            && (EnvAdmits(h, c'.env, r.env) <==> EnvAdmits(h, c.env, r.env))
            && (MountsAdmit(h, c'.mounts, r.mounts) <==> MountsAdmit(h, c.mounts, r.mounts))
  {
    EnvPreserved(h, c.env, r.env);
    MountsPreserved(h, c.mounts, r.mounts);
  }

  /** A grant allows what it did before, or is refused. */
  lemma GrantsPreserved(s: Option<SecretsPolicy>, path: bytes, op: Operation)
    requires NormalSecrets(s).Some?
    ensures Allows(NormalSecrets(s).value, path, op) <==> Allows(s, path, op)
  {
    if s.Some? && s.value.policy == Allow {
      SameMatches(s.value.read, path);
      SameMatches(s.value.write, path);
    }
  }

  lemma SameMatches(globs: seq<bytes>, path: bytes)
    ensures AnyMatches(NormalGlobs(globs), path) <==> AnyMatches(globs, path)
  {
    var out := NormalGlobs(globs);
    NormalGlobsAre(globs);
    if AnyMatches(out, path) {
      var i :| 0 <= i < |out| && MatchGlob(out[i], path);
      assert out[i] in globs;
      var j :| 0 <= j < |globs| && globs[j] == out[i];
    }
    if AnyMatches(globs, path) {
      var i :| 0 <= i < |globs| && MatchGlob(globs[i], path);
      assert globs[i] in out;
      var j :| 0 <= j < |out| && out[j] == globs[i];
    }
  }

  /** An absent argv policy admits nothing before normalisation and the empty argv after it, so
      the admitted argvs are the same exactly when that cannot show. */
  lemma ArgvPreservedIff(c: Container)
    requires NormalContainer(c).Some?
    ensures (forall argv :: ProcessAdmits(c, argv) ==> ProcessAdmits(NormalContainer(c).value, argv))
    ensures (forall argv :: ProcessAdmits(NormalContainer(c).value, argv) <==> ProcessAdmits(c, argv)) <==>
            c.args.policy != Absent && (c.command.policy == Absent ==> c.args.policy == Exact)
  {
    var c' := NormalContainer(c).value;
    if c.args.policy == Absent || (c.command.policy == Absent && c.args.policy != Exact) {
      var argv := if c.command.policy == Exact then c.command.argv else [];
      assert argv[|argv|..] == [];
      assert ProcessAdmits(c', argv) && !ProcessAdmits(c, argv);
    }
  }

  // ---- order ----

  /** The same container with its mount rules listed in another order. */
  ghost predicate SameUpToRules(a: Container, b: Container) {
    b == a.(mounts := a.mounts.(rules := b.mounts.rules)) && multiset(a.mounts.rules) == multiset(b.mounts.rules)
  }

  lemma RulesForgetOrder(a: Container, b: Container)
    requires SameUpToRules(a, b)
    ensures NormalContainer(a) == NormalContainer(b)
  {
    var p, q := a.mounts.rules, b.mounts.rules;
    SameElements(p, q);
    if RulesAccepted(p) {
      RulesAcceptedPermuted(p, q);
      RulePreorder();
      RulesNoTies(p);
      SortForgetsOrder(p, q, RuleLeq);
    } else if RulesAccepted(q) {
      RulesAcceptedPermuted(q, p);
    }
  }

  ghost predicate SameGrant(s: Option<SecretsPolicy>, t: Option<SecretsPolicy>) {
    if s.None? || t.None? then s == t
    else
      && s.value.policy == t.value.policy
      && (forall g :: g in s.value.read <==> g in t.value.read) &&
            (forall g :: g in s.value.write <==> g in t.value.write)
  }

  lemma GrantsForgetOrder(s: Option<SecretsPolicy>, t: Option<SecretsPolicy>)
    requires SameGrant(s, t)
    ensures NormalSecrets(s) == NormalSecrets(t)
  {
    if s.Some? {
      SameGlobs(s.value.read, t.value.read);
      SameGlobs(s.value.write, t.value.write);
      SortDedupeIsTheSet(s.value.read, t.value.read);
      SortDedupeIsTheSet(s.value.write, t.value.write);
    }
  }

  /** No two different containers share their digest and the rendering of their policies. */
  ghost predicate ToldApart(key: Rendering, cs: seq<Container>) {
    forall i, j | 0 <= i < |cs| && 0 <= j < |cs| && cs[i].digest == cs[j].digest &&
                  key(PoliciesOf(cs[i])) == key(PoliciesOf(cs[j])) ::
      cs[i] == cs[j]
  }

  /** No two containers share digest and policies but differ in their image label. */
  ghost predicate NoLabelTies(cs: seq<Container>) {
    forall i, j | 0 <= i < |cs| && 0 <= j < |cs| && cs[i].digest == cs[j].digest &&
      PoliciesOf(cs[i]) == PoliciesOf(cs[j]) ::
      cs[i].image == cs[j].image
  }

  /** The rendering tells the policies of these containers apart. */
  ghost predicate Separates(key: Rendering, cs: seq<Container>) {
    forall i, j | 0 <= i < |cs| && 0 <= j < |cs| && key(PoliciesOf(cs[i])) == key(PoliciesOf(cs[j])) ::
      PoliciesOf(cs[i]) == PoliciesOf(cs[j])
  }

  lemma TieMeansSameKeys(key: Rendering, a: Container, b: Container)
    ensures Leq(key)(a, b) && Leq(key)(b, a) <==> a.digest == b.digest && key(PoliciesOf(a)) == key(PoliciesOf(b))
  {
    if Leq(key)(a, b) && Leq(key)(b, a) {
      if a.digest != b.digest { LexAntisymmetric(a.digest, b.digest); }
      LexAntisymmetric(key(PoliciesOf(a)), key(PoliciesOf(b)));
    }
    LexTotal(key(PoliciesOf(a)), key(PoliciesOf(b)));
  }

  lemma NoTiesIffToldApart(key: Rendering, cs: seq<Container>)
    ensures NoTies(cs, Leq(key)) <==> ToldApart(key, cs)
  {
    forall i, j | 0 <= i < |cs| && 0 <= j < |cs|
      ensures Leq(key)(cs[i], cs[j]) && Leq(key)(cs[j], cs[i]) <==>
              cs[i].digest == cs[j].digest && key(PoliciesOf(cs[i])) == key(PoliciesOf(cs[j]))
    {
      TieMeansSameKeys(key, cs[i], cs[j]);
    }
  }

  /** sortContainers gives one result for every order of its input exactly when no two different
      containers share digest and rendered policies; where the rendering tells the policies apart,
      that is exactly when no two differ in the image label alone. */
  lemma SortContainersOrderFreeIff(key: Rendering, cs: seq<Container>)
    ensures OrderFree(cs, Leq(key)) <==> ToldApart(key, cs)
    ensures Separates(key, cs) ==> (OrderFree(cs, Leq(key)) <==> NoLabelTies(cs))
  {
    ContainerPreorder(key);
    OrderFreeIffNoTies(cs, Leq(key));
    NoTiesIffToldApart(key, cs);
  }

  ghost function Settled(c: Container): Container {
    var r := NormalContainer(c);
    if r.Some? then r.value else c
  }

  /** The containers of `cs` in another order, each with its rules in another order. */
  ghost predicate Rearranged(cs: seq<Container>, ds: seq<Container>) {
    exists es: seq<Container> | multiset(es) == multiset(ds) :: |es| == |cs| && forall i | 0 <= i < |cs| ::
      SameUpToRules(cs[i], es[i])
  }

  lemma AllNormalPermuted(a: seq<Container>, b: seq<Container>)
    requires multiset(a) == multiset(b) && AllNormal(a)
    ensures AllNormal(b)
  {
    SameElements(a, b);
    forall i | 0 <= i < |b| ensures NormalContainer(b[i]).Some? {
      var c := b[i];
      assert c in a;
    }
  }

  lemma SettledList(cs: seq<Container>)
    requires AllNormal(cs)
    ensures Map(cs, c => Settled(c)) == NormalContainers(cs)
  {
  }

  lemma SameNormalList(cs: seq<Container>, es: seq<Container>)
    requires |es| == |cs| && forall i | 0 <= i < |cs| :: SameUpToRules(cs[i], es[i])
    ensures AllNormal(cs) <==> AllNormal(es)
    ensures AllNormal(cs) ==> NormalContainers(cs) == NormalContainers(es)
  {
    forall i | 0 <= i < |cs|
      ensures NormalContainer(cs[i]) == NormalContainer(es[i])
    {
      RulesForgetOrder(cs[i], es[i]);
    }
  }

  lemma NormalListPermuted(es: seq<Container>, ds: seq<Container>)
    requires multiset(es) == multiset(ds) && AllNormal(es)
    ensures AllNormal(ds) && multiset(NormalContainers(es)) == multiset(NormalContainers(ds))
  {
    AllNormalPermuted(es, ds);
    SettledList(es);
    SettledList(ds);
    MapPermuted(es, ds, c => Settled(c));
  }

  lemma RearrangedNormal(cs: seq<Container>, ds: seq<Container>)
    requires Rearranged(cs, ds)
    ensures AllNormal(cs) <==> AllNormal(ds)
    ensures AllNormal(cs) ==> multiset(NormalContainers(cs)) == multiset(NormalContainers(ds))
  {
    var es: seq<Container> :| multiset(es) == multiset(ds) && |es| == |cs| && forall i | 0 <= i < |cs| ::
      SameUpToRules(cs[i], es[i]);
    SameNormalList(cs, es);
    if AllNormal(es) { NormalListPermuted(es, ds); } else if AllNormal(ds) { AllNormalPermuted(ds, es); }
  }

  lemma ListsForgetOrder(cs: seq<Container>, ds: seq<Container>, key: Rendering)
    requires Rearranged(cs, ds)
    ensures AllNormal(cs) <==> AllNormal(ds)
    ensures AllNormal(cs) ==> forall c :: c in NormalContainers(cs) <==> c in NormalContainers(ds)
    ensures AllNormal(cs) && ToldApart(key, NormalContainers(cs)) ==>
              Sort(NormalContainers(cs), Leq(key)) == Sort(NormalContainers(ds), Leq(key))
  {
    RearrangedNormal(cs, ds);
    if AllNormal(cs) {
      SameElements(NormalContainers(cs), NormalContainers(ds));
      if ToldApart(key, NormalContainers(cs)) {
        ContainerPreorder(key);
        NoTiesIffToldApart(key, NormalContainers(cs));
        SortForgetsOrder(NormalContainers(cs), NormalContainers(ds), Leq(key));
      }
    }
  }

  /** Where the order of the input shows, an order of the containers themselves shows it. */
  lemma ListOrderShows(cs: seq<Container>, key: Rendering) returns (ds: seq<Container>)
    requires AllNormal(cs) && !ToldApart(key, NormalContainers(cs))
    ensures multiset(ds) == multiset(cs) && AllNormal(ds)
    ensures Sort(NormalContainers(ds), Leq(key)) != Sort(NormalContainers(cs), Leq(key))
  {
    SortContainersOrderFreeIff(key, NormalContainers(cs));
    var b: seq<Container> :| multiset(b) == multiset(NormalContainers(cs)) &&
                             Sort(b, Leq(key)) != Sort(NormalContainers(cs), Leq(key));
    SettledList(cs);
    ds := PullBack(cs, c => Settled(c), b);
    AllNormalPermuted(cs, ds);
    SettledList(ds);
  }

  lemma ReorderedIsRearranged(cs: seq<Container>, ds: seq<Container>)
    requires multiset(ds) == multiset(cs)
    ensures Rearranged(cs, ds)
  {
    assert forall i | 0 <= i < |cs| :: SameUpToRules(cs[i], cs[i]);
  }

  // ---- entries and documents in another order ----

  /** The same entry, with its containers, their mount rules and its globs in another order. */
  ghost predicate SameEntry(v: Workload, w: Workload) {
    && v.imageLabel == w.imageLabel && SameGrant(v.secrets, w.secrets)
    && Rearranged(v.initContainers, w.initContainers) && Rearranged(v.containers, w.containers)
  }

  /** Its canonical containers are told apart. */
  ghost predicate EntryToldApart(v: Workload, key: Rendering) {
    && (AllNormal(v.initContainers) ==> ToldApart(key, NormalContainers(v.initContainers)))
    && (AllNormal(v.containers) ==> ToldApart(key, NormalContainers(v.containers)))
  }

  lemma PinnedForgetsOrder(v: Workload, w: Workload, s: Option<SecretsPolicy>, key: Rendering)
    requires SameEntry(v, w) && AllNormal(v.initContainers) && AllNormal(v.containers)
    requires AllNormal(w.initContainers) && AllNormal(w.containers)
    ensures ArgvPinned(Workload(v.imageLabel, NormalContainers(v.initContainers), NormalContainers(v.containers),
            s)) <==>
            ArgvPinned(Workload(w.imageLabel, NormalContainers(w.initContainers), NormalContainers(w.containers), s))
  {
    ListsForgetOrder(v.initContainers, w.initContainers, key);
    ListsForgetOrder(v.containers, w.containers, key);
    PinnedByMembers(Workload(v.imageLabel, NormalContainers(v.initContainers), NormalContainers(v.containers), s));
    PinnedByMembers(Workload(w.imageLabel, NormalContainers(w.initContainers), NormalContainers(w.containers), s));
  }

  ghost predicate HasPlain(v: Workload) {
    AllNormal(v.initContainers) && AllNormal(v.containers) && NormalSecrets(v.secrets).Some?
  }

  /** The canonical entry before its containers are sorted. */
  ghost function Plain(v: Workload): Workload
    requires HasPlain(v)
  {
    Workload(v.imageLabel, NormalContainers(v.initContainers), NormalContainers(v.containers),
      NormalSecrets(v.secrets).value)
  }

  lemma SameForm(v: Workload, w: Workload, strict: bool, key: Rendering)
    requires v.imageLabel == w.imageLabel && NormalSecrets(v.secrets) == NormalSecrets(w.secrets)
    requires HasPlain(v) <==> HasPlain(w)
    requires HasPlain(v) ==> (ArgvPinned(Plain(v)) <==> ArgvPinned(Plain(w)))
    ensures NormalWorkload(v, strict, key).Some? <==> NormalWorkload(w, strict, key).Some?
    ensures HasPlain(v) && Sort(Plain(v).initContainers, Leq(key)) == Sort(Plain(w).initContainers, Leq(key)) &&
            Sort(Plain(v).containers, Leq(key)) == Sort(Plain(w).containers, Leq(key)) ==>
              NormalWorkload(v, strict, key) == NormalWorkload(w, strict, key)
  {
  }

  lemma PlainForgetsOrder(v: Workload, w: Workload, key: Rendering)
    requires SameEntry(v, w)
    ensures NormalSecrets(v.secrets) == NormalSecrets(w.secrets) && (HasPlain(v) <==> HasPlain(w))
    ensures HasPlain(v) ==> (ArgvPinned(Plain(v)) <==> ArgvPinned(Plain(w)))
  {
    GrantsForgetOrder(v.secrets, w.secrets);
    ListsForgetOrder(v.initContainers, w.initContainers, key);
    ListsForgetOrder(v.containers, w.containers, key);
    if HasPlain(v) { PinnedForgetsOrder(v, w, NormalSecrets(v.secrets).value, key); }
  }

  lemma EntriesForgetOrder(v: Workload, w: Workload, strict: bool, key: Rendering)
    requires SameEntry(v, w)
    ensures NormalWorkload(v, strict, key).Some? <==> NormalWorkload(w, strict, key).Some?
    ensures EntryToldApart(v, key) ==> NormalWorkload(v, strict, key) == NormalWorkload(w, strict, key)
  {
    PlainForgetsOrder(v, w, key);
    SameForm(v, w, strict, key);
    if EntryToldApart(v, key) && HasPlain(v) {
      ListsForgetOrder(v.initContainers, w.initContainers, key);
      ListsForgetOrder(v.containers, w.containers, key);
    }
  }

  lemma EntryOrderShows(v: Workload, strict: bool, key: Rendering) returns (w: Workload)
    requires NormalWorkload(v, strict, key).Some? && !EntryToldApart(v, key)
    ensures SameEntry(v, w) && NormalWorkload(w, strict, key) != NormalWorkload(v, strict, key)
  {
    ReorderedIsRearranged(v.initContainers, v.initContainers);
    ReorderedIsRearranged(v.containers, v.containers);
    if !ToldApart(key, NormalContainers(v.initContainers)) {
      var ds := ListOrderShows(v.initContainers, key);
      ReorderedIsRearranged(v.initContainers, ds);
      w := v.(initContainers := ds);
    } else {
      var ds := ListOrderShows(v.containers, key);
      ReorderedIsRearranged(v.containers, ds);
      w := v.(containers := ds);
    }
  }

  ghost predicate SameDocument(vs: Workloads, ws: Workloads) {
    vs.Keys == ws.Keys && forall n | n in vs :: SameEntry(vs[n], ws[n])
  }

  /** The entries that are kept are told apart. */
  ghost predicate AllToldApart(vs: Workloads, key: Rendering) {
    forall n | n in vs && |n| <= MAX_WORKLOAD_NAME_LEN :: EntryToldApart(vs[n], key)
  }

  lemma EntryForgetsOrder(n: bytes, v: Workload, w: Workload, strict: bool, key: Rendering)
    requires SameEntry(v, w)
    ensures EntryOK(n, v, strict, key) <==> EntryOK(n, w, strict, key)
    ensures EntryOK(n, v, strict, key) && |n| <= MAX_WORKLOAD_NAME_LEN && EntryToldApart(v, key) ==>
              Done(v, strict, key) == Done(w, strict, key)
  {
    EntriesForgetOrder(v, w, strict, key);
  }

  lemma SameNormalEntries(vs: Workloads, ws: Workloads, strict: bool, key: Rendering)
    requires vs.Keys == ws.Keys
    requires forall n | n in vs && |n| <= MAX_WORKLOAD_NAME_LEN :: Done(vs[n], strict, key) == Done(ws[n], strict, key)
    ensures NormalEntries(vs, strict, key) == NormalEntries(ws, strict, key)
  {
  }

  lemma EntriesDoneForgetOrder(vs: Workloads, ws: Workloads, strict: bool, key: Rendering)
    requires SameDocument(vs, ws) && AllEntriesOK(vs, strict, key) && AllToldApart(vs, key)
    ensures NormalEntries(vs, strict, key) == NormalEntries(ws, strict, key)
  {
    forall n | n in vs && |n| <= MAX_WORKLOAD_NAME_LEN ensures Done(vs[n], strict, key) == Done(ws[n], strict, key) {
      EntryForgetsOrder(n, vs[n], ws[n], strict, key);
    }
    SameNormalEntries(vs, ws, strict, key);
  }

  lemma SameRefusals(vs: Workloads, ws: Workloads, strict: bool, key: Rendering)
    requires SameDocument(vs, ws)
    ensures AllEntriesOK(vs, strict, key) <==> AllEntriesOK(ws, strict, key)
  {
    forall n | n in vs ensures EntryOK(n, vs[n], strict, key) <==> EntryOK(n, ws[n], strict, key) {
      EntryForgetsOrder(n, vs[n], ws[n], strict, key);
    }
  }

  lemma SameResult(schema: bytes, vs: Workloads, ws: Workloads, strict: bool, key: Rendering)
    requires AllEntriesOK(vs, strict, key) <==> AllEntriesOK(ws, strict, key)
    ensures NormalDocument(schema, vs, strict, key).Some? <==> NormalDocument(schema, ws, strict, key).Some?
    ensures (AllEntriesOK(vs, strict, key) ==> NormalEntries(vs, strict, key) == NormalEntries(ws, strict, key)) ==>
              NormalDocument(schema, vs, strict, key) == NormalDocument(schema, ws, strict, key)
  {
  }

  /** A refusal does not depend on the order of the containers, mount rules and globs of the
      entries, and neither does the canonical form where the containers are told apart. */
  lemma DocumentsForgetOrder(schema: bytes, vs: Workloads, ws: Workloads, strict: bool, key: Rendering)
    requires SameDocument(vs, ws)
    ensures NormalDocument(schema, vs, strict, key).Some? <==> NormalDocument(schema, ws, strict, key).Some?
    ensures AllToldApart(vs, key) ==> NormalDocument(schema, vs, strict, key) == NormalDocument(schema, ws, strict, key)
  {
    SameRefusals(vs, ws, strict, key);
    if AllEntriesOK(vs, strict, key) && AllToldApart(vs, key) { EntriesDoneForgetOrder(vs, ws, strict, key); }
    SameResult(schema, vs, ws, strict, key);
  }

  lemma SameEntryReflexive(v: Workload)
    ensures SameEntry(v, v)
  {
    ReorderedIsRearranged(v.initContainers, v.initContainers);
    ReorderedIsRearranged(v.containers, v.containers);
  }

  lemma ReplacedIsSame(vs: Workloads, n: bytes, w: Workload)
    requires n in vs && SameEntry(vs[n], w)
    ensures SameDocument(vs, vs[n := w])
  {
    assert vs[n := w].Keys == vs.Keys;
    forall m | m in vs ensures SameEntry(vs[m], vs[n := w][m]) { SameEntryReflexive(vs[m]); }
  }

  lemma EntryInDocument(schema: bytes, vs: Workloads, strict: bool, key: Rendering, n: bytes)
    requires NormalDocument(schema, vs, strict, key).Some? && n in vs && |n| <= MAX_WORKLOAD_NAME_LEN
    ensures var out := NormalDocument(schema, vs, strict, key).value;
            n in out && NormalWorkload(vs[n], strict, key) == Some(out[n])
  {
    assert EntryOK(n, vs[n], strict, key);
  }

  lemma DocumentOrderShows(schema: bytes, vs: Workloads, strict: bool, key: Rendering, n: bytes) returns (ws: Workloads)
    requires NormalDocument(schema, vs, strict, key).Some? && n in vs && |n| <= MAX_WORKLOAD_NAME_LEN
    requires !EntryToldApart(vs[n], key)
    ensures SameDocument(vs, ws) && NormalDocument(schema, ws, strict, key) != NormalDocument(schema, vs, strict, key)
  {
    EntryInDocument(schema, vs, strict, key, n);
    var w := EntryOrderShows(vs[n], strict, key);
    ws := vs[n := w];
    ReplacedIsSame(vs, n, w);
    if NormalDocument(schema, ws, strict, key).Some? { EntryInDocument(schema, ws, strict, key, n); }
  }

  ghost predicate DocumentOrderFree(schema: bytes, vs: Workloads, strict: bool, key: Rendering) {
    forall ws | SameDocument(vs, ws) ::
      NormalDocument(schema, ws, strict, key) == NormalDocument(schema, vs, strict, key)
  }

  /** The canonical form of an accepted document is the same for every order of the containers,
      mount rules and globs of its entries if and only if no kept entry has two different canonical
      containers with one digest and one rendering. */
  lemma DocumentOrderFreeIff(schema: bytes, vs: Workloads, strict: bool, key: Rendering)
    requires NormalDocument(schema, vs, strict, key).Some?
    ensures DocumentOrderFree(schema, vs, strict, key) <==> AllToldApart(vs, key)
  {
    if AllToldApart(vs, key) {
      forall ws | SameDocument(vs, ws)
        ensures NormalDocument(schema, ws, strict, key) == NormalDocument(schema, vs, strict, key)
      {
        DocumentsForgetOrder(schema, vs, ws, strict, key);
      }
    } else {
      var n :| n in vs && |n| <= MAX_WORKLOAD_NAME_LEN && !EntryToldApart(vs[n], key);
      var ws := DocumentOrderShows(schema, vs, strict, key, n);
    }
  }
}
