/** What an exact mount policy and a host-independent entry pin down (pkg/allowlist/match.go,
    constraints.go, mount_rule.go). */
module HostIndependence {
  import opened Bytes
  import opened Sets
  import opened Wrappers
  import opened Allowlist
  import opened Paths

  ghost predicate DistinctRules(rules: seq<MountRule>) {
    forall i, j | 0 <= i < j < |rules| :: rules[i].destination != rules[j].destination
  }

  /** The mount is where and what the rule says: storage in memory or encrypted, or the named host
      path with its read-only flag. */
  predicate Fits(h: Hashing, r: MountRule, m: ObservedMount) {
    && m.destination == r.destination && m.class_ == r.kind
    && (|| ((r.kind == Ascii("emptyDir") || r.kind == Ascii("data")) &&
            (m.storage == Ascii("memory") || m.storage == Ascii("encrypted")))
        || (&& r.kind == Ascii("host") && IsClean(r.source) && 0 !in r.source
            && m.hostSourceDigest == h.source(r.source) && m.readOnly == r.readOnly))
  }

  lemma FitsIff(h: Hashing, r: MountRule, m: ObservedMount)
    ensures Fits(h, r, m) <==> Names(r, m) && RuleAdmits(h, r, m)
  {
    assert |EMPTY_DIR| == 8 && |HOST| == 4 && DATA[0] == 100 && HOST[0] == 104;
  }

  predicate Ruled(h: Hashing, rules: seq<MountRule>, m: ObservedMount) {
    exists j | 0 <= j < |rules| :: Fits(h, rules[j], m)
  }

  predicate Used(h: Hashing, r: MountRule, foreign: seq<ObservedMount>) {
    exists i | 0 <= i < |foreign| :: Fits(h, r, foreign[i])
  }

  predicate RuledOnce(h: Hashing, rules: seq<MountRule>, m: ObservedMount) {
    forall j, j' | 0 <= j < j' < |rules| :: !(Fits(h, rules[j], m) && Fits(h, rules[j'], m))
  }

  predicate UsedOnce(h: Hashing, r: MountRule, foreign: seq<ObservedMount>) {
    forall i, i' | 0 <= i < i' < |foreign| :: !(Fits(h, r, foreign[i]) && Fits(h, r, foreign[i']))
  }

  /** Each mount has its rule and each rule its mount, one to one. */
  ghost predicate Bijection(h: Hashing, rules: seq<MountRule>, foreign: seq<ObservedMount>) {
    && (forall i | 0 <= i < |foreign| :: Ruled(h, rules, foreign[i]) && RuledOnce(h, rules, foreign[i]))
    && (forall j | 0 <= j < |rules| :: Used(h, rules[j], foreign) && UsedOnce(h, rules[j], foreign))
  }

  ghost function RuleDestinations(rules: seq<MountRule>): set<bytes> {
    set i | 0 <= i < |rules| :: rules[i].destination
  }

  lemma RuleDestinationsAppend(rules: seq<MountRule>, r: MountRule)
    ensures RuleDestinations(rules + [r]) == RuleDestinations(rules) + {r.destination}
  {
    var all := rules + [r];
    assert all[|rules|] == r;
    forall x ensures x in RuleDestinations(all) <==> x in RuleDestinations(rules) || x == r.destination {
      if x in RuleDestinations(rules) {
        var i :| 0 <= i < |rules| && rules[i].destination == x;
        assert all[i].destination == x;
      }
    }
  }

  lemma {:induction false} RuleDestinationsCount(rules: seq<MountRule>)
    ensures |RuleDestinations(rules)| <= |rules|
    ensures |RuleDestinations(rules)| == |rules| <==> DistinctRules(rules)
  {
    if rules != [] {
      var init, r := rules[..|rules| - 1], rules[|rules| - 1];
      RuleDestinationsCount(init);
      assert rules == init + [r];
      RuleDestinationsAppend(init, r);
      if r.destination in RuleDestinations(init) {
        assert RuleDestinations(rules) == RuleDestinations(init);
        var i :| 0 <= i < |init| && init[i].destination == r.destination;
        assert rules[i].destination == rules[|rules| - 1].destination;
      } else {
        assert forall i | 0 <= i < |init| :: init[i].destination in RuleDestinations(init);
        if DistinctRules(init) { assert DistinctRules(rules); }
        if DistinctRules(rules) { assert DistinctRules(init); }
      }
    }
  }

  lemma OnlyRule(h: Hashing, rules: seq<MountRule>, m: ObservedMount, j: nat)
    requires DistinctRules(rules) && j < |rules| && Names(rules[j], m)
    ensures FirstRule(rules, m) == j
  {
  }

  /** A covering as long as the rule list uses every rule, and no destination is ruled twice. */
  lemma CoveringIsFull(h: Hashing, rules: seq<MountRule>, foreign: seq<ObservedMount>)
    requires Covered(h, rules, foreign) && |foreign| == |rules|
    ensures DistinctRules(rules) && Destinations(foreign) == RuleDestinations(rules)
  {
    forall x | x in Destinations(foreign) ensures x in RuleDestinations(rules) {
      var i :| 0 <= i < |foreign| && foreign[i].destination == x;
      assert AdmitsMount(h, rules, foreign[i]);
      var j := FirstRule(rules, foreign[i]);
      assert rules[j].destination == x;
    }
    DestinationsCount(foreign);
    RuleDestinationsCount(rules);
    SubsetOfSameSize(Destinations(foreign), RuleDestinations(rules));
  }

  lemma MountOfRule(h: Hashing, rules: seq<MountRule>, foreign: seq<ObservedMount>, j: nat) returns (i: nat)
    requires Covered(h, rules, foreign) && |foreign| == |rules| && j < |rules|
    ensures i < |foreign| && Fits(h, rules[j], foreign[i])
  {
    CoveringIsFull(h, rules, foreign);
    assert rules[j].destination in RuleDestinations(rules);
    assert rules[j].destination in Destinations(foreign);
    i :| 0 <= i < |foreign| && foreign[i].destination == rules[j].destination;
    assert AdmitsMount(h, rules, foreign[i]);
    assert FirstRule(rules, foreign[i]) == j;
    FitsIff(h, rules[j], foreign[i]);
  }

  lemma CoveringIsBijection(h: Hashing, rules: seq<MountRule>, foreign: seq<ObservedMount>)
    requires Covered(h, rules, foreign) && |foreign| == |rules|
    ensures Bijection(h, rules, foreign)
  {
    CoveringIsFull(h, rules, foreign);
    forall i | 0 <= i < |foreign| ensures Ruled(h, rules, foreign[i]) && RuledOnce(h, rules, foreign[i]) {
      assert AdmitsMount(h, rules, foreign[i]);
      FitsIff(h, rules[FirstRule(rules, foreign[i])], foreign[i]);
    }
    forall j | 0 <= j < |rules| ensures Used(h, rules[j], foreign) && UsedOnce(h, rules[j], foreign) {
      var i := MountOfRule(h, rules, foreign, j);
    }
  }

  lemma BijectionAdmits(h: Hashing, rules: seq<MountRule>, foreign: seq<ObservedMount>, i: nat) returns (j: nat)
    requires DistinctRules(rules) && Bijection(h, rules, foreign) && i < |foreign|
    ensures j < |rules| && Fits(h, rules[j], foreign[i]) && AdmitsMount(h, rules, foreign[i])
  {
    assert Ruled(h, rules, foreign[i]);
    j :| 0 <= j < |rules| && Fits(h, rules[j], foreign[i]);
    FitsIff(h, rules[j], foreign[i]);
    OnlyRule(h, rules, foreign[i], j);
  }

  lemma BijectionDistinct(h: Hashing, rules: seq<MountRule>, foreign: seq<ObservedMount>)
    requires DistinctRules(rules) && Bijection(h, rules, foreign)
    ensures DistinctDestinations(foreign)
  {
    forall i, i' | 0 <= i < i' < |foreign| ensures foreign[i].destination != foreign[i'].destination {
      var j := BijectionAdmits(h, rules, foreign, i);
      var j' := BijectionAdmits(h, rules, foreign, i');
      assert UsedOnce(h, rules[j], foreign);
    }
  }

  lemma BijectionDestinations(h: Hashing, rules: seq<MountRule>, foreign: seq<ObservedMount>)
    requires DistinctRules(rules) && Bijection(h, rules, foreign)
    ensures Destinations(foreign) == RuleDestinations(rules)
  {
    forall x | x in RuleDestinations(rules) ensures x in Destinations(foreign) {
      var j :| 0 <= j < |rules| && rules[j].destination == x;
      assert Used(h, rules[j], foreign);
      var i :| 0 <= i < |foreign| && Fits(h, rules[j], foreign[i]);
      assert foreign[i].destination == x;
    }
    forall x | x in Destinations(foreign) ensures x in RuleDestinations(rules) {
      var i :| 0 <= i < |foreign| && foreign[i].destination == x;
      var j := BijectionAdmits(h, rules, foreign, i);
      assert rules[j].destination == x;
    }
  }

  lemma BijectionIsCovering(h: Hashing, rules: seq<MountRule>, foreign: seq<ObservedMount>)
    requires DistinctRules(rules) && Bijection(h, rules, foreign)
    ensures Covered(h, rules, foreign) && |foreign| == |rules|
  {
    forall i | 0 <= i < |foreign| ensures AdmitsMount(h, rules, foreign[i]) {
      var j := BijectionAdmits(h, rules, foreign, i);
    }
    BijectionDistinct(h, rules, foreign);
    BijectionDestinations(h, rules, foreign);
    DestinationsCount(foreign);
    RuleDestinationsCount(rules);
  }

  /** With rules as normalisation leaves them, an exact policy admits exactly when the
      non-platform mounts are in bijection with its rules. */
  lemma ExactIsBijection(h: Hashing, rules: seq<MountRule>, mounts: seq<ObservedMount>)
    requires DistinctRules(rules)
    ensures MountsAdmit(h, MountPolicy(Exact, rules), Some(mounts)) <==> Bijection(h, rules, Foreign(mounts))
  {
    var foreign := Foreign(mounts);
    if Covered(h, rules, foreign) && |foreign| == |rules| { CoveringIsBijection(h, rules, foreign); }
    if Bijection(h, rules, foreign) { BijectionIsCovering(h, rules, foreign); }
  }

  // ---- two launches of one host-independent container ----

  /** Where the non-platform mounts are and what they are. */
  ghost function Places(mounts: seq<ObservedMount>): set<(bytes, bytes)> {
    set i | 0 <= i < |Foreign(mounts)| :: (Foreign(mounts)[i].destination, Foreign(mounts)[i].class_)
  }

  ghost function RulePlaces(rules: seq<MountRule>): set<(bytes, bytes)> {
    set j | 0 <= j < |rules| :: (rules[j].destination, rules[j].kind)
  }

  lemma AdmittedPlaces(h: Hashing, rules: seq<MountRule>, mounts: seq<ObservedMount>)
    requires ExactAdmits(h, rules, mounts)
    ensures Places(mounts) == RulePlaces(rules)
  {
    var foreign := Foreign(mounts);
    forall i | 0 <= i < |foreign| ensures (foreign[i].destination, foreign[i].class_) in RulePlaces(rules) {
      assert AdmitsMount(h, rules, foreign[i]);
      var j := FirstRule(rules, foreign[i]);
      assert (rules[j].destination, rules[j].kind) == (foreign[i].destination, foreign[i].class_);
    }
    forall j | 0 <= j < |rules| ensures (rules[j].destination, rules[j].kind) in Places(mounts) {
      var i := MountOfRule(h, rules, foreign, j);
      assert (rules[j].destination, rules[j].kind) == (foreign[i].destination, foreign[i].class_);
    }
  }

  lemma ClassesDiffer()
    ensures HOST != PLATFORM && HOST != EMPTY_DIR && HOST != DATA
  {
    assert |PLATFORM| == 8 && |HOST| == 4 && |EMPTY_DIR| == 8 && HOST[0] == 104 && DATA[0] == 100;
  }

  lemma {:induction false} ForeignHas(mounts: seq<ObservedMount>, m: ObservedMount)
    requires m in mounts && m.class_ != PLATFORM
    ensures m in Foreign(mounts)
  {
    var init := mounts[..|mounts| - 1];
    assert mounts == init + [mounts[|mounts| - 1]];
    if m in init { ForeignHas(init, m); }
  }

  lemma ExactHasNoHostMount(h: Hashing, rules: seq<MountRule>, mounts: seq<ObservedMount>)
    requires ExactAdmits(h, rules, mounts) && forall i | 0 <= i < |rules| :: RuleHostIndependent(rules[i])
    ensures forall m | m in mounts :: m.class_ != HOST
  {
    ClassesDiffer();
    forall m | m in mounts ensures m.class_ != HOST {
      if m.class_ != PLATFORM {
        ForeignHas(mounts, m);
        var foreign := Foreign(mounts);
        var i :| 0 <= i < |foreign| && foreign[i] == m;
        assert AdmitsMount(h, rules, foreign[i]);
        assert RuleHostIndependent(rules[FirstRule(rules, m)]);
      }
    }
  }

  lemma NoHostMount(h: Hashing, p: MountPolicy, mounts: Option<seq<ObservedMount>>)
    requires MountsAdmit(h, p, mounts) && p.policy in {Absent, Deny, Exact}
    requires forall i | 0 <= i < |p.rules| :: RuleHostIndependent(p.rules[i])
    ensures mounts.Some? && forall m | m in mounts.value :: m.class_ != HOST
  {
    ClassesDiffer();
    NoForeign(mounts.value);
    if p.policy == Exact { ExactHasNoHostMount(h, p.rules, mounts.value); }
  }

  lemma SamePlaces(h: Hashing, p: MountPolicy, a: Option<seq<ObservedMount>>, b: Option<seq<ObservedMount>>)
    requires MountsAdmit(h, p, a) && MountsAdmit(h, p, b) && p.policy in {Absent, Deny, Exact}
    ensures a.Some? && b.Some? && Places(a.value) == Places(b.value)
  {
    if p.policy == Exact {
      AdmittedPlaces(h, p.rules, a.value);
      AdmittedPlaces(h, p.rules, b.value);
    }
  }

  lemma SameArgv(c: Container, a: seq<bytes>, b: seq<bytes>)
    requires ArgvHostIndependent(c.command.policy) && ArgvHostIndependent(c.args.policy)
    requires ProcessAdmits(c, a) && ProcessAdmits(c, b)
    ensures a == b
  {
    if c.command.policy == Exact {
      assert a == c.command.argv + a[|c.command.argv|..];
      assert b == c.command.argv + b[|c.command.argv|..];
    }
  }

  /** Any two launches that one container of a host-independent entry admits agree on the
      digest, the argv, the environment and where every non-platform mount is and of what
      class, and neither has a host mount. */
  lemma LaunchesAgree(h: Hashing, w: Workload, k: nat, a: Running, b: Running)
    requires HostIndependent(w) && k < |AllContainers(w)|
    requires Admits(h, AllContainers(w)[k], a) && Admits(h, AllContainers(w)[k], b)
    ensures a.digest == b.digest && a.argv == b.argv && a.env == b.env && a.env.Some?
    ensures a.mounts.Some? && b.mounts.Some? && Places(a.mounts.value) == Places(b.mounts.value)
    ensures forall m | m in a.mounts.value + b.mounts.value :: m.class_ != HOST
  {
    var c := AllContainers(w)[k];
    assert ContainerHostIndependent(c);
    SameArgv(c, a.argv, b.argv);
    SamePlaces(h, c.mounts, a.mounts, b.mounts);
    NoHostMount(h, c.mounts, a.mounts);
    NoHostMount(h, c.mounts, b.mounts);
  }
}
