/** Admission does not depend on the order mounts are listed in nor on their diagnostic source,
    so an inventory may sort them (internal/admissionhistory/history.go:38-52). */
module MountOrder {
  import opened Bytes
  import opened Wrappers
  import opened Sorting
  import opened Allowlist
  import opened ContainerKey

  // ---- the order ----

  /** Lists compared element by element, as slices.Compare does. */
  predicate ListLeq(a: seq<bytes>, b: seq<bytes>) {
    a == [] || (b != [] && if a[0] != b[0] then LexLeq(a[0], b[0]) else ListLeq(a[1..], b[1..]))
  }

  lemma {:induction false} ListTotal(a: seq<bytes>, b: seq<bytes>)
    ensures ListLeq(a, b) || ListLeq(b, a)
  {
    if a != [] && b != [] {
      LexTotal(a[0], b[0]);
      ListTotal(a[1..], b[1..]);
    }
  }

  lemma {:induction false} ListTransitive(a: seq<bytes>, b: seq<bytes>, c: seq<bytes>)
    requires ListLeq(a, b) && ListLeq(b, c)
    ensures ListLeq(a, c)
  {
    if a != [] {
      if a[0] == b[0] == c[0] {
        ListTransitive(a[1..], b[1..], c[1..]);
      } else if a[0] != b[0] && b[0] != c[0] {
        LexTransitive(a[0], b[0], c[0]);
        if a[0] == c[0] { LexAntisymmetric(a[0], b[0]); }
      }
    }
  }

  lemma {:induction false} ListAntisymmetric(a: seq<bytes>, b: seq<bytes>)
    requires ListLeq(a, b) && ListLeq(b, a)
    ensures a == b
  {
    if a != [] && b != [] {
      if a[0] != b[0] { LexAntisymmetric(a[0], b[0]); }
      ListAntisymmetric(a[1..], b[1..]);
      assert a == [a[0]] + a[1..] && b == [b[0]] + b[1..];
    }
  }

  function Fields(m: ObservedMount): seq<bytes> {
    [m.destination, m.class_, m.storage, m.hostSourceDigest, if m.readOnly then [1] else [0]]
  }

  function Compare(a: bytes, b: bytes): int {
    if a == b then 0 else if LexLeq(a, b) then -1 else 1
  }

  /** The first comparison that is not a tie. */
  function CompareObservedMounts(a: ObservedMount, b: ObservedMount): int {
    var order :=
      if Compare(a.destination, b.destination) != 0 then Compare(a.destination, b.destination)
      else if Compare(a.class_, b.class_) != 0 then Compare(a.class_, b.class_)
      else if Compare(a.storage, b.storage) != 0 then Compare(a.storage, b.storage)
      else Compare(a.hostSourceDigest, b.hostSourceDigest);
    if order != 0 || a.readOnly == b.readOnly then order else if a.readOnly then 1 else -1
  }

  predicate MountLeq(a: ObservedMount, b: ObservedMount) {
    CompareObservedMounts(a, b) <= 0
  }

  lemma ListStep(x: bytes, a: seq<bytes>, y: bytes, b: seq<bytes>)
    ensures ListLeq([x] + a, [y] + b) <==> if x != y then LexLeq(x, y) else ListLeq(a, b)
  {
    assert ([x] + a)[1..] == a && ([y] + b)[1..] == b;
  }

  /** It is the order of the field lists. */
  lemma ComparesFields(a: ObservedMount, b: ObservedMount)
    ensures MountLeq(a, b) <==> ListLeq(Fields(a), Fields(b))
  {
    var f, g := Fields(a), Fields(b);
    assert f == [f[0]] + ([f[1]] + ([f[2]] + ([f[3]] + ([f[4]] + []))));
    assert g == [g[0]] + ([g[1]] + ([g[2]] + ([g[3]] + ([g[4]] + []))));
    ListStep(f[0], [f[1]] + ([f[2]] + ([f[3]] + ([f[4]] + []))), g[0], [g[1]] + ([g[2]] + ([g[3]] + ([g[4]] + []))));
    ListStep(f[1], [f[2]] + ([f[3]] + ([f[4]] + [])), g[1], [g[2]] + ([g[3]] + ([g[4]] + [])));
    ListStep(f[2], [f[3]] + ([f[4]] + []), g[2], [g[3]] + ([g[4]] + []));
    ListStep(f[3], [f[4]] + [], g[3], [g[4]] + []);
    ListStep(f[4], [], g[4], []);
    assert LexLeq([0], [1]) && !LexLeq([1], [0]) && [0][0] != [1][0];
  }

  lemma MountPreorder()
    ensures Preorder(MountLeq)
  {
    forall a, b ensures MountLeq(a, b) || MountLeq(b, a) {
      ComparesFields(a, b);
      ComparesFields(b, a);
      ListTotal(Fields(a), Fields(b));
    }
    forall a, b, c | MountLeq(a, b) && MountLeq(b, c) ensures MountLeq(a, c) {
      ComparesFields(a, b);
      ComparesFields(b, c);
      ComparesFields(a, c);
      ListTransitive(Fields(a), Fields(b), Fields(c));
    }
  }

  // ---- permutations ----

  lemma {:induction false} ForeignMultiset(mounts: seq<ObservedMount>, m: ObservedMount)
    ensures multiset(Foreign(mounts))[m] == if m.class_ == PLATFORM then 0 else multiset(mounts)[m]
  {
    if mounts != [] {
      ForeignMultiset(mounts[..|mounts| - 1], m);
      assert mounts == mounts[..|mounts| - 1] + [mounts[|mounts| - 1]];
    }
  }

  lemma ForeignPermuted(a: seq<ObservedMount>, b: seq<ObservedMount>)
    requires multiset(a) == multiset(b)
    ensures multiset(Foreign(a)) == multiset(Foreign(b))
  {
    forall m ensures multiset(Foreign(a))[m] == multiset(Foreign(b))[m] {
      ForeignMultiset(a, m);
      ForeignMultiset(b, m);
    }
  }

  lemma {:induction false} DistinctByCount(mounts: seq<ObservedMount>)
    ensures |Destinations(mounts)| <= |mounts|
    ensures |Destinations(mounts)| == |mounts| <==> DistinctDestinations(mounts)
  {
    if mounts != [] {
      var init, m := mounts[..|mounts| - 1], mounts[|mounts| - 1];
      DistinctByCount(init);
      assert mounts == init + [m];
      DestinationsAppend(init, m);
      if m.destination in Destinations(init) {
        assert Destinations(mounts) == Destinations(init);
        var i :| 0 <= i < |init| && init[i].destination == m.destination;
        assert mounts[i].destination == mounts[|mounts| - 1].destination;
      } else {
        assert forall i | 0 <= i < |init| :: init[i].destination in Destinations(init);
      }
    }
  }

  lemma SameDestinations(a: seq<ObservedMount>, b: seq<ObservedMount>)
    requires forall m | m in a :: m in b
    ensures Destinations(a) <= Destinations(b)
  {
    forall x | x in Destinations(a) ensures x in Destinations(b) {
      var i :| 0 <= i < |a| && a[i].destination == x;
      assert a[i] in b;
      var j :| 0 <= j < |b| && b[j] == a[i];
      assert b[j].destination == x;
    }
  }

  lemma DistinctPermutedMounts(a: seq<ObservedMount>, b: seq<ObservedMount>)
    requires multiset(a) == multiset(b) && DistinctDestinations(a)
    ensures DistinctDestinations(b)
  {
    SameElements(a, b);
    SameDestinations(a, b);
    SameDestinations(b, a);
    assert Destinations(a) == Destinations(b);
    DistinctByCount(a);
    DistinctByCount(b);
  }

  lemma CoveredPermuted(h: Hashing, rules: seq<MountRule>, a: seq<ObservedMount>, b: seq<ObservedMount>)
    requires multiset(a) == multiset(b) && Covered(h, rules, a)
    ensures Covered(h, rules, b)
  {
    DistinctPermutedMounts(a, b);
    SameElements(a, b);
    forall i | 0 <= i < |b| ensures AdmitsMount(h, rules, b[i]) {
      var m := b[i];
      assert m in a;
    }
  }

  /** The order of the mounts does not matter to a mount policy. */
  lemma AdmissionIgnoresOrder(h: Hashing, p: MountPolicy, a: seq<ObservedMount>, b: seq<ObservedMount>)
    requires multiset(a) == multiset(b)
    ensures MountsAdmit(h, p, Some(a)) <==> MountsAdmit(h, p, Some(b))
  {
    ForeignPermuted(a, b);
    SameElements(Foreign(a), Foreign(b));
    if Covered(h, p.rules, Foreign(a)) { CoveredPermuted(h, p.rules, Foreign(a), Foreign(b)); }
    if Covered(h, p.rules, Foreign(b)) { CoveredPermuted(h, p.rules, Foreign(b), Foreign(a)); }
  }

  // ---- sources ----

  lemma {:induction false} ForeignErased(a: seq<ObservedMount>, b: seq<ObservedMount>)
    requires SameMounts(a, b)
    ensures SameMounts(Foreign(a), Foreign(b))
  {
    if a != [] {
      assert SameMount(a[|a| - 1], b[|b| - 1]);
      ForeignErased(a[..|a| - 1], b[..|b| - 1]);
    }
  }

  lemma {:induction false} FirstRuleErased(rules: seq<MountRule>, a: ObservedMount, b: ObservedMount)
    requires SameMount(a, b)
    ensures FirstRule(rules, a) == FirstRule(rules, b)
  {
    if rules != [] { FirstRuleErased(rules[1..], a, b); }
  }

  lemma CoveredErased(h: Hashing, rules: seq<MountRule>, a: seq<ObservedMount>, b: seq<ObservedMount>)
    requires SameMounts(a, b) && Covered(h, rules, a)
    ensures Covered(h, rules, b)
  {
    forall i | 0 <= i < |b| ensures AdmitsMount(h, rules, b[i]) {
      assert SameMount(a[i], b[i]) && AdmitsMount(h, rules, a[i]);
      FirstRuleErased(rules, a[i], b[i]);
    }
    forall i, j | 0 <= i < j < |b| ensures b[i].destination != b[j].destination {
      assert SameMount(a[i], b[i]) && SameMount(a[j], b[j]);
    }
  }

  /** Nor does a mount's source. */
  lemma AdmissionIgnoresSource(h: Hashing, p: MountPolicy, a: seq<ObservedMount>, b: seq<ObservedMount>)
    requires SameMounts(a, b)
    ensures MountsAdmit(h, p, Some(a)) <==> MountsAdmit(h, p, Some(b))
  {
    ForeignErased(a, b);
    assert SameMounts(b, a) by {
      forall i | 0 <= i < |b| ensures SameMount(b[i], a[i]) { assert SameMount(a[i], b[i]); }
    }
    ForeignErased(b, a);
    if Covered(h, p.rules, Foreign(a)) { CoveredErased(h, p.rules, Foreign(a), Foreign(b)); }
    if Covered(h, p.rules, Foreign(b)) { CoveredErased(h, p.rules, Foreign(b), Foreign(a)); }
  }
}
