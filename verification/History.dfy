/** A sandbox's cumulative inventory (internal/admissionhistory/history.go): the set of distinct
    admissions, whatever order they were recorded in. */
module History {
  import opened Bytes
  import opened Wrappers
  import opened Sorting
  import opened Allowlist
  import opened Matching
  import opened ContainerKey
  import opened MountOrder

  /** One call of Record. */
  datatype Admission = Admission(
    id: bytes, digest: bytes, argv: Option<seq<bytes>>, env: Option<EnvObservation>, mounts: Option<seq<ObservedMount>>)

  function Observed(a: Admission): SandboxContainer {
    SandboxContainer(a.digest, a.argv, a.env, a.mounts)
  }

  function SortedMounts(mounts: Option<seq<ObservedMount>>): Option<seq<ObservedMount>> {
    if mounts.None? then None else Some(Sort(mounts.value, MountLeq))
  }

  /** What is stored for it: the mounts sorted. */
  function Stored(a: Admission): SandboxContainer {
    Observed(a).(mounts := SortedMounts(a.mounts))
  }

  class HistoryObject {
    var byKey: map<bytes, SandboxContainer>
    var unresolved: set<bytes>
    const printable: Printable

    ghost predicate Valid()
      reads this
    {
      Consistent(byKey, printable)
    }

    constructor (printable: Printable)
      ensures Valid() && byKey == map[] && unresolved == {} && this.printable == printable
    {
      byKey, unresolved := map[], {};
      this.printable := printable;
    }

    method Record(a: Admission)
      requires Valid()
      modifies this
      ensures Valid() && (byKey, unresolved) == Recorded(old(byKey), old(unresolved), a, printable)
    {
      if a.digest == [] {
        unresolved := unresolved + {a.id};
        return;
      }
      unresolved := unresolved - {a.id};
      var c := Stored(a);
      var key := BuildKey(c, printable);
      byKey := byKey[key := c];
    }

    /** Sorted digests without repetition and sorted containers; None while some container is
        unresolved.  The map is walked in no particular order. */
    method Snapshot() returns (r: Option<(seq<bytes>, seq<SandboxContainer>)>)
      requires Valid()
      ensures r.None? <==> unresolved != {}
      ensures r.Some? ==> IsSnapshot(byKey, r.value.0, r.value.1, printable)
    {
      if unresolved != {} {
        return None;
      }
      var digests, containers := Walk(byKey);
      SnapshotSorts(byKey, digests, containers, printable);
      return Some((Compact(Sort(digests, LexLeq)), Sort(containers, Leq(printable))));
    }
  }

  /** The values of the map, each key's once, in some order. */
  ghost predicate Lists(byKey: map<bytes, SandboxContainer>, keys: seq<bytes>, containers: seq<SandboxContainer>) {
    && Distinct(keys) && |keys| == |containers|
    && (forall i | 0 <= i < |keys| :: keys[i] in byKey && containers[i] == byKey[keys[i]])
  }

  ghost predicate Walked(byKey: map<bytes, SandboxContainer>, digests: seq<bytes>, containers: seq<SandboxContainer>) {
    && (exists keys | Lists(byKey, keys, containers) :: forall k | k in byKey :: k in keys)
    && |digests| == |containers| && forall i | 0 <= i < |digests| :: digests[i] == containers[i].digest
  }

  method Walk(byKey: map<bytes, SandboxContainer>) returns (digests: seq<bytes>, containers: seq<SandboxContainer>)
    ensures Walked(byKey, digests, containers)
  {
    var todo := byKey.Keys;
    ghost var keys: seq<bytes> := [];
    digests, containers := [], [];
    while todo != {}
      invariant todo <= byKey.Keys && Lists(byKey, keys, containers)
      invariant forall k | k in byKey :: k in keys || k in todo
      invariant forall k | k in keys :: k !in todo
      invariant |digests| == |containers| && forall i | 0 <= i < |digests| :: digests[i] == containers[i].digest
      decreases |todo|
    {
      var k :| k in todo;
      todo := todo - {k};
      digests := digests + [byKey[k].digest];
      ListsGrows(byKey, keys, containers, k);
      containers := containers + [byKey[k]];
      keys := keys + [k];
    }
    assert Lists(byKey, keys, containers);
  }

  lemma ListsGrows(byKey: map<bytes, SandboxContainer>, keys: seq<bytes>, containers: seq<SandboxContainer>, k: bytes)
    requires Lists(byKey, keys, containers) && k in byKey && k !in keys
    ensures Lists(byKey, keys + [k], containers + [byKey[k]])
  {
  }

  ghost function Recorded(byKey: map<bytes, SandboxContainer>, unresolved: set<bytes>, a: Admission, p: Printable)
    : (map<bytes, SandboxContainer>, set<bytes>)
  {
    if a.digest == [] then (byKey, unresolved + {a.id})
    else (byKey[Key(Stored(a), p) := Stored(a)], unresolved - {a.id})
  }

  // ---- the order of a snapshot ----

  predicate ContainerLeq(a: SandboxContainer, b: SandboxContainer, p: Printable) {
    if a.digest != b.digest then LexLeq(a.digest, b.digest)
    else if Argv(a) != Argv(b) then ListLeq(Argv(a), Argv(b))
    else LexLeq(Key(a, p), Key(b, p))
  }

  function Leq(p: Printable): (SandboxContainer, SandboxContainer) -> bool {
    (a, b) => ContainerLeq(a, b, p)
  }

  lemma ContainerTotal(a: SandboxContainer, b: SandboxContainer, p: Printable)
    ensures ContainerLeq(a, b, p) || ContainerLeq(b, a, p)
  {
    LexTotal(a.digest, b.digest);
    ListTotal(Argv(a), Argv(b));
    LexTotal(Key(a, p), Key(b, p));
  }

  lemma ContainerTransitive(a: SandboxContainer, b: SandboxContainer, c: SandboxContainer, p: Printable)
    requires ContainerLeq(a, b, p) && ContainerLeq(b, c, p)
    ensures ContainerLeq(a, c, p)
  {
    if a.digest == b.digest == c.digest {
      if Argv(a) == Argv(b) == Argv(c) {
        LexTransitive(Key(a, p), Key(b, p), Key(c, p));
      } else if Argv(a) != Argv(b) && Argv(b) != Argv(c) {
        ListTransitive(Argv(a), Argv(b), Argv(c));
        if Argv(a) == Argv(c) { ListAntisymmetric(Argv(a), Argv(b)); }
      }
    } else if a.digest != b.digest && b.digest != c.digest {
      LexTransitive(a.digest, b.digest, c.digest);
      if a.digest == c.digest { LexAntisymmetric(a.digest, b.digest); }
    }
  }

  lemma ContainerPreorder(p: Printable)
    ensures Preorder(Leq(p))
  {
    forall a, b ensures Leq(p)(a, b) || Leq(p)(b, a) { ContainerTotal(a, b, p); }
    forall a, b, c | Leq(p)(a, b) && Leq(p)(b, c) ensures Leq(p)(a, c) { ContainerTransitive(a, b, c, p); }
  }

  // ---- what a snapshot is ----

  ghost predicate Consistent(byKey: map<bytes, SandboxContainer>, p: Printable) {
    forall k | k in byKey :: Key(byKey[k], p) == k
  }

  ghost predicate Holds(byKey: map<bytes, SandboxContainer>, c: SandboxContainer) {
    exists k | k in byKey :: byKey[k] == c
  }

  ghost predicate HoldsDigest(byKey: map<bytes, SandboxContainer>, d: bytes) {
    exists k | k in byKey :: byKey[k].digest == d
  }

  ghost predicate IsSnapshot(byKey: map<bytes, SandboxContainer>, digests: seq<bytes>,
                             containers: seq<SandboxContainer>, p: Printable)
  {
    && Sorted(digests, LexLeq) && Distinct(digests) && (forall d :: d in digests <==> HoldsDigest(byKey, d))
    && Sorted(containers, Leq(p)) && Distinct(containers) && (forall c :: c in containers <==> Holds(byKey, c))
  }

  lemma ListedAreHeld(byKey: map<bytes, SandboxContainer>, keys: seq<bytes>, containers: seq<SandboxContainer>,
                      c: SandboxContainer)
    requires Lists(byKey, keys, containers) && forall k | k in byKey :: k in keys
    ensures c in containers <==> Holds(byKey, c)
  {
    if Holds(byKey, c) {
      var k :| k in byKey && byKey[k] == c;
      var i :| 0 <= i < |keys| && keys[i] == k;
      assert containers[i] == c;
    }
  }

  lemma ListedAreDistinct(byKey: map<bytes, SandboxContainer>, keys: seq<bytes>, containers: seq<SandboxContainer>,
                          p: Printable)
    requires Consistent(byKey, p) && Lists(byKey, keys, containers)
    ensures Distinct(containers)
  {
    forall i, j | 0 <= i < j < |containers| ensures containers[i] != containers[j] {
      assert Key(containers[i], p) == keys[i] && Key(containers[j], p) == keys[j];
    }
  }

  lemma ContainersListed(byKey: map<bytes, SandboxContainer>, digests: seq<bytes>, containers: seq<SandboxContainer>,
                         p: Printable)
    requires Consistent(byKey, p) && Walked(byKey, digests, containers)
    ensures Distinct(containers) && forall c :: c in containers <==> Holds(byKey, c)
  {
    var keys :| Lists(byKey, keys, containers) && forall k | k in byKey :: k in keys;
    forall c ensures c in containers <==> Holds(byKey, c) { ListedAreHeld(byKey, keys, containers, c); }
    ListedAreDistinct(byKey, keys, containers, p);
  }

  lemma DigestsListed(byKey: map<bytes, SandboxContainer>, containers: seq<SandboxContainer>, digests: seq<bytes>)
    requires |digests| == |containers| && (forall i | 0 <= i < |digests| :: digests[i] == containers[i].digest)
    requires forall c :: c in containers <==> Holds(byKey, c)
    ensures forall d :: d in digests <==> HoldsDigest(byKey, d)
  {
    forall d ensures d in digests <==> HoldsDigest(byKey, d) {
      if d in digests {
        var i :| 0 <= i < |digests| && digests[i] == d;
        assert containers[i] in containers;
        assert Holds(byKey, containers[i]);
      }
      if HoldsDigest(byKey, d) {
        var k :| k in byKey && byKey[k].digest == d;
        assert Holds(byKey, byKey[k]);
        var i :| 0 <= i < |containers| && containers[i] == byKey[k];
        assert digests[i] == d;
      }
    }
  }

  lemma SnapshotSorts(byKey: map<bytes, SandboxContainer>, digests: seq<bytes>, containers: seq<SandboxContainer>,
                      p: Printable)
    requires Consistent(byKey, p) && Walked(byKey, digests, containers)
    ensures IsSnapshot(byKey, Compact(Sort(digests, LexLeq)), Sort(containers, Leq(p)), p)
  {
    ContainersListed(byKey, digests, containers, p);
    DigestsListed(byKey, containers, digests);
    LexPreorder();
    SortSorted(digests, LexLeq);
    SortPermutes(digests, LexLeq);
    SameElements(digests, Sort(digests, LexLeq));
    CompactSorted(Sort(digests, LexLeq));
    ContainerPreorder(p);
    SortSorted(containers, Leq(p));
    SortPermutes(containers, Leq(p));
    SameElements(containers, Sort(containers, Leq(p)));
    DistinctPermuted(containers, Sort(containers, Leq(p)));
  }

  // ---- admissions up to what the key ignores ----

  function Erased(ms: seq<ObservedMount>): seq<ObservedMount> {
    seq(|ms|, i requires 0 <= i < |ms| => ms[i].(source := []))
  }

  /** The admission itself: no mount source, and no argv is the empty argv. */
  function Canon(c: SandboxContainer): SandboxContainer {
    SandboxContainer(c.digest, Some(Argv(c)), c.env, if c.mounts.None? then None else Some(Erased(c.mounts.value)))
  }

  lemma SameErased(a: seq<ObservedMount>, b: seq<ObservedMount>)
    ensures SameMounts(a, b) <==> Erased(a) == Erased(b)
  {
    if Erased(a) == Erased(b) {
      assert |a| == |b|;
      forall i | 0 <= i < |a| ensures SameMount(a[i], b[i]) { assert Erased(a)[i] == Erased(b)[i]; }
    }
    if SameMounts(a, b) {
      forall i | 0 <= i < |a| ensures Erased(a)[i] == Erased(b)[i] { assert SameMount(a[i], b[i]); }
    }
  }

  lemma CanonIsIdentity(a: SandboxContainer, b: SandboxContainer)
    ensures SameAdmission(a, b) <==> Canon(a) == Canon(b)
  {
    if a.mounts.Some? && b.mounts.Some? { SameErased(a.mounts.value, b.mounts.value); }
  }

  lemma CanonSame(c: SandboxContainer, p: Printable)
    ensures Canon(Canon(c)) == Canon(c) && Key(Canon(c), p) == Key(c, p)
  {
    if c.mounts.Some? { assert Erased(Erased(c.mounts.value)) == Erased(c.mounts.value); }
    CanonIsIdentity(c, Canon(c));
    KeyInjective(c, Canon(c), p);
  }

  lemma SameKeySameAdmission(a: SandboxContainer, b: SandboxContainer, p: Printable)
    ensures Key(a, p) == Key(b, p) <==> Canon(a) == Canon(b)
  {
    KeyInjective(a, b, p);
    CanonIsIdentity(a, b);
  }

  // ---- the order mounts are reported in ----

  lemma TiedMountsAreSame(a: ObservedMount, b: ObservedMount)
    requires MountLeq(a, b) && MountLeq(b, a)
    ensures SameMount(a, b)
  {
    ComparesFields(a, b);
    ComparesFields(b, a);
    ListAntisymmetric(Fields(a), Fields(b));
    assert forall i | 0 <= i < 5 :: Fields(a)[i] == Fields(b)[i];
  }

  function WithoutSource(m: ObservedMount): ObservedMount {
    m.(source := [])
  }

  lemma ErasedPermuted(a: seq<ObservedMount>, b: seq<ObservedMount>)
    requires multiset(a) == multiset(b)
    ensures multiset(Erased(a)) == multiset(Erased(b))
  {
    assert Erased(a) == Map(a, WithoutSource) && Erased(b) == Map(b, WithoutSource);
    MapPermuted(a, b, WithoutSource);
  }

  /** The order ignores the source, and tells apart what the key tells apart. */
  lemma ErasedSorted(ms: seq<ObservedMount>)
    requires Sorted(ms, MountLeq)
    ensures Sorted(Erased(ms), MountLeq) && NoTies(Erased(ms), MountLeq)
  {
    var es := Erased(ms);
    forall i, j | 0 <= i < j < |es| ensures MountLeq(es[i], es[j]) { assert MountLeq(ms[i], ms[j]); }
    forall i, j | 0 <= i < |es| && 0 <= j < |es| && MountLeq(es[i], es[j]) && MountLeq(es[j], es[i])
      ensures es[i] == es[j]
    {
      TiedMountsAreSame(es[i], es[j]);
    }
  }

  lemma SortedErased(ms: seq<ObservedMount>)
    ensures var es := Erased(Sort(ms, MountLeq));
            Sorted(es, MountLeq) && NoTies(es, MountLeq) && multiset(es) == multiset(Erased(ms))
  {
    MountPreorder();
    SortSorted(ms, MountLeq);
    SortPermutes(ms, MountLeq);
    ErasedSorted(Sort(ms, MountLeq));
    ErasedPermuted(Sort(ms, MountLeq), ms);
  }

  /** The same admission with its mounts reported in another order. */
  ghost predicate SameUpToMountOrder(a: Admission, b: Admission) {
    && b == a.(mounts := b.mounts) && (a.mounts.None? <==> b.mounts.None?)
    && (a.mounts.Some? ==> multiset(a.mounts.value) == multiset(b.mounts.value))
  }

  /** Reported in any order, the mounts of an admission are stored under one key. */
  lemma MountOrderForgotten(a: Admission, b: Admission, p: Printable)
    requires SameUpToMountOrder(a, b)
    ensures Key(Stored(a), p) == Key(Stored(b), p)
  {
    if a.mounts.Some? {
      var x, y := a.mounts.value, b.mounts.value;
      SortedErased(x);
      SortedErased(y);
      ErasedPermuted(x, y);
      SortedUnique(Erased(Sort(x, MountLeq)), Erased(Sort(y, MountLeq)), MountLeq);
      assert Canon(Stored(a)) == Canon(Stored(b));
    }
    SameKeySameAdmission(Stored(a), Stored(b), p);
  }

  // ---- runs ----

  /** The fields after these calls of Record. */
  ghost function After(log: seq<Admission>, p: Printable): (map<bytes, SandboxContainer>, set<bytes>) {
    if log == [] then (map[], {})
    else
      var (m, u) := After(log[..|log| - 1], p);
      Recorded(m, u, log[|log| - 1], p)
  }

  /** The distinct admissions among them. */
  ghost function Admissions(log: seq<Admission>): set<SandboxContainer> {
    set i | 0 <= i < |log| && log[i].digest != [] :: Canon(Stored(log[i]))
  }

  /** The container was recorded without a digest and not resolved since. */
  ghost predicate Pending(log: seq<Admission>, id: bytes) {
    exists i | 0 <= i < |log| :: log[i].id == id && log[i].digest == [] &&
      forall j | i < j < |log| :: !(log[j].id == id && log[j].digest != [])
  }

  ghost predicate HoldsAdmission(m: map<bytes, SandboxContainer>, x: SandboxContainer) {
    exists k | k in m :: Canon(m[k]) == x
  }

  lemma UpdateAdds(m: map<bytes, SandboxContainer>, key: bytes, c: SandboxContainer, x: SandboxContainer)
    requires key in m ==> Canon(m[key]) == Canon(c)
    ensures HoldsAdmission(m[key := c], x) <==> HoldsAdmission(m, x) || x == Canon(c)
  {
    var m' := m[key := c];
    assert key in m' && m'[key] == c;
    if HoldsAdmission(m, x) {
      var k :| k in m && Canon(m[k]) == x;
      assert k in m' && (k == key || m'[k] == m[k]);
    }
    if HoldsAdmission(m', x) {
      var k :| k in m' && Canon(m'[k]) == x;
      assert k == key || (k in m && m'[k] == m[k]);
    }
  }

  lemma RecordAdds(m: map<bytes, SandboxContainer>, c: SandboxContainer, x: SandboxContainer, p: Printable)
    requires Consistent(m, p)
    ensures HoldsAdmission(m[Key(c, p) := c], x) <==> HoldsAdmission(m, x) || x == Canon(c)
  {
    var key := Key(c, p);
    if key in m { SameKeySameAdmission(m[key], c, p); }
    UpdateAdds(m, key, c, x);
  }

  lemma AdmissionsAppend(log: seq<Admission>, a: Admission, x: SandboxContainer)
    ensures x in Admissions(log + [a]) <==> x in Admissions(log) || (a.digest != [] && x == Canon(Stored(a)))
  {
    var all := log + [a];
    assert all[|log|] == a;
    if x in Admissions(log) {
      var i :| 0 <= i < |log| && log[i].digest != [] && Canon(Stored(log[i])) == x;
      assert all[i] == log[i];
    }
    if x in Admissions(all) {
      var i :| 0 <= i < |all| && all[i].digest != [] && Canon(Stored(all[i])) == x;
      assert i < |log| ==> all[i] == log[i];
    }
  }

  lemma PendingAppend(log: seq<Admission>, a: Admission, id: bytes)
    ensures Pending(log + [a], id) <==> if a.id == id then a.digest == [] else Pending(log, id)
  {
    var all := log + [a];
    assert all[|log|] == a;
    assert forall i | 0 <= i < |log| :: all[i] == log[i];
    if Pending(log, id) && a.id != id {
      var i :| 0 <= i < |log| && log[i].id == id && log[i].digest == [] &&
        forall j | i < j < |log| :: !(log[j].id == id && log[j].digest != []);
      assert all[i].id == id && all[i].digest == [] && forall j | i < j < |all| ::
             !(all[j].id == id && all[j].digest != []);
    }
  }

  /** History holds exactly the distinct admissions recorded and knows exactly the unresolved
      containers. */
  lemma {:induction false} HistoryIsTheSet(log: seq<Admission>, p: Printable, x: SandboxContainer, id: bytes)
    ensures var (m, u) := After(log, p);
            && Consistent(m, p)
            && (HoldsAdmission(m, x) <==> x in Admissions(log))
            && (id in u <==> Pending(log, id))
  {
    if log != [] {
      var init, a := log[..|log| - 1], log[|log| - 1];
      HistoryIsTheSet(init, p, x, id);
      assert log == init + [a];
      AdmissionsAppend(init, a, x);
      PendingAppend(init, a, id);
      if a.digest != [] { RecordAdds(After(init, p).0, Stored(a), x, p); }
    }
  }

  // ---- snapshots depend on the set alone ----

  function CanonAll(cs: seq<SandboxContainer>): seq<SandboxContainer> {
    seq(|cs|, i requires 0 <= i < |cs| => Canon(cs[i]))
  }

  lemma CanonLeq(a: SandboxContainer, b: SandboxContainer, p: Printable)
    ensures ContainerLeq(Canon(a), Canon(b), p) <==> ContainerLeq(a, b, p)
  {
    CanonSame(a, p);
    CanonSame(b, p);
  }

  lemma TiedIsSame(a: SandboxContainer, b: SandboxContainer, p: Printable)
    requires ContainerLeq(a, b, p) && ContainerLeq(b, a, p)
    ensures Canon(a) == Canon(b)
  {
    if a.digest != b.digest { LexAntisymmetric(a.digest, b.digest); }
    if Argv(a) != Argv(b) { ListAntisymmetric(Argv(a), Argv(b)); }
    LexAntisymmetric(Key(a, p), Key(b, p));
    SameKeySameAdmission(a, b, p);
  }

  lemma CanonAllSorted(cs: seq<SandboxContainer>, p: Printable)
    requires Sorted(cs, Leq(p))
    ensures Sorted(CanonAll(cs), Leq(p)) && NoTies(CanonAll(cs), Leq(p))
  {
    var ds := CanonAll(cs);
    forall i, j | 0 <= i < j < |ds| ensures Leq(p)(ds[i], ds[j]) {
      assert Leq(p)(cs[i], cs[j]);
      CanonLeq(cs[i], cs[j], p);
    }
    forall i, j | 0 <= i < |ds| && 0 <= j < |ds| && Leq(p)(ds[i], ds[j]) && Leq(p)(ds[j], ds[i])
      ensures ds[i] == ds[j]
    {
      TiedIsSame(ds[i], ds[j], p);
      CanonSame(cs[i], p);
      CanonSame(cs[j], p);
    }
  }

  lemma CanonAllDistinct(m: map<bytes, SandboxContainer>, cs: seq<SandboxContainer>, p: Printable)
    requires Consistent(m, p) && Distinct(cs) && forall i | 0 <= i < |cs| :: Holds(m, cs[i])
    ensures Distinct(CanonAll(cs))
  {
    forall i, j | 0 <= i < j < |cs| ensures Canon(cs[i]) != Canon(cs[j]) {
      assert Holds(m, cs[i]) && Holds(m, cs[j]);
      var k :| k in m && m[k] == cs[i];
      var l :| l in m && m[l] == cs[j];
      SameKeySameAdmission(cs[i], cs[j], p);
    }
  }

  lemma CanonAllHolds(m: map<bytes, SandboxContainer>, cs: seq<SandboxContainer>, x: SandboxContainer)
    requires forall c :: c in cs <==> Holds(m, c)
    ensures x in CanonAll(cs) <==> HoldsAdmission(m, x)
  {
    if x in CanonAll(cs) {
      var i :| 0 <= i < |cs| && CanonAll(cs)[i] == x;
      assert cs[i] in cs;
      var k :| k in m && m[k] == cs[i];
      assert Canon(m[k]) == x;
    }
    if HoldsAdmission(m, x) {
      var k :| k in m && Canon(m[k]) == x;
      assert Holds(m, m[k]);
      var i :| 0 <= i < |cs| && cs[i] == m[k];
      assert CanonAll(cs)[i] == x;
    }
  }

  /** A snapshot of the containers lists the admissions recorded, each once, in an order of
      their own. */
  lemma SnapshotIsSortedSet(log: seq<Admission>, ds: seq<bytes>, cs: seq<SandboxContainer>, p: Printable)
    requires IsSnapshot(After(log, p).0, ds, cs, p)
    ensures var all := CanonAll(cs);
            && Sorted(all, Leq(p)) && NoTies(all, Leq(p)) && Distinct(all)
            && forall x :: x in all <==> x in Admissions(log)
  {
    var m := After(log, p).0;
    forall x ensures x in CanonAll(cs) <==> x in Admissions(log) {
      HistoryIsTheSet(log, p, x, []);
      CanonAllHolds(m, cs, x);
    }
    HistoryIsTheSet(log, p, SandboxContainer([], None, None, None), []);
    CanonAllSorted(cs, p);
    forall i | 0 <= i < |cs| ensures Holds(m, cs[i]) { assert cs[i] in cs; }
    CanonAllDistinct(m, cs, p);
  }

  lemma DigestsOfAdmissions(log: seq<Admission>, ds: seq<bytes>, cs: seq<SandboxContainer>, p: Printable, d: bytes)
    requires IsSnapshot(After(log, p).0, ds, cs, p)
    ensures d in ds <==> exists x :: x in Admissions(log) && x.digest == d
  {
    var m := After(log, p).0;
    if d in ds {
      assert HoldsDigest(m, d);
      var k :| k in m && m[k].digest == d;
      HistoryIsTheSet(log, p, Canon(m[k]), []);
      assert HoldsAdmission(m, Canon(m[k]));
    }
    if x :| x in Admissions(log) && x.digest == d {
      HistoryIsTheSet(log, p, x, []);
      var k :| k in m && Canon(m[k]) == x;
      assert HoldsDigest(m, d);
    }
  }

  /** Two histories report the same inventory, mount sources and absent argv aside, exactly when
      they recorded the same set of admissions, in whatever order and however often. */
  lemma SnapshotsAreSets(log: seq<Admission>, log': seq<Admission>, ds: seq<bytes>, ds': seq<bytes>,
                         cs: seq<SandboxContainer>, cs': seq<SandboxContainer>, p: Printable)
    requires IsSnapshot(After(log, p).0, ds, cs, p) && IsSnapshot(After(log', p).0, ds', cs', p)
    ensures CanonAll(cs) == CanonAll(cs') <==> Admissions(log) == Admissions(log')
    ensures Admissions(log) == Admissions(log') ==> ds == ds'
  {
    SnapshotIsSortedSet(log, ds, cs, p);
    SnapshotIsSortedSet(log', ds', cs', p);
    if Admissions(log) == Admissions(log') {
      DistinctSameMultiset(CanonAll(cs), CanonAll(cs'));
      SortedUnique(CanonAll(cs), CanonAll(cs'), Leq(p));
      forall d ensures d in ds <==> d in ds' {
        DigestsOfAdmissions(log, ds, cs, p, d);
        DigestsOfAdmissions(log', ds', cs', p, d);
      }
      DistinctSameMultiset(ds, ds');
      LexNoTies(ds);
      SortedUnique(ds, ds', LexLeq);
    }
    if CanonAll(cs) == CanonAll(cs') {
      assert forall x :: x in Admissions(log) <==> x in Admissions(log');
    }
  }

  // ---- foreign evidence persists ----

  lemma SameAdmissionSameVerdict(h: Hashing, c: Container, a: SandboxContainer, b: SandboxContainer)
    requires Canon(a) == Canon(b)
    ensures Admits(h, c, AsRunning(a)) <==> Admits(h, c, AsRunning(b))
  {
    CanonIsIdentity(a, b);
    if a.mounts.Some? && b.mounts.Some? { AdmissionIgnoresSource(h, c.mounts, a.mounts.value, b.mounts.value); }
  }

  lemma StoredSameVerdict(h: Hashing, c: Container, a: Admission)
    ensures Admits(h, c, AsRunning(Stored(a))) <==> Admits(h, c, AsRunning(Observed(a)))
  {
    if a.mounts.Some? {
      SortPermutes(a.mounts.value, MountLeq);
      AdmissionIgnoresOrder(h, c.mounts, a.mounts.value, Sort(a.mounts.value, MountLeq));
    }
  }

  /** The recorded admission is still in the inventory, as a candidate no entry that refused it
      admits. */
  lemma StillForeign(h: Hashing, ws: Workloads, log: seq<Admission>, i: nat, name: bytes, p: Printable,
                     ds: seq<bytes>, cs: seq<SandboxContainer>) returns (j: nat)
    requires i < |log| && log[i].digest != [] && name in ws && IsSnapshot(After(log, p).0, ds, cs, p)
    requires !IsInjected(ws, Observed(log[i])) && !AdmittedBy(h, Declared(ws[name]), AsRunning(Observed(log[i])))
    ensures j < |cs| && !IsInjected(ws, cs[j]) && !AdmittedBy(h, Declared(ws[name]), AsRunning(cs[j]))
  {
    SnapshotIsSortedSet(log, ds, cs, p);
    var x := Canon(Stored(log[i]));
    assert x in Admissions(log);
    assert x in CanonAll(cs);
    j :| 0 <= j < |CanonAll(cs)| && CanonAll(cs)[j] == x;
    assert cs[j].digest == log[i].digest && Argv(cs[j]) == Argv(Observed(log[i]));
    forall k | 0 <= k < |Declared(ws[name])| ensures !Admits(h, Declared(ws[name])[k], AsRunning(cs[j])) {
      SameAdmissionSameVerdict(h, Declared(ws[name])[k], cs[j], Stored(log[i]));
      StoredSameVerdict(h, Declared(ws[name])[k], log[i]);
    }
  }

  /** Once a container that is not injected and that an entry does not admit is recorded, every
      later snapshot is unavailable or does not resolve to that entry. */
  lemma ForeignEvidencePersists(h: Hashing, ws: Workloads, log: seq<Admission>, i: nat, name: bytes, p: Printable,
                                ds: seq<bytes>, cs: seq<SandboxContainer>)
    requires i < |log| && log[i].digest != [] && name in ws
    requires !IsInjected(ws, Observed(log[i])) && !AdmittedBy(h, Declared(ws[name]), AsRunning(Observed(log[i])))
    requires IsSnapshot(After(log, p).0, ds, cs, p)
    ensures !Outcome(h, ws, Candidates(ws, cs), Unique(name))
  {
    var j := StillForeign(h, ws, log, i, name, p, ds, cs);
    var r, running := AsRunning(cs[j]), Candidates(ws, cs);
    CandidatesAre(ws, cs, r);
    var k :| 0 <= k < |running| && running[k] == r;
    ForeignNeverMatches(h, ws, running, name, k);
  }
}
