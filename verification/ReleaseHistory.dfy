/** What a report releases, said of the admissions it was taken from: no snapshot, sorting or
    candidate list in between (internal/admissionhistory/history.go:26-75,
    internal/secrets/handler.go:312-354, 429-470). */
module ReleaseHistory {
  import opened Bytes
  import opened Wrappers
  import opened Allowlist
  import opened Matching
  import opened History
  import opened ContainerKey
  import Decision = Explain
  import Release
  import ReleaseGrants

  /** Admission k counts: its image is resolved and it is not one of the platform's own. */
  predicate Counts(ws: Workloads, log: seq<Admission>, k: nat)
    requires k < |log|
  {
    log[k].digest != [] && !IsInjected(ws, Observed(log[k]))
  }

  ghost predicate RanUnder(h: Hashing, ws: Workloads, c: Container, log: seq<Admission>) {
    exists k: nat | k < |log| :: Counts(ws, log, k) && Admits(h, c, AsRunning(Observed(log[k])))
  }

  /** Everything that ever ran in the sandbox is the entry's, and all its main containers did. */
  ghost predicate Fits(h: Hashing, ws: Workloads, w: Workload, log: seq<Admission>) {
    && (forall k: nat | k < |log| && Counts(ws, log, k) :: AdmittedBy(h, Declared(w), AsRunning(Observed(log[k]))))
    && (forall i | 0 <= i < |w.containers| :: RanUnder(h, ws, w.containers[i], log))
  }

  // ---- reported containers and recorded admissions ----

  lemma SameKind(ws: Workloads, x: SandboxContainer, a: Admission)
    requires Canon(x) == Canon(Stored(a))
    ensures x.digest == a.digest && (IsInjected(ws, x) <==> IsInjected(ws, Observed(a)))
  {
    assert Argv(x) == Argv(Stored(a)) == Argv(Observed(a));
  }

  lemma SameVerdict(h: Hashing, c: Container, x: SandboxContainer, a: Admission)
    requires Canon(x) == Canon(Stored(a))
    ensures Admits(h, c, AsRunning(x)) <==> Admits(h, c, AsRunning(Observed(a)))
  {
    SameAdmissionSameVerdict(h, c, x, Stored(a));
    StoredSameVerdict(h, c, a);
  }

  lemma SameAdmitted(h: Hashing, declared: seq<Container>, x: SandboxContainer, a: Admission)
    requires Canon(x) == Canon(Stored(a))
    ensures AdmittedBy(h, declared, AsRunning(x)) <==> AdmittedBy(h, declared, AsRunning(Observed(a)))
  {
    forall i | 0 <= i < |declared|
      ensures Admits(h, declared[i], AsRunning(x)) <==> Admits(h, declared[i], AsRunning(Observed(a)))
    {
      SameVerdict(h, declared[i], x, a);
    }
  }

  lemma CameFrom(log: seq<Admission>, ds: seq<bytes>, cs: seq<SandboxContainer>, p: Printable, j: nat) returns (k: nat)
    requires IsSnapshot(After(log, p).0, ds, cs, p) && j < |cs|
    ensures k < |log| && log[k].digest != [] && Canon(cs[j]) == Canon(Stored(log[k]))
  {
    SnapshotIsSortedSet(log, ds, cs, p);
    assert CanonAll(cs)[j] in CanonAll(cs);
    k :| 0 <= k < |log| && log[k].digest != [] && Canon(Stored(log[k])) == Canon(cs[j]);
  }

  lemma Appears(log: seq<Admission>, ds: seq<bytes>, cs: seq<SandboxContainer>, p: Printable, k: nat) returns (j: nat)
    requires IsSnapshot(After(log, p).0, ds, cs, p) && k < |log| && log[k].digest != []
    ensures j < |cs| && Canon(cs[j]) == Canon(Stored(log[k]))
  {
    SnapshotIsSortedSet(log, ds, cs, p);
    var x := Canon(Stored(log[k]));
    assert x in Admissions(log);
    assert x in CanonAll(cs);
    j :| 0 <= j < |CanonAll(cs)| && CanonAll(cs)[j] == x;
  }

  lemma CandidateCameFrom(ws: Workloads, log: seq<Admission>, ds: seq<bytes>, cs: seq<SandboxContainer>, p: Printable,
                          i: nat)
    returns (j: nat, k: nat)
    requires IsSnapshot(After(log, p).0, ds, cs, p) && i < |Candidates(ws, cs)|
    ensures j < |cs| && Candidates(ws, cs)[i] == AsRunning(cs[j])
    ensures k < |log| && Counts(ws, log, k) && Canon(cs[j]) == Canon(Stored(log[k]))
  {
    var r := Candidates(ws, cs)[i];
    CandidatesAre(ws, cs, r);
    j :| 0 <= j < |cs| && !IsInjected(ws, cs[j]) && AsRunning(cs[j]) == r;
    k := CameFrom(log, ds, cs, p, j);
    SameKind(ws, cs[j], log[k]);
  }

  lemma BecomesCandidate(ws: Workloads, log: seq<Admission>, ds: seq<bytes>, cs: seq<SandboxContainer>, p: Printable,
                         k: nat)
    returns (i: nat, j: nat)
    requires IsSnapshot(After(log, p).0, ds, cs, p) && k < |log| && Counts(ws, log, k)
    ensures j < |cs| && i < |Candidates(ws, cs)| && Candidates(ws, cs)[i] == AsRunning(cs[j])
    ensures Canon(cs[j]) == Canon(Stored(log[k]))
  {
    j := Appears(log, ds, cs, p, k);
    SameKind(ws, cs[j], log[k]);
    var r := AsRunning(cs[j]);
    CandidatesAre(ws, cs, r);
    i :| 0 <= i < |Candidates(ws, cs)| && Candidates(ws, cs)[i] == r;
  }

  lemma AllAdmittedIff(h: Hashing, ws: Workloads, declared: seq<Container>, log: seq<Admission>, ds: seq<bytes>,
                       cs: seq<SandboxContainer>, p: Printable)
    requires IsSnapshot(After(log, p).0, ds, cs, p)
    ensures (forall i | 0 <= i < |Candidates(ws, cs)| :: AdmittedBy(h, declared, Candidates(ws, cs)[i])) <==>
            (forall k: nat | k < |log| && Counts(ws, log, k) :: AdmittedBy(h, declared, AsRunning(Observed(log[k]))))
  {
    var running := Candidates(ws, cs);
    if forall i | 0 <= i < |running| :: AdmittedBy(h, declared, running[i]) {
      forall k: nat | k < |log| && Counts(ws, log, k) ensures AdmittedBy(h, declared, AsRunning(Observed(log[k]))) {
        var i, j := BecomesCandidate(ws, log, ds, cs, p, k);
        assert AdmittedBy(h, declared, running[i]);
        SameAdmitted(h, declared, cs[j], log[k]);
      }
    }
    if forall k: nat | k < |log| && Counts(ws, log, k) :: AdmittedBy(h, declared, AsRunning(Observed(log[k]))) {
      forall i | 0 <= i < |running| ensures AdmittedBy(h, declared, running[i]) {
        var j, k := CandidateCameFrom(ws, log, ds, cs, p, i);
        SameAdmitted(h, declared, cs[j], log[k]);
      }
    }
  }

  lemma RanIff(h: Hashing, ws: Workloads, c: Container, log: seq<Admission>, ds: seq<bytes>, cs: seq<SandboxContainer>,
               p: Printable)
    requires IsSnapshot(After(log, p).0, ds, cs, p)
    ensures AnyRunning(h, Candidates(ws, cs), c) <==> RanUnder(h, ws, c, log)
  {
    var running := Candidates(ws, cs);
    if AnyRunning(h, running, c) {
      var i :| 0 <= i < |running| && Admits(h, c, running[i]);
      var j, k := CandidateCameFrom(ws, log, ds, cs, p, i);
      SameVerdict(h, c, cs[j], log[k]);
    }
    if RanUnder(h, ws, c, log) {
      var k: nat :| k < |log| && Counts(ws, log, k) && Admits(h, c, AsRunning(Observed(log[k])));
      var i, j := BecomesCandidate(ws, log, ds, cs, p, k);
      SameVerdict(h, c, cs[j], log[k]);
    }
  }

  /** Matching a snapshot is fitting the history it was taken from. */
  lemma DescribesIffFits(h: Hashing, ws: Workloads, w: Workload, log: seq<Admission>, ds: seq<bytes>,
                         cs: seq<SandboxContainer>, p: Printable)
    requires IsSnapshot(After(log, p).0, ds, cs, p)
    ensures Describes(h, w, Candidates(ws, cs)) <==> Fits(h, ws, w, log)
  {
    AllAdmittedIff(h, ws, Declared(w), log, ds, cs, p);
    forall i | 0 <= i < |w.containers|
      ensures AnyRunning(h, Candidates(ws, cs), w.containers[i]) <==> RanUnder(h, ws, w.containers[i], log)
    {
      RanIff(h, ws, w.containers[i], log, ds, cs, p);
    }
  }

  // ---- releases ----

  ghost predicate RanSomething(ws: Workloads, log: seq<Admission>) {
    exists k: nat | k < |log| :: Counts(ws, log, k)
  }

  lemma CandidatesIff(ws: Workloads, log: seq<Admission>, ds: seq<bytes>, cs: seq<SandboxContainer>, p: Printable)
    requires IsSnapshot(After(log, p).0, ds, cs, p)
    ensures Candidates(ws, cs) != [] <==> RanSomething(ws, log)
    ensures Candidates(ws, cs) != [] ==> Decision.RequireContainers(cs).Some?
  {
    if Candidates(ws, cs) != [] {
      var j, k := CandidateCameFrom(ws, log, ds, cs, p, 0);
      forall j | 0 <= j < |cs| ensures cs[j].digest != [] {
        var k := CameFrom(log, ds, cs, p, j);
        SameKind(ws, cs[j], log[k]);
      }
    }
    if RanSomething(ws, log) {
      var k: nat :| k < |log| && Counts(ws, log, k);
      var i, j := BecomesCandidate(ws, log, ds, cs, p, k);
    }
  }

  /** The history releases the grant of entry `name`: something ran, that entry and no other fits
      all of it, and it holds the grant with every argv pinned. */
  ghost predicate HistoryReleases(h: Hashing, ws: Workloads, log: seq<Admission>, name: bytes, grant: SecretsPolicy) {
    && RanSomething(ws, log) && name in ws && Fits(h, ws, ws[name], log)
    && (forall n | n in ws && Fits(h, ws, ws[n], log) :: n == name)
    && ws[name].secrets == Some(grant) && ArgvPinned(ws[name])
  }

  /** Every snapshot of a history releases exactly what the history does. */
  lemma ReleasedIffHistory(h: Hashing, ws: Workloads, log: seq<Admission>, ds: seq<bytes>, cs: seq<SandboxContainer>,
                           p: Printable, name: bytes, grant: SecretsPolicy)
    requires IsSnapshot(After(log, p).0, ds, cs, p)
    ensures Decision.Released(h, ws, cs, name, grant) <==> HistoryReleases(h, ws, log, name, grant)
  {
    CandidatesIff(ws, log, ds, cs, p);
    forall n | n in ws ensures Describes(h, ws[n], Candidates(ws, cs)) <==> Fits(h, ws, ws[n], log) {
      DescribesIffFits(h, ws, ws[n], log, ds, cs, p);
    }
  }

  /** In every run, a grant's sandbox had nothing unresolved at the bound host when it was asked, and
      what had ever been admitted there fits the granted entry and no other of an allowlist the
      store held during the request. */
  lemma GrantsFitTheHistory(c: Release.Config, steps: seq<Release.Step>, t: nat) returns (log: seq<Admission>, j: nat)
    requires ReleaseGrants.HasGrant(c, steps, t)
    ensures var s := Release.Exec(c, steps);
            var pc := s.threads[t];
            var place := (pc.host, pc.request.sandboxID);
            && pc.fetched < |s.inventories| && place in s.inventories[pc.fetched] &&
               log == s.inventories[pc.fetched][place]
            && (forall id :: !Pending(log, id))
            && pc.since <= j < |s.policy.history|
            && exists g :: HistoryReleases(c.hashing, s.policy.history[j].0, log, pc.workload, g)
  {
    var i;
    i, j := ReleaseGrants.GrantsRestOnTheirHost(c, steps, t);
    var s := Release.Exec(c, steps);
    var pc := s.threads[t];
    log := s.inventories[pc.fetched][(pc.host, pc.request.sandboxID)];
    var ds :| Release.Snapshots(c, log, ds, pc.report);
    forall id
      ensures !Pending(log, id)
    {
      HistoryIsTheSet(log, c.printable, SandboxContainer([], None, None, None), id);
    }
    var ws := s.policy.history[j].0;
    var g :| Decision.Released(c.hashing, ws, pc.report, pc.workload, g);
    ReleasedIffHistory(c.hashing, ws, log, ds, pc.report, c.printable, pc.workload, g);
  }
}
