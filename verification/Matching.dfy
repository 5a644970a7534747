/** Resolving what a sandbox runs to one workload entry (pkg/allowlist/match.go;
    internal/secrets/handler.go:432-480). */
module Matching {
  import opened Bytes
  import opened Wrappers
  import opened Allowlist

  /** One container an inventory reports. */
  datatype SandboxContainer = SandboxContainer(
    digest: bytes, argv: Option<seq<bytes>>, env: Option<EnvObservation>, mounts: Option<seq<ObservedMount>>)

  function Argv(c: SandboxContainer): seq<bytes> {
    if c.argv.Some? then c.argv.value else []
  }

  function AsRunning(c: SandboxContainer): Running {
    Running(c.digest, Argv(c), c.mounts, c.env)
  }

  // ---- the candidate set ----

  const INJECTED_ENTRYPOINTS: seq<bytes> := [Ascii("get-cert"), Ascii("get-secret"), Ascii("get-volume"), Ascii("/c8s")]

  predicate IsInjected(ws: Workloads, c: SandboxContainer) {
    Argv(c) != [] && AdmitsAnyArgv(ws, c.digest) && Argv(c)[0] in INJECTED_ENTRYPOINTS
  }

  function Candidates(ws: Workloads, reported: seq<SandboxContainer>): seq<Running> {
    if reported == [] then []
    else
      var rest := Candidates(ws, reported[..|reported| - 1]);
      var c := reported[|reported| - 1];
      if IsInjected(ws, c) then rest else rest + [AsRunning(c)]
  }

  method WorkloadContainers(ws: Workloads, reported: seq<SandboxContainer>) returns (out: seq<Running>)
    ensures out == Candidates(ws, reported)
    ensures forall r :: r in out <==>
            exists i | 0 <= i < |reported| :: !IsInjected(ws, reported[i]) && AsRunning(reported[i]) == r
  {
    out := [];
    for n := 0 to |reported|
      invariant out == Candidates(ws, reported[..n])
    {
      assert reported[..n + 1][..n] == reported[..n];
      if IsInjected(ws, reported[n]) {
        continue;
      }
      out := out + [AsRunning(reported[n])];
    }
    assert reported[..|reported|] == reported;
    forall r { CandidatesAre(ws, reported, r); }
  }

  lemma {:induction false} CandidatesAre(ws: Workloads, reported: seq<SandboxContainer>, r: Running)
    ensures r in Candidates(ws, reported) <==>
            exists i | 0 <= i < |reported| :: !IsInjected(ws, reported[i]) && AsRunning(reported[i]) == r
  {
    if reported != [] {
      var init, c := reported[..|reported| - 1], reported[|reported| - 1];
      CandidatesAre(ws, init, r);
      assert forall i | 0 <= i < |init| :: init[i] == reported[i];
    }
  }

  // ---- one entry against the candidates ----

  ghost predicate AdmittedBy(h: Hashing, declared: seq<Container>, r: Running) {
    exists i | 0 <= i < |declared| :: Admits(h, declared[i], r)
  }

  ghost predicate AnyRunning(h: Hashing, running: seq<Running>, c: Container) {
    exists i | 0 <= i < |running| :: Admits(h, c, running[i])
  }

  function Declared(w: Workload): seq<Container> {
    w.containers + w.initContainers
  }

  /** Nothing foreign runs and every main container does. */
  ghost predicate Describes(h: Hashing, w: Workload, running: seq<Running>) {
    && (forall i | 0 <= i < |running| :: AdmittedBy(h, Declared(w), running[i]))
    && (forall i | 0 <= i < |w.containers| :: AnyRunning(h, running, w.containers[i]))
  }

  method ContainerAdmits(h: Hashing, c: Container, r: Running) returns (ok: bool)
    ensures ok <==> Admits(h, c, r)
  {
    if c.digest != r.digest || !ProcessAdmits(c, r.argv) {
      return false;
    }
    ok := MountPolicyAdmits(h, c.mounts, r.mounts);
    return ok && EnvAdmits(h, c.env, r.env);
  }

  method FindAdmitting(h: Hashing, declared: seq<Container>, r: Running) returns (ok: bool)
    ensures ok <==> AdmittedBy(h, declared, r)
  {
    for i := 0 to |declared|
      invariant forall j | 0 <= j < i :: !Admits(h, declared[j], r)
    {
      ok := ContainerAdmits(h, declared[i], r);
      if ok {
        return true;
      }
    }
    return false;
  }

  method FindRunning(h: Hashing, running: seq<Running>, c: Container) returns (ok: bool)
    ensures ok <==> AnyRunning(h, running, c)
  {
    for i := 0 to |running|
      invariant forall j | 0 <= j < i :: !Admits(h, c, running[j])
    {
      ok := ContainerAdmits(h, c, running[i]);
      if ok {
        return true;
      }
    }
    return false;
  }

  datatype EntryDiff = EntryDiff(foreign: seq<Running>, missingMains: seq<Container>)

  ghost function ForeignIn(h: Hashing, declared: seq<Container>, running: seq<Running>): seq<Running> {
    if running == [] then []
    else
      var rest := ForeignIn(h, declared, running[..|running| - 1]);
      var r := running[|running| - 1];
      if AdmittedBy(h, declared, r) then rest else rest + [r]
  }

  ghost function MissingFrom(h: Hashing, running: seq<Running>, mains: seq<Container>): seq<Container> {
    if mains == [] then []
    else
      var rest := MissingFrom(h, running, mains[..|mains| - 1]);
      var c := mains[|mains| - 1];
      if AnyRunning(h, running, c) then rest else rest + [c]
  }

  lemma {:induction false} ForeignEmpty(h: Hashing, declared: seq<Container>, running: seq<Running>)
    ensures ForeignIn(h, declared, running) == [] <==>
            forall i | 0 <= i < |running| :: AdmittedBy(h, declared, running[i])
  {
    if running != [] {
      var init := running[..|running| - 1];
      ForeignEmpty(h, declared, init);
      assert forall i | 0 <= i < |init| :: init[i] == running[i];
    }
  }

  lemma {:induction false} MissingEmpty(h: Hashing, running: seq<Running>, mains: seq<Container>)
    ensures MissingFrom(h, running, mains) == [] <==> forall i | 0 <= i < |mains| :: AnyRunning(h, running, mains[i])
  {
    if mains != [] {
      var init := mains[..|mains| - 1];
      MissingEmpty(h, running, init);
      assert forall i | 0 <= i < |init| :: init[i] == mains[i];
    }
  }

  /** Diff lists everything that keeps an entry from describing the set, and nothing else. */
  method Diff(h: Hashing, w: Workload, running: seq<Running>) returns (d: EntryDiff)
    ensures d.foreign == ForeignIn(h, Declared(w), running) && d.missingMains == MissingFrom(h, running, w.containers)
    ensures d.foreign == [] && d.missingMains == [] <==> Describes(h, w, running)
  {
    var foreign: seq<Running> := [];
    for i := 0 to |running|
      invariant foreign == ForeignIn(h, Declared(w), running[..i])
    {
      assert running[..i + 1][..i] == running[..i];
      var ok := FindAdmitting(h, Declared(w), running[i]);
      if !ok {
        foreign := foreign + [running[i]];
      }
    }
    assert running[..|running|] == running;
    var missing: seq<Container> := [];
    for i := 0 to |w.containers|
      invariant missing == MissingFrom(h, running, w.containers[..i])
    {
      assert w.containers[..i + 1][..i] == w.containers[..i];
      var ok := FindRunning(h, running, w.containers[i]);
      if !ok {
        missing := missing + [w.containers[i]];
      }
    }
    assert w.containers[..|w.containers|] == w.containers;
    d := EntryDiff(foreign, missing);
    ForeignEmpty(h, Declared(w), running);
    MissingEmpty(h, running, w.containers);
  }

  // ---- the single entry ----

  datatype Match = Unique(name: bytes) | NoMatch | Ambiguous

  /** What a match outcome says. */
  ghost predicate Outcome(h: Hashing, ws: Workloads, running: seq<Running>, m: Match) {
    match m
    case Unique(name) =>
      && running != [] && name in ws && Describes(h, ws[name], running)
      && (forall n | n in ws && Describes(h, ws[n], running) :: n == name)
    case NoMatch => running == [] || forall n | n in ws :: !Describes(h, ws[n], running)
    case Ambiguous =>
      running != [] && exists a, b | a in ws && b in ws ::
        a != b && Describes(h, ws[a], running) && Describes(h, ws[b], running)
  }

  /** MatchWorkload, whatever order the map is walked in. */
  method MatchWorkload(h: Hashing, ws: Workloads, running: seq<Running>) returns (m: Match)
    ensures Outcome(h, ws, running, m)
  {
    if running == [] {
      return NoMatch;
    }
    var todo, found := ws.Keys, None;
    while todo != {}
      invariant todo <= ws.Keys
      invariant found.Some? ==> found.value in ws && found.value !in todo && Describes(h, ws[found.value], running)
      invariant forall n | n in ws && n !in todo && Describes(h, ws[n], running) :: found == Some(n)
      decreases |todo|
    {
      var name :| name in todo;
      todo := todo - {name};
      var d := Diff(h, ws[name], running);
      if d.foreign == [] && d.missingMains == [] {
        if found.Some? {
          assert found.value != name;
          return Ambiguous;
        }
        found := Some(name);
      }
    }
    return if found.Some? then Unique(found.value) else NoMatch;
  }

  /** Only one outcome is possible, so the order of the walk cannot show. */
  lemma OutcomeDetermined(h: Hashing, ws: Workloads, running: seq<Running>, m: Match, m': Match)
    requires Outcome(h, ws, running, m) && Outcome(h, ws, running, m')
    ensures m == m'
  {
    assert m.Unique? && m'.Unique? ==> m.name == m'.name;
  }

  /** An entry that does not admit a running container is never the match. */
  lemma ForeignNeverMatches(h: Hashing, ws: Workloads, running: seq<Running>, name: bytes, i: nat)
    requires name in ws && i < |running| && !AdmittedBy(h, Declared(ws[name]), running[i])
    ensures !Outcome(h, ws, running, Unique(name))
  {
  }
}
