/** Runs of the allowlist store: which entry a name holds and what the version counts
    (internal/allowlist/store.go:185-391). */
module AllowlistRuns {
  import opened Bytes
  import opened Wrappers
  import opened Allowlist
  import opened Normalise
  import opened AllowlistStore

  /** A mutation and whether its transaction commits. */
  datatype Act = Act(op: Op, commits: bool)

  ghost function After(start: (Workloads, nat), acts: seq<Act>, key: Rendering): (Workloads, nat) {
    if acts == [] then start
    else
      var last := acts[|acts| - 1];
      Next(After(start, acts[..|acts| - 1], key), last.op, last.commits, key)
  }

  // ---- what a name holds ----

  /** The canonical form under which an entry is stored, None when it is refused. */
  ghost function Storable(name: bytes, w: Workload, key: Rendering): Option<Workload> {
    if NameGrammarOK(name) && |name| <= 63 then NormalWorkload(w, true, key) else None
  }

  function Looked(ws: Workloads, name: bytes): Option<Workload> {
    if name in ws then Some(ws[name]) else None
  }

  /** What a mutation leaves a name with: a put of that name stores the canonical form and a delete removes
      it; a replace gives every name its own entry; a seed gives one to a name that has none. */
  ghost function Left(before: Option<Workload>, op: Op, key: Rendering, name: bytes): Option<Workload> {
    match op
    case PutOne(n, w) => if n == name && Storable(n, w, key).Some? then Storable(n, w, key) else before
    case DeleteOne(n) => if n == name then None else before
    case Replace(ws) => Looked(ws, name)
    case Seed(ws) => if before.Some? then before else Looked(ws, name)
  }

  /** Only what is committed counts. */
  ghost function Held(start: (Workloads, nat), acts: seq<Act>, key: Rendering, name: bytes): Option<Workload> {
    if acts == [] then Looked(start.0, name)
    else
      var before, last := Held(start, acts[..|acts| - 1], key, name), acts[|acts| - 1];
      if last.commits then Left(before, last.op, key, name) else before
  }

  lemma PutStores(n: bytes, w: Workload, key: Rendering)
    ensures EntryOK(n, w, true, key) <==> Storable(n, w, key).Some?
    ensures EntryOK(n, w, true, key) ==> Storable(n, w, key) == Some(Done(w, true, key))
  {
  }

  lemma StepLeaves(doc: (Workloads, nat), act: Act, key: Rendering, name: bytes)
    ensures Looked(Next(doc, act.op, act.commits, key).0, name) ==
            if act.commits then Left(Looked(doc.0, name), act.op, key, name) else Looked(doc.0, name)
  {
    if act.op.PutOne? { PutStores(act.op.name, act.op.workload, key); }
  }

  /** After any mutations each name holds what the last of them that concerned it left. */
  lemma {:induction false} EntriesAre(start: (Workloads, nat), acts: seq<Act>, key: Rendering, name: bytes)
    ensures Looked(After(start, acts, key).0, name) == Held(start, acts, key, name)
  {
    if acts != [] {
      EntriesAre(start, acts[..|acts| - 1], key, name);
      StepLeaves(After(start, acts[..|acts| - 1], key), acts[|acts| - 1], key, name);
    }
  }

  // ---- what the version counts ----

  /** The committed mutation has something to do: an accepted put and a replace always, a delete of a name
      that is held, a seed of a name that is free. */
  ghost predicate Counts(start: (Workloads, nat), acts: seq<Act>, key: Rendering, i: nat)
    requires i < |acts|
  {
    acts[i].commits &&
      match acts[i].op
      case PutOne(n, w) => Storable(n, w, key).Some?
      case DeleteOne(n) => Held(start, acts[..i], key, n).Some?
      case Replace(_) => true
      case Seed(ws) => exists n | n in ws :: Held(start, acts[..i], key, n).None?
  }

  ghost function Counted(start: (Workloads, nat), acts: seq<Act>, key: Rendering, n: nat): nat
    requires n <= |acts|
  {
    if n == 0 then 0 else Counted(start, acts, key, n - 1) + if Counts(start, acts, key, n - 1) then 1 else 0
  }

  lemma StepCounts(start: (Workloads, nat), acts: seq<Act>, key: Rendering, i: nat)
    requires i < |acts|
    ensures var doc := After(start, acts[..i], key);
            Next(doc, acts[i].op, acts[i].commits, key).1 == doc.1 + if Counts(start, acts, key, i) then 1 else 0
  {
    var doc, op := After(start, acts[..i], key), acts[i].op;
    match op
    case PutOne(n, w) => PutStores(n, w, key);
    case DeleteOne(n) => EntriesAre(start, acts[..i], key, n);
    case Replace(_) =>
    case Seed(ws) =>
      forall n | n in ws
        ensures n in doc.0 <==> Held(start, acts[..i], key, n).Some?
      {
        EntriesAre(start, acts[..i], key, n);
      }
      assert Missing(doc.0, ws) != {} <==> exists n | n in ws :: n !in doc.0 by {
        if n :| n in ws && n !in doc.0 { assert n in Missing(doc.0, ws); }
      }
  }

  lemma {:induction false} VersionIs(start: (Workloads, nat), acts: seq<Act>, key: Rendering, n: nat)
    requires n <= |acts|
    ensures After(start, acts[..n], key).1 == start.1 + Counted(start, acts, key, n)
  {
    if n > 0 {
      VersionIs(start, acts, key, n - 1);
      StepCounts(start, acts, key, n - 1);
      assert acts[..n][..n - 1] == acts[..n - 1];
    }
  }

  /** After any mutations the version has grown by the number of those that had something to do. */
  lemma VersionCounts(start: (Workloads, nat), acts: seq<Act>, key: Rendering)
    ensures After(start, acts, key).1 == start.1 + Counted(start, acts, key, |acts|)
  {
    VersionIs(start, acts, key, |acts|);
    assert acts[..|acts|] == acts;
  }
}
