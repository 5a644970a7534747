/** The version-keyed policy cache (internal/secrets/policy.go) under concurrent writers: what it
    returns is a document the store held during the call. */
module CachedPolicy {
  import opened Wrappers
  import opened Allowlist
  import opened Normalise
  import opened AllowlistStore

  type Document = Workloads

  class CachedPolicyObject {
    var version: nat
    var cached: Option<Document>

    constructor ()
      ensures cached == None
    {
      version, cached := 0, None;
    }

    /** `read` is the version read before the lock was taken. */
    method Allowlist(read: nat, store: Store) returns (document: Document)
      modifies this
      ensures (document, cached, version) ==
              if old(Hit(cached, version, read)) then (old(cached.value), old(cached), old(version))
              else (store.entries, Some(store.entries), store.version)
    {
      if cached.Some? && version == read {
        return cached.value;
      }
      var loaded, at := store.LoadAll();
      cached, version := Some(loaded), at;
      return loaded;
    }
  }

  predicate Hit(cached: Option<Document>, version: nat, read: nat) {
    cached.Some? && version == read
  }

  // ---- callers and writers ----

  /** A caller's place: it has read a version, or it holds the lock and is about to load.  `from`
      is the instant its call began. */
  datatype Pc = HasVersion(from: nat, version: nat) | Loading(from: nat)

  datatype Answer = Answer(from: nat, until: nat, document: Document)

  /** `history` lists every document and version the store has had, the present one last. */
  datatype State = State(
    history: seq<(Document, nat)>, cached: Option<Document>, version: nat, holder: Option<nat>,
    threads: map<nat, Pc>, answers: seq<Answer>)

  datatype Step =
    | Mutate(op: Op, commits: bool)
    | ReadVersion(thread: nat)
    | Compare(thread: nat)
    | Load(thread: nat, ok: bool)

  function Now(s: State): nat
    requires s.history != []
  {
    |s.history| - 1
  }

  function Returned(s: State, t: nat, from: nat, document: Document): State
    requires s.history != []
  {
    s.(threads := s.threads - {t}, holder := None, answers := s.answers + [Answer(from, Now(s), document)])
  }

  /** One step; a step that is not enabled changes nothing. */
  ghost function Apply(s: State, step: Step, key: Rendering): (s': State)
    requires s.history != []
    ensures s'.history != []
  {
    match step
    case Mutate(op, commits) => s.(history := s.history + [Next(s.history[Now(s)], op, commits, key)])
    case ReadVersion(t) =>
      if t in s.threads then s else s.(threads := s.threads[t := HasVersion(Now(s), s.history[Now(s)].1)])
    case Compare(t) =>
      if t !in s.threads || !s.threads[t].HasVersion? || s.holder.Some? then s
      else if Hit(s.cached, s.version, s.threads[t].version) then Returned(s, t, s.threads[t].from, s.cached.value)
      else s.(holder := Some(t), threads := s.threads[t := Loading(s.threads[t].from)])
    case Load(t, ok) =>
      if t !in s.threads || !s.threads[t].Loading? || s.holder != Some(t) then s
      else if !ok then s.(threads := s.threads - {t}, holder := None)
      else
        var (document, version) := s.history[Now(s)];
        Returned(s.(cached := Some(document), version := version), t, s.threads[t].from, document)
  }

  ghost function Exec(start: (Document, nat), steps: seq<Step>, key: Rendering): (s: State)
    ensures s.history != []
  {
    if steps == [] then State([start], None, 0, None, map[], [])
    else Apply(Exec(start, steps[..|steps| - 1], key), steps[|steps| - 1], key)
  }

  // ---- invariants ----

  /** Equal versions are equal documents, and versions never go back. */
  ghost predicate Versioned(history: seq<(Document, nat)>) {
    forall i, j | 0 <= i < j < |history| ::
      history[i].1 <= history[j].1 && (history[i].1 == history[j].1 ==> history[i] == history[j])
  }

  ghost predicate WasHeld(history: seq<(Document, nat)>, document: Document, version: nat) {
    (document, version) in history
  }

  ghost predicate DuringCall(history: seq<(Document, nat)>, a: Answer) {
    a.from <= a.until < |history| && exists i | a.from <= i <= a.until :: history[i].0 == a.document
  }

  ghost predicate Inv(s: State) {
    && s.history != [] && Versioned(s.history)
    && (s.cached.Some? ==> WasHeld(s.history, s.cached.value, s.version))
    && (forall t | t in s.threads :: s.threads[t].from < |s.history|)
    && (forall t | t in s.threads && s.threads[t].HasVersion? :: s.history[s.threads[t].from].1 == s.threads[t].version)
    && (forall i | 0 <= i < |s.answers| :: DuringCall(s.history, s.answers[i]))
  }

  lemma VersionedGrows(history: seq<(Document, nat)>, op: Op, commits: bool, key: Rendering)
    requires history != [] && Versioned(history)
    ensures Versioned(history + [Next(history[|history| - 1], op, commits, key)])
  {
    var last := history[|history| - 1];
    VersionTellsDocument(last, op, commits, key);
    var next := Next(last, op, commits, key);
    var longer := history + [next];
    forall i, j | 0 <= i < j < |longer|
      ensures longer[i].1 <= longer[j].1 && (longer[i].1 == longer[j].1 ==> longer[i] == longer[j])
    {
      if j == |history| && i < |history| - 1 { assert history[i].1 <= last.1; }
    }
  }

  lemma WriteKeeps(s: State, op: Op, commits: bool, key: Rendering)
    requires Inv(s)
    ensures Inv(Apply(s, Mutate(op, commits), key))
  {
    VersionedGrows(s.history, op, commits, key);
    var longer := Apply(s, Mutate(op, commits), key).history;
    assert forall i | 0 <= i < |s.history| :: longer[i] == s.history[i];
    forall i | 0 <= i < |s.answers| ensures DuringCall(longer, s.answers[i]) {
      var a := s.answers[i];
      assert DuringCall(s.history, a);
      var k :| a.from <= k <= a.until && s.history[k].0 == a.document;
      assert longer[k].0 == a.document;
    }
  }

  /** Two held documents of one version are one document. */
  lemma SameVersion(history: seq<(Document, nat)>, document: Document, version: nat, i: nat)
    requires Versioned(history) && WasHeld(history, document, version) && i < |history| && history[i].1 == version
    ensures history[i].0 == document
  {
    var k :| 0 <= k < |history| && history[k] == (document, version);
    assert k < i ==> history[k] == history[i];
    assert i < k ==> history[i] == history[k];
  }

  lemma ReturnKeeps(s: State, t: nat, from: nat, document: Document, i: nat)
    requires Inv(s) && from <= i <= Now(s) && s.history[i].0 == document
    ensures Inv(Returned(s, t, from, document))
  {
    var a := Answer(from, Now(s), document);
    assert DuringCall(s.history, a);
  }

  lemma StepKeeps(s: State, step: Step, key: Rendering)
    requires Inv(s)
    ensures Inv(Apply(s, step, key))
  {
    match step
    case Mutate(op, commits) => WriteKeeps(s, op, commits, key);
    case ReadVersion(t) =>
    case Compare(t) =>
      if t in s.threads && s.threads[t].HasVersion? && s.holder.None? &&
        Hit(s.cached, s.version, s.threads[t].version) {
        var from := s.threads[t].from;
        SameVersion(s.history, s.cached.value, s.version, from);
        ReturnKeeps(s, t, from, s.cached.value, from);
      }
    case Load(t, ok) =>
      if t in s.threads && s.threads[t].Loading? && s.holder == Some(t) && ok {
        var (document, version) := s.history[Now(s)];
        var loaded := s.(cached := Some(document), version := version);
        assert WasHeld(s.history, document, version);
        ReturnKeeps(loaded, t, s.threads[t].from, document, Now(s));
      }
  }

  /** What a step does to its caller: a call begins in the present, goes on, or ends with at most
      one answer, which spans the call. */
  ghost predicate CallMoves(s: State, s': State, t: nat) {
    && s.history != [] && s.history <= s'.history
    && (t in s'.threads ==> s'.threads[t].from == if t in s.threads then s.threads[t].from else Now(s))
    && (t in s.threads && t !in s'.threads ==>
          || s'.answers == s.answers
          || exists d :: s'.answers == s.answers + [Answer(s.threads[t].from, Now(s), d)])
  }

  lemma StepMoves(s: State, step: Step, key: Rendering, t: nat)
    requires s.history != []
    ensures var s' := Apply(s, step, key);
            CallMoves(s, s', t) && (step.Mutate? || step.thread != t ==> (t in s'.threads <==> t in s.threads))
  {
    var s' := Apply(s, step, key);
    if !step.Mutate? && step.thread == t && t in s.threads && t !in s'.threads && s'.answers != s.answers {
      var a := s'.answers[|s.answers|];
      assert s'.answers == s.answers + [Answer(s.threads[t].from, Now(s), a.document)];
    }
  }

  lemma {:induction false} InvAlways(start: (Document, nat), steps: seq<Step>, key: Rendering)
    ensures Inv(Exec(start, steps, key))
  {
    if steps != [] {
      InvAlways(start, steps[..|steps| - 1], key);
      StepKeeps(Exec(start, steps[..|steps| - 1], key), steps[|steps| - 1], key);
    }
  }

  /** In every interleaving of callers and writers, each document returned is one the store held
      at some instant between the start and the end of that call. */
  lemma AnswersAreCurrent(start: (Document, nat), steps: seq<Step>, key: Rendering)
    ensures var s := Exec(start, steps, key);
            forall i | 0 <= i < |s.answers| :: DuringCall(s.history, s.answers[i])
  {
    InvAlways(start, steps, key);
  }

  /** Over every run of the store, equal versions are equal documents. */
  lemma VersionsDetermineDocuments(start: (Document, nat), steps: seq<Step>, key: Rendering, i: nat, j: nat)
    requires i < |Exec(start, steps, key).history| && j < |Exec(start, steps, key).history|
    ensures var h := Exec(start, steps, key).history; h[i].1 == h[j].1 ==> h[i].0 == h[j].0
  {
    InvAlways(start, steps, key);
  }
}
