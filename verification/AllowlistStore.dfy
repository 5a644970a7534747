/** The allowlist tables (internal/allowlist/store.go): entries, a digest index and a version. */
module AllowlistStore {
  import opened Bytes
  import opened Wrappers
  import opened Allowlist
  import opened Normalise

  datatype Role = Init | Main

  datatype Row = Row(digest: bytes, name: bytes, role: Role)

  /** What a committed transaction leaves. */
  datatype Tables = Tables(entries: Workloads, index: set<Row>, version: nat)

  function Part(w: Workload, role: Role): seq<Container> {
    if role == Init then w.initContainers else w.containers
  }

  predicate HasDigest(w: Workload, digest: bytes, role: Role) {
    exists i | 0 <= i < |Part(w, role)| :: Part(w, role)[i].digest == digest
  }

  /** The index is the projection of the entries. */
  ghost predicate Indexed(entries: Workloads, index: set<Row>) {
    forall row: Row :: row in index <==> row.name in entries && HasDigest(entries[row.name], row.digest, row.role)
  }

  /** A digest is indexed as an init container's exactly when an init container of the entry has it, and
      as a main one's when a main one has. */
  lemma RowsAre(entries: Workloads, index: set<Row>, digest: bytes, name: bytes)
    requires Indexed(entries, index)
    ensures Row(digest, name, Init) in index <==>
            name in entries && exists c :: c in entries[name].initContainers && c.digest == digest
    ensures Row(digest, name, Main) in index <==>
            name in entries && exists c :: c in entries[name].containers && c.digest == digest
  {
    if name in entries {
      HasDigestIff(entries[name], digest, Init);
      HasDigestIff(entries[name], digest, Main);
    }
  }

  lemma HasDigestIff(w: Workload, digest: bytes, role: Role)
    ensures HasDigest(w, digest, role) <==> exists c :: c in Part(w, role) && c.digest == digest
  {
    var part := Part(w, role);
    if c :| c in part && c.digest == digest {
      var i :| 0 <= i < |part| && part[i] == c;
    }
  }

  // ---- what each operation does to the entries ----

  /** Entries already there stay. */
  function Seeded(entries: Workloads, ws: Workloads): Workloads {
    ws + entries
  }

  function Missing(entries: Workloads, ws: Workloads): set<bytes> {
    set n | n in ws && n !in entries
  }

  datatype Op =
    | Seed(workloads: Workloads)
    | PutOne(name: bytes, workload: Workload)
    | DeleteOne(name: bytes)
    | Replace(workloads: Workloads)

  /** The new entries and whether the version is bumped; None when nothing is committed. */
  ghost function Effect(entries: Workloads, op: Op, key: Rendering): Option<(Workloads, bool)> {
    match op
    case Seed(ws) => if ws == map[] then None else Some((Seeded(entries, ws), Missing(entries, ws) != {}))
    case PutOne(n, w) => if EntryOK(n, w, true, key) then Some((entries[n := Done(w, true, key)], true)) else None
    case DeleteOne(n) => if n in entries then Some((entries - {n}, true)) else None
    case Replace(ws) => Some((ws, true))
  }

  /** The store: a lock, the tables, and the count of committed mutations. */
  class Store {
    var entries: Workloads
    var index: set<Row>
    var version: nat
    var gen: nat

    ghost function View(): Tables
      reads this
    {
      Tables(entries, index, version)
    }

    ghost predicate Valid()
      reads this
    {
      Indexed(entries, index)
    }

    constructor ()
      ensures Valid() && View() == Tables(map[], {}, 1) && gen == 0
    {
      entries, index, version, gen := map[], {}, 1, 0;
    }

    /** `commits` is the outcome of the commit; on failure the transaction is rolled back. */
    method CommitTx(newEntries: Workloads, newIndex: set<Row>, bump: bool, commits: bool)
      modifies this
      ensures if commits then View() == Tables(newEntries, newIndex, old(version) + if bump then 1 else 0) &&
              gen == old(gen) + 1
              else View() == old(View()) && gen == old(gen)
    {
      if !commits {
        return;
      }
      entries, index := newEntries, newIndex;
      if bump {
        version := version + 1;
      }
      gen := gen + 1;
    }

    method SeedWorkloads(ws: Workloads, commits: bool, key: Rendering) returns (added: nat)
      requires Valid()
      modifies this
      ensures Valid() && Applied(old(View()), View(), Seed(ws), commits, key)
      ensures gen == old(gen) ==> View() == old(View())
      ensures added == |Missing(old(entries), ws)|
    {
      if ws == map[] {
        return 0;
      }
      var newEntries, newIndex;
      newEntries, newIndex, added := SeedRows(entries, index, ws);
      CommitTx(newEntries, newIndex, added > 0, commits);
    }

    method PutWorkload(name: bytes, w: Workload, commits: bool, key: Rendering) returns (ok: bool)
      requires Valid()
      modifies this
      ensures Valid() && Applied(old(View()), View(), PutOne(name, w), commits, key)
      ensures gen == old(gen) ==> View() == old(View())
      ensures ok <==> EntryOK(name, w, true, key) && commits
    {
      var fits, norm := NormalizeEntry(name, w, true, key);
      if !fits {
        return false;
      }
      var newIndex := IndexWorkload(DropRows(index, name), name, norm.value);
      IndexedReplace(entries, index, name, norm.value, newIndex);
      CommitTx(entries[name := norm.value], newIndex, true, commits);
      return commits;
    }

    method DeleteWorkload(name: bytes, commits: bool, key: Rendering) returns (existed: bool)
      requires Valid()
      modifies this
      ensures Valid() && Applied(old(View()), View(), DeleteOne(name), commits, key)
      ensures gen == old(gen) ==> View() == old(View())
      ensures existed <==> name in old(entries)
    {
      if name !in entries {
        return false;
      }
      CommitTx(entries - {name}, DropRows(index, name), true, commits);
      return true;
    }

    method ReplaceAll(ws: Workloads, commits: bool, key: Rendering)
      requires Valid()
      modifies this
      ensures Valid() && Applied(old(View()), View(), Replace(ws), commits, key)
      ensures gen == old(gen) ==> View() == old(View())
    {
      var newIndex := ReplaceRows(ws);
      CommitTx(ws, newIndex, true, commits);
    }

    method Contains(digest: bytes) returns (found: bool)
      requires Valid()
      ensures found <==> exists n, role | n in entries :: HasDigest(entries[n], digest, role)
    {
      found := exists row | row in index :: row.digest == digest;
      IndexedDigest(entries, index, digest);
    }

    method LoadAll() returns (document: Workloads, at: nat)
      ensures document == entries && at == version
    {
      return entries, version;
    }
  }

  /** The document and the version after an operation; a rolled back one changes nothing. */
  ghost function Next(doc: (Workloads, nat), op: Op, commits: bool, key: Rendering): (Workloads, nat) {
    var effect := Effect(doc.0, op, key);
    if effect.None? || !commits then doc else (effect.value.0, doc.1 + if effect.value.1 then 1 else 0)
  }

  ghost predicate Applied(before: Tables, after: Tables, op: Op, commits: bool, key: Rendering) {
    (after.entries, after.version) == Next((before.entries, before.version), op, commits, key)
  }

  // ---- the loops over entries ----

  function Visited(ws: Workloads, todo: set<bytes>): Workloads {
    map n | n in ws && n !in todo :: ws[n]
  }

  lemma VisitStep(entries: Workloads, ws: Workloads, todo: set<bytes>, name: bytes)
    requires name in todo && name in ws
    ensures Visited(ws, todo - {name}) == Visited(ws, todo)[name := ws[name]]
    ensures Seeded(entries, Visited(ws, todo - {name})) ==
            if name in entries then Seeded(entries, Visited(ws, todo))
              else Seeded(entries, Visited(ws, todo))[name := ws[name]]
    ensures name in Seeded(entries, Visited(ws, todo)) <==> name in entries
    ensures |Missing(entries, Visited(ws, todo - {name}))| ==
            |Missing(entries, Visited(ws, todo))| + if name in entries then 0 else 1
  {
    assert Visited(ws, todo - {name}) == Visited(ws, todo)[name := ws[name]];
    assert Missing(entries, Visited(ws, todo - {name})) ==
           Missing(entries, Visited(ws, todo)) + if name in entries then {} else {name};
  }

  /** The entries and their number when the names of `todo` have not been visited yet. */
  ghost predicate SeededBut(entries: Workloads, ws: Workloads, todo: set<bytes>, newEntries: Workloads, added: nat) {
    newEntries == Seeded(entries, Visited(ws, todo)) && added == |Missing(entries, Visited(ws, todo))|
  }

  lemma SeedStart(entries: Workloads, ws: Workloads)
    ensures SeededBut(entries, ws, ws.Keys, entries, 0)
  {
    assert Visited(ws, ws.Keys) == map[];
    assert Seeded(entries, map[]) == entries && Missing(entries, map[]) == {};
  }

  lemma SeedAdvance(entries: Workloads, ws: Workloads, todo: set<bytes>, newEntries: Workloads, added: nat, name: bytes)
    requires SeededBut(entries, ws, todo, newEntries, added) && name in todo && name in ws
    ensures name in newEntries ==> SeededBut(entries, ws, todo - {name}, newEntries, added)
    ensures name !in newEntries ==> SeededBut(entries, ws, todo - {name}, newEntries[name := ws[name]], added + 1)
  {
    VisitStep(entries, ws, todo, name);
  }

  lemma SeedEnd(entries: Workloads, ws: Workloads, newEntries: Workloads, added: nat)
    requires SeededBut(entries, ws, {}, newEntries, added)
    ensures newEntries == Seeded(entries, ws) && added == |Missing(entries, ws)|
  {
    assert Visited(ws, {}) == ws;
  }

  /** Every entry whose name is free is inserted and indexed. */
  method SeedRows(entries: Workloads, index: set<Row>, ws: Workloads)
    returns (newEntries: Workloads, newIndex: set<Row>, added: nat)
    requires Indexed(entries, index)
    ensures newEntries == Seeded(entries, ws) && Indexed(newEntries, newIndex) && added == |Missing(entries, ws)|
  {
    newEntries, newIndex, added := entries, index, 0;
    var todo := ws.Keys;
    SeedStart(entries, ws);
    while todo != {}
      invariant todo <= ws.Keys && Indexed(newEntries, newIndex)
      invariant SeededBut(entries, ws, todo, newEntries, added)
      decreases |todo|
    {
      var name :| name in todo;
      SeedAdvance(entries, ws, todo, newEntries, added, name);
      todo := todo - {name};
      if name in newEntries {
        continue;
      }
      newIndex := InsertRows(newEntries, newIndex, name, ws[name]);
      newEntries := newEntries[name := ws[name]];
      added := added + 1;
    }
    SeedEnd(entries, ws, newEntries, added);
  }

  method InsertRows(entries: Workloads, index: set<Row>, name: bytes, w: Workload) returns (newIndex: set<Row>)
    requires Indexed(entries, index) && name !in entries
    ensures Indexed(entries[name := w], newIndex)
  {
    newIndex := IndexWorkload(index, name, w);
    IndexedInsert(entries, index, name, w, newIndex);
  }

  /** The tables cleared and filled again. */
  method ReplaceRows(ws: Workloads) returns (newIndex: set<Row>)
    ensures Indexed(ws, newIndex)
  {
    var newEntries: Workloads := map[];
    newIndex := {};
    var todo := ws.Keys;
    while todo != {}
      invariant todo <= ws.Keys && Indexed(newEntries, newIndex)
      invariant newEntries == Visited(ws, todo)
      decreases |todo|
    {
      var name :| name in todo;
      VisitStep(map[], ws, todo, name);
      todo := todo - {name};
      newIndex := InsertRows(newEntries, newIndex, name, ws[name]);
      newEntries := newEntries[name := ws[name]];
    }
    assert newEntries == ws;
  }

  lemma IndexedDigest(entries: Workloads, index: set<Row>, digest: bytes)
    requires Indexed(entries, index)
    ensures (exists row | row in index :: row.digest == digest) <==>
            exists n, role | n in entries :: HasDigest(entries[n], digest, role)
  {
    if row :| row in index && row.digest == digest { assert HasDigest(entries[row.name], digest, row.role); }
    if n, role :| n in entries && HasDigest(entries[n], digest, role) { assert Row(digest, n, role) in index; }
  }

  // ---- index rows ----

  function DropRows(index: set<Row>, name: bytes): set<Row> {
    set row | row in index && row.name != name
  }

  /** One row per container digest and role; repetitions collapse. */
  method IndexWorkload(index: set<Row>, name: bytes, w: Workload) returns (out: set<Row>)
    ensures forall row :: row in out <==> row in index || (row.name == name && HasDigest(w, row.digest, row.role))
  {
    out := IndexPart(index, name, w, Init);
    out := IndexPart(out, name, w, Main);
  }

  method IndexPart(index: set<Row>, name: bytes, w: Workload, role: Role) returns (out: set<Row>)
    ensures forall row :: row in out <==>
            row in index || (row.name == name && row.role == role && HasDigest(w, row.digest, role))
  {
    var cs := Part(w, role);
    out := index;
    for i := 0 to |cs|
      invariant forall row :: row in out <==>
                  row in index || (row.name == name && row.role == role && exists j | 0 <= j < i ::
                    cs[j].digest == row.digest)
    {
      out := out + {Row(cs[i].digest, name, role)};
    }
  }

  lemma IndexedInsert(entries: Workloads, index: set<Row>, name: bytes, w: Workload, index': set<Row>)
    requires Indexed(entries, index) && name !in entries
    requires forall row :: row in index' <==> row in index || (row.name == name && HasDigest(w, row.digest, row.role))
    ensures Indexed(entries[name := w], index')
  {
  }

  lemma IndexedReplace(entries: Workloads, index: set<Row>, name: bytes, w: Workload, index': set<Row>)
    requires Indexed(entries, index)
    requires forall row :: row in index' <==>
             row in DropRows(index, name) || (row.name == name && HasDigest(w, row.digest, row.role))
    ensures Indexed(entries[name := w], index')
  {
  }

  // ---- versions ----

  /** Equal versions, equal documents: an operation that keeps the version keeps the entries. */
  lemma VersionTellsDocument(doc: (Workloads, nat), op: Op, commits: bool, key: Rendering)
    ensures var next := Next(doc, op, commits, key);
            doc.1 <= next.1 && (doc.1 == next.1 ==> doc == next)
  {
    if op.Seed? && Missing(doc.0, op.workloads) == {} {
      forall n | n in op.workloads ensures n in doc.0 { assert n !in Missing(doc.0, op.workloads); }
      assert Seeded(doc.0, op.workloads) == doc.0;
    }
  }
}
