/** The release decision's matching stage and its diagnostic (internal/secrets/handler.go:333-353,
    internal/secrets/explain.go): both are proved against one predicate, `Released`. */
module Explain {
  import opened Bytes
  import opened Wrappers
  import opened Sorting
  import opened Allowlist
  import opened Matching

  /** The containers of a report that can be used for release. */
  function RequireContainers(containers: seq<SandboxContainer>): Option<seq<SandboxContainer>> {
    if containers == [] || exists i | 0 <= i < |containers| :: containers[i].digest == [] then None
      else Some(containers)
  }

  /** A report can be used exactly when it names something and every container by its digest. */
  lemma UsableReportIff(report: seq<SandboxContainer>)
    ensures RequireContainers(report).Some? <==> report != [] && forall c | c in report :: c.digest != []
    ensures RequireContainers(report).Some? ==> RequireContainers(report).value == report
  {
    assert forall i | 0 <= i < |report| :: report[i] in report;
  }

  /** The report releases entry `name` with `grant`. */
  ghost predicate Released(h: Hashing, ws: Workloads, report: seq<SandboxContainer>, name: bytes,
                           grant: SecretsPolicy)
  {
    && RequireContainers(report).Some?
    && Outcome(h, ws, Candidates(ws, report), Unique(name))
    && ws[name].secrets == Some(grant) && ArgvPinned(ws[name])
  }

  /** Nothing is released on a report that names a container without its digest, or none. */
  lemma ReleasedOnWholeReports(h: Hashing, ws: Workloads, report: seq<SandboxContainer>, name: bytes,
                               grant: SecretsPolicy)
    requires Released(h, ws, report, name, grant)
    ensures report != [] && forall c | c in report :: c.digest != []
  {
    UsableReportIff(report);
  }

  datatype Grant = Grant(workload: bytes, secrets: SecretsPolicy)

  /** The end of authorize, from loading the allowlist on.  A failed load or fetch is None. */
  method MatchingStage(h: Hashing, policy: Option<Workloads>, report: Option<seq<SandboxContainer>>)
    returns (grant: Option<Grant>)
    ensures forall name, p :: grant == Some(Grant(name, p)) <==>
              policy.Some? && report.Some? && Released(h, policy.value, report.value, name, p)
  {
    if policy.None? || report.None? {
      return None;
    }
    var ws := policy.value;
    var reported := RequireContainers(report.value);
    if reported.None? {
      return None;
    }
    var running := WorkloadContainers(ws, reported.value);
    if |running| == 0 {
      return None;
    }
    var m := MatchWorkload(h, ws, running);
    if !m.Unique? {
      forall name | Outcome(h, ws, running, Unique(name)) { OutcomeDetermined(h, ws, running, m, Unique(name)); }
      return None;
    }
    forall name | Outcome(h, ws, running, Unique(name)) { OutcomeDetermined(h, ws, running, m, Unique(name)); }
    if ws[m.name].secrets.None? || !ArgvPinned(ws[m.name]) {
      return None;
    }
    return Some(Grant(m.name, ws[m.name].secrets.value));
  }

  datatype ReportedContainer = ReportedContainer(running: Running, injected: bool)

  datatype MissingContainer = MissingContainer(digest: bytes, image: bytes)

  datatype EntryVerdict = EntryVerdict(
    name: bytes, foreign: seq<ReportedContainer>, missingMains: seq<MissingContainer>, matches: bool, hasGrant: bool)

  datatype Refusal =
    | NoBinding | OutsideBound | NoAllowlist | NoAnswer | NoDetail | OnlyInjected
    | NoEntry | ManyEntries | NoGrant | UnpinnedArgv

  datatype Response = Response(
    inventoryHost: Option<bytes>, reported: seq<ReportedContainer>, candidates: seq<ReportedContainer>,
    entries: seq<EntryVerdict>, match_: Option<bytes>, grant: Option<SecretsPolicy>, refusal: Option<Refusal>)

  /** The keys of the map, sorted. */
  method SortedNames(ws: Workloads) returns (names: seq<bytes>)
    ensures Sorted(names, LexLeq) && Distinct(names) && forall n :: n in names <==> n in ws
  {
    var todo := ws.Keys;
    names := [];
    while todo != {}
      invariant todo <= ws.Keys && Distinct(names)
      invariant forall n :: n in names <==> n in ws && n !in todo
      decreases |todo|
    {
      var name :| name in todo;
      todo := todo - {name};
      names := names + [name];
    }
    LexPreorder();
    SortSorted(names, LexLeq);
    SortPermutes(names, LexLeq);
    DistinctPermuted(names, Sort(names, LexLeq));
    SameElements(names, Sort(names, LexLeq));
    names := Sort(names, LexLeq);
  }

  ghost function Shown(rs: seq<Running>): seq<ReportedContainer> {
    seq(|rs|, i requires 0 <= i < |rs| => ReportedContainer(rs[i], false))
  }

  ghost function ShownMissing(cs: seq<Container>): seq<MissingContainer> {
    seq(|cs|, i requires 0 <= i < |cs| => MissingContainer(cs[i].digest, cs[i].image))
  }

  /** The verdict on one entry. */
  ghost function Verdict(h: Hashing, ws: Workloads, name: bytes, running: seq<Running>): EntryVerdict
    requires name in ws
  {
    EntryVerdict(name, Shown(ForeignIn(h, Declared(ws[name]), running)),
                 ShownMissing(MissingFrom(h, running, ws[name].containers)),
                 Describes(h, ws[name], running), ws[name].secrets.Some?)
  }

  method JudgeEntry(h: Hashing, ws: Workloads, name: bytes, running: seq<Running>) returns (v: EntryVerdict)
    requires name in ws
    ensures v == Verdict(h, ws, name, running)
  {
    var d := Diff(h, ws[name], running);
    var foreign: seq<ReportedContainer> := [];
    for i := 0 to |d.foreign|
      invariant foreign == Shown(d.foreign[..i])
    {
      foreign := foreign + [ReportedContainer(d.foreign[i], false)];
    }
    var missing: seq<MissingContainer> := [];
    for i := 0 to |d.missingMains|
      invariant missing == ShownMissing(d.missingMains[..i])
    {
      missing := missing + [MissingContainer(d.missingMains[i].digest, d.missingMains[i].image)];
    }
    assert d.foreign[..|d.foreign|] == d.foreign && d.missingMains[..|d.missingMains|] == d.missingMains;
    v := EntryVerdict(name, foreign, missing, d.foreign == [] && d.missingMains == [], ws[name].secrets.Some?);
  }

  /** The first n names that describe the set. */
  ghost function MatchedUpTo(h: Hashing, ws: Workloads, names: seq<bytes>, n: nat, running: seq<Running>): seq<bytes>
    requires (forall i | 0 <= i < |names| :: names[i] in ws) && n <= |names|
  {
    if n == 0 then []
    else MatchedUpTo(h, ws, names, n - 1, running) + if Describes(h, ws[names[n - 1]], running) then [names[n - 1]]
      else []
  }

  ghost function Matched(h: Hashing, ws: Workloads, names: seq<bytes>, running: seq<Running>): seq<bytes>
    requires forall i | 0 <= i < |names| :: names[i] in ws
  {
    MatchedUpTo(h, ws, names, |names|, running)
  }

  /** Every entry judged in order, and the names of those that describe the set. */
  method JudgeEntries(h: Hashing, ws: Workloads, names: seq<bytes>, running: seq<Running>)
    returns (entries: seq<EntryVerdict>, matched: seq<bytes>)
    requires forall i | 0 <= i < |names| :: names[i] in ws
    ensures |entries| == |names| && forall i | 0 <= i < |names| :: entries[i] == Verdict(h, ws, names[i], running)
    ensures matched == Matched(h, ws, names, running)
  {
    entries, matched := [], [];
    for n := 0 to |names|
      invariant |entries| == n && forall i | 0 <= i < n :: entries[i] == Verdict(h, ws, names[i], running)
      invariant matched == MatchedUpTo(h, ws, names, n, running)
    {
      var v := JudgeEntry(h, ws, names[n], running);
      entries := entries + [v];
      if v.matches {
        matched := matched + [names[n]];
      }
    }
  }

  lemma {:induction false} MatchedUpToAre(h: Hashing, ws: Workloads, names: seq<bytes>, n: nat, running: seq<Running>,
                                          m: bytes)
    requires (forall i | 0 <= i < |names| :: names[i] in ws) && n <= |names| && m in ws
    ensures m in MatchedUpTo(h, ws, names, n, running) <==> m in names[..n] && Describes(h, ws[m], running)
  {
    if n > 0 {
      MatchedUpToAre(h, ws, names, n - 1, running, m);
      assert names[..n] == names[..n - 1] + [names[n - 1]];
    }
  }

  lemma {:induction false} MatchedUpToListed(h: Hashing, ws: Workloads, names: seq<bytes>, n: nat,
                                             running: seq<Running>, k: nat)
    requires (forall i | 0 <= i < |names| :: names[i] in ws) && n <= |names| &&
             k < |MatchedUpTo(h, ws, names, n, running)|
    ensures MatchedUpTo(h, ws, names, n, running)[k] in names[..n]
  {
    if n > 0 {
      assert names[..n] == names[..n - 1] + [names[n - 1]];
      if k < |MatchedUpTo(h, ws, names, n - 1, running)| { MatchedUpToListed(h, ws, names, n - 1, running, k); }
    }
  }

  lemma {:induction false} MatchedUpToDistinct(h: Hashing, ws: Workloads, names: seq<bytes>, n: nat,
                                               running: seq<Running>)
    requires (forall i | 0 <= i < |names| :: names[i] in ws) && Distinct(names) && n <= |names|
    ensures Distinct(MatchedUpTo(h, ws, names, n, running))
  {
    if n > 0 {
      var ms := MatchedUpTo(h, ws, names, n - 1, running);
      MatchedUpToDistinct(h, ws, names, n - 1, running);
      forall k | 0 <= k < |ms| ensures ms[k] != names[n - 1] {
        MatchedUpToListed(h, ws, names, n - 1, running, k);
        var i :| 0 <= i < n - 1 && names[i] == ms[k];
      }
    }
  }

  /** Each entry that describes the set is listed once, and no other. */
  lemma MatchedAre(h: Hashing, ws: Workloads, names: seq<bytes>, running: seq<Running>)
    requires Distinct(names) && (forall n :: n in names <==> n in ws) && (forall i | 0 <= i < |names| :: names[i] in ws)
    ensures var ms := Matched(h, ws, names, running);
            && Distinct(ms) && (forall m | m in ms :: m in ws)
            && (forall m | m in ws :: m in ms <==> Describes(h, ws[m], running))
  {
    assert names[..|names|] == names;
    MatchedUpToDistinct(h, ws, names, |names|, running);
    forall m | m in Matched(h, ws, names, running) ensures m in ws {
      var k :| 0 <= k < |Matched(h, ws, names, running)| && Matched(h, ws, names, running)[k] == m;
      MatchedUpToListed(h, ws, names, |names|, running, k);
    }
    forall m | m in ws ensures m in Matched(h, ws, names, running) <==> Describes(h, ws[m], running) {
      MatchedUpToAre(h, ws, names, |names|, running, m);
    }
  }

  function Verdicts(matched: seq<bytes>): Match {
    if |matched| == 0 then NoMatch else if |matched| == 1 then Unique(matched[0]) else Ambiguous
  }

  lemma VerdictsDecide(h: Hashing, ws: Workloads, ms: seq<bytes>, running: seq<Running>)
    requires Distinct(ms) && (forall m | m in ms :: m in ws) && running != []
    requires forall m | m in ws :: m in ms <==> Describes(h, ws[m], running)
    ensures Outcome(h, ws, running, Verdicts(ms))
  {
    if |ms| > 0 { assert ms[0] in ms; }
    if |ms| > 1 { assert ms[1] in ms && ms[0] != ms[1]; }
  }

  /** The list of matched names is the outcome the matching stage reaches. */
  lemma MatchedDecides(h: Hashing, ws: Workloads, names: seq<bytes>, running: seq<Running>)
    requires Distinct(names) && (forall n :: n in names <==> n in ws) && running != []
    requires forall i | 0 <= i < |names| :: names[i] in ws
    ensures Outcome(h, ws, running, Verdicts(Matched(h, ws, names, running)))
  {
    MatchedAre(h, ws, names, running);
    VerdictsDecide(h, ws, Matched(h, ws, names, running), running);
  }

  lemma CandidatesStep(ws: Workloads, reported: seq<SandboxContainer>, n: nat)
    requires n < |reported|
    ensures Candidates(ws, reported[..n + 1]) ==
            Candidates(ws, reported[..n]) + if IsInjected(ws, reported[n]) then [] else [AsRunning(reported[n])]
  {
    assert reported[..n + 1][..n] == reported[..n];
  }

  lemma ShownStep(ws: Workloads, reported: seq<SandboxContainer>, n: nat)
    requires n < |reported|
    ensures Shown(Candidates(ws, reported[..n + 1])) ==
            Shown(Candidates(ws, reported[..n])) + if IsInjected(ws, reported[n]) then []
              else [ReportedContainer(AsRunning(reported[n]), false)]
  {
    CandidatesStep(ws, reported, n);
  }

  ghost predicate Listed(ws: Workloads, reported: seq<SandboxContainer>, n: nat, all: seq<ReportedContainer>)
    requires n <= |reported|
  {
    |all| == n && forall i | 0 <= i < n ::
      all[i] == ReportedContainer(AsRunning(reported[i]), IsInjected(ws, reported[i]))
  }

  method Classify(ws: Workloads, reported: seq<SandboxContainer>)
    returns (all: seq<ReportedContainer>, candidates: seq<ReportedContainer>)
    ensures Listed(ws, reported, |reported|, all)
    ensures candidates == Shown(Candidates(ws, reported))
  {
    all, candidates := [], [];
    for n := 0 to |reported|
      invariant Listed(ws, reported, n, all)
      invariant candidates == Shown(Candidates(ws, reported[..n]))
    {
      ShownStep(ws, reported, n);
      var c := ReportedContainer(AsRunning(reported[n]), IsInjected(ws, reported[n]));
      all := all + [c];
      if c.injected {
        continue;
      }
      candidates := candidates + [c];
    }
    assert reported[..|reported|] == reported;
  }

  /** Why an outcome releases nothing, if it does not. */
  function RefusalOf(ws: Workloads, m: Match): Option<Refusal>
    requires m.Unique? ==> m.name in ws
  {
    match m
    case NoMatch => Some(NoEntry)
    case Ambiguous => Some(ManyEntries)
    case Unique(name) =>
      if ws[name].secrets.None? then Some(NoGrant) else if !ArgvPinned(ws[name]) then Some(UnpinnedArgv) else None
  }

  /** The decision once the candidates are known. */
  method Conclude(ws: Workloads, matched: seq<bytes>)
    returns (match_: Option<bytes>, grant: Option<SecretsPolicy>, refusal: Option<Refusal>)
    requires forall i | 0 <= i < |matched| :: matched[i] in ws
    ensures refusal == RefusalOf(ws, Verdicts(matched))
    ensures match_ == if |matched| == 1 then Some(matched[0]) else None
    ensures grant == if refusal.None? then ws[matched[0]].secrets else None
  {
    if |matched| == 0 {
      return None, None, Some(NoEntry);
    }
    if |matched| > 1 {
      return None, None, Some(ManyEntries);
    }
    match_ := Some(matched[0]);
    var g := ws[matched[0]].secrets;
    if g.None? {
      return match_, None, Some(NoGrant);
    }
    if !ArgvPinned(ws[matched[0]]) {
      return match_, None, Some(UnpinnedArgv);
    }
    return match_, g, None;
  }

  function Refused(resp: Response, r: Refusal): Response {
    resp.(refusal := Some(r))
  }

  /** Everything the answer rests on is there. */
  ghost predicate Reached(bound: Option<bytes>, allowed: bytes -> bool, policy: Option<Workloads>,
                          report: Option<seq<SandboxContainer>>)
  {
    bound.Some? && allowed(bound.value) && policy.Some? && report.Some?
  }

  /** Every entry, sorted by name, with its verdict. */
  ghost predicate AllJudged(h: Hashing, ws: Workloads, running: seq<Running>, entries: seq<EntryVerdict>) {
    && (forall i | 0 <= i < |entries| ::
          entries[i].name in ws && entries[i] == Verdict(h, ws, entries[i].name, running))
    && (forall n | n in ws :: exists i | 0 <= i < |entries| :: entries[i].name == n)
    && (forall i, j | 0 <= i < j < |entries| ::
          entries[i].name != entries[j].name && LexLeq(entries[i].name, entries[j].name))
  }

  /** All entries judged, sorted by name, and the names that match. */
  method JudgeAll(h: Hashing, ws: Workloads, running: seq<Running>)
    returns (entries: seq<EntryVerdict>, matched: seq<bytes>)
    requires running != []
    ensures AllJudged(h, ws, running, entries) && Outcome(h, ws, running, Verdicts(matched))
    ensures forall i | 0 <= i < |matched| :: matched[i] in ws
  {
    var names := SortedNames(ws);
    assert forall i | 0 <= i < |names| :: names[i] in names;
    entries, matched := JudgeEntries(h, ws, names, running);
    JudgedAll(h, ws, running, names, entries);
    MatchedAre(h, ws, names, running);
    assert forall i | 0 <= i < |matched| :: matched[i] in matched;
    MatchedDecides(h, ws, names, running);
  }

  /** What Conclude returns is the decision on the candidates. */
  lemma ConcludesRelease(h: Hashing, ws: Workloads, reported: seq<SandboxContainer>, matched: seq<bytes>,
                         match_: Option<bytes>, grant: Option<SecretsPolicy>)
    requires RequireContainers(reported).Some? && Outcome(h, ws, Candidates(ws, reported), Verdicts(matched))
    requires match_ == if |matched| == 1 then Some(matched[0]) else None
    requires grant == if RefusalOf(ws, Verdicts(matched)).None? then ws[matched[0]].secrets else None
    ensures forall name, p :: match_ == Some(name) && grant == Some(p) <==> Released(h, ws, reported, name, p)
  {
    forall name, p ensures match_ == Some(name) && grant == Some(p) <==> Released(h, ws, reported, name, p) {
      if Outcome(h, ws, Candidates(ws, reported), Unique(name)) {
        OutcomeDetermined(h, ws, Candidates(ws, reported), Unique(name), Verdicts(matched));
      }
    }
  }

  /** The second half, once there is a usable report. */
  method ExplainReport(h: Hashing, ws: Workloads, reported: seq<SandboxContainer>, start: Response)
    returns (resp: Response)
    requires RequireContainers(reported).Some? && start.match_.None? && start.grant.None?
    ensures resp.inventoryHost == start.inventoryHost && Listed(ws, reported, |reported|, resp.reported)
    ensures resp.candidates == Shown(Candidates(ws, reported))
    ensures var running := Candidates(ws, reported);
            if running == [] then resp.refusal == Some(OnlyInjected) && resp.grant.None?
            else
              && AllJudged(h, ws, running, resp.entries)
              && (forall m | Outcome(h, ws, running, m) :: resp.refusal == RefusalOf(ws, m))
    ensures (resp.refusal.None? <==> resp.grant.Some?) && (resp.grant.Some? ==> resp.match_.Some?)
    ensures forall name, p :: resp.match_ == Some(name) && resp.grant == Some(p) <==> Released(h, ws, reported, name, p)
  {
    var all, shown := Classify(ws, reported);
    resp := start.(reported := all, candidates := shown);
    var candidates := WorkloadContainers(ws, reported);
    if |candidates| == 0 {
      return Refused(resp, OnlyInjected);
    }
    var entries, matched := JudgeAll(h, ws, candidates);
    var match_, grant, refusal := Conclude(ws, matched);
    forall m | Outcome(h, ws, candidates, m) ensures m == Verdicts(matched) {
      OutcomeDetermined(h, ws, candidates, m, Verdicts(matched));
    }
    ConcludesRelease(h, ws, reported, matched, match_, grant);
    resp := resp.(entries := entries, match_ := match_, grant := grant, refusal := refusal);
  }

  lemma JudgedAll(h: Hashing, ws: Workloads, running: seq<Running>, names: seq<bytes>, entries: seq<EntryVerdict>)
    requires Sorted(names, LexLeq) && Distinct(names) && (forall n :: n in names <==> n in ws)
    requires |entries| == |names| && forall i | 0 <= i < |names| ::
             names[i] in ws && entries[i] == Verdict(h, ws, names[i], running)
    ensures AllJudged(h, ws, running, entries)
  {
    forall n | n in ws ensures exists i | 0 <= i < |entries| :: entries[i].name == n {
      assert n in names;
      var i :| 0 <= i < |names| && names[i] == n;
      assert entries[i].name == n;
    }
  }

  /** explain: `bound` is the ledger's host, `allowed` the node bound.  It names entry n with a
      grant exactly when the matching stage releases n with that grant. */
  method Explain(h: Hashing, bound: Option<bytes>, allowed: bytes -> bool, policy: Option<Workloads>,
                 report: Option<seq<SandboxContainer>>)
    returns (resp: Response)
    ensures (resp.refusal.None? <==> resp.grant.Some?) && (resp.grant.Some? ==> resp.match_.Some?)
    ensures !Reached(bound, allowed, policy, report) ==> resp.refusal == Some(
              if bound.None? then NoBinding else if !allowed(bound.value) then OutsideBound
              else if policy.None? then NoAllowlist else NoAnswer)
    ensures Reached(bound, allowed, policy, report) && RequireContainers(report.value).None? ==>
              resp.refusal == Some(NoDetail)
    ensures Reached(bound, allowed, policy, report) && RequireContainers(report.value).Some? ==>
              var ws, running := policy.value, Candidates(policy.value, report.value);
              && Listed(ws, report.value, |report.value|, resp.reported) && resp.candidates == Shown(running)
              && (running == [] ==> resp.refusal == Some(OnlyInjected))
              && (running != [] ==>
                    && AllJudged(h, ws, running, resp.entries)
                    && forall m | Outcome(h, ws, running, m) :: resp.refusal == RefusalOf(ws, m))
    ensures resp.inventoryHost == bound
    ensures forall name, p :: resp.match_ == Some(name) && resp.grant == Some(p) <==>
              Reached(bound, allowed, policy, report) && Released(h, policy.value, report.value, name, p)
  {
    resp := Response(None, [], [], [], None, None, None);
    if bound.None? {
      return Refused(resp, NoBinding);
    }
    resp := resp.(inventoryHost := bound);
    if !allowed(bound.value) {
      return Refused(resp, OutsideBound);
    }
    if policy.None? {
      return Refused(resp, NoAllowlist);
    }
    if report.None? {
      return Refused(resp, NoAnswer);
    }
    var ws, reported := policy.value, RequireContainers(report.value);
    if reported.None? {
      return Refused(resp, NoDetail);
    }
    resp := ExplainReport(h, ws, reported.value, resp);
  }
}
