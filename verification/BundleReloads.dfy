/** When a reload loses the issuer of a living leaf (internal/issuer/bundle.go:51-90, 122-190): a
    failed rotation can leave its retirement times in the file, and a CA that was never written is
    not found again. */
module BundleReloads {
  import opened Wrappers
  import opened Bundle
  import opened BundleRuns

  // ---- what one reload decides ----

  /** Whatever follows the steps p, other reloads being safe, c is published while a leaf it signed
      at `signed` lives and c has not expired. */
  ghost predicate StaysCovered(start: State, p: seq<Step>, maxTTL: int, k: nat, c: CA, signed: Time) {
    forall rs: seq<Step>, n: nat, notAfter: Time, now: Time |
      && AliveLeaf(start, rs, maxTTL, k, n, c, signed, notAfter, now) && now < c.notAfter
      && p <= rs && |p| <= n && SafeReloads(start, rs, maxTTL, |p|, n, c, signed) ::
      Some(c) in After(start, rs[..n], maxTTL).certs
  }

  /** p ends with a reload that takes c's place, or keeps another's, while leaves that c signed at
      `signed` can live; every reload before it was safe. */
  ghost predicate Reloading(start: State, p: seq<Step>, maxTTL: int, k: nat, c: CA, signed: Time) {
    && maxTTL > 0 && Begun(start) && Possible(p) && k < |p| && Newest(start, p[..k]) == Some(c)
    && p[|p| - 1].Reload? && p[|p| - 1].ca != c
    && SignedInTime(start, p, maxTTL, k, |p|, c, signed) && SafeReloads(start, p, maxTTL, k, |p| - 1, c, signed)
    && signed < c.notAfter && p[|p| - 1].at < c.notAfter && p[|p| - 1].at <= signed + maxTTL
  }

  function Last(signed: Time, maxTTL: nat, c: CA): Time {
    if signed + maxTTL < c.notAfter then signed + maxTTL else c.notAfter
  }

  lemma SafeAtExtends(start: State, p: seq<Step>, rs: seq<Step>, maxTTL: int, j: nat, c: CA, signed: Time)
    requires p <= rs && j < |p|
    ensures SafeAt(start, rs, maxTTL, j, c, signed) <==> SafeAt(start, p, maxTTL, j, c, signed)
  {
    assert rs[..j] == p[..j] && rs[j] == p[j];
  }

  lemma SafeExtends(start: State, p: seq<Step>, rs: seq<Step>, maxTTL: int, k: nat, n: nat, c: CA, signed: Time)
    requires p != [] && p <= rs && k < |p| <= n <= |rs| && SafeAt(start, p, maxTTL, |p| - 1, c, signed)
    requires SafeReloads(start, p, maxTTL, k, |p| - 1, c, signed) && SafeReloads(start, rs, maxTTL, |p|, n, c, signed)
    ensures SafeReloads(start, rs, maxTTL, k, n, c, signed)
  {
    forall j | k <= j < n ensures SafeAt(start, rs, maxTTL, j, c, signed) {
      if j < |p| {
        assert j < |p| - 1 ==> SafeAt(start, p, maxTTL, j, c, signed);
        SafeAtExtends(start, p, rs, maxTTL, j, c, signed);
      }
    }
  }

  lemma SafeReloadCovers(start: State, p: seq<Step>, maxTTL: int, k: nat, c: CA, signed: Time)
    requires Reloading(start, p, maxTTL, k, c, signed) && SafeAt(start, p, maxTTL, |p| - 1, c, signed)
    ensures StaysCovered(start, p, maxTTL, k, c, signed)
  {
    forall rs: seq<Step>, n: nat, notAfter: Time, now: Time |
      && AliveLeaf(start, rs, maxTTL, k, n, c, signed, notAfter, now) && now < c.notAfter
      && p <= rs && |p| <= n && SafeReloads(start, rs, maxTTL, |p|, n, c, signed)
      ensures Some(c) in After(start, rs[..n], maxTTL).certs
    {
      SafeExtends(start, p, rs, maxTTL, k, n, c, signed);
      LivingLeavesAreCovered(start, rs, maxTTL, k, n, c, signed, notAfter, now);
    }
  }

  /** Right after the reload the leaf is alive. */
  lemma AliveAtReload(start: State, p: seq<Step>, maxTTL: int, k: nat, c: CA, signed: Time)
    requires Reloading(start, p, maxTTL, k, c, signed)
    ensures AliveLeaf(start, p, maxTTL, k, |p|, c, signed, Last(signed, maxTTL, c), p[|p| - 1].at)
    ensures Some(c) in After(start, p[..|p| - 1], maxTTL).certs
  {
    var m := |p| - 1;
    assert SignedInTime(start, p, maxTTL, k, m, c, signed);
    CoversAlways(start, p, maxTTL, k, m, c, signed);
  }

  /** A CA that is published but not in the bundle file is gone with the reload. */
  lemma UnlistedIsLost(start: State, p: seq<Step>, maxTTL: int, k: nat, c: CA, signed: Time)
    requires Reloading(start, p, maxTTL, k, c, signed) && !Listed(After(start, p[..|p| - 1], maxTTL), c)
    ensures !StaysCovered(start, p, maxTTL, k, c, signed)
  {
    var m := |p| - 1;
    AliveAtReload(start, p, maxTTL, k, c, signed);
    ReloadIs(After(start, p[..m], maxTTL), p[m].ca, p[m].at, p[m].metadata, c);
    AfterStep(start, p, maxTTL, m);
    assert p[..|p|] == p;
    assert SafeReloads(start, p, maxTTL, |p|, |p|, c, signed);
    assert Some(c) !in After(start, p[..|p|], maxTTL).certs;
  }

  function Later(a: Time, b: Time): Time {
    if a < b then b else a
  }

  lemma PossibleFollows(p: seq<Step>, r: Step)
    requires p != [] && Possible(p) && p[|p| - 1].at <= r.at
    ensures Possible(p + [r])
  {
    var rs := p + [r];
    forall i, j | 0 <= i < j < |rs| ensures rs[i].at <= rs[j].at { assert i < |p| - 1 ==> p[i].at <= p[|p| - 1].at; }
  }

  lemma SignedFollows(start: State, p: seq<Step>, r: Step, maxTTL: int, k: nat, c: CA, signed: Time)
    requires start.certs != [] && p != [] && k < |p| && SignedInTime(start, p, maxTTL, k, |p|, c, signed)
    requires Installs(p[|p| - 1]) && p[|p| - 1].ca != c
    ensures SignedInTime(start, p + [r], maxTTL, k, |p| + 1, c, signed)
  {
    var rs := p + [r];
    assert rs[..|p|] == p;
    forall j | k <= j < |rs| && Replaces(start, rs, j, c) ensures signed < rs[j].at + maxTTL {
      if j < |p| {
        assert rs[..j] == p[..j] && rs[j] == p[j];
        assert Replaces(start, p, j, c);
      }
    }
  }

  /** p and then a rotation. */
  lemma RotationFollows(start: State, p: seq<Step>, maxTTL: int, k: nat, c: CA, signed: Time, next: CA, at: Time)
    requires Reloading(start, p, maxTTL, k, c, signed) && p[|p| - 1].at <= at <= Last(signed, maxTTL, c)
    ensures var rs := p + [Rotation(next, at, Both)];
            && AliveLeaf(start, rs, maxTTL, k, |rs|, c, signed, Last(signed, maxTTL, c), at)
            && SafeReloads(start, rs, maxTTL, |p|, |rs|, c, signed)
            && After(start, rs[..|rs|], maxTTL) == Rotated(After(start, p, maxTTL), next, at, Both, maxTTL)
  {
    var r := Rotation(next, at, Both);
    var rs := p + [r];
    assert rs[..|p|] == p && rs[..k] == p[..k] && rs[..|rs|] == rs;
    AfterStep(start, rs, maxTTL, |p|);
    PossibleFollows(p, r);
    SignedFollows(start, p, r, maxTTL, k, c, signed);
  }

  /** Two TTLs after the recorded retirement a rotation drops c. */
  lemma RecordedIsDropped(s: State, ca: CA, reloaded: Time, c: CA, next: CA, at: Time, maxTTL: int)
    requires maxTTL > 0 && Listed(s, c) && c in s.times && s.times[c] > 0 && s.times[c] + 2 * maxTTL <= at
    requires ca != c && next != c
    ensures Some(c) !in Rotated(Reloaded(s, ca, reloaded, true), next, at, Both, maxTTL).certs
  {
    ReloadIs(s, ca, reloaded, true, c);
    RetainedKeeps(Reloaded(s, ca, reloaded, true), next, at, maxTTL, c);
  }

  /** A CA whose recorded retirement is too early is dropped by a rotation while the leaf lives. */
  lemma StaleIsLost(start: State, p: seq<Step>, maxTTL: int, k: nat, c: CA, signed: Time)
    requires Reloading(start, p, maxTTL, k, c, signed) && p[|p| - 1].metadata
    requires var s := After(start, p[..|p| - 1], maxTTL);
             Listed(s, c) && c in s.times && s.times[c] > 0 && !InTime(s.times[c], maxTTL, c, signed)
    ensures !StaysCovered(start, p, maxTTL, k, c, signed)
  {
    var m, s, next := |p| - 1, After(start, p[..|p| - 1], maxTTL), CA(c.id + 1, c.notAfter);
    var at := Later(p[m].at, s.times[c] + 2 * maxTTL);
    AfterStep(start, p, maxTTL, m);
    assert p[..m + 1] == p;
    RecordedIsDropped(s, p[m].ca, p[m].at, c, next, at, maxTTL);
    RotationFollows(start, p, maxTTL, k, c, signed, next, at);
    var rs := p + [Rotation(next, at, Both)];
    assert Some(c) !in After(start, rs[..|rs|], maxTTL).certs;
  }

  /** The leaves that c signed at `signed` and that live at a reload keep their issuer, whatever
      follows, if and only if the reload found c in the bundle file, and in the retirement file no
      time or one late enough. */
  lemma ReloadCoversIff(start: State, p: seq<Step>, maxTTL: int, k: nat, c: CA, signed: Time)
    requires Reloading(start, p, maxTTL, k, c, signed)
    ensures StaysCovered(start, p, maxTTL, k, c, signed) <==>
            Safe(After(start, p[..|p| - 1], maxTTL), p[|p| - 1].metadata, maxTTL, c, signed)
  {
    var s, r := After(start, p[..|p| - 1], maxTTL), p[|p| - 1];
    AliveAtReload(start, p, maxTTL, k, c, signed);
    if Safe(s, r.metadata, maxTTL, c, signed) {
      SafeReloadCovers(start, p, maxTTL, k, c, signed);
    } else if !Listed(s, c) {
      UnlistedIsLost(start, p, maxTTL, k, c, signed);
    } else {
      StaleIsLost(start, p, maxTTL, k, c, signed);
    }
  }

  // ---- what the files hold ----

  predicate FullWrite(step: Step) {
    (step.Rotation? || step.Persist?) && step.written.Both?
  }

  /** The time at which the last write of the retirement file since step m, a rotation that then
      failed to write the bundle, recorded the current CA as retired. */
  function StaleTime(rs: seq<Step>, m: nat, n: nat, c: CA): Option<Time>
    requires m <= n <= |rs|
    decreases n
  {
    if n == m then None
    else
      match rs[n - 1]
      case Rotation(ca, at, written) =>
        if written.Nothing? then StaleTime(rs, m, n - 1, c) else if ca != c && at < c.notAfter then Some(at) else None
      case Persist(_, written) => if written.Nothing? then StaleTime(rs, m, n - 1, c) else None
      case Reload(_, _, _) => None
  }

  /** The files know the current CA c, retired at `stale` if at all. */
  ghost predicate Knows(s: State, c: CA, stale: Option<Time>) {
    && Once(s) && s.certs[0] == Some(c) && Listed(s, c)
    && (if stale.None? then c !in s.times else c in s.times && s.times[c] == stale.value)
  }

  lemma RotationTo(s: State, ca: CA, at: Time, maxTTL: int)
    ensures ca !in Retained(s.certs, s.retired, ca, at, maxTTL).1
  {
    RetainedAre(s.certs, s.retired, ca, at, maxTTL, ca);
  }

  lemma PersistTimes(s: State, at: Time, c: CA)
    requires s.certs != [] && s.certs[0] == Some(c)
    ensures c !in RetirementsFor(FirstCert(s.certs), s.certs, s.retired, at)
  {
    RetirementsAre(c, s.certs, s.retired, at, c);
  }

  lemma FullWriteKnows(s: State, r: Step, maxTTL: int, c: CA)
    requires Begun(s) && FullWrite(r) && Apply(s, r, maxTTL).certs[..1] == [Some(c)]
    ensures Knows(Apply(s, r, maxTTL), c, None)
  {
    StepBegun(s, r, maxTTL);
    var s' := Apply(s, r, maxTTL);
    assert s'.certs[..1][0] == Some(c) && s'.certs[0] in s'.certs;
    if r.Rotation? { RotationTo(s, c, r.at, maxTTL); } else { PersistTimes(s, r.at, c); }
  }

  lemma FailedRotationKnows(s: State, ca: CA, at: Time, maxTTL: int, c: CA, stale: Option<Time>)
    requires Knows(s, c, stale) && at > 0 && maxTTL > 0
    ensures Knows(Rotated(s, ca, at, TimesOnly, maxTTL), c, if ca != c && at < c.notAfter then Some(at) else None)
  {
    assert s.certs[0] in s.certs;
    if ca == c { RotationTo(s, c, at, maxTTL); } else { RetainedKeeps(s, ca, at, maxTTL, c); }
  }

  lemma PersistKnows(s: State, at: Time, written: Written, c: CA, stale: Option<Time>)
    requires Knows(s, c, stale) && !written.Nothing?
    ensures Knows(Persisted(s, at, written), c, None)
  {
    assert s.certs[0] in s.certs;
    PersistTimes(s, at, c);
  }

  /** c was written whole at step m and has been current since. */
  ghost predicate CurrentSince(start: State, rs: seq<Step>, m: nat, n: nat, c: CA)
    requires n <= |rs|
  {
    && Begun(start) && m < n && FullWrite(rs[m]) && Newest(start, rs[..m + 1]) == Some(c)
    && forall j | m < j < n :: !Installs(rs[j])
  }

  lemma {:induction false} FilesSince(start: State, rs: seq<Step>, maxTTL: int, m: nat, n: nat, c: CA)
    requires maxTTL > 0 && n <= |rs| && Possible(rs) && CurrentSince(start, rs, m, n, c)
    ensures Knows(After(start, rs[..n], maxTTL), c, StaleTime(rs, m + 1, n, c))
    decreases n
  {
    var s, r := After(start, rs[..n - 1], maxTTL), rs[n - 1];
    AfterStep(start, rs, maxTTL, n - 1);
    NewestIsFirst(start, rs[..n - 1], maxTTL);
    if n == m + 1 {
      NewestIsFirst(start, rs[..n], maxTTL);
      FullWriteKnows(s, r, maxTTL, c);
    } else {
      FilesSince(start, rs, maxTTL, m, n - 1, c);
      var stale := StaleTime(rs, m + 1, n - 1, c);
      match r
      case Rotation(ca, at, written) =>
        if !written.Nothing? { FailedRotationKnows(s, ca, at, maxTTL, c, stale); }
      case Persist(at, written) =>
        if !written.Nothing? { PersistKnows(s, at, written, c, stale); }
    }
  }

  lemma {:induction false} StaysNewest(start: State, rs: seq<Step>, m: nat, n: nat, c: CA)
    requires n <= |rs| && CurrentSince(start, rs, m, n, c)
    ensures Newest(start, rs[..n]) == Some(c)
    decreases n
  {
    if n > m + 1 {
      assert rs[..n][..n - 1] == rs[..n - 1];
      StaysNewest(start, rs, m, n - 1, c);
    }
  }

  // ---- across a restart ----

  /** p ends with a restart under another CA, c having been current since it was written. */
  ghost predicate Restarts(start: State, p: seq<Step>, maxTTL: int, m: nat, c: CA) {
    && maxTTL > 0 && Possible(p) && p != [] && CurrentSince(start, p, m, |p| - 1, c)
    && p[|p| - 1].Reload? && p[|p| - 1].ca != c && p[|p| - 1].at < c.notAfter
  }

  lemma RestartIsReload(start: State, p: seq<Step>, maxTTL: int, m: nat, c: CA, signed: Time)
    requires Restarts(start, p, maxTTL, m, c) && signed <= p[|p| - 1].at <= signed + maxTTL
    ensures Reloading(start, p, maxTTL, m + 1, c, signed)
  {
    forall j | m + 1 <= j < |p| && Replaces(start, p, j, c) ensures signed < p[j].at + maxTTL {
      assert j == |p| - 1;
    }
    forall j | m + 1 <= j < |p| - 1 ensures SafeAt(start, p, maxTTL, j, c, signed) { assert !Installs(p[j]); }
  }

  lemma Over(start: State, p: seq<Step>, rs: seq<Step>, maxTTL: int, k: nat, n: nat, c: CA, signed: Time,
             notAfter: Time, now: Time)
    requires p != [] && p <= rs && |p| <= n && signed + maxTTL < p[|p| - 1].at
    ensures !AliveLeaf(start, rs, maxTTL, k, n, c, signed, notAfter, now)
  {
    assert rs[|p| - 1] == p[|p| - 1];
    assert Possible(rs) && |p| < n <= |rs| ==> rs[|p| - 1].at <= rs[n - 1].at;
  }

  lemma OverAtRestart(start: State, p: seq<Step>, maxTTL: int, k: nat, c: CA, signed: Time)
    requires p != [] && signed + maxTTL < p[|p| - 1].at
    ensures StaysCovered(start, p, maxTTL, k, c, signed)
  {
    forall rs: seq<Step>, n: nat, notAfter: Time, now: Time | p <= rs && |p| <= n
      ensures !AliveLeaf(start, rs, maxTTL, k, n, c, signed, notAfter, now)
    {
      Over(start, p, rs, maxTTL, k, n, c, signed, notAfter, now);
    }
  }

  lemma {:induction false} StaleIsPositive(rs: seq<Step>, m: nat, n: nat, c: CA)
    requires m <= n <= |rs| && Possible(rs)
    ensures StaleTime(rs, m, n, c).Some? ==> StaleTime(rs, m, n, c).value > 0
    decreases n
  {
    if n > m && !rs[n - 1].Reload? && rs[n - 1].written.Nothing? { StaleIsPositive(rs, m, n - 1, c); }
  }

  /** The condition of a reload, said of the steps before it. */
  lemma RestartSafeIff(start: State, p: seq<Step>, maxTTL: int, m: nat, c: CA, signed: Time)
    requires Restarts(start, p, maxTTL, m, c)
    ensures var r, stale := p[|p| - 1], StaleTime(p, m + 1, |p| - 1, c);
            Safe(After(start, p[..|p| - 1], maxTTL), r.metadata, maxTTL, c, signed) <==>
            (r.metadata && stale.Some? ==> InTime(stale.value, maxTTL, c, signed))
  {
    var s := After(start, p[..|p| - 1], maxTTL);
    FilesSince(start, p, maxTTL, m, |p| - 1, c);
    StaleIsPositive(p, m + 1, |p| - 1, c);
    assert s.certs[0] in s.certs;
  }

  lemma RestartCovers(start: State, p: seq<Step>, maxTTL: int, m: nat, c: CA, signed: Time)
    requires Restarts(start, p, maxTTL, m, c) && signed <= p[|p| - 1].at
    requires var r, stale := p[|p| - 1], StaleTime(p, m + 1, |p| - 1, c);
             r.metadata && stale.Some? ==> InTime(stale.value, maxTTL, c, r.at)
    ensures StaysCovered(start, p, maxTTL, m + 1, c, signed)
  {
    if signed + maxTTL < p[|p| - 1].at {
      OverAtRestart(start, p, maxTTL, m + 1, c, signed);
    } else {
      RestartIsReload(start, p, maxTTL, m, c, signed);
      RestartSafeIff(start, p, maxTTL, m, c, signed);
      ReloadCoversIff(start, p, maxTTL, m + 1, c, signed);
    }
  }

  /** Every leaf that c signed until the last of the steps p. */
  ghost predicate AllStayCovered(start: State, p: seq<Step>, maxTTL: int, k: nat, c: CA)
    requires p != []
  {
    forall signed: Time | signed <= p[|p| - 1].at :: StaysCovered(start, p, maxTTL, k, c, signed)
  }

  /** Every leaf signed before a restart that can read the retirement file keeps its issuer,
      whatever follows, if and only if the last write of that file since c was written whole is not a
      failed rotation of a TTL or more before. */
  lemma RestartCoversIff(start: State, p: seq<Step>, maxTTL: int, m: nat, c: CA)
    requires Restarts(start, p, maxTTL, m, c)
    ensures var r, stale := p[|p| - 1], StaleTime(p, m + 1, |p| - 1, c);
            AllStayCovered(start, p, maxTTL, m + 1, c) <==>
            (r.metadata && stale.Some? ==> InTime(stale.value, maxTTL, c, r.at))
  {
    var r, stale := p[|p| - 1], StaleTime(p, m + 1, |p| - 1, c);
    if r.metadata && stale.Some? && !InTime(stale.value, maxTTL, c, r.at) {
      RestartIsReload(start, p, maxTTL, m, c, r.at);
      RestartSafeIff(start, p, maxTTL, m, c, r.at);
      ReloadCoversIff(start, p, maxTTL, m + 1, c, r.at);
    } else {
      var k := m + 1;
      forall signed: Time | signed <= r.at ensures StaysCovered(start, p, maxTTL, k, c, signed) {
        RestartCovers(start, p, maxTTL, m, c, signed);
      }
    }
  }

  lemma AfterTwo(start: State, r0: Step, r1: Step, maxTTL: int)
    ensures After(start, [r0, r1], maxTTL) == Apply(Apply(start, r0, maxTTL), r1, maxTTL)
  {
    var p := [r0, r1];
    assert p[..0] == [] && p[..2] == p;
    AfterStep(start, p, maxTTL, 0);
    AfterStep(start, p, maxTTL, 1);
  }

  lemma FailedThenReloading(c: CA, a: CA, b: CA, maxTTL: int, t0: Time, t1: Time, signed: Time)
    requires maxTTL > 0 && 0 < t0 <= signed <= t1 <= signed + maxTTL && t1 < c.notAfter && b != c
    ensures var start := State([Some(c)], map[], Some([Some(c)]), map[]);
            Reloading(start, [Rotation(a, t0, TimesOnly), Reload(b, t1, true)], maxTTL, 0, c, signed)
  {
    var start, p := State([Some(c)], map[], Some([Some(c)]), map[]), [Rotation(a, t0, TimesOnly), Reload(b, t1, true)];
    assert p[..0] == [];
    assert SafeAt(start, p, maxTTL, 0, c, signed);
    forall j | 0 <= j < 2 && Replaces(start, p, j, c) ensures signed < p[j].at + maxTTL { assert j == 1; }
  }

  lemma FailedIsDropped(c: CA, a: CA, b: CA, d: CA, maxTTL: int, t0: Time, t1: Time)
    requires maxTTL > 0 && 0 < t0 < c.notAfter && a != c && b != c && d != c
    ensures var failed := Rotated(State([Some(c)], map[], Some([Some(c)]), map[]), a, t0, TimesOnly, maxTTL);
            Some(c) !in Rotated(Reloaded(failed, b, t1, true), d, t0 + 2 * maxTTL, Both, maxTTL).certs
  {
    var start := State([Some(c)], map[], Some([Some(c)]), map[]);
    assert Knows(start, c, None);
    FailedRotationKnows(start, a, t0, maxTTL, c, None);
    RecordedIsDropped(Rotated(start, a, t0, TimesOnly, maxTTL), b, t1, c, d, t0 + 2 * maxTTL, maxTTL);
  }

  /** The failing run: a rotation away from c at t0 writes its times and fails, c signs on, the
      process restarts at t1, and a rotation two TTLs after t0 drops c while a leaf it signed lives. */
  lemma FailedRotationThenRestart(c: CA, a: CA, b: CA, d: CA, maxTTL: int, t0: Time, t1: Time, signed: Time)
    requires maxTTL > 0 && 0 < t0 && t0 + maxTTL <= signed <= t1 <= t0 + 2 * maxTTL < c.notAfter
    requires a != c && b != c && d != c
    ensures var start, t2 := State([Some(c)], map[], Some([Some(c)]), map[]), t0 + 2 * maxTTL;
            var rs := [Rotation(a, t0, TimesOnly), Reload(b, t1, true)] + [Rotation(d, t2, Both)];
            && AliveLeaf(start, rs, maxTTL, 0, |rs|, c, signed, Last(signed, maxTTL, c), t2)
            && Some(c) !in After(start, rs[..|rs|], maxTTL).certs
  {
    var start, p := State([Some(c)], map[], Some([Some(c)]), map[]), [Rotation(a, t0, TimesOnly), Reload(b, t1, true)];
    FailedThenReloading(c, a, b, maxTTL, t0, t1, signed);
    RotationFollows(start, p, maxTTL, 0, c, signed, d, t0 + 2 * maxTTL);
    AfterTwo(start, p[0], p[1], maxTTL);
    FailedIsDropped(c, a, b, d, maxTTL, t0, t1);
  }

  /** The other way to lose one: c is never written before the next restart. */
  lemma UnwrittenThenRestart(c: CA, a: CA, b: CA, maxTTL: int, t0: Time, t1: Time, signed: Time)
    requires maxTTL > 0 && 0 < t0 <= signed <= t1 <= signed + maxTTL && t1 < c.notAfter && a != c && b != c
    ensures var start := State([Some(a)], map[], Some([Some(a)]), map[]);
            var rs := [Reload(c, t0, true), Reload(b, t1, true)];
            && AliveLeaf(start, rs, maxTTL, 1, 2, c, signed, Last(signed, maxTTL, c), t1)
            && Some(c) !in After(start, rs[..2], maxTTL).certs
  {
    var start, rs := State([Some(a)], map[], Some([Some(a)]), map[]), [Reload(c, t0, true), Reload(b, t1, true)];
    assert rs[..0] == [] && rs[..1] == [rs[0]] && rs[..2] == rs;
    AfterStep(start, rs, maxTTL, 0);
    AfterStep(start, rs, maxTTL, 1);
    ReloadIs(start, c, t0, true, c);
    ReloadIs(Reloaded(start, c, t0, true), b, t1, true, c);
  }
}
