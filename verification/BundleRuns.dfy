/** Whole runs of rotations, writes and reloads: the issuer of every living leaf stays published
    as long as each reload finds it in the files (internal/issuer/bundle.go:51-128, 157-249). */
module BundleRuns {
  import opened Wrappers
  import opened Bundle

  /** The manager's fields and the two files of its repository directory. */
  datatype State = State(certs: Certs, retired: Retirements, file: Option<Certs>, times: Retirements)

  /** A reload starts the manager again from the files, with a CA to sign from now on; `metadata`
      says whether the retirement times could be read. */
  datatype Step =
    | Rotation(ca: CA, at: Time, written: Written)
    | Persist(at: Time, written: Written)
    | Reload(ca: CA, at: Time, metadata: bool)

  /** The current CA is first, listed once, and not retired. */
  ghost predicate Once(s: State) {
    s.certs != [] && s.certs[0].Some? && s.certs[0] !in s.certs[1..] && s.certs[0].value !in s.retired
  }

  /** Every CA in the bundle file is published. */
  ghost predicate FilePublished(s: State) {
    forall c: CA :: Listed(s, c) ==> Some(c) in s.certs
  }

  predicate Listed(s: State, c: CA) {
    s.file.Some? && Some(c) in s.file.value
  }

  ghost predicate Begun(s: State) {
    Once(s) && FilePublished(s)
  }

  /** What SetWithCurrent leaves. */
  function Started(current: CA, retained: Certs, retired: Retirements, at: Time): (Certs, Retirements) {
    var certs := Prepended(Some(current), retained);
    (certs, RetirementsFor(Some(current), certs, retired, at))
  }

  function Rotated(s: State, ca: CA, at: Time, written: Written, maxTTL: int): State {
    var (kept, times) := Retained(s.certs, s.retired, ca, at, maxTTL);
    var next := [Some(ca)] + kept;
    var file, onDisk := FileAfter(s.file, next, written), TimesAfter(s.times, times, written);
    if written.Both? then State(next, times, file, onDisk) else s.(file := file, times := onDisk)
  }

  function Persisted(s: State, at: Time, written: Written): State {
    var times := RetirementsFor(FirstCert(s.certs), s.certs, s.retired, at);
    s.(file := FileAfter(s.file, s.certs, written), times := TimesAfter(s.times, times, written))
  }

  function Reloaded(s: State, ca: CA, at: Time, metadata: bool): State {
    var retained := if s.file.None? then [] else s.file.value;
    var (certs, retired) := Started(ca, retained, if s.file.Some? && metadata then s.times else map[], at);
    s.(certs := certs, retired := retired)
  }

  function Apply(s: State, step: Step, maxTTL: int): State {
    match step
    case Rotation(ca, at, written) => Rotated(s, ca, at, written, maxTTL)
    case Persist(at, written) => Persisted(s, at, written)
    case Reload(ca, at, metadata) => Reloaded(s, ca, at, metadata)
  }

  function After(start: State, rs: seq<Step>, maxTTL: int): State {
    if rs == [] then start else Apply(After(start, rs[..|rs| - 1], maxTTL), rs[|rs| - 1], maxTTL)
  }

  /** A step that makes its CA the current one. */
  predicate Installs(step: Step) {
    step.Reload? || (step.Rotation? && step.written.Both?)
  }

  /** Readings of a clock that does not run backwards. */
  predicate Possible(rs: seq<Step>) {
    (forall i | 0 <= i < |rs| :: rs[i].at > 0) && forall i, j | 0 <= i < j < |rs| :: rs[i].at <= rs[j].at
  }

  lemma AfterStep(start: State, rs: seq<Step>, maxTTL: int, n: nat)
    requires n < |rs|
    ensures After(start, rs[..n + 1], maxTTL) == Apply(After(start, rs[..n], maxTTL), rs[n], maxTTL)
  {
    assert rs[..n + 1][..n] == rs[..n];
  }

  // ---- the newest CA comes first ----

  lemma {:induction false} WithoutAre(current: CA, certs: Certs, c: CA)
    ensures Some(c) in WithoutCurrent(current, certs) <==> Some(c) in certs && c != current
  {
    if certs != [] {
      var init := certs[..|certs| - 1];
      WithoutAre(current, init, c);
      assert certs == init + [certs[|certs| - 1]];
    }
  }

  lemma {:induction false} RetirementsAre(current: CA, certs: Certs, retired: Retirements, fallback: Time, c: CA)
    ensures var times := RetirementsFor(Some(current), certs, retired, fallback);
            && (c in times <==> Some(c) in certs && c != current)
            && (c in times ==> times[c] == RetiredAt(retired, 1, c, fallback))
  {
    if certs != [] {
      var init := certs[..|certs| - 1];
      RetirementsAre(current, init, retired, fallback, c);
      assert certs == init + [certs[|certs| - 1]];
    }
  }

  /** A bundle set at startup lists its current CA first and once, keeps every other CA it was
      given, and has a retirement time for each. */
  lemma StartsOnce(current: CA, retained: Certs, retired: Retirements, at: Time, c: CA)
    ensures var (certs, times) := Started(current, retained, retired, at);
            && Once(State(certs, times, None, map[])) && certs[0] == Some(current)
            && (c != current ==> (Some(c) in certs <==> Some(c) in retained))
            && (c != current && Some(c) in retained ==> c in times && times[c] == RetiredAt(retired, 1, c, at))
  {
    var certs := Started(current, retained, retired, at).0;
    assert certs[1..] == WithoutCurrent(current, retained);
    WithoutAre(current, retained, current);
    WithoutAre(current, retained, c);
    RetirementsAre(current, certs, retired, at, current);
    RetirementsAre(current, certs, retired, at, c);
  }

  /** A reload publishes its CA and what the bundle file lists, retired when the retirement file says
      or, where that says nothing, now. */
  lemma ReloadIs(s: State, ca: CA, at: Time, metadata: bool, c: CA)
    ensures var s' := Reloaded(s, ca, at, metadata);
            && Once(s') && s'.certs[0] == Some(ca) && s'.file == s.file && s'.times == s.times
            && (c != ca ==> (Some(c) in s'.certs <==> Listed(s, c)))
            && (c != ca && Listed(s, c) ==>
                  c in s'.retired && s'.retired[c] == if metadata then RetiredAt(s.times, 1, c, at) else at)
  {
    var retained := if s.file.None? then [] else s.file.value;
    StartsOnce(ca, retained, if s.file.Some? && metadata then s.times else map[], at, c);
  }

  lemma RotatedOnce(s: State, ca: CA, at: Time, written: Written, maxTTL: int)
    requires Begun(s)
    ensures var s' := Rotated(s, ca, at, written, maxTTL);
            Begun(s') && s'.certs[0] == if written.Both? then Some(ca) else s.certs[0]
  {
    RetainedAre(s.certs, s.retired, ca, at, maxTTL, ca);
    var kept := Retained(s.certs, s.retired, ca, at, maxTTL).0;
    assert ([Some(ca)] + kept)[1..] == kept;
    var s' := Rotated(s, ca, at, written, maxTTL);
    forall c: CA | Listed(s', c) ensures Some(c) in s'.certs { assert !written.Both? ==> Listed(s, c); }
  }

  lemma ReloadedOnce(s: State, ca: CA, at: Time, metadata: bool)
    requires Begun(s)
    ensures var s' := Reloaded(s, ca, at, metadata); Begun(s') && s'.certs[0] == Some(ca)
  {
    ReloadIs(s, ca, at, metadata, ca);
    var s' := Reloaded(s, ca, at, metadata);
    forall c: CA | Listed(s', c) ensures Some(c) in s'.certs { ReloadIs(s, ca, at, metadata, c); }
  }

  lemma StepBegun(s: State, r: Step, maxTTL: int)
    requires Begun(s)
    ensures Begun(Apply(s, r, maxTTL))
    ensures Apply(s, r, maxTTL).certs[0] == if Installs(r) then Some(r.ca) else s.certs[0]
  {
    match r
    case Rotation(ca, at, written) => RotatedOnce(s, ca, at, written, maxTTL);
    case Reload(ca, at, metadata) => ReloadedOnce(s, ca, at, metadata);
    case Persist(at, written) =>
      var s' := Persisted(s, at, written);
      forall c: CA | Listed(s', c) ensures Some(c) in s'.certs { assert !written.Both? ==> Listed(s, c); }
  }

  /** The newest CA that was rotated to and persisted, or loaded with. */
  function Newest(start: State, rs: seq<Step>): Option<CA>
    requires start.certs != []
  {
    if rs == [] then start.certs[0]
    else if Installs(rs[|rs| - 1]) then Some(rs[|rs| - 1].ca) else Newest(start, rs[..|rs| - 1])
  }

  lemma {:induction false} NewestIsFirst(start: State, rs: seq<Step>, maxTTL: int)
    requires Begun(start)
    ensures Begun(After(start, rs, maxTTL)) && After(start, rs, maxTTL).certs[0] == Newest(start, rs)
  {
    if rs != [] {
      NewestIsFirst(start, rs[..|rs| - 1], maxTTL);
      StepBegun(After(start, rs[..|rs| - 1], maxTTL), rs[|rs| - 1], maxTTL);
    }
  }

  // ---- retirement times ----

  lemma {:induction false} RetainedTime(certs: Certs, retired: Retirements, current: CA, now: Time, maxTTL: int, c: CA)
    returns (i: nat)
    requires c in Retained(certs, retired, current, now, maxTTL).1
    ensures i < |certs| && certs[i] == Some(c)
    ensures Retained(certs, retired, current, now, maxTTL).1[c] == RetiredAt(retired, i, c, now)
  {
    var n := |certs| - 1;
    var times := Retained(certs[..n], retired, current, now, maxTTL).1;
    if certs[n] == Some(c) && Keeps(certs, retired, current, now, maxTTL, n) {
      i := n;
    } else {
      i := RetainedTime(certs[..n], retired, current, now, maxTTL, c);
    }
  }

  /** What a rotation to another CA would keep of c, which is in the bundle. */
  lemma RetainedKeeps(s: State, ca: CA, now: Time, maxTTL: int, c: CA)
    requires Once(s) && Some(c) in s.certs && ca != c
    requires s.certs[0] != Some(c) ==> c in s.retired && s.retired[c] > 0
    ensures var at := if s.certs[0] == Some(c) then now else s.retired[c];
            var (kept, times) := Retained(s.certs, s.retired, ca, now, maxTTL);
            && (Some(c) in kept <==> !ShouldDrop(c, at, now, maxTTL))
            && (c in times <==> Some(c) in kept) && (c in times ==> times[c] == at)
  {
    var at := if s.certs[0] == Some(c) then now else s.retired[c];
    var (kept, times) := Retained(s.certs, s.retired, ca, now, maxTTL);
    RetainedAre(s.certs, s.retired, ca, now, maxTTL, c);
    forall i | 0 <= i < |s.certs| && s.certs[i] == Some(c) ensures RetiredAt(s.retired, i, c, now) == at {
      if i > 0 { assert s.certs[1..][i - 1] == Some(c); }
    }
    if c in times { var i := RetainedTime(s.certs, s.retired, ca, now, maxTTL, c); }
    if !ShouldDrop(c, at, now, maxTTL) {
      var i :| 0 <= i < |s.certs| && s.certs[i] == Some(c);
      assert Keeps(s.certs, s.retired, ca, now, maxTTL, i);
    }
  }

  // ---- coverage ----

  /** Retired at `at`, c is kept as long as its leaves signed at `signed`, or as itself, can live. */
  predicate InTime(at: Time, maxTTL: int, c: CA, signed: Time) {
    signed < at + maxTTL || c.notAfter <= at + 2 * maxTTL
  }

  /** What to check before a reload: the bundle file lists c, if it is published, and the retirement
      file does not say that it retired too early. */
  predicate Safe(s: State, metadata: bool, maxTTL: int, c: CA, signed: Time) {
    Some(c) in s.certs ==>
      && Listed(s, c)
      && (metadata && c in s.times && s.times[c] > 0 ==> InTime(s.times[c], maxTTL, c, signed))
  }

  /** The state of CA c for leaves signed at `signed`: it signs still, or it retired late enough
      for them, or they are over. */
  ghost predicate Covers(s: State, maxTTL: int, c: CA, signed: Time, last: Time)
    requires s.certs != []
  {
    || s.certs[0] == Some(c)
    || (&& Some(c) in s.certs && c in s.retired && s.retired[c] > 0 && InTime(s.retired[c], maxTTL, c, signed)
        && signed < last + maxTTL)
    || c.notAfter <= last || signed + maxTTL < last
  }

  lemma RotationCovers(s: State, ca: CA, at: Time, maxTTL: int, c: CA, signed: Time, last: Time)
    requires Begun(s) && maxTTL > 0 && at > 0 && last <= at && Covers(s, maxTTL, c, signed, last)
    requires ca != c && (s.certs[0] == Some(c) ==> signed < at + maxTTL)
    ensures Covers(Rotated(s, ca, at, Both, maxTTL), maxTTL, c, signed, at)
  {
    if c.notAfter > last && signed + maxTTL >= last { RetainedKeeps(s, ca, at, maxTTL, c); }
  }

  lemma ReloadCovers(s: State, ca: CA, at: Time, metadata: bool, maxTTL: int, c: CA, signed: Time, last: Time)
    requires Begun(s) && maxTTL > 0 && at > 0 && last <= at && Covers(s, maxTTL, c, signed, last)
    requires ca != c && (s.certs[0] == Some(c) ==> signed < at + maxTTL) && Safe(s, metadata, maxTTL, c, signed)
    ensures Covers(Reloaded(s, ca, at, metadata), maxTTL, c, signed, at)
  {
    if c.notAfter > last && signed + maxTTL >= last { ReloadIs(s, ca, at, metadata, c); }
  }

  lemma CoversStep(s: State, r: Step, maxTTL: int, c: CA, signed: Time, last: Time)
    requires Begun(s) && maxTTL > 0 && r.at > 0 && last <= r.at && Covers(s, maxTTL, c, signed, last)
    requires s.certs[0] == Some(c) && Installs(r) && r.ca != c ==> signed < r.at + maxTTL
    requires r.Reload? && r.ca != c ==> Safe(s, r.metadata, maxTTL, c, signed)
    ensures Apply(s, r, maxTTL).certs != [] && Covers(Apply(s, r, maxTTL), maxTTL, c, signed, r.at)
  {
    StepBegun(s, r, maxTTL);
    if Installs(r) && r.ca != c {
      if r.Rotation? {
        RotationCovers(s, r.ca, r.at, maxTTL, c, signed, last);
      } else {
        ReloadCovers(s, r.ca, r.at, r.metadata, maxTTL, c, signed, last);
      }
    }
  }

  /** Step j takes c's place. */
  predicate Replaces(start: State, rs: seq<Step>, j: nat, c: CA)
    requires start.certs != [] && j < |rs|
  {
    Newest(start, rs[..j]) == Some(c) && Installs(rs[j]) && rs[j].ca != c
  }

  /** No step took c's place a whole TTL or more before it signed at `signed`. */
  ghost predicate SignedInTime(start: State, rs: seq<Step>, maxTTL: int, k: nat, n: nat, c: CA, signed: Time)
    requires start.certs != [] && k <= n <= |rs|
  {
    forall j {:trigger Replaces(start, rs, j, c)} | k <= j < n && Replaces(start, rs, j, c) ::
      signed < rs[j].at + maxTTL
  }

  ghost predicate SafeAt(start: State, rs: seq<Step>, maxTTL: int, j: nat, c: CA, signed: Time)
    requires j < |rs|
  {
    rs[j].Reload? && rs[j].ca != c ==> Safe(After(start, rs[..j], maxTTL), rs[j].metadata, maxTTL, c, signed)
  }

  /** Every reload in between finds what it needs in the files. */
  ghost predicate SafeReloads(start: State, rs: seq<Step>, maxTTL: int, k: nat, n: nat, c: CA, signed: Time)
    requires k <= n <= |rs|
  {
    forall j {:trigger SafeAt(start, rs, maxTTL, j, c, signed)} | k <= j < n :: SafeAt(start, rs, maxTTL, j, c, signed)
  }

  /** A leaf that c signed in this run: c was current after the first k steps, the leaf was signed
      less than a TTL after c's retirement, lives a while but at most maxTTL and not past c, and is
      alive at `now`, which is not before the n-th step. */
  ghost predicate AliveLeaf(start: State, rs: seq<Step>, maxTTL: int, k: nat, n: nat, c: CA, signed: Time,
                            notAfter: Time, now: Time)
  {
    && Begun(start) && Possible(rs) && k <= n <= |rs| && Newest(start, rs[..k]) == Some(c)
    && SignedInTime(start, rs, maxTTL, k, n, c, signed)
    && signed < notAfter <= signed + maxTTL && notAfter <= c.notAfter
    && now <= notAfter && (n > 0 ==> rs[n - 1].at <= now)
  }

  lemma Shorter(start: State, rs: seq<Step>, maxTTL: int, k: nat, n: nat, m: nat, c: CA, signed: Time)
    requires start.certs != [] && k <= m <= n <= |rs|
    requires SignedInTime(start, rs, maxTTL, k, n, c, signed) && SafeReloads(start, rs, maxTTL, k, n, c, signed)
    ensures SignedInTime(start, rs, maxTTL, k, m, c, signed) && SafeReloads(start, rs, maxTTL, k, m, c, signed)
  {
  }

  /** After the first n steps. */
  ghost predicate CoversAfter(start: State, rs: seq<Step>, maxTTL: int, n: nat, c: CA, signed: Time)
    requires n <= |rs|
  {
    var s := After(start, rs[..n], maxTTL);
    Begun(s) && Covers(s, maxTTL, c, signed, if n == 0 then 0 else rs[n - 1].at)
  }

  lemma CoversNext(start: State, rs: seq<Step>, maxTTL: int, n: nat, c: CA, signed: Time)
    requires maxTTL > 0 && Begun(start) && Possible(rs) && n < |rs| && CoversAfter(start, rs, maxTTL, n, c, signed)
    requires SafeAt(start, rs, maxTTL, n, c, signed) && (Replaces(start, rs, n, c) ==> signed < rs[n].at + maxTTL)
    ensures CoversAfter(start, rs, maxTTL, n + 1, c, signed)
  {
    var s := After(start, rs[..n], maxTTL);
    NewestIsFirst(start, rs[..n], maxTTL);
    StepBegun(s, rs[n], maxTTL);
    CoversStep(s, rs[n], maxTTL, c, signed, if n == 0 then 0 else rs[n - 1].at);
    AfterStep(start, rs, maxTTL, n);
  }

  lemma {:induction false} CoversAlways(start: State, rs: seq<Step>, maxTTL: int, k: nat, n: nat, c: CA, signed: Time)
    requires maxTTL > 0 && Begun(start) && Possible(rs) && k <= n <= |rs| && Newest(start, rs[..k]) == Some(c)
    requires SignedInTime(start, rs, maxTTL, k, n, c, signed) && SafeReloads(start, rs, maxTTL, k, n, c, signed)
    ensures CoversAfter(start, rs, maxTTL, n, c, signed)
    decreases n
  {
    if n == k {
      NewestIsFirst(start, rs[..n], maxTTL);
    } else {
      Shorter(start, rs, maxTTL, k, n, n - 1, c, signed);
      CoversAlways(start, rs, maxTTL, k, n - 1, c, signed);
      assert Replaces(start, rs, n - 1, c) ==> signed < rs[n - 1].at + maxTTL;
      assert SafeAt(start, rs, maxTTL, n - 1, c, signed);
      CoversNext(start, rs, maxTTL, n - 1, c, signed);
    }
  }

  /** The issuer of a living leaf is published until the CA itself expires. */
  lemma LivingLeavesAreCovered(start: State, rs: seq<Step>, maxTTL: int, k: nat, n: nat, c: CA, signed: Time,
                               notAfter: Time, now: Time)
    requires maxTTL > 0 && AliveLeaf(start, rs, maxTTL, k, n, c, signed, notAfter, now)
    requires SafeReloads(start, rs, maxTTL, k, n, c, signed) && now < c.notAfter
    ensures Some(c) in After(start, rs[..n], maxTTL).certs
  {
    CoversAlways(start, rs, maxTTL, k, n, c, signed);
  }

  // ---- the CA's last instant ----

  /** The step at j is a rotation away from c at the instant it expires, and no later step before
      n makes c current again. */
  ghost predicate DroppedAt(rs: seq<Step>, n: nat, c: CA, j: nat)
    requires n <= |rs|
  {
    && j < n && Drops(rs[j], c) && rs[j].ca != c
    && forall i | j < i < n :: !(Installs(rs[i]) && rs[i].ca == c)
  }

  /** A rotation that succeeds at the instant c expires. */
  predicate Drops(step: Step, c: CA) {
    step.Rotation? && step.written.Both? && step.at == c.notAfter
  }

  ghost predicate Dropped(rs: seq<Step>, n: nat, c: CA)
    requires n <= |rs|
  {
    exists j: nat :: DroppedAt(rs, n, c, j)
  }

  lemma DroppedStep(rs: seq<Step>, n: nat, c: CA)
    requires n < |rs|
    ensures Dropped(rs, n + 1, c) <==>
            if Installs(rs[n]) && rs[n].ca == c then false else Dropped(rs, n, c) || Drops(rs[n], c)
  {
    if Dropped(rs, n, c) {
      var j: nat :| DroppedAt(rs, n, c, j);
      if !(Installs(rs[n]) && rs[n].ca == c) { assert DroppedAt(rs, n + 1, c, j); }
    }
    if Drops(rs[n], c) && rs[n].ca != c { assert DroppedAt(rs, n + 1, c, n); }
    if Dropped(rs, n + 1, c) {
      var j: nat :| DroppedAt(rs, n + 1, c, j);
      if j < n { assert DroppedAt(rs, n, c, j); }
    }
  }

  /** What a step at the instant c expires does to c's place. */
  lemma ExpiryStep(s: State, r: Step, maxTTL: int, c: CA, signed: Time)
    requires Begun(s) && r.at == c.notAfter && (r.Reload? && r.ca != c ==> Safe(s, r.metadata, maxTTL, c, signed))
    ensures Some(c) in Apply(s, r, maxTTL).certs <==>
            if Installs(r) && r.ca == c then true else Some(c) in s.certs && !Drops(r, c)
  {
    StepBegun(s, r, maxTTL);
    if r.Reload? && r.ca != c {
      ReloadIs(s, r.ca, r.at, r.metadata, c);
    } else if r.Rotation? && r.written.Both? && r.ca != c {
      RetainedAre(s.certs, s.retired, r.ca, r.at, maxTTL, c);
    }
  }

  lemma {:induction false} NewestNotDropped(start: State, rs: seq<Step>, k: nat, c: CA)
    requires start.certs != [] && k <= |rs| && Newest(start, rs[..k]) == Some(c)
    ensures !Dropped(rs, k, c)
  {
    if k > 0 {
      assert rs[..k][..k - 1] == rs[..k - 1];
      DroppedStep(rs, k - 1, c);
      if !Installs(rs[k - 1]) { NewestNotDropped(start, rs, k - 1, c); }
    }
  }

  lemma BeforeExpiryNotDropped(rs: seq<Step>, n: nat, c: CA)
    requires Possible(rs) && n <= |rs| && (n > 0 ==> rs[n - 1].at < c.notAfter)
    ensures !Dropped(rs, n, c)
  {
    forall j: nat ensures !DroppedAt(rs, n, c, j) {
      if j < n - 1 { assert rs[j].at <= rs[n - 1].at; }
    }
  }

  lemma CoveredBeforeExpiry(start: State, rs: seq<Step>, maxTTL: int, k: nat, n: nat, c: CA, signed: Time)
    requires maxTTL > 0 && Begun(start) && Possible(rs) && k < n <= |rs| && Newest(start, rs[..k]) == Some(c)
    requires SignedInTime(start, rs, maxTTL, k, n, c, signed) && SafeReloads(start, rs, maxTTL, k, n, c, signed)
    requires c.notAfter <= signed + maxTTL && rs[n - 1].at < c.notAfter
    ensures Some(c) in After(start, rs[..n], maxTTL).certs && !Dropped(rs, n, c)
  {
    BeforeExpiryNotDropped(rs, n, c);
    CoversAlways(start, rs, maxTTL, k, n, c, signed);
  }

  lemma DroppedOrCovered(start: State, rs: seq<Step>, maxTTL: int, n: nat, c: CA, signed: Time)
    requires Begun(start) && n < |rs| && rs[n].at == c.notAfter && SafeAt(start, rs, maxTTL, n, c, signed)
    requires Some(c) in After(start, rs[..n], maxTTL).certs <==> !Dropped(rs, n, c)
    ensures Some(c) in After(start, rs[..n + 1], maxTTL).certs <==> !Dropped(rs, n + 1, c)
  {
    NewestIsFirst(start, rs[..n], maxTTL);
    AfterStep(start, rs, maxTTL, n);
    ExpiryStep(After(start, rs[..n], maxTTL), rs[n], maxTTL, c, signed);
    DroppedStep(rs, n, c);
  }

  lemma {:induction false} CoveredUnlessDropped(start: State, rs: seq<Step>, maxTTL: int, k: nat, n: nat, c: CA,
                                                signed: Time)
    requires maxTTL > 0 && Begun(start) && Possible(rs) && k <= n <= |rs| && Newest(start, rs[..k]) == Some(c)
    requires SignedInTime(start, rs, maxTTL, k, n, c, signed) && SafeReloads(start, rs, maxTTL, k, n, c, signed)
    requires c.notAfter <= signed + maxTTL && (n > 0 ==> rs[n - 1].at <= c.notAfter)
    ensures Some(c) in After(start, rs[..n], maxTTL).certs <==> !Dropped(rs, n, c)
    decreases n
  {
    if n == k {
      NewestIsFirst(start, rs[..n], maxTTL);
      NewestNotDropped(start, rs, k, c);
    } else if rs[n - 1].at < c.notAfter {
      CoveredBeforeExpiry(start, rs, maxTTL, k, n, c, signed);
    } else {
      assert n > 1 ==> rs[n - 2].at <= rs[n - 1].at;
      Shorter(start, rs, maxTTL, k, n, n - 1, c, signed);
      CoveredUnlessDropped(start, rs, maxTTL, k, n - 1, c, signed);
      assert SafeAt(start, rs, maxTTL, n - 1, c, signed);
      DroppedOrCovered(start, rs, maxTTL, n - 1, c, signed);
    }
  }

  /** At the instant the CA and its leaf expire, the leaf is still valid and its issuer is published
      if and only if no rotation of that very instant dropped it. */
  lemma LastInstantExactly(start: State, rs: seq<Step>, maxTTL: int, k: nat, n: nat, c: CA, signed: Time)
    requires maxTTL > 0 && AliveLeaf(start, rs, maxTTL, k, n, c, signed, c.notAfter, c.notAfter)
    requires SafeReloads(start, rs, maxTTL, k, n, c, signed)
    ensures Some(c) in After(start, rs[..n], maxTTL).certs <==> !Dropped(rs, n, c)
  {
    CoveredUnlessDropped(start, rs, maxTTL, k, n, c, signed);
  }

  ghost predicate AlwaysCovered(c: CA, maxTTL: int, now: Time) {
    forall start, rs, k, n, signed, notAfter |
      AliveLeaf(start, rs, maxTTL, k, n, c, signed, notAfter, now) && SafeReloads(start, rs, maxTTL, k, n, c, signed) ::
      Some(c) in After(start, rs[..n], maxTTL).certs
  }

  /** Every leaf that lives exactly as long as its CA can lose its issuer at its last instant: a
      rotation at that instant drops the CA. */
  lemma LastInstantUncovered(c: CA, maxTTL: int, next: CA, signed: Time)
    requires maxTTL > 0 && signed < c.notAfter <= signed + maxTTL && next != c
    ensures var start, rs, t := State([Some(c)], map[], None, map[]), [Rotation(next, c.notAfter, Both)], c.notAfter;
            && AliveLeaf(start, rs, maxTTL, 0, 1, c, signed, t, t) && SafeReloads(start, rs, maxTTL, 0, 1, c, signed)
            && Some(c) !in After(start, rs[..1], maxTTL).certs
  {
    var start, rs := State([Some(c)], map[], None, map[]), [Rotation(next, c.notAfter, Both)];
    assert rs[..0] == [] && rs[..1] == rs;
    RetainedKeeps(start, next, c.notAfter, maxTTL, c);
  }

  /** Coverage at `now` is guaranteed, reloads being safe, exactly while the CA has not expired. */
  lemma CoveredIffBeforeExpiry(c: CA, maxTTL: int, now: Time)
    requires maxTTL > 0 && 0 < now <= c.notAfter
    ensures AlwaysCovered(c, maxTTL, now) <==> now < c.notAfter
  {
    if now < c.notAfter {
      forall start, rs, k, n, signed, notAfter |
        AliveLeaf(start, rs, maxTTL, k, n, c, signed, notAfter, now) && SafeReloads(start, rs, maxTTL, k, n, c, signed)
        ensures Some(c) in After(start, rs[..n], maxTTL).certs
      {
        LivingLeavesAreCovered(start, rs, maxTTL, k, n, c, signed, notAfter, now);
      }
    } else {
      LastInstantUncovered(c, maxTTL, CA(c.id + 1, c.notAfter), now - 1);
    }
  }
}
