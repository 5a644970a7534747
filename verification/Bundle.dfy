/** The published CA bundle (internal/issuer/bundle.go). */
module Bundle {
  import opened Wrappers

  /** A CA certificate.  Certificates are compared by their bytes and retirements are kept by
      fingerprint; `id` stands for both. */
  datatype CA = CA(id: nat, notAfter: Time)

  type Certs = seq<Option<CA>>

  type Retirements = map<CA, Time>

  // ---- the rules ----

  /** When a CA stopped signing: now for the current one and for one never recorded. */
  function RetiredAt(retired: Retirements, i: nat, c: CA, now: Time): Time {
    if i == 0 || c !in retired || retired[c] == 0 then now else retired[c]
  }

  predicate ShouldDrop(c: CA, retiredAt: Time, now: Time, maxTTL: int) {
    c.notAfter <= now || (maxTTL > 0 && retiredAt + 2 * maxTTL <= now)
  }

  predicate Skipped(cert: Option<CA>, current: CA) {
    cert.None? || cert.value == current
  }

  /** What a rotation to `current` keeps of the bundle, with the retirement times. */
  function Retained(certs: Certs, retired: Retirements, current: CA, now: Time, maxTTL: int): (Certs, Retirements) {
    if certs == [] then ([], map[])
    else
      var i := |certs| - 1;
      var (kept, times) := Retained(certs[..i], retired, current, now, maxTTL);
      if Skipped(certs[i], current) then (kept, times)
      else
        var c := certs[i].value;
        var at := RetiredAt(retired, i, c, now);
        if ShouldDrop(c, at, now, maxTTL) then (kept, times) else (kept + [certs[i]], times[c := at])
  }

  function WithoutCurrent(current: CA, certs: Certs): Certs {
    if certs == [] then []
    else
      var rest := WithoutCurrent(current, certs[..|certs| - 1]);
      if Skipped(certs[|certs| - 1], current) then rest else rest + [certs[|certs| - 1]]
  }

  function Prepended(current: Option<CA>, certs: Certs): Certs {
    if current.None? then certs else [current] + WithoutCurrent(current.value, certs)
  }

  function RetirementsFor(current: Option<CA>, certs: Certs, retired: Retirements, fallback: Time): Retirements {
    if certs == [] then map[]
    else
      var i := |certs| - 1;
      var rest := RetirementsFor(current, certs[..i], retired, fallback);
      if certs[i].None? || certs[i] == current then rest
      else rest[certs[i].value := RetiredAt(retired, 1, certs[i].value, fallback)]
  }

  // ---- the two files ----

  /** How far a write of both files comes: the retirement times go first, each file is replaced
      whole or not at all, and only a write of both is a success. */
  datatype Written = Nothing | TimesOnly | Both

  /** A zero time is not written. */
  function NonZero(retired: Retirements): Retirements {
    map c | c in retired && retired[c] != 0 :: retired[c]
  }

  function FileAfter(file: Option<Certs>, next: Certs, written: Written): Option<Certs> {
    if written.Both? then Some(next) else file
  }

  function TimesAfter(times: Retirements, next: Retirements, written: Written): Retirements {
    if written.Nothing? then times else NonZero(next)
  }

  function FirstCert(certs: Certs): Option<CA> {
    if certs == [] then None else certs[0]
  }

  // ---- the manager ----

  /** `bundleFile` and `timesFile` are what the repository directory holds, a missing retirement file
      being the same as an empty one; `repo` says whether there is such a directory. */
  class BundleManager {
    var certs: Certs
    var retiredAt: Retirements
    var bundleFile: Option<Certs>
    var timesFile: Retirements
    const maxTTL: int
    const repo: bool

    constructor (maxTTL: int, repo: bool, bundleFile: Option<Certs>, timesFile: Retirements)
      ensures certs == [] && retiredAt == map[] && this.maxTTL == maxTTL && this.repo == repo
      ensures this.bundleFile == bundleFile && this.timesFile == timesFile
    {
      certs, retiredAt := [], map[];
      this.bundleFile, this.timesFile := bundleFile, timesFile;
      this.maxTTL, this.repo := maxTTL, repo;
    }

    method SetInitial(caCert: CA)
      modifies this`certs, this`retiredAt
      ensures certs == [Some(caCert)] && retiredAt == map[]
    {
      certs, retiredAt := [Some(caCert)], map[];
    }

    method SetWithCurrent(current: Option<CA>, retained: Certs, now: Time)
      modifies this`certs, this`retiredAt
      ensures certs == Prepended(current, retained)
      ensures retiredAt == RetirementsFor(current, certs, old(retiredAt), now)
    {
      certs := PrependCurrentCA(current, retained);
      retiredAt := RetirementsForCurrent(current, now);
    }

    /** The bundle read back, with the times if they can be read; None is a bundle that cannot be. */
    method LoadFromRepo(bundleReadable: bool, timesReadable: bool) returns (loaded: Option<Certs>)
      modifies this`retiredAt
      ensures loaded == if !repo || bundleFile.None? then Some([]) else if bundleReadable then bundleFile else None
      ensures retiredAt == if !repo || bundleFile.None? || !bundleReadable then old(retiredAt)
                           else if timesReadable then timesFile else map[]
    {
      if !repo || bundleFile.None? {
        return Some([]);
      }
      if !bundleReadable {
        return None;
      }
      retiredAt := if timesReadable then timesFile else map[];
      return bundleFile;
    }

    method PersistLocked(next: Certs, times: Retirements, written: Written) returns (ok: bool)
      modifies this`bundleFile, this`timesFile
      ensures ok == (!repo || written.Both?)
      ensures bundleFile == if repo then FileAfter(old(bundleFile), next, written) else old(bundleFile)
      ensures timesFile == if repo then TimesAfter(old(timesFile), times, written) else old(timesFile)
    {
      if !repo {
        return true;
      }
      if written.Nothing? {
        return false;
      }
      timesFile := NonZero(times);
      if written.TimesOnly? {
        return false;
      }
      bundleFile := Some(next);
      return true;
    }

    /** A failure publishes nothing, but the new retirement times may be in the file. */
    method Rotate(newCA: CA, now: Time, written: Written) returns (ok: bool)
      modifies this
      ensures ok == (!repo || written.Both?)
      ensures var (kept, times) := Retained(old(certs), old(retiredAt), newCA, now, maxTTL);
              var next := [Some(newCA)] + kept;
              && (certs, retiredAt) == (if ok then (next, times) else (old(certs), old(retiredAt)))
              && bundleFile == (if repo then FileAfter(old(bundleFile), next, written) else old(bundleFile))
              && timesFile == (if repo then TimesAfter(old(timesFile), times, written) else old(timesFile))
    {
      var retained, times := RetainedRetiredCAs(newCA, now);
      var next := [Some(newCA)] + retained;
      ok := PersistLocked(next, times, written);
      if ok {
        certs, retiredAt := next, times;
      }
    }

    method PersistCurrent(now: Time, written: Written) returns (ok: bool)
      modifies this`bundleFile, this`timesFile
      ensures ok == (!repo || written.Both?)
      ensures var times := RetirementsFor(FirstCert(certs), certs, retiredAt, now);
              && bundleFile == (if repo then FileAfter(old(bundleFile), certs, written) else old(bundleFile))
              && timesFile == (if repo then TimesAfter(old(timesFile), times, written) else old(timesFile))
    {
      var times := RetirementsForCurrent(if certs == [] then None else certs[0], now);
      ok := PersistLocked(certs, times, written);
    }

    method RetainedRetiredCAs(newCurrent: CA, now: Time) returns (retained: Certs, times: Retirements)
      ensures (retained, times) == Retained(certs, retiredAt, newCurrent, now, maxTTL)
    {
      retained, times := [], map[];
      for i := 0 to |certs|
        invariant (retained, times) == Retained(certs[..i], retiredAt, newCurrent, now, maxTTL)
      {
        assert certs[..i + 1][..i] == certs[..i];
        if certs[i].None? || certs[i].value == newCurrent {
          continue;
        }
        var c := certs[i].value;
        var at := if c in retiredAt then retiredAt[c] else 0;
        if at == 0 {
          at := now;
        }
        if i == 0 {
          at := now;
        }
        if ShouldDrop(c, at, now, maxTTL) {
          continue;
        }
        retained := retained + [certs[i]];
        times := times[c := at];
      }
      assert certs[..|certs|] == certs;
    }

    method RetirementsForCurrent(current: Option<CA>, fallback: Time) returns (out: Retirements)
      ensures out == RetirementsFor(current, certs, retiredAt, fallback)
    {
      out := map[];
      for i := 0 to |certs|
        invariant out == RetirementsFor(current, certs[..i], retiredAt, fallback)
      {
        assert certs[..i + 1][..i] == certs[..i];
        if certs[i].None? || certs[i] == current {
          continue;
        }
        var c := certs[i].value;
        var at := if c in retiredAt then retiredAt[c] else 0;
        if at == 0 {
          at := fallback;
        }
        out := out[c := at];
      }
      assert certs[..|certs|] == certs;
    }
  }

  method PrependCurrentCA(current: Option<CA>, certs: Certs) returns (out: Certs)
    ensures out == Prepended(current, certs)
  {
    if current.None? {
      return certs;
    }
    out := [current];
    for i := 0 to |certs|
      invariant out == [current] + WithoutCurrent(current.value, certs[..i])
    {
      assert certs[..i + 1][..i] == certs[..i];
      if certs[i].None? || certs[i].value == current.value {
        continue;
      }
      out := out + [certs[i]];
    }
    assert certs[..|certs|] == certs;
  }

  // ---- what a rotation keeps ----

  /** The place in the bundle decides, for each CA listed once, whether it is kept. */
  predicate Keeps(certs: Certs, retired: Retirements, current: CA, now: Time, maxTTL: int, i: nat)
    requires i < |certs|
  {
    !Skipped(certs[i], current) && !ShouldDrop(certs[i].value, RetiredAt(retired, i, certs[i].value, now), now, maxTTL)
  }

  ghost predicate KeepsSome(certs: Certs, retired: Retirements, current: CA, now: Time, maxTTL: int, c: CA) {
    exists i | 0 <= i < |certs| :: certs[i] == Some(c) && Keeps(certs, retired, current, now, maxTTL, i)
  }

  lemma {:induction false} RetainedAre(certs: Certs, retired: Retirements, current: CA, now: Time, maxTTL: int, c: CA)
    ensures var (kept, times) := Retained(certs, retired, current, now, maxTTL);
            && (Some(c) in kept <==> KeepsSome(certs, retired, current, now, maxTTL, c))
            && (c in times <==> Some(c) in kept)
            && None !in kept
  {
    if certs != [] {
      var n := |certs| - 1;
      var init := certs[..n];
      RetainedAre(init, retired, current, now, maxTTL, c);
      assert forall i | 0 <= i < n :: init[i] == certs[i];
      assert KeepsSome(certs, retired, current, now, maxTTL, c) <==>
             KeepsSome(init, retired, current, now, maxTTL, c) ||
             (certs[n] == Some(c) && Keeps(certs, retired, current, now, maxTTL, n)) by {
        if KeepsSome(init, retired, current, now, maxTTL, c) {
          var i :| 0 <= i < n && init[i] == Some(c) && Keeps(init, retired, current, now, maxTTL, i);
          assert certs[i] == Some(c) && Keeps(certs, retired, current, now, maxTTL, i);
        }
        if KeepsSome(certs, retired, current, now, maxTTL, c) {
          var i :| 0 <= i < |certs| && certs[i] == Some(c) && Keeps(certs, retired, current, now, maxTTL, i);
          if i < n { assert init[i] == Some(c) && Keeps(init, retired, current, now, maxTTL, i); }
        }
      }
    }
  }
}
