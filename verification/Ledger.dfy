/** Which node's inventory vouched for a pod sandbox (internal/sandboxledger/ledger.go): a
    first-write-wins map whose bindings expire and whose size is capped. */
module Ledger {
  import opened Bytes
  import opened Wrappers

  datatype Binding = Binding(host: bytes, expires: int)

  type Bindings = map<bytes, Binding>

  predicate IsLive(m: Bindings, id: bytes, now: Time) {
    id in m && now < m[id].expires
  }

  function LiveOnly(m: Bindings, now: Time): Bindings {
    map id | id in m && now < m[id].expires :: m[id]
  }

  function LookedUp(m: Bindings, id: bytes, now: Time): Option<bytes> {
    if IsLive(m, id, now) then Some(m[id].host) else None
  }

  function Recorded(m: Bindings, id: bytes, host: bytes, now: Time, ttl: int, max: int): (Bindings, bool) {
    if id == [] || host == [] then (m, false)
    else if IsLive(m, id, now) && m[id].host != host then (m, false)
    else
      var full := id !in m && |m| >= max;
      var room := if full then LiveOnly(m, now) else m;
      if full && |room| >= max then (room, false)
      else (room[id := Binding(host, now + ttl)], true)
  }

  class LedgerObject {
    var bindings: Bindings
    const ttl: int
    const max: int

    constructor (ttl: int, max: int)
      ensures bindings == map[] && this.ttl == ttl && this.max == max
    {
      bindings := map[];
      this.ttl, this.max := ttl, max;
    }

    /** The map is walked in no particular order while entries are deleted from it. */
    method EvictExpiredLocked(now: Time)
      modifies this
      ensures bindings == LiveOnly(old(bindings), now)
    {
      var todo := bindings.Keys;
      while todo != {}
        invariant todo <= old(bindings).Keys
        invariant bindings == map id | id in old(bindings) && (id in todo || now < old(bindings)[id].expires) ::
                  old(bindings)[id]
        decreases |todo|
      {
        var id :| id in todo;
        todo := todo - {id};
        if now >= bindings[id].expires {
          bindings := bindings - {id};
        }
      }
    }

    method Record(id: bytes, host: bytes, now: Time) returns (ok: bool)
      modifies this
      ensures (bindings, ok) == Recorded(old(bindings), id, host, now, ttl, max)
      ensures old(Bounded(bindings, max)) ==> Bounded(bindings, max)
    {
      if Bounded(bindings, max) { RecordKeepsBound(bindings, id, host, now, ttl, max); }
      if id == [] || host == [] {
        return false;
      }
      if id in bindings && now < bindings[id].expires {
        if bindings[id].host != host {
          return false;
        }
      }
      if id !in bindings && |bindings| >= max {
        EvictExpiredLocked(now);
        if |bindings| >= max {
          return false;
        }
      }
      bindings := bindings[id := Binding(host, now + ttl)];
      return true;
    }

    method Lookup(id: bytes, now: Time) returns (host: Option<bytes>)
      ensures host == LookedUp(bindings, id, now)
    {
      if id !in bindings || now >= bindings[id].expires {
        return None;
      }
      return Some(bindings[id].host);
    }

    method Len(now: Time) returns (n: nat)
      modifies this
      ensures bindings == LiveOnly(old(bindings), now) && n == |LiveOnly(old(bindings), now)|
    {
      EvictExpiredLocked(now);
      return |bindings|;
    }
  }

  ghost predicate Bounded(m: Bindings, max: int) {
    |m| == 0 || |m| <= max
  }

  lemma FewerKeys(m: Bindings, m': Bindings)
    requires m'.Keys <= m.Keys
    ensures |m'| <= |m|
  {
    assert m.Keys == m'.Keys + (m.Keys - m'.Keys);
  }

  lemma RecordKeepsBound(m: Bindings, id: bytes, host: bytes, now: Time, ttl: int, max: int)
    requires Bounded(m, max)
    ensures Bounded(Recorded(m, id, host, now, ttl, max).0, max)
  {
    var b := Binding(host, now + ttl);
    FewerKeys(m, LiveOnly(m, now));
    assert m[id := b].Keys == m.Keys + {id};
    assert LiveOnly(m, now)[id := b].Keys == LiveOnly(m, now).Keys + {id};
    assert id in m ==> m[id := b].Keys == m.Keys;
  }

  // ---- runs ----

  datatype Op = Record(id: bytes, host: bytes, at: Time) | Sweep(at: Time)

  predicate Possible(ops: seq<Op>) {
    forall i, j | 0 <= i < j < |ops| :: ops[i].at <= ops[j].at
  }

  function After(ops: seq<Op>, ttl: int, max: int): Bindings {
    if ops == [] then map[]
    else
      var m := After(ops[..|ops| - 1], ttl, max);
      match ops[|ops| - 1]
      case Record(id, host, at) => Recorded(m, id, host, at, ttl, max).0
      case Sweep(at) => LiveOnly(m, at)
  }

  predicate Accepted(ops: seq<Op>, ttl: int, max: int, i: nat)
    requires i < |ops|
  {
    ops[i].Record? && Recorded(After(ops[..i], ttl, max), ops[i].id, ops[i].host, ops[i].at, ttl, max).1
  }

  lemma {:induction false} AlwaysBounded(ops: seq<Op>, ttl: int, max: int)
    ensures Bounded(After(ops, ttl, max), max)
  {
    if ops != [] {
      var n := |ops| - 1;
      AlwaysBounded(ops[..n], ttl, max);
      var m := After(ops[..n], ttl, max);
      match ops[n]
      case Record(id, host, at) => RecordKeepsBound(m, id, host, at, ttl, max);
      case Sweep(at) => FewerKeys(m, LiveOnly(m, at));
    }
  }

  /** An accepted record vouches for `id` at `now`. */
  predicate Vouches(ops: seq<Op>, ttl: int, max: int, i: nat, id: bytes, host: bytes, now: Time)
    requires i < |ops|
  {
    Accepted(ops, ttl, max, i) && ops[i].id == id && ops[i].host == host && now < ops[i].at + ttl
  }

  ghost predicate Vouched(ops: seq<Op>, ttl: int, max: int, n: nat, id: bytes, host: bytes, now: Time)
    requires n <= |ops|
  {
    exists i | 0 <= i < n :: Vouches(ops, ttl, max, i, id, host, now)
  }

  lemma RecordedLookup(m: Bindings, r: Op, ttl: int, max: int, id: bytes, now: Time)
    requires r.Record? && r.at <= now
    ensures var (m', ok) := Recorded(m, r.id, r.host, r.at, ttl, max);
            LookedUp(m', id, now) ==
            if ok && r.id == id then (if now < r.at + ttl then Some(r.host) else None) else LookedUp(m, id, now)
    ensures Recorded(m, r.id, r.host, r.at, ttl, max).1 ==> LookedUp(m, r.id, r.at) in {None, Some(r.host)}
  {
  }

  /** Lookup answers `host` exactly when some accepted record of that very host is less than
      one TTL old.  So a sandbox's host cannot change until a full TTL after its last
      refresh, and sweeping never shows. */
  lemma {:induction false} LookupExactly(ops: seq<Op>, ttl: int, max: int, n: nat, id: bytes, host: bytes, now: Time)
    requires Possible(ops) && n <= |ops| && (n > 0 ==> ops[n - 1].at <= now)
    ensures LookedUp(After(ops[..n], ttl, max), id, now) == Some(host) <==> Vouched(ops, ttl, max, n, id, host, now)
    decreases n
  {
    if n > 0 {
      var op := ops[n - 1];
      var m := After(ops[..n - 1], ttl, max);
      assert ops[..n][..n - 1] == ops[..n - 1];
      LookupExactly(ops, ttl, max, n - 1, id, host, now);
      LookupExactly(ops, ttl, max, n - 1, id, host, op.at);
      VouchedStep(ops, ttl, max, n - 1, id, host, now);
      if op.Record? { RecordedLookup(m, op, ttl, max, id, now); }
      if Vouched(ops, ttl, max, n - 1, id, host, now) { VouchedEarlier(ops, ttl, max, n - 1, id, host, op.at, now); }
    }
  }

  lemma VouchedStep(ops: seq<Op>, ttl: int, max: int, n: nat, id: bytes, host: bytes, now: Time)
    requires n < |ops|
    ensures Vouched(ops, ttl, max, n + 1, id, host, now) <==>
            Vouched(ops, ttl, max, n, id, host, now) || Vouches(ops, ttl, max, n, id, host, now)
  {
  }

  lemma VouchedEarlier(ops: seq<Op>, ttl: int, max: int, n: nat, id: bytes, host: bytes, at: Time, now: Time)
    requires Possible(ops) && n < |ops| && at == ops[n].at <= now && Vouched(ops, ttl, max, n, id, host, now)
    ensures Vouched(ops, ttl, max, n, id, host, at) && now < at + ttl
  {
    var i :| 0 <= i < n && Vouches(ops, ttl, max, i, id, host, now);
    assert Vouches(ops, ttl, max, i, id, host, at);
    assert ops[i].at <= ops[n].at;
  }

  /** A record of another host is refused until a full TTL after every accepted one. */
  lemma HostHeldForTtl(ops: seq<Op>, ttl: int, max: int, i: nat, j: nat)
    requires Possible(ops) && i < j < |ops|
    requires Accepted(ops, ttl, max, i) && Accepted(ops, ttl, max, j) && ops[i].id == ops[j].id &&
             ops[i].host != ops[j].host
    ensures ops[j].at >= ops[i].at + ttl
  {
    if ops[j].at < ops[i].at + ttl {
      assert Vouches(ops, ttl, max, i, ops[i].id, ops[i].host, ops[j].at);
      LookupExactly(ops, ttl, max, j, ops[i].id, ops[i].host, ops[j].at);
      RecordedLookup(After(ops[..j], ttl, max), ops[j], ttl, max, ops[j].id, ops[j].at);
      assert false;
    }
  }

  // ---- sweeping is invisible, also to the cap ----

  /** Whether a record is accepted depends on the live bindings alone. */
  lemma AcceptedByLive(m: Bindings, id: bytes, host: bytes, now: Time, ttl: int, max: int)
    requires Bounded(m, max)
    ensures Recorded(m, id, host, now, ttl, max).1 <==>
            && id != [] && host != []
            && (IsLive(m, id, now) ==> m[id].host == host)
            && (IsLive(m, id, now) || |LiveOnly(m, now)| < max)
  {
    FewerKeys(m, LiveOnly(m, now));
    if id in m && !IsLive(m, id, now) {
      FewerKeys(m - {id}, LiveOnly(m, now));
      assert (m - {id}).Keys == m.Keys - {id};
    }
  }

  function Records(ops: seq<Op>): seq<Op> {
    if ops == [] then []
    else Records(ops[..|ops| - 1]) + if ops[|ops| - 1].Record? then [ops[|ops| - 1]] else []
  }

  lemma LiveStep(m: Bindings, w: Bindings, r: Op, ttl: int, max: int, now: Time)
    requires r.Record? && r.at <= now && Bounded(m, max) && Bounded(w, max)
    requires LiveOnly(m, r.at) == LiveOnly(w, r.at)
    ensures var (m', ok) := Recorded(m, r.id, r.host, r.at, ttl, max);
            var (w', ok') := Recorded(w, r.id, r.host, r.at, ttl, max);
            ok == ok' && LiveOnly(m', now) == LiveOnly(w', now)
  {
    AcceptedByLive(m, r.id, r.host, r.at, ttl, max);
    AcceptedByLive(w, r.id, r.host, r.at, ttl, max);
    assert r.id in LiveOnly(m, r.at) <==> r.id in LiveOnly(w, r.at);
    LiveLater(m, w, r.at, now);
    var ok := Recorded(m, r.id, r.host, r.at, ttl, max).1;
    LiveRecorded(m, r, ttl, max, now);
    LiveRecorded(w, r, ttl, max, now);
  }

  lemma LiveLater(m: Bindings, w: Bindings, at: Time, now: Time)
    requires LiveOnly(m, at) == LiveOnly(w, at) && at <= now
    ensures LiveOnly(m, now) == LiveOnly(w, now)
  {
    assert LiveOnly(m, now) == LiveOnly(LiveOnly(m, at), now);
    assert LiveOnly(w, now) == LiveOnly(LiveOnly(w, at), now);
  }

  lemma LiveRecorded(m: Bindings, r: Op, ttl: int, max: int, now: Time)
    requires r.Record? && r.at <= now
    ensures var (m', ok) := Recorded(m, r.id, r.host, r.at, ttl, max);
            LiveOnly(m', now) ==
            if !ok then LiveOnly(m, now)
            else if now < r.at + ttl then LiveOnly(m, now)[r.id := Binding(r.host, r.at + ttl)]
            else LiveOnly(m, now) - {r.id}
  {
  }

  lemma {:induction false} SameLiveBindings(ops: seq<Op>, ttl: int, max: int, now: Time)
    requires Possible(ops) && (ops != [] ==> ops[|ops| - 1].at <= now)
    ensures LiveOnly(After(ops, ttl, max), now) == LiveOnly(After(Records(ops), ttl, max), now)
  {
    if ops != [] {
      var n := |ops| - 1;
      var op, before := ops[n], Records(ops[..n]);
      SameLiveBindings(ops[..n], ttl, max, op.at);
      var m, w := After(ops[..n], ttl, max), After(before, ttl, max);
      if op.Record? {
        AlwaysBounded(ops[..n], ttl, max);
        AlwaysBounded(before, ttl, max);
        assert (before + [op])[..|before|] == before;
        LiveStep(m, w, op, ttl, max, now);
      } else {
        assert Records(ops) == before && LiveOnly(LiveOnly(m, op.at), now) == LiveOnly(m, now);
        LiveLater(m, w, op.at, now);
      }
    }
  }

  /** Dropping every sweep from a run changes no answer: neither what a lookup sees nor
      whether a record is accepted. */
  lemma SweepsAreInvisible(ops: seq<Op>, ttl: int, max: int, id: bytes, host: bytes, now: Time)
    requires Possible(ops) && (ops != [] ==> ops[|ops| - 1].at <= now)
    ensures var m, w := After(ops, ttl, max), After(Records(ops), ttl, max);
            && LookedUp(m, id, now) == LookedUp(w, id, now)
            && Recorded(m, id, host, now, ttl, max).1 == Recorded(w, id, host, now, ttl, max).1
  {
    var m, w := After(ops, ttl, max), After(Records(ops), ttl, max);
    SameLiveBindings(ops, ttl, max, now);
    AlwaysBounded(ops, ttl, max);
    AlwaysBounded(Records(ops), ttl, max);
    LiveStep(m, w, Record(id, host, now), ttl, max, now);
    assert id in LiveOnly(m, now) <==> id in LiveOnly(w, now);
  }
}
