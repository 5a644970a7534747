/** The quota-accounted secret store (internal/secrets/store.go) and what a POST reveals of it
    (internal/secrets/handler.go:187-251). */
module SecretStore {
  import opened Bytes
  import opened Wrappers

  datatype Holder = Operator | WorkloadHolder(name: bytes)

  datatype Entry = Entry(value: bytes, holder: Holder)

  datatype Store = Store(values: map<bytes, Entry>, holders: map<Holder, nat>)

  datatype Limits = Limits(maxPaths: int, maxPerHolder: int, maxValue: int)

  datatype StoreError = TooLarge | HolderQuota | StoreFull

  /** What a path held before a write; the value never shows. */
  datatype Held = Nothing | Something(owner: Holder)

  datatype PutResult = Stored(value: bytes) | Existing(value: bytes, held: Held) | Refused(error: StoreError)

  // ---- the operations on values ----

  function Count(st: Store, h: Holder): nat {
    if h in st.holders then st.holders[h] else 0
  }

  function CheckRoom(st: Store, lim: Limits, owner: Holder): Option<StoreError> {
    if owner != Operator && Count(st, owner) >= lim.maxPerHolder then Some(HolderQuota)
    else if |st.values| >= lim.maxPaths then Some(StoreFull) else None
  }

  function Uncharged(st: Store, path: bytes): map<Holder, nat> {
    if path !in st.values then st.holders
    else
      var h := st.values[path].holder;
      if Count(st, h) <= 1 then st.holders - {h} else st.holders[h := st.holders[h] - 1]
  }

  /** The entry written and the path's charge moved to `owner`. */
  function Charged(st: Store, path: bytes, value: bytes, owner: Holder): Store {
    var freed := Uncharged(st, path);
    Store(st.values[path := Entry(value, owner)], freed[owner := (if owner in freed then freed[owner] else 0) + 1])
  }

  function PutIfAbsent(st: Store, lim: Limits, path: bytes, value: bytes, owner: Holder): (Store, PutResult) {
    if |value| > lim.maxValue then (st, Refused(TooLarge))
    else if path in st.values then (st, Existing(st.values[path].value, Something(st.values[path].holder)))
    else
      var room := CheckRoom(st, lim, owner);
      if room.Some? then (st, Refused(room.value)) else (Charged(st, path, value, owner), Stored(value))
  }

  function Put(st: Store, lim: Limits, path: bytes, value: bytes): (Store, Result<Held, StoreError>) {
    if |value| > lim.maxValue then (st, Err(TooLarge))
    else
      var room := CheckRoom(st, lim, Operator);
      if path !in st.values && room.Some? then (st, Err(room.value))
      else (Charged(st, path, value, Operator),
        Ok(if path in st.values then Something(st.values[path].holder) else Nothing))
  }

  // ---- what every operation keeps ----

  function PathsOf(values: map<bytes, Entry>, h: Holder): set<bytes> {
    set p | p in values && values[p].holder == h
  }

  /** Each count is the number of paths charged to its holder, and none is zero. */
  ghost predicate Accounted(st: Store) {
    && (forall h | h in st.holders :: st.holders[h] == |PathsOf(st.values, h)| && st.holders[h] > 0)
    && (forall p | p in st.values :: st.values[p].holder in st.holders)
  }

  ghost predicate Valid(st: Store, lim: Limits) {
    && Accounted(st)
    && (|st.values| == 0 || |st.values| <= lim.maxPaths)
    && (forall h | h in st.holders && h != Operator :: st.holders[h] <= lim.maxPerHolder)
    && (forall p | p in st.values :: |st.values[p].value| <= lim.maxValue)
  }

  class MemoryStore {
    var values: map<bytes, Entry>
    var holders: map<Holder, nat>
    const limits: Limits

    ghost function View(): Store
      reads this
    {
      Store(values, holders)
    }

    constructor (limits: Limits)
      requires limits.maxPerHolder < limits.maxPaths
      ensures View() == Store(map[], map[]) && this.limits == limits && Valid(View(), limits)
    {
      values, holders := map[], map[];
      this.limits := limits;
    }

    method Get(path: bytes) returns (value: Option<bytes>)
      ensures value == if path in values then Some(values[path].value) else None
    {
      return if path in values then Some(values[path].value) else None;
    }

    method CheckRoomLocked(owner: Holder) returns (err: Option<StoreError>)
      ensures err == CheckRoom(View(), limits, owner)
    {
      if owner != Operator {
        var held := if owner in holders then holders[owner] else 0;
        if held >= limits.maxPerHolder {
          return Some(HolderQuota);
        }
      }
      if |values| >= limits.maxPaths {
        return Some(StoreFull);
      }
      return None;
    }

    method StoreLocked(path: bytes, value: bytes, owner: Holder)
      modifies this
      ensures View() == Charged(old(View()), path, value, owner)
    {
      if path in values {
        var prior := values[path].holder;
        if prior !in holders || holders[prior] <= 1 {
          holders := holders - {prior};
        } else {
          holders := holders[prior := holders[prior] - 1];
        }
      }
      values := values[path := Entry(value, owner)];
      holders := holders[owner := (if owner in holders then holders[owner] else 0) + 1];
    }

    method PutIfAbsentLocked(path: bytes, value: bytes, owner: Holder) returns (r: PutResult)
      requires Valid(View(), limits)
      modifies this
      ensures (View(), r) == PutIfAbsent(old(View()), limits, path, value, owner)
      ensures Valid(View(), limits)
    {
      PutIfAbsentKeepsValid(View(), limits, path, value, owner);
      if |value| > limits.maxValue {
        return Refused(TooLarge);
      }
      if path in values {
        return Existing(values[path].value, Something(values[path].holder));
      }
      var err := CheckRoomLocked(owner);
      if err.Some? {
        return Refused(err.value);
      }
      StoreLocked(path, value, owner);
      return Stored(value);
    }

    method PutLocked(path: bytes, value: bytes) returns (r: Result<Held, StoreError>)
      requires Valid(View(), limits)
      modifies this
      ensures (View(), r) == Put(old(View()), limits, path, value)
      ensures Valid(View(), limits)
    {
      PutKeepsValid(View(), limits, path, value);
      if |value| > limits.maxValue {
        return Err(TooLarge);
      }
      var held := if path in values then Something(values[path].holder) else Nothing;
      if path !in values {
        var err := CheckRoomLocked(Operator);
        if err.Some? {
          return Err(err.value);
        }
      }
      StoreLocked(path, value, Operator);
      return Ok(held);
    }
  }

  // ---- the accounting ----

  lemma PathsAfterWrite(values: map<bytes, Entry>, path: bytes, e: Entry, h: Holder)
    ensures PathsOf(values[path := e], h) ==
            if e.holder == h then PathsOf(values, h) + {path} else PathsOf(values, h) - {path}
  {
  }

  lemma CountAfterWrite(values: map<bytes, Entry>, path: bytes, e: Entry, h: Holder)
    ensures |PathsOf(values[path := e], h)| ==
            |PathsOf(values, h)| - (if path in PathsOf(values, h) then 1 else 0) + (if e.holder == h then 1 else 0)
  {
    PathsAfterWrite(values, path, e, h);
    if path in PathsOf(values, h) {
      assert PathsOf(values, h) + {path} == PathsOf(values, h);
      assert PathsOf(values, h) == (PathsOf(values, h) - {path}) + {path};
    } else {
      assert PathsOf(values, h) - {path} == PathsOf(values, h);
    }
  }

  lemma NoPathsNoCount(st: Store, h: Holder)
    requires Accounted(st)
    ensures Count(st, h) == |PathsOf(st.values, h)|
  {
    if h !in st.holders { assert PathsOf(st.values, h) == {}; }
  }

  lemma UnchargedCount(st: Store, path: bytes, h: Holder)
    requires Accounted(st)
    ensures var freed := Uncharged(st, path);
            && (h in freed ==> freed[h] > 0)
            && (if h in freed then freed[h] else 0) ==
                  |PathsOf(st.values, h)| - (if path in PathsOf(st.values, h) then 1 else 0)
  {
    NoPathsNoCount(st, h);
    if path in st.values { NoPathsNoCount(st, st.values[path].holder); }
  }

  lemma ChargedAccounted(st: Store, path: bytes, value: bytes, owner: Holder)
    requires Accounted(st)
    ensures Accounted(Charged(st, path, value, owner))
  {
    var st' := Charged(st, path, value, owner);
    forall h
      ensures (h in st'.holders ==> st'.holders[h] == |PathsOf(st'.values, h)| > 0) &&
              Count(st', h) == |PathsOf(st'.values, h)|
    {
      UnchargedCount(st, path, h);
      CountAfterWrite(st.values, path, Entry(value, owner), h);
    }
    forall p | p in st'.values ensures st'.values[p].holder in st'.holders {
      var h := st'.values[p].holder;
      assert p in PathsOf(st'.values, h);
      assert Count(st', h) > 0;
    }
  }

  lemma SizeAfterWrite(values: map<bytes, Entry>, path: bytes, e: Entry)
    ensures |values[path := e]| == |values| + if path in values then 0 else 1
  {
    assert values[path := e].Keys == values.Keys + {path};
    assert path in values ==> values[path := e].Keys == values.Keys;
  }

  lemma QuotaKept(st: Store, lim: Limits, path: bytes, value: bytes, owner: Holder, h: Holder)
    requires Accounted(st) && h != Operator && Count(st, h) <= lim.maxPerHolder
    requires owner == h ==> path !in st.values && Count(st, h) < lim.maxPerHolder
    ensures |PathsOf(Charged(st, path, value, owner).values, h)| <= lim.maxPerHolder
  {
    NoPathsNoCount(st, h);
    CountAfterWrite(st.values, path, Entry(value, owner), h);
  }

  lemma ChargedKeepsValid(st: Store, lim: Limits, path: bytes, value: bytes, owner: Holder)
    requires Valid(st, lim) && |value| <= lim.maxValue
    requires if path in st.values then owner == Operator else CheckRoom(st, lim, owner).None?
    ensures Valid(Charged(st, path, value, owner), lim)
  {
    var st' := Charged(st, path, value, owner);
    ChargedAccounted(st, path, value, owner);
    SizeAfterWrite(st.values, path, Entry(value, owner));
    forall h | h in st'.holders && h != Operator ensures st'.holders[h] <= lim.maxPerHolder {
      if h in st.holders || h == owner { QuotaKept(st, lim, path, value, owner, h); }
    }
  }

  lemma PutIfAbsentKeepsValid(st: Store, lim: Limits, path: bytes, value: bytes, owner: Holder)
    requires Valid(st, lim)
    ensures Valid(PutIfAbsent(st, lim, path, value, owner).0, lim)
  {
    if |value| <= lim.maxValue && path !in st.values && CheckRoom(st, lim, owner).None? {
      ChargedKeepsValid(st, lim, path, value, owner);
    }
  }

  lemma PutKeepsValid(st: Store, lim: Limits, path: bytes, value: bytes)
    requires Valid(st, lim)
    ensures Valid(Put(st, lim, path, value).0, lim)
  {
    if |value| <= lim.maxValue && (path in st.values || CheckRoom(st, lim, Operator).None?) {
      ChargedKeepsValid(st, lim, path, value, Operator);
    }
  }

  // ---- the counts add up ----

  ghost function Total(holders: map<Holder, nat>): nat {
    if holders == map[] then 0
    else
      var h :| h in holders;
      holders[h] + Total(holders - {h})
  }

  function Others(values: map<bytes, Entry>, h: Holder): map<bytes, Entry> {
    map p | p in values && values[p].holder != h :: values[p]
  }

  lemma OthersPaths(values: map<bytes, Entry>, h: Holder, g: Holder)
    requires g != h
    ensures PathsOf(Others(values, h), g) == PathsOf(values, g)
  {
  }

  lemma OthersSize(values: map<bytes, Entry>, h: Holder)
    ensures |values| == |Others(values, h)| + |PathsOf(values, h)|
  {
    var rest, mine := Others(values, h).Keys, PathsOf(values, h);
    assert values.Keys == rest + mine && rest !! mine;
  }

  ghost predicate Tallied(values: map<bytes, Entry>, holders: map<Holder, nat>) {
    && (forall h | h in holders :: holders[h] == |PathsOf(values, h)|)
    && (forall p | p in values :: values[p].holder in holders)
  }

  lemma TalliedWithout(values: map<bytes, Entry>, holders: map<Holder, nat>, h: Holder)
    requires Tallied(values, holders)
    ensures Tallied(Others(values, h), holders - {h})
  {
    forall g | g in holders - {h} ensures holders[g] == |PathsOf(Others(values, h), g)| { OthersPaths(values, h, g); }
  }

  lemma {:induction false} TotalIsSize(values: map<bytes, Entry>, holders: map<Holder, nat>)
    requires Tallied(values, holders)
    ensures Total(holders) == |values|
    decreases |holders|
  {
    if holders == map[] {
      assert values.Keys == {};
    } else {
      var h :| h in holders && Total(holders) == holders[h] + Total(holders - {h});
      TalliedWithout(values, holders, h);
      TotalIsSize(Others(values, h), holders - {h});
      OthersSize(values, h);
    }
  }

  /** The counts add up to the number of paths. */
  lemma CountsAddUp(st: Store)
    requires Accounted(st)
    ensures Total(st.holders) == |st.values|
  {
    TotalIsSize(st.values, st.holders);
  }
}
