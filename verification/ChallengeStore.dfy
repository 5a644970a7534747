/** Single-use attestation challenges (internal/attestation/challenge.go): a map of creation
    times behind a lazily cleaned queue, proved to be a simple timed set. */
module ChallengeStore {
  import opened Bytes
  import opened Sets
  import opened Wrappers

  type Key = k: bytes | |k| == 32 witness seq(32, i => 0)

  const MAX_CHALLENGES: nat := 0x2_0000

  datatype Entry = Entry(key: Key, created: Time)

  /** The two containers; `ttl` is a duration and may be anything. */
  datatype Store = Store(challenges: map<Key, Time>, issued: seq<Key>)

  predicate Unexpired(created: Time, now: Time, ttl: int) {
    now - created < ttl
  }

  predicate IsLive(m: map<Key, Time>, k: Key, now: Time, ttl: int) {
    k in m && Unexpired(m[k], now, ttl)
  }

  // ---- the operations on values ----

  function DropExpired(st: Store, now: Time, ttl: int): Store
    decreases |st.issued|
  {
    if st.issued == [] || IsLive(st.challenges, st.issued[0], now, ttl) then st
    else DropExpired(Store(st.challenges - {st.issued[0]}, st.issued[1..]), now, ttl)
  }

  function LiveKeys(m: map<Key, Time>, issued: seq<Key>, now: Time, ttl: int): seq<Key> {
    if issued == [] then []
    else
      var rest := LiveKeys(m, issued[..|issued| - 1], now, ttl);
      var k := issued[|issued| - 1];
      if IsLive(m, k, now, ttl) then rest + [k] else rest
  }

  ghost function Elements(issued: seq<Key>): set<Key> {
    set i | 0 <= i < |issued| :: issued[i]
  }

  /** The map once the expired keys among `issued` have left it. */
  ghost function Kept(m: map<Key, Time>, issued: seq<Key>, now: Time, ttl: int): map<Key, Time> {
    map k | k in m && (k in Elements(issued) ==> IsLive(m, k, now, ttl)) :: m[k]
  }

  /** What compact leaves: the live keys in order; the expired ones leave the map. */
  ghost function Compact(st: Store, now: Time, ttl: int): Store {
    Store(Kept(st.challenges, st.issued, now, ttl), LiveKeys(st.challenges, st.issued, now, ttl))
  }

  function DropOldest(st: Store): Store {
    if st.issued == [] then st else Store(st.challenges - {st.issued[0]}, st.issued[1..])
  }

  ghost function Swept(st: Store, now: Time, ttl: int): Store {
    var st1 := DropExpired(st, now, ttl);
    if |st1.issued| >= 2 * MAX_CHALLENGES then Compact(st1, now, ttl) else st1
  }

  ghost function Create(st: Store, key: Key, now: Time, ttl: int): Store {
    var st2 := Swept(st, now, ttl);
    var st3 := if |st2.challenges| >= MAX_CHALLENGES then DropOldest(st2) else st2;
    Store(st3.challenges[key := now], st3.issued + [key])
  }

  function Consume(st: Store, challenge: bytes, now: Time, ttl: int): (Store, bool) {
    if |challenge| != 32 then (st, false)
    else
      var key: Key := challenge;
      if key !in st.challenges then (st, false)
      else (st.(challenges := st.challenges - {key}), Unexpired(st.challenges[key], now, ttl))
  }

  /** The store itself. */
  class ChallengeStoreObject {
    var challenges: map<Key, Time>
    var issued: seq<Key>
    const ttl: int

    ghost function View(): Store
      reads this
    {
      Store(challenges, issued)
    }

    constructor (ttl: int)
      ensures View() == Store(map[], []) && this.ttl == ttl
    {
      challenges, issued := map[], [];
      this.ttl := ttl;
    }

    method DropExpiredLocked(now: Time)
      modifies this
      ensures View() == DropExpired(old(View()), now, ttl)
    {
      while |issued| > 0
        invariant DropExpired(View(), now, ttl) == DropExpired(old(View()), now, ttl)
        decreases |issued|
      {
        var front := issued[0];
        if front in challenges && now - challenges[front] < ttl {
          return;
        }
        challenges := challenges - {front};
        issued := issued[1..];
      }
    }

    /** compact reuses the storage it reads from: `buf` is both the queue and what is kept. */
    method CompactLocked(now: Time)
      requires Distinct(issued)
      modifies this
      ensures View() == Compact(old(View()), now, ttl)
    {
      ghost var was := View();
      var buf := issued;
      var n := |issued|;
      var kept := 0;
      KeptNone(was.challenges, now, ttl);
      for i := 0 to n
        invariant kept <= i && |buf| == n && issued == was.issued
        invariant buf[i..] == was.issued[i..]
        invariant buf[..kept] == LiveKeys(was.challenges, was.issued[..i], now, ttl)
        invariant challenges == Kept(was.challenges, was.issued[..i], now, ttl)
      {
        var key := buf[i];
        assert key == was.issued[i];
        KeptStep(was.challenges, was.issued, i, now, ttl);
        if key !in challenges {
          continue;
        }
        if now - challenges[key] >= ttl {
          challenges := challenges - {key};
          continue;
        }
        buf := buf[kept := key];
        kept := kept + 1;
      }
      assert was.issued[..n] == was.issued;
      issued := buf[..kept];
    }

    method DropOldestLocked()
      modifies this
      ensures View() == DropOldest(old(View()))
    {
      if |issued| == 0 {
        return;
      }
      challenges := challenges - {issued[0]};
      issued := issued[1..];
    }

    /** `challenge` is the fresh random value. */
    method CreateChallenge(challenge: Key, now: Time)
      requires Valid(View(), now)
      modifies this
      ensures View() == Create(old(View()), challenge, now, ttl)
      ensures challenge !in old(issued) ==> Valid(View(), now)
    {
      ghost var was := View();
      DropExpiredLocked(now);
      DropExpiredKeepsValid(was, now, ttl);
      if |issued| >= 2 * MAX_CHALLENGES {
        CompactLocked(now);
      }
      if |challenges| >= MAX_CHALLENGES {
        DropOldestLocked();
      }
      challenges := challenges[challenge := now];
      issued := issued + [challenge];
      if challenge !in was.issued { CreateKeepsValid(was, challenge, now, ttl); }
    }

    method ConsumeChallenge(challenge: bytes, now: Time) returns (ok: bool)
      modifies this
      ensures (View(), ok) == Consume(old(View()), challenge, now, ttl)
      ensures old(Valid(View(), now)) ==> Valid(View(), now)
    {
      ghost var was := View();
      if |challenge| != 32 {
        return false;
      }
      var key: Key := challenge;
      if key !in challenges {
        return false;
      }
      var created := challenges[key];
      challenges := challenges - {key};
      SubsetSize(challenges.Keys, was.challenges.Keys);
      return now - created < ttl;
    }
  }

  lemma ElementsAppend(issued: seq<Key>, key: Key)
    ensures Elements(issued + [key]) == Elements(issued) + {key}
  {
    var all := issued + [key];
    forall x ensures x in Elements(all) <==> x in Elements(issued) || x == key {
      if x in Elements(issued) {
        var i :| 0 <= i < |issued| && issued[i] == x;
        assert all[i] == x;
      }
      if x == key { assert all[|issued|] == x; }
    }
  }

  lemma KeptNone(m: map<Key, Time>, now: Time, ttl: int)
    ensures Kept(m, [], now, ttl) == m
  {
  }

  lemma NotSeenYet(issued: seq<Key>, i: nat)
    requires Distinct(issued) && i < |issued|
    ensures issued[i] !in Elements(issued[..i]) && Elements(issued[..i + 1]) == Elements(issued[..i]) + {issued[i]}
  {
    assert issued[..i + 1] == issued[..i] + [issued[i]];
    ElementsAppend(issued[..i], issued[i]);
  }

  /** One key of the queue looked at. */
  lemma KeptStep(m: map<Key, Time>, issued: seq<Key>, i: nat, now: Time, ttl: int)
    requires Distinct(issued) && i < |issued|
    ensures var before, after, k := Kept(m, issued[..i], now, ttl), Kept(m, issued[..i + 1], now, ttl), issued[i];
            && (k in before <==> k in m) && (k in before ==> before[k] == m[k])
            && after == (if k in m && !IsLive(m, k, now, ttl) then before - {k} else before)
            && LiveKeys(m, issued[..i + 1], now, ttl) ==
               LiveKeys(m, issued[..i], now, ttl) + (if IsLive(m, k, now, ttl) then [k] else [])
  {
    NotSeenYet(issued, i);
    var upTo := issued[..i + 1];
    assert upTo[..i] == issued[..i];
  }

  // ---- what every operation keeps ----

  ghost predicate Distinct(issued: seq<Key>) {
    forall i, j | 0 <= i < j < |issued| :: issued[i] != issued[j]
  }

  ghost predicate Ordered(m: map<Key, Time>, issued: seq<Key>) {
    forall i, j | 0 <= i < j < |issued| && issued[i] in m && issued[j] in m :: m[issued[i]] <= m[issued[j]]
  }

  /** Every live challenge is in the queue exactly once, in creation order, and both containers
      keep their bounds. */
  ghost predicate Valid(st: Store, now: Time) {
    && Distinct(st.issued) && Ordered(st.challenges, st.issued)
    && (forall k | k in st.challenges :: k in st.issued && st.challenges[k] <= now)
    && |st.challenges| <= MAX_CHALLENGES && |st.issued| <= 2 * MAX_CHALLENGES
  }

  lemma TailDistinct(issued: seq<Key>)
    requires Distinct(issued) && issued != []
    ensures Distinct(issued[1..]) && issued[0] !in issued[1..]
  {
  }

  lemma TailOrdered(m: map<Key, Time>, issued: seq<Key>)
    requires Ordered(m, issued) && issued != []
    ensures Ordered(m - {issued[0]}, issued[1..])
  {
    var tail, m' := issued[1..], m - {issued[0]};
    forall i, j | 0 <= i < j < |tail| && tail[i] in m' && tail[j] in m' ensures m'[tail[i]] <= m'[tail[j]] {
      assert tail[i] == issued[i + 1] && tail[j] == issued[j + 1];
    }
  }

  lemma TailKeepsValid(st: Store, now: Time)
    requires Valid(st, now) && st.issued != []
    ensures Valid(DropOldest(st), now)
  {
    TailDistinct(st.issued);
    TailOrdered(st.challenges, st.issued);
    var st' := DropOldest(st);
    forall k | k in st'.challenges ensures k in st'.issued {
      assert st.issued == [st.issued[0]] + st'.issued;
      assert k in st.issued && k != st.issued[0];
    }
    SubsetSize(st'.challenges.Keys, st.challenges.Keys);
  }

  lemma {:induction false} DropExpiredKeepsValid(st: Store, now: Time, ttl: int)
    requires Valid(st, now)
    ensures Valid(DropExpired(st, now, ttl), now)
    ensures var st' := DropExpired(st, now, ttl);
            st'.issued != [] ==> IsLive(st'.challenges, st'.issued[0], now, ttl)
    decreases |st.issued|
  {
    if st.issued != [] && !IsLive(st.challenges, st.issued[0], now, ttl) {
      TailKeepsValid(st, now);
      DropExpiredKeepsValid(DropOldest(st), now, ttl);
    }
  }

  // ---- the live entries, in order ----

  ghost function Live(m: map<Key, Time>, issued: seq<Key>, now: Time, ttl: int): seq<Entry> {
    if issued == [] then []
    else
      var rest := Live(m, issued[..|issued| - 1], now, ttl);
      var k := issued[|issued| - 1];
      if IsLive(m, k, now, ttl) then rest + [Entry(k, m[k])] else rest
  }

  lemma {:induction false} LiveConcat(m: map<Key, Time>, a: seq<Key>, b: seq<Key>, now: Time, ttl: int)
    ensures Live(m, a + b, now, ttl) == Live(m, a, now, ttl) + Live(m, b, now, ttl)
    decreases |b|
  {
    if b == [] {
      assert a + b == a;
    } else {
      assert (a + b)[..|a + b| - 1] == a + b[..|b| - 1];
      LiveConcat(m, a, b[..|b| - 1], now, ttl);
    }
  }

  lemma {:induction false} LiveFrame(m: map<Key, Time>, m': map<Key, Time>, issued: seq<Key>, now: Time, ttl: int)
    requires forall k | k in issued :: IsLive(m, k, now, ttl) <==> IsLive(m', k, now, ttl)
    requires forall k | k in issued && IsLive(m, k, now, ttl) && IsLive(m', k, now, ttl) :: m[k] == m'[k]
    ensures Live(m, issued, now, ttl) == Live(m', issued, now, ttl)
  {
    if issued != [] { LiveFrame(m, m', issued[..|issued| - 1], now, ttl); }
  }

  lemma {:induction false} LiveKeysAre(m: map<Key, Time>, issued: seq<Key>, now: Time, ttl: int)
    ensures var ks, es := LiveKeys(m, issued, now, ttl), Live(m, issued, now, ttl);
            && |ks| == |es| <= |issued|
            && (forall i | 0 <= i < |ks| ::
                  IsLive(m, ks[i], now, ttl) && es[i] == Entry(ks[i], m[ks[i]]) && ks[i] in issued)
            && (forall k | k in issued && IsLive(m, k, now, ttl) :: k in ks)
  {
    if issued != [] {
      var init := issued[..|issued| - 1];
      LiveKeysAre(m, init, now, ttl);
      assert issued == init + [issued[|issued| - 1]];
    }
  }

  lemma {:induction false} LiveKeysOrdered(m: map<Key, Time>, issued: seq<Key>, now: Time, ttl: int)
    requires Distinct(issued) && Ordered(m, issued)
    ensures Distinct(LiveKeys(m, issued, now, ttl)) && Ordered(m, LiveKeys(m, issued, now, ttl))
  {
    if issued != [] {
      var init, k := issued[..|issued| - 1], issued[|issued| - 1];
      LiveKeysOrdered(m, init, now, ttl);
      LiveKeysAre(m, init, now, ttl);
      var ks := LiveKeys(m, init, now, ttl);
      forall i | 0 <= i < |ks| ensures ks[i] != k && (IsLive(m, k, now, ttl) ==> m[ks[i]] <= m[k]) {
        var j :| 0 <= j < |init| && init[j] == ks[i];
        assert issued[j] == ks[i];
      }
    }
  }

  lemma {:induction false} DistinctCount(issued: seq<Key>)
    requires Distinct(issued)
    ensures |Elements(issued)| == |issued|
  {
    if issued != [] {
      var init, k := issued[..|issued| - 1], issued[|issued| - 1];
      DistinctCount(init);
      assert issued == init + [k];
      ElementsAppend(init, k);
      assert k !in Elements(init);
    }
  }

  ghost predicate AllLive(st: Store, now: Time, ttl: int) {
    forall k | k in st.challenges :: IsLive(st.challenges, k, now, ttl)
  }

  /** When nothing in the map has expired, its size is the number of live entries. */
  lemma LiveCount(st: Store, now: Time, ttl: int)
    requires Valid(st, now) && AllLive(st, now, ttl)
    ensures |Live(st.challenges, st.issued, now, ttl)| == |st.challenges|
  {
    var ks := LiveKeys(st.challenges, st.issued, now, ttl);
    LiveKeysAre(st.challenges, st.issued, now, ttl);
    LiveKeysOrdered(st.challenges, st.issued, now, ttl);
    DistinctCount(ks);
    forall k ensures k in Elements(ks) <==> k in st.challenges {
      if k in st.challenges { assert k in ks; }
    }
    assert Elements(ks) == st.challenges.Keys;
  }

  lemma LiveOne(m: map<Key, Time>, k: Key, now: Time, ttl: int)
    ensures Live(m, [k], now, ttl) == if IsLive(m, k, now, ttl) then [Entry(k, m[k])] else []
  {
    assert [k][..0] == [];
  }

  lemma LiveCons(m: map<Key, Time>, issued: seq<Key>, now: Time, ttl: int)
    requires issued != []
    ensures Live(m, issued, now, ttl) ==
            (if IsLive(m, issued[0], now, ttl) then [Entry(issued[0], m[issued[0]])] else []) +
              Live(m, issued[1..], now, ttl)
  {
    LiveOne(m, issued[0], now, ttl);
    LiveConcat(m, [issued[0]], issued[1..], now, ttl);
    assert [issued[0]] + issued[1..] == issued;
  }

  lemma TailLive(st: Store, now: Time, ttl: int)
    requires Valid(st, now) && st.issued != []
    ensures var live := Live(st.challenges, st.issued, now, ttl);
            var tail := Live(DropOldest(st).challenges, DropOldest(st).issued, now, ttl);
            live == if IsLive(st.challenges, st.issued[0], now, ttl)
                    then [Entry(st.issued[0], st.challenges[st.issued[0]])] + tail else tail
  {
    TailDistinct(st.issued);
    LiveCons(st.challenges, st.issued, now, ttl);
    LiveFrame(st.challenges, st.challenges - {st.issued[0]}, st.issued[1..], now, ttl);
  }

  lemma {:induction false} DropExpiredLive(st: Store, now: Time, ttl: int)
    requires Valid(st, now)
    ensures var st' := DropExpired(st, now, ttl);
            && Live(st'.challenges, st'.issued, now, ttl) == Live(st.challenges, st.issued, now, ttl)
            && AllLive(st', now, ttl)
    decreases |st.issued|
  {
    if st.issued == [] {
    } else if IsLive(st.challenges, st.issued[0], now, ttl) {
      forall k | k in st.challenges ensures IsLive(st.challenges, k, now, ttl) {
        var i :| 0 <= i < |st.issued| && st.issued[i] == k;
      }
    } else {
      TailKeepsValid(st, now);
      TailLive(st, now, ttl);
      DropExpiredLive(DropOldest(st), now, ttl);
    }
  }

  lemma {:induction false} LiveOfLiveKeys(m: map<Key, Time>, issued: seq<Key>, now: Time, ttl: int)
    ensures Live(m, LiveKeys(m, issued, now, ttl), now, ttl) == Live(m, issued, now, ttl)
  {
    if issued != [] {
      var init, k := issued[..|issued| - 1], issued[|issued| - 1];
      LiveOfLiveKeys(m, init, now, ttl);
      var ks := LiveKeys(m, init, now, ttl);
      if IsLive(m, k, now, ttl) { assert (ks + [k])[..|ks|] == ks; }
    }
  }

  /** The sweep at the start of Create only forgets what is of no use any more. */
  lemma SweptIs(st: Store, now: Time, ttl: int)
    requires Valid(st, now)
    ensures var st' := Swept(st, now, ttl);
            && Valid(st', now) && AllLive(st', now, ttl) && |st'.issued| < 2 * MAX_CHALLENGES
            && Live(st'.challenges, st'.issued, now, ttl) == Live(st.challenges, st.issued, now, ttl)
            && (st'.issued != [] ==> IsLive(st'.challenges, st'.issued[0], now, ttl))
            && (forall k | k in st'.issued :: k in st.issued)
  {
    var st1 := DropExpired(st, now, ttl);
    DropExpiredKeepsValid(st, now, ttl);
    DropExpiredLive(st, now, ttl);
    DropExpiredShrinks(st, now, ttl);
    if |st1.issued| >= 2 * MAX_CHALLENGES {
      var st2 := Compact(st1, now, ttl);
      assert st2.challenges == st1.challenges;
      LiveKeysAre(st1.challenges, st1.issued, now, ttl);
      LiveKeysOrdered(st1.challenges, st1.issued, now, ttl);
      LiveOfLiveKeys(st1.challenges, st1.issued, now, ttl);
      LiveCount(st1, now, ttl);
    }
  }

  lemma {:induction false} DropExpiredShrinks(st: Store, now: Time, ttl: int)
    ensures var st' := DropExpired(st, now, ttl); forall k | k in st'.issued :: k in st.issued
    decreases |st.issued|
  {
    if st.issued != [] && !IsLive(st.challenges, st.issued[0], now, ttl) {
      DropExpiredShrinks(DropOldest(st), now, ttl);
      assert st.issued == [st.issued[0]] + DropOldest(st).issued;
    }
  }

  lemma FullStoreHasQueue(st: Store, now: Time)
    requires Valid(st, now) && |st.challenges| >= MAX_CHALLENGES
    ensures st.issued != []
  {
    assert st.challenges.Keys != {};
    var k :| k in st.challenges;
    assert k in st.issued;
  }

  lemma AppendOrdered(m: map<Key, Time>, issued: seq<Key>, key: Key, now: Time)
    requires Ordered(m, issued) && key !in issued && forall k | k in m :: m[k] <= now
    ensures Ordered(m[key := now], issued + [key])
  {
    var m', all := m[key := now], issued + [key];
    forall i, j | 0 <= i < j < |all| && all[i] in m' && all[j] in m' ensures m'[all[i]] <= m'[all[j]] {
      assert all[i] == issued[i] && all[i] != key;
    }
  }

  lemma AppendValid(st: Store, key: Key, now: Time)
    requires Valid(st, now) && key !in st.issued
    requires |st.challenges| < MAX_CHALLENGES && |st.issued| < 2 * MAX_CHALLENGES
    ensures Valid(Store(st.challenges[key := now], st.issued + [key]), now)
  {
    AppendOrdered(st.challenges, st.issued, key, now);
    assert st.challenges[key := now].Keys == st.challenges.Keys + {key};
  }

  lemma CreateKeepsValid(st: Store, key: Key, now: Time, ttl: int)
    requires Valid(st, now) && key !in st.issued
    ensures Valid(Create(st, key, now, ttl), now)
  {
    SweptIs(st, now, ttl);
    var st2 := Swept(st, now, ttl);
    if |st2.challenges| >= MAX_CHALLENGES {
      FullStoreHasQueue(st2, now);
      TailKeepsValid(st2, now);
      assert DropOldest(st2).challenges.Keys == st2.challenges.Keys - {st2.issued[0]};
      AppendValid(DropOldest(st2), key, now);
    } else {
      AppendValid(st2, key, now);
    }
  }
}
