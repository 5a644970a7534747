/** Whole runs of the challenge store against a simple timed set
    (internal/attestation/challenge.go:38-124). */
module ChallengeRuns {
  import opened Bytes
  import opened Sets
  import opened Wrappers
  import opened ChallengeStore

  // ---- the reference: minted, not redeemed and not evicted, oldest first ----

  function Without(es: seq<Entry>, k: bytes): seq<Entry> {
    if es == [] then []
    else
      var rest := Without(es[..|es| - 1], k);
      if es[|es| - 1].key == k then rest else rest + [es[|es| - 1]]
  }

  function Current(es: seq<Entry>, now: Time, ttl: int): seq<Entry> {
    if es == [] then []
    else
      var rest := Current(es[..|es| - 1], now, ttl);
      if Unexpired(es[|es| - 1].created, now, ttl) then rest + [es[|es| - 1]] else rest
  }

  predicate HasKey(es: seq<Entry>, k: bytes) {
    exists i | 0 <= i < |es| :: es[i].key == k
  }

  /** A mint at capacity first evicts the oldest challenge that could still be redeemed. */
  function RefMint(es: seq<Entry>, k: Key, now: Time, ttl: int): seq<Entry> {
    var live := Current(es, now, ttl);
    (if |live| >= MAX_CHALLENGES then Without(es, live[0].key) else es) + [Entry(k, now)]
  }

  function RefRedeem(es: seq<Entry>, k: bytes, now: Time, ttl: int): (seq<Entry>, bool) {
    (Without(es, k), HasKey(Current(es, now, ttl), k))
  }

  // ---- one operation ----

  lemma {:induction false} CurrentWithout(es: seq<Entry>, k: bytes, now: Time, ttl: int)
    ensures Current(Without(es, k), now, ttl) == Without(Current(es, now, ttl), k)
  {
    if es != [] {
      var init, e := es[..|es| - 1], es[|es| - 1];
      CurrentWithout(init, k, now, ttl);
      var w, c := Without(init, k), Current(init, now, ttl);
      assert (w + [e])[..|w|] == w && (c + [e])[..|c|] == c;
    }
  }

  lemma CurrentAppend(es: seq<Entry>, e: Entry, now: Time, ttl: int)
    ensures Current(es + [e], now, ttl) == Current(es, now, ttl) + if Unexpired(e.created, now, ttl) then [e] else []
  {
    assert (es + [e])[..|es|] == es;
  }

  lemma {:induction false} CurrentLater(es: seq<Entry>, now: Time, later: Time, ttl: int)
    requires now <= later
    ensures Current(es, later, ttl) == Current(Current(es, now, ttl), later, ttl)
  {
    if es != [] {
      CurrentLater(es[..|es| - 1], now, later, ttl);
      CurrentAppend(Current(es[..|es| - 1], now, ttl), es[|es| - 1], later, ttl);
    }
  }

  lemma {:induction false} LiveLater(m: map<Key, Time>, issued: seq<Key>, now: Time, later: Time, ttl: int)
    requires now <= later
    ensures Live(m, issued, later, ttl) == Current(Live(m, issued, now, ttl), later, ttl)
  {
    if issued != [] {
      var k := issued[|issued| - 1];
      LiveLater(m, issued[..|issued| - 1], now, later, ttl);
      if IsLive(m, k, now, ttl) {
        CurrentAppend(Live(m, issued[..|issued| - 1], now, ttl), Entry(k, m[k]), later, ttl);
      }
    }
  }

  lemma {:induction false} LiveWithout(m: map<Key, Time>, issued: seq<Key>, k: Key, now: Time, ttl: int)
    ensures Live(m - {k}, issued, now, ttl) == Without(Live(m, issued, now, ttl), k)
  {
    if issued != [] {
      var init, last := issued[..|issued| - 1], issued[|issued| - 1];
      LiveWithout(m, init, k, now, ttl);
      var es := Live(m, init, now, ttl);
      if IsLive(m, last, now, ttl) {
        assert (es + [Entry(last, m[last])])[..|es|] == es;
      }
    }
  }

  lemma LiveHasKey(m: map<Key, Time>, issued: seq<Key>, k: Key, now: Time, ttl: int)
    requires k in m ==> k in issued
    ensures HasKey(Live(m, issued, now, ttl), k) <==> IsLive(m, k, now, ttl)
  {
    LiveKeysAre(m, issued, now, ttl);
    var ks, es := LiveKeys(m, issued, now, ttl), Live(m, issued, now, ttl);
    if IsLive(m, k, now, ttl) {
      var i :| 0 <= i < |ks| && ks[i] == k;
      assert es[i].key == k;
    }
  }

  lemma OldestDropped(st: Store, now: Time, ttl: int)
    requires Valid(st, now) && st.issued != [] && IsLive(st.challenges, st.issued[0], now, ttl)
    ensures var live := Live(st.challenges, st.issued, now, ttl);
            && |live| > 0 && live[0].key == st.issued[0]
            && Live(DropOldest(st).challenges, DropOldest(st).issued, now, ttl) == Without(live, live[0].key)
            && |DropOldest(st).challenges| == |st.challenges| - 1
  {
    var front := st.issued[0];
    TailLive(st, now, ttl);
    LiveWithout(st.challenges, st.issued, front, now, ttl);
    var m := st.challenges - {front};
    LiveCons(m, st.issued, now, ttl);
    assert [] + Live(m, st.issued[1..], now, ttl) == Live(m, st.issued[1..], now, ttl);
    assert m.Keys == st.challenges.Keys - {front};
  }

  function RoomMade(st: Store): Store {
    if |st.challenges| >= MAX_CHALLENGES then DropOldest(st) else st
  }

  lemma RoomMadeIs(st: Store, now: Time, ttl: int)
    requires Valid(st, now) && AllLive(st, now, ttl)
    requires st.issued != [] ==> IsLive(st.challenges, st.issued[0], now, ttl)
    ensures var live, st' := Live(st.challenges, st.issued, now, ttl), RoomMade(st);
            && Valid(st', now) && |st'.challenges| < MAX_CHALLENGES
            && Live(st'.challenges, st'.issued, now, ttl) ==
               (if |live| >= MAX_CHALLENGES then Without(live, live[0].key) else live)
            && (forall k | k in st'.issued :: k in st.issued)
  {
    LiveCount(st, now, ttl);
    if |st.challenges| >= MAX_CHALLENGES {
      FullStoreHasQueue(st, now);
      OldestDropped(st, now, ttl);
      TailKeepsValid(st, now);
    }
  }

  lemma CreateLive(st: Store, key: Key, now: Time, ttl: int)
    requires Valid(st, now) && key !in st.issued
    ensures var live, st' := Live(st.challenges, st.issued, now, ttl), Create(st, key, now, ttl);
            Live(st'.challenges, st'.issued, now, ttl) ==
            (if |live| >= MAX_CHALLENGES then Without(live, live[0].key) else live) +
            (if Unexpired(now, now, ttl) then [Entry(key, now)] else [])
  {
    var st2 := Swept(st, now, ttl);
    SweptIs(st, now, ttl);
    var st3 := RoomMade(st2);
    RoomMadeIs(st2, now, ttl);
    AppendIs(st3, key, now, ttl);
    assert Create(st, key, now, ttl) == Store(st3.challenges[key := now], st3.issued + [key]);
  }

  lemma CreateIssued(st: Store, key: Key, now: Time, ttl: int, k: Key)
    requires Valid(st, now) && k in Create(st, key, now, ttl).issued
    ensures k == key || k in st.issued
  {
    SweptIs(st, now, ttl);
    RoomMadeIs(Swept(st, now, ttl), now, ttl);
    assert Create(st, key, now, ttl).issued == RoomMade(Swept(st, now, ttl)).issued + [key];
  }

  /** Create does what the reference does, keeps the invariant, and has the key queued. */
  lemma CreateIs(st: Store, key: Key, now: Time, ttl: int)
    requires Valid(st, now) && key !in st.issued
    ensures Valid(Create(st, key, now, ttl), now)
    ensures var live, st' := Live(st.challenges, st.issued, now, ttl), Create(st, key, now, ttl);
            && Live(st'.challenges, st'.issued, now, ttl) ==
               (if |live| >= MAX_CHALLENGES then Without(live, live[0].key) else live) +
               (if Unexpired(now, now, ttl) then [Entry(key, now)] else [])
            && (forall k | k in st'.issued :: k == key || k in st.issued)
  {
    CreateKeepsValid(st, key, now, ttl);
    CreateLive(st, key, now, ttl);
    forall k | k in Create(st, key, now, ttl).issued
      ensures k == key || k in st.issued
    {
      CreateIssued(st, key, now, ttl, k);
    }
  }

  lemma AppendIs(st: Store, key: Key, now: Time, ttl: int)
    requires Valid(st, now) && key !in st.issued
    requires |st.challenges| < MAX_CHALLENGES && |st.issued| < 2 * MAX_CHALLENGES
    ensures var st' := Store(st.challenges[key := now], st.issued + [key]);
            && Valid(st', now)
            && Live(st'.challenges, st'.issued, now, ttl) ==
               Live(st.challenges, st.issued, now, ttl) + (if Unexpired(now, now, ttl) then [Entry(key, now)] else [])
  {
    AppendValid(st, key, now);
    var m := st.challenges[key := now];
    assert (st.issued + [key])[..|st.issued|] == st.issued;
    LiveFrame(st.challenges, m, st.issued, now, ttl);
  }

  lemma ConsumeIs(st: Store, challenge: bytes, now: Time, ttl: int)
    requires Valid(st, now)
    ensures var (st', ok) := Consume(st, challenge, now, ttl);
            var live := Live(st.challenges, st.issued, now, ttl);
            && Valid(st', now) && st'.issued == st.issued
            && ok == HasKey(live, challenge)
            && Live(st'.challenges, st'.issued, now, ttl) == Without(live, challenge)
  {
    var (st', ok) := Consume(st, challenge, now, ttl);
    if |challenge| == 32 {
      LiveHasKey(st.challenges, st.issued, challenge, now, ttl);
      LiveWithout(st.challenges, st.issued, challenge, now, ttl);
      if challenge in st.challenges {
        SubsetSize(st'.challenges.Keys, st.challenges.Keys);
      } else {
        assert st.challenges - {challenge} == st.challenges;
      }
    } else {
      NoKeyNothingRemoved(Live(st.challenges, st.issued, now, ttl), challenge);
    }
  }

  lemma {:induction false} NoKeyNothingRemoved(es: seq<Entry>, k: bytes)
    requires !HasKey(es, k)
    ensures Without(es, k) == es
  {
    if es != [] { NoKeyNothingRemoved(es[..|es| - 1], k); }
  }

  // ---- runs ----

  datatype Op = Mint(key: Key, at: Time) | Redeem(challenge: bytes, at: Time)

  /** The clock does not run backwards and no challenge is drawn twice. */
  ghost predicate Possible(ops: seq<Op>) {
    && (forall i, j | 0 <= i < j < |ops| :: ops[i].at <= ops[j].at)
    && (forall i, j | 0 <= i < j < |ops| && ops[i].Mint? && ops[j].Mint? :: ops[i].key != ops[j].key)
  }

  ghost function StoreAfter(ops: seq<Op>, ttl: int): Store {
    if ops == [] then Store(map[], [])
    else
      var st := StoreAfter(ops[..|ops| - 1], ttl);
      match ops[|ops| - 1]
      case Mint(k, at) => Create(st, k, at, ttl)
      case Redeem(c, at) => Consume(st, c, at, ttl).0
  }

  function RefAfter(ops: seq<Op>, ttl: int): seq<Entry> {
    if ops == [] then []
    else
      var es := RefAfter(ops[..|ops| - 1], ttl);
      match ops[|ops| - 1]
      case Mint(k, at) => RefMint(es, k, at, ttl)
      case Redeem(c, at) => RefRedeem(es, c, at, ttl).0
  }

  /** The answer to the redeem at position i. */
  ghost predicate Answer(ops: seq<Op>, ttl: int, i: nat)
    requires i < |ops| && ops[i].Redeem?
  {
    Consume(StoreAfter(ops[..i], ttl), ops[i].challenge, ops[i].at, ttl).1
  }

  predicate RefAnswer(ops: seq<Op>, ttl: int, i: nat)
    requires i < |ops| && ops[i].Redeem?
  {
    RefRedeem(RefAfter(ops[..i], ttl), ops[i].challenge, ops[i].at, ttl).1
  }

  ghost predicate MintedIn(ops: seq<Op>, k: Key) {
    exists i | 0 <= i < |ops| :: ops[i].Mint? && ops[i].key == k
  }

  lemma PrefixPossible(ops: seq<Op>, n: nat)
    requires Possible(ops) && n <= |ops|
    ensures Possible(ops[..n])
  {
  }

  lemma MintedExtends(ops: seq<Op>, n: nat, k: Key)
    requires n <= |ops| && MintedIn(ops[..n], k)
    ensures MintedIn(ops, k)
  {
    var i :| 0 <= i < n && ops[..n][i].Mint? && ops[..n][i].key == k;
    assert ops[i].Mint? && ops[i].key == k;
  }

  ghost predicate Related(st: Store, es: seq<Entry>, ops: seq<Op>, now: Time, ttl: int) {
    && Valid(st, now) && Live(st.challenges, st.issued, now, ttl) == Current(es, now, ttl)
    && (forall k | k in st.issued :: MintedIn(ops, k))
  }

  lemma RelatedLater(st: Store, es: seq<Entry>, ops: seq<Op>, now: Time, later: Time, ttl: int)
    requires Related(st, es, ops, now, ttl) && now <= later
    ensures Related(st, es, ops, later, ttl)
  {
    LiveLater(st.challenges, st.issued, now, later, ttl);
    CurrentLater(es, now, later, ttl);
  }

  lemma RelatedStep(st: Store, es: seq<Entry>, ops: seq<Op>, ttl: int)
    requires ops != [] && Possible(ops)
    requires var n := |ops| - 1; Related(st, es, ops[..n], ops[n].at, ttl)
    ensures var n := |ops| - 1;
            match ops[n]
            case Mint(k, at) => Related(Create(st, k, at, ttl), RefMint(es, k, at, ttl), ops, at, ttl)
            case Redeem(c, at) =>
              && Related(Consume(st, c, at, ttl).0, RefRedeem(es, c, at, ttl).0, ops, at, ttl)
              && (Consume(st, c, at, ttl).1 <==> RefRedeem(es, c, at, ttl).1)
  {
    var n := |ops| - 1;
    forall k | k in st.issued ensures MintedIn(ops, k) { MintedExtends(ops, n, k); }
    match ops[n]
    case Mint(k, at) =>
      assert k !in st.issued;
      CreateIs(st, k, at, ttl);
      assert ops[n].Mint? && ops[n].key == k && MintedIn(ops, k);
      var live := Current(es, at, ttl);
      if |live| >= MAX_CHALLENGES {
        CurrentWithout(es, live[0].key, at, ttl);
        CurrentAppend(Without(es, live[0].key), Entry(k, at), at, ttl);
      } else {
        CurrentAppend(es, Entry(k, at), at, ttl);
      }
    case Redeem(c, at) =>
      ConsumeIs(st, c, at, ttl);
      CurrentWithout(es, c, at, ttl);
  }

  lemma {:induction false} RunRelated(ops: seq<Op>, now: Time, ttl: int)
    requires Possible(ops) && (ops != [] ==> ops[|ops| - 1].at <= now)
    ensures Related(StoreAfter(ops, ttl), RefAfter(ops, ttl), ops, now, ttl)
  {
    if ops != [] {
      var n := |ops| - 1;
      RunRelated(ops[..n], ops[n].at, ttl);
      RelatedStep(StoreAfter(ops[..n], ttl), RefAfter(ops[..n], ttl), ops, ttl);
      RelatedLater(StoreAfter(ops, ttl), RefAfter(ops, ttl), ops, ops[n].at, now, ttl);
    }
  }

  /** Over every run the store answers as the timed set does, and keeps its invariant: every
      live challenge queued once in creation order, at most 2^17 in the map and 2^18 queued. */
  lemma StoreRefinesTimedSet(ops: seq<Op>, ttl: int)
    requires Possible(ops)
    ensures forall i | 0 <= i < |ops| && ops[i].Redeem? :: Answer(ops, ttl, i) <==> RefAnswer(ops, ttl, i)
    ensures Valid(StoreAfter(ops, ttl), if ops == [] then 0 else ops[|ops| - 1].at)
    ensures |StoreAfter(ops, ttl).challenges| <= 0x2_0000 && |StoreAfter(ops, ttl).issued| <= 0x4_0000
  {
    forall i | 0 <= i < |ops| && ops[i].Redeem? ensures Answer(ops, ttl, i) <==> RefAnswer(ops, ttl, i) {
      PrefixPossible(ops, i);
      RunRelated(ops[..i], ops[i].at, ttl);
      ConsumeIs(StoreAfter(ops[..i], ttl), ops[i].challenge, ops[i].at, ttl);
    }
    RunRelated(ops, if ops == [] then 0 else ops[|ops| - 1].at, ttl);
  }

  // ---- when exactly a redeem succeeds ----

  /** The mint at position e evicts k: the set is full and k is its oldest member. */
  predicate Evicts(ops: seq<Op>, ttl: int, e: nat, k: bytes)
    requires e < |ops|
  {
    ops[e].Mint? &&
    var live := Current(RefAfter(ops[..e], ttl), ops[e].at, ttl);
    |live| >= MAX_CHALLENGES && live[0].key == k
  }

  /** The mint at position m still stands after the first n operations. */
  ghost predicate Stands(ops: seq<Op>, ttl: int, m: nat, n: nat, k: bytes)
    requires m < n <= |ops|
  {
    && ops[m].Mint? && ops[m].key == k
    && (forall e | m < e < n :: !(ops[e].Redeem? && ops[e].challenge == k))
    && (forall e {:trigger Evicts(ops, ttl, e, k)} | m < e < n :: !Evicts(ops, ttl, e, k))
  }

  lemma {:induction false} WithoutMembers(es: seq<Entry>, k: bytes, e: Entry)
    ensures e in Without(es, k) <==> e in es && e.key != k
  {
    if es != [] {
      WithoutMembers(es[..|es| - 1], k, e);
      assert es == es[..|es| - 1] + [es[|es| - 1]];
    }
  }

  lemma {:induction false} CurrentMembers(es: seq<Entry>, now: Time, ttl: int, e: Entry)
    ensures e in Current(es, now, ttl) <==> e in es && Unexpired(e.created, now, ttl)
  {
    if es != [] {
      CurrentMembers(es[..|es| - 1], now, ttl, e);
      assert es == es[..|es| - 1] + [es[|es| - 1]];
    }
  }

  lemma StandsGrows(ops: seq<Op>, ttl: int, m: nat, n: nat, k: bytes)
    requires m < n < |ops|
    ensures Stands(ops, ttl, m, n + 1, k) <==>
            Stands(ops, ttl, m, n, k) && !(ops[n].Redeem? && ops[n].challenge == k) && !Evicts(ops, ttl, n, k)
  {
  }

  ghost predicate Standing(ops: seq<Op>, ttl: int, n: nat, x: Entry)
    requires n <= |ops|
  {
    exists m | 0 <= m < n :: Stands(ops, ttl, m, n, x.key) && ops[m].at == x.created
  }

  /** x survives the operation at position n. */
  ghost predicate Survives(ops: seq<Op>, ttl: int, n: nat, x: Entry)
    requires n < |ops|
  {
    !(ops[n].Redeem? && ops[n].challenge == x.key) && !Evicts(ops, ttl, n, x.key)
  }

  lemma StandingStep(ops: seq<Op>, ttl: int, n: nat, x: Entry)
    requires n < |ops|
    ensures Standing(ops, ttl, n + 1, x) <==>
            (Standing(ops, ttl, n, x) && Survives(ops, ttl, n, x)) ||
              (ops[n].Mint? && x == Entry(ops[n].key, ops[n].at))
  {
    if Standing(ops, ttl, n, x) && Survives(ops, ttl, n, x) {
      var m :| 0 <= m < n && Stands(ops, ttl, m, n, x.key) && ops[m].at == x.created;
      StandsGrows(ops, ttl, m, n, x.key);
    }
    if ops[n].Mint? && x == Entry(ops[n].key, ops[n].at) { assert Stands(ops, ttl, n, n + 1, x.key); }
    if Standing(ops, ttl, n + 1, x) {
      var m :| 0 <= m < n + 1 && Stands(ops, ttl, m, n + 1, x.key) && ops[m].at == x.created;
      if m < n { StandsGrows(ops, ttl, m, n, x.key); }
    }
  }

  lemma RefStep(ops: seq<Op>, ttl: int, n: nat, x: Entry)
    requires n < |ops|
    ensures x in RefAfter(ops[..n + 1], ttl) <==>
            (x in RefAfter(ops[..n], ttl) && Survives(ops, ttl, n, x)) ||
              (ops[n].Mint? && x == Entry(ops[n].key, ops[n].at))
  {
    var es, op, upTo := RefAfter(ops[..n], ttl), ops[n], ops[..n + 1];
    assert upTo[..n] == ops[..n];
    if op.Redeem? {
      WithoutMembers(es, op.challenge, x);
    } else {
      var live := Current(es, op.at, ttl);
      if |live| >= MAX_CHALLENGES { WithoutMembers(es, live[0].key, x); }
    }
  }

  /** The timed set holds an entry exactly when its mint still stands. */
  lemma {:induction false} RefContents(ops: seq<Op>, ttl: int, n: nat, x: Entry)
    requires n <= |ops|
    ensures x in RefAfter(ops[..n], ttl) <==> Standing(ops, ttl, n, x)
  {
    if n > 0 {
      RefContents(ops, ttl, n - 1, x);
      StandingStep(ops, ttl, n - 1, x);
      RefStep(ops, ttl, n - 1, x);
    }
  }

  /** Over every run a redeem succeeds exactly when the challenge was minted, is unexpired, and
      has been neither redeemed nor evicted since. */
  lemma RedeemExactly(ops: seq<Op>, ttl: int, i: nat)
    requires Possible(ops) && i < |ops| && ops[i].Redeem?
    ensures Answer(ops, ttl, i) <==>
            exists m | 0 <= m < i :: Stands(ops, ttl, m, i, ops[i].challenge) && ops[i].at - ops[m].at < ttl
  {
    StoreRefinesTimedSet(ops, ttl);
    var es, k, now := RefAfter(ops[..i], ttl), ops[i].challenge, ops[i].at;
    var live := Current(es, now, ttl);
    if HasKey(live, k) {
      var j :| 0 <= j < |live| && live[j].key == k;
      CurrentMembers(es, now, ttl, live[j]);
      RefContents(ops, ttl, i, live[j]);
    }
    if m :| 0 <= m < i && Stands(ops, ttl, m, i, k) && Unexpired(ops[m].at, now, ttl) {
      var x := Entry(ops[m].key, ops[m].at);
      RefContents(ops, ttl, i, x);
      CurrentMembers(es, now, ttl, x);
      assert x in live;
    }
  }

  /** No challenge is redeemed twice. */
  lemma RedeemedAtMostOnce(ops: seq<Op>, ttl: int, i: nat, j: nat)
    requires Possible(ops) && i < j < |ops| && ops[i].Redeem? && ops[j].Redeem? && ops[i].challenge == ops[j].challenge
    ensures !(Answer(ops, ttl, i) && Answer(ops, ttl, j))
  {
    RedeemExactly(ops, ttl, i);
    RedeemExactly(ops, ttl, j);
  }

  // ---- how often the queue is compacted ----

  ghost predicate Compacts(ops: seq<Op>, ttl: int, i: nat)
    requires i < |ops|
  {
    ops[i].Mint? && |DropExpired(StoreAfter(ops[..i], ttl), ops[i].at, ttl).issued| >= 2 * MAX_CHALLENGES
  }

  function Mints(ops: seq<Op>): nat {
    if ops == [] then 0 else Mints(ops[..|ops| - 1]) + if ops[|ops| - 1].Mint? then 1 else 0
  }

  lemma {:induction false} DropExpiredNotLonger(st: Store, now: Time, ttl: int)
    ensures |DropExpired(st, now, ttl).issued| <= |st.issued|
    decreases |st.issued|
  {
    if st.issued != [] && !IsLive(st.challenges, st.issued[0], now, ttl) {
      DropExpiredNotLonger(DropOldest(st), now, ttl);
    }
  }

  lemma CompactedLength(st: Store, now: Time, ttl: int)
    requires Valid(st, now) && |DropExpired(st, now, ttl).issued| >= 2 * MAX_CHALLENGES
    ensures |Swept(st, now, ttl).issued| == |Swept(st, now, ttl).challenges| <= MAX_CHALLENGES
  {
    var st1 := DropExpired(st, now, ttl);
    DropExpiredKeepsValid(st, now, ttl);
    DropExpiredLive(st, now, ttl);
    LiveCount(st1, now, ttl);
    LiveKeysAre(st1.challenges, st1.issued, now, ttl);
    assert Compact(st1, now, ttl).challenges == st1.challenges;
  }

  lemma CreateLength(st: Store, key: Key, now: Time, ttl: int)
    requires Valid(st, now)
    ensures |Create(st, key, now, ttl).issued| <= |st.issued| + 1
    ensures |DropExpired(st, now, ttl).issued| >= 2 * MAX_CHALLENGES ==>
            |Create(st, key, now, ttl).issued| <= MAX_CHALLENGES
  {
    DropExpiredNotLonger(st, now, ttl);
    var st1 := DropExpired(st, now, ttl);
    if |st1.issued| >= 2 * MAX_CHALLENGES { CompactedLength(st, now, ttl); }
  }

  lemma LengthStep(ops: seq<Op>, ttl: int, n: nat)
    requires Possible(ops) && n < |ops|
    ensures |StoreAfter(ops[..n + 1], ttl).issued| <= |StoreAfter(ops[..n], ttl).issued| + if ops[n].Mint? then 1 else 0
    ensures Compacts(ops, ttl, n) ==> |StoreAfter(ops[..n + 1], ttl).issued| <= MAX_CHALLENGES
  {
    var st, op := StoreAfter(ops[..n], ttl), ops[n];
    var upTo := ops[..n + 1];
    assert upTo[..n] == ops[..n];
    PrefixPossible(ops, n);
    RunRelated(ops[..n], op.at, ttl);
    if op.Mint? { CreateLength(st, op.key, op.at, ttl); }
  }

  lemma MintsStep(ops: seq<Op>, i: nat, j: nat)
    requires i <= j < |ops|
    ensures Mints(ops[i..j + 1]) == Mints(ops[i..j]) + if ops[j].Mint? then 1 else 0
  {
    var longer := ops[i..j + 1];
    assert longer[..|longer| - 1] == ops[i..j];
  }

  lemma {:induction false} GrowsByMints(ops: seq<Op>, lengths: seq<nat>, i: nat, j: nat)
    requires i < j <= |ops| && |lengths| == |ops| + 1 && lengths[i + 1] <= MAX_CHALLENGES
    requires forall n | 0 <= n < |ops| :: lengths[n + 1] <= lengths[n] + if ops[n].Mint? then 1 else 0
    ensures lengths[j] <= MAX_CHALLENGES + Mints(ops[i + 1..j])
  {
    if j > i + 1 {
      GrowsByMints(ops, lengths, i, j - 1);
      MintsStep(ops, i + 1, j - 1);
      var n := j - 1;
      assert lengths[n + 1] <= lengths[n] + if ops[n].Mint? then 1 else 0;
    }
  }

  /** Between two compactions there are at least 2^17 mints. */
  lemma CompactionsAreFarApart(ops: seq<Op>, ttl: int, i: nat, j: nat)
    requires Possible(ops) && i < j < |ops| && Compacts(ops, ttl, i) && Compacts(ops, ttl, j)
    ensures Mints(ops[i + 1..j]) >= MAX_CHALLENGES
  {
    var lengths := seq(|ops| + 1, n requires 0 <= n <= |ops| => |StoreAfter(ops[..n], ttl).issued|);
    forall n | 0 <= n < |ops| ensures lengths[n + 1] <= lengths[n] + if ops[n].Mint? then 1 else 0 {
      LengthStep(ops, ttl, n);
    }
    LengthStep(ops, ttl, i);
    GrowsByMints(ops, lengths, i, j);
    DropExpiredNotLonger(StoreAfter(ops[..j], ttl), ops[j].at, ttl);
  }
}
