/** Grants do happen: from the start of the process everything a grant needs can be put in place
    (internal/secrets/handler.go:147-185, 312-354). */
module ReleaseExample {
  import opened Bytes
  import opened Wrappers
  import opened Allowlist
  import opened Grants
  import opened Matching
  import opened Release
  import CachedPolicy
  import Challenges = ChallengeStore
  import History
  import Ledger
  import ReleaseGrants
  import ReleaseHistory
  import ReleaseReaches

  // ---- the world on its own ----

  function Worldly(steps: seq<WorldStep>): seq<Step> {
    seq(|steps|, i requires 0 <= i < |steps| => World(steps[i]))
  }

  ghost function WorldRun(c: Config, s: State, steps: seq<WorldStep>): (s': State)
    requires Started(s)
    ensures Started(s')
  {
    if steps == [] then s else WorldMove(c, WorldRun(c, s, steps[..|steps| - 1]), steps[|steps| - 1])
  }

  lemma {:induction false} ExecWorldly(c: Config, steps: seq<WorldStep>)
    ensures Exec(c, Worldly(steps)) == WorldRun(c, Exec(c, []), steps)
  {
    if steps == [] {
      assert Worldly(steps) == [];
    } else {
      var init, all := steps[..|steps| - 1], Worldly(steps);
      ExecWorldly(c, init);
      assert all[..|all| - 1] == Worldly(init) && all[|all| - 1] == World(steps[|steps| - 1]);
    }
  }

  lemma WorldRunOne(c: Config, s: State, steps: seq<WorldStep>, x: WorldStep)
    requires Started(s)
    ensures WorldRun(c, s, steps + [x]) == WorldMove(c, WorldRun(c, s, steps), x)
  {
    assert (steps + [x])[..|steps|] == steps;
  }

  lemma Mints(c: Config, s: State, challenge: Challenges.Key)
    requires Started(s) && s.challenges == Challenges.Store(map[], []) && challenge !in s.minted
    ensures WorldMove(c, s, Mint(challenge)) ==
            s.(challenges := Challenges.Store(map[challenge := s.now], [challenge]), minted := s.minted + {challenge})
  {
  }

  lemma Records(c: Config, s: State, id: bytes, host: bytes)
    requires Started(s)
    ensures WorldMove(c, s, Record(id, host)) == s.(ledger := s.ledger + [Ledger.Record(id, host, s.now)])
  {
  }

  lemma Restarts(c: Config, s: State, host: bytes, key: nat)
    requires Started(s) && key !in s.keyOf
    ensures var s' := WorldMove(c, s, Restart(host, key));
            && s' == s.(keys := s.keys[host := key], keyOf := s'.keyOf, inventories := s'.inventories)
            && forall id :: (host, id) !in s'.inventories[Present(s')]
  {
  }

  lemma Signs(c: Config, s: State, host: bytes, token: Token)
    requires Started(s) && host in s.keys
    ensures WorldMove(c, s, Sign(host, token)) == s.(signed := s.signed + {(s.keys[host], token)})
  {
  }

  lemma Knows(c: Config, s: State, place: Place)
    requires Started(s)
    ensures var s' := WorldMove(c, s, KnowSandbox(place));
            && s' == s.(inventories := s'.inventories)
            && ReleaseReaches.Holds(s', place, Known(s.inventories[Present(s)], place))
  {
  }

  /** The world has what the request needs, and nothing else has happened. */
  ghost predicate Prepared(c: Config, s: State, challenge: Challenges.Key, place: Place, key: nat, token: Token) {
    && s.now == 0 && s.threads == map[] && s.policy == CachedPolicy.State([c.start], None, 0, None, map[], [])
    && s.challenges == Challenges.Store(map[challenge := 0], [challenge])
    && s.ledger == [Ledger.Record(place.1, place.0, 0)] && s.keys == map[place.0 := key] && (key, token) in s.signed
  }

  function Preparing(challenge: Challenges.Key, place: Place, key: nat, token: Token): seq<WorldStep> {
    [Mint(challenge)] + [Record(place.1, place.0)] + [Restart(place.0, key)] + [Sign(place.0, token)] +
      [KnowSandbox(place)]
  }

  lemma Prepares(c: Config, s: State, challenge: Challenges.Key, place: Place, key: nat, token: Token)
    requires s == Exec(c, [])
    ensures var s' := WorldRun(c, s, Preparing(challenge, place, key, token));
            Prepared(c, s', challenge, place, key, token) && ReleaseReaches.Holds(s', place, [])
  {
    var p1 := [Mint(challenge)];
    var p2 := p1 + [Record(place.1, place.0)];
    var p3 := p2 + [Restart(place.0, key)];
    var p4 := p3 + [Sign(place.0, token)];
    assert p1 == [] + p1;
    WorldRunOne(c, s, [], Mint(challenge));
    Mints(c, s, challenge);
    WorldRunOne(c, s, p1, Record(place.1, place.0));
    Records(c, WorldRun(c, s, p1), place.1, place.0);
    WorldRunOne(c, s, p2, Restart(place.0, key));
    Restarts(c, WorldRun(c, s, p2), place.0, key);
    WorldRunOne(c, s, p3, Sign(place.0, token));
    Signs(c, WorldRun(c, s, p3), place.0, token);
    WorldRunOne(c, s, p4, KnowSandbox(place));
    Knows(c, WorldRun(c, s, p4), place);
  }

  function Admitting(place: Place, log: seq<History.Admission>): seq<WorldStep> {
    seq(|log|, i requires 0 <= i < |log| => Admit(place, log[i]))
  }

  /** Only what the inventories hold has changed, and they hold this log. */
  ghost predicate Admitted(s: State, s': State, place: Place, log: seq<History.Admission>) {
    Started(s') && s' == s.(inventories := s'.inventories) && ReleaseReaches.Holds(s', place, log)
  }

  lemma AdmitsOne(c: Config, s: State, s': State, place: Place, log: seq<History.Admission>, a: History.Admission)
    requires Admitted(s, s', place, log)
    ensures Admitted(s, WorldMove(c, s', Admit(place, a)), place, log + [a])
  {
  }

  lemma AdmittingOne(place: Place, log: seq<History.Admission>, steps: seq<WorldStep>)
    requires log != []
    ensures steps + Admitting(place, log) ==
            (steps + Admitting(place, log[..|log| - 1])) + [Admit(place, log[|log| - 1])]
  {
  }

  lemma {:induction false} AdmitsAll(c: Config, s: State, steps: seq<WorldStep>, place: Place,
                                     log: seq<History.Admission>)
    requires Started(s) && ReleaseReaches.Holds(WorldRun(c, s, steps), place, [])
    ensures Admitted(WorldRun(c, s, steps), WorldRun(c, s, steps + Admitting(place, log)), place, log)
  {
    if log == [] {
      assert steps + Admitting(place, log) == steps;
    } else {
      var init, a := log[..|log| - 1], log[|log| - 1];
      AdmitsAll(c, s, steps, place, init);
      AdmittingOne(place, log, steps);
      WorldRunOne(c, s, steps + Admitting(place, init), Admit(place, a));
      AdmitsOne(c, WorldRun(c, s, steps), WorldRun(c, s, steps + Admitting(place, init)), place, init, a);
      assert log == init + [a];
    }
  }

  // ---- a grant ----

  /** A request of a sandbox that its inventory vouches for. */
  function Vouched(path: bytes, challenge: Challenges.Key, place: Place, digest: bytes, key: nat): Request {
    var token := Token(TOKEN_VERSION, place.1, digest, challenge, place.0);
    Request(path, challenge, place.1, digest, Some(token), By(key, token))
  }

  /** The configuration lets a request through. */
  predicate Open(c: Config, place: Place) {
    && c.challengeTTL > 0 && c.ledgerTTL > 0 && c.ledgerMax > 0
    && place.0 != [] && place.1 != [] && c.allowed(place.0) && c.routable(place.0)
  }

  lemma FirstBinding(id: bytes, host: bytes, ttl: int, max: int)
    requires ttl > 0 && max > 0 && id != [] && host != []
    ensures Ledger.LookedUp(Ledger.After([Ledger.Record(id, host, 0)], ttl, max), id, 0) == Some(host)
  {
    var ops := [Ledger.Record(id, host, 0)];
    assert ops[..|ops| - 1] == [];
    assert Ledger.After([], ttl, max) == map[];
  }

  lemma PreparedAuthorises(c: Config, s: State, path: bytes, challenge: Challenges.Key, place: Place, digest: bytes,
                           key: nat)
    requires Open(c, place) && CanonicalSecretPath(path).Ok?
    requires var r := Vouched(path, challenge, place, digest, key); Prepared(c, s, challenge, place, key, r.token.value)
    ensures ReleaseReaches.CanAuthorise(c, s, 0, Vouched(path, challenge, place, digest, key), place.0)
  {
    FirstBinding(place.1, place.0, c.ledgerTTL, c.ledgerMax);
  }

  /** Whatever allowlist the process finds, a sandbox whose admissions fit one of its entries can be
      granted that entry. */
  lemma GrantsAreReachable(c: Config, path: bytes, challenge: Challenges.Key, place: Place, digest: bytes, key: nat,
                           log: seq<History.Admission>, name: bytes, g: SecretsPolicy)
    returns (steps: seq<Step>)
    requires Open(c, place) && CanonicalSecretPath(path).Ok? && (forall id :: !History.Pending(log, id))
    requires ReleaseHistory.HistoryReleases(c.hashing, c.start.0, log, name, g)
    ensures ReleaseReaches.GrantedTo(Exec(c, steps), 0, Vouched(path, challenge, place, digest, key), place.0, name)
  {
    var r := Vouched(path, challenge, place, digest, key);
    var s, world := Exec(c, []), Preparing(challenge, place, key, r.token.value);
    Prepares(c, s, challenge, place, key, r.token.value);
    AdmitsAll(c, s, world, place, log);
    var all := world + Admitting(place, log);
    ExecWorldly(c, all);
    PreparedAuthorises(c, Exec(c, Worldly(all)), path, challenge, place, digest, key);
    var digests, report := ReleaseReaches.FittingRequestIsGranted(c, Worldly(all), 0, r, place.0, log, name, g);
    steps := Worldly(all) + ReleaseReaches.Attempt(0, r, digests, report);
  }

  // ---- with an allowlist ----

  /** One container, whose argv is given. */
  function Simple(digest: bytes, argv: seq<bytes>, g: SecretsPolicy): Workload {
    Workload([], [], [Container(digest, [], ArgvPolicy(Exact, argv), ArgvPolicy(Exact, []), MountPolicy(Any, []),
                                EnvPolicy(Any, None))], Some(g))
  }

  lemma SimpleFits(h: Hashing, name: bytes, id: bytes, digest: bytes, argv: seq<bytes>, g: SecretsPolicy)
    requires digest != []
    ensures var ws, log := map[name := Simple(digest, argv, g)],
            [History.Admission(id, digest, Some(argv), None, None)];
            ReleaseHistory.HistoryReleases(h, ws, log, name, g) && forall x :: !History.Pending(log, x)
  {
    var ws, log := map[name := Simple(digest, argv, g)], [History.Admission(id, digest, Some(argv), None, None)];
    var w := ws[name];
    assert argv[|argv|..] == [];
    assert Admits(h, w.containers[0], AsRunning(History.Observed(log[0])));
    assert Declared(w)[0] == w.containers[0] && AllContainers(w) == w.containers;
    assert !AnyArgv(w.containers[0]) && ReleaseHistory.Counts(ws, log, 0);
    assert ReleaseHistory.RanUnder(h, ws, w.containers[0], log);
  }

  /** So some run of some process grants. */
  lemma SomeRunGrants(c: Config, path: bytes, challenge: Challenges.Key, place: Place, name: bytes, digest: bytes,
                      argv: seq<bytes>, g: SecretsPolicy)
    returns (steps: seq<Step>)
    requires Open(c, place) && CanonicalSecretPath(path).Ok? && digest != []
    requires c.start.0 == map[name := Simple(digest, argv, g)]
    ensures ReleaseGrants.HasGrant(c, steps, 0)
  {
    SimpleFits(c.hashing, name, [], digest, argv, g);
    var log := [History.Admission([], digest, Some(argv), None, None)];
    steps := GrantsAreReachable(c, path, challenge, place, [], 0, log, name, g);
  }
}
