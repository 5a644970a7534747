/** Secret release as a state machine (internal/secrets/handler.go:147-185, 312-427;
    pkg/workloadclaims/sandboxtoken.go:127-162): any number of requests in flight, arbitrary
    clients, operators writing the allowlist, inventories that admit containers, restart and sign
    what they like.  Signatures are ideal: nobody presents one that its key did not make. */
module Release {
  import opened Bytes
  import opened Wrappers
  import opened Grants
  import opened Allowlist
  import Challenges = ChallengeStore
  import Ledger
  import Matching
  import Normalise
  import ContainerKey
  import History
  import CachedPolicy
  import Decision = Explain

  /** What an inventory signs. */
  datatype Token = Token(version: int, sandboxID: bytes, keyDigest: bytes, nonce: bytes, inventoryHost: bytes)

  const TOKEN_VERSION: int := 2

  datatype Signature = By(key: nat, token: Token) | Junk(bits: nat)

  /** A request as it arrives.  `sandboxID` is the one in the verified client certificate, empty
      when there is none; `token` is None when it does not decode. */
  datatype Request = Request(
    path: bytes, challenge: bytes, sandboxID: bytes, keyDigest: bytes, token: Option<Token>, signature: Signature)

  /** `start` is the allowlist, with its version, that the process finds. */
  datatype Config = Config(
    challengeTTL: int, ledgerTTL: int, ledgerMax: int, allowed: bytes -> bool, routable: bytes -> bool,
      hashing: Hashing,
    start: (Workloads, nat), key: Normalise.Rendering, printable: ContainerKey.Printable)

  /** A sandbox on a host. */
  type Place = (bytes, bytes)

  /** What each inventory has recorded of each sandbox it knows. */
  type Inventories = map<Place, seq<History.Admission>>

  /** How far a request has come.  `since` is the present of the allowlist when the request was
      authorised, `answer` what the policy cache returned, `asked` the present of the inventories at
      that moment, and `fetched` the one the report was taken from. */
  datatype Pc =
    | Arrived(request: Request)
    | Fresh(request: Request)
    | Bound(request: Request, host: bytes, looked: nat, at: Time)
    | Authorised(request: Request, host: bytes, since: nat)
    | Ready(request: Request, host: bytes, since: nat, answer: CachedPolicy.Answer, asked: nat)
    | Granted(request: Request, host: bytes, since: nat, answer: CachedPolicy.Answer, asked: nat,
              fetched: nat, report: seq<Matching.SandboxContainer>, workload: bytes)
    | Denied

  /** An authorisation: the host consulted, when and after how many ledger operations it was
      looked up, and the key its inventory served. */
  datatype Event = Event(thread: nat, request: Request, host: bytes, looked: nat, at: Time, key: nat)

  /** `owner` says which request consumed a challenge and `keyOf` whose inventory a key is;
      `ledger` is the ledger's own run, `policy` the allowlist store with its cache, and
      `inventories` everything the inventories have held, the present last. */
  datatype State = State(
    now: Time, challenges: Challenges.Store, minted: set<bytes>, owner: map<bytes, nat>,
    ledger: seq<Ledger.Op>, keys: map<bytes, nat>, keyOf: map<nat, bytes>, signed: set<(nat, Token)>,
    policy: CachedPolicy.State, inventories: seq<Inventories>, threads: map<nat, Pc>, log: seq<Event>)

  /** What happens around the requests. */
  datatype WorldStep =
    | Tick(to: Time)
    | Mint(challenge: Challenges.Key)
    | Record(sandboxID: bytes, host: bytes)
    | Sweep
    | Restart(host: bytes, key: nat)
    | Sign(host: bytes, token: Token)
    | Admit(place: Place, admission: History.Admission)
    | KnowSandbox(place: Place)
    | RemoveSandbox(place: Place)

  /** A request on its way to an authorisation. */
  datatype RequestStep = Begin(request: Request) | Consume | Lookup | Verify

  /** An authorised request on its way to a grant, and the policy store. */
  datatype DecisionStep =
    | Policy(step: CachedPolicy.Step)
    | PolicyFails(thread: nat)
    | Fetch(thread: nat, digests: seq<bytes>, report: seq<Matching.SandboxContainer>)
    | FetchFails(thread: nat)

  datatype Step = World(event: WorldStep) | Authorise(thread: nat, move: RequestStep) | Decide(decision: DecisionStep)

  // ---- the checks ----

  /** What the token must say for this request. */
  predicate TokenFits(c: Config, r: Request, host: bytes, key: nat) {
    && r.token.Some? && r.token.value.inventoryHost == host
    && r.challenge != [] && r.signature == By(key, r.token.value)
    && r.token.value.version == TOKEN_VERSION && r.token.value.nonce == r.challenge
    && r.token.value.keyDigest == r.keyDigest && c.routable(r.token.value.inventoryHost)
    && r.token.value.sandboxID == r.sandboxID
  }

  /** The token is the one this host signs, under this key, for the request's own sandbox, key and
      challenge. */
  predicate TokenFor(c: Config, r: Request, host: bytes, key: nat) {
    && r.challenge != [] && c.routable(host) && r.token == Some(Token(2, r.sandboxID, r.keyDigest, r.challenge, host))
    && r.signature == By(key, r.token.value)
  }

  function Bindings(c: Config, ops: seq<Ledger.Op>): Ledger.Bindings {
    Ledger.After(ops, c.ledgerTTL, c.ledgerMax)
  }

  // ---- one step; a step that is not enabled changes nothing ----

  ghost predicate Started(s: State) {
    s.policy.history != [] && s.inventories != []
  }

  function Present(s: State): nat
    requires Started(s)
  {
    |s.inventories| - 1
  }

  function Moved(s: State, t: nat, pc: Pc): State {
    s.(threads := s.threads[t := pc])
  }

  ghost function ConsumeStep(c: Config, s: State, t: nat, r: Request): State {
    if CanonicalSecretPath(r.path).Err? then Moved(s, t, Denied)
    else
      var (store, ok) := Challenges.Consume(s.challenges, r.challenge, s.now, c.challengeTTL);
      if ok then s.(challenges := store, owner := s.owner[r.challenge := t], threads := s.threads[t := Fresh(r)])
      else s.(challenges := store, threads := s.threads[t := Denied])
  }

  function LookupStep(c: Config, s: State, t: nat, r: Request): State {
    var host := Ledger.LookedUp(Bindings(c, s.ledger), r.sandboxID, s.now);
    if r.sandboxID == [] || host.None? || !c.allowed(host.value) then Moved(s, t, Denied)
    else Moved(s, t, Bound(r, host.value, |s.ledger|, s.now))
  }

  function VerifyStep(c: Config, s: State, t: nat, pc: Pc): State
    requires pc.Bound? && Started(s)
  {
    if pc.host !in s.keys then Moved(s, t, Denied)
    else
      var key := s.keys[pc.host];
      if !TokenFits(c, pc.request, pc.host, key) then Moved(s, t, Denied)
      else s.(threads := s.threads[t := Authorised(pc.request, pc.host, CachedPolicy.Now(s.policy))],
              log := s.log + [Event(t, pc.request, pc.host, pc.looked, pc.at, key)])
  }

  /** A step of the policy cache, taken by a request once it is authorised, by another caller or by
      a writer.  The request whose call ends moves on with its answer. */
  ghost function PolicyStep(c: Config, s: State, step: CachedPolicy.Step): State
    requires Started(s)
  {
    var s' := s.(policy := CachedPolicy.Apply(s.policy, step, c.key));
    if step.Mutate? || step.thread !in s.threads then s'
    else
      var t, pc := step.thread, s.threads[step.thread];
      if !pc.Authorised? then s
      else if t !in s.policy.threads || t in s'.policy.threads then s'
      else if |s'.policy.answers| == |s.policy.answers| then Moved(s', t, Denied)
      else Moved(s', t, Ready(pc.request, pc.host, pc.since, s'.policy.answers[|s.policy.answers|], Present(s)))
  }

  ghost predicate Releases(c: Config, policy: Workloads, report: seq<Matching.SandboxContainer>, name: bytes) {
    exists g :: Decision.Released(c.hashing, policy, report, name, g)
  }

  ghost predicate Snapshots(c: Config, log: seq<History.Admission>, digests: seq<bytes>,
                            report: seq<Matching.SandboxContainer>)
  {
    var (byKey, unresolved) := History.After(log, c.printable);
    unresolved == {} && History.IsSnapshot(byKey, digests, report, c.printable)
  }

  /** The end of a request whose report has arrived. */
  ghost function Decided(c: Config, pc: Pc, fetched: nat, report: seq<Matching.SandboxContainer>): (end: Pc)
    requires pc.Ready?
    ensures end.Granted? || end.Denied?
    ensures end.Granted? ==>
              && end == Granted(pc.request, pc.host, pc.since, pc.answer, pc.asked, fetched, report, end.workload)
              && Releases(c, pc.answer.document, report, end.workload)
    ensures end.Denied? ==> forall name :: !Releases(c, pc.answer.document, report, name)
  {
    if exists name :: Releases(c, pc.answer.document, report, name) then
      var name :| Releases(c, pc.answer.document, report, name);
      Granted(pc.request, pc.host, pc.since, pc.answer, pc.asked, fetched, report, name)
    else Denied
  }

  /** The bound host's inventory answers with a snapshot of the sandbox; FetchFails is every other
      answer, that of a sandbox unknown or not resolved among them. */
  ghost function FetchStep(c: Config, s: State, t: nat, pc: Pc, digests: seq<bytes>,
                           report: seq<Matching.SandboxContainer>): State
    requires pc.Ready? && Started(s)
  {
    var known, place := s.inventories[Present(s)], (pc.host, pc.request.sandboxID);
    if place !in known || !Snapshots(c, known[place], digests, report) then s
    else Moved(s, t, Decided(c, pc, Present(s), report))
  }

  /** A client may send any signature of a key that key has made. */
  predicate Unforged(s: State, r: Request) {
    r.signature.By? ==> (r.signature.key, r.signature.token) in s.signed
  }

  function Recorded(s: State, known: Inventories): State {
    s.(inventories := s.inventories + [known])
  }

  function Known(known: Inventories, place: Place): seq<History.Admission> {
    if place in known then known[place] else []
  }

  /** The process that loses its key loses what it recorded. */
  function Restarted(s: State, host: bytes, key: nat): State
    requires Started(s)
  {
    var known := s.inventories[Present(s)];
    Recorded(s.(keys := s.keys[host := key], keyOf := s.keyOf[key := host]), map p | p in known && p.0 != host ::
      known[p])
  }

  ghost function WorldMove(c: Config, s: State, step: WorldStep): (s': State)
    requires Started(s)
    ensures Started(s')
  {
    var known := s.inventories[Present(s)];
    match step
    case Tick(to) => if to < s.now then s else s.(now := to)
    case Mint(k) =>
      if k in s.minted then s
      else s.(challenges := Challenges.Create(s.challenges, k, s.now, c.challengeTTL), minted := s.minted + {k})
    case Record(id, host) => s.(ledger := s.ledger + [Ledger.Record(id, host, s.now)])
    case Sweep => s.(ledger := s.ledger + [Ledger.Sweep(s.now)])
    case Restart(host, key) => if key in s.keyOf then s else Restarted(s, host, key)
    case Sign(host, token) => if host in s.keys then s.(signed := s.signed + {(s.keys[host], token)}) else s
    case Admit(place, a) => Recorded(s, known[place := Known(known, place) + [a]])
    case KnowSandbox(place) => Recorded(s, known[place := Known(known, place)])
    case RemoveSandbox(place) => Recorded(s, known - {place})
  }

  ghost function RequestMove(c: Config, s: State, t: nat, step: RequestStep): (s': State)
    requires Started(s)
    ensures Started(s')
  {
    if step.Begin? then
      if t in s.threads || t in s.policy.threads || !Unforged(s, step.request) then s
        else Moved(s, t, Arrived(step.request))
    else if t !in s.threads then s
    else if step.Consume? && s.threads[t].Arrived? then ConsumeStep(c, s, t, s.threads[t].request)
    else if step.Lookup? && s.threads[t].Fresh? then LookupStep(c, s, t, s.threads[t].request)
    else if step.Verify? && s.threads[t].Bound? then VerifyStep(c, s, t, s.threads[t])
    else s
  }

  ghost function DecisionMove(c: Config, s: State, step: DecisionStep): (s': State)
    requires Started(s)
    ensures Started(s')
  {
    match step
    case Policy(p) => PolicyStep(c, s, p)
    case PolicyFails(t) =>
      if t in s.threads && s.threads[t].Authorised? && t !in s.policy.threads then Moved(s, t, Denied) else s
    case Fetch(t, digests, report) =>
      if t in s.threads && s.threads[t].Ready? then FetchStep(c, s, t, s.threads[t], digests, report) else s
    case FetchFails(t) => if t in s.threads && s.threads[t].Ready? then Moved(s, t, Denied) else s
  }

  ghost function Apply(c: Config, s: State, step: Step): (s': State)
    requires Started(s)
    ensures Started(s')
  {
    match step
    case World(event) => WorldMove(c, s, event)
    case Authorise(t, move) => RequestMove(c, s, t, move)
    case Decide(decision) => DecisionMove(c, s, decision)
  }

  ghost function Exec(c: Config, steps: seq<Step>): (s: State)
    ensures Started(s)
  {
    if steps == [] then
      State(0, Challenges.Store(map[], []), {}, map[], [], map[], map[], {},
            CachedPolicy.State([c.start], None, 0, None, map[], []), [map[]], map[], [])
    else Apply(c, Exec(c, steps[..|steps| - 1]), steps[|steps| - 1])
  }

  // ---- after the authorisation ----

  /** Requests that are not authorised yet stay where they are, and none returns to where it was. */
  ghost predicate OnlyLateMoves(s: State, s': State) {
    && s'.threads.Keys == s.threads.Keys
    && (forall t | t in s.threads && s'.threads[t] != s.threads[t] ::
          && (s.threads[t].Authorised? || s.threads[t].Ready?)
          && (s'.threads[t].Ready? || s'.threads[t].Granted? || s'.threads[t].Denied?))
  }

  lemma PolicyMoves(c: Config, s: State, step: CachedPolicy.Step)
    requires Started(s)
    ensures var s' := PolicyStep(c, s, step);
            s' == s.(policy := s'.policy, threads := s'.threads) && OnlyLateMoves(s, s')
  {
  }

  lemma FetchMoves(c: Config, s: State, t: nat, digests: seq<bytes>, report: seq<Matching.SandboxContainer>)
    requires Started(s) && t in s.threads && s.threads[t].Ready?
    ensures var s' := FetchStep(c, s, t, s.threads[t], digests, report);
            s' == s.(threads := s'.threads) && OnlyLateMoves(s, s')
  {
  }

  lemma DecisionMoves(c: Config, s: State, step: DecisionStep)
    requires Started(s)
    ensures var s' := DecisionMove(c, s, step);
            s' == s.(policy := s'.policy, threads := s'.threads) && OnlyLateMoves(s, s')
  {
    if step.Policy? {
      PolicyMoves(c, s, step.step);
    } else if step.Fetch? && step.thread in s.threads && s.threads[step.thread].Ready? {
      FetchMoves(c, s, step.thread, step.digests, step.report);
    }
  }
}
