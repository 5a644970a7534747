/** GET and POST on the store (internal/secrets/handler.go:187-251): a write grant never becomes a
    read grant. */
module SecretServing {
  import opened Bytes
  import opened Wrappers
  import opened Allowlist
  import opened Grants
  import opened SecretStore

  datatype Response = Value(value: bytes) | Created(value: bytes) | Conflict | NotFound | QuotaReached
    | CeilingReached | Unavailable

  function ServeGet(st: Store, secrets: Option<SecretsPolicy>, path: bytes): Response {
    if !Allows(secrets, path, Read) || path !in st.values then NotFound else Value(st.values[path].value)
  }

  /** `candidate` is the freshly minted value, None when there was no randomness. */
  function ServePost(st: Store, lim: Limits, secrets: Option<SecretsPolicy>, workload: bytes, path: bytes,
                     candidate: Option<bytes>)
    : (Store, Response)
  {
    if !Allows(secrets, path, Write) then (st, NotFound)
    else if candidate.None? then (st, Unavailable)
    else
      var (st', r) := PutIfAbsent(st, lim, path, candidate.value, WorkloadHolder(workload));
      match r
      case Refused(HolderQuota) => (st', QuotaReached)
      case Refused(StoreFull) => (st', CeilingReached)
      case Refused(TooLarge) => (st', Unavailable)
      case Existing(_, _) => (st', Conflict)
      case Stored(_) => (st', Created(candidate.value))
  }

  method HandleGet(store: MemoryStore, secrets: Option<SecretsPolicy>, path: bytes) returns (resp: Response)
    ensures resp == ServeGet(store.View(), secrets, path)
  {
    if !Allows(secrets, path, Read) {
      return NotFound;
    }
    var value := store.Get(path);
    return if value.None? then NotFound else Value(value.value);
  }

  method HandlePost(store: MemoryStore, secrets: Option<SecretsPolicy>, workload: bytes, path: bytes,
                    candidate: Option<bytes>)
    returns (resp: Response)
    requires Valid(store.View(), store.limits)
    modifies store
    ensures (store.View(), resp) == ServePost(old(store.View()), store.limits, secrets, workload, path, candidate)
    ensures Valid(store.View(), store.limits)
  {
    if !Allows(secrets, path, Write) {
      return NotFound;
    }
    if candidate.None? {
      return Unavailable;
    }
    var r := store.PutIfAbsentLocked(path, candidate.value, WorkloadHolder(workload));
    match r
    case Refused(HolderQuota) => return QuotaReached;
    case Refused(StoreFull) => return CeilingReached;
    case Refused(TooLarge) => return Unavailable;
    case Existing(_, _) => return Conflict;
    case Stored(_) => return Created(candidate.value);
  }

  // ---- runs ----

  datatype Op =
    | Get(secrets: Option<SecretsPolicy>, path: bytes)
    | Post(secrets: Option<SecretsPolicy>, workload: bytes, path: bytes, candidate: Option<bytes>)
    | OperatorPut(path: bytes, value: bytes)

  function Step(st: Store, lim: Limits, op: Op): Store {
    match op
    case Get(_, _) => st
    case Post(secrets, workload, path, candidate) => ServePost(st, lim, secrets, workload, path, candidate).0
    case OperatorPut(path, value) => Put(st, lim, path, value).0
  }

  function After(ops: seq<Op>, lim: Limits): Store {
    if ops == [] then Store(map[], map[]) else Step(After(ops[..|ops| - 1], lim), lim, ops[|ops| - 1])
  }

  /** What a caller of GET or POST is told. */
  function Answer(st: Store, lim: Limits, op: Op): Response
    requires !op.OperatorPut?
  {
    if op.Get? then ServeGet(st, op.secrets, op.path)
    else ServePost(st, lim, op.secrets, op.workload, op.path, op.candidate).1
  }

  lemma PostStores(st: Store, lim: Limits, secrets: Option<SecretsPolicy>, workload: bytes, path: bytes,
                   candidate: Option<bytes>)
    ensures var st' := ServePost(st, lim, secrets, workload, path, candidate).0;
            st' == st || (candidate.Some? &&
              st' == PutIfAbsent(st, lim, path, candidate.value, WorkloadHolder(workload)).0)
  {
  }

  lemma StepKeepsValid(st: Store, lim: Limits, op: Op)
    requires Valid(st, lim)
    ensures Valid(Step(st, lim, op), lim)
  {
    if op.Post? {
      PostStores(st, lim, op.secrets, op.workload, op.path, op.candidate);
      if op.candidate.Some? {
        PutIfAbsentKeepsValid(st, lim, op.path, op.candidate.value, WorkloadHolder(op.workload));
      }
    } else if op.OperatorPut? {
      PutKeepsValid(st, lim, op.path, op.value);
    }
  }

  /** After any operations every count is exact and positive, the counts add up to the size, and
      both bounds hold. */
  lemma {:induction false} AlwaysValid(ops: seq<Op>, lim: Limits)
    ensures Valid(After(ops, lim), lim) && Total(After(ops, lim).holders) == |After(ops, lim).values|
    ensures After(ops, lim).values != map[] ==> |After(ops, lim).values| <= lim.maxPaths
    ensures forall p | p in After(ops, lim).values :: |After(ops, lim).values[p].value| <= lim.maxValue
  {
    if ops != [] {
      AlwaysValid(ops[..|ops| - 1], lim);
      StepKeepsValid(After(ops[..|ops| - 1], lim), lim, ops[|ops| - 1]);
    }
    CountsAddUp(After(ops, lim));
  }

  // ---- what a POST can tell ----

  /** Which paths exist and who is charged. */
  function Charges(st: Store): map<bytes, Holder> {
    map p | p in st.values :: st.values[p].holder
  }

  lemma SameCharges(st: Store, st': Store)
    requires Accounted(st) && Accounted(st') && Charges(st) == Charges(st')
    ensures st.holders == st'.holders && st.values.Keys == st'.values.Keys
    ensures forall p | p in st.values :: st.values[p].holder == st'.values[p].holder
  {
    assert st.values.Keys == Charges(st).Keys == Charges(st').Keys == st'.values.Keys;
    forall p | p in st.values ensures st.values[p].holder == st'.values[p].holder {
      assert Charges(st)[p] == Charges(st')[p];
    }
    forall h ensures PathsOf(st.values, h) == PathsOf(st'.values, h) && Count(st, h) == Count(st', h) {
      assert PathsOf(st.values, h) == PathsOf(st'.values, h);
      NoPathsNoCount(st, h);
      NoPathsNoCount(st', h);
    }
    assert forall h :: h in st.holders <==> Count(st, h) > 0;
    assert forall h :: h in st'.holders <==> Count(st', h) > 0;
  }

  /** What a write comes to. */
  datatype Kind = Writes | Finds | Fails(error: StoreError)

  function KindOf(lim: Limits, tooLarge: bool, exists_: bool, count: nat, size: nat, owner: Holder): Kind {
    if tooLarge then Fails(TooLarge)
    else if exists_ then Finds
    else if owner != Operator && count >= lim.maxPerHolder then Fails(HolderQuota)
    else if size >= lim.maxPaths then Fails(StoreFull) else Writes
  }

  function PutKind(st: Store, lim: Limits, path: bytes, value: bytes, owner: Holder): Kind {
    KindOf(lim, |value| > lim.maxValue, path in st.values, Count(st, owner), |st.values|, owner)
  }

  lemma PutIfAbsentIs(st: Store, lim: Limits, path: bytes, value: bytes, owner: Holder)
    ensures var (st', r) := PutIfAbsent(st, lim, path, value, owner);
            match PutKind(st, lim, path, value, owner)
            case Writes => st' == Charged(st, path, value, owner) && r == Stored(value)
            case Finds => st' == st && r.Existing?
            case Fails(e) => st' == st && r == Refused(e)
  {
  }

  lemma SameKind(st: Store, st': Store, lim: Limits, path: bytes, v: bytes, v': bytes, owner: Holder)
    requires Accounted(st) && Accounted(st') && Charges(st) == Charges(st') &&
             (|v| > lim.maxValue <==> |v'| > lim.maxValue)
    ensures PutKind(st, lim, path, v, owner) == PutKind(st', lim, path, v', owner)
    ensures path in st.values <==> path in st'.values
  {
    SameCharges(st, st');
    assert |st.values.Keys| == |st'.values.Keys|;
  }

  function Outcome(r: Response): Response {
    match r
    case Created(_) => Created([])
    case Value(_) => Value([])
    case _ => r
  }

  function PostOutcome(allowed: bool, minted: bool, kind: Kind): Response {
    if !allowed then NotFound
    else if !minted then Unavailable
    else
      match kind
      case Writes => Created([])
      case Finds => Conflict
      case Fails(HolderQuota) => QuotaReached
      case Fails(StoreFull) => CeilingReached
      case Fails(TooLarge) => Unavailable
  }

  lemma PostIs(st: Store, lim: Limits, secrets: Option<SecretsPolicy>, workload: bytes, path: bytes,
               candidate: Option<bytes>)
    ensures var (st', r) := ServePost(st, lim, secrets, workload, path, candidate);
            var h := WorkloadHolder(workload);
            var kind := if candidate.Some? then PutKind(st, lim, path, candidate.value, h) else Finds;
            && Outcome(r) == PostOutcome(Allows(secrets, path, Write), candidate.Some?, kind)
            && !r.Value? && (r.Created? ==> candidate == Some(r.value))
            && st' == if r.Created? then Charged(st, path, candidate.value, h) else st
  {
    if candidate.Some? { PutIfAbsentIs(st, lim, path, candidate.value, WorkloadHolder(workload)); }
  }

  lemma PutIs(st: Store, lim: Limits, path: bytes, value: bytes)
    ensures var kind := PutKind(st, lim, path, value, Operator);
            && (Put(st, lim, path, value).1.Ok? <==> !kind.Fails?)
            && Put(st, lim, path, value).0 == if kind.Fails? then st else Charged(st, path, value, Operator)
  {
  }

  /** The answer to a POST is a function of the charges, never of a stored value. */
  lemma PostSeesOnlyCharges(st: Store, st': Store, lim: Limits, secrets: Option<SecretsPolicy>, workload: bytes,
                            path: bytes, candidate: Option<bytes>)
    requires Accounted(st) && Accounted(st') && Charges(st) == Charges(st')
    ensures ServePost(st, lim, secrets, workload, path, candidate).1 ==
            ServePost(st', lim, secrets, workload, path, candidate).1
  {
    PostIs(st, lim, secrets, workload, path, candidate);
    PostIs(st', lim, secrets, workload, path, candidate);
    if candidate.Some? { SameKind(st, st', lim, path, candidate.value, candidate.value, WorkloadHolder(workload)); }
  }

  // ---- what a GET returns ----

  /** The value this operation stores at the path, as told to whoever asked for it. */
  function WrittenAt(st: Store, lim: Limits, op: Op, path: bytes): Option<bytes> {
    if op.path != path || op.Get? then None
    else if op.OperatorPut? then if Put(st, lim, path, op.value).1.Ok? then Some(op.value) else None
    else
      var r := Answer(st, lim, op);
      if r.Created? then Some(r.value) else None
  }

  function LastWrite(ops: seq<Op>, lim: Limits, path: bytes): Option<bytes> {
    if ops == [] then None
    else
      var init := ops[..|ops| - 1];
      var w := WrittenAt(After(init, lim), lim, ops[|ops| - 1], path);
      if w.Some? then w else LastWrite(init, lim, path)
  }

  function ValueAt(st: Store, path: bytes): Option<bytes> {
    if path in st.values then Some(st.values[path].value) else None
  }

  lemma StepWrites(st: Store, lim: Limits, op: Op, path: bytes)
    ensures var w := WrittenAt(st, lim, op, path);
            ValueAt(Step(st, lim, op), path) == if w.Some? then w else ValueAt(st, path)
  {
    if op.Post? {
      PostIs(st, lim, op.secrets, op.workload, op.path, op.candidate);
    } else if op.OperatorPut? {
      PutIs(st, lim, op.path, op.value);
    }
  }

  lemma {:induction false} StoreHoldsLastWrite(ops: seq<Op>, lim: Limits, path: bytes)
    ensures ValueAt(After(ops, lim), path) == LastWrite(ops, lim, path)
  {
    if ops != [] {
      StoreHoldsLastWrite(ops[..|ops| - 1], lim, path);
      StepWrites(After(ops[..|ops| - 1], lim), lim, ops[|ops| - 1], path);
    }
  }

  /** After any operations a GET returns a value exactly when the caller may read the path and that
      value is the last one written there. */
  lemma GetReturnsLastWrite(ops: seq<Op>, lim: Limits, secrets: Option<SecretsPolicy>, path: bytes, v: bytes)
    ensures var r := ServeGet(After(ops, lim), secrets, path);
            (r == Value(v) <==> Allows(secrets, path, Read) && LastWrite(ops, lim, path) == Some(v)) &&
              (r.Value? || r == NotFound)
  {
    StoreHoldsLastWrite(ops, lim, path);
  }

  // ---- in terms of the grant's segments ----

  /** After any operations a GET returns a value exactly when some read glob covers the path, segment by
      segment, and that value is the last one written there; a write glob does not help. */
  lemma GetExactly(ops: seq<Op>, lim: Limits, p: SecretsPolicy, path: bytes, v: bytes)
    requires AcceptedGrant(p) && CanonicalSecretPath(path).Ok?
    ensures ServeGet(After(ops, lim), Some(p), path) == Value(v) <==>
            MayRead(p, path) && LastWrite(ops, lim, path) == Some(v)
    ensures !MayRead(p, path) || LastWrite(ops, lim, path).None? ==>
            ServeGet(After(ops, lim), Some(p), path) == NotFound
    ensures ServeGet(After(ops, lim), None, path) == NotFound
  {
    GetReturnsLastWrite(ops, lim, Some(p), path, v);
    StoreHoldsLastWrite(ops, lim, path);
    AllowsExactly(p, path);
  }

  lemma PostTable(st: Store, lim: Limits, secrets: Option<SecretsPolicy>, workload: bytes, path: bytes,
                  candidate: Option<bytes>)
    requires Accounted(st)
    ensures ServePost(st, lim, secrets, workload, path, candidate).1 ==
            if !Allows(secrets, path, Write) then NotFound
            else if candidate.None? || |candidate.value| > lim.maxValue then Unavailable
            else if path in st.values then Conflict
            else if |PathsOf(st.values, WorkloadHolder(workload))| >= lim.maxPerHolder then QuotaReached
            else if |st.values| >= lim.maxPaths then CeilingReached
            else Created(candidate.value)
  {
    NoPathsNoCount(st, WorkloadHolder(workload));
    PostIs(st, lim, secrets, workload, path, candidate);
  }

  /** How many paths are charged to a holder after the operations. */
  function ChargedTo(ops: seq<Op>, lim: Limits, h: Holder): nat {
    |PathsOf(After(ops, lim).values, h)|
  }

  /** After any operations, what a POST is told: a write glob must cover the path, the value must fit, the
      path be free, the workload have quota left and the store room, and the first of these that is not so
      is the answer. */
  lemma PostExactly(ops: seq<Op>, lim: Limits, p: SecretsPolicy, workload: bytes, path: bytes,
                    candidate: Option<bytes>)
    requires AcceptedGrant(p) && CanonicalSecretPath(path).Ok?
    ensures ServePost(After(ops, lim), lim, Some(p), workload, path, candidate).1 ==
            if !MayWrite(p, path) then NotFound
            else if candidate.None? || |candidate.value| > lim.maxValue then Unavailable
            else if LastWrite(ops, lim, path).Some? then Conflict
            else if ChargedTo(ops, lim, WorkloadHolder(workload)) >= lim.maxPerHolder then QuotaReached
            else if |After(ops, lim).values| >= lim.maxPaths then CeilingReached
            else Created(candidate.value)
  {
    assert Allows(Some(p), path, Write) == MayWrite(p, path) by { AllowsExactly(p, path); }
    assert path in After(ops, lim).values <==> LastWrite(ops, lim, path).Some? by {
      StoreHoldsLastWrite(ops, lim, path);
    }
    AlwaysValid(ops, lim);
    PostTable(After(ops, lim), lim, Some(p), workload, path, candidate);
  }

  /** An operator's write succeeds at a path in use, and at a free one while there is room. */
  lemma PutExactly(ops: seq<Op>, lim: Limits, path: bytes, value: bytes)
    ensures var r := Put(After(ops, lim), lim, path, value).1;
            if |value| > lim.maxValue then r == Err(TooLarge)
            else if LastWrite(ops, lim, path).None? && |After(ops, lim).values| >= lim.maxPaths then r == Err(StoreFull)
            else r.Ok?
  {
    StoreHoldsLastWrite(ops, lim, path);
    PutIs(After(ops, lim), lim, path, value);
  }

  /** After any operations no workload is charged for more paths than its quota. */
  lemma QuotaHolds(ops: seq<Op>, lim: Limits, workload: bytes)
    ensures var n := ChargedTo(ops, lim, WorkloadHolder(workload)); n == 0 || n <= lim.maxPerHolder
  {
    AlwaysValid(ops, lim);
    NoPathsNoCount(After(ops, lim), WorkloadHolder(workload));
  }

  /** Whom an operation that stores at the path charges. */
  function LastHolder(ops: seq<Op>, lim: Limits, path: bytes): Option<Holder> {
    if ops == [] then None
    else
      var init, last := ops[..|ops| - 1], ops[|ops| - 1];
      if WrittenAt(After(init, lim), lim, last, path).None? then LastHolder(init, lim, path)
      else Some(if last.Post? then WorkloadHolder(last.workload) else Operator)
  }

  function HolderAt(st: Store, path: bytes): Option<Holder> {
    if path in st.values then Some(st.values[path].holder) else None
  }

  lemma StepCharges(st: Store, lim: Limits, op: Op, path: bytes)
    ensures HolderAt(Step(st, lim, op), path) ==
            if WrittenAt(st, lim, op, path).None? then HolderAt(st, path)
            else Some(if op.Post? then WorkloadHolder(op.workload) else Operator)
  {
    if op.Post? {
      PostIs(st, lim, op.secrets, op.workload, op.path, op.candidate);
    } else if op.OperatorPut? {
      PutIs(st, lim, op.path, op.value);
    }
  }

  /** A path is charged to the workload that created it, until an operator replaces it. */
  lemma {:induction false} ChargedToLastWriter(ops: seq<Op>, lim: Limits, path: bytes)
    ensures HolderAt(After(ops, lim), path) == LastHolder(ops, lim, path)
  {
    if ops != [] {
      ChargedToLastWriter(ops[..|ops| - 1], lim, path);
      StepCharges(After(ops[..|ops| - 1], lim), lim, ops[|ops| - 1], path);
    }
  }

  /** The limits leave room for a value. */
  predicate CanHold(lim: Limits) {
    0 <= lim.maxValue && 0 < lim.maxPaths
  }

  /** No operations can change the answer to this GET. */
  ghost predicate Blind(lim: Limits, secrets: Option<SecretsPolicy>, path: bytes) {
    forall ops, ops' :: ServeGet(After(ops, lim), secrets, path) == ServeGet(After(ops', lim), secrets, path)
  }

  lemma HoldsNothing(ops: seq<Op>, lim: Limits)
    requires !CanHold(lim)
    ensures After(ops, lim).values == map[]
  {
    AlwaysValid(ops, lim);
    assert forall p :: p !in After(ops, lim).values;
  }

  lemma OnePut(lim: Limits, path: bytes)
    requires CanHold(lim)
    ensures path in After([OperatorPut(path, [])], lim).values
  {
    var ops := [OperatorPut(path, [])];
    assert ops[..|ops| - 1] == [];
    assert After([], lim) == Store(map[], map[]);
  }

  /** What is done to the store never shows in a GET exactly when the caller may not read the path, or
      the store can hold nothing. */
  lemma GetBlindIff(lim: Limits, secrets: Option<SecretsPolicy>, path: bytes)
    ensures Blind(lim, secrets, path) <==> !Allows(secrets, path, Read) || !CanHold(lim)
  {
    if Allows(secrets, path, Read) && CanHold(lim) {
      OnePut(lim, path);
      assert path !in After([], lim).values;
      assert ServeGet(After([OperatorPut(path, [])], lim), secrets, path) != ServeGet(After([], lim), secrets, path);
    } else if !CanHold(lim) {
      forall ops, ops' ensures ServeGet(After(ops, lim), secrets, path) == ServeGet(After(ops', lim), secrets, path) {
        HoldsNothing(ops, lim);
        HoldsNothing(ops', lim);
      }
    }
  }

  // ---- two runs that differ in hidden values ----

  /** The same request, the values aside. */
  predicate Alike(x: Op, y: Op, lim: Limits) {
    match (x, y)
    case (Get(_, _), Get(_, _)) => x == y
    case (Post(_, _, _, v), Post(_, _, _, w)) =>
      && x.(candidate := None) == y.(candidate := None) && (v.Some? <==> w.Some?)
      && (v.Some? ==> (|v.value| > lim.maxValue <==> |w.value| > lim.maxValue))
    case (OperatorPut(p, v), OperatorPut(q, w)) => p == q && (|v| > lim.maxValue <==> |w| > lim.maxValue)
    case _ => false
  }

  /** Only the values written at hidden paths differ. */
  ghost predicate AlikeBut(hidden: iset<bytes>, x: Op, y: Op, lim: Limits) {
    Alike(x, y, lim) && (x.path !in hidden ==> x == y)
  }

  ghost predicate Twins(hidden: iset<bytes>, st: Store, st': Store) {
    && Accounted(st) && Accounted(st') && Charges(st) == Charges(st')
    && forall p | p in st.values && p in st'.values && p !in hidden :: st.values[p] == st'.values[p]
  }

  lemma TwinPaths(hidden: iset<bytes>, st: Store, st': Store, path: bytes)
    requires Twins(hidden, st, st')
    ensures path in st.values <==> path in st'.values
  {
    assert path in st.values <==> path in Charges(st);
    assert path in st'.values <==> path in Charges(st');
  }

  lemma WriteCharges(st: Store, path: bytes, value: bytes, h: Holder)
    ensures Charges(Charged(st, path, value, h)) == Charges(st)[path := h]
  {
  }

  lemma TwinsWrite(hidden: iset<bytes>, st: Store, st': Store, path: bytes, v: bytes, w: bytes, h: Holder)
    requires Twins(hidden, st, st') && (path !in hidden ==> v == w)
    ensures Twins(hidden, Charged(st, path, v, h), Charged(st', path, w, h))
  {
    WriteCharges(st, path, v, h);
    WriteCharges(st', path, w, h);
    ChargedAccounted(st, path, v, h);
    ChargedAccounted(st', path, w, h);
  }

  lemma TwinPosts(hidden: iset<bytes>, st: Store, st': Store, lim: Limits, x: Op, y: Op)
    requires Twins(hidden, st, st') && AlikeBut(hidden, x, y, lim) && x.Post?
    ensures Twins(hidden, Step(st, lim, x), Step(st', lim, y))
    ensures Outcome(Answer(st, lim, x)) == Outcome(Answer(st', lim, y)) &&
            (x.path !in hidden ==> Answer(st, lim, x) == Answer(st', lim, y))
  {
    PostIs(st, lim, x.secrets, x.workload, x.path, x.candidate);
    PostIs(st', lim, y.secrets, y.workload, y.path, y.candidate);
    if x.candidate.Some? {
      var v, w, h := x.candidate.value, y.candidate.value, WorkloadHolder(x.workload);
      SameKind(st, st', lim, x.path, v, w, h);
      TwinsWrite(hidden, st, st', x.path, v, w, h);
    }
  }

  lemma TwinPuts(hidden: iset<bytes>, st: Store, st': Store, lim: Limits, x: Op, y: Op)
    requires Twins(hidden, st, st') && AlikeBut(hidden, x, y, lim) && x.OperatorPut?
    ensures Twins(hidden, Step(st, lim, x), Step(st', lim, y))
  {
    SameKind(st, st', lim, x.path, x.value, y.value, Operator);
    PutIs(st, lim, x.path, x.value);
    PutIs(st', lim, y.path, y.value);
    TwinsWrite(hidden, st, st', x.path, x.value, y.value, Operator);
  }

  ghost predicate RunsAlikeBut(hidden: iset<bytes>, xs: seq<Op>, ys: seq<Op>, lim: Limits) {
    |xs| == |ys| && forall i | 0 <= i < |xs| :: AlikeBut(hidden, xs[i], ys[i], lim)
  }

  lemma {:induction false} TwinRuns(hidden: iset<bytes>, xs: seq<Op>, ys: seq<Op>, lim: Limits)
    requires RunsAlikeBut(hidden, xs, ys, lim)
    ensures Twins(hidden, After(xs, lim), After(ys, lim))
  {
    if xs != [] {
      var n := |xs| - 1;
      TwinRuns(hidden, xs[..n], ys[..n], lim);
      assert AlikeBut(hidden, xs[n], ys[n], lim);
      if xs[n].Post? {
        TwinPosts(hidden, After(xs[..n], lim), After(ys[..n], lim), lim, xs[n], ys[n]);
      } else if xs[n].OperatorPut? {
        TwinPuts(hidden, After(xs[..n], lim), After(ys[..n], lim), lim, xs[n], ys[n]);
      }
    }
  }

  /** In two runs that differ only in the values written at hidden paths, a caller who may not read
      them cannot tell: every answer about another path is the same, and one about a hidden path is
      the same up to the caller's own candidate. */
  lemma ValuesNeverShow(hidden: iset<bytes>, xs: seq<Op>, ys: seq<Op>, lim: Limits, i: nat)
    requires RunsAlikeBut(hidden, xs, ys, lim) && i < |xs| && !xs[i].OperatorPut? && !ys[i].OperatorPut?
    ensures var r, r' := Answer(After(xs[..i], lim), lim, xs[i]), Answer(After(ys[..i], lim), lim, ys[i]);
            && Outcome(r) == Outcome(r') && (xs[i].path !in hidden ==> r == r')
            && (r.Created? ==> xs[i].Post? && xs[i].candidate == Some(r.value))
            && (r.Value? ==> xs[i].Get? && Allows(xs[i].secrets, xs[i].path, Read))
  {
    var st, st', x := After(xs[..i], lim), After(ys[..i], lim), xs[i];
    TwinRuns(hidden, xs[..i], ys[..i], lim);
    assert AlikeBut(hidden, xs[i], ys[i], lim);
    if x.Post? {
      TwinPosts(hidden, st, st', lim, x, ys[i]);
      PostIs(st, lim, x.secrets, x.workload, x.path, x.candidate);
    } else {
      TwinPaths(hidden, st, st', x.path);
    }
  }
}
