/** policyKey (pkg/allowlist/allowlist.go:601-604): the JSON text of a container's four policies,
    and what it tells apart. */
module PolicyJson {
  import opened Bytes
  import opened Wrappers
  import opened Sorting
  import opened Quoting
  import opened JsonText
  import opened Allowlist
  import opened Normalise
  import opened NormalForm

  const COMMA: byte := 44
  const COLON: byte := 58
  const OPEN: byte := 91
  const CLOSE: byte := 93
  const RIGHT: byte := 125

  // ---- the text ----

  function Word(p: Policy): bytes {
    match p
    case Absent => []
    case Deny => Ascii("deny")
    case Any => Ascii("any")
    case Exact => Ascii("exact")
    case Allow => Ascii("allow")
    case Unknown(word) => word
  }

  /** What follows the first item of a list or the first pair of an object. */
  function Rest<T>(items: seq<T>, text: T -> bytes, close: byte): bytes {
    if items == [] then [close] else [COMMA] + (text(items[0]) + Rest(items[1..], text, close))
  }

  function Items<T>(items: seq<T>, text: T -> bytes, close: byte): bytes {
    if items == [] then [close] else text(items[0]) + Rest(items[1..], text, close)
  }

  const POLICY: bytes := Ascii("{\"policy\":")
  const ARGV: bytes := Ascii(",\"argv\":[")
  const RULES: bytes := Ascii(",\"rules\":[")
  const VALUES: bytes := Ascii(",\"values\":{")
  const DESTINATION: bytes := Ascii("{\"destination\":")
  const KIND: bytes := Ascii(",\"kind\":")
  const SOURCE: bytes := Ascii(",\"source\":")
  const READ_ONLY: bytes := Ascii(",\"readOnly\":true")

  /** A field left out when it is empty, and the end of the object. */
  function Optional(present: bool, field: bytes): bytes {
    (if present then field else []) + [RIGHT]
  }

  function ArgvText(p: ArgvPolicy): bytes {
    POLICY + (StringText(Word(p.policy)) + Optional(p.argv != [], ARGV + Items(p.argv, StringText, CLOSE)))
  }

  /** A string left out when it is empty. */
  function Named(name: bytes, s: bytes): bytes {
    if s == [] then [] else name + StringText(s)
  }

  function RuleText(r: MountRule): bytes {
    DESTINATION + (StringText(r.destination) +
      (KIND + (StringText(r.kind) + (Named(SOURCE, r.source) + Optional(r.readOnly, READ_ONLY)))))
  }

  function MountsText(p: MountPolicy): bytes {
    POLICY + (StringText(Word(p.policy)) + Optional(p.rules != [], RULES + Items(p.rules, RuleText, CLOSE)))
  }

  function PairText(pair: (bytes, bytes)): bytes {
    StringText(pair.0) + ([COLON] + StringText(pair.1))
  }

  /** A map is written in the order of its keys. */
  ghost predicate IsListing(m: map<bytes, bytes>, keys: seq<bytes>) {
    Sorted(keys, LexLeq) && Distinct(keys) && forall k :: k in keys <==> k in m
  }

  lemma {:induction false} SomeListing(ks: set<bytes>) returns (keys: seq<bytes>)
    ensures Distinct(keys) && forall k :: k in keys <==> k in ks
  {
    if ks == {} {
      keys := [];
    } else {
      var k :| k in ks;
      keys := SomeListing(ks - {k});
      keys := keys + [k];
    }
  }

  lemma ListingExists(m: map<bytes, bytes>)
    ensures exists keys :: IsListing(m, keys)
  {
    var keys := SomeListing(m.Keys);
    var sorted := Sort(keys, LexLeq);
    LexPreorder();
    SortSorted(keys, LexLeq);
    SortPermutes(keys, LexLeq);
    SameElements(keys, sorted);
    DistinctPermuted(keys, sorted);
    assert IsListing(m, sorted);
  }

  ghost function KeysOf(m: map<bytes, bytes>): (keys: seq<bytes>)
    ensures IsListing(m, keys)
  {
    ListingExists(m);
    var keys :| IsListing(m, keys);
    keys
  }

  ghost function Pairs(m: map<bytes, bytes>): (ps: seq<(bytes, bytes)>)
    ensures |ps| == |KeysOf(m)|
    ensures forall i | 0 <= i < |ps| :: ps[i].0 == KeysOf(m)[i] && ps[i].0 in m && ps[i].1 == m[ps[i].0]
  {
    var keys := KeysOf(m);
    assert forall i | 0 <= i < |keys| :: keys[i] in keys;
    seq(|keys|, i requires 0 <= i < |keys| => (keys[i], m[keys[i]]))
  }

  ghost function ValuesText(values: Option<map<bytes, bytes>>): bytes {
    if values.None? || values.value == map[] then [] else VALUES + Items(Pairs(values.value), PairText, RIGHT)
  }

  ghost function EnvText(p: EnvPolicy): bytes {
    POLICY + (StringText(Word(p.policy)) + Optional(ValuesText(p.values) != [], ValuesText(p.values)))
  }

  ghost function JsonKey(p: Policies): bytes {
    [OPEN] + (ArgvText(p.command) + ([COMMA] + (ArgvText(p.args) + ([COMMA] + (MountsText(p.mounts) +
    ([COMMA] + (EnvText(p.env) + [CLOSE])))))))
  }

  // ---- reading lists ----

  lemma Cut(prefix: bytes, x: bytes, y: bytes)
    requires prefix + x == prefix + y
    ensures x == y
  {
    SplitEqual(prefix, x, prefix, y);
  }

  /** Texts that begin with good items begin with one item and go on the same way. */
  ghost predicate Readable<T(!new)>(text: T -> bytes, good: T -> bool) {
    forall a, b, x, y {:trigger text(a) + x, text(b) + y} | good(a) && good(b) && text(a) + x == text(b) + y ::
      a == b && x == y
  }

  predicate AllGood<T>(items: seq<T>, good: T -> bool) {
    forall i | 0 <= i < |items| :: good(items[i])
  }

  lemma Regrouped(a: bytes, b: bytes, x: bytes)
    ensures (a + b) + x == a + (b + x)
  {
  }

  lemma RestOpens<T>(items: seq<T>, text: T -> bytes, close: byte, x: bytes)
    requires items != []
    ensures Rest(items, text, close) + x == [COMMA] + (text(items[0]) + (Rest(items[1..], text, close) + x))
  {
  }

  lemma {:induction false} RestRead<T(!new)>(a: seq<T>, b: seq<T>, text: T -> bytes, good: T -> bool, close: byte,
                                             x: bytes, y: bytes)
    requires Readable(text, good) && AllGood(a, good) && AllGood(b, good) && close != COMMA
    requires Rest(a, text, close) + x == Rest(b, text, close) + y
    ensures a == b && x == y
  {
    var s, t := Rest(a, text, close), Rest(b, text, close);
    assert s[0] == (s + x)[0] == (t + y)[0] == t[0];
    if a == [] {
      SplitEqual([close], x, [close], y);
    } else {
      var p, q := Rest(a[1..], text, close) + x, Rest(b[1..], text, close) + y;
      RestOpens(a, text, close, x);
      RestOpens(b, text, close, y);
      SplitEqual([COMMA], text(a[0]) + p, [COMMA], text(b[0]) + q);
      assert text(a[0]) + p == text(b[0]) + q;
      RestRead(a[1..], b[1..], text, good, close, x, y);
      assert a == [a[0]] + a[1..] && b == [b[0]] + b[1..];
    }
  }

  lemma ItemsRead<T(!new)>(a: seq<T>, b: seq<T>, text: T -> bytes, good: T -> bool, close: byte, x: bytes, y: bytes)
    requires Readable(text, good) && AllGood(a, good) && AllGood(b, good) && close != COMMA && a != [] && b != []
    requires Items(a, text, close) + x == Items(b, text, close) + y
    ensures a == b && x == y
  {
    var p, q := Rest(a[1..], text, close) + x, Rest(b[1..], text, close) + y;
    Regrouped(text(a[0]), Rest(a[1..], text, close), x);
    Regrouped(text(b[0]), Rest(b[1..], text, close), y);
    assert text(a[0]) + p == text(b[0]) + q;
    RestRead(a[1..], b[1..], text, good, close, x, y);
    assert a == [a[0]] + a[1..] && b == [b[0]] + b[1..];
  }

  lemma StringsReadable()
    ensures Readable(StringText, ValidUtf8)
  {
    forall a, b, x, y | ValidUtf8(a) && ValidUtf8(b) && StringText(a) + x == StringText(b) + y
      ensures a == b && x == y
    {
      ValidRead(a, b, x, y);
    }
  }

  // ---- reading objects ----

  predicate Begins(field: bytes) {
    field != [] && field[0] == COMMA
  }

  /** Whether a field is there, and what it says. */
  lemma OptionalRead(p: bool, f: bytes, q: bool, g: bytes, x: bytes, y: bytes)
    requires (p ==> Begins(f)) && (q ==> Begins(g)) && Optional(p, f) + x == Optional(q, g) + y
    ensures p == q && if p then f + ([RIGHT] + x) == g + ([RIGHT] + y) else x == y
  {
    var s, t := Optional(p, f), Optional(q, g);
    assert s[0] == (s + x)[0] == (t + y)[0] == t[0];
    if p {
      assert s + x == f + ([RIGHT] + x) && t + y == g + ([RIGHT] + y);
    } else {
      assert s == [RIGHT] && t == [RIGHT];
      Cut([RIGHT], x, y);
    }
  }

  /** The policies a canonical container has. */
  predicate Settles(p: Policy) {
    p == Deny || p == Any || p == Exact
  }

  lemma Words()
    ensures Word(Deny) == [100, 101, 110, 121] && Word(Any) == [97, 110, 121] && Word(Exact) == [101, 120, 97, 99, 116]
  {
  }

  lemma WordsDiffer(p: Policy, q: Policy)
    requires Settles(p) && Settles(q)
    ensures Word(p) == Word(q) ==> p == q
  {
    Words();
    assert |Word(Deny)| == 4 && |Word(Any)| == 3 && |Word(Exact)| == 5;
  }

  lemma WordIsValid(p: Policy)
    requires Settles(p)
    ensures ValidUtf8(Word(p))
  {
    Words();
    AsciiValid(Word(p));
  }

  lemma {:induction false} AsciiValid(s: bytes)
    requires forall i | 0 <= i < |s| :: s[i] < 0x80
    ensures ValidUtf8(s)
  {
    if s != [] { AsciiValid(s[1..]); }
  }

  lemma Grouped(a: bytes, b: bytes, o: bytes, x: bytes)
    ensures (a + (b + o)) + x == a + (b + (o + x))
  {
  }

  /** An object that begins with a string, and what may follow in it. */
  lemma ObjectRead(start: bytes, v: bytes, i: bool, f: bytes, w: bytes, j: bool, g: bytes, x: bytes, y: bytes)
    requires ValidUtf8(v) && ValidUtf8(w) && (i ==> Begins(f)) && (j ==> Begins(g))
    requires (start + (StringText(v) + Optional(i, f))) + x == (start + (StringText(w) + Optional(j, g))) + y
    ensures v == w && i == j && if i then f + ([RIGHT] + x) == g + ([RIGHT] + y) else x == y
  {
    var s, t := Optional(i, f) + x, Optional(j, g) + y;
    Grouped(start, StringText(v), Optional(i, f), x);
    Grouped(start, StringText(w), Optional(j, g), y);
    Cut(start, StringText(v) + s, StringText(w) + t);
    ValidRead(v, w, s, t);
    OptionalRead(i, f, j, g, x, y);
  }

  lemma PolicyRead(p: Policy, i: bool, f: bytes, q: Policy, j: bool, g: bytes, x: bytes, y: bytes)
    requires Settles(p) && Settles(q) && (i ==> Begins(f)) && (j ==> Begins(g))
    requires (POLICY + (StringText(Word(p)) + Optional(i, f))) + x ==
             (POLICY + (StringText(Word(q)) + Optional(j, g))) + y
    ensures p == q && i == j && if i then f + ([RIGHT] + x) == g + ([RIGHT] + y) else x == y
  {
    WordIsValid(p);
    WordIsValid(q);
    ObjectRead(POLICY, Word(p), i, f, Word(q), j, g, x, y);
    WordsDiffer(p, q);
  }

  lemma FieldRead<T(!new)>(name: bytes, a: seq<T>, b: seq<T>, text: T -> bytes, good: T -> bool, close: byte, x: bytes,
                           y: bytes)
    requires Readable(text, good) && AllGood(a, good) && AllGood(b, good) && close != COMMA && a != [] && b != []
    requires (name + Items(a, text, close)) + x == (name + Items(b, text, close)) + y
    ensures a == b && x == y
  {
    Regrouped(name, Items(a, text, close), x);
    Regrouped(name, Items(b, text, close), y);
    Cut(name, Items(a, text, close) + x, Items(b, text, close) + y);
    ItemsRead(a, b, text, good, close, x, y);
  }

  predicate GoodArgv(p: ArgvPolicy) {
    Settles(p.policy) && AllGood(p.argv, ValidUtf8)
  }

  lemma ArgvRead(p: ArgvPolicy, q: ArgvPolicy, x: bytes, y: bytes)
    requires GoodArgv(p) && GoodArgv(q) && ArgvText(p) + x == ArgvText(q) + y
    ensures p == q && x == y
  {
    var f, g := ARGV + Items(p.argv, StringText, CLOSE), ARGV + Items(q.argv, StringText, CLOSE);
    assert Begins(f) && Begins(g);
    PolicyRead(p.policy, p.argv != [], f, q.policy, q.argv != [], g, x, y);
    if p.argv != [] {
      StringsReadable();
      FieldRead(ARGV, p.argv, q.argv, StringText, ValidUtf8, CLOSE, [RIGHT] + x, [RIGHT] + y);
      Cut([RIGHT], x, y);
    }
  }

  // ---- reading mount rules ----

  predicate GoodRule(r: MountRule) {
    ValidUtf8(r.destination) && ValidUtf8(r.kind) && ValidUtf8(r.source)
  }

  lemma SixGrouped(a: bytes, b: bytes, d: bytes, e: bytes, f: bytes, g: bytes, x: bytes)
    ensures (a + (b + (d + (e + (f + g))))) + x == a + (b + (d + (e + (f + (g + x)))))
  {
  }

  /** The third byte tells the field from what else may follow. */
  lemma Marks(name: bytes, s: bytes, mark: bytes, i: bool, x: bytes)
    requires Begins(name) && Begins(mark) && |name| > 2 && |mark| > 2 && name[2] != mark[2]
    ensures var t := Named(name, s) + (Optional(i, mark) + x);
            t != [] && (s != [] <==> t[0] == COMMA && |t| > 2 && t[2] == name[2])
  {
  }

  lemma MarkRead(mark: bytes, i: bool, j: bool, x: bytes, y: bytes)
    requires Begins(mark) && Optional(i, mark) + x == Optional(j, mark) + y
    ensures i == j && x == y
  {
    OptionalRead(i, mark, j, mark, x, y);
    if i {
      Cut(mark, [RIGHT] + x, [RIGHT] + y);
      Cut([RIGHT], x, y);
    }
  }

  lemma BothNamed(name: bytes, s: bytes, t: bytes, p: bytes, q: bytes)
    requires s != [] && t != [] && ValidUtf8(s) && ValidUtf8(t) && Named(name, s) + p == Named(name, t) + q
    ensures s == t && p == q
  {
    Regrouped(name, StringText(s), p);
    Regrouped(name, StringText(t), q);
    Cut(name, StringText(s) + p, StringText(t) + q);
    ValidRead(s, t, p, q);
  }

  lemma NamedRead(name: bytes, mark: bytes, s: bytes, i: bool, t: bytes, j: bool, x: bytes, y: bytes)
    requires Begins(name) && Begins(mark) && |name| > 2 && |mark| > 2 && name[2] != mark[2]
    requires ValidUtf8(s) && ValidUtf8(t)
    requires Named(name, s) + (Optional(i, mark) + x) == Named(name, t) + (Optional(j, mark) + y)
    ensures s == t && i == j && x == y
  {
    var p, q := Optional(i, mark) + x, Optional(j, mark) + y;
    assert s == [] <==> t == [] by {
      Marks(name, s, mark, i, x);
      Marks(name, t, mark, j, y);
    }
    if s != [] { BothNamed(name, s, t, p, q); } else { assert [] + p == p && [] + q == q; }
    MarkRead(mark, i, j, x, y);
  }

  lemma Names()
    ensures Begins(SOURCE) && Begins(READ_ONLY) && |SOURCE| > 2 && |READ_ONLY| > 2 && SOURCE[2] != READ_ONLY[2]
  {
    assert SOURCE[2] == 115 && READ_ONLY[2] == 114;
  }

  lemma RuleRead(a: MountRule, b: MountRule, x: bytes, y: bytes)
    requires GoodRule(a) && GoodRule(b) && RuleText(a) + x == RuleText(b) + y
    ensures a == b && x == y
  {
    var s, t := Named(SOURCE, a.source) + (Optional(a.readOnly, READ_ONLY) + x),
      Named(SOURCE, b.source) + (Optional(b.readOnly, READ_ONLY) + y);
    SixGrouped(DESTINATION, StringText(a.destination), KIND, StringText(a.kind), Named(SOURCE, a.source),
      Optional(a.readOnly, READ_ONLY), x);
    SixGrouped(DESTINATION, StringText(b.destination), KIND, StringText(b.kind), Named(SOURCE, b.source),
      Optional(b.readOnly, READ_ONLY), y);
    TwoRead(DESTINATION, KIND, a.destination, a.kind, b.destination, b.kind, s, t);
    Names();
    NamedRead(SOURCE, READ_ONLY, a.source, a.readOnly, b.source, b.readOnly, x, y);
  }

  lemma TwoRead(first: bytes, second: bytes, a: bytes, b: bytes, d: bytes, e: bytes, s: bytes, t: bytes)
    requires ValidUtf8(a) && ValidUtf8(b) && ValidUtf8(d) && ValidUtf8(e)
    requires first + (StringText(a) + (second + (StringText(b) + s))) == first +
             (StringText(d) + (second + (StringText(e) + t)))
    ensures a == d && b == e && s == t
  {
    Cut(first, StringText(a) + (second + (StringText(b) + s)), StringText(d) + (second + (StringText(e) + t)));
    ValidRead(a, d, second + (StringText(b) + s), second + (StringText(e) + t));
    Cut(second, StringText(b) + s, StringText(e) + t);
    ValidRead(b, e, s, t);
  }

  lemma RulesReadable()
    ensures Readable(RuleText, GoodRule)
  {
    forall a, b, x, y | GoodRule(a) && GoodRule(b) && RuleText(a) + x == RuleText(b) + y ensures a == b && x == y {
      RuleRead(a, b, x, y);
    }
  }

  predicate GoodMounts(p: MountPolicy) {
    Settles(p.policy) && AllGood(p.rules, GoodRule)
  }

  lemma MountsRead(p: MountPolicy, q: MountPolicy, x: bytes, y: bytes)
    requires GoodMounts(p) && GoodMounts(q) && MountsText(p) + x == MountsText(q) + y
    ensures p == q && x == y
  {
    var f, g := RULES + Items(p.rules, RuleText, CLOSE), RULES + Items(q.rules, RuleText, CLOSE);
    assert Begins(f) && Begins(g);
    PolicyRead(p.policy, p.rules != [], f, q.policy, q.rules != [], g, x, y);
    if p.rules != [] {
      RulesReadable();
      FieldRead(RULES, p.rules, q.rules, RuleText, GoodRule, CLOSE, [RIGHT] + x, [RIGHT] + y);
      Cut([RIGHT], x, y);
    }
  }

  // ---- reading environments ----

  predicate GoodPair(pair: (bytes, bytes)) {
    ValidUtf8(pair.0) && ValidUtf8(pair.1)
  }

  lemma PairsReadable()
    ensures Readable(PairText, GoodPair)
  {
    forall a, b, x, y | GoodPair(a) && GoodPair(b) && PairText(a) + x == PairText(b) + y ensures a == b && x == y {
      Grouped(StringText(a.0), [COLON], StringText(a.1), x);
      Grouped(StringText(b.0), [COLON], StringText(b.1), y);
      TwoRead([], [COLON], a.0, a.1, b.0, b.1, x, y);
    }
  }

  /** An exact environment has values, and they are valid. */
  ghost predicate GoodEnv(p: EnvPolicy) {
    && Settles(p.policy)
    && (p.values.Some? ==> p.values.value != map[] && forall k | k in p.values.value ::
          GoodPair((k, p.values.value[k])))
  }

  lemma PairsTell(m: map<bytes, bytes>, n: map<bytes, bytes>)
    requires Pairs(m) == Pairs(n)
    ensures m == n
  {
    var ps, ks, ls := Pairs(m), KeysOf(m), KeysOf(n);
    assert ks == ls by {
      forall i | 0 <= i < |ks| ensures ks[i] == ls[i] { assert ps[i].0 == ks[i] && Pairs(n)[i].0 == ls[i]; }
    }
    assert forall k :: k in m <==> k in ks;
    forall k | k in m ensures k in n && m[k] == n[k] {
      var i :| 0 <= i < |ks| && ks[i] == k;
      assert ps[i] == Pairs(n)[i];
    }
  }

  lemma PairsOfSome(m: map<bytes, bytes>)
    requires m != map[]
    ensures Pairs(m) != []
  {
    var k :| k in m;
    assert k in KeysOf(m);
  }

  lemma GoodPairs(m: map<bytes, bytes>)
    requires forall k | k in m :: GoodPair((k, m[k]))
    ensures AllGood(Pairs(m), GoodPair)
  {
    forall i | 0 <= i < |Pairs(m)| ensures GoodPair(Pairs(m)[i]) {
      var pair := Pairs(m)[i];
      assert pair == (pair.0, m[pair.0]);
    }
  }

  lemma ValuesRead(m: map<bytes, bytes>, n: map<bytes, bytes>, x: bytes, y: bytes)
    requires m != map[] && n != map[]
    requires (forall k | k in m :: GoodPair((k, m[k]))) && (forall k | k in n :: GoodPair((k, n[k])))
    requires (VALUES + Items(Pairs(m), PairText, RIGHT)) + x == (VALUES + Items(Pairs(n), PairText, RIGHT)) + y
    ensures m == n && x == y
  {
    PairsOfSome(m);
    PairsOfSome(n);
    GoodPairs(m);
    GoodPairs(n);
    PairsReadable();
    FieldRead(VALUES, Pairs(m), Pairs(n), PairText, GoodPair, RIGHT, x, y);
    PairsTell(m, n);
  }

  lemma ValuesBegin(p: EnvPolicy)
    requires GoodEnv(p)
    ensures ValuesText(p.values) != [] <==> p.values.Some?
    ensures p.values.Some? ==>
              Begins(ValuesText(p.values)) &&
                ValuesText(p.values) == VALUES + Items(Pairs(p.values.value), PairText, RIGHT)
  {
    assert VALUES != [] && VALUES[0] == COMMA;
  }

  lemma EnvRead(p: EnvPolicy, q: EnvPolicy, x: bytes, y: bytes)
    requires GoodEnv(p) && GoodEnv(q) && EnvText(p) + x == EnvText(q) + y
    ensures p == q && x == y
  {
    var f, g := ValuesText(p.values), ValuesText(q.values);
    ValuesBegin(p);
    ValuesBegin(q);
    PolicyRead(p.policy, f != [], f, q.policy, g != [], g, x, y);
    if p.values.Some? {
      ValuesRead(p.values.value, q.values.value, [RIGHT] + x, [RIGHT] + y);
      Cut([RIGHT], x, y);
    }
  }

  // ---- the whole key ----

  ghost predicate GoodPolicies(p: Policies) {
    GoodArgv(p.command) && GoodArgv(p.args) && GoodMounts(p.mounts) && GoodEnv(p.env)
  }

  /** The text tells canonical policies with valid strings apart. */
  lemma JsonKeyTells(p: Policies, q: Policies)
    requires GoodPolicies(p) && GoodPolicies(q) && JsonKey(p) == JsonKey(q)
    ensures p == q
  {
    var p3, q3 := EnvText(p.env) + [CLOSE], EnvText(q.env) + [CLOSE];
    var p2, q2 := MountsText(p.mounts) + ([COMMA] + p3), MountsText(q.mounts) + ([COMMA] + q3);
    var p1, q1 := ArgvText(p.args) + ([COMMA] + p2), ArgvText(q.args) + ([COMMA] + q2);
    Cut([OPEN], ArgvText(p.command) + ([COMMA] + p1), ArgvText(q.command) + ([COMMA] + q1));
    ArgvRead(p.command, q.command, [COMMA] + p1, [COMMA] + q1);
    Cut([COMMA], p1, q1);
    ArgvRead(p.args, q.args, [COMMA] + p2, [COMMA] + q2);
    Cut([COMMA], p2, q2);
    MountsRead(p.mounts, q.mounts, [COMMA] + p3, [COMMA] + q3);
    Cut([COMMA], p3, q3);
    EnvRead(p.env, q.env, [CLOSE], [CLOSE]);
  }

  // ---- canonical containers ----

  /** The argv and mount strings of a container are valid UTF-8. */
  predicate ValidStrings(c: Container) {
    && AllGood(c.command.argv, ValidUtf8) && AllGood(c.args.argv, ValidUtf8)
    && forall i | 0 <= i < |c.mounts.rules| ::
       ValidUtf8(c.mounts.rules[i].destination) && ValidUtf8(c.mounts.rules[i].source)
  }

  lemma KindValid(kind: bytes)
    requires kind == EMPTY_DIR || kind == DATA || kind == HOST
    ensures ValidUtf8(kind)
  {
    assert forall i | 0 <= i < |kind| :: kind[i] < 0x80;
    AsciiValid(kind);
  }

  lemma ValidRuleGood(r: MountRule)
    requires RuleValid(r) && ValidUtf8(r.destination) && ValidUtf8(r.source)
    ensures GoodRule(r)
  {
    KindValid(r.kind);
  }

  lemma SortedRulesGood(rules: seq<MountRule>)
    requires AllGood(rules, GoodRule)
    ensures AllGood(Sort(rules, RuleLeq), GoodRule)
  {
    var sorted := Sort(rules, RuleLeq);
    SortPermutes(rules, RuleLeq);
    SameElements(rules, sorted);
    forall i | 0 <= i < |sorted| ensures GoodRule(sorted[i]) {
      assert sorted[i] in rules;
      var j :| 0 <= j < |rules| && rules[j] == sorted[i];
    }
  }

  lemma NormalRulesGood(p: MountPolicy)
    requires NormalMounts(p).Some?
    requires forall i | 0 <= i < |p.rules| :: ValidUtf8(p.rules[i].destination) && ValidUtf8(p.rules[i].source)
    ensures GoodMounts(NormalMounts(p).value)
  {
    if p.policy == Exact {
      forall i | 0 <= i < |p.rules| ensures GoodRule(p.rules[i]) { ValidRuleGood(p.rules[i]); }
      SortedRulesGood(p.rules);
    }
  }

  lemma NormalEnvGood(p: EnvPolicy)
    requires NormalEnv(p).Some?
    ensures GoodEnv(NormalEnv(p).value)
  {
  }

  lemma NormalIsGood(c: Container)
    requires NormalContainer(c).Some? && ValidStrings(c)
    ensures GoodPolicies(PoliciesOf(NormalContainer(c).value))
  {
    NormalRulesGood(c.mounts);
    NormalEnvGood(c.env);
  }

  predicate AllValidStrings(cs: seq<Container>) {
    forall i | 0 <= i < |cs| :: ValidStrings(cs[i])
  }

  lemma JsonKeySeparates(cs: seq<Container>)
    requires AllNormal(cs) && AllValidStrings(cs)
    ensures Separates(JsonKey, NormalContainers(cs))
  {
    var ns := NormalContainers(cs);
    forall i, j | 0 <= i < |ns| && 0 <= j < |ns| && JsonKey(PoliciesOf(ns[i])) == JsonKey(PoliciesOf(ns[j]))
      ensures PoliciesOf(ns[i]) == PoliciesOf(ns[j])
    {
      NormalIsGood(cs[i]);
      NormalIsGood(cs[j]);
      JsonKeyTells(PoliciesOf(ns[i]), PoliciesOf(ns[j]));
    }
  }

  // ---- the canonical form with this key ----

  lemma ToldApartIffLabels(key: Rendering, cs: seq<Container>)
    requires Separates(key, cs)
    ensures ToldApart(key, cs) <==> NoLabelTies(cs)
  {
  }

  ghost predicate EntryNoLabelTies(v: Workload) {
    && (AllNormal(v.initContainers) ==> NoLabelTies(NormalContainers(v.initContainers)))
    && (AllNormal(v.containers) ==> NoLabelTies(NormalContainers(v.containers)))
  }

  lemma EntryApartIffLabels(v: Workload)
    requires AllValidStrings(v.initContainers) && AllValidStrings(v.containers)
    ensures EntryToldApart(v, JsonKey) <==> EntryNoLabelTies(v)
  {
    if AllNormal(v.initContainers) {
      JsonKeySeparates(v.initContainers);
      ToldApartIffLabels(JsonKey, NormalContainers(v.initContainers));
    }
    if AllNormal(v.containers) {
      JsonKeySeparates(v.containers);
      ToldApartIffLabels(JsonKey, NormalContainers(v.containers));
    }
  }

  ghost predicate NoDocumentLabelTies(vs: Workloads) {
    forall n | n in vs && |n| <= MAX_WORKLOAD_NAME_LEN :: EntryNoLabelTies(vs[n])
  }

  /** The canonical form of an accepted document whose argvs and mount paths are valid UTF-8 is the
      same for every order of its entries' containers, rules and globs if and only if no kept entry
      has two canonical containers that differ in their image label alone. */
  lemma CanonicalOrderFreeIff(schema: bytes, vs: Workloads, strict: bool)
    requires NormalDocument(schema, vs, strict, JsonKey).Some?
    requires forall n | n in vs :: AllValidStrings(vs[n].initContainers) && AllValidStrings(vs[n].containers)
    ensures DocumentOrderFree(schema, vs, strict, JsonKey) <==> NoDocumentLabelTies(vs)
  {
    DocumentOrderFreeIff(schema, vs, strict, JsonKey);
    forall n | n in vs
      ensures EntryToldApart(vs[n], JsonKey) <==> EntryNoLabelTies(vs[n])
    {
      EntryApartIffLabels(vs[n]);
    }
  }

  lemma StrayShown(a: byte)
    requires 0xF5 <= a
    ensures Shown([a]) == [None]
  {
    assert UnitLength([a]) == 1 && [a][..1] == [a] && [a][1..] == [];
    assert Shown([]) == [];
  }

  lemma OneItem(s: bytes)
    ensures Items([s], StringText, CLOSE) == StringText(s) + [CLOSE]
  {
    assert [s][1..] == [];
  }

  lemma StrayArgvs(a: byte, b: byte)
    requires 0xF5 <= a && 0xF5 <= b
    ensures ArgvText(ArgvPolicy(Exact, [[a]])) == ArgvText(ArgvPolicy(Exact, [[b]]))
  {
    StrayShown(a);
    StrayShown(b);
    SameShownSameBody([a], [b]);
    OneItem([a]);
    OneItem([b]);
  }

  /** With a stray byte in an argv the text does not tell which. */
  lemma StrayBytesCollide(c: Container, a: byte, b: byte)
    requires 0xF5 <= a && 0xF5 <= b
    ensures var x, y := c.(command := ArgvPolicy(Exact, [[a]])), c.(command := ArgvPolicy(Exact, [[b]]));
            && JsonKey(PoliciesOf(x)) == JsonKey(PoliciesOf(y))
            && (NormalContainer(c).Some? ==> NormalContainer(x).Some? && NormalContainer(y).Some?)
  {
    StrayArgvs(a, b);
  }
}
