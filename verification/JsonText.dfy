/** Strings as encoding/json writes them, HTML escaping included: what the text shows of a byte
    string is everything but which stray byte stood where. */
module JsonText {
  import opened Bytes
  import opened Wrappers
  import opened Quoting

  // ---- one unit ----

  /** The letter of a one-letter escape, 0 for runes that have none. */
  function LetterOf(code: nat): byte {
    match code
    case 34 => 34
    case 92 => 92
    case 8 => 98
    case 12 => 102
    case 10 => 110
    case 13 => 114
    case 9 => 116
    case _ => 0
  }

  /** Control characters, the characters special to HTML and the two line separators of JavaScript. */
  predicate ByCode(code: nat) {
    code < 32 || code == 38 || code == 60 || code == 62 || code == 0x2028 || code == 0x2029
  }

  /** Which runes have a letter of their own and which are written by their number. */
  lemma EscapesAre(code: nat)
    ensures LetterOf(code) as int ==
            if code == '"' as int || code == '\\' as int then code
            else if code == 8 then 'b' as int else if code == 9 then 't' as int else if code == 10 then 'n' as int
            else if code == 12 then 'f' as int else if code == 13 then 'r' as int else 0
    ensures ByCode(code) <==>
            code in {'<' as int, '>' as int, '&' as int, 0x2028, 0x2029} || code < ' ' as int
  {
  }

  /** A stray byte is written as an escaped U+FFFD; U+FFFD itself is not escaped. */
  function UnitForm(u: bytes): Form
    requires IsUnit(u)
  {
    if !IsRune(u) then Digits(117, 0xFFFD, 4)
    else if LetterOf(Code(u)) != 0 then Letter(LetterOf(Code(u)))
    else if ByCode(Code(u)) then Digits(117, Code(u), 4)
    else Raw
  }

  function UnitText(u: bytes): bytes
    requires IsUnit(u)
  {
    if UnitForm(u).Raw? then u else FormText(UnitForm(u))
  }

  /** What can be told of a unit from its text. */
  function Visible(u: bytes): Option<bytes> {
    if IsRune(u) then Some(u) else None
  }

  lemma UnitFormIsGood(u: bytes)
    requires IsUnit(u)
    ensures GoodForm(UnitForm(u))
  {
    Powers();
  }

  lemma RawUnit(u: bytes)
    requires IsUnit(u) && UnitForm(u).Raw?
    ensures IsRune(u) && u[0] != BACKSLASH && u[0] != QUOTE
  {
    CodeRange(u);
  }

  lemma UnitFirst(u: bytes)
    requires IsUnit(u)
    ensures UnitText(u) != [] && UnitText(u)[0] != QUOTE
    ensures UnitForm(u).Raw? <==> UnitText(u)[0] != BACKSLASH
  {
    if UnitForm(u).Raw? { RawUnit(u); }
  }

  lemma FormShows(u: bytes, v: bytes)
    requires IsUnit(u) && IsUnit(v) && UnitForm(u) == UnitForm(v) && !UnitForm(u).Raw?
    ensures Visible(u) == Visible(v)
  {
    if IsRune(u) && IsRune(v) {
      assert Code(u) == Code(v);
      CodeInjective(u, v);
    }
  }

  lemma UnitRead(u: bytes, v: bytes, x: bytes, y: bytes)
    requires IsUnit(u) && IsUnit(v) && UnitText(u) + x == UnitText(v) + y
    ensures Visible(u) == Visible(v) && x == y
  {
    var a, b := UnitText(u), UnitText(v);
    UnitFirst(u);
    UnitFirst(v);
    assert a[0] == (a + x)[0] == (b + y)[0] == b[0];
    if UnitForm(u).Raw? {
      RawUnit(u);
      RawUnit(v);
      SplitEqual(u, x, v, y);
    } else {
      UnitFormIsGood(u);
      UnitFormIsGood(v);
      FormRead(UnitForm(u), UnitForm(v), x, y);
      FormShows(u, v);
    }
  }

  // ---- the whole string ----

  function Body(s: bytes): bytes
    decreases |s|
  {
    if s == [] then []
    else
      var n := UnitLength(s);
      assert IsUnit(s[..n]) by { UnitIsUnit(s); }
      UnitText(s[..n]) + Body(s[n..])
  }

  function StringText(s: bytes): bytes {
    [QUOTE] + (Body(s) + [QUOTE])
  }

  function Shown(s: bytes): seq<Option<bytes>>
    decreases |s|
  {
    if s == [] then [] else [Visible(s[..UnitLength(s)])] + Shown(s[UnitLength(s)..])
  }

  lemma BodyFirst(s: bytes, x: bytes)
    ensures var t := Body(s) + ([QUOTE] + x); t[0] == QUOTE <==> s == []
  {
    if s != [] {
      UnitIsUnit(s);
      UnitFirst(s[..UnitLength(s)]);
    }
  }

  lemma BodySplit(s: bytes, x: bytes)
    requires s != []
    ensures var n := UnitLength(s); IsUnit(s[..n]) && Body(s) + x == UnitText(s[..n]) + (Body(s[n..]) + x)
  {
    UnitIsUnit(s);
  }

  lemma {:induction false} BodyRead(a: bytes, b: bytes, x: bytes, y: bytes)
    requires Body(a) + ([QUOTE] + x) == Body(b) + ([QUOTE] + y)
    ensures Shown(a) == Shown(b) && x == y
    decreases |a|
  {
    BodyFirst(a, x);
    BodyFirst(b, y);
    if a == [] {
      assert Body(a) + ([QUOTE] + x) == [QUOTE] + x && Body(b) + ([QUOTE] + y) == [QUOTE] + y;
      SplitEqual([QUOTE], x, [QUOTE], y);
    } else {
      var m, n := UnitLength(a), UnitLength(b);
      BodySplit(a, [QUOTE] + x);
      BodySplit(b, [QUOTE] + y);
      UnitRead(a[..m], b[..n], Body(a[m..]) + ([QUOTE] + x), Body(b[n..]) + ([QUOTE] + y));
      BodyRead(a[m..], b[n..], x, y);
    }
  }

  lemma {:induction false} SameShownSameBody(a: bytes, b: bytes)
    requires Shown(a) == Shown(b)
    ensures Body(a) == Body(b)
    decreases |a|
  {
    if a != [] && b != [] {
      var m, n := UnitLength(a), UnitLength(b);
      UnitIsUnit(a);
      UnitIsUnit(b);
      assert Shown(a)[0] == Shown(b)[0] && Shown(a)[1..] == Shown(a[m..]) && Shown(b)[1..] == Shown(b[n..]);
      SameShownSameBody(a[m..], b[n..]);
    }
  }

  lemma StringOpens(s: bytes, x: bytes)
    ensures StringText(s) + x == [QUOTE] + (Body(s) + ([QUOTE] + x))
  {
  }

  lemma StringReads(a: bytes, b: bytes, x: bytes, y: bytes)
    requires StringText(a) + x == StringText(b) + y
    ensures Shown(a) == Shown(b) && x == y
  {
    StringOpens(a, x);
    StringOpens(b, y);
    SplitEqual([QUOTE], Body(a) + ([QUOTE] + x), [QUOTE], Body(b) + ([QUOTE] + y));
    BodyRead(a, b, x, y);
  }

  /** Two texts that begin with strings are equal exactly when the strings show the same and the
      texts go on the same way. */
  lemma StringRead(a: bytes, b: bytes, x: bytes, y: bytes)
    ensures StringText(a) + x == StringText(b) + y <==> Shown(a) == Shown(b) && x == y
  {
    if StringText(a) + x == StringText(b) + y { StringReads(a, b, x, y); }
    if Shown(a) == Shown(b) { SameShownSameBody(a, b); }
  }

  /** Valid UTF-8 shows itself. */
  lemma {:induction false} ValidShowsItself(a: bytes, b: bytes)
    requires ValidUtf8(a) && ValidUtf8(b) && Shown(a) == Shown(b)
    ensures a == b
    decreases |a|
  {
    if a != [] && b != [] {
      var m, n := UnitLength(a), UnitLength(b);
      assert Shown(a)[0] == Shown(b)[0] && Shown(a)[1..] == Shown(a[m..]) && Shown(b)[1..] == Shown(b[n..]);
      ValidShowsItself(a[m..], b[n..]);
      HeadTail(a, b, m, n);
    }
  }

  lemma ValidRead(a: bytes, b: bytes, x: bytes, y: bytes)
    requires ValidUtf8(a) && ValidUtf8(b) && StringText(a) + x == StringText(b) + y
    ensures a == b && x == y
  {
    StringReads(a, b, x, y);
    ValidShowsItself(a, b);
  }
}
