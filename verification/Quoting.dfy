/** UTF-8 as unicode/utf8 decodes it, and the quoting of the %q verb (strconv.Quote), which is
    injective and delimits itself on every byte string, valid UTF-8 or not. */
module Quoting {
  import opened Bytes

  // ---- decoding ----

  /** How many bytes a rune that starts with b takes; 0 when none does. */
  function Width(b: byte): nat {
    if b < 0x80 then 1 else if 0xC2 <= b < 0xE0 then 2 else if 0xE0 <= b < 0xF0 then 3 else if 0xF0 <= b < 0xF5 then 4
      else 0
  }

  predicate Continues(b: byte) {
    0x80 <= b < 0xC0
  }

  /** No overlong forms, no surrogates, nothing past U+10FFFF. */
  predicate SecondByte(first: byte, b: byte) {
    && Continues(b)
    && (first == 0xE0 ==> 0xA0 <= b) && (first == 0xED ==> b < 0xA0)
    && (first == 0xF0 ==> 0x90 <= b) && (first == 0xF4 ==> b < 0x90)
  }

  predicate StartsRune(s: bytes) {
    && s != [] && 0 < Width(s[0]) <= |s|
    && (Width(s[0]) >= 2 ==> SecondByte(s[0], s[1]))
    && (forall i | 2 <= i < Width(s[0]) :: Continues(s[i]))
  }

  /** The next rune, or one stray byte. */
  function UnitLength(s: bytes): (n: nat)
    requires s != []
    ensures 0 < n <= |s|
  {
    if StartsRune(s) then Width(s[0]) else 1
  }

  predicate IsRune(u: bytes) {
    StartsRune(u) && |u| == Width(u[0])
  }

  predicate IsUnit(u: bytes) {
    IsRune(u) || (|u| == 1 && u[0] >= 0x80)
  }

  predicate ValidUtf8(s: bytes) {
    s == [] || (StartsRune(s) && ValidUtf8(s[UnitLength(s)..]))
  }

  function Code(u: bytes): nat
    requires IsRune(u)
  {
    var digit := (i: nat) requires i < |u| => u[i] as int - 0x80;
    match |u|
    case 1 => u[0]
    case 2 => (u[0] as int - 0xC0) * 0x40 + digit(1)
    case 3 => (u[0] as int - 0xE0) * 0x1000 + digit(1) * 0x40 + digit(2)
    case _ => (u[0] as int - 0xF0) * 0x4_0000 + digit(1) * 0x1000 + digit(2) * 0x40 + digit(3)
  }

  lemma CodeRange(u: bytes)
    requires IsRune(u)
    ensures |u| == 1 ==> Code(u) < 0x80
    ensures |u| == 2 ==> 0x80 <= Code(u) < 0x800
    ensures |u| == 3 ==> 0x800 <= Code(u) < 0x1_0000
    ensures |u| == 4 ==> 0x1_0000 <= Code(u) < 0x11_0000
    ensures 1 <= |u| <= 4
  {
  }

  lemma CodeInjective(u: bytes, v: bytes)
    requires IsRune(u) && IsRune(v) && Code(u) == Code(v)
    ensures u == v
  {
    CodeRange(u);
    CodeRange(v);
  }

  // ---- hexadecimal ----

  function HexDigit(d: nat): byte
    requires d < 16
  {
    if d < 10 then 48 + d else 87 + d
  }

  function Pow16(n: nat): (p: nat)
    ensures p > 0
  {
    if n == 0 then 1 else 16 * Pow16(n - 1)
  }

  function Hex(n: nat, width: nat): (b: bytes)
    ensures |b| == width
  {
    if width == 0 then [] else Hex(n / 16, width - 1) + [HexDigit(n % 16)]
  }

  lemma {:induction false} HexInjective(m: nat, n: nat, width: nat)
    requires m < Pow16(width) && n < Pow16(width) && Hex(m, width) == Hex(n, width)
    ensures m == n
  {
    if width > 0 {
      SplitEqual(Hex(m / 16, width - 1), [HexDigit(m % 16)], Hex(n / 16, width - 1), [HexDigit(n % 16)]);
      assert [HexDigit(m % 16)][0] == [HexDigit(n % 16)][0];
      HexInjective(m / 16, n / 16, width - 1);
    }
  }

  // ---- quoting ----

  const QUOTE: byte := 34
  const BACKSLASH: byte := 92

  /** The letter of a one-letter escape, 0 for runes that have none. */
  function EscapeLetter(code: nat): byte {
    match code
    case 7 => 97
    case 8 => 98
    case 12 => 102
    case 10 => 110
    case 13 => 114
    case 9 => 116
    case 11 => 118
    case _ => 0
  }

  /** The seven control characters with a letter of their own, and the digits. */
  lemma LettersAre(code: nat, d: nat)
    requires d < 16
    ensures EscapeLetter(code) as int == if 7 <= code <= 13 then "abtnvfr"[code - 7] as int else 0
    ensures HexDigit(d) as int == "0123456789abcdef"[d] as int
  {
    assert "abtnvfr"[0] == 'a' && "abtnvfr"[1] == 'b' && "abtnvfr"[2] == 't' && "abtnvfr"[3] == 'n';
    assert "abtnvfr"[4] == 'v' && "abtnvfr"[5] == 'f' && "abtnvfr"[6] == 'r';
  }

  /** One unit as %q writes it; `printable` is strconv.IsPrint. */
  function Escaped(u: bytes, printable: nat -> bool): bytes
    requires IsUnit(u)
  {
    if !IsRune(u) then [BACKSLASH, 120] + Hex(u[0], 2)
    else
      var code := Code(u);
      if code == QUOTE || code == BACKSLASH then [BACKSLASH] + u
      else if printable(code) then u
      else if EscapeLetter(code) != 0 then [BACKSLASH, EscapeLetter(code)]
      else if code < 32 || code == 0x7F then [BACKSLASH, 120] + Hex(code, 2)
      else if code < 0x1_0000 then [BACKSLASH, 117] + Hex(code, 4)
      else [BACKSLASH, 85] + Hex(code, 8)
  }

  function EscapedAll(s: bytes, printable: nat -> bool): bytes
    decreases |s|
  {
    if s == [] then []
    else
      var n := UnitLength(s);
      assert IsUnit(s[..n]) by { UnitIsUnit(s); }
      Escaped(s[..n], printable) + EscapedAll(s[n..], printable)
  }

  lemma UnitIsUnit(s: bytes)
    requires s != []
    ensures IsUnit(s[..UnitLength(s)])
  {
  }

  function Quote(s: bytes, printable: nat -> bool): bytes {
    [QUOTE] + EscapedAll(s, printable) + [QUOTE]
  }

  // ---- one unit can be read back ----

  /** The shape of a unit's text, with what it carries. */
  datatype Form = Raw | Letter(letter: byte) | Digits(mark: byte, value: nat, width: nat)

  function FormOf(u: bytes, printable: nat -> bool): Form
    requires IsUnit(u)
  {
    if !IsRune(u) then Digits(120, u[0], 2)
    else
      var code := Code(u);
      if code == QUOTE || code == BACKSLASH then Letter(code)
      else if printable(code) then Raw
      else if EscapeLetter(code) != 0 then Letter(EscapeLetter(code))
      else if code < 32 || code == 0x7F then Digits(120, code, 2)
      else if code < 0x1_0000 then Digits(117, code, 4)
      else Digits(85, code, 8)
  }

  function FormText(f: Form): bytes
    requires !f.Raw?
  {
    if f.Letter? then [BACKSLASH, f.letter] else [BACKSLASH, f.mark] + Hex(f.value, f.width)
  }

  predicate GoodForm(f: Form) {
    match f
    case Raw => true
    case Letter(b) => b != 120 && b != 117 && b != 85
    case Digits(mark, value, width) =>
      ((mark == 120 && width == 2) || (mark == 117 && width == 4) || (mark == 85 && width == 8)) && value < Pow16(width)
  }

  lemma Powers()
    ensures Pow16(2) == 0x100 && Pow16(4) == 0x1_0000 && Pow16(8) == 0x1_0000_0000
  {
    assert Pow16(0) == 1 && Pow16(1) == 16 && Pow16(2) == 0x100 && Pow16(3) == 0x1000 && Pow16(4) == 0x1_0000;
    assert Pow16(5) == 0x10_0000 && Pow16(6) == 0x100_0000 && Pow16(7) == 0x1000_0000;
  }

  lemma RawText(u: bytes, printable: nat -> bool)
    requires IsUnit(u) && FormOf(u, printable).Raw?
    ensures Escaped(u, printable) == u && IsRune(u) && u[0] != BACKSLASH && u[0] != QUOTE
  {
    CodeRange(u);
  }

  lemma OtherText(u: bytes, printable: nat -> bool)
    requires IsUnit(u) && !FormOf(u, printable).Raw?
    ensures Escaped(u, printable) == FormText(FormOf(u, printable)) && GoodForm(FormOf(u, printable))
  {
    Powers();
    if IsRune(u) {
      CodeRange(u);
      if Code(u) == QUOTE || Code(u) == BACKSLASH { assert [BACKSLASH] + u == [BACKSLASH, u[0]]; }
    }
  }

  lemma FormRead(f: Form, g: Form, x: bytes, y: bytes)
    requires !f.Raw? && !g.Raw? && GoodForm(f) && GoodForm(g) && FormText(f) + x == FormText(g) + y
    ensures f == g && x == y
  {
    var a, b := FormText(f), FormText(g);
    assert a[1] == (a + x)[1] == (b + y)[1] == b[1];
    SplitEqual(a, x, b, y);
    if f.Digits? {
      assert a[2..] == Hex(f.value, f.width) && b[2..] == Hex(g.value, g.width);
      HexInjective(f.value, g.value, f.width);
    }
  }

  lemma ShortRune(u: bytes)
    requires IsRune(u) && Code(u) < 0x80
    ensures u == [Code(u)]
  {
    CodeRange(u);
  }

  lemma FormInjective(u: bytes, v: bytes, printable: nat -> bool)
    requires IsUnit(u) && IsUnit(v) && FormOf(u, printable) == FormOf(v, printable) && !FormOf(u, printable).Raw?
    ensures u == v
  {
    if IsRune(u) && IsRune(v) {
      assert Code(u) == Code(v);
      CodeInjective(u, v);
    } else if IsRune(u) {
      ShortRune(u);
    } else if IsRune(v) {
      ShortRune(v);
    }
  }

  lemma UnitRead(u: bytes, v: bytes, x: bytes, y: bytes, printable: nat -> bool)
    requires IsUnit(u) && IsUnit(v) && Escaped(u, printable) + x == Escaped(v, printable) + y
    ensures u == v && x == y
  {
    var a, b := Escaped(u, printable), Escaped(v, printable);
    FirstByte(u, printable);
    FirstByte(v, printable);
    assert a[0] == (a + x)[0] == (b + y)[0] == b[0];
    if FormOf(u, printable).Raw? {
      RawText(u, printable);
      RawText(v, printable);
      SplitEqual(u, x, v, y);
    } else {
      OtherText(u, printable);
      OtherText(v, printable);
      FormRead(FormOf(u, printable), FormOf(v, printable), x, y);
      FormInjective(u, v, printable);
    }
  }

  lemma FirstByte(u: bytes, printable: nat -> bool)
    requires IsUnit(u)
    ensures Escaped(u, printable) != [] && Escaped(u, printable)[0] != QUOTE
    ensures FormOf(u, printable).Raw? <==> Escaped(u, printable)[0] != BACKSLASH
  {
    if FormOf(u, printable).Raw? { RawText(u, printable); } else { OtherText(u, printable); }
  }

  // ---- the whole string ----

  lemma EscapedFirst(s: bytes, x: bytes, printable: nat -> bool)
    ensures var t := EscapedAll(s, printable) + ([QUOTE] + x); t[0] == QUOTE <==> s == []
  {
    if s != [] {
      UnitIsUnit(s);
      FirstByte(s[..UnitLength(s)], printable);
    }
  }

  lemma EscapedSplit(s: bytes, x: bytes, printable: nat -> bool)
    requires s != []
    ensures var n := UnitLength(s);
            && IsUnit(s[..n])
            && EscapedAll(s, printable) + x == Escaped(s[..n], printable) + (EscapedAll(s[n..], printable) + x)
  {
    UnitIsUnit(s);
  }

  lemma HeadTail(a: bytes, b: bytes, m: nat, n: nat)
    requires m <= |a| && n <= |b| && a[..m] == b[..n] && a[m..] == b[n..]
    ensures a == b
  {
    assert a == a[..m] + a[m..] && b == b[..n] + b[n..];
  }

  lemma HeadRead(a: bytes, b: bytes, p: bytes, q: bytes, printable: nat -> bool)
    requires a != [] && b != [] && EscapedAll(a, printable) + p == EscapedAll(b, printable) + q
    ensures var m, n := UnitLength(a), UnitLength(b);
            && a[..m] == b[..n]
            && EscapedAll(a[m..], printable) + p == EscapedAll(b[n..], printable) + q
  {
    var m, n := UnitLength(a), UnitLength(b);
    EscapedSplit(a, p, printable);
    EscapedSplit(b, q, printable);
    UnitRead(a[..m], b[..n], EscapedAll(a[m..], printable) + p, EscapedAll(b[n..], printable) + q, printable);
  }

  lemma {:induction false} BodyRead(a: bytes, b: bytes, x: bytes, y: bytes, printable: nat -> bool)
    requires EscapedAll(a, printable) + ([QUOTE] + x) == EscapedAll(b, printable) + ([QUOTE] + y)
    ensures a == b && x == y
    decreases |a|
  {
    EscapedFirst(a, x, printable);
    EscapedFirst(b, y, printable);
    if a == [] {
      EmptyRead(x, y, printable);
    } else {
      HeadRead(a, b, [QUOTE] + x, [QUOTE] + y, printable);
      BodyRead(a[UnitLength(a)..], b[UnitLength(b)..], x, y, printable);
      HeadTail(a, b, UnitLength(a), UnitLength(b));
    }
  }

  lemma EmptyRead(x: bytes, y: bytes, printable: nat -> bool)
    requires EscapedAll([], printable) + ([QUOTE] + x) == EscapedAll([], printable) + ([QUOTE] + y)
    ensures x == y
  {
    var none := EscapedAll([], printable);
    SplitEqual(none, [QUOTE] + x, none, [QUOTE] + y);
    SplitEqual([QUOTE], x, [QUOTE], y);
  }

  lemma Framed(body: bytes, x: bytes)
    ensures [QUOTE] + body + [QUOTE] + x == [QUOTE] + (body + ([QUOTE] + x))
  {
  }

  /** Two texts that begin with quoted strings and are equal begin with the same string and go on
      the same way. */
  lemma QuoteRead(a: bytes, b: bytes, x: bytes, y: bytes, printable: nat -> bool)
    requires Quote(a, printable) + x == Quote(b, printable) + y
    ensures a == b && x == y
  {
    Framed(EscapedAll(a, printable), x);
    Framed(EscapedAll(b, printable), y);
    SplitEqual([QUOTE], EscapedAll(a, printable) + ([QUOTE] + x), [QUOTE], EscapedAll(b, printable) + ([QUOTE] + y));
    BodyRead(a, b, x, y, printable);
  }
}
