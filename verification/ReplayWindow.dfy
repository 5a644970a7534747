/** The sliding replay window of the over-encryption channel (pkg/overenc/overenc.go:197-200,
    352-377): a 64-bit mask behind the highest accepted sequence agrees with the plain set
    of accepted sequences, the scheme of section 3.4.3 of RFC 4303. */
module ReplayWindow {
  const UINT64: nat := 0x1_0000_0000_0000_0000
  const REPLAY_WINDOW: nat := 64

  // ---- uint64 operations on numbers below UINT64 ----

  function Pow2(n: nat): (p: nat)
    ensures p > 0
  {
    if n == 0 then 1 else 2 * Pow2(n - 1)
  }

  /** m & (1 << i) != 0 */
  predicate Bit(m: nat, i: nat) {
    if i == 0 then m % 2 == 1 else Bit(m / 2, i - 1)
  }

  /** m << shift, which drops what leaves the 64 bits */
  function ShiftLeft(m: nat, shift: nat): nat {
    (m * Pow2(shift)) % UINT64
  }

  /** m | (1 << i) */
  function SetBit(m: nat, i: nat): nat {
    if Bit(m, i) then m else m + Pow2(i)
  }

  lemma {:induction false} BitOfProduct(m: nat, shift: nat, i: nat)
    ensures Bit(m * Pow2(shift), i) <==> i >= shift && Bit(m, i - shift)
  {
    if shift > 0 {
      var x := m * Pow2(shift - 1);
      assert m * Pow2(shift) == 2 * x;
      if i > 0 {
        assert 2 * x / 2 == x;
        BitOfProduct(m, shift - 1, i - 1);
      }
    }
  }

  lemma HalfOfModulo(x: nat, p: nat)
    requires p > 0
    ensures (x % (2 * p)) / 2 == (x / 2) % p && (x % (2 * p)) % 2 == x % 2
  {
    var q, r := x / (2 * p), x % (2 * p);
    assert x == 2 * (p * q) + r;
    assert x / 2 == p * q + r / 2;
    assert 0 <= r / 2 < p;
    UniqueQuotient(x / 2, p, q, r / 2);
  }

  lemma UniqueQuotient(y: nat, p: nat, q: nat, r: nat)
    requires p > 0 && y == p * q + r && r < p
    ensures y % p == r
  {
    var q', r' := y / p, y % p;
    assert p * (q' - q) == r - r';
    MultiplesAreFarApart(p, q' - q);
  }

  lemma MultiplesAreFarApart(p: nat, d: int)
    ensures d >= 1 ==> p * d >= p
    ensures d <= -1 ==> p * d + p <= 0
  {
  }

  lemma {:induction false} BitOfModulo(x: nat, w: nat, i: nat)
    requires i < w
    ensures Bit(x % Pow2(w), i) <==> Bit(x, i)
  {
    HalfOfModulo(x, Pow2(w - 1));
    if i > 0 {
      BitOfModulo(x / 2, w - 1, i - 1);
    }
  }

  lemma Pow2Of64()
    ensures Pow2(64) == UINT64
  {
    assert Pow2(8) == 256;
    assert Pow2(16) == 256 * Pow2(8);
    assert Pow2(24) == 256 * Pow2(16);
    assert Pow2(32) == 256 * Pow2(24);
    assert Pow2(40) == 256 * Pow2(32);
    assert Pow2(48) == 256 * Pow2(40);
    assert Pow2(56) == 256 * Pow2(48);
    assert Pow2(64) == 256 * Pow2(56);
  }

  lemma BitOfShift(m: nat, shift: nat, i: nat)
    requires i < 64
    ensures Bit(ShiftLeft(m, shift), i) <==> i >= shift && Bit(m, i - shift)
  {
    Pow2Of64();
    BitOfModulo(m * Pow2(shift), 64, i);
    BitOfProduct(m, shift, i);
  }

  lemma {:induction false} BitOfSetBit(m: nat, k: nat, i: nat)
    ensures Bit(SetBit(m, k), i) <==> i == k || Bit(m, i)
  {
    if k > 0 {
      assert (m + 2 * Pow2(k - 1)) / 2 == m / 2 + Pow2(k - 1);
      assert SetBit(m, k) / 2 == SetBit(m / 2, k - 1) && SetBit(m, k) % 2 == m % 2;
      if i > 0 {
        BitOfSetBit(m / 2, k - 1, i - 1);
      }
    }
  }

  lemma Doubles(a: nat, b: nat, p: nat)
    requires a == 2 * b + a % 2 && b < p
    ensures a < 2 * p
  {
  }

  lemma {:induction false} SetBitStaysInWidth(m: nat, k: nat, w: nat)
    requires k < w && m < Pow2(w)
    ensures SetBit(m, k) < Pow2(w)
  {
    assert Pow2(w) == 2 * Pow2(w - 1);
    if k > 0 {
      assert Pow2(k) == 2 * Pow2(k - 1);
      assert SetBit(m, k) / 2 == SetBit(m / 2, k - 1);
      SetBitStaysInWidth(m / 2, k - 1, w - 1);
      Doubles(SetBit(m, k), SetBit(m / 2, k - 1), Pow2(w - 1));
    }
  }

  lemma {:induction false} ZeroHasNoBits(i: nat)
    ensures !Bit(0, i)
  {
    if i > 0 { ZeroHasNoBits(i - 1); }
  }

  // ---- the window ----

  datatype Window = Window(high: nat, mask: nat)

  const EMPTY := Window(0, 0)

  /** acceptSeq: the next window, and whether the sequence is accepted. */
  function Accept(w: Window, seqno: nat): (Window, bool) {
    if seqno > w.high then
      var shift := seqno - w.high;
      var moved := if shift >= REPLAY_WINDOW then 0 else ShiftLeft(w.mask, shift);
      (Window(seqno, SetBit(moved, 0)), true)
    else if w.high - seqno >= REPLAY_WINDOW then (w, false)
    else if Bit(w.mask, w.high - seqno) then (w, false)
    else (w.(mask := SetBit(w.mask, w.high - seqno)), true)
  }

  /** The window stands for exactly this set of accepted sequences. */
  ghost predicate Represents(w: Window, accepted: set<nat>) {
    && w.high < UINT64 && w.mask < UINT64
    && (forall q | q in accepted :: 0 < q <= w.high)
    && (w.high > 0 ==> w.high in accepted)
    && (forall k | 0 <= k < 64 :: Bit(w.mask, k) <==> k < w.high && w.high - k in accepted)
  }

  lemma EmptyRepresentsNothing()
    ensures Represents(EMPTY, {})
  {
    forall k | 0 <= k < 64 ensures !Bit(0, k) { ZeroHasNoBits(k); }
  }

  lemma AdvanceKeepsRepresents(w: Window, accepted: set<nat>, seqno: nat)
    requires Represents(w, accepted) && w.high < seqno < UINT64
    ensures Represents(Accept(w, seqno).0, accepted + {seqno})
  {
    var shift := seqno - w.high;
    var moved := if shift >= REPLAY_WINDOW then 0 else ShiftLeft(w.mask, shift);
    var w' := Accept(w, seqno).0;
    Pow2Of64();
    SetBitStaysInWidth(moved, 0, 64);
    forall k | 0 <= k < 64
      ensures Bit(w'.mask, k) <==> k < w'.high && w'.high - k in accepted + {seqno}
    {
      BitOfSetBit(moved, 0, k);
      if shift >= REPLAY_WINDOW { ZeroHasNoBits(k); } else { BitOfShift(w.mask, shift, k); }
    }
  }

  lemma FillKeepsRepresents(w: Window, accepted: set<nat>, seqno: nat)
    requires Represents(w, accepted) && 0 < seqno <= w.high && w.high - seqno < REPLAY_WINDOW
    ensures Represents(w.(mask := SetBit(w.mask, w.high - seqno)), accepted + {seqno})
  {
    var mask := SetBit(w.mask, w.high - seqno);
    Pow2Of64();
    SetBitStaysInWidth(w.mask, w.high - seqno, 64);
    forall k | 0 <= k < 64
      ensures Bit(mask, k) <==> k < w.high && w.high - k in accepted + {seqno}
    {
      BitOfSetBit(w.mask, w.high - seqno, k);
    }
  }

  /** A non-zero sequence is accepted iff it was never accepted before and lies less than 64
      behind the highest accepted one; and the window goes on standing for the accepted set. */
  lemma AcceptIsExact(w: Window, accepted: set<nat>, seqno: nat)
    requires Represents(w, accepted) && 0 < seqno < UINT64
    ensures Accept(w, seqno).1 <==> seqno !in accepted && w.high < seqno + REPLAY_WINDOW
    ensures Represents(Accept(w, seqno).0, if Accept(w, seqno).1 then accepted + {seqno} else accepted)
    ensures !Accept(w, seqno).1 ==> Accept(w, seqno).0 == w
  {
    if seqno > w.high {
      AdvanceKeepsRepresents(w, accepted, seqno);
    } else if w.high - seqno < REPLAY_WINDOW {
      assert w.high - (w.high - seqno) == seqno;
      if !Bit(w.mask, w.high - seqno) { FillKeepsRepresents(w, accepted, seqno); }
    }
  }

  // ---- whole runs ----

  /** The window after offering these sequences in order, the last one last. */
  function WindowAfter(offered: seq<nat>): Window {
    if offered == [] then EMPTY
    else Accept(WindowAfter(offered[..|offered| - 1]), offered[|offered| - 1]).0
  }

  predicate AcceptedAt(offered: seq<nat>, i: nat)
    requires i < |offered|
  {
    Accept(WindowAfter(offered[..i]), offered[i]).1
  }

  /** The numbers accepted so far. */
  ghost function AcceptedSet(offered: seq<nat>): set<nat> {
    set i | 0 <= i < |offered| && AcceptedAt(offered, i) :: offered[i]
  }

  ghost predicate InRange(offered: seq<nat>) {
    forall i | 0 <= i < |offered| :: 0 < offered[i] < UINT64
  }

  lemma AcceptedSetGrows(offered: seq<nat>, q: nat)
    ensures var all := offered + [q];
            AcceptedSet(all) == if AcceptedAt(all, |offered|) then AcceptedSet(offered) + {q} else AcceptedSet(offered)
  {
    var all := offered + [q];
    forall i | 0 <= i < |offered| ensures all[..i] == offered[..i] && all[i] == offered[i] {}
    assert all[..|offered|] == offered;
    forall x
      ensures x in AcceptedSet(all) <==> x in AcceptedSet(offered) || (x == q && AcceptedAt(all, |offered|))
    {
      if x in AcceptedSet(offered) {
        var i :| 0 <= i < |offered| && AcceptedAt(offered, i) && offered[i] == x;
        assert AcceptedAt(all, i) && all[i] == x;
      }
      if x == q && AcceptedAt(all, |offered|) { assert all[|offered|] == x; }
    }
  }

  lemma {:induction false} WindowRepresentsRun(offered: seq<nat>)
    requires InRange(offered)
    ensures Represents(WindowAfter(offered), AcceptedSet(offered))
  {
    if offered == [] {
      EmptyRepresentsNothing();
      assert AcceptedSet([]) == {};
    } else {
      var before, q := offered[..|offered| - 1], offered[|offered| - 1];
      WindowRepresentsRun(before);
      AcceptIsExact(WindowAfter(before), AcceptedSet(before), q);
      assert offered == before + [q];
      AcceptedSetGrows(before, q);
      assert offered[..|before|] == before;
    }
  }

  /** Over every run: the i-th offered sequence is accepted iff no earlier acceptance took the
      same sequence and none was 64 or more ahead of it. */
  lemma RunAcceptsExactly(offered: seq<nat>, i: nat)
    requires InRange(offered) && i < |offered|
    ensures AcceptedAt(offered, i) <==>
            && (forall j | 0 <= j < i && AcceptedAt(offered, j) :: offered[j] != offered[i])
            && (forall j | 0 <= j < i && AcceptedAt(offered, j) :: offered[j] < offered[i] + REPLAY_WINDOW)
  {
    var before := offered[..i];
    WindowRepresentsRun(before);
    AcceptIsExact(WindowAfter(before), AcceptedSet(before), offered[i]);
    forall j | 0 <= j < i ensures before[..j] == offered[..j] && before[j] == offered[j] {}
    assert forall j | 0 <= j < i :: AcceptedAt(before, j) <==> AcceptedAt(offered, j);
    var w := WindowAfter(before);
    forall j | 0 <= j < i && AcceptedAt(offered, j) ensures offered[j] in AcceptedSet(before) {
      assert AcceptedAt(before, j);
    }
    if w.high > 0 {
      var j :| 0 <= j < i && AcceptedAt(before, j) && before[j] == w.high;
    }
    if offered[i] in AcceptedSet(before) {
      var j :| 0 <= j < i && AcceptedAt(before, j) && before[j] == offered[i];
    }
  }
}
