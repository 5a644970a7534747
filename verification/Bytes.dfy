/** Byte strings and the fixed-width big-endian encoding of encoding/binary. */
module Bytes {
  type byte = x: int | 0 <= x < 256
  type bytes = seq<byte>

  function Ascii(s: string): (b: bytes)
    ensures |b| == |s|
  {
    seq(|s|, i requires 0 <= i < |s| => (s[i] as int % 256) as byte)
  }

  function Pow256(n: nat): (p: nat)
    ensures p > 0
  {
    if n == 0 then 1 else 256 * Pow256(n - 1)
  }

  function BigEndian(n: nat, width: nat): (b: bytes)
    ensures |b| == width
  {
    if width == 0 then [] else BigEndian(n / 256, width - 1) + [n % 256]
  }

  /** The encoding loses nothing of a number that fits. */
  lemma {:induction false} BigEndianInjective(m: nat, n: nat, width: nat)
    requires m < Pow256(width) && n < Pow256(width) && BigEndian(m, width) == BigEndian(n, width)
    ensures m == n
  {
    if width > 0 {
      var a, b := BigEndian(m / 256, width - 1), BigEndian(n / 256, width - 1);
      assert (a + [m % 256])[..width - 1] == a && (b + [n % 256])[..width - 1] == b;
      assert (a + [m % 256])[width - 1] == (b + [n % 256])[width - 1];
      BigEndianInjective(m / 256, n / 256, width - 1);
    }
  }

  /** Two concatenations agree part by part when their first parts have the same length. */
  lemma SplitEqual(a: bytes, x: bytes, b: bytes, y: bytes)
    requires a + x == b + y && |a| == |b|
    ensures a == b && x == y
  {
    assert a == (a + x)[..|a|] && b == (b + y)[..|b|];
    assert x == (a + x)[|a|..] && y == (b + y)[|b|..];
  }
}
