/** Slash-separated paths as lists of segments, and path.Clean on rooted paths. */
module Paths {
  import opened Bytes

  const SLASH: byte := 47
  const DOT: byte := 46
  const CURRENT: bytes := [DOT]
  const PARENT: bytes := [DOT, DOT]
  const ROOT: bytes := [SLASH]

  /** The text between slashes; one more piece than there are slashes. */
  function Split(p: bytes): (r: seq<bytes>)
    ensures r != []
  {
    if p == [] then [[]]
    else
      var r := Split(p[1..]);
      if p[0] == SLASH then [[]] + r else [[p[0]] + r[0]] + r[1..]
  }

  function Spelled(segs: seq<bytes>): bytes {
    if segs == [] then [] else ROOT + segs[0] + Spelled(segs[1..])
  }

  /** The rooted path with these segments. */
  function Rooted(segs: seq<bytes>): (p: bytes)
    ensures p != [] && p[0] == SLASH
  {
    if segs == [] then ROOT else Spelled(segs)
  }

  /** What is left once ".", ".." and empty pieces are resolved, `done` already being so. */
  function Resolve(pieces: seq<bytes>, done: seq<bytes>): seq<bytes>
    decreases |pieces|
  {
    if pieces == [] then done
    else if pieces[0] == [] || pieces[0] == CURRENT then Resolve(pieces[1..], done)
    else if pieces[0] == PARENT then Resolve(pieces[1..], if done == [] then [] else done[..|done| - 1])
    else Resolve(pieces[1..], done + [pieces[0]])
  }

  predicate IsRooted(p: bytes) {
    p != [] && p[0] == SLASH
  }

  function Clean(p: bytes): bytes
    requires IsRooted(p)
  {
    Rooted(Resolve(Split(p[1..]), []))
  }

  predicate IsClean(p: bytes) {
    IsRooted(p) && Clean(p) == p
  }

  // ---- clean paths are lists of proper segments ----

  predicate Proper(seg: bytes) {
    seg != [] && '/' as int !in seg && seg != ['.' as int] && seg != ['.' as int, '.' as int]
  }

  ghost predicate AllProper(segs: seq<bytes>) {
    forall i | 0 <= i < |segs| :: Proper(segs[i])
  }

  function Segments(p: bytes): seq<bytes>
    requires IsRooted(p)
  {
    if p == ROOT then [] else Split(p[1..])
  }

  lemma {:induction false} ResolveProper(pieces: seq<bytes>, done: seq<bytes>)
    requires AllProper(done) && forall i | 0 <= i < |pieces| :: SLASH !in pieces[i]
    ensures AllProper(Resolve(pieces, done))
    decreases |pieces|
  {
    if pieces != [] {
      if pieces[0] == [] || pieces[0] == CURRENT {
        ResolveProper(pieces[1..], done);
      } else if pieces[0] == PARENT {
        ResolveProper(pieces[1..], if done == [] then [] else done[..|done| - 1]);
      } else {
        ResolveProper(pieces[1..], done + [pieces[0]]);
      }
    }
  }

  lemma {:induction false} ResolveKeepsProper(pieces: seq<bytes>, done: seq<bytes>)
    requires AllProper(pieces)
    ensures Resolve(pieces, done) == done + pieces
    decreases |pieces|
  {
    if pieces != [] {
      ResolveKeepsProper(pieces[1..], done + [pieces[0]]);
      assert done + [pieces[0]] + pieces[1..] == done + pieces;
    }
  }

  lemma {:induction false} SplitHasNoSlash(p: bytes)
    ensures forall i | 0 <= i < |Split(p)| :: SLASH !in Split(p)[i]
  {
    if p != [] { SplitHasNoSlash(p[1..]); }
  }

  lemma {:induction false} SplitPiece(seg: bytes, rest: bytes)
    requires SLASH !in seg && (rest == [] || rest[0] == SLASH)
    ensures Split(seg + rest) == [seg] + (if rest == [] then [] else Split(rest[1..]))
  {
    if seg == [] {
      assert seg + rest == rest;
    } else {
      assert (seg + rest)[1..] == seg[1..] + rest;
      SplitPiece(seg[1..], rest);
      assert [seg[0]] + seg[1..] == seg;
    }
  }

  lemma {:induction false} SplitSpelled(segs: seq<bytes>)
    requires segs != [] && forall i | 0 <= i < |segs| :: SLASH !in segs[i]
    ensures Spelled(segs) != [] && Spelled(segs)[0] == SLASH && Split(Spelled(segs)[1..]) == segs
  {
    var rest := Spelled(segs[1..]);
    assert Spelled(segs)[1..] == segs[0] + rest;
    if |segs| > 1 {
      SplitSpelled(segs[1..]);
    }
    SplitPiece(segs[0], rest);
    assert [segs[0]] + segs[1..] == segs;
  }

  lemma RootedSegments(segs: seq<bytes>)
    requires AllProper(segs)
    ensures Segments(Rooted(segs)) == segs && IsClean(Rooted(segs))
  {
    if segs == [] {
      assert ROOT[1..] == [];
      assert Resolve([[]], []) == [];
    } else {
      SplitSpelled(segs);
      assert Spelled(segs) == ROOT + segs[0] + Spelled(segs[1..]);
      assert |segs[0]| > 0;
      ResolveKeepsProper(segs, []);
      assert [] + segs == segs;
    }
  }

  /** The clean rooted paths are exactly the rooted lists of proper segments, each path of one
      list. */
  lemma CleanPaths(p: bytes)
    requires IsRooted(p)
    ensures IsClean(p) <==> AllProper(Segments(p)) && Rooted(Segments(p)) == p
  {
    if IsClean(p) {
      SplitHasNoSlash(p[1..]);
      var segs := Resolve(Split(p[1..]), []);
      ResolveProper(Split(p[1..]), []);
      RootedSegments(segs);
    }
    if AllProper(Segments(p)) && Rooted(Segments(p)) == p { RootedSegments(Segments(p)); }
  }

  /** On proper segments a textual prefix that ends at a slash is a prefix of segments. */
  lemma {:induction false} PrefixIsSegmentPrefix(a: seq<bytes>, b: seq<bytes>)
    requires AllProper(a) && AllProper(b)
    ensures Spelled(a) + ROOT <= Spelled(b) <==> a < b
  {
    if a == [] {
      assert Spelled(a) + ROOT == ROOT;
      if b != [] { assert Spelled(b)[0] == SLASH; }
    } else if b == [] {
    } else {
      PrefixIsSegmentPrefix(a[1..], b[1..]);
      assert a == [a[0]] + a[1..] && b == [b[0]] + b[1..];
      var x, y := Spelled(a[1..]) + ROOT, Spelled(b[1..]);
      assert Spelled(a) + ROOT == ROOT + (a[0] + x) && Spelled(b) == ROOT + (b[0] + y);
      assert Spelled(a) + ROOT <= Spelled(b) <==> a[0] + x <= b[0] + y by { PrefixAfter(ROOT, a[0] + x, b[0] + y); }
      assert x[0] == SLASH && (y != [] ==> y[0] == SLASH);
      SegmentPrefix(a[0], x, b[0], y);
    }
  }

  lemma PrefixAfter(r: bytes, x: bytes, y: bytes)
    ensures r + x <= r + y <==> x <= y
  {
    assert x == (r + x)[|r|..] && y == (r + y)[|r|..];
    if r + x <= r + y {
      assert forall i | 0 <= i < |x| :: x[i] == (r + x)[|r| + i] == (r + y)[|r| + i] == y[i];
    }
  }

  lemma SegmentPrefix(s: bytes, x: bytes, t: bytes, y: bytes)
    requires SLASH !in s && SLASH !in t && x != [] && x[0] == SLASH && (y == [] || y[0] == SLASH)
    ensures s + x <= t + y <==> s == t && x <= y
  {
    if s + x <= t + y {
      assert (t + y)[|s|] == (s + x)[|s|] == SLASH;
      assert forall i | 0 <= i < |t| :: (t + y)[i] == t[i] && t[i] != SLASH;
      assert forall i | 0 <= i < |s| :: (s + x)[i] == s[i] && s[i] != SLASH;
      assert |t| < |t + y| ==> (t + y)[|t|] == SLASH;
      assert forall i | 0 <= i < |s| :: s[i] == (s + x)[i] == (t + y)[i] == t[i];
      PrefixAfter(s, x, y);
    } else if s == t {
      PrefixAfter(s, x, y);
    }
  }
}
