/** Secret-store path grants (pkg/allowlist/secrets.go, and normalizeGlobs in
    pkg/allowlist/allowlist.go): matching done on text, proved to be matching of segments. */
module Grants {
  import opened Bytes
  import opened Paths
  import opened Wrappers

  const STAR: byte := 42
  const PERCENT: byte := 37
  const SUBTREE: bytes := [SLASH, STAR, STAR]

  datatype PathError = Empty | Encoded | Relative | Wildcard | TrailingSlash | Unclean

  function CanonicalSecretPath(p: bytes): Result<bytes, PathError> {
    if p == [] then Err(Empty)
    else if PERCENT in p then Err(Encoded)
    else if p[0] != SLASH then Err(Relative)
    else if STAR in p then Err(Wildcard)
    else if p != ROOT && p[|p| - 1] == SLASH then Err(TrailingSlash)
    else if Clean(p) != p then Err(Unclean)
    else Ok(p)
  }

  predicate HasSuffix(s: bytes, suffix: bytes) {
    |s| >= |suffix| && s[|s| - |suffix|..] == suffix
  }

  function TrimSuffix(s: bytes, suffix: bytes): bytes {
    if HasSuffix(s, suffix) then s[..|s| - |suffix|] else s
  }

  /** The path a glob is about. */
  function Base(g: bytes): bytes {
    var base := TrimSuffix(g, SUBTREE);
    if base == [] then ROOT else base
  }

  /** What normalizeGlobs accepts. */
  predicate GlobAccepted(g: bytes) {
    IsRooted(g) && STAR !in Base(g) && IsClean(Base(g))
  }

  predicate MatchGlob(glob: bytes, p: bytes) {
    if !HasSuffix(glob, SUBTREE) then glob == p
    else if Base(glob) == ROOT then IsRooted(p) && p != ROOT
    else Base(glob) + ROOT <= p
  }

  /** Some grant of the list covers the path. */
  predicate AnyMatches(globs: seq<bytes>, p: bytes) {
    exists i | 0 <= i < |globs| :: MatchGlob(globs[i], p)
  }

  // ---- canonical paths and lists of legal segments ----

  predicate Legal(seg: bytes) {
    Proper(seg) && '%' as int !in seg && '*' as int !in seg
  }

  ghost predicate AllLegal(segs: seq<bytes>) {
    forall i | 0 <= i < |segs| :: Legal(segs[i])
  }

  lemma {:induction false} InSpelled(x: byte, segs: seq<bytes>)
    requires x != SLASH
    ensures x in Spelled(segs) <==> exists i | 0 <= i < |segs| :: x in segs[i]
  {
    if segs != [] {
      InSpelled(x, segs[1..]);
      assert segs == [segs[0]] + segs[1..];
      if x in Spelled(segs[1..]) {
        var i :| 0 <= i < |segs[1..]| && x in segs[1..][i];
        assert x in segs[i + 1];
      }
      if i :| 0 <= i < |segs| && x in segs[i] {
        if i > 0 { assert x in segs[1..][i - 1]; }
      }
    }
  }

  lemma {:induction false} SpelledEnd(segs: seq<bytes>)
    requires AllProper(segs) && segs != []
    ensures Spelled(segs) != [] && Spelled(segs)[|Spelled(segs)| - 1] != SLASH
  {
    if |segs| > 1 {
      SpelledEnd(segs[1..]);
    } else {
      assert segs[1..] == [] && Spelled(segs) == ROOT + segs[0];
      assert segs[0][|segs[0]| - 1] in segs[0];
    }
  }

  /** Every list of legal segments is the segments of one canonical path ... */
  lemma SegmentsAreCanonical(segs: seq<bytes>)
    requires AllLegal(segs)
    ensures CanonicalSecretPath(Rooted(segs)) == Ok(Rooted(segs)) && Segments(Rooted(segs)) == segs
  {
    RootedSegments(segs);
    InSpelled(PERCENT, segs);
    InSpelled(STAR, segs);
    if segs != [] { SpelledEnd(segs); }
  }

  /** ... and a path is accepted, unchanged, exactly when it is such a path. */
  lemma CanonicalIsSegments(p: bytes)
    ensures CanonicalSecretPath(p).Ok? ==> CanonicalSecretPath(p).value == p
    ensures CanonicalSecretPath(p).Ok? <==> IsRooted(p) && AllLegal(Segments(p)) && Rooted(Segments(p)) == p
  {
    if IsRooted(p) {
      CleanPaths(p);
      if CanonicalSecretPath(p).Ok? {
        InSpelled(PERCENT, Segments(p));
        InSpelled(STAR, Segments(p));
      }
      if AllLegal(Segments(p)) && Rooted(Segments(p)) == p { SegmentsAreCanonical(Segments(p)); }
    }
  }

  // ---- matching ----

  /** What a grant means: this very path, or everything strictly below it. */
  ghost predicate Covers(glob: bytes, segs: seq<bytes>)
    requires GlobAccepted(glob)
  {
    if HasSuffix(glob, SUBTREE) then Segments(Base(glob)) < segs else Segments(Base(glob)) == segs
  }

  /** For accepted globs and canonical paths, textual matching is matching of segments. */
  lemma MatchesSegments(glob: bytes, p: bytes)
    requires GlobAccepted(glob) && CanonicalSecretPath(p).Ok?
    ensures MatchGlob(glob, p) <==> Covers(glob, Segments(p))
  {
    CanonicalIsSegments(p);
    var base := Base(glob);
    CleanPaths(base);
    if base != ROOT && p != ROOT {
      assert base == Spelled(Segments(base)) && p == Spelled(Segments(p));
      PrefixIsSegmentPrefix(Segments(base), Segments(p));
    } else if base != ROOT {
      assert |base| > 1;
    }
  }

  // ---- globs and lists of segments ----

  ghost predicate StarFree(segs: seq<bytes>) {
    forall i | 0 <= i < |segs| :: Proper(segs[i]) && '*' as int !in segs[i]
  }

  lemma NoStarNoSubtree(s: bytes)
    requires STAR !in s
    ensures !HasSuffix(s, SUBTREE)
  {
    if |s| >= 3 { assert s[|s| - 3..][2] == s[|s| - 1]; }
  }

  /** A list of segments without a star makes two globs: one that covers its own path and one that covers
      everything strictly below it, the root's also without its slash ... */
  lemma SegmentsAreGlobs(segs: seq<bytes>, path: seq<bytes>)
    requires StarFree(segs)
    ensures GlobAccepted(Rooted(segs)) && (Covers(Rooted(segs), path) <==> path == segs)
    ensures var g := Rooted(segs) + Ascii("/**"); GlobAccepted(g) && (Covers(g, path) <==> segs < path)
    ensures var g := Ascii("/**"); GlobAccepted(g) && (Covers(g, path) <==> path != [])
  {
    var exact := Rooted(segs);
    assert Ascii("/**") == SUBTREE && SUBTREE[..0] == [];
    RootedSegments([]);
    RootedSegments(segs);
    InSpelled(STAR, segs);
    NoStarNoSubtree(exact);
    assert (exact + SUBTREE)[|exact|..] == SUBTREE && (exact + SUBTREE)[..|exact|] == exact;
  }

  /** ... and these are all the globs that are accepted. */
  lemma GlobsAreSegments(g: bytes)
    ensures GlobAccepted(g) <==> IsGlob(g)
  {
    assert Ascii("/**") == SUBTREE;
    if GlobAccepted(g) {
      var segs := Segments(Base(g));
      CleanPaths(Base(g));
      InSpelled(STAR, segs);
      assert StarFree(segs);
      if HasSuffix(g, SUBTREE) { assert g == g[..|g| - 3] + SUBTREE; }
      assert GlobOf(g, segs);
    }
    if segs :| StarFree(segs) && GlobOf(g, segs) { SegmentsAreGlobs(segs, []); }
  }

  predicate GlobOf(g: bytes, segs: seq<bytes>) {
    g == Rooted(segs) || g == Rooted(segs) + Ascii("/**") || g == Ascii("/**")
  }

  ghost predicate IsGlob(g: bytes) {
    exists segs :: StarFree(segs) && GlobOf(g, segs)
  }

  /** A grant list allows a canonical path exactly when some glob covers its segments. */
  lemma AllowsSegments(globs: seq<bytes>, p: bytes)
    requires (forall i | 0 <= i < |globs| :: GlobAccepted(globs[i])) && CanonicalSecretPath(p).Ok?
    ensures AnyMatches(globs, p) <==> exists i | 0 <= i < |globs| :: Covers(globs[i], Segments(p))
  {
    forall i | 0 <= i < |globs| ensures MatchGlob(globs[i], p) <==> Covers(globs[i], Segments(p)) {
      MatchesSegments(globs[i], p);
    }
  }
}
