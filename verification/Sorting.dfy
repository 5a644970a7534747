/** Sorting: what sort.SliceStable, sort.Strings and slices.SortFunc return, and when the
    order of the input cannot show in it. */
module Sorting {
  import opened Bytes

  ghost predicate Preorder<T(!new)>(le: (T, T) -> bool) {
    && (forall x, y :: le(x, y) || le(y, x))
    && (forall x, y, z :: le(x, y) && le(y, z) ==> le(x, z))
  }

  ghost predicate Sorted<T>(s: seq<T>, le: (T, T) -> bool) {
    forall i, j | 0 <= i < j < |s| :: le(s[i], s[j])
  }

  /** No two different elements of s are tied. */
  ghost predicate NoTies<T>(s: seq<T>, le: (T, T) -> bool) {
    forall i, j | 0 <= i < |s| && 0 <= j < |s| && le(s[i], s[j]) && le(s[j], s[i]) :: s[i] == s[j]
  }

  function Insert<T>(x: T, s: seq<T>, le: (T, T) -> bool): (r: seq<T>)
    ensures |r| == |s| + 1
  {
    if s == [] || le(x, s[0]) then [x] + s else [s[0]] + Insert(x, s[1..], le)
  }

  /** The stable sort. */
  function Sort<T>(s: seq<T>, le: (T, T) -> bool): (r: seq<T>)
    ensures |r| == |s|
  {
    if s == [] then [] else Insert(s[0], Sort(s[1..], le), le)
  }

  lemma {:induction false} InsertPermutes<T>(x: T, s: seq<T>, le: (T, T) -> bool)
    ensures multiset(Insert(x, s, le)) == multiset(s) + multiset{x}
  {
    if s != [] {
      assert s == [s[0]] + s[1..];
      InsertPermutes(x, s[1..], le);
    }
  }

  lemma {:induction false} SortPermutes<T>(s: seq<T>, le: (T, T) -> bool)
    ensures multiset(Sort(s, le)) == multiset(s)
  {
    if s != [] {
      assert s == [s[0]] + s[1..];
      SortPermutes(s[1..], le);
      InsertPermutes(s[0], Sort(s[1..], le), le);
    }
  }

  lemma SameElements<T>(a: seq<T>, b: seq<T>)
    requires multiset(a) == multiset(b)
    ensures |a| == |b| && forall x :: x in a <==> x in b
  {
    assert |multiset(a)| == |a| && |multiset(b)| == |b|;
    assert forall x :: x in a <==> x in multiset(a);
    assert forall x :: x in b <==> x in multiset(b);
  }

  lemma {:induction false} InsertSorted<T(!new)>(x: T, s: seq<T>, le: (T, T) -> bool)
    requires Preorder(le) && Sorted(s, le)
    ensures Sorted(Insert(x, s, le), le)
  {
    if s != [] && !le(x, s[0]) {
      InsertSorted(x, s[1..], le);
      var rest := Insert(x, s[1..], le);
      InsertPermutes(x, s[1..], le);
      forall i | 0 <= i < |rest| ensures le(s[0], rest[i]) {
        assert rest[i] in multiset(s[1..]) + multiset{x};
        if rest[i] != x {
          var j :| 0 <= j < |s[1..]| && s[1..][j] == rest[i];
          assert le(s[0], s[j + 1]);
        }
      }
    }
  }

  lemma {:induction false} SortSorted<T(!new)>(s: seq<T>, le: (T, T) -> bool)
    requires Preorder(le)
    ensures Sorted(Sort(s, le), le)
  {
    if s != [] {
      SortSorted(s[1..], le);
      InsertSorted(s[0], Sort(s[1..], le), le);
    }
  }

  lemma {:induction false} SortOfSorted<T(!new)>(s: seq<T>, le: (T, T) -> bool)
    requires Sorted(s, le)
    ensures Sort(s, le) == s
  {
    if s != [] {
      SortOfSorted(s[1..], le);
      assert s == [s[0]] + s[1..];
      if |s| > 1 { assert le(s[0], s[1]); }
    }
  }

  lemma SameHead<T(!new)>(a: seq<T>, b: seq<T>, le: (T, T) -> bool)
    requires Sorted(a, le) && Sorted(b, le) && NoTies(a, le) && a != [] && b != [] && a[0] in b && b[0] in a
    ensures a[0] == b[0]
  {
    var i :| 0 <= i < |a| && a[i] == b[0];
    var j :| 0 <= j < |b| && b[j] == a[0];
    assert i > 0 && j > 0 ==> le(a[0], a[i]) && le(b[0], b[j]);
  }

  lemma TailMultiset<T>(s: seq<T>)
    requires s != []
    ensures multiset(s[1..]) == multiset(s) - multiset{s[0]}
  {
    assert s == [s[0]] + s[1..];
  }

  /** Two sorted lists of the same elements are the same list, unless two different elements
      are tied. */
  lemma {:induction false} SortedUnique<T(!new)>(a: seq<T>, b: seq<T>, le: (T, T) -> bool)
    requires Sorted(a, le) && Sorted(b, le) && multiset(a) == multiset(b) && NoTies(a, le)
    ensures a == b
  {
    SameElements(a, b);
    if a != [] {
      assert a[0] in b && b[0] in a;
      SameHead(a, b, le);
      TailMultiset(a);
      TailMultiset(b);
      assert NoTies(a[1..], le);
      SortedUnique(a[1..], b[1..], le);
      assert a == [a[0]] + a[1..] && b == [b[0]] + b[1..];
    }
  }

  lemma NoTiesPermuted<T(!new)>(a: seq<T>, b: seq<T>, le: (T, T) -> bool)
    requires multiset(a) == multiset(b) && NoTies(a, le)
    ensures NoTies(b, le)
  {
    SameElements(a, b);
    forall i, j | 0 <= i < |b| && 0 <= j < |b| && le(b[i], b[j]) && le(b[j], b[i]) ensures b[i] == b[j] {
      assert b[i] in a && b[j] in a;
    }
  }

  /** Without ties the result of sorting does not depend on the order of the input. */
  lemma SortForgetsOrder<T(!new)>(a: seq<T>, b: seq<T>, le: (T, T) -> bool)
    requires Preorder(le) && multiset(a) == multiset(b) && NoTies(a, le)
    ensures Sort(a, le) == Sort(b, le)
  {
    SortSorted(a, le);
    SortSorted(b, le);
    SortPermutes(a, le);
    SortPermutes(b, le);
    NoTiesPermuted(a, Sort(a, le), le);
    SortedUnique(Sort(a, le), Sort(b, le), le);
  }

  // ---- mapping a rearranged list ----

  function Map<T, U>(s: seq<T>, f: T -> U): seq<U> {
    seq(|s|, i requires 0 <= i < |s| => f(s[i]))
  }

  lemma MapConcat<T, U>(a: seq<T>, b: seq<T>, f: T -> U)
    ensures Map(a + b, f) == Map(a, f) + Map(b, f)
  {
  }

  lemma MapWithout<T, U>(b: seq<T>, j: nat, f: T -> U)
    requires j < |b|
    ensures multiset(Map(b, f)) == multiset(Map(b[..j] + b[j + 1..], f)) + multiset{f(b[j])}
  {
    assert b == b[..j] + ([b[j]] + b[j + 1..]);
    MapConcat(b[..j], [b[j]] + b[j + 1..], f);
    MapConcat([b[j]], b[j + 1..], f);
    MapConcat(b[..j], b[j + 1..], f);
    assert Map([b[j]], f) == [f(b[j])];
  }

  lemma MultisetWithout<T>(b: seq<T>, j: nat)
    requires j < |b|
    ensures multiset(b[..j] + b[j + 1..]) == multiset(b) - multiset{b[j]}
  {
    assert b == b[..j] + [b[j]] + b[j + 1..];
  }

  lemma RemoveOne<T>(a: seq<T>, b: seq<T>) returns (j: nat)
    requires a != [] && multiset(a) == multiset(b)
    ensures j < |b| && b[j] == a[0] && multiset(a[1..]) == multiset(b[..j] + b[j + 1..])
  {
    SameElements(a, b);
    assert a[0] in b;
    j :| 0 <= j < |b| && b[j] == a[0];
    TailMultiset(a);
    MultisetWithout(b, j);
  }

  lemma {:induction false} MapPermuted<T, U>(a: seq<T>, b: seq<T>, f: T -> U)
    requires multiset(a) == multiset(b)
    ensures multiset(Map(a, f)) == multiset(Map(b, f))
  {
    if a == [] {
      SameElements(a, b);
    } else {
      var j := RemoveOne(a, b);
      MapPermuted(a[1..], b[..j] + b[j + 1..], f);
      MapWithout(a, 0, f);
      assert a[..0] + a[1..] == a[1..];
      MapWithout(b, j, f);
    }
  }

  lemma MapSplit<T, U>(a: seq<T>, i: nat, f: T -> U)
    requires i < |a|
    ensures Map(a, f)[..i] + Map(a, f)[i + 1..] == Map(a[..i] + a[i + 1..], f)
  {
  }

  /** Every order of the images is the image of an order. */
  lemma {:induction false} PullBack<T, U>(a: seq<T>, f: T -> U, b: seq<U>) returns (d: seq<T>)
    requires multiset(b) == multiset(Map(a, f))
    ensures multiset(d) == multiset(a) && Map(d, f) == b
    decreases |b|
  {
    if b == [] {
      SameElements(b, Map(a, f));
      d := [];
    } else {
      var i := RemoveOne(b, Map(a, f));
      MapSplit(a, i, f);
      var rest := PullBack(a[..i] + a[i + 1..], f, b[1..]);
      d := [a[i]] + rest;
      MultisetWithout(a, i);
      MapConcat([a[i]], rest, f);
    }
  }

  // ---- ties keep their order ----

  predicate Ties<T>(x: T, y: T, le: (T, T) -> bool) {
    le(x, y) && le(y, x)
  }

  /** The elements of s tied with k, in order. */
  function Tied<T>(s: seq<T>, k: T, le: (T, T) -> bool): seq<T> {
    if s == [] then [] else (if Ties(s[0], k, le) then [s[0]] else []) + Tied(s[1..], k, le)
  }

  lemma TiedCons<T>(x: T, s: seq<T>, k: T, le: (T, T) -> bool)
    ensures Tied([x] + s, k, le) == (if Ties(x, k, le) then [x] else []) + Tied(s, k, le)
  {
    assert ([x] + s)[1..] == s;
  }

  lemma BelowIsNotTied<T(!new)>(x: T, y: T, k: T, le: (T, T) -> bool)
    requires Preorder(le) && !le(x, y) && Ties(x, k, le)
    ensures !Ties(y, k, le)
  {
  }

  lemma TiedPast<T(!new)>(x: T, y: T, rest: seq<T>, tail: seq<T>, k: T, le: (T, T) -> bool)
    requires Preorder(le) && !le(x, y) && Tied(rest, k, le) == (if Ties(x, k, le) then [x] else []) + Tied(tail, k, le)
    ensures Tied([y] + rest, k, le) == (if Ties(x, k, le) then [x] else []) + Tied([y] + tail, k, le)
  {
    TiedCons(y, rest, k, le);
    TiedCons(y, tail, k, le);
    if Ties(x, k, le) {
      BelowIsNotTied(x, y, k, le);
      assert [] + Tied(rest, k, le) == Tied(rest, k, le) && [] + Tied(tail, k, le) == Tied(tail, k, le);
    } else {
      assert [] + Tied([y] + tail, k, le) == Tied([y] + tail, k, le) && [] + Tied(tail, k, le) == Tied(tail, k, le);
    }
  }

  lemma {:induction false} TiedInsert<T(!new)>(x: T, s: seq<T>, k: T, le: (T, T) -> bool)
    requires Preorder(le)
    ensures Tied(Insert(x, s, le), k, le) == (if Ties(x, k, le) then [x] else []) + Tied(s, k, le)
  {
    if s == [] || le(x, s[0]) {
      TiedCons(x, s, k, le);
    } else {
      TiedInsert(x, s[1..], k, le);
      TiedPast(x, s[0], Insert(x, s[1..], le), s[1..], k, le);
      assert [s[0]] + s[1..] == s;
    }
  }

  /** Sorting keeps tied elements in the order they came in. */
  lemma {:induction false} SortIsStable<T(!new)>(s: seq<T>, k: T, le: (T, T) -> bool)
    requires Preorder(le)
    ensures Tied(Sort(s, le), k, le) == Tied(s, k, le)
  {
    if s != [] {
      SortIsStable(s[1..], k, le);
      TiedInsert(s[0], Sort(s[1..], le), k, le);
    }
  }

  ghost predicate OrderFree<T(!new)>(a: seq<T>, le: (T, T) -> bool) {
    forall b: seq<T> | multiset(b) == multiset(a) :: Sort(b, le) == Sort(a, le)
  }

  lemma TieShows<T(!new)>(x: T, y: T, r: seq<T>, le: (T, T) -> bool)
    requires Preorder(le) && Ties(x, y, le) && x != y
    ensures Sort([x, y] + r, le) != Sort([y, x] + r, le)
  {
    var p, q := [x, y] + r, [y, x] + r;
    SortIsStable(p, x, le);
    SortIsStable(q, x, le);
    assert Tied(p, x, le)[0] == x && Tied(q, x, le)[0] == y;
  }

  lemma MovedFront<T>(a: seq<T>, i: nat, j: nat) returns (r: seq<T>)
    requires i < j < |a|
    ensures multiset([a[i], a[j]] + r) == multiset([a[j], a[i]] + r) == multiset(a)
  {
    r := a[..i] + a[i + 1..j] + a[j + 1..];
    assert a == a[..i] + [a[i]] + a[i + 1..j] + [a[j]] + a[j + 1..];
  }

  lemma TieIsNotOrderFree<T(!new)>(a: seq<T>, i: nat, j: nat, le: (T, T) -> bool)
    requires Preorder(le) && i < j < |a| && Ties(a[i], a[j], le) && a[i] != a[j]
    ensures !OrderFree(a, le)
  {
    var r := MovedFront(a, i, j);
    TieShows(a[i], a[j], r, le);
  }

  /** The result of sorting is the same for every order of the input exactly when no two
      different elements are tied. */
  lemma OrderFreeIffNoTies<T(!new)>(a: seq<T>, le: (T, T) -> bool)
    requires Preorder(le)
    ensures OrderFree(a, le) <==> NoTies(a, le)
  {
    if NoTies(a, le) {
      forall b: seq<T> | multiset(b) == multiset(a) ensures Sort(b, le) == Sort(a, le) { SortForgetsOrder(a, b, le); }
    } else {
      var i, j :| 0 <= i < |a| && 0 <= j < |a| && le(a[i], a[j]) && le(a[j], a[i]) && a[i] != a[j];
      if i < j { TieIsNotOrderFree(a, i, j, le); } else { TieIsNotOrderFree(a, j, i, le); }
    }
  }

  // ---- the order of byte strings ----

  predicate LexLeq(a: bytes, b: bytes) {
    a == [] || (b != [] && (a[0] < b[0] || (a[0] == b[0] && LexLeq(a[1..], b[1..]))))
  }

  lemma {:induction false} LexTotal(a: bytes, b: bytes)
    ensures LexLeq(a, b) || LexLeq(b, a)
  {
    if a != [] && b != [] { LexTotal(a[1..], b[1..]); }
  }

  lemma {:induction false} LexTransitive(a: bytes, b: bytes, c: bytes)
    requires LexLeq(a, b) && LexLeq(b, c)
    ensures LexLeq(a, c)
  {
    if a != [] && a[0] == b[0] == c[0] { LexTransitive(a[1..], b[1..], c[1..]); }
  }

  lemma {:induction false} LexAntisymmetric(a: bytes, b: bytes)
    requires LexLeq(a, b) && LexLeq(b, a)
    ensures a == b
  {
    if a != [] && b != [] {
      LexAntisymmetric(a[1..], b[1..]);
      assert a == [a[0]] + a[1..] && b == [b[0]] + b[1..];
    }
  }

  lemma LexPreorder()
    ensures Preorder(LexLeq)
  {
    forall a, b ensures LexLeq(a, b) || LexLeq(b, a) { LexTotal(a, b); }
    forall a, b, c | LexLeq(a, b) && LexLeq(b, c) ensures LexLeq(a, c) { LexTransitive(a, b, c); }
  }

  lemma LexNoTies(s: seq<bytes>)
    ensures NoTies(s, LexLeq)
  {
    forall i, j | 0 <= i < |s| && 0 <= j < |s| && LexLeq(s[i], s[j]) && LexLeq(s[j], s[i]) ensures s[i] == s[j] {
      LexAntisymmetric(s[i], s[j]);
    }
  }

  // ---- dropping repetitions ----

  /** The first occurrence of every element, in order. */
  function Dedupe<T(==)>(s: seq<T>): seq<T> {
    if s == [] then []
    else
      var r := Dedupe(s[..|s| - 1]);
      if s[|s| - 1] in r then r else r + [s[|s| - 1]]
  }

  ghost predicate Distinct<T>(s: seq<T>) {
    forall i, j | 0 <= i < j < |s| :: s[i] != s[j]
  }

  lemma {:induction false} DedupeIs<T>(s: seq<T>)
    ensures Distinct(Dedupe(s)) && forall x :: x in Dedupe(s) <==> x in s
  {
    if s != [] {
      DedupeIs(s[..|s| - 1]);
      assert s == s[..|s| - 1] + [s[|s| - 1]];
    }
  }

  lemma {:induction false} DedupeOfDistinct<T>(s: seq<T>)
    requires Distinct(s)
    ensures Dedupe(s) == s
  {
    if s != [] {
      DedupeOfDistinct(s[..|s| - 1]);
      assert s == s[..|s| - 1] + [s[|s| - 1]];
    }
  }

  lemma {:induction false} DistinctCounts<T>(s: seq<T>, x: T)
    requires Distinct(s)
    ensures multiset(s)[x] == if x in s then 1 else 0
  {
    if s != [] {
      var init, last := s[..|s| - 1], s[|s| - 1];
      assert s == init + [last];
      DistinctCounts(init, x);
      assert last !in init;
    }
  }

  lemma DistinctSameMultiset<T(!new)>(a: seq<T>, b: seq<T>)
    requires Distinct(a) && Distinct(b) && forall x :: x in a <==> x in b
    ensures multiset(a) == multiset(b)
  {
    forall x ensures multiset(a)[x] == multiset(b)[x] {
      DistinctCounts(a, x);
      DistinctCounts(b, x);
    }
  }

  lemma Twice<T>(s: seq<T>, i: nat, j: nat)
    requires i < j < |s| && s[i] == s[j]
    ensures multiset(s)[s[i]] >= 2
  {
    assert s == s[..i] + [s[i]] + s[i + 1..j] + [s[i]] + s[j + 1..];
  }

  lemma DistinctPermuted<T(!new)>(a: seq<T>, b: seq<T>)
    requires Distinct(a) && multiset(a) == multiset(b)
    ensures Distinct(b)
  {
    forall i, j | 0 <= i < j < |b| ensures b[i] != b[j] {
      DistinctCounts(a, b[i]);
      if b[i] == b[j] { Twice(b, i, j); }
    }
  }

  /** Runs of equal elements shrunk to one, as slices.Compact does. */
  function Compact<T(==)>(s: seq<T>): (r: seq<T>)
    ensures (r == [] <==> s == []) && (s != [] ==> r[|r| - 1] == s[|s| - 1])
  {
    if |s| <= 1 then s
    else
      var r := Compact(s[..|s| - 1]);
      if s[|s| - 1] == s[|s| - 2] then r else r + [s[|s| - 1]]
  }

  lemma SortedInit(s: seq<bytes>)
    requires Sorted(s, LexLeq) && |s| > 1
    ensures var last := s[|s| - 1];
            && Sorted(s[..|s| - 1], LexLeq)
            && (forall x | x in s[..|s| - 1] :: LexLeq(x, last) && (last != s[|s| - 2] ==> x != last))
  {
    var init, last, prev := s[..|s| - 1], s[|s| - 1], s[|s| - 2];
    forall x | x in init ensures LexLeq(x, last) && (last != prev ==> x != last) {
      var j :| 0 <= j < |init| && init[j] == x;
      assert s[j] == x && LexLeq(s[j], s[|s| - 1]);
      if x == last && j < |s| - 2 {
        assert LexLeq(s[j], s[|s| - 2]) && LexLeq(s[|s| - 2], s[|s| - 1]);
        LexAntisymmetric(last, prev);
      }
    }
  }

  lemma AppendLargest(r: seq<bytes>, last: bytes)
    requires Sorted(r, LexLeq) && Distinct(r) && forall x | x in r :: LexLeq(x, last) && x != last
    ensures Sorted(r + [last], LexLeq) && Distinct(r + [last])
  {
    var all := r + [last];
    forall i, j | 0 <= i < j < |all| ensures LexLeq(all[i], all[j]) && all[i] != all[j] {
      assert all[i] == r[i] && r[i] in r;
    }
  }

  lemma {:induction false} CompactSorted(s: seq<bytes>)
    requires Sorted(s, LexLeq)
    ensures var r := Compact(s); Sorted(r, LexLeq) && Distinct(r) && forall x :: x in r <==> x in s
  {
    if |s| > 1 {
      var init, last := s[..|s| - 1], s[|s| - 1];
      SortedInit(s);
      CompactSorted(init);
      assert s == init + [last];
      if last == s[|s| - 2] { assert last in init; } else { AppendLargest(Compact(init), last); }
    }
  }

  /** The sorted list of the elements of a set-like list: equal for two lists exactly when they
      have the same elements. */
  lemma SortDedupeIsTheSet(a: seq<bytes>, b: seq<bytes>)
    ensures Sort(Dedupe(a), LexLeq) == Sort(Dedupe(b), LexLeq) <==> (forall x :: x in a <==> x in b)
  {
    DedupeIs(a);
    DedupeIs(b);
    SortPermutes(Dedupe(a), LexLeq);
    SortPermutes(Dedupe(b), LexLeq);
    if forall x :: x in a <==> x in b {
      DistinctSameMultiset(Dedupe(a), Dedupe(b));
      LexPreorder();
      LexNoTies(Dedupe(a));
      SortForgetsOrder(Dedupe(a), Dedupe(b), LexLeq);
    }
    if Sort(Dedupe(a), LexLeq) == Sort(Dedupe(b), LexLeq) { SameElements(Dedupe(a), Dedupe(b)); }
  }
}
