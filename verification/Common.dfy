/** Result wrappers, finite-sequence facts and the string order shared by the models. */
module Common {

  datatype Option<+T> = None | Some(value: T)

  datatype Result<+T, +E> = Ok(value: T) | Err(error: E)

  ghost predicate Distinct<T>(s: seq<T>) {
    forall i, j :: 0 <= i < j < |s| ==> s[i] != s[j]
  }

  function ToSet<T>(s: seq<T>): set<T> {
    set x | x in s
  }

  lemma {:induction false} DistinctCardinality<T>(s: seq<T>)
    requires Distinct(s)
    ensures |ToSet(s)| == |s|
  {
    if s != [] {
      var front, last := s[..|s| - 1], s[|s| - 1];
      DistinctCardinality(front);
      assert ToSet(s) == ToSet(front) + {last};
    }
  }

  lemma {:induction false} CardinalityBound<T>(s: seq<T>)
    ensures |ToSet(s)| <= |s|
    ensures |ToSet(s)| == |s| ==> Distinct(s)
  {
    if s != [] {
      var front, last := s[..|s| - 1], s[|s| - 1];
      CardinalityBound(front);
      assert ToSet(s) == ToSet(front) + {last};
      if last in ToSet(front) {
        assert ToSet(s) == ToSet(front);
      }
    }
  }

  lemma {:induction false} SubsetCardinality<T>(a: set<T>, b: set<T>)
    requires a <= b
    ensures |a| <= |b|
    ensures |a| == |b| ==> a == b
  {
    if a != {} {
      var x :| x in a;
      SubsetCardinality(a - {x}, b - {x});
    }
  }

  /** More places than values: some value repeats. */
  lemma Pigeonhole<T>(s: seq<T>, bound: set<T>)
    requires forall x :: x in s ==> x in bound
    requires |s| > |bound|
    ensures !Distinct(s)
  {
    if Distinct(s) {
      DistinctCardinality(s);
      SubsetCardinality(ToSet(s), bound);
    }
  }

  lemma TwoMembers<T>(s: seq<T>, a: T, b: T)
    requires a in s && b in s && a != b
    ensures |s| > 1
  {
  }

  /** A sequence in which nothing occurs twice, read off its multiset. */
  lemma DistinctByCount<T>(s: seq<T>)
    requires forall x :: multiset(s)[x] <= 1
    ensures Distinct(s)
  {
    forall i, j | 0 <= i < j < |s| ensures s[i] != s[j] {
      assert s == s[..j] + s[j..];
      assert multiset(s)[s[i]] == multiset(s[..j])[s[i]] + multiset(s[j..])[s[i]];
      assert s[i] == s[..j][i] && s[j] == s[j..][0];
      assert s[i] in multiset(s[..j]) && s[j] in multiset(s[j..]);
    }
  }

  lemma CountHead<T>(s: seq<T>, x: T)
    requires s != []
    ensures multiset(s)[x] == multiset(s[1..])[x] + if x == s[0] then 1 else 0
  {
    assert s == [s[0]] + s[1..];
  }

  lemma TailMultiset<T>(s: seq<T>)
    requires s != []
    ensures multiset(s[1..]) == multiset(s) - multiset{s[0]} && s == [s[0]] + s[1..]
  {
    assert s == [s[0]] + s[1..];
  }

  lemma {:induction false} CountOfDistinct<T>(s: seq<T>, x: T)
    requires Distinct(s)
    ensures multiset(s)[x] == if x in s then 1 else 0
  {
    if s != [] {
      var front, last := s[..|s| - 1], s[|s| - 1];
      assert s == front + [last];
      CountOfDistinct(front, x);
    }
  }

  // ----- the byte order of strings -----

  predicate Leq(a: string, b: string) {
    a == [] || (b != [] && (a[0] < b[0] || (a[0] == b[0] && Leq(a[1..], b[1..]))))
  }

  lemma {:induction false} LeqTotal(a: string, b: string)
    ensures Leq(a, b) || Leq(b, a)
  {
    if a != [] && b != [] && a[0] == b[0] {
      LeqTotal(a[1..], b[1..]);
    }
  }

  lemma {:induction false} LeqAntisymmetric(a: string, b: string)
    requires Leq(a, b) && Leq(b, a)
    ensures a == b
  {
    if a != [] {
      LeqAntisymmetric(a[1..], b[1..]);
      assert a == [a[0]] + a[1..] && b == [b[0]] + b[1..];
    }
  }

  lemma {:induction false} LeqTransitive(a: string, b: string, c: string)
    requires Leq(a, b) && Leq(b, c)
    ensures Leq(a, c)
  {
    if a != [] && a[0] == b[0] && b[0] == c[0] {
      LeqTransitive(a[1..], b[1..], c[1..]);
    }
  }

  function InsertSorted(x: string, s: seq<string>): seq<string> {
    if s == [] || Leq(x, s[0]) then [x] + s else [s[0]] + InsertSorted(x, s[1..])
  }

  /** `sort_unstable` on strings; equal strings are indistinguishable, so any sort gives this. */
  function SortStrings(s: seq<string>): seq<string> {
    if s == [] then [] else InsertSorted(s[0], SortStrings(s[1..]))
  }

  ghost predicate Ascending(s: seq<string>) {
    forall i, j :: 0 <= i < j < |s| ==> Leq(s[i], s[j])
  }

  lemma {:induction false} InsertSortedSorts(x: string, s: seq<string>)
    requires Ascending(s)
    ensures Ascending(InsertSorted(x, s))
    ensures multiset(InsertSorted(x, s)) == multiset(s) + multiset{x}
  {
    if s == [] {
    } else if Leq(x, s[0]) {
      forall j | 0 <= j < |s| ensures Leq(x, s[j]) {
        if j > 0 { LeqTransitive(x, s[0], s[j]); }
      }
    } else {
      InsertSortedSorts(x, s[1..]);
      LeqTotal(x, s[0]);
      TailMultiset(s);
      AscendingCons(s[0], s[1..], x, InsertSorted(x, s[1..]));
    }
  }

  lemma AscendingCons(head: string, tail: seq<string>, x: string, rest: seq<string>)
    requires Ascending(rest) && multiset(rest) == multiset(tail) + multiset{x}
    requires Leq(head, x) && forall y :: y in tail ==> Leq(head, y)
    ensures Ascending([head] + rest)
  {
    forall y | y in rest ensures Leq(head, y) {
      assert y in multiset(rest);
    }
  }

  lemma {:induction false} SortStringsSorts(s: seq<string>)
    ensures Ascending(SortStrings(s)) && multiset(SortStrings(s)) == multiset(s)
  {
    if s != [] {
      SortStringsSorts(s[1..]);
      InsertSortedSorts(s[0], SortStrings(s[1..]));
      assert s == [s[0]] + s[1..];
    }
  }

  lemma AscendingHead(a: seq<string>, b: seq<string>)
    requires Ascending(a) && b != [] && a != [] && b[0] in a
    ensures Leq(a[0], b[0])
  {
    var j :| 0 <= j < |a| && a[j] == b[0];
    LeqTotal(a[0], a[0]);
  }

  lemma AscendingHeads(a: seq<string>, b: seq<string>)
    requires Ascending(a) && Ascending(b) && multiset(a) == multiset(b) && a != [] && b != []
    ensures a[0] == b[0]
  {
    assert a[0] in multiset(b) && b[0] in multiset(a);
    AscendingHead(a, b);
    AscendingHead(b, a);
    LeqAntisymmetric(a[0], b[0]);
  }

  /** An ascending list is determined by its elements. */
  lemma {:induction false} AscendingUnique(a: seq<string>, b: seq<string>)
    requires Ascending(a) && Ascending(b) && multiset(a) == multiset(b)
    ensures a == b
  {
    assert |multiset(a)| == |a| && |multiset(b)| == |b|;
    if a != [] {
      AscendingHeads(a, b);
      TailMultiset(a);
      TailMultiset(b);
      AscendingUnique(a[1..], b[1..]);
    }
  }
}
