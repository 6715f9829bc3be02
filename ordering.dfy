/**
 * Orders and sorting. Python's `sorted` over index names compares strings
 * lexicographically by code point; Django's `order_by("pk")` orders records by
 * primary key. Both are stable sorts under a total preorder, modelled here by one
 * generic insertion sort.
 */
module Ordering {

  /** `le` is a total preorder: any two values compare, and comparison chains. */
  ghost predicate TotalPreorder<T(!new)>(le: (T, T) -> bool)
  {
    && (forall x, y :: le(x, y) || le(y, x))
    && (forall x, y, z :: le(x, y) && le(y, z) ==> le(x, z))
  }

  ghost predicate SortedBy<T>(s: seq<T>, le: (T, T) -> bool)
  {
    forall i, j :: 0 <= i < j < |s| ==> le(s[i], s[j])
  }

  /** Inserts `x` before the first element it is `le` to. */
  function Insert<T(!new)>(x: T, s: seq<T>, le: (T, T) -> bool): (r: seq<T>)
    ensures multiset(r) == multiset(s) + multiset{x}
    ensures |r| == |s| + 1
    ensures TotalPreorder(le) && SortedBy(s, le) ==> SortedBy(r, le)
  {
    if s == [] then [x]
    else if le(x, s[0]) then [x] + s
    else
      var rest := Insert(x, s[1..], le);
      assert s == [s[0]] + s[1..];
      assert TotalPreorder(le) && SortedBy(s, le) ==> forall k :: 0 <= k < |rest| ==> le(s[0], rest[k]) by {
        if TotalPreorder(le) && SortedBy(s, le) {
          HeadBelowInsertion(s, x, rest, le);
        }
      }
      [s[0]] + rest
  }

  /**
   * In a sorted sequence whose head `x` does not precede, the head precedes every element
   * of the tail with `x` inserted.
   */
  lemma HeadBelowInsertion<T(!new)>(s: seq<T>, x: T, rest: seq<T>, le: (T, T) -> bool)
    requires TotalPreorder(le) && SortedBy(s, le) && s != [] && !le(x, s[0])
    requires multiset(rest) == multiset(s[1..]) + multiset{x}
    ensures forall k :: 0 <= k < |rest| ==> le(s[0], rest[k])
  {
    forall k | 0 <= k < |rest| ensures le(s[0], rest[k]) {
      assert rest[k] in multiset(rest);
      if rest[k] in multiset(s[1..]) {
        var j :| 0 <= j < |s[1..]| && s[1..][j] == rest[k];
        assert s[j + 1] == rest[k];
      } else {
        assert rest[k] == x;
      }
    }
  }

  /** Stable insertion sort: equal elements keep their input order. */
  function Sort<T(!new)>(s: seq<T>, le: (T, T) -> bool): (r: seq<T>)
    ensures multiset(r) == multiset(s)
    ensures |r| == |s|
    ensures TotalPreorder(le) ==> SortedBy(r, le)
  {
    if s == [] then []
    else
      assert s == [s[0]] + s[1..];
      Insert(s[0], Sort(s[1..], le), le)
  }

  /** A sequence without repeats holds each value at most once. */
  lemma {:induction false} DistinctCounts<T>(s: seq<T>)
    requires forall i, j :: 0 <= i < j < |s| ==> s[i] != s[j]
    ensures forall x :: multiset(s)[x] <= 1
  {
    if s != [] {
      var t := s[1..];
      assert s == [s[0]] + t;
      DistinctCounts(t);
      assert s[0] !in t;
    }
  }

  /** A sequence holding each value at most once has no repeats. */
  lemma {:induction false} CountsDistinct<T>(s: seq<T>)
    requires forall x :: multiset(s)[x] <= 1
    ensures forall i, j :: 0 <= i < j < |s| ==> s[i] != s[j]
  {
    if s != [] {
      var t := s[1..];
      assert s == [s[0]] + t;
      assert forall x :: multiset(t)[x] <= multiset(s)[x];
      CountsDistinct(t);
      assert multiset(t)[s[0]] == 0;
      forall i, j | 0 <= i < j < |s| ensures s[i] != s[j] {
        if i == 0 {
          assert s[j] == t[j - 1] && t[j - 1] in multiset(t);
        } else {
          assert s[i] == t[i - 1] && s[j] == t[j - 1];
        }
      }
    }
  }

  /** Python's string comparison `a <= b`: lexicographic by code point. */
  predicate LexLe(a: string, b: string)
  {
    a == [] || (b != [] && (a[0] < b[0] || (a[0] == b[0] && LexLe(a[1..], b[1..]))))
  }

  lemma {:induction false} LexLeTotal(a: string, b: string)
    ensures LexLe(a, b) || LexLe(b, a)
  {
    if a != [] && b != [] && a[0] == b[0] {
      LexLeTotal(a[1..], b[1..]);
    }
  }

  lemma {:induction false} LexLeTransitive(a: string, b: string, c: string)
    requires LexLe(a, b) && LexLe(b, c)
    ensures LexLe(a, c)
  {
    if a != [] && b != [] && c != [] && a[0] == b[0] && b[0] == c[0] {
      LexLeTransitive(a[1..], b[1..], c[1..]);
    }
  }

  lemma {:induction false} LexLeAntisymmetric(a: string, b: string)
    requires LexLe(a, b) && LexLe(b, a)
    ensures a == b
  {
    if a != [] && b != [] {
      LexLeAntisymmetric(a[1..], b[1..]);
      assert a == [a[0]] + a[1..] && b == [b[0]] + b[1..];
    }
  }

  lemma LexLeIsTotalPreorder()
    ensures TotalPreorder(LexLe)
  {
    forall x, y ensures LexLe(x, y) || LexLe(y, x) { LexLeTotal(x, y); }
    forall x, y, z | LexLe(x, y) && LexLe(y, z) ensures LexLe(x, z) { LexLeTransitive(x, y, z); }
  }

  /** Python's `sorted(names)` for a list of strings. */
  function SortedNames(names: seq<string>): (r: seq<string>)
    ensures multiset(r) == multiset(names)
    ensures SortedBy(r, LexLe)
    ensures (forall i, j :: 0 <= i < j < |names| ==> names[i] != names[j]) ==>
            forall i, j :: 0 <= i < j < |r| ==> r[i] != r[j]
  {
    LexLeIsTotalPreorder();
    var sorted := Sort(names, LexLe);
    assert (forall i, j :: 0 <= i < j < |names| ==> names[i] != names[j]) ==>
           forall i, j :: 0 <= i < j < |sorted| ==> sorted[i] != sorted[j] by {
      if forall i, j :: 0 <= i < j < |names| ==> names[i] != names[j] {
        DistinctCounts(names);
        CountsDistinct(sorted);
      }
    }
    sorted
  }
}
