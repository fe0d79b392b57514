/**
 * The album's sort options and their comparators, and a stable sort standing in for
 * `Array.prototype.sort` (which is stable). Titles compare by code point, which stands in
 * for `localeCompare`.
 */
module Sorting {
  import opened Types

  datatype SortOption = DateNewest | DateOldest | TitleAZ | TitleZA | Unrecognised

  /** The value of the sort selector. */
  function ParseSortOption(s: string): (o: SortOption)
    ensures o == Unrecognised <==> s !in {"date-newest", "date-oldest", "title-az", "title-za"}
  {
    if s == "date-newest" then DateNewest
    else if s == "date-oldest" then DateOldest
    else if s == "title-az" then TitleAZ
    else if s == "title-za" then TitleZA
    else Unrecognised
  }

  /** Three-way lexicographic comparison of strings by code point: -1, 0 or 1. */
  function LexCompare(a: string, b: string): (r: int)
    ensures -1 <= r <= 1
    ensures r == 0 <==> a == b
  {
    if a == [] && b == [] then 0
    else if a == [] then -1
    else if b == [] then 1
    else if a[0] < b[0] then -1
    else if a[0] > b[0] then 1
    else
      var r := LexCompare(a[1..], b[1..]);
      assert r == 0 ==> a == [a[0]] + a[1..] == [b[0]] + b[1..] == b;
      r
  }

  lemma {:induction false} LexCompareAntisymmetric(a: string, b: string)
    ensures LexCompare(a, b) == -LexCompare(b, a)
  {
    if a != [] && b != [] && a[0] == b[0] {
      LexCompareAntisymmetric(a[1..], b[1..]);
    }
  }

  lemma {:induction false} LexCompareTransitive(a: string, b: string, c: string)
    requires LexCompare(a, b) <= 0 && LexCompare(b, c) <= 0
    ensures LexCompare(a, c) <= 0
  {
    if a != [] && b != [] && c != [] && a[0] == b[0] == c[0] {
      LexCompareTransitive(a[1..], b[1..], c[1..]);
    }
  }

  /** The comparator handed to `sort`: negative when `a` goes first, positive when `b` does. */
  function Compare(opt: SortOption, a: Memory, b: Memory): int {
    match opt
    case DateNewest => b.createdAt - a.createdAt
    case DateOldest => a.createdAt - b.createdAt
    case TitleAZ => LexCompare(a.title, b.title)
    case TitleZA => LexCompare(b.title, a.title)
    case Unrecognised => 0
  }

  /** `a` may go before `b`. */
  predicate Le(opt: SortOption, a: Memory, b: Memory) {
    Compare(opt, a, b) <= 0
  }

  /** Every comparator is antisymmetric in sign: swapping the arguments negates the result. */
  lemma CompareAntisymmetric(opt: SortOption, a: Memory, b: Memory)
    ensures Compare(opt, a, b) == -Compare(opt, b, a)
  {
    if opt == TitleAZ || opt == TitleZA {
      LexCompareAntisymmetric(a.title, b.title);
    }
  }

  lemma CompareTransitive(opt: SortOption, a: Memory, b: Memory, c: Memory)
    requires Le(opt, a, b) && Le(opt, b, c)
    ensures Le(opt, a, c)
  {
    match opt
    case TitleAZ => LexCompareTransitive(a.title, b.title, c.title);
    case TitleZA => LexCompareTransitive(c.title, b.title, a.title);
    case _ =>
  }

  /** Z–A orders every pair the opposite way from A–Z, and newest-first the opposite of oldest-first. */
  lemma ReverseOptions(a: Memory, b: Memory)
    ensures Compare(TitleZA, a, b) == -Compare(TitleAZ, a, b)
    ensures Compare(DateNewest, a, b) == -Compare(DateOldest, a, b)
  {
    LexCompareAntisymmetric(a.title, b.title);
  }

  ghost predicate Sorted(opt: SortOption, s: seq<Memory>) {
    forall i, j :: 0 <= i < j < |s| ==> Le(opt, s[i], s[j])
  }

  /** Places `x` after every element of `t` that does not compare greater than it. */
  function Insert(opt: SortOption, x: Memory, t: seq<Memory>): (r: seq<Memory>)
    ensures multiset(r) == multiset(t) + multiset{x}
  {
    if t == [] then [x]
    else if Compare(opt, x, t[0]) < 0 then [x] + t
    else
      assert t == [t[0]] + t[1..];
      [t[0]] + Insert(opt, x, t[1..])
  }

  /** `result.sort(comparator)` with a stable sort. */
  function SortBy(opt: SortOption, s: seq<Memory>): (r: seq<Memory>)
    ensures multiset(r) == multiset(s)
  {
    if s == [] then []
    else
      assert s == s[..|s| - 1] + [s[|s| - 1]];
      Insert(opt, s[|s| - 1], SortBy(opt, s[..|s| - 1]))
  }

  lemma {:induction false} InsertSorted(opt: SortOption, x: Memory, t: seq<Memory>)
    requires Sorted(opt, t)
    ensures Sorted(opt, Insert(opt, x, t))
  {
    if t != [] {
      var r := Insert(opt, x, t);
      if Compare(opt, x, t[0]) < 0 {
        forall j | 0 < j < |r| ensures Le(opt, r[0], r[j]) {
          if j > 1 {
            CompareTransitive(opt, x, t[0], t[j - 1]);
          }
        }
      } else {
        var tail := Insert(opt, x, t[1..]);
        assert Sorted(opt, t[1..]) by {
          forall i, j | 0 <= i < j < |t| - 1 ensures Le(opt, t[1..][i], t[1..][j]) {
            assert Le(opt, t[i + 1], t[j + 1]);
          }
        }
        InsertSorted(opt, x, t[1..]);
        CompareAntisymmetric(opt, x, t[0]);
        forall j | 0 <= j < |tail| ensures Le(opt, t[0], tail[j]) {
          assert tail[j] in multiset(tail);
          if tail[j] != x {
            assert tail[j] in t[1..];
          }
        }
      }
    }
  }

  lemma {:induction false} SortBySorted(opt: SortOption, s: seq<Memory>)
    ensures Sorted(opt, SortBy(opt, s))
  {
    if s != [] {
      SortBySorted(opt, s[..|s| - 1]);
      InsertSorted(opt, s[|s| - 1], SortBy(opt, s[..|s| - 1]));
    }
  }

  /** An unrecognised option compares everything equal, and the stable sort then keeps the order. */
  lemma {:induction false} UnrecognisedKeepsOrder(s: seq<Memory>)
    ensures SortBy(Unrecognised, s) == s
  {
    if s != [] {
      var front, x := s[..|s| - 1], s[|s| - 1];
      UnrecognisedKeepsOrder(front);
      assert SortBy(Unrecognised, s) == Insert(Unrecognised, x, SortBy(Unrecognised, front));
      InsertAtEnd(x, front);
      LastSplit(s);
    }
  }

  lemma {:induction false} InsertAtEnd(x: Memory, t: seq<Memory>)
    ensures Insert(Unrecognised, x, t) == t + [x]
  {
    if t != [] {
      InsertAtEnd(x, t[1..]);
      assert Insert(Unrecognised, x, t) == [t[0]] + Insert(Unrecognised, x, t[1..]);
      ConsAppend(t, x);
    }
  }

  lemma ConsAppend<T>(t: seq<T>, x: T)
    requires t != []
    ensures t + [x] == [t[0]] + (t[1..] + [x])
  {
    assert t == [t[0]] + t[1..];
  }

  lemma LastSplit<T>(s: seq<T>)
    requires s != []
    ensures s == s[..|s| - 1] + [s[|s| - 1]]
  {
  }
}
