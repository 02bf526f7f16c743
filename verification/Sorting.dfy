/**
 Text compared by code unit, and a stable sort by a comparison, as the repository's
 `list.sort(compare)` does it.
 */
module Sorting {
  import opened Basics

  /** `a < b` for text: by the first code unit that differs, a prefix first. */
  predicate TextLess(a: string, b: string) {
    if b == [] then false
    else if a == [] then true
    else if a[0] != b[0] then a[0] < b[0]
    else TextLess(a[1..], b[1..])
  }

  lemma {:induction false} TextLessTrans(a: string, b: string, c: string)
    requires TextLess(a, b) && TextLess(b, c)
    ensures TextLess(a, c)
  {
    if a != [] && a[0] == b[0] == c[0] {
      TextLessTrans(a[1..], b[1..], c[1..]);
    }
  }

  lemma {:induction false} TextLessTotal(a: string, b: string)
    ensures TextLess(a, b) || TextLess(b, a) || a == b
    ensures !(TextLess(a, b) && TextLess(b, a))
  {
    if a != [] && b != [] && a[0] == b[0] {
      TextLessTotal(a[1..], b[1..]);
      if a[1..] == b[1..] {
        assert a == [a[0]] + a[1..] == [b[0]] + b[1..] == b;
      }
    }
  }

  /** What a comparison must be for sorting by it to mean anything: what ties, ties with the same. */
  ghost predicate Orders<T(!new)>(before: (T, T) -> bool) {
    && (forall a, b :: before(a, b) ==> !before(b, a))
    && (forall a, b, c :: !before(b, a) && !before(c, b) ==> !before(c, a))
  }

  ghost predicate InOrderBy<T(!new)>(before: (T, T) -> bool, list: seq<T>) {
    forall i, j :: 0 <= i < j < |list| ==> !before(list[j], list[i])
  }

  /** After every element that isn't later. */
  function InsertBy<T>(before: (T, T) -> bool, sorted: seq<T>, x: T): (more: seq<T>)
    ensures |more| == |sorted| + 1
  {
    if sorted != [] && before(x, sorted[|sorted| - 1]) then
      InsertBy(before, sorted[..|sorted| - 1], x) + [sorted[|sorted| - 1]]
    else sorted + [x]
  }

  /** `list.sort(compare)` */
  function SortBy<T>(before: (T, T) -> bool, list: seq<T>): (sorted: seq<T>)
    ensures |sorted| == |list|
  {
    if list == [] then []
    else InsertBy(before, SortBy(before, list[..|list| - 1]), list[|list| - 1])
  }

  lemma {:induction false} InsertKeeps<T>(before: (T, T) -> bool, sorted: seq<T>, x: T)
    ensures multiset(InsertBy(before, sorted, x)) == multiset(sorted) + multiset{x}
  {
    if sorted != [] && before(x, sorted[|sorted| - 1]) {
      InsertKeeps(before, sorted[..|sorted| - 1], x);
      assert sorted == sorted[..|sorted| - 1] + [sorted[|sorted| - 1]];
    }
  }

  lemma LastApart<T>(list: seq<T>)
    requires list != []
    ensures multiset(list) == multiset(list[..|list| - 1]) + multiset{list[|list| - 1]}
  {
    assert list == list[..|list| - 1] + [list[|list| - 1]];
  }

  /** Sorting keeps every element as often as it is there. */
  lemma {:induction false} SortKeeps<T>(before: (T, T) -> bool, list: seq<T>)
    ensures multiset(SortBy(before, list)) == multiset(list)
  {
    if list != [] {
      var front, last := list[..|list| - 1], list[|list| - 1];
      SortKeeps(before, front);
      InsertKeeps(before, SortBy(before, front), last);
      LastApart(list);
    }
  }

  lemma SortHas<T>(before: (T, T) -> bool, list: seq<T>, x: T)
    ensures x in SortBy(before, list) <==> x in list
  {
    SortKeeps(before, list);
    assert x in SortBy(before, list) <==> x in multiset(SortBy(before, list));
  }

  lemma {:induction false} InsertOrders<T(!new)>(before: (T, T) -> bool, sorted: seq<T>, x: T)
    requires Orders(before) && InOrderBy(before, sorted)
    ensures InOrderBy(before, InsertBy(before, sorted, x))
  {
    if sorted != [] {
      var front, last := sorted[..|sorted| - 1], sorted[|sorted| - 1];
      if before(x, last) {
        InsertOrders(before, front, x);
        InsertKeeps(before, front, x);
        var more := InsertBy(before, front, x);
        forall i | 0 <= i < |more|
          ensures !before(last, more[i])
        {
          assert more[i] in multiset(more);
          assert more[i] in front || more[i] == x;
        }
      } else {
        forall i | 0 <= i < |sorted|
          ensures !before(x, sorted[i])
        {
          assert i < |front| ==> !before(last, sorted[i]);
        }
      }
    }
  }

  /** Sorting puts a list in order. */
  lemma {:induction false} SortOrders<T(!new)>(before: (T, T) -> bool, list: seq<T>)
    requires Orders(before)
    ensures InOrderBy(before, SortBy(before, list))
  {
    if list != [] {
      SortOrders(before, list[..|list| - 1]);
      InsertOrders(before, SortBy(before, list[..|list| - 1]), list[|list| - 1]);
    }
  }

  lemma SameElements<T>(a: seq<T>, b: seq<T>)
    requires multiset(a) == multiset(b)
    ensures |a| == |b| && forall x :: x in a <==> x in b
  {
    forall x
      ensures x in a <==> x in b
    {
      assert x in a <==> x in multiset(a);
    }
    assert |multiset(a)| == |a| && |multiset(b)| == |b|;
  }

  lemma {:induction false} FilterFront<T(!new)>(keep: T -> bool, list: seq<T>, x: T)
    ensures Filter(keep, list + [x]) == if keep(x) then Filter(keep, list) + [x] else Filter(keep, list)
  {
    assert (list + [x])[..|list|] == list;
  }

  lemma {:induction false} InsertFiltered<T(!new)>(before: (T, T) -> bool, keep: T -> bool, sorted: seq<T>, x: T)
    requires Orders(before) && InOrderBy(before, sorted)
    ensures Filter(keep, InsertBy(before, sorted, x))
         == if keep(x) then InsertBy(before, Filter(keep, sorted), x) else Filter(keep, sorted)
  {
    if sorted != [] && before(x, sorted[|sorted| - 1]) {
      var front, last := sorted[..|sorted| - 1], sorted[|sorted| - 1];
      InsertFiltered(before, keep, front, x);
      FilterFront(keep, InsertBy(before, front, x), last);
      if keep(last) && keep(x) {
        assert (Filter(keep, front) + [last])[..|Filter(keep, front)|] == Filter(keep, front);
      }
    } else {
      FilterFront(keep, sorted, x);
      if sorted != [] && Filter(keep, sorted) != [] {
        var kept := Filter(keep, sorted);
        var y := kept[|kept| - 1];
        assert y in kept;
        var i :| 0 <= i < |sorted| && sorted[i] == y;
        assert !before(x, y) by {
          assert i == |sorted| - 1 || !before(sorted[|sorted| - 1], sorted[i]);
        }
      }
    }
  }

  /** Filtering a sorted list and sorting a filtered list are the same. */
  lemma {:induction false} SortFiltered<T(!new)>(before: (T, T) -> bool, keep: T -> bool, list: seq<T>)
    requires Orders(before)
    ensures Filter(keep, SortBy(before, list)) == SortBy(before, Filter(keep, list))
  {
    if list != [] {
      var front, last := list[..|list| - 1], list[|list| - 1];
      SortFiltered(before, keep, front);
      SortOrders(before, front);
      InsertFiltered(before, keep, SortBy(before, front), last);
      if keep(last) {
        assert (Filter(keep, front) + [last])[..|Filter(keep, front)|] == Filter(keep, front);
      }
    }
  }

  lemma {:induction false} InsertDistinct<T(!new)>(before: (T, T) -> bool, sorted: seq<T>, x: T)
    requires NoRepeats(sorted) && x !in sorted
    ensures NoRepeats(InsertBy(before, sorted, x))
  {
    if sorted != [] && before(x, sorted[|sorted| - 1]) {
      var front, last := sorted[..|sorted| - 1], sorted[|sorted| - 1];
      InsertDistinct(before, front, x);
      InsertKeeps(before, front, x);
      forall i | 0 <= i < |InsertBy(before, front, x)|
        ensures InsertBy(before, front, x)[i] != last
      {
        assert InsertBy(before, front, x)[i] in multiset(InsertBy(before, front, x));
      }
    }
  }

  /** Sorting repeats nothing. */
  lemma {:induction false} SortDistinct<T(!new)>(before: (T, T) -> bool, list: seq<T>)
    requires NoRepeats(list)
    ensures NoRepeats(SortBy(before, list))
  {
    if list != [] {
      var front, last := list[..|list| - 1], list[|list| - 1];
      SortDistinct(before, front);
      SortHas(before, front, last);
      InsertDistinct(before, SortBy(before, front), last);
    }
  }
}
