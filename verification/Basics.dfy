/**
 Small vocabulary shared by every module: optional values, the JavaScript list idioms the
 repository leans on (`[...new Set(list)]`, `filter`), and text compared by code unit.
 */
module Basics {

  datatype Option<+T> = None | Some(value: T)

  /** `[...new Set(list)]`: each element once, at the place it first has. */
  function Unique<T(==,!new)>(list: seq<T>): (kept: seq<T>)
    ensures forall x :: x in kept <==> x in list
    ensures NoRepeats(kept)
    ensures |kept| <= |list|
  {
    if list == [] then []
    else
      var earlier, last := Unique(list[..|list| - 1]), list[|list| - 1];
      assert list == list[..|list| - 1] + [last];
      if last in list[..|list| - 1] then earlier else earlier + [last]
  }

  predicate NoRepeats<T(==)>(list: seq<T>) {
    forall i, j :: 0 <= i < j < |list| ==> list[i] != list[j]
  }

  /** A list without repeats is its own set. */
  lemma {:induction false} UniqueOfDistinct<T(!new)>(list: seq<T>)
    requires NoRepeats(list)
    ensures Unique(list) == list
  {
    if list == [] {
    } else {
      UniqueOfDistinct(list[..|list| - 1]);
      assert list == list[..|list| - 1] + [list[|list| - 1]];
    }
  }

  /** Taking each element once is the same before and after more elements come. */
  lemma {:induction false} UniqueSnoc<T(!new)>(list: seq<T>, x: T)
    ensures Unique(list + [x]) == if x in list then Unique(list) else Unique(list) + [x]
  {
    assert (list + [x])[..|list|] == list;
  }

  /** `filter` */
  function Filter<T(!new)>(keep: T -> bool, list: seq<T>): (kept: seq<T>)
    ensures forall x :: x in kept <==> x in list && keep(x)
    ensures |kept| <= |list|
  {
    if list == [] then []
    else
      var earlier, last := Filter(keep, list[..|list| - 1]), list[|list| - 1];
      assert list == list[..|list| - 1] + [last];
      if keep(last) then earlier + [last] else earlier
  }

  lemma {:induction false} FilterDistinct<T(!new)>(keep: T -> bool, list: seq<T>)
    requires NoRepeats(list)
    ensures NoRepeats(Filter(keep, list))
  {
    if list != [] {
      var front, last := list[..|list| - 1], list[|list| - 1];
      FilterDistinct(keep, front);
      forall i | 0 <= i < |Filter(keep, front)|
        ensures Filter(keep, front)[i] != last
      {
        assert Filter(keep, front)[i] in front;
      }
    }
  }

  lemma {:induction false} FilterNothing<T(!new)>(keep: T -> bool, list: seq<T>)
    requires forall x :: x in list ==> !keep(x)
    ensures Filter(keep, list) == []
  {
    if list != [] {
      FilterNothing(keep, list[..|list| - 1]);
    }
  }

  // ---------------------------------------------------------------------- some of a list, mapped

  /** `list.map(f)` with what `f` gives nothing for left out. */
  function Mapped<S, T>(f: S -> Option<T>, list: seq<S>): (mapped: seq<T>)
    ensures |mapped| <= |list|
  {
    if list == [] then []
    else
      var before := Mapped(f, list[..|list| - 1]);
      match f(list[|list| - 1])
      case None => before
      case Some(x) => before + [x]
  }

  lemma {:induction false} MappedFrom<S, T>(f: S -> Option<T>, list: seq<S>, y: T)
    ensures y in Mapped(f, list) <==> exists x :: x in list && f(x) == Some(y)
  {
    if list != [] {
      var front, last := list[..|list| - 1], list[|list| - 1];
      MappedFrom(f, front, y);
      assert list == front + [last];
    }
  }

  /** Mapping different elements to different ones repeats nothing. */
  lemma {:induction false} MappedDistinct<S, T>(f: S -> Option<T>, list: seq<S>)
    requires forall i, j :: 0 <= i < j < |list| && f(list[i]).Some? ==> f(list[i]) != f(list[j])
    ensures NoRepeats(Mapped(f, list))
  {
    if list != [] {
      var front, last := list[..|list| - 1], list[|list| - 1];
      MappedDistinct(f, front);
      if f(last).Some? {
        MappedFrom(f, front, f(last).value);
        forall x | x in front
          ensures f(x) != f(last)
        {
          var i :| 0 <= i < |front| && front[i] == x;
          assert list[i] == x;
        }
      }
    }
  }

  /** What is mapped twice needn't be made unique in between. */
  lemma {:induction false} UniqueMapped<S(!new), T(!new)>(f: S -> Option<T>, list: seq<S>)
    ensures Unique(Mapped(f, Unique(list))) == Unique(Mapped(f, list))
  {
    if list != [] {
      var front, last := list[..|list| - 1], list[|list| - 1];
      var kept := Unique(front);
      UniqueMapped(f, front);
      assert list == front + [last];
      if f(last).Some? {
        var x := f(last).value;
        UniqueSnoc(Mapped(f, front), x);
        if last in front {
          MappedFrom(f, front, x);
        } else {
          assert (kept + [last])[..|kept|] == kept;
          UniqueSnoc(Mapped(f, kept), x);
          MappedFrom(f, front, x);
          MappedFrom(f, kept, x);
        }
      } else if last !in front {
        assert (kept + [last])[..|kept|] == kept;
      }
    }
  }

  /** Mapping one way and then another is mapping the other way, where the other way agrees. */
  lemma {:induction false} MappedTwice<T>(f: T -> Option<T>, g: T -> Option<T>, list: seq<T>)
    requires forall x :: x in list ==> g(x) == match f(x) case Some(y) => g(y) case None => None
    ensures Mapped(g, Mapped(f, list)) == Mapped(g, list)
  {
    if list != [] {
      var front, last := list[..|list| - 1], list[|list| - 1];
      assert list == front + [last];
      MappedTwice(f, g, front);
      if f(last).Some? {
        assert (Mapped(f, front) + [f(last).value])[..|Mapped(f, front)|] == Mapped(f, front);
      }
    }
  }

  // ---------------------------------------------------------------------- runs, one after another

  /** `lists.flat()` */
  function Flat<T>(runs: seq<seq<T>>): seq<T> {
    if runs == [] then [] else Flat(runs[..|runs| - 1]) + runs[|runs| - 1]
  }

  /** Where a run starts. */
  function Offset<T>(runs: seq<seq<T>>, k: nat): nat
    requires k <= |runs|
  {
    if k == 0 then 0 else Offset(runs, k - 1) + |runs[k - 1]|
  }

  lemma {:induction false} OffsetIn<T>(runs: seq<seq<T>>, n: nat, k: nat)
    requires k <= n <= |runs|
    ensures Offset(runs[..n], k) == Offset(runs, k)
  {
    if k > 0 {
      OffsetIn(runs, n, k - 1);
    }
  }

  lemma {:induction false} FlatLength<T>(runs: seq<seq<T>>)
    ensures |Flat(runs)| == Offset(runs, |runs|)
  {
    if runs != [] {
      FlatLength(runs[..|runs| - 1]);
      OffsetIn(runs, |runs| - 1, |runs| - 1);
    }
  }

  /** A run's elements follow where it starts, and the next run follows them. */
  lemma {:induction false} FlatAt<T>(runs: seq<seq<T>>, k: nat)
    requires k < |runs|
    ensures Offset(runs, k + 1) == Offset(runs, k) + |runs[k]| <= |Flat(runs)|
    ensures forall j :: 0 <= j < |runs[k]| ==> Flat(runs)[Offset(runs, k) + j] == runs[k][j]
    ensures Flat(runs)[Offset(runs, k)..Offset(runs, k + 1)] == runs[k]
  {
    var last := |runs| - 1;
    var front := runs[..last];
    FlatLength(front);
    OffsetIn(runs, last, k);
    if k < last {
      FlatAt(front, k);
      OffsetIn(runs, last, k + 1);
      assert Flat(runs)[..|Flat(front)|] == Flat(front);
    }
  }

  /** Every element is in a run. */
  lemma {:induction false} FlatOf<T>(runs: seq<seq<T>>, x: nat) returns (k: nat, j: nat)
    requires x < |Flat(runs)|
    ensures k < |runs| && j < |runs[k]| && x == Offset(runs, k) + j && Flat(runs)[x] == runs[k][j]
  {
    var front := runs[..|runs| - 1];
    if x < |Flat(front)| {
      k, j := FlatOf(front, x);
    } else {
      k, j := |front|, x - |Flat(front)|;
      FlatLength(front);
    }
    OffsetIn(runs, |front|, k);
  }

  /** Runs of the same lengths start at the same places. */
  lemma {:induction false} SameOffsets<T, U>(a: seq<seq<T>>, b: seq<seq<U>>, k: nat)
    requires |a| == |b| && k <= |a|
    requires forall i :: 0 <= i < |a| ==> |a[i]| == |b[i]|
    ensures Offset(a, k) == Offset(b, k)
  {
    if k > 0 {
      SameOffsets(a, b, k - 1);
    }
  }

  /** Two lists of runs of the same lengths, side by side. */
  lemma FlatTogether<T, U>(a: seq<seq<T>>, b: seq<seq<U>>, x: nat) returns (k: nat, j: nat)
    requires |a| == |b| && forall i :: 0 <= i < |a| ==> |a[i]| == |b[i]|
    requires x < |Flat(a)| || x < |Flat(b)|
    ensures |Flat(a)| == |Flat(b)|
    ensures k < |a| && j < |a[k]| && x == Offset(a, k) + j
    ensures Flat(a)[x] == a[k][j] && Flat(b)[x] == b[k][j]
  {
    FlatLength(a);
    FlatLength(b);
    SameOffsets(a, b, |a|);
    k, j := FlatOf(a, x);
    SameOffsets(a, b, k);
    FlatAt(b, k);
  }

  /** One element of one run. */
  lemma FlatElement<T>(runs: seq<seq<T>>, k: nat, j: nat)
    requires k < |runs| && j < |runs[k]|
    ensures Offset(runs, k) + j < |Flat(runs)| && Flat(runs)[Offset(runs, k) + j] == runs[k][j]
  {
    FlatAt(runs, k);
  }

  lemma FlatElements<T, U>(a: seq<seq<T>>, b: seq<seq<U>>, k: nat, j: nat)
    requires |a| == |b| && forall i :: 0 <= i < |a| ==> |a[i]| == |b[i]|
    requires k < |a| && j < |a[k]|
    ensures Offset(a, k) + j < |Flat(a)| == |Flat(b)|
    ensures Flat(a)[Offset(a, k) + j] == a[k][j] && Flat(b)[Offset(a, k) + j] == b[k][j]
  {
    FlatElement(a, k, j);
    FlatElement(b, k, j);
    SameOffsets(a, b, k);
    FlatLength(a);
    FlatLength(b);
    SameOffsets(a, b, |a|);
  }
}
