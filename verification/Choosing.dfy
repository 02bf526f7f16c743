/**
 The first element for each key in a sorted list, which is how the repository takes a best statement
 for each value, label, function or feature: what is kept, and how it depends on the order of what was
 sorted.
 */
module Choosing {
  import opened Basics
  import opened Sorting

  predicate Taken<T, K(==)>(key: T -> Option<K>, kept: seq<T>, k: Option<K>) {
    exists i :: 0 <= i < |kept| && key(kept[i]) == k
  }

  /** The first for each key, in the order they come; what has no key is passed over. */
  function FirstBy<T, K(==)>(key: T -> Option<K>, list: seq<T>): (kept: seq<T>) {
    if list == [] then []
    else
      var kept, x := FirstBy(key, list[..|list| - 1]), list[|list| - 1];
      if key(x) == None || Taken(key, kept, key(x)) then kept else kept + [x]
  }

  /** Whether an element has a key and none with that key comes before it. */
  ghost predicate Unbeaten<T(!new), K>(before: (T, T) -> bool, key: T -> Option<K>, list: seq<T>, x: T) {
    x in list && key(x).Some? && forall y :: y in list && key(y) == key(x) ==> !before(y, x)
  }

  predicate Tied<T>(before: (T, T) -> bool, x: T, y: T) {
    !before(x, y) && !before(y, x)
  }

  ghost predicate KeysApart<T, K>(key: T -> Option<K>, kept: seq<T>) {
    forall i, j :: 0 <= i < j < |kept| ==> key(kept[i]) != key(kept[j])
  }

  lemma TakenIs<T, K>(key: T -> Option<K>, kept: seq<T>, k: Option<K>)
    ensures Taken(key, kept, k) <==> exists x :: x in kept && key(x) == k
  {
  }

  lemma {:induction false} FirstByOf<T(!new), K>(key: T -> Option<K>, list: seq<T>)
    ensures forall x :: x in FirstBy(key, list) ==> x in list && key(x).Some?
    ensures KeysApart(key, FirstBy(key, list))
    ensures forall y :: y in list && key(y).Some? ==> Taken(key, FirstBy(key, list), key(y))
  {
    if list != [] {
      var front, last := list[..|list| - 1], list[|list| - 1];
      FirstByOf(key, front);
      var kept, more := FirstBy(key, front), FirstBy(key, list);
      assert list == front + [last];
      forall y | y in list && key(y).Some?
        ensures Taken(key, more, key(y))
      {
        if y in front {
          var i :| 0 <= i < |kept| && key(kept[i]) == key(y);
          assert more[i] == kept[i];
        } else if more != kept {
          assert more[|kept|] == last;
        }
      }
    }
  }

  /** In a list in order, what is kept comes in order, and nothing with its key comes before it. */
  lemma {:induction false} FirstByBest<T(!new), K>(before: (T, T) -> bool, key: T -> Option<K>, list: seq<T>)
    requires Orders(before) && InOrderBy(before, list)
    ensures InOrderBy(before, FirstBy(key, list))
    ensures forall x :: x in FirstBy(key, list) ==> Unbeaten(before, key, list, x)
  {
    if list != [] {
      var front, last := list[..|list| - 1], list[|list| - 1];
      FirstByBest(before, key, front);
      FirstByOf(key, front);
      assert list == front + [last];
      var kept := FirstBy(key, front);
      forall x | x in front
        ensures !before(last, x)
      {
        var i :| 0 <= i < |front| && front[i] == x;
        assert list[i] == x;
      }
      if key(last).Some? && !Taken(key, kept, key(last)) {
        assert Unbeaten(before, key, list, last);
      }
    }
  }

  lemma UnbeatenAlike<T(!new), K>(before: (T, T) -> bool, key: T -> Option<K>, a: seq<T>, b: seq<T>, x: T)
    requires forall y :: y in a <==> y in b
    ensures Unbeaten(before, key, a, x) <==> Unbeaten(before, key, b, x)
  {
  }

  /** What is kept of a sorted list: one for each key, unbeaten. */
  lemma FirstSorted<T(!new), K>(before: (T, T) -> bool, key: T -> Option<K>, list: seq<T>)
    requires Orders(before)
    ensures
      var kept := FirstBy(key, SortBy(before, list));
      && InOrderBy(before, kept) && KeysApart(key, kept)
      && (forall x :: x in kept ==> Unbeaten(before, key, list, x))
      && (forall y :: y in list && key(y).Some? ==> Taken(key, kept, key(y)))
  {
    var sorted := SortBy(before, list);
    SortOrders(before, list);
    SortKeeps(before, list);
    SameElements(sorted, list);
    FirstByOf(key, sorted);
    FirstByBest(before, key, sorted);
    forall x | x in FirstBy(key, sorted)
      ensures Unbeaten(before, key, list, x)
    {
      UnbeatenAlike(before, key, sorted, list, x);
    }
  }

  /** From lists of the same elements, what is kept for a key ties with what is kept for it. */
  lemma KeptAlike<T(!new), K>(before: (T, T) -> bool, key: T -> Option<K>, a: seq<T>, b: seq<T>, x: T) returns (y: T)
    requires Orders(before) && (forall z :: z in a <==> z in b) && x in FirstBy(key, SortBy(before, a))
    ensures y in FirstBy(key, SortBy(before, b)) && key(y) == key(x) && Tied(before, x, y)
    ensures Unbeaten(before, key, a, x) && Unbeaten(before, key, a, y)
  {
    FirstSorted(before, key, a);
    FirstSorted(before, key, b);
    var kept := FirstBy(key, SortBy(before, b));
    assert Taken(key, kept, key(x));
    var i :| 0 <= i < |kept| && key(kept[i]) == key(x);
    y := kept[i];
    UnbeatenAlike(before, key, a, b, y);
  }

  // ---------------------------------------------------------------------- lists side by side

  ghost predicate Paired<T>(alike: (T, T) -> bool, a: seq<T>, b: seq<T>) {
    |a| == |b| && forall i :: 0 <= i < |a| ==> alike(a[i], b[i])
  }

  /** A comparison that can't tell what is alike apart. */
  ghost predicate Blind<T(!new)>(before: (T, T) -> bool, alike: (T, T) -> bool) {
    forall p, q, r, s :: alike(p, q) && alike(r, s) ==> before(p, r) == before(q, s)
  }

  lemma {:induction false} InsertPaired<T(!new)>(
      before: (T, T) -> bool, alike: (T, T) -> bool, a: seq<T>, b: seq<T>, x: T, y: T)
    requires Blind(before, alike) && Paired(alike, a, b) && alike(x, y)
    ensures Paired(alike, InsertBy(before, a, x), InsertBy(before, b, y))
    decreases |a|
  {
    if a != [] {
      var n := |a| - 1;
      assert before(x, a[n]) == before(y, b[n]);
      if before(x, a[n]) {
        InsertPaired(before, alike, a[..n], b[..n], x, y);
      }
    }
  }

  /** Lists alike place by place sort alike place by place. */
  lemma {:induction false} SortPaired<T(!new)>(before: (T, T) -> bool, alike: (T, T) -> bool, a: seq<T>, b: seq<T>)
    requires Blind(before, alike) && Paired(alike, a, b)
    ensures Paired(alike, SortBy(before, a), SortBy(before, b))
    decreases |a|
  {
    if a != [] {
      var n := |a| - 1;
      SortPaired(before, alike, a[..n], b[..n]);
      InsertPaired(before, alike, SortBy(before, a[..n]), SortBy(before, b[..n]), a[n], b[n]);
    }
  }

  ghost predicate Strictly<T>(before: (T, T) -> bool, list: seq<T>) {
    forall i, j :: 0 <= i < j < |list| ==> before(list[i], list[j])
  }

  ghost predicate MatchIn<T(!new)>(alike: (T, T) -> bool, x: T, list: seq<T>) {
    exists y :: y in list && alike(x, y)
  }

  ghost predicate MatchOf<T(!new)>(alike: (T, T) -> bool, list: seq<T>, y: T) {
    exists x :: x in list && alike(x, y)
  }

  /** Each element of one list has one of the other that is alike, and the other way round. */
  ghost predicate Matched<T(!new)>(alike: (T, T) -> bool, a: seq<T>, b: seq<T>) {
    && (forall x {:trigger MatchIn(alike, x, b)} :: x in a ==> MatchIn(alike, x, b))
    && (forall y {:trigger MatchOf(alike, a, y)} :: y in b ==> MatchOf(alike, a, y))
  }

  ghost predicate OnlyTies<T(!new)>(before: (T, T) -> bool, alike: (T, T) -> bool) {
    forall x, y :: alike(x, y) ==> Tied(before, x, y)
  }

  lemma StrictlyLast<T(!new)>(before: (T, T) -> bool, list: seq<T>, x: T)
    requires Strictly(before, list) && x in list
    ensures x == list[|list| - 1] || before(x, list[|list| - 1])
  {
    var i :| 0 <= i < |list| && list[i] == x;
  }

  lemma TiesFollow<T(!new)>(before: (T, T) -> bool, x: T, y: T, z: T, w: T)
    requires Orders(before) && Tied(before, x, y) && Tied(before, w, z) && before(y, z)
    ensures before(x, w) && !before(w, x)
  {
    SameAgainst(before, x, y, z);
    SameAgainst(before, w, z, x);
  }

  lemma LastsAlike<T(!new)>(before: (T, T) -> bool, alike: (T, T) -> bool, a: seq<T>, b: seq<T>)
    requires Orders(before) && OnlyTies(before, alike) && Matched(alike, a, b) && a != []
    requires Strictly(before, a) && Strictly(before, b)
    ensures b != [] && alike(a[|a| - 1], b[|b| - 1])
  {
    var x := a[|a| - 1];
    assert MatchIn(alike, x, b);
    var y :| y in b && alike(x, y);
    var z := b[|b| - 1];
    assert MatchOf(alike, a, z);
    var w :| w in a && alike(w, z);
    StrictlyLast(before, a, w);
    StrictlyLast(before, b, y);
    if y != z {
      TiesFollow(before, x, y, z, w);
    }
  }

  lemma NotLast<T(!new)>(before: (T, T) -> bool, list: seq<T>, x: T)
    requires Orders(before) && Strictly(before, list) && list != []
    ensures x in list[..|list| - 1] <==> x in list && before(x, list[|list| - 1])
  {
    assert list == list[..|list| - 1] + [list[|list| - 1]];
  }

  lemma FrontsMatched<T(!new)>(before: (T, T) -> bool, alike: (T, T) -> bool, a: seq<T>, b: seq<T>)
    requires Orders(before) && OnlyTies(before, alike) && Matched(alike, a, b)
    requires a != [] && b != [] && alike(a[|a| - 1], b[|b| - 1])
    requires Strictly(before, a) && Strictly(before, b)
    ensures Matched(alike, a[..|a| - 1], b[..|b| - 1])
  {
    var f, g, x, z := a[..|a| - 1], b[..|b| - 1], a[|a| - 1], b[|b| - 1];
    forall u | u in f
      ensures MatchIn(alike, u, g)
    {
      NotLast(before, a, u);
      assert MatchIn(alike, u, b);
      var v :| v in b && alike(u, v);
      TiesFollow(before, v, u, x, z);
      NotLast(before, b, v);
    }
    forall v | v in g
      ensures MatchOf(alike, f, v)
    {
      NotLast(before, b, v);
      assert MatchOf(alike, a, v);
      var u :| u in a && alike(u, v);
      TiesFollow(before, u, v, z, x);
      NotLast(before, a, u);
    }
  }

  /** Two lists strictly in order whose elements match are alike place by place. */
  lemma {:induction false} MatchedPaired<T(!new)>(before: (T, T) -> bool, alike: (T, T) -> bool, a: seq<T>, b: seq<T>)
    requires Orders(before) && OnlyTies(before, alike) && Matched(alike, a, b)
    requires Strictly(before, a) && Strictly(before, b)
    ensures Paired(alike, a, b)
    decreases |a|
  {
    if b != [] {
      assert MatchOf(alike, a, b[0]);
    }
    if a != [] {
      LastsAlike(before, alike, a, b);
      FrontsMatched(before, alike, a, b);
      MatchedPaired(before, alike, a[..|a| - 1], b[..|b| - 1]);
    }
  }

  // ---------------------------------------------------------------------- two that tie, swapped

  /** The same, or one of two and the other. */
  function Swapping<T(==)>(x: T, y: T): (T, T) -> bool {
    (u, v) => u == v || (u == x && v == y) || (u == y && v == x)
  }

  /** One of two and the other, or the same and neither. */
  function Swapped<T(==)>(x: T, y: T): (T, T) -> bool {
    (u, v) => (u == v && u != x && u != y) || (u == x && v == y) || (u == y && v == x)
  }

  lemma SwappingBlind<T(!new)>(before: (T, T) -> bool, x: T, y: T)
    requires Orders(before) && Tied(before, x, y)
    ensures Blind(before, Swapping(x, y)) && Blind(before, Swapped(x, y))
  {
    forall p, q, r, s | Swapping(x, y)(p, q) && Swapping(x, y)(r, s)
      ensures before(p, r) == before(q, s)
    {
      assert !before(x, x) && !before(y, y);
      SameAgainst(before, x, y, p);
      SameAgainst(before, x, y, r);
    }
  }

  lemma SameAgainst<T(!new)>(before: (T, T) -> bool, x: T, y: T, z: T)
    requires Orders(before) && Tied(before, x, y)
    ensures before(x, z) == before(y, z) && before(z, x) == before(z, y)
  {
  }

  /** Where the first of a list comes in its sorting: after only what is strictly before it. */
  ghost predicate ComesAt<T>(before: (T, T) -> bool, sorted: seq<T>, x: T, k: nat) {
    k < |sorted| && sorted[k] == x && forall j :: 0 <= j < k ==> before(sorted[j], x)
  }

  /** Two together, the first behind only what is strictly before it. */
  ghost predicate Together<T>(before: (T, T) -> bool, sorted: seq<T>, x: T, y: T, k: nat) {
    ComesAt(before, sorted, x, k) && k + 1 < |sorted| && sorted[k + 1] == y
  }

  lemma {:induction false} InsertAround<T(!new)>(
      before: (T, T) -> bool, sorted: seq<T>, x: T, y: T, k: nat, z: T) returns (l: nat)
    requires Orders(before) && Tied(before, x, y) && Together(before, sorted, x, y, k)
    ensures Together(before, InsertBy(before, sorted, z), x, y, l)
    decreases |sorted|
  {
    var n := |sorted| - 1;
    l := k;
    if before(z, sorted[n]) {
      if k + 1 < n {
        l := InsertAround(before, sorted[..n], x, y, k, z);
      } else {
        assert before(z, y) && before(z, x) by {
          SameAgainst(before, x, y, z);
        }
        l := k + 1;
        var front := sorted[..n];
        assert front[k] == x;
        InsertUnder(before, front[..k], x, z);
        assert front == front[..k] + [x];
        assert InsertBy(before, front, z) == InsertBy(before, front[..k], z) + [x];
      }
    }
  }

  lemma {:induction false} InsertUnder<T(!new)>(before: (T, T) -> bool, sorted: seq<T>, x: T, z: T)
    requires before(z, x) && forall j :: 0 <= j < |sorted| ==> before(sorted[j], x)
    ensures forall j :: 0 <= j < |InsertBy(before, sorted, z)| ==> before(InsertBy(before, sorted, z)[j], x)
    decreases |sorted|
  {
    if sorted != [] && before(z, sorted[|sorted| - 1]) {
      InsertUnder(before, sorted[..|sorted| - 1], x, z);
    }
  }

  lemma TwoSorted<T(!new)>(before: (T, T) -> bool, x: T, y: T)
    requires Tied(before, x, y)
    ensures SortBy(before, [x, y]) == [x, y]
  {
    assert [x, y][..1] == [x] && [x][..0] == [];
    assert SortBy(before, [x]) == [x];
  }

  lemma SortNext<T>(before: (T, T) -> bool, list: seq<T>, z: T)
    ensures SortBy(before, list + [z]) == InsertBy(before, SortBy(before, list), z)
  {
    assert (list + [z])[..|list|] == list;
  }

  lemma LastOff<T>(x: T, y: T, rest: seq<T>)
    requires rest != []
    ensures [x, y] + rest == [x, y] + rest[..|rest| - 1] + [rest[|rest| - 1]]
  {
  }

  /** Two that tie and head a list stay together, behind only what comes before them. */
  lemma {:induction false} HeadsSorted<T(!new)>(before: (T, T) -> bool, x: T, y: T, rest: seq<T>) returns (k: nat)
    requires Orders(before) && Tied(before, x, y)
    ensures Together(before, SortBy(before, [x, y] + rest), x, y, k)
    decreases |rest|
  {
    if rest == [] {
      k := 0;
      TwoSorted(before, x, y);
      assert [x, y] + rest == [x, y];
    } else {
      var front, z := rest[..|rest| - 1], rest[|rest| - 1];
      var l := HeadsSorted(before, x, y, front);
      LastOff(x, y, rest);
      SortNext(before, [x, y] + front, z);
      k := InsertAround(before, SortBy(before, [x, y] + front), x, y, l, z);
    }
  }

  lemma SwappedOnce<T>(x: T, y: T, a: seq<T>, b: seq<T>, u: T, v: T)
    requires Paired(Swapped(x, y), a, b) && Swapped(x, y)(u, v)
    ensures Paired(Swapped(x, y), a + [u], b + [v])
  {
  }

  ghost predicate SameKeys<T(!new), K(!new)>(key: T -> Option<K>, a: seq<T>, b: seq<T>) {
    forall k :: Taken(key, a, k) <==> Taken(key, b, k)
  }

  lemma TakenMore<T, K>(key: T -> Option<K>, kept: seq<T>, x: T, k: Option<K>)
    ensures Taken(key, kept + [x], k) <==> Taken(key, kept, k) || key(x) == k
  {
    var more := kept + [x];
    if Taken(key, kept, k) {
      var i :| 0 <= i < |kept| && key(kept[i]) == k;
      assert more[i] == kept[i];
    }
    assert more[|kept|] == x;
  }

  lemma SameKeysMore<T(!new), K(!new)>(key: T -> Option<K>, a: seq<T>, b: seq<T>, x: T)
    requires SameKeys(key, a, b)
    ensures SameKeys(key, a + [x], b + [x])
  {
    forall k
      ensures Taken(key, a + [x], k) <==> Taken(key, b + [x], k)
    {
      TakenMore(key, a, x, k);
      TakenMore(key, b, x, k);
    }
  }

  /** What two heads leave, once both are past: swapped once, under the same keys. */
  ghost predicate LeftSwapped<T(!new), K(!new)>(key: T -> Option<K>, x: T, y: T, a: seq<T>, b: seq<T>) {
    && Paired(Swapped(x, y), a, b) && SameKeys(key, a, b)
    && x in a && Taken(key, a, key(x)) && Taken(key, a, key(y))
  }

  /** The two of them, one after the other, after the same others. */
  lemma HeadsKept<T(!new), K(!new)>(key: T -> Option<K>, kept: seq<T>, x: T, y: T)
    requires x != y && x !in kept && y !in kept && key(x).Some? && key(y).Some?
    requires !Taken(key, kept, key(x)) && !Taken(key, kept, key(y))
    ensures
      if key(x) == key(y) then LeftSwapped(key, x, y, kept + [x], kept + [y])
      else LeftSwapped(key, x, y, kept + [x] + [y], kept + [y] + [x])
  {
    SwappedOnce(x, y, kept, kept, x, y);
    SwappedOnce(x, y, kept + [x], kept + [y], y, x);
    forall k
      ensures Taken(key, kept + [x], k) <==> Taken(key, kept, k) || key(x) == k
      ensures Taken(key, kept + [y], k) <==> Taken(key, kept, k) || key(y) == k
      ensures Taken(key, kept + [x] + [y], k) <==> Taken(key, kept, k) || key(x) == k || key(y) == k
      ensures Taken(key, kept + [y] + [x], k) <==> Taken(key, kept, k) || key(x) == k || key(y) == k
    {
      TakenMore(key, kept, x, k);
      TakenMore(key, kept, y, k);
      TakenMore(key, kept + [x], y, k);
      TakenMore(key, kept + [y], x, k);
    }
    assert (kept + [x])[|kept|] == x && (kept + [x] + [y])[|kept|] == x;
  }

  lemma KeptNext<T, K>(key: T -> Option<K>, list: seq<T>, m: nat)
    requires m < |list|
    ensures
      var kept, x := FirstBy(key, list[..m]), list[m];
      FirstBy(key, list[..m + 1]) == if key(x) == None || Taken(key, kept, key(x)) then kept else kept + [x]
  {
    assert list[..m + 1][..m] == list[..m];
  }

  lemma TailNext<T(!new), K(!new)>(key: T -> Option<K>, x: T, y: T, c: seq<T>, d: seq<T>, u: T, v: T)
    requires LeftSwapped(key, x, y, c, d) && Swapping(x, y)(u, v)
    ensures LeftSwapped(key, x, y,
                        if key(u) == None || Taken(key, c, key(u)) then c else c + [u],
                        if key(v) == None || Taken(key, d, key(v)) then d else d + [v])
  {
    assert Taken(key, d, key(x)) && Taken(key, d, key(y));
    if u != x && u != y {
      assert u == v;
      assert Taken(key, c, key(u)) <==> Taken(key, d, key(u));
      SwappedOnce(x, y, c, d, u, v);
      SameKeysMore(key, c, d, u);
      TakenMore(key, c, u, key(x));
      TakenMore(key, c, u, key(y));
    }
  }

  lemma TailStep<T(!new), K(!new)>(key: T -> Option<K>, x: T, y: T, a: seq<T>, b: seq<T>, m: nat)
    requires m < |a| && m < |b| && Swapping(x, y)(a[m], b[m])
    requires LeftSwapped(key, x, y, FirstBy(key, a[..m]), FirstBy(key, b[..m]))
    ensures LeftSwapped(key, x, y, FirstBy(key, a[..m + 1]), FirstBy(key, b[..m + 1]))
  {
    KeptNext(key, a, m);
    KeptNext(key, b, m);
    TailNext(key, x, y, FirstBy(key, a[..m]), FirstBy(key, b[..m]), a[m], b[m]);
  }

  /** After the two, each list keeps the same. */
  lemma {:induction false} TailsKept<T(!new), K(!new)>(key: T -> Option<K>, x: T, y: T, a: seq<T>, b: seq<T>, k: nat, m: nat)
    requires Paired(Swapping(x, y), a, b) && k <= m <= |a|
    requires LeftSwapped(key, x, y, FirstBy(key, a[..k]), FirstBy(key, b[..k]))
    ensures LeftSwapped(key, x, y, FirstBy(key, a[..m]), FirstBy(key, b[..m]))
    decreases m
  {
    if k < m {
      TailsKept(key, x, y, a, b, k, m - 1);
      TailStep(key, x, y, a, b, m - 1);
    }
  }

  /** Where the two come is the same place in both lists, and all before them is the same. */
  lemma HeadsAlign<T(!new)>(before: (T, T) -> bool, x: T, y: T, a: seq<T>, b: seq<T>, k: nat, l: nat)
    requires Orders(before) && Tied(before, x, y) && Paired(Swapping(x, y), a, b)
    requires ComesAt(before, a, x, k) && ComesAt(before, b, y, l)
    ensures k == l && a[..k] == b[..k] && x !in a[..k] && y !in a[..k]
  {
    assert !before(x, x) && !before(y, y) && !before(y, x);
    assert forall j :: 0 <= j < k ==> a[j] != x && a[j] != y;
    assert forall j :: 0 <= j < l ==> b[j] != x && b[j] != y;
    assert Swapping(x, y)(a[k], b[k]);
    assert Swapping(x, y)(a[l], b[l]);
  }

  lemma HeadsPaired<T>(x: T, y: T, rest: seq<T>)
    ensures Paired(Swapping(x, y), [x, y] + rest, [y, x] + rest)
  {
  }

  lemma UntakenBefore<T(!new), K>(before: (T, T) -> bool, key: T -> Option<K>, list: seq<T>, sorted: seq<T>, x: T, k: nat)
    requires Unbeaten(before, key, list, x) && k <= |sorted|
    requires forall j :: 0 <= j < k ==> sorted[j] in list && before(sorted[j], x)
    ensures !Taken(key, FirstBy(key, sorted[..k]), key(x))
  {
    var front := sorted[..k];
    FirstByOf(key, front);
    forall z | z in FirstBy(key, front)
      ensures key(z) != key(x)
    {
      var j :| 0 <= j < k && sorted[j] == z;
    }
    TakenIs(key, FirstBy(key, front), key(x));
  }

  /**
   * Two that tie and are each unbeaten for their key, at the head of a list: what is kept has the first
   * of them, and the other in its place when they change places.
   */
  lemma HeadsSwap<T(!new), K(!new)>(before: (T, T) -> bool, key: T -> Option<K>, x: T, y: T, rest: seq<T>)
    requires Orders(before) && Tied(before, x, y) && x != y
    requires Unbeaten(before, key, [x, y] + rest, x) && Unbeaten(before, key, [x, y] + rest, y)
    ensures
      var a := FirstBy(key, SortBy(before, [x, y] + rest));
      x in a && Paired(Swapped(x, y), a, FirstBy(key, SortBy(before, [y, x] + rest)))
  {
    var first, second := [x, y] + rest, [y, x] + rest;
    var a, b := SortBy(before, first), SortBy(before, second);
    SwappingBlind(before, x, y);
    HeadsPaired(x, y, rest);
    SortPaired(before, Swapping(x, y), first, second);
    var k := HeadsSorted(before, x, y, rest);
    var l := HeadsSorted(before, y, x, rest);
    HeadsAlign(before, x, y, a, b, k, l);
    SortKeeps(before, first);
    SameElements(a, first);
    UntakenBefore(before, key, first, a, x, k);
    forall j | 0 <= j < k
      ensures before(a[j], y)
    {
      SameAgainst(before, x, y, a[j]);
    }
    UntakenBefore(before, key, first, a, y, k);
    TwoKept(key, x, y, a, b, k);
    TailsKept(key, x, y, a, b, k + 2, |a|);
    assert a[..|a|] == a && b[..|a|] == b;
  }

  lemma TwoKept<T(!new), K(!new)>(key: T -> Option<K>, x: T, y: T, a: seq<T>, b: seq<T>, k: nat)
    requires k + 1 < |a| && k + 1 < |b| && a[..k] == b[..k] && x !in a[..k] && y !in a[..k]
    requires a[k] == x && a[k + 1] == y && b[k] == y && b[k + 1] == x && x != y
    requires key(x).Some? && key(y).Some?
    requires !Taken(key, FirstBy(key, a[..k]), key(x)) && !Taken(key, FirstBy(key, a[..k]), key(y))
    ensures LeftSwapped(key, x, y, FirstBy(key, a[..k + 2]), FirstBy(key, b[..k + 2]))
  {
    var kept := FirstBy(key, a[..k]);
    FirstByOf(key, a[..k]);
    HeadsKept(key, kept, x, y);
    KeptNext(key, a, k);
    KeptNext(key, b, k);
    KeptNext(key, a, k + 1);
    KeptNext(key, b, k + 1);
    TakenMore(key, kept, x, key(y));
    TakenMore(key, kept, y, key(x));
  }

  // ---------------------------------------------------------------------- in any order

  lemma OneOut<T>(list: seq<T>, x: T) returns (rest: seq<T>)
    requires x in list
    ensures multiset(list) == multiset(rest) + multiset{x}
    ensures forall y :: y in list && y != x ==> y in rest
  {
    var i :| 0 <= i < |list| && list[i] == x;
    rest := list[..i] + list[i + 1..];
    assert list == list[..i] + [x] + list[i + 1..];
  }

  /** Two elements of a list, brought to its front. */
  lemma TwoInFront<T>(list: seq<T>, x: T, y: T) returns (rest: seq<T>)
    requires x in list && y in list && x != y
    ensures multiset([x, y] + rest) == multiset(list) && multiset([y, x] + rest) == multiset(list)
  {
    var others := OneOut(list, x);
    rest := OneOut(others, y);
  }

  lemma HeadsFiltered<T(!new)>(keep: T -> bool, x: T, y: T)
    requires keep(x) && keep(y)
    ensures Filter(keep, [x, y]) == [x, y]
  {
    FilterFront(keep, [], x);
    FilterFront(keep, [x], y);
    assert [] + [x] == [x] && [x] + [y] == [x, y];
  }

  lemma {:induction false} TwoFiltered<T(!new)>(keep: T -> bool, x: T, y: T, rest: seq<T>)
    requires keep(x) && keep(y)
    ensures Filter(keep, [x, y] + rest) == [x, y] + Filter(keep, rest)
    decreases |rest|
  {
    if rest == [] {
      HeadsFiltered(keep, x, y);
      assert [x, y] + rest == [x, y];
    } else {
      var front, z := rest[..|rest| - 1], rest[|rest| - 1];
      TwoFiltered(keep, x, y, front);
      LastOff(x, y, rest);
      FilterFront(keep, [x, y] + front, z);
    }
  }
}
