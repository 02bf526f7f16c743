/**
 Order: siblings in their order (`bySortOrder`, platform/core/src/taxonomy.ts:120-124), and lists filtered
 and sorted by it. A filtered and sorted list is kept as the places of its items in the list it came from.
 */
module Ordering {
  import opened Basics
  import opened Taxonomies
  import opened Sorting

  /** `bySortOrder(a, b) < 0` */
  predicate Before(a: Item, b: Item) {
    a.sortOrder < b.sortOrder || (a.sortOrder == b.sortOrder && TextLess(a.slug, b.slug))
  }

  lemma BeforeTrans(a: Item, b: Item, c: Item)
    ensures !Before(b, a) && !Before(c, b) ==> !Before(c, a)
    ensures Before(a, b) && !Before(c, b) ==> !Before(c, a)
    ensures !(Before(a, b) && Before(b, a))
  {
    TextLessTotal(a.slug, b.slug);
    TextLessTotal(b.slug, c.slug);
    TextLessTotal(a.slug, c.slug);
    if TextLess(a.slug, b.slug) && TextLess(b.slug, c.slug) {
      TextLessTrans(a.slug, b.slug, c.slug);
    }
    if TextLess(c.slug, a.slug) && TextLess(a.slug, b.slug) {
      TextLessTrans(c.slug, a.slug, b.slug);
    }
    if TextLess(b.slug, c.slug) && TextLess(c.slug, a.slug) {
      TextLessTrans(b.slug, c.slug, a.slug);
    }
  }

  ghost predicate Rising(s: seq<nat>) {
    forall i, j :: 0 <= i < j < |s| ==> s[i] < s[j]
  }

  predicate InRange(places: seq<nat>, n: nat) {
    forall k :: 0 <= k < |places| ==> places[k] < n
  }

  /** `filter`, as the places kept of a list's first `n`, in order. */
  function Chosen(keep: nat -> bool, n: nat): (kept: seq<nat>)
    ensures InRange(kept, n)
  {
    if n == 0 then []
    else if keep(n - 1) then Chosen(keep, n - 1) + [n - 1]
    else Chosen(keep, n - 1)
  }

  lemma {:induction false} ChosenAre(keep: nat -> bool, n: nat)
    ensures Rising(Chosen(keep, n)) && NoRepeats(Chosen(keep, n))
    ensures forall k: nat :: k in Chosen(keep, n) <==> k < n && keep(k)
  {
    if n > 0 {
      ChosenAre(keep, n - 1);
    }
  }

  lemma HoldsSomething(list: seq<nat>)
    ensures list != [] ==> exists k: nat :: k in list
  {
    if list != [] {
      assert list[0] in list;
    }
  }

  /** Two lists of places that rise and hold the same are the same. */
  lemma {:induction false} RisingUnique(a: seq<nat>, b: seq<nat>)
    requires Rising(a) && Rising(b) && forall k: nat :: k in a <==> k in b
    ensures a == b
  {
    if a == [] || b == [] {
      HoldsSomething(a);
      HoldsSomething(b);
    } else {
      var x, y := a[|a| - 1], b[|b| - 1];
      assert x in b && y in a;
      assert x == y;
      var before, after := a[..|a| - 1], b[..|b| - 1];
      assert a == before + [x] && b == after + [x];
      forall k: nat | k in before
        ensures k in after
      {
        assert k in a && k in b && k != x;
      }
      forall k: nat | k in after
        ensures k in before
      {
        assert k in b && k in a && k != x;
      }
      RisingUnique(before, after);
    }
  }

  /** Where the next item goes in a sorted list: after every one it doesn't come before. */
  function Insert(items: seq<Item>, sorted: seq<nat>, x: nat): (r: seq<nat>)
    requires InRange(sorted, |items|) && x < |items|
    ensures InRange(r, |items|) && |r| == |sorted| + 1
  {
    if sorted != [] && Before(items[x], items[sorted[|sorted| - 1]]) then
      Insert(items, sorted[..|sorted| - 1], x) + [sorted[|sorted| - 1]]
    else sorted + [x]
  }

  lemma {:induction false} InsertHolds(items: seq<Item>, sorted: seq<nat>, x: nat)
    requires InRange(sorted, |items|) && x < |items|
    ensures forall y: nat :: y in Insert(items, sorted, x) <==> y in sorted || y == x
    ensures NoRepeats(sorted) && x !in sorted ==> NoRepeats(Insert(items, sorted, x))
  {
    if sorted != [] && Before(items[x], items[sorted[|sorted| - 1]]) {
      var front, last := sorted[..|sorted| - 1], sorted[|sorted| - 1];
      assert sorted == front + [last];
      assert NoRepeats(sorted) ==> last !in front && NoRepeats(front);
      InsertHolds(items, front, x);
    }
  }

  /** `sort(bySortOrder)` on some of a list's items. */
  function Sorted(items: seq<Item>, places: seq<nat>): (r: seq<nat>)
    requires InRange(places, |items|)
    ensures InRange(r, |items|) && |r| == |places|
  {
    if places == [] then []
    else Insert(items, Sorted(items, places[..|places| - 1]), places[|places| - 1])
  }

  lemma {:induction false} SortedHolds(items: seq<Item>, places: seq<nat>)
    requires InRange(places, |items|)
    ensures forall y: nat :: y in Sorted(items, places) <==> y in places
    ensures NoRepeats(places) ==> NoRepeats(Sorted(items, places))
  {
    if places != [] {
      var front, last := places[..|places| - 1], places[|places| - 1];
      assert places == front + [last];
      SortedHolds(items, front);
      InsertHolds(items, Sorted(items, front), last);
    }
  }

  ghost predicate InOrder(items: seq<Item>, places: seq<nat>)
    requires InRange(places, |items|)
  {
    forall i, j :: 0 <= i < j < |places| ==> !Before(items[places[j]], items[places[i]])
  }

  lemma {:induction false} InsertInOrder(items: seq<Item>, sorted: seq<nat>, x: nat)
    requires InRange(sorted, |items|) && x < |items| && InOrder(items, sorted)
    ensures InOrder(items, Insert(items, sorted, x))
  {
    if sorted == [] {
    } else {
      var front, last := sorted[..|sorted| - 1], sorted[|sorted| - 1];
      if Before(items[x], items[last]) {
        InsertInOrder(items, front, x);
        InsertHolds(items, front, x);
        var r := Insert(items, front, x);
        forall i | 0 <= i < |r|
          ensures !Before(items[last], items[r[i]])
        {
          assert r[i] in r;
          assert r[i] in front || r[i] == x;
          BeforeTrans(items[x], items[last], items[x]);
        }
      } else {
        forall i | 0 <= i < |sorted|
          ensures !Before(items[x], items[sorted[i]])
        {
          BeforeTrans(items[sorted[i]], items[last], items[x]);
        }
      }
    }
  }

  /** Sorting puts items in their order. */
  lemma {:induction false} SortedInOrder(items: seq<Item>, places: seq<nat>)
    requires InRange(places, |items|)
    ensures InOrder(items, Sorted(items, places))
  {
    if places != [] {
      SortedInOrder(items, places[..|places| - 1]);
      InsertInOrder(items, Sorted(items, places[..|places| - 1]), places[|places| - 1]);
    }
  }

  /** Items in their order stay as they are. */
  lemma {:induction false} SortedAlready(items: seq<Item>, places: seq<nat>)
    requires InRange(places, |items|) && InOrder(items, places)
    ensures Sorted(items, places) == places
  {
    if places != [] {
      SortedAlready(items, places[..|places| - 1]);
      assert places == places[..|places| - 1] + [places[|places| - 1]];
    }
  }

  // ---------------------------------------------------------------------- the taxonomy's lists, in order

  function ShelfItems(shelves: seq<Shelf>): (items: seq<Item>)
    ensures |items| == |shelves|
    ensures forall i :: 0 <= i < |items| ==> items[i] == shelves[i].item
  {
    seq(|shelves|, i requires 0 <= i < |shelves| => shelves[i].item)
  }

  function FeatureItems(features: seq<Feature>): (items: seq<Item>)
    ensures |items| == |features|
    ensures forall i :: 0 <= i < |items| ==> items[i] == features[i].item
  {
    seq(|features|, i requires 0 <= i < |features| => features[i].item)
  }

  /** `list.filter(...).sort(bySortOrder)` */
  function ChosenInOrder(items: seq<Item>, keep: nat -> bool): (places: seq<nat>)
    ensures InRange(places, |items|)
  {
    Sorted(items, Chosen(keep, |items|))
  }

  /** Which items are filtered and sorted: those kept, each once. */
  lemma ChosenInOrderAre(items: seq<Item>, keep: nat -> bool)
    ensures NoRepeats(ChosenInOrder(items, keep))
    ensures forall k: nat :: k in ChosenInOrder(items, keep) <==> k < |items| && keep(k)
    ensures InOrder(items, ChosenInOrder(items, keep))
  {
    ChosenAre(keep, |items|);
    SortedHolds(items, Chosen(keep, |items|));
    SortedInOrder(items, Chosen(keep, |items|));
  }

  /** Choosing by two tests that agree on every place is choosing the same. */
  lemma ChosenAlike(items: seq<Item>, keep: nat -> bool, other: nat -> bool)
    requires forall k: nat :: k < |items| ==> keep(k) == other(k)
    ensures ChosenInOrder(items, keep) == ChosenInOrder(items, other)
  {
    ChosenAre(keep, |items|);
    ChosenAre(other, |items|);
    RisingUnique(Chosen(keep, |items|), Chosen(other, |items|));
  }

  /** A list whose kept items are in their order already is only filtered. */
  lemma ChosenInOrderIs(items: seq<Item>, keep: nat -> bool, places: seq<nat>)
    requires InRange(places, |items|) && Rising(places) && InOrder(items, places)
    requires forall k: nat :: k in places <==> k < |items| && keep(k)
    ensures ChosenInOrder(items, keep) == places
  {
    ChosenAre(keep, |items|);
    RisingUnique(Chosen(keep, |items|), places);
    SortedAlready(items, places);
  }

  /** `list.filter(isLive).sort(bySortOrder)` */
  function LiveInOrder(items: seq<Item>): (places: seq<nat>)
    ensures InRange(places, |items|)
  {
    ChosenInOrder(items, (k: nat) => k < |items| && Live(items[k]))
  }

  lemma LiveInOrderAre(items: seq<Item>)
    ensures NoRepeats(LiveInOrder(items))
    ensures forall k: nat :: k in LiveInOrder(items) <==> k < |items| && Live(items[k])
  {
    ChosenInOrderAre(items, (k: nat) => k < |items| && Live(items[k]));
  }

  lemma LiveInOrderIs(items: seq<Item>, places: seq<nat>)
    requires InRange(places, |items|) && Rising(places) && InOrder(items, places)
    requires forall k: nat :: k in places <==> k < |items| && Live(items[k])
    ensures LiveInOrder(items) == places
  {
    ChosenInOrderIs(items, (k: nat) => k < |items| && Live(items[k]), places);
  }

  /** The live shelves under a parent, in order: the categories are those under none. */
  function LiveUnder(t: Taxonomy, parentId: Option<Id>): (places: seq<nat>)
    ensures InRange(places, |t.shelves|)
  {
    ChosenInOrder(ShelfItems(t.shelves), (k: nat) => IsUnder(t, parentId, k))
  }

  predicate IsUnder(t: Taxonomy, parentId: Option<Id>, k: nat) {
    k < |t.shelves| && t.shelves[k].parentId == parentId && Live(t.shelves[k].item)
  }

  lemma LiveUnderAre(t: Taxonomy, parentId: Option<Id>)
    ensures NoRepeats(LiveUnder(t, parentId))
    ensures forall k: nat :: k in LiveUnder(t, parentId) <==> IsUnder(t, parentId, k)
  {
    ChosenInOrderAre(ShelfItems(t.shelves), (k: nat) => IsUnder(t, parentId, k));
  }

  lemma LiveUnderIs(t: Taxonomy, parentId: Option<Id>, places: seq<nat>)
    requires InRange(places, |t.shelves|) && Rising(places) && InOrder(ShelfItems(t.shelves), places)
    requires forall k: nat :: k in places <==> IsUnder(t, parentId, k)
    ensures LiveUnder(t, parentId) == places
  {
    ChosenInOrderIs(ShelfItems(t.shelves), (k: nat) => IsUnder(t, parentId, k), places);
  }

  /** `categoriesOf`: the live categories, in order. */
  function CategoriesOf(t: Taxonomy): (places: seq<nat>)
    ensures InRange(places, |t.shelves|)
  {
    LiveUnder(t, None)
  }

  /** `subcategoriesOf`: a category's live subcategories, in order. */
  function SubcategoriesOf(t: Taxonomy, categoryId: Id): (places: seq<nat>)
    ensures InRange(places, |t.shelves|)
  {
    LiveUnder(t, Some(categoryId))
  }

  /** `categoryOf`: the place of the shelf's category, which is its own for a category. */
  function CategoryOf(t: Taxonomy, shelfId: Id): (category: Option<nat>)
    ensures category.Some? ==> category.value < |t.shelves|
  {
    match Find(t, ShelfSubject, ById(shelfId))
    case None => None
    case Some(p) =>
      match t.shelves[p.i].parentId
      case None => Some(p.i)
      case Some(parentId) =>
        match Find(t, ShelfSubject, ById(parentId)) case Some(q) => Some(q.i) case None => None
  }

  /** Whether a live feature lists a shelf or its category. */
  predicate OnShelf(t: Taxonomy, feature: Feature, shelfId: Id) {
    && Live(feature.item)
    && (|| shelfId in feature.shelves
        || (var c := CategoryOf(t, shelfId); c.Some? && t.shelves[c.value].item.id in feature.shelves))
  }

  /** `featuresFor`: the live features on a shelf, in order. */
  function FeaturesFor(t: Taxonomy, shelfId: Id): (places: seq<nat>)
    ensures InRange(places, |t.features|)
  {
    ChosenInOrder(FeatureItems(t.features), (k: nat) => k < |t.features| && OnShelf(t, t.features[k], shelfId))
  }

  lemma FeaturesForAre(t: Taxonomy, shelfId: Id)
    ensures NoRepeats(FeaturesFor(t, shelfId))
    ensures forall k: nat :: k in FeaturesFor(t, shelfId) <==>
      k < |t.features| && OnShelf(t, t.features[k], shelfId)
  {
    ChosenInOrderAre(FeatureItems(t.features), (k: nat) => k < |t.features| && OnShelf(t, t.features[k], shelfId));
  }

  /** `impliedFunctions`: the live functions a shelf implies. */
  function ImpliedFunctions(t: Taxonomy, shelfId: Id): (ids: seq<Id>)
    ensures forall id :: id in ids ==> exists k :: 0 <= k < |t.functions| && t.functions[k].id == id && Live(t.functions[k])
  {
    match Find(t, ShelfSubject, ById(shelfId))
    case None => []
    case Some(p) => LiveFunctionsAmong(t, t.shelves[p.i].implies)
  }

  function LiveFunctionsAmong(t: Taxonomy, ids: seq<Id>): (live: seq<Id>)
    ensures forall id :: id in live <==>
      id in ids && exists k :: 0 <= k < |t.functions| && t.functions[k].id == id && Live(t.functions[k])
  {
    if ids == [] then []
    else
      var rest := LiveFunctionsAmong(t, ids[1..]);
      if exists k :: 0 <= k < |t.functions| && t.functions[k].id == ids[0] && Live(t.functions[k])
      then [ids[0]] + rest else rest
  }
}
