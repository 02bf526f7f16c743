/**
 What each kind of change adds, all of it: the items pushed by `applyOne`
 (platform/core/src/taxonomy-changes.ts:184-498), each after what there was.
 */
module TaxonomyAdditions {
  import opened Basics
  import opened Taxonomies
  import opened TaxonomyChanges
  import opened TaxonomySteps
  import Ordering

  function NewShelves(c: Change): seq<NewShelf> {
    match c
    case AddCategory(shelf) => [shelf]
    case AddSubcategory(_, shelf) => [shelf]
    case Split(_, children) => children
    case _ => []
  }

  /** The ID of the item a reference names, or none. */
  function NamedId(t: Taxonomy, subject: Subject, ref: Ref): Option<Id> {
    match LiveItem(t, subject, ref) case None => None case Some(p) => Some(At(t, p).id)
  }

  function NewParent(t: Taxonomy, c: Change): Option<Id> {
    match c
    case AddSubcategory(parent, _) => NamedId(t, ShelfSubject, parent)
    case Split(item, _) => NamedId(t, ShelfSubject, item)
    case _ => None
  }

  /** IDs are those of the items that references name. */
  ghost predicate AreNamed(t: Taxonomy, subject: Subject, refs: seq<Ref>, ids: seq<Id>) {
    |ids| == |refs| && forall k :: 0 <= k < |refs| ==> NamedId(t, subject, refs[k]) == Some(ids[k])
  }

  /** A live item with the words given for it and an ID made for it. */
  predicate IsEntry(item: Item, fields: NewItem, id: Id) {
    && item.id == id && item.slug == fields.slug && item.name == fields.name
    && item.description == fields.description && Live(item)
  }

  /** The order after those of a list: one more than the greatest, from 1. */
  ghost predicate NextAfter(items: seq<Item>, order: int) {
    && order >= 1
    && (forall k :: 0 <= k < |items| ==> items[k].sortOrder < order)
    && (order == 1 || exists k :: 0 <= k < |items| && items[k].sortOrder == order - 1)
  }

  ghost predicate NextUnder(shelves: seq<Shelf>, parentId: Option<Id>, order: int) {
    && order >= 1
    && (forall k :: 0 <= k < |shelves| && shelves[k].parentId == parentId ==> shelves[k].item.sortOrder < order)
    && (order == 1 || exists k :: 0 <= k < |shelves| && shelves[k].parentId == parentId && shelves[k].item.sortOrder == order - 1)
  }

  /** A shelf pushed for a change: its words, its category, what it implies, after the shelves then under it. */
  ghost predicate ShelfAdded(t: Taxonomy, parentId: Option<Id>, made: NewShelf, id: Id, shelves: seq<Shelf>, k: nat)
    requires k < |shelves|
  {
    && IsEntry(shelves[k].item, made.fields, id)
    && shelves[k].parentId == parentId
    && AreNamed(t, FunctionSubject, made.implies, shelves[k].implies)
    && NextUnder(shelves[..k], parentId, shelves[k].item.sortOrder)
  }

  ghost predicate AddsShelves(t: Taxonomy, d: Draw, u: Taxonomy) {
    var made, n := NewShelves(d.change), |t.shelves|;
    && |u.shelves| == n + |made|
    && forall k :: 0 <= k < |made| && k < |d.ids| ==> ShelfAdded(t, NewParent(t, d.change), made[k], d.ids[k], u.shelves, n + k)
  }

  ghost predicate AddsFunctions(t: Taxonomy, d: Draw, u: Taxonomy) {
    match d.change
    case AddFunction(fields) =>
      var n := |t.functions|;
      && |u.functions| == n + 1 && IsEntry(u.functions[n], fields, d.ids[0])
      && NextAfter(t.functions, u.functions[n].sortOrder)
    case _ => |u.functions| == |t.functions|
  }

  ghost predicate FeatureAdded(t: Taxonomy, d: Draw, feature: Feature)
    requires d.change.AddFeature?
  {
    && IsEntry(feature.item, d.change.fields, d.ids[0])
    && NextAfter(Ordering.FeatureItems(t.features), feature.item.sortOrder)
    && feature.cardinality == d.change.cardinality
    && AreNamed(t, ShelfSubject, d.change.shelves, feature.shelves)
    && |feature.values| == |d.change.values|
    && forall j :: 0 <= j < |feature.values| ==>
         IsEntry(feature.values[j], d.change.values[j], d.ids[1 + j]) && feature.values[j].sortOrder == j + 1
  }

  ghost predicate AddsFeatures(t: Taxonomy, d: Draw, u: Taxonomy) {
    if d.change.AddFeature? then |u.features| == |t.features| + 1 && FeatureAdded(t, d, u.features[|t.features|])
    else |u.features| == |t.features|
  }

  ghost predicate AddsValues(t: Taxonomy, d: Draw, u: Taxonomy) {
    forall i :: 0 <= i < |t.features| && i < |u.features| ==>
      var was, now := t.features[i].values, u.features[i].values;
      if d.change.AddValue? && LiveItem(t, FeatureSubject, d.change.feature) == Some(AtFeature(i)) then
        && |now| == |was| + 1 && IsEntry(now[|was|], d.change.fields, d.ids[0])
        && NextAfter(was, now[|was|].sortOrder)
      else |now| == |was|
  }

  /** Everything a change adds, after what there was. */
  ghost predicate Adds(t: Taxonomy, d: Draw, u: Taxonomy) {
    AddsShelves(t, d, u) && AddsFunctions(t, d, u) && AddsFeatures(t, d, u) && AddsValues(t, d, u)
  }

  lemma {:induction false} MostShelfIs(shelves: seq<Shelf>, parentId: Option<Id>)
    ensures NextUnder(shelves, parentId, NextShelfPlace(shelves, parentId))
  {
    if shelves != [] {
      var front := shelves[..|shelves| - 1];
      MostShelfIs(front, parentId);
      var most := MostShelfOrder(front, parentId);
      if most != 0 {
        var k :| 0 <= k < |front| && front[k].parentId == parentId && front[k].item.sortOrder == most;
        assert shelves[k] == front[k];
      }
    }
  }

  lemma {:induction false} MostIs(items: seq<Item>)
    ensures NextAfter(items, MostOrder(items) + 1)
  {
    if items != [] {
      var front := items[..|items| - 1];
      MostIs(front);
      if MostOrder(front) != 0 {
        var k :| 0 <= k < |front| && front[k].sortOrder == MostOrder(front);
        assert items[k] == front[k];
      }
    }
  }

  lemma NamedLive(t: Taxonomy, subject: Subject, refs: seq<Ref>)
    requires LiveIds(t, subject, refs).Some?
    ensures AreNamed(t, subject, refs, LiveIds(t, subject, refs).value)
  {
  }

  lemma PushAdds(t: Taxonomy, fields: NewItem, parentId: Option<Id>, refs: seq<Ref>, id: Id)
    requires LiveIds(t, FunctionSubject, refs).Some?
    ensures
      var u := PushShelf(t, fields, parentId, LiveIds(t, FunctionSubject, refs).value, id);
      ShelfAdded(t, parentId, NewShelf(fields, refs), id, u.shelves, |t.shelves|)
  {
    var u := PushShelf(t, fields, parentId, LiveIds(t, FunctionSubject, refs).value, id);
    MostShelfIs(t.shelves, parentId);
    NamedLive(t, FunctionSubject, refs);
    assert u.shelves[..|t.shelves|] == t.shelves;
  }

  lemma AddedLater(t: Taxonomy, u: Taxonomy, parentId: Option<Id>, made: NewShelf, id: Id, shelves: seq<Shelf>, more: seq<Shelf>, k: nat)
    requires u == t.(shelves := u.shelves) && k < |shelves| <= |more| && more[..|shelves|] == shelves
    requires ShelfAdded(u, parentId, made, id, shelves, k)
    ensures ShelfAdded(t, parentId, made, id, more, k)
  {
    assert more[..k] == shelves[..k] && more[k] == shelves[k];
    forall j | 0 <= j < |made.implies|
      ensures NamedId(t, FunctionSubject, made.implies[j]) == NamedId(u, FunctionSubject, made.implies[j])
    {
    }
  }

  ghost predicate ChildrenAre(
      t: Taxonomy, parentId: Option<Id>, children: seq<NewShelf>, ids: seq<Id>, shelves: seq<Shelf>, n: nat)
  {
    && |ids| == |children| && |shelves| == n + |children|
    && forall k :: 0 <= k < |children| ==> ShelfAdded(t, parentId, children[k], ids[k], shelves, n + k)
  }

  lemma OneChildMore(
      t: Taxonomy, u: Taxonomy, parentId: Option<Id>, children: seq<NewShelf>, ids: seq<Id>, shelves: seq<Shelf>, n: nat)
    requires u == t.(shelves := u.shelves) && |ids| == |children| > 0 && n < |shelves|
    requires ShelfAdded(t, parentId, children[0], ids[0], shelves, n)
    requires ChildrenAre(u, parentId, children[1..], ids[1..], shelves, n + 1)
    ensures ChildrenAre(t, parentId, children, ids, shelves, n)
  {
    forall k | 0 <= k < |children|
      ensures ShelfAdded(t, parentId, children[k], ids[k], shelves, n + k)
    {
      if k > 0 {
        assert ShelfAdded(u, parentId, children[1..][k - 1], ids[1..][k - 1], shelves, n + 1 + (k - 1));
        AddedLater(t, u, parentId, children[k], ids[k], shelves, shelves, n + k);
      }
    }
  }

  lemma {:induction false} ChildrenAdded(t: Taxonomy, parentId: Id, children: seq<NewShelf>, ids: seq<Id>)
    requires |children| == |ids| && PushChildren(t, parentId, children, ids).Some?
    ensures ChildrenAre(t, Some(parentId), children, ids, PushChildren(t, parentId, children, ids).value.0.shelves, |t.shelves|)
    decreases |children|
  {
    if children != [] {
      var fns := LiveIds(t, FunctionSubject, children[0].implies).value;
      var pushed := PushShelf(t, children[0].fields, Some(parentId), fns, ids[0]);
      ChildrenAdded(pushed, parentId, children[1..], ids[1..]);
      PushChildrenShape(pushed, parentId, children[1..], ids[1..]);
      FirstChildAdded(t, pushed, parentId, children, ids, fns, PushChildren(pushed, parentId, children[1..], ids[1..]).value.0.shelves);
    }
  }

  lemma FirstChildAdded(
      t: Taxonomy, pushed: Taxonomy, parentId: Id, children: seq<NewShelf>, ids: seq<Id>, fns: seq<Id>, shelves: seq<Shelf>)
    requires |ids| == |children| > 0 && LiveIds(t, FunctionSubject, children[0].implies) == Some(fns)
    requires pushed == PushShelf(t, children[0].fields, Some(parentId), fns, ids[0])
    requires |pushed.shelves| <= |shelves| && pushed.shelves == shelves[..|pushed.shelves|]
    requires ChildrenAre(pushed, Some(parentId), children[1..], ids[1..], shelves, |pushed.shelves|)
    ensures ChildrenAre(t, Some(parentId), children, ids, shelves, |t.shelves|)
  {
    PushAdds(t, children[0].fields, Some(parentId), children[0].implies, ids[0]);
    AddedLater(t, t, Some(parentId), children[0], ids[0], pushed.shelves, shelves, |t.shelves|);
    OneChildMore(t, pushed, Some(parentId), children, ids, shelves, |t.shelves|);
  }

  lemma ShelvesAdded(t: Taxonomy, d: Draw)
    requires d.change.AddCategory? || d.change.AddSubcategory?
    requires ApplyOne(t, d).Done?
    ensures Adds(t, d, ApplyOne(t, d).next)
  {
    var made := NewShelves(d.change)[0];
    PushAdds(t, made.fields, NewParent(t, d.change), made.implies, d.ids[0]);
  }

  lemma SplitAdds(t: Taxonomy, d: Draw)
    requires d.change.Split? && ApplyOne(t, d).Done?
    ensures Adds(t, d, ApplyOne(t, d).next)
  {
    var id := At(t, LiveItem(t, ShelfSubject, d.change.item).value).id;
    ChildrenAdded(t, id, d.change.children, d.ids);
    PushChildrenShape(t, id, d.change.children, d.ids);
  }

  lemma FeatureAdds(t: Taxonomy, d: Draw)
    requires d.change.AddFeature? && ApplyOne(t, d).Done?
    ensures Adds(t, d, ApplyOne(t, d).next)
  {
    MostIs(Ordering.FeatureItems(t.features));
    NamedLive(t, ShelfSubject, d.change.shelves);
  }

  lemma ValueAdds(t: Taxonomy, d: Draw)
    requires d.change.AddValue? && ApplyOne(t, d).Done?
    ensures Adds(t, d, ApplyOne(t, d).next)
  {
    MostIs(t.features[LiveItem(t, FeatureSubject, d.change.feature).value.i].values);
  }

  lemma FunctionAdds(t: Taxonomy, d: Draw)
    requires d.change.AddFunction? && ApplyOne(t, d).Done?
    ensures Adds(t, d, ApplyOne(t, d).next)
  {
    MostIs(t.functions);
  }

  ghost predicate SameCounts(t: Taxonomy, u: Taxonomy) {
    && |u.shelves| == |t.shelves| && |u.functions| == |t.functions| && |u.features| == |t.features|
    && forall i :: 0 <= i < |t.features| ==> |u.features[i].values| == |t.features[i].values|
  }

  lemma PutCounts(t: Taxonomy, p: Pos, item: Item)
    requires Has(t, p)
    ensures SameCounts(t, Put(t, p, item)) && Has(Put(t, p, item), p)
  {
  }

  lemma RetireCounts(t: Taxonomy, p: Pos)
    requires Has(t, p)
    ensures SameCounts(t, RetireAt(t, p))
  {
    PutCounts(t, p, At(t, p).(retiredIn := Some(t.version)));
  }

  lemma RestoreCounts(t: Taxonomy, p: Pos)
    requires Has(t, p)
    ensures SameCounts(t, RestoreAt(t, p))
  {
    PutCounts(t, p, At(t, p).(retiredIn := None));
  }

  lemma GoingCounts(t: Taxonomy, d: Draw)
    requires d.change.Merge? || d.change.Retire? || d.change.Restore?
    requires ApplyOne(t, d).Done?
    ensures SameCounts(t, ApplyOne(t, d).next)
  {
    match d.change
    case Merge(subject, from, _) =>
      var p := LiveItem(t, subject, from).value;
      PutCounts(t, p, At(t, p).(retiredIn := Some(t.version)));
    case Retire(subject, item) => RetireCounts(t, LiveItem(t, subject, item).value);
    case Restore(subject, item) => RestoreCounts(t, Find(t, subject, item).value);
  }

  lemma WordsCounts(t: Taxonomy, d: Draw)
    requires d.change.Describe? || d.change.Rename? || d.change.Implies? || d.change.Scope? || d.change.Move?
    requires ApplyOne(t, d).Done?
    ensures SameCounts(t, ApplyOne(t, d).next)
  {
    match d.change
    case Describe(subject, item, description) =>
      var p := LiveItem(t, subject, item).value;
      PutCounts(t, p, At(t, p).(description := description));
    case Rename(subject, item, name, slug) =>
      var p := LiveItem(t, subject, item).value;
      PutCounts(t, p, At(t, p).(name := name, slug := if slug.Some? then slug.value else At(t, p).slug));
    case _ =>
  }

  /** A change that makes no ID adds nothing. */
  lemma NothingAdded(t: Taxonomy, d: Draw)
    requires Makes(d.change) == 0 && !d.change.Split? && ApplyOne(t, d).Done?
    ensures Adds(t, d, ApplyOne(t, d).next)
  {
    if d.change.Merge? || d.change.Retire? || d.change.Restore? {
      GoingCounts(t, d);
    } else {
      WordsCounts(t, d);
    }
    CountsAdd(t, d, ApplyOne(t, d).next);
  }

  lemma CountsAdd(t: Taxonomy, d: Draw, u: Taxonomy)
    requires Makes(d.change) == 0 && !d.change.Split? && SameCounts(t, u)
    ensures Adds(t, d, u)
  {
  }

  lemma ChangeAdds(t: Taxonomy, d: Draw)
    requires ApplyOne(t, d).Done?
    ensures Adds(t, d, ApplyOne(t, d).next)
  {
    match d.change
    case AddCategory(_) => ShelvesAdded(t, d);
    case AddSubcategory(_, _) => ShelvesAdded(t, d);
    case AddFunction(_) => FunctionAdds(t, d);
    case AddFeature(_, _, _, _) => FeatureAdds(t, d);
    case AddValue(_, _) => ValueAdds(t, d);
    case Split(_, _) => SplitAdds(t, d);
    case _ => NothingAdded(t, d);
  }
}
