/**
 What an undo leaves is linked as it should be: what shelves and features link to stays listed whatever the undo
 does, and is live again where it was.
 */
module TaxonomyLinks {
  import opened Basics
  import opened Taxonomies
  import opened TaxonomyChanges
  import opened TaxonomySteps
  import opened TaxonomyForwarding
  import opened TaxonomyUndoBatch
  import opened TaxonomyEffects

  /** The changes an undo is made of. */
  predicate Undoing(d: Draw) {
    d.ids == [] && !d.change.Merge? && !d.change.Split? && !d.change.AddFeature?
  }

  lemma MoveGuards(s: Taxonomy, d: Draw)
    requires ApplyOne(s, d).Done? && d.change.Move?
    ensures
      var p, q := LiveItem(s, ShelfSubject, d.change.item), LiveItem(s, ShelfSubject, d.change.parent);
      && p.Some? && q.Some?
      && s.shelves[p.value.i].parentId != None && s.shelves[q.value.i].parentId == None
  {
  }

  /** What is linked to is listed, and a parent is a category. */
  ghost predicate LinksThere(t: Taxonomy) {
    && (forall i :: 0 <= i < |t.shelves| ==> ParentThere(t, t.shelves[i]) && ImpliesThere(t, t.shelves[i]))
    && (forall i :: 0 <= i < |t.features| ==> ShelvesThere(t, t.features[i]))
  }

  predicate ParentThere(t: Taxonomy, shelf: Shelf) {
    match shelf.parentId
    case None => true
    case Some(parentId) =>
      match Find(t, ShelfSubject, ById(parentId))
      case None => false
      case Some(p) => t.shelves[p.i].parentId == None && parentId != shelf.item.id
  }

  predicate ImpliesThere(t: Taxonomy, shelf: Shelf) {
    forall k :: 0 <= k < |shelf.implies| ==> Find(t, FunctionSubject, ById(shelf.implies[k])).Some?
  }

  predicate ShelvesThere(t: Taxonomy, feature: Feature) {
    forall k :: 0 <= k < |feature.shelves| ==> Find(t, ShelfSubject, ById(feature.shelves[k])).Some?
  }

  lemma ParentThereStep(t: Taxonomy, d: Draw, u: Taxonomy, i: nat)
    requires LinksThere(t) && UniqueIds(t) && UniqueIds(u) && ApplyOne(t, d).Done? && u == ApplyOne(t, d).next
    requires Effects(t, d.change, u) && Embeds(t, u) && i < |t.shelves| && i < |u.shelves|
    ensures ParentThere(u, u.shelves[i])
  {
    assert Has(t, AtShelf(i)) && LeftAs(t, d.change, u, AtShelf(i)) && ParentThere(t, t.shelves[i]);
    if d.change.Move? {
      MoveGuards(t, d);
    }
    var parentId := ParentAfter(t, d.change, i);
    if parentId.Some? {
      var p := if parentId == t.shelves[i].parentId then Find(t, ShelfSubject, ById(parentId.value)).value
               else LiveItem(t, ShelfSubject, d.change.parent).value;
      assert Has(t, p) && At(t, p).id == parentId.value && LeftAs(t, d.change, u, p);
      FindAt(u, p);
    }
  }

  lemma ImpliesThereStep(t: Taxonomy, d: Draw, u: Taxonomy, i: nat)
    requires LinksThere(t) && UniqueIds(u) && ApplyOne(t, d).Done? && u == ApplyOne(t, d).next
    requires Effects(t, d.change, u) && Embeds(t, u) && i < |t.shelves| && i < |u.shelves|
    ensures ImpliesThere(u, u.shelves[i])
  {
    assert Has(t, AtShelf(i)) && ImpliesThere(t, t.shelves[i]);
    var fns := u.shelves[i].implies;
    forall k | 0 <= k < |fns|
      ensures Find(u, FunctionSubject, ById(fns[k])).Some?
    {
      var p := if fns == t.shelves[i].implies then Find(t, FunctionSubject, ById(fns[k])).value
               else LiveItem(t, FunctionSubject, d.change.implies[k]).value;
      assert Has(t, p) && At(t, p).id == fns[k] && Has(u, p);
      FindAt(u, p);
    }
  }

  lemma LinksThereStep(t: Taxonomy, d: Draw)
    requires LinksThere(t) && UniqueIds(t) && ApplyOne(t, d).Done? && UniqueIds(ApplyOne(t, d).next) && Undoing(d)
    ensures LinksThere(ApplyOne(t, d).next)
  {
    var u := ApplyOne(t, d).next;
    StepShape(t, d);
    ChangeDoes(t, d);
    forall i | 0 <= i < |u.shelves|
      ensures ParentThere(u, u.shelves[i]) && ImpliesThere(u, u.shelves[i])
    {
      assert Has(u, AtShelf(i)) && Has(t, AtShelf(i));
      ParentThereStep(t, d, u, i);
      ImpliesThereStep(t, d, u, i);
    }
    forall i, k | 0 <= i < |u.features| && 0 <= k < |u.features[i].shelves|
      ensures Find(u, ShelfSubject, ById(u.features[i].shelves[k])).Some?
    {
      assert Has(u, AtFeature(i)) && Has(t, AtFeature(i)) && ShelvesThere(t, t.features[i]);
      FindKept(t, u, ShelfSubject, t.features[i].shelves[k]);
    }
  }

  lemma {:induction false} LinksThereAll(t: Taxonomy, draws: seq<Draw>)
    requires LinksThere(t) && ApplyAll(t, draws).BatchDone? && UniqueIds(ApplyAll(t, draws).next)
    requires forall k :: 0 <= k < |draws| ==> Undoing(draws[k])
    ensures LinksThere(ApplyAll(t, draws).next)
    decreases |draws|
  {
    if draws != [] {
      var next := ApplyOne(t, draws[0]).next;
      EmbedsAll(next, draws[1..]);
      EmbedsKeepsUnique(next, ApplyAll(next, draws[1..]).next);
      StepShape(t, draws[0]);
      EmbedsKeepsUnique(t, next);
      LinksThereStep(t, draws[0]);
      LinksThereAll(next, draws[1..]);
    }
  }

  lemma ValidLinks(n: Taxonomy)
    requires Valid(n)
    ensures LinksThere(NewVersion(n))
  {
    FindNewVersion(n);
    var m := NewVersion(n);
    forall i | 0 <= i < |m.shelves|
      ensures ParentThere(m, m.shelves[i]) && ImpliesThere(m, m.shelves[i])
    {
      assert ParentFits(n, n.shelves[i]) && ImpliesFit(n, n.shelves[i]);
    }
    forall i | 0 <= i < |m.features|
      ensures ShelvesThere(m, m.features[i])
    {
      assert FeatureFits(n, n.features[i]);
    }
  }

  /** What is live again is linked to what is live again. */
  lemma LinksLive(t: Taxonomy, u: Taxonomy, moved: set<Id>, i: nat)
    requires Valid(t) && UniqueIds(u) && LinksThere(u) && Undone(t, u, moved) && Embeds(t, u) && i < |u.shelves|
    ensures ParentFits(u, u.shelves[i]) && ImpliesFit(u, u.shelves[i])
  {
    assert Has(u, AtShelf(i)) && ParentThere(u, u.shelves[i]) && ImpliesThere(u, u.shelves[i]);
    if Live(u.shelves[i].item) {
      assert Has(t, AtShelf(i)) && ParentFits(t, t.shelves[i]) && ImpliesFit(t, t.shelves[i]);
      if u.shelves[i].parentId.Some? {
        FindKept(t, u, ShelfSubject, u.shelves[i].parentId.value);
      }
      forall k | 0 <= k < |u.shelves[i].implies|
        ensures Live(At(u, Find(u, FunctionSubject, ById(u.shelves[i].implies[k])).value))
      {
        FindKept(t, u, FunctionSubject, u.shelves[i].implies[k]);
      }
    }
  }

  lemma FeatureLive(t: Taxonomy, u: Taxonomy, moved: set<Id>, i: nat)
    requires Valid(t) && LinksThere(u) && Undone(t, u, moved) && i < |u.features|
    ensures FeatureFits(u, u.features[i])
  {
    assert Has(u, AtFeature(i)) && ShelvesThere(u, u.features[i]);
    if Live(u.features[i].item) {
      assert Has(t, AtFeature(i)) && FeatureFits(t, t.features[i]);
      var j :| 0 <= j < |t.features[i].values| && Live(t.features[i].values[j]);
      assert Has(t, AtValue(i, j)) && Live(At(u, AtValue(i, j)));
    }
  }

  lemma ShelvesBack(t: Taxonomy, u: Taxonomy, moved: set<Id>)
    requires Valid(t) && UniqueIds(u) && LinksThere(u) && Undone(t, u, moved) && Embeds(t, u)
    requires forall i :: 0 <= i < |u.shelves| ==> u.shelves[i].item.slug != NONE_SHELF
    ensures ShelvesFit(u)
  {
    assert |t.shelves| <= |u.shelves| by {
      if |t.shelves| > 0 {
        assert Has(t, AtShelf(|t.shelves| - 1));
      }
    }
    forall i | 0 <= i < |u.shelves|
      ensures i < |t.shelves| ==> Live(u.shelves[i].item) == Live(t.shelves[i].item)
      ensures |t.shelves| <= i ==> !Live(u.shelves[i].item)
      ensures ParentFits(u, u.shelves[i]) && ImpliesFit(u, u.shelves[i])
    {
      assert Has(u, AtShelf(i));
      assert i < |t.shelves| ==> Has(t, AtShelf(i));
      LinksLive(t, u, moved, i);
    }
    LiveShelvesCount(t.shelves, u.shelves);
  }
}
