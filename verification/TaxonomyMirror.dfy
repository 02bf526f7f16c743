/**
 Undoing a batch step by step. What is there at each step back is what was there at the step forward, each item
 retired when it was, and whatever was made since is retired by the undo. It holds as long as no feature is retired
 that already lost a value in the batch.
 */
module TaxonomyMirror {
  import opened Basics
  import opened Taxonomies
  import opened TaxonomyChanges
  import opened TaxonomySteps
  import opened TaxonomyAdditions
  import opened TaxonomyForwarding
  import opened TaxonomyUndo
  import opened TaxonomyUndoBatch
  import opened TaxonomyLinks
  import opened TaxonomyUndoOne
  import opened TaxonomyEffects

  /** A change as `changeSchema` lets it be proposed: no restore, and no split or new feature that makes nothing more. */
  predicate Proposable(c: Change) {
    && !c.Restore?
    && (c.Split? ==> c.children != [])
    && (c.AddFeature? ==> c.values != [])
  }

  // ---------------------------------------------------------------------- within a batch

  /** What holds between the changes of a batch too, where names, slugs and counts needn't fit yet. */
  ghost predicate Sane(s: Taxonomy) {
    UniqueIds(s) && LinksFit(s) && FeaturesFit(s) && NoOrphans(s) && StampsFit(s)
  }

  /** What a change asks of what it retires: no live subcategories, no live shelf that implies it. */
  lemma GoneGuards(s: Taxonomy, d: Draw)
    requires ApplyOne(s, d).Done? && UniqueIds(s) && !d.change.Restore?
    ensures
      var target := Target(s, d.change);
      target.Some? ==>
        && Live(At(s, target.value))
        && (target.value.AtShelf? ==> !HasSubcategories(s, At(s, target.value).id))
        && (target.value.AtFunction? ==> !Implied(s, At(s, target.value).id))
  {
  }

  /** A shelf that was there still fits its parent. */
  lemma ParentStays(s: Taxonomy, d: Draw, n: Taxonomy, i: nat)
    requires Sane(s) && Proposable(d.change) && ApplyOne(s, d).Done? && n == ApplyOne(s, d).next && UniqueIds(n)
    requires Effects(s, d.change, n) && Embeds(s, n) && i < |s.shelves| && i < |n.shelves|
    ensures ParentFits(n, n.shelves[i])
  {
    assert Has(s, AtShelf(i)) && LeftAs(s, d.change, n, AtShelf(i));
    if d.change.Move? {
      MovedParentStays(s, d, n, i);
    } else {
      GoneGuards(s, d);
      if s.shelves[i].parentId.Some? {
        assert ParentFits(s, s.shelves[i]);
        ParentIs(s, d.change, n, i, Find(s, ShelfSubject, ById(s.shelves[i].parentId.value)).value);
      }
    }
  }

  /** A shelf's parent, by where it is: a category, live if the shelf is. */
  lemma ParentIs(s: Taxonomy, c: Change, n: Taxonomy, i: nat, p: Pos)
    requires UniqueIds(n) && Effects(s, c, n) && Embeds(s, n) && i < |s.shelves| && i < |n.shelves|
    requires Has(s, p) && p.AtShelf? && p.i != i && n.shelves[i].parentId == Some(At(s, p).id)
    requires ParentAfter(s, c, p.i) == None && At(s, p).id != s.shelves[i].item.id
    requires NewStamp(s, c, AtShelf(i)) == None ==> NewStamp(s, c, p) == None
    ensures ParentFits(n, n.shelves[i])
  {
    assert Has(s, AtShelf(i)) && LeftAs(s, c, n, AtShelf(i)) && LeftAs(s, c, n, p);
    FindAt(n, p);
  }

  lemma MovedParentStays(s: Taxonomy, d: Draw, n: Taxonomy, i: nat)
    requires Sane(s) && d.change.Move? && ApplyOne(s, d).Done? && n == ApplyOne(s, d).next && UniqueIds(n)
    requires Effects(s, d.change, n) && Embeds(s, n) && i < |s.shelves| && i < |n.shelves|
    ensures ParentFits(n, n.shelves[i])
  {
    MoveGuards(s, d);
    var parentId := ParentAfter(s, d.change, i);
    if parentId.Some? {
      if parentId == s.shelves[i].parentId {
        assert ParentFits(s, s.shelves[i]);
        ParentIs(s, d.change, n, i, Find(s, ShelfSubject, ById(parentId.value)).value);
      } else {
        var p := LiveItem(s, ShelfSubject, d.change.parent).value;
        assert Has(s, p) && Has(s, AtShelf(i));
        ParentIs(s, d.change, n, i, p);
      }
    }
  }

  lemma ImpliesStay(s: Taxonomy, d: Draw, n: Taxonomy, i: nat)
    requires Sane(s) && Proposable(d.change) && ApplyOne(s, d).Done? && n == ApplyOne(s, d).next && UniqueIds(n)
    requires Effects(s, d.change, n) && Embeds(s, n) && i < |s.shelves| && i < |n.shelves|
    ensures ImpliesFit(n, n.shelves[i])
  {
    assert Has(s, AtShelf(i)) && LeftAs(s, d.change, n, AtShelf(i));
    GoneGuards(s, d);
    var fns := n.shelves[i].implies;
    forall k | 0 <= k < |fns|
      ensures Find(n, FunctionSubject, ById(fns[k])).Some?
      ensures Live(n.shelves[i].item) ==> Live(At(n, Find(n, FunctionSubject, ById(fns[k])).value))
    {
      if fns == s.shelves[i].implies {
        assert ImpliesFit(s, s.shelves[i]);
      } else {
        FindAt(s, LiveItem(s, FunctionSubject, d.change.implies[k]).value);
      }
      var p := Find(s, FunctionSubject, ById(fns[k])).value;
      assert Has(s, p) && LeftAs(s, d.change, n, p);
      FindAt(n, p);
    }
  }

  /** Whether an ID is a live function's. */
  ghost predicate LiveFunctionId(s: Taxonomy, id: Id) {
    exists q :: Has(s, q) && q.AtFunction? && Live(At(s, q)) && At(s, q).id == id
  }

  /** The shelves a change adds fit their parents, and imply live functions. */
  ghost predicate NewShelvesFit(s: Taxonomy, n: Taxonomy) {
    forall i :: |s.shelves| <= i < |n.shelves| ==>
      && (n.shelves[i].parentId.Some? ==> exists q :: IsCategory(s, n, q) && Some(At(s, q).id) == n.shelves[i].parentId)
      && (forall k :: 0 <= k < |n.shelves[i].implies| ==> LiveFunctionId(s, n.shelves[i].implies[k]))
  }

  ghost predicate IsCategory(s: Taxonomy, n: Taxonomy, q: Pos) {
    && Has(s, q) && Has(n, q) && q.AtShelf? && Live(At(s, q)) && s.shelves[q.i].parentId == None
  }

  lemma NamedFunctions(s: Taxonomy, refs: seq<Ref>, ids: seq<Id>)
    requires AreNamed(s, FunctionSubject, refs, ids)
    ensures forall k :: 0 <= k < |ids| ==> LiveFunctionId(s, ids[k])
  {
    forall k | 0 <= k < |ids|
      ensures LiveFunctionId(s, ids[k])
    {
      assert NamedId(s, FunctionSubject, refs[k]) == Some(ids[k]);
      var q := LiveItem(s, FunctionSubject, refs[k]).value;
      assert Has(s, q) && q.AtFunction?;
    }
  }

  /** What a change puts a new shelf under is a live category. */
  lemma NewParentIs(s: Taxonomy, d: Draw, n: Taxonomy)
    requires ApplyOne(s, d).Done? && Embeds(s, n) && NewParent(s, d.change).Some?
    ensures exists q :: IsCategory(s, n, q) && Some(At(s, q).id) == NewParent(s, d.change)
  {
    var ref := if d.change.Split? then d.change.item else d.change.parent;
    var q := LiveItem(s, ShelfSubject, ref).value;
    assert IsCategory(s, n, q);
  }

  lemma AddsFit(s: Taxonomy, d: Draw, n: Taxonomy)
    requires ApplyOne(s, d).Done? && n == ApplyOne(s, d).next && Embeds(s, n)
    ensures NewShelvesFit(s, n)
  {
    ChangeAdds(s, d);
    if NewParent(s, d.change).Some? {
      NewParentIs(s, d, n);
    }
    forall i | |s.shelves| <= i < |n.shelves|
      ensures n.shelves[i].parentId == NewParent(s, d.change)
      ensures forall k :: 0 <= k < |n.shelves[i].implies| ==> LiveFunctionId(s, n.shelves[i].implies[k])
    {
      var k := i - |s.shelves|;
      assert ShelfAdded(s, NewParent(s, d.change), NewShelves(d.change)[k], d.ids[k], n.shelves, |s.shelves| + k);
      NamedFunctions(s, NewShelves(d.change)[k].implies, n.shelves[i].implies);
    }
  }

  lemma NoNewShelves(s: Taxonomy, d: Draw, n: Taxonomy)
    requires ApplyOne(s, d).Done? && n == ApplyOne(s, d).next
    requires !d.change.AddCategory? && !d.change.AddSubcategory? && !d.change.Split?
    ensures |n.shelves| == |s.shelves|
  {
    ChangeAdds(s, d);
  }

  lemma AddingOnly(s: Taxonomy, d: Draw, n: Taxonomy)
    requires ApplyOne(s, d).Done? && n == ApplyOne(s, d).next && |s.shelves| < |n.shelves|
    ensures Target(s, d.change) == None && !d.change.Move?
  {
    if !d.change.AddCategory? && !d.change.AddSubcategory? && !d.change.Split? {
      NoNewShelves(s, d, n);
    }
  }

  lemma NewParentFits(s: Taxonomy, c: Change, n: Taxonomy, i: nat)
    requires Embeds(s, n) && UniqueIds(n) && Effects(s, c, n) && NewShelvesFit(s, n)
    requires Target(s, c) == None && !c.Move? && |s.shelves| <= i < |n.shelves|
    ensures ParentFits(n, n.shelves[i])
  {
    assert Has(n, AtShelf(i)) && !Has(s, AtShelf(i));
    if n.shelves[i].parentId.Some? {
      var q :| IsCategory(s, n, q) && Some(At(s, q).id) == n.shelves[i].parentId;
      assert LeftAs(s, c, n, q);
      FindAt(n, q);
    }
  }

  lemma NewImpliesFit(s: Taxonomy, c: Change, n: Taxonomy, i: nat)
    requires Embeds(s, n) && UniqueIds(n) && Effects(s, c, n) && NewShelvesFit(s, n)
    requires Target(s, c) == None && |s.shelves| <= i < |n.shelves|
    ensures ImpliesFit(n, n.shelves[i])
  {
    forall k | 0 <= k < |n.shelves[i].implies|
      ensures Find(n, FunctionSubject, ById(n.shelves[i].implies[k])).Some?
      ensures Live(At(n, Find(n, FunctionSubject, ById(n.shelves[i].implies[k])).value))
    {
      assert LiveFunctionId(s, n.shelves[i].implies[k]);
      var q :| Has(s, q) && q.AtFunction? && Live(At(s, q)) && At(s, q).id == n.shelves[i].implies[k];
      assert Has(n, q) && LeftAs(s, c, n, q);
      FindAt(n, q);
    }
  }

  lemma LinksFitStep(s: Taxonomy, d: Draw, n: Taxonomy)
    requires Sane(s) && Proposable(d.change) && ApplyOne(s, d).Done? && n == ApplyOne(s, d).next && UniqueIds(n)
    requires Effects(s, d.change, n) && Embeds(s, n)
    ensures LinksFit(n)
  {
    AddsFit(s, d, n);
    forall i | 0 <= i < |n.shelves|
      ensures ParentFits(n, n.shelves[i]) && ImpliesFit(n, n.shelves[i])
    {
      if i < |s.shelves| {
        ParentStays(s, d, n, i);
        ImpliesStay(s, d, n, i);
      } else {
        AddingOnly(s, d, n);
        NewParentFits(s, d.change, n, i);
        NewImpliesFit(s, d.change, n, i);
      }
    }
  }

  // ---------------------------------------------------------------------- features within a batch

  lemma {:induction false} OtherLive(values: seq<Item>, j: nat)
    requires j < |values| && Live(values[j]) && LiveValues(values) != 1
    ensures exists k :: 0 <= k < |values| && k != j && Live(values[k])
  {
    var front, last := values[..|values| - 1], values[|values| - 1];
    if j == |values| - 1 {
      assert LiveValues(front) > 0;
      var k :| 0 <= k < |front| && Live(front[k]);
      assert Live(values[k]);
    } else if Live(last) {
      assert Live(values[|values| - 1]);
    } else {
      OtherLive(front, j);
      var k :| 0 <= k < |front| && k != j && Live(front[k]);
      assert Live(values[k]);
    }
  }

  /** A feature that stays live keeps a live value. */
  lemma KeepsLiveValue(s: Taxonomy, d: Draw, i: nat)
    requires Sane(s) && Proposable(d.change) && ApplyOne(s, d).Done? && i < |s.features|
    requires Live(s.features[i].item) && Target(s, d.change) != Some(AtFeature(i))
    ensures exists j ::
      0 <= j < |s.features[i].values| && Live(s.features[i].values[j]) && Target(s, d.change) != Some(AtValue(i, j))
  {
    assert FeatureFits(s, s.features[i]);
    var j :| 0 <= j < |s.features[i].values| && Live(s.features[i].values[j]);
    if Target(s, d.change) == Some(AtValue(i, j)) {
      LeavesOther(s, d, i, j);
    }
  }

  lemma LeavesOther(s: Taxonomy, d: Draw, i: nat, j: nat)
    requires UniqueIds(s) && Proposable(d.change) && ApplyOne(s, d).Done? && Has(s, AtValue(i, j))
    requires Target(s, d.change) == Some(AtValue(i, j))
    ensures exists k :: 0 <= k < |s.features[i].values| && k != j && Live(s.features[i].values[k])
  {
    FindAt(s, AtValue(i, j));
    if d.change.Merge? {
      var q := LiveItem(s, ValueSubject, d.change.into).value;
      FindAt(s, q);
      SameFeaturePlace(s, i, q.i);
      assert Live(s.features[i].values[q.j]);
    } else {
      OtherLive(s.features[i].values, j);
    }
  }

  lemma SameFeaturePlace(s: Taxonomy, i: nat, k: nat)
    requires UniqueIds(s) && i < |s.features| && k < |s.features| && s.features[i].item.id == s.features[k].item.id
    ensures i == k
  {
    assert Has(s, AtFeature(i)) && Has(s, AtFeature(k));
    assert At(s, AtFeature(i)).id == At(s, AtFeature(k)).id;
  }

  lemma OldFeatureFits(s: Taxonomy, d: Draw, n: Taxonomy, i: nat)
    requires Sane(s) && Proposable(d.change) && ApplyOne(s, d).Done? && n == ApplyOne(s, d).next && UniqueIds(n)
    requires Effects(s, d.change, n) && Embeds(s, n) && i < |s.features| && i < |n.features|
    ensures FeatureFits(n, n.features[i])
  {
    assert FeatureFits(s, s.features[i]);
    assert Has(s, AtFeature(i)) && LeftAs(s, d.change, n, AtFeature(i));
    forall k | 0 <= k < |n.features[i].shelves|
      ensures Find(n, ShelfSubject, ById(n.features[i].shelves[k])).Some?
    {
      FindKept(s, n, ShelfSubject, s.features[i].shelves[k]);
    }
    if Live(n.features[i].item) {
      KeepsLiveValue(s, d, i);
      var j :| 0 <= j < |s.features[i].values| && Live(s.features[i].values[j]) && Target(s, d.change) != Some(AtValue(i, j));
      assert Has(s, AtValue(i, j)) && LeftAs(s, d.change, n, AtValue(i, j));
      assert Live(n.features[i].values[j]);
    }
  }

  lemma NewFeatures(s: Taxonomy, d: Draw)
    requires ApplyOne(s, d).Done?
    ensures |ApplyOne(s, d).next.features| == |s.features| + if d.change.AddFeature? then 1 else 0
  {
    ChangeAdds(s, d);
  }

  lemma NewFeatureFits(s: Taxonomy, d: Draw, n: Taxonomy, i: nat)
    requires Proposable(d.change) && ApplyOne(s, d).Done? && n == ApplyOne(s, d).next && UniqueIds(n) && Embeds(s, n)
    requires |s.features| <= i < |n.features|
    ensures FeatureFits(n, n.features[i])
  {
    NewFeatures(s, d);
    assert d.change.AddFeature? && i == |s.features|;
    var shelves := LiveIds(s, ShelfSubject, d.change.shelves).value;
    forall k | 0 <= k < |n.features[i].shelves|
      ensures Find(n, ShelfSubject, ById(n.features[i].shelves[k])).Some?
    {
      var q := LiveItem(s, ShelfSubject, d.change.shelves[k]).value;
      assert Has(s, q) && At(s, q).id == shelves[k];
      FindAt(n, q);
    }
    assert Live(n.features[i].values[0]);
  }

  /** Every change a batch may propose keeps what holds within batches. */
  lemma SaneStep(s: Taxonomy, d: Draw)
    requires Sane(s) && Proposable(d.change) && ApplyOne(s, d).Done? && UniqueIds(ApplyOne(s, d).next)
    ensures Sane(ApplyOne(s, d).next)
  {
    var n := ApplyOne(s, d).next;
    StepShape(s, d);
    ChangeDoes(s, d);
    NoOrphansStep(s, d);
    StampsFitStep(s, d);
    LinksFitStep(s, d, n);
    forall i | 0 <= i < |n.features|
      ensures FeatureFits(n, n.features[i])
    {
      if i < |s.features| {
        OldFeatureFits(s, d, n, i);
      } else {
        NewFeatureFits(s, d, n, i);
      }
    }
  }

  // ---------------------------------------------------------------------- the step back

  /**
   * `r`, a version later, holds what `s` does, each item retired when it is in `s`, and whatever it has more is
   * retired by its own version. Only the shelves named may have another order.
   */
  ghost predicate Mirrors(s: Taxonomy, r: Taxonomy, moved: set<Id>) {
    && UniqueIds(r) && r.version == s.version + 1
    && SameContent(s, r, moved)
    && (forall p :: Has(s, p) ==> Stamp(r, p) == Stamp(s, p))
    && (forall p :: Has(r, p) && !Has(s, p) ==> Stamp(r, p) == Some(r.version))
  }

  lemma MirrorEmbeds(s: Taxonomy, r: Taxonomy, moved: set<Id>)
    requires SameContent(s, r, moved)
    ensures Embeds(s, r)
  {
    forall p | Has(s, p)
      ensures Has(r, p) && At(r, p).id == At(s, p).id
    {
      assert SameWords(At(s, p), At(r, p), moved);
    }
  }

  /** What mirrors the result of a change has its results. */
  lemma MirrorResults(s: Taxonomy, d: Draw, r: Taxonomy, moved: set<Id>)
    requires ApplyOne(s, d).Done? && UniqueIds(s) && Mirrors(ApplyOne(s, d).next, r, moved)
    ensures Results(s, d.change, r)
    ensures KeepsWords(d.change) ==> SameContent(s, r, moved)
    ensures forall p :: Has(r, p) && !Has(ApplyOne(s, d).next, p) ==> !Has(s, p) && !Live(At(r, p))
  {
    var n := ApplyOne(s, d).next;
    StepShape(s, d);
    MirrorEmbeds(n, r, moved);
    EmbedsOn(s, n, r);
    if KeepsWords(d.change) {
      ContentKept(s, d);
      SameContentTrans(s, n, r, {}, moved);
      assert {} + moved == moved;
    }
  }

  /** Whether a value of a feature was retired by this version already. */
  ghost predicate LostValue(s: Taxonomy, i: nat) {
    exists j :: Has(s, AtValue(i, j)) && Stamp(s, AtValue(i, j)) == Some(s.version)
  }

  /** No feature is retired that already lost a value in the batch. */
  ghost predicate LosesWhole(s: Taxonomy, c: Change) {
    c.Retire? && Target(s, c).Some? && Target(s, c).value.AtFeature? ==> !LostValue(s, Target(s, c).value.i)
  }

  /** An undo's one change brings back what a change took away, or leaves what was there as it is. */
  lemma StampsBack(s: Taxonomy, c: Change, r: Taxonomy, back: Draw, u: Taxonomy)
    requires Results(s, c, r) && ApplyOne(r, back).Done? && u == ApplyOne(r, back).next && StampsFit(s) && NoOrphans(s)
    requires !c.Restore? && LosesWhole(s, c) && (Target(s, c).Some? ==> Live(At(s, Target(s, c).value)))
    requires
      || (Target(s, c) == None && (Target(r, back.change).Some? ==> back.change.Retire? && !Has(s, Target(r, back.change).value)))
      || (Target(s, c).Some? && back.change.Restore? && Target(r, back.change) == Target(s, c))
    ensures forall p :: Has(s, p) ==> Has(u, p) && Stamp(u, p) == Stamp(s, p)
  {
    StepShape(r, back);
    forall p | Has(s, p)
      ensures Has(u, p) && Stamp(u, p) == Stamp(s, p)
    {
      assert Stamp(r, p) == NewStamp(s, c, p);
      assert Stamp(u, p) == NewStamp(r, back.change, p);
      if Target(s, c).Some? {
        assert Stamp(r, Target(s, c).value) == NewStamp(s, c, Target(s, c).value);
      }
    }
  }

  /** Whether a change retires an item, by name or with its feature. */
  ghost predicate GoesWith(r: Taxonomy, c: Change, p: Pos) {
    && c.Retire? && Target(r, c).Some?
    && var q := Target(r, c).value;
       q == p || (q.AtFeature? && p.AtValue? && p.i == q.i)
  }

  /** What is more than there was is retired by the undo's version, whatever one change back does. */
  lemma ExtrasBack(s: Taxonomy, n: Taxonomy, r: Taxonomy, moved: set<Id>, back: Draw, u: Taxonomy)
    requires Mirrors(n, r, moved) && StampsFit(n) && ApplyOne(r, back).Done? && u == ApplyOne(r, back).next
    requires back.ids == [] && Embeds(s, n)
    requires back.change.Restore? ==> Target(r, back.change).Some? && Has(n, Target(r, back.change).value)
    requires forall p :: Has(n, p) && !Has(s, p) ==> Live(At(n, p)) && GoesWith(r, back.change, p)
    ensures forall p :: Has(u, p) && !Has(s, p) ==> Stamp(u, p) == Some(u.version)
    ensures u.version == r.version
  {
    StepShape(r, back);
    forall p | Has(u, p) && !Has(s, p)
      ensures Stamp(u, p) == Some(u.version)
    {
      assert Has(r, p) && Stamp(u, p) == NewStamp(r, back.change, p);
      if Has(n, p) {
        assert Stamp(r, p) == Stamp(n, p);
      } else {
        assert Stamp(r, p) == Some(r.version);
        if back.change.Restore? {
          var q := Target(r, back.change).value;
          assert Stamp(r, q) == Stamp(n, q);
        }
      }
    }
  }

  /** One change undone: what mirrored its result mirrors what it changed. */
  lemma MirrorBack(s: Taxonomy, d: Draw, r: Taxonomy, moved: set<Id>, u: Taxonomy)
    requires Sane(s) && ApplyOne(s, d).Done? && Mirrors(ApplyOne(s, d).next, r, moved)
    requires ApplyAll(r, Undoers(s, d)).BatchDone? && u == ApplyAll(r, Undoers(s, d)).next
    requires u.version == r.version
    requires forall p :: Has(s, p) ==> Has(u, p) && Stamp(u, p) == Stamp(s, p)
    requires forall p :: Has(u, p) && !Has(s, p) ==> Stamp(u, p) == Some(u.version)
    ensures Mirrors(s, u, moved + MovedBy(ApplyOne(s, d).applied))
  {
    UndoneContent(s, d, r, moved);
    StepShape(s, d);
    UndoKeepsIds(r, Undoers(s, d));
  }

  lemma UndoKeepsIds(r: Taxonomy, draws: seq<Draw>)
    requires UniqueIds(r) && ApplyAll(r, draws).BatchDone? && forall k :: 0 <= k < |draws| ==> draws[k].ids == []
    ensures UniqueIds(ApplyAll(r, draws).next)
  {
    var u := ApplyAll(r, draws).next;
    EmbedsAll(r, draws);
    forall p, q | Has(u, p) && Has(u, q) && p != q
      ensures At(u, p).id != At(u, q).id
    {
      NothingMade(r, draws, p);
      NothingMade(r, draws, q);
    }
  }

  /** A change's undo applies to what mirrors its result, and leaves what mirrors what was there. */
  ghost predicate GoesBack(s: Taxonomy, d: Draw, r: Taxonomy, moved: set<Id>)
    requires ApplyOne(s, d).Done?
  {
    && ApplyAll(r, Undoers(s, d)).BatchDone?
    && Mirrors(s, ApplyAll(r, Undoers(s, d)).next, moved + MovedBy(ApplyOne(s, d).applied))
  }

  lemma OneGoesBack(s: Taxonomy, d: Draw, r: Taxonomy, moved: set<Id>, back: Draw)
    requires Sane(s) && ApplyOne(s, d).Done? && Mirrors(ApplyOne(s, d).next, r, moved)
    requires |Undoers(s, d)| == 1 && back == Undoers(s, d)[0] && ApplyOne(r, back).Done?
    requires ApplyOne(r, back).next.version == r.version
    requires forall p :: Has(s, p) ==> Has(ApplyOne(r, back).next, p) && Stamp(ApplyOne(r, back).next, p) == Stamp(s, p)
    requires forall p :: Has(ApplyOne(r, back).next, p) && !Has(s, p) ==>
      Stamp(ApplyOne(r, back).next, p) == Some(r.version)
    ensures GoesBack(s, d, r, moved)
  {
    OneSays(r, Undoers(s, d), "") by {
      assert ApplyAll(ApplyOne(r, back).next, Undoers(s, d)[1..]) == BatchDone(ApplyOne(r, back).next, []);
    }
    MirrorBack(s, d, r, moved, ApplyOne(r, back).next);
  }

  lemma OneStepBack(s: Taxonomy, d: Draw, r: Taxonomy, moved: set<Id>, back: Draw)
    requires Sane(s) && ApplyOne(s, d).Done? && StampsFit(ApplyOne(s, d).next) && Mirrors(ApplyOne(s, d).next, r, moved)
    requires Results(s, d.change, r) && Embeds(s, ApplyOne(s, d).next)
    requires |Undoers(s, d)| == 1 && back == Undoers(s, d)[0] && ApplyOne(r, back).Done?
    requires !d.change.Restore? && LosesWhole(s, d.change)
    requires Target(s, d.change).Some? ==> Live(At(s, Target(s, d.change).value))
    requires
      || (Target(s, d.change) == None
          && (Target(r, back.change).Some? ==> back.change.Retire? && !Has(s, Target(r, back.change).value)))
      || (Target(s, d.change).Some? && back.change.Restore? && Target(r, back.change) == Target(s, d.change))
    requires forall p :: Has(ApplyOne(s, d).next, p) && !Has(s, p) ==>
      Live(At(ApplyOne(s, d).next, p)) && GoesWith(r, back.change, p)
    ensures GoesBack(s, d, r, moved)
  {
    StampsBack(s, d.change, r, back, ApplyOne(r, back).next);
    ExtrasBack(s, ApplyOne(s, d).next, r, moved, back, ApplyOne(r, back).next);
    OneGoesBack(s, d, r, moved, back);
  }

  lemma TextGoesBack(s: Taxonomy, d: Draw, r: Taxonomy, moved: set<Id>)
    requires Sane(s) && ApplyOne(s, d).Done? && Sane(ApplyOne(s, d).next) && Mirrors(ApplyOne(s, d).next, r, moved)
    requires !KeepsWords(d.change)
    ensures GoesBack(s, d, r, moved)
  {
    MirrorResults(s, d, r, moved);
    OneUndone(s, d);
    var back := Undoers(s, d)[0];
    TextUndoApplies(s, d, r, back, moved);
    TextBackIsText(s, d, back);
    StepShape(s, d);
    OneStepBack(s, d, r, moved, back);
  }

  lemma GoneGoesBack(s: Taxonomy, d: Draw, r: Taxonomy, moved: set<Id>)
    requires Sane(s) && ApplyOne(s, d).Done? && Sane(ApplyOne(s, d).next) && Mirrors(ApplyOne(s, d).next, r, moved)
    requires (d.change.Merge? || d.change.Retire?) && LosesWhole(s, d.change)
    ensures GoesBack(s, d, r, moved)
  {
    MirrorResults(s, d, r, moved);
    var p := Target(s, d.change).value;
    RestoreApplies(s, d.change, r, p, moved);
    UndoIsRestore(s, d, p);
    var back := Undoers(s, d)[0];
    assert At(r, p).id == At(s, p).id;
    RestoreGoes(r, p, back);
    GoneGuards(s, d);
    StepShape(s, d);
    OneStepBack(s, d, r, moved, back);
  }

  lemma AddedGoesBack(s: Taxonomy, d: Draw, r: Taxonomy, moved: set<Id>)
    requires Sane(s) && ApplyOne(s, d).Done? && Sane(ApplyOne(s, d).next) && Mirrors(ApplyOne(s, d).next, r, moved)
    requires d.change.AddFunction? || d.change.AddFeature? || d.change.AddValue?
    ensures GoesBack(s, d, r, moved)
  {
    MirrorResults(s, d, r, moved);
    var n := ApplyOne(s, d).next;
    var p := AddedPlace(s, d);
    var back := Undoers(s, d)[0];
    StepShape(s, d);
    AddedRetires(s, d, r, moved, p, back);
    OneStepBack(s, d, r, moved, back);
  }

  lemma AddedRetires(s: Taxonomy, d: Draw, r: Taxonomy, moved: set<Id>, p: Pos, back: Draw)
    requires Sane(s) && ApplyOne(s, d).Done? && Mirrors(ApplyOne(s, d).next, r, moved)
    requires Results(s, d.change, r) && SameContent(s, r, moved) && !d.change.Restore? && Target(s, d.change) == None
    requires forall q :: Has(r, q) && !Has(ApplyOne(s, d).next, q) ==> !Live(At(r, q))
    requires forall i :: Has(ApplyOne(s, d).next, AtShelf(i)) ==> Has(s, AtShelf(i))
    requires Has(ApplyOne(s, d).next, p) && !Has(s, p) && !p.AtShelf? && Live(At(ApplyOne(s, d).next, p))
    requires p.AtValue? ==> Has(s, AtFeature(p.i)) && Live(At(s, AtFeature(p.i)))
    requires back.change == Retire(KindOf(p), ById(At(ApplyOne(s, d).next, p).id))
    ensures ApplyOne(r, back).Done? && Target(r, back.change) == Some(p)
  {
    MirrorEmbeds(ApplyOne(s, d).next, r, moved);
    assert Has(r, p) && Stamp(r, p) == Stamp(ApplyOne(s, d).next, p);
    AddedMayRetire(s, d.change, r, p, moved);
    RetireApplies(r, p, back);
  }

  /** Whether a shelf is retired, a category, or under a shelf of `s`. */
  ghost predicate UnderOld(s: Taxonomy, shelf: Shelf) {
    !Live(shelf.item) || shelf.parentId == None || exists q :: Has(s, q) && q.AtShelf? && Some(At(s, q).id) == shelf.parentId
  }

  lemma NewlyUnder(s: Taxonomy, d: Draw)
    requires ApplyOne(s, d).Done? && (d.change.AddCategory? || d.change.AddSubcategory? || d.change.Split?)
    ensures Target(s, d.change) == None
    ensures
      var n := ApplyOne(s, d).next;
      && |n.shelves| == |s.shelves| + |d.ids|
      && forall i :: |s.shelves| <= i < |n.shelves| ==>
           n.shelves[i].item.id == d.ids[i - |s.shelves|] && Live(n.shelves[i].item) && UnderOld(s, n.shelves[i])
  {
    AddedShelves(s, d);
  }

  lemma MirroredUnder(s: Taxonomy, n: Taxonomy, r: Taxonomy, moved: set<Id>, k: nat)
    requires Mirrors(n, r, moved) && |s.shelves| <= k < |r.shelves|
    requires k < |n.shelves| ==> UnderOld(s, n.shelves[k])
    ensures UnderOld(s, r.shelves[k])
  {
    assert Has(r, AtShelf(k));
    if k < |n.shelves| {
      assert Has(n, AtShelf(k)) && Stamp(r, AtShelf(k)) == Stamp(n, AtShelf(k));
      assert SameWords(At(n, AtShelf(k)), At(r, AtShelf(k)), moved);
    }
  }

  lemma MirroredBare(s: Taxonomy, d: Draw, r: Taxonomy, moved: set<Id>, i: nat)
    requires Sane(s) && Results(s, d.change, r) && SameContent(s, r, moved) && !d.change.Restore? && Target(s, d.change) == None
    requires |s.shelves| <= i < |r.shelves| && forall k :: |s.shelves| <= k < |r.shelves| ==> UnderOld(s, r.shelves[k])
    ensures !HasSubcategories(r, r.shelves[i].item.id)
  {
    AddedShelfIsBare(s, d.change, r, i, moved);
  }

  lemma ShelvesReach(n: Taxonomy, r: Taxonomy)
    requires Embeds(n, r)
    ensures |n.shelves| <= |r.shelves|
  {
    if |n.shelves| > 0 {
      assert Has(n, AtShelf(|n.shelves| - 1));
    }
  }

  lemma MirroredShelves(s: Taxonomy, d: Draw, r: Taxonomy, moved: set<Id>)
    requires Sane(s) && ApplyOne(s, d).Done? && Mirrors(ApplyOne(s, d).next, r, moved)
    requires d.change.AddCategory? || d.change.AddSubcategory? || d.change.Split?
    ensures Retirable(r, d.ids, |s.shelves|)
  {
    var n := ApplyOne(s, d).next;
    MirrorResults(s, d, r, moved);
    MirrorEmbeds(n, r, moved);
    NewlyUnder(s, d);
    ShelvesReach(n, r);
    forall k | |s.shelves| <= k < |r.shelves|
      ensures UnderOld(s, r.shelves[k])
    {
      MirroredUnder(s, n, r, moved, k);
    }
    forall i | |s.shelves| <= i < |n.shelves|
      ensures r.shelves[i].item.id == n.shelves[i].item.id && Live(r.shelves[i].item)
      ensures !HasSubcategories(r, r.shelves[i].item.id)
    {
      MirroredShelf(n, r, moved, i);
      MirroredBare(s, d, r, moved, i);
    }
  }

  lemma MirroredShelf(n: Taxonomy, r: Taxonomy, moved: set<Id>, i: nat)
    requires Mirrors(n, r, moved) && i < |n.shelves|
    ensures i < |r.shelves| && r.shelves[i].item.id == n.shelves[i].item.id
    ensures Live(r.shelves[i].item) == Live(n.shelves[i].item)
  {
    assert Has(n, AtShelf(i)) && Stamp(r, AtShelf(i)) == Stamp(n, AtShelf(i));
    MirrorEmbeds(n, r, moved);
    assert Has(r, AtShelf(i));
  }

  lemma ShelvesGoBack(s: Taxonomy, d: Draw, r: Taxonomy, moved: set<Id>)
    requires Sane(s) && ApplyOne(s, d).Done? && Mirrors(ApplyOne(s, d).next, r, moved)
    requires d.change.AddCategory? || d.change.AddSubcategory? || d.change.Split?
    ensures GoesBack(s, d, r, moved)
  {
    var n := ApplyOne(s, d).next;
    MirrorResults(s, d, r, moved);
    MirroredShelves(s, d, r, moved);
    AddedShelves(s, d);
    RetireEachApplies(r, d.ids, |s.shelves|, Undoers(s, d));
    var u := ApplyAll(r, Undoers(s, d)).next;
    EmbedsAll(r, Undoers(s, d));
    forall p | Has(s, p)
      ensures Has(u, p) && Stamp(u, p) == Stamp(s, p)
    {
      assert Has(r, p) && Stamp(r, p) == NewStamp(s, d.change, p);
    }
    forall p | Has(u, p) && !Has(s, p)
      ensures Stamp(u, p) == Some(u.version)
    {
      NothingMade(r, Undoers(s, d), p);
      assert Has(r, p) && (Has(n, p) || Stamp(r, p) == Some(r.version));
    }
    MirrorBack(s, d, r, moved, u);
  }

  /** Any change a batch may propose goes back, unless it retires a feature that lost a value in the batch. */
  lemma StepGoesBack(s: Taxonomy, d: Draw, r: Taxonomy, moved: set<Id>)
    requires Sane(s) && ApplyOne(s, d).Done? && Sane(ApplyOne(s, d).next) && Mirrors(ApplyOne(s, d).next, r, moved)
    requires !d.change.Restore? && LosesWhole(s, d.change)
    ensures GoesBack(s, d, r, moved)
  {
    match d.change
    case Merge(_, _, _) => GoneGoesBack(s, d, r, moved);
    case Retire(_, _) => GoneGoesBack(s, d, r, moved);
    case AddFunction(_) => AddedGoesBack(s, d, r, moved);
    case AddFeature(_, _, _, _) => AddedGoesBack(s, d, r, moved);
    case AddValue(_, _) => AddedGoesBack(s, d, r, moved);
    case AddCategory(_) => ShelvesGoBack(s, d, r, moved);
    case AddSubcategory(_, _) => ShelvesGoBack(s, d, r, moved);
    case Split(_, _) => ShelvesGoBack(s, d, r, moved);
    case _ => TextGoesBack(s, d, r, moved);
  }

  /** No change of a batch retires a feature that lost a value earlier in it. */
  ghost predicate AllLoseWhole(s: Taxonomy, draws: seq<Draw>)
    requires ApplyAll(s, draws).BatchDone?
    decreases |draws|
  {
    draws != [] ==> LosesWhole(s, draws[0].change) && AllLoseWhole(ApplyOne(s, draws[0]).next, draws[1..])
  }

  /** A batch's undo applies change by change, and leaves what mirrors what was there. */
  lemma {:induction false} BatchGoesBack(s: Taxonomy, draws: seq<Draw>, r: Taxonomy)
    requires Sane(s) && ApplyAll(s, draws).BatchDone? && Mirrors(ApplyAll(s, draws).next, r, {})
    requires UniqueIds(ApplyAll(s, draws).next) && forall k :: 0 <= k < |draws| ==> Proposable(draws[k].change)
    requires AllLoseWhole(s, draws)
    ensures
      var applied := ApplyAll(s, draws).applied;
      && ApplyAll(r, Undo(applied)).BatchDone?
      && Mirrors(s, ApplyAll(r, Undo(applied)).next, MovedIn(applied))
    decreases |draws|
  {
    if draws != [] {
      var Done(next, a) := ApplyOne(s, draws[0]);
      var BatchDone(end, rest) := ApplyAll(next, draws[1..]);
      EmbedsAll(next, draws[1..]);
      EmbedsKeepsUnique(next, end);
      SaneStep(s, draws[0]);
      BatchGoesBack(next, draws[1..], r);
      var v := ApplyAll(r, Undo(rest)).next;
      StepGoesBack(s, draws[0], v, MovedIn(rest));
      assert ([a] + rest)[1..] == rest;
      UndoSplits([a] + rest);
      AppliesTogether(r, Undo(rest), UndoOf(a));
    }
  }

  lemma {:induction false} AppliesTogether(t: Taxonomy, a: seq<Draw>, b: seq<Draw>)
    requires ApplyAll(t, a).BatchDone? && ApplyAll(ApplyAll(t, a).next, b).BatchDone?
    ensures ApplyAll(t, a + b).BatchDone? && ApplyAll(t, a + b).next == ApplyAll(ApplyAll(t, a).next, b).next
    decreases |a|
  {
    if a == [] {
      assert a + b == b;
    } else {
      assert (a + b)[1..] == a[1..] + b && (a + b)[0] == a[0];
      AppliesTogether(ApplyOne(t, a[0]).next, a[1..], b);
    }
  }
}
