/**
 Undoing an undo: it is accepted when no value was added, in the batch first undone, to a feature which that batch made,
 or which goes after it.
 */
module TaxonomyRedo {
  import opened Basics
  import opened Taxonomies
  import opened TaxonomyChanges
  import opened TaxonomySteps
  import opened TaxonomyForwarding
  import opened TaxonomyUndo
  import opened TaxonomyUndoBatch
  import opened TaxonomyLinks
  import opened TaxonomyUndoOne
  import opened TaxonomyMirror
  import opened TaxonomyUndoAccepted
  import opened TaxonomyAgain

  // ---------------------------------------------------------------------- the condition

  /** A value is added to a feature, and later in the batch that feature goes. */
  ghost predicate JoinedGoes(s: Taxonomy, draws: seq<Draw>)
    requires ApplyAll(s, draws).BatchDone?
    decreases |draws|
  {
    && draws != []
    && var next := ApplyOne(s, draws[0]).next;
       || (draws[0].change.AddValue? && LiveItem(s, FeatureSubject, draws[0].change.feature).Some?
           && Goes(next, draws[1..], LiveItem(s, FeatureSubject, draws[0].change.feature).value))
       || JoinedGoes(next, draws[1..])
  }

  /** A feature is made, and later in the batch a value is added to it. */
  ghost predicate MadeGrows(s: Taxonomy, draws: seq<Draw>)
    requires ApplyAll(s, draws).BatchDone?
    decreases |draws|
  {
    && draws != []
    && var next := ApplyOne(s, draws[0]).next;
       || (draws[0].change.AddFeature? && Grows(next, draws[1..], |s.features|))
       || MadeGrows(next, draws[1..])
  }

  /** Whether a batch adds a value to a feature. */
  ghost predicate Grows(s: Taxonomy, draws: seq<Draw>, i: nat)
    requires ApplyAll(s, draws).BatchDone?
  {
    exists j :: Has(ApplyAll(s, draws).next, AtValue(i, j)) && !Has(s, AtValue(i, j))
  }

  // ---------------------------------------------------------------------- an undo finds things in order

  lemma MirrorParents(s: Taxonomy, r: Taxonomy, moved: set<Id>, i: nat)
    requires Sane(s) && Mirrors(s, r, moved) && LinksThere(r) && i < |r.shelves|
    ensures ParentFits(r, r.shelves[i]) && ImpliesFit(r, r.shelves[i])
  {
    MirrorEmbeds(s, r, moved);
    assert Has(r, AtShelf(i)) && ParentThere(r, r.shelves[i]) && ImpliesThere(r, r.shelves[i]);
    if Live(r.shelves[i].item) {
      assert Has(s, AtShelf(i)) && Stamp(r, AtShelf(i)) == Stamp(s, AtShelf(i));
      assert ParentFits(s, s.shelves[i]) && ImpliesFit(s, s.shelves[i]);
      if r.shelves[i].parentId.Some? {
        FindKept(s, r, ShelfSubject, r.shelves[i].parentId.value);
        var p := Find(s, ShelfSubject, ById(r.shelves[i].parentId.value)).value;
        assert Stamp(r, p) == Stamp(s, p);
      }
      forall k | 0 <= k < |r.shelves[i].implies|
        ensures Live(At(r, Find(r, FunctionSubject, ById(r.shelves[i].implies[k])).value))
      {
        FindKept(s, r, FunctionSubject, r.shelves[i].implies[k]);
        var p := Find(s, FunctionSubject, ById(s.shelves[i].implies[k])).value;
        assert Stamp(r, p) == Stamp(s, p);
      }
    }
  }

  lemma MirrorFeature(s: Taxonomy, r: Taxonomy, moved: set<Id>, i: nat)
    requires Sane(s) && Mirrors(s, r, moved) && LinksThere(r) && i < |r.features|
    ensures FeatureFits(r, r.features[i])
  {
    assert Has(r, AtFeature(i)) && ShelvesThere(r, r.features[i]);
    if Live(r.features[i].item) {
      assert Has(s, AtFeature(i)) && Stamp(r, AtFeature(i)) == Stamp(s, AtFeature(i)) && FeatureFits(s, s.features[i]);
      var j :| 0 <= j < |s.features[i].values| && Live(s.features[i].values[j]);
      assert Has(s, AtValue(i, j)) && Has(r, AtValue(i, j)) && Stamp(r, AtValue(i, j)) == Stamp(s, AtValue(i, j));
    }
  }

  /** What mirrors a taxonomy in order is in order. */
  lemma MirrorSane(s: Taxonomy, r: Taxonomy, moved: set<Id>)
    requires Sane(s) && Mirrors(s, r, moved) && LinksThere(r)
    ensures Sane(r)
  {
    forall i | 0 <= i < |r.shelves|
      ensures ParentFits(r, r.shelves[i]) && ImpliesFit(r, r.shelves[i])
    {
      MirrorParents(s, r, moved, i);
    }
    forall i | 0 <= i < |r.features|
      ensures FeatureFits(r, r.features[i])
    {
      MirrorFeature(s, r, moved, i);
    }
    MirrorStamps(s, r, moved);
  }

  lemma MirrorStamps(s: Taxonomy, r: Taxonomy, moved: set<Id>)
    requires NoOrphans(s) && StampsFit(s) && Mirrors(s, r, moved)
    ensures NoOrphans(r) && StampsFit(r)
  {
    forall i, j | Has(r, AtValue(i, j)) && Live(At(r, AtValue(i, j)))
      ensures Live(At(r, AtFeature(i)))
    {
      assert Has(s, AtValue(i, j)) && Stamp(r, AtValue(i, j)) == Stamp(s, AtValue(i, j));
      assert Has(s, AtFeature(i)) && Stamp(r, AtFeature(i)) == Stamp(s, AtFeature(i));
    }
    forall p | Has(r, p) && At(r, p).retiredIn.Some?
      ensures At(r, p).retiredIn.value <= r.version
    {
      assert Stamp(r, p) == if Has(s, p) then Stamp(s, p) else Some(r.version);
    }
  }

  /** Retiring new shelves one by one is an undo that finds things in order. */
  lemma {:induction false} RetiresUndo(v: Taxonomy, draws: seq<Draw>, version: nat)
    requires Sane(v) && ApplyAll(v, draws).BatchDone? && UniqueIds(ApplyAll(v, draws).next)
    requires forall k :: 0 <= k < |draws| ==>
      draws[k].ids == [] && draws[k].change.Retire? && draws[k].change.subject == ShelfSubject
    ensures Undoes(v, draws, version)
    decreases |draws|
  {
    if draws != [] {
      var next := ApplyOne(v, draws[0]).next;
      EmbedsAll(next, draws[1..]);
      EmbedsKeepsUnique(next, ApplyAll(next, draws[1..]).next);
      SaneStep(v, draws[0]);
      RetiresUndo(next, draws[1..], version);
    }
  }

  /** An undo of one change, in order. */
  lemma OneUndoes(v: Taxonomy, back: Draw, version: nat)
    requires Sane(v) && ApplyAll(v, [back]).BatchDone? && Undoing(back)
    requires LosesWhole(v, back.change) && ReturnsFrom(v, back.change, version)
    ensures Undoes(v, [back], version)
  {
    assert [back][1..] == [];
  }

  /** The undo of one change of a batch finds things in order, and nothing lost already. */
  lemma GroupUndoes(s: Taxonomy, d: Draw, v: Taxonomy, moved: set<Id>)
    requires Sane(s) && ApplyOne(s, d).Done? && Proposable(d.change) && Sane(v) && Mirrors(ApplyOne(s, d).next, v, moved)
    requires GoesBack(s, d, v, moved)
    requires d.change.AddFeature? ==> forall j :: Has(v, AtValue(|s.features|, j)) ==> Has(ApplyOne(s, d).next, AtValue(|s.features|, j))
    ensures Undoes(v, Undoers(s, d), s.version)
  {
    InverseUndoes(ApplyOne(s, d).applied);
    if d.change.AddCategory? || d.change.AddSubcategory? || d.change.Split? {
      AddedShelves(s, d);
      RetiresUndo(v, Undoers(s, d), s.version);
    } else if d.change.Merge? || d.change.Retire? {
      GoneUndoes(s, d, v, moved);
    } else if d.change.AddFunction? || d.change.AddFeature? || d.change.AddValue? {
      AddedUndoes(s, d, v, moved);
    } else {
      OneUndone(s, d);
      TextBackIsText(s, d, Undoers(s, d)[0]);
      OneUndoes(v, Undoers(s, d)[0], s.version);
      assert Undoers(s, d) == [Undoers(s, d)[0]];
    }
  }

  /** What a batch took away, its undo finds retired by the batch's version. */
  lemma GoneReturns(s: Taxonomy, d: Draw, n: Taxonomy, v: Taxonomy, moved: set<Id>, p: Pos, back: Draw)
    requires ApplyOne(s, d).Done? && n == ApplyOne(s, d).next && Mirrors(n, v, moved)
    requires (d.change.Merge? || d.change.Retire?) && Target(s, d.change) == Some(p)
    requires back.change == Restore(KindOf(p), ById(At(s, p).id))
    ensures ReturnsFrom(v, back.change, s.version)
  {
    StepShape(s, d);
    MirrorEmbeds(n, v, moved);
    assert Stamp(v, p) == Stamp(n, p) == NewStamp(s, d.change, p);
    FindAt(v, p);
  }

  lemma GoneUndoes(s: Taxonomy, d: Draw, v: Taxonomy, moved: set<Id>)
    requires Sane(s) && ApplyOne(s, d).Done? && Sane(v) && Mirrors(ApplyOne(s, d).next, v, moved) && GoesBack(s, d, v, moved)
    requires d.change.Merge? || d.change.Retire?
    ensures Undoes(v, Undoers(s, d), s.version)
  {
    var p := Target(s, d.change).value;
    UndoIsRestore(s, d, p);
    InverseUndoes(ApplyOne(s, d).applied);
    var back := Undoers(s, d)[0];
    assert Undoers(s, d) == [back];
    GoneReturns(s, d, ApplyOne(s, d).next, v, moved, p, back);
    OneUndoes(v, back, s.version);
  }

  lemma AddedUndoes(s: Taxonomy, d: Draw, v: Taxonomy, moved: set<Id>)
    requires Sane(s) && ApplyOne(s, d).Done? && Sane(v) && Mirrors(ApplyOne(s, d).next, v, moved) && GoesBack(s, d, v, moved)
    requires d.change.AddFunction? || d.change.AddFeature? || d.change.AddValue?
    requires d.change.AddFeature? ==> forall j :: Has(v, AtValue(|s.features|, j)) ==> Has(ApplyOne(s, d).next, AtValue(|s.features|, j))
    ensures Undoes(v, Undoers(s, d), s.version)
  {
    var n := ApplyOne(s, d).next;
    var p := AddedPlace(s, d);
    InverseUndoes(ApplyOne(s, d).applied);
    MirrorEmbeds(n, v, moved);
    var back := Undoers(s, d)[0];
    assert Undoers(s, d) == [back];
    if p.AtFeature? {
      NothingLost(s, d, v, moved, p, back);
    }
    OneUndoes(v, back, s.version);
  }

  /** A feature just made has lost no value. */
  lemma NothingLost(s: Taxonomy, d: Draw, v: Taxonomy, moved: set<Id>, p: Pos, back: Draw)
    requires Sane(s) && ApplyOne(s, d).Done? && Mirrors(ApplyOne(s, d).next, v, moved) && Has(ApplyOne(s, d).next, p)
    requires d.change.AddFeature? && p == AtFeature(|s.features|) && UniqueIds(v)
    requires forall j :: Has(v, AtValue(|s.features|, j)) ==> Has(ApplyOne(s, d).next, AtValue(|s.features|, j))
    requires back.change == Retire(KindOf(p), ById(At(ApplyOne(s, d).next, p).id))
    ensures LosesWhole(v, back.change)
  {
    var n := ApplyOne(s, d).next;
    StepShape(s, d);
    MirrorEmbeds(n, v, moved);
    assert Has(v, p) && At(v, p).id == At(n, p).id;
    FindAt(v, p);
    forall j | Has(v, AtValue(|s.features|, j))
      ensures Stamp(v, AtValue(|s.features|, j)) != Some(v.version)
    {
      var q := AtValue(|s.features|, j);
      assert Has(n, q) && !Has(s, q) && Stamp(v, q) == Stamp(n, q);
    }
  }

  /** The undo of a batch where no value joins a feature that the batch made finds things in order throughout. */
  lemma {:induction false} UndoUndoes(s: Taxonomy, draws: seq<Draw>, r: Taxonomy)
    requires Sane(s) && ApplyAll(s, draws).BatchDone? && Mirrors(ApplyAll(s, draws).next, r, {})
    requires UniqueIds(ApplyAll(s, draws).next) && forall k :: 0 <= k < |draws| ==> Proposable(draws[k].change)
    requires AllLoseWhole(s, draws) && !MadeGrows(s, draws)
    requires LinksThere(r) && forall p :: Has(r, p) ==> Has(ApplyAll(s, draws).next, p)
    ensures ApplyAll(r, Undo(ApplyAll(s, draws).applied)).BatchDone?
    ensures Undoes(r, Undo(ApplyAll(s, draws).applied), s.version)
    decreases |draws|
  {
    BatchGoesBack(s, draws, r);
    if draws != [] {
      var Done(next, a) := ApplyOne(s, draws[0]);
      var BatchDone(end, rest) := ApplyAll(next, draws[1..]);
      EmbedsAll(next, draws[1..]);
      EmbedsKeepsUnique(next, end);
      SaneStep(s, draws[0]);
      StepShape(s, draws[0]);
      UndoUndoes(next, draws[1..], r);
      BatchGoesBack(next, draws[1..], r);
      var v := ApplyAll(r, Undo(rest)).next;
      HeadUndoes(s, draws[0], r, rest, v, MovedIn(rest), end);
      assert ([a] + rest)[1..] == rest;
      UndoSplits([a] + rest);
      UndoesTogether(r, Undo(rest), UndoOf(a), s.version);
    }
  }

  lemma HeadUndoes(s: Taxonomy, d: Draw, r: Taxonomy, rest: seq<Applied>, v: Taxonomy, moved: set<Id>, end: Taxonomy)
    requires Sane(s) && ApplyOne(s, d).Done? && Proposable(d.change) && LosesWhole(s, d.change)
    requires Sane(ApplyOne(s, d).next) && Mirrors(ApplyOne(s, d).next, v, moved)
    requires LinksThere(r) && UniqueIds(r) && ApplyAll(r, Undo(rest)).BatchDone? && v == ApplyAll(r, Undo(rest)).next
    requires forall p :: Has(r, p) ==> Has(end, p)
    requires d.change.AddFeature? ==>
      forall j :: Has(end, AtValue(|s.features|, j)) ==> Has(ApplyOne(s, d).next, AtValue(|s.features|, j))
    ensures ApplyAll(v, Undoers(s, d)).BatchDone? && Undoes(v, Undoers(s, d), s.version)
  {
    BatchUndoing(rest);
    LinksThereAll(r, Undo(rest));
    MirrorSane(ApplyOne(s, d).next, v, moved);
    StepGoesBack(s, d, v, moved);
    forall p | Has(v, p)
      ensures Has(end, p)
    {
      NothingMade(r, Undo(rest), p);
    }
    GroupUndoes(s, d, v, moved);
  }

  // ---------------------------------------------------------------------- the condition suffices

  /** A proposed batch whose undo is accepted. */
  ghost predicate UndoneBatch(t: Taxonomy, draws: seq<Draw>) {
    && Proposed(t, draws)
    && ApplyChanges(ApplyChanges(t, draws).next, Undo(ApplyChanges(t, draws).applied)).BatchDone?
  }

  /** The parts of one: the batch, the undo, and what each starts from. */
  ghost predicate Parts(
      t: Taxonomy, draws: seq<Draw>, n: Taxonomy, applied: seq<Applied>, u: Taxonomy, undone: seq<Applied>)
  {
    && UndoneBatch(t, draws)
    && ApplyAll(NewVersion(t), draws) == BatchDone(n, applied)
    && ApplyAll(NewVersion(n), Undo(applied)) == BatchDone(u, undone)
    && Valid(n) && Valid(u) && NoOrphans(n)
    && ApplyChanges(t, draws) == BatchDone(n, applied) && ApplyChanges(n, Undo(applied)) == BatchDone(u, undone)
  }

  lemma PartsOf(t: Taxonomy, draws: seq<Draw>)
    returns (n: Taxonomy, applied: seq<Applied>, u: Taxonomy, undone: seq<Applied>)
    requires UndoneBatch(t, draws)
    ensures Parts(t, draws, n, applied, u, undone)
  {
    RoundTripParts(t, draws, "");
    n, applied := ApplyChanges(t, draws).next, ApplyChanges(t, draws).applied;
    u, undone := ApplyChanges(n, Undo(applied)).next, ApplyChanges(n, Undo(applied)).applied;
    assert NoOrphans(n);
  }

  /** Nothing in what an undo leaves is retired by the batch's own version. */
  lemma NoneOfIt(s: Taxonomy, u: Taxonomy, moved: set<Id>)
    requires Mirrors(s, u, moved) && StampedBefore(s)
    ensures forall p :: Has(u, p) ==> Stamp(u, p) != Some(s.version)
  {
    forall p | Has(u, p)
      ensures Stamp(u, p) != Some(s.version)
    {
      assert Stamp(u, p) == if Has(s, p) then Stamp(s, p) else Some(u.version);
    }
  }

  lemma StartsRemirrored(u: Taxonomy, version: nat)
    requires UniqueIds(u) && version < u.version && forall p :: Has(u, p) ==> Stamp(u, p) != Some(version)
    ensures Remirrors(u, NewVersion(u), {}, version)
  {
    NewVersionSame(u);
    assert forall p :: Has(NewVersion(u), p) <==> Has(u, p);
    assert forall p :: Has(u, p) ==> At(NewVersion(u), p) == At(u, p);
  }

  /** Step by step, undoing the undo leaves what the batch had made. */
  lemma RedoGoes(t: Taxonomy, draws: seq<Draw>, n: Taxonomy, applied: seq<Applied>, u: Taxonomy, undone: seq<Applied>)
    requires Parts(t, draws, n, applied, u, undone) && !MadeGrows(NewVersion(t), draws)
    ensures ApplyAll(NewVersion(u), Undo(undone)).BatchDone?
    ensures Remirrors(NewVersion(n), ApplyAll(NewVersion(u), Undo(undone)).next, MovedIn(undone), NewVersion(t).version)
  {
    var s, m := NewVersion(t), NewVersion(n);
    StartsSane(t);
    StartsMirrored(n);
    Refuses(t, draws);
    LosesByName(s, draws);
    ValidLinks(n);
    assert forall p :: Has(m, p) ==> Has(n, p);
    UndoUndoes(s, draws, m);
    BatchGoesBack(s, draws, m);
    NoneOfIt(s, u, MovedIn(applied));
    StartsRemirrored(u, s.version);
    BatchGoesAgain(m, Undo(applied), NewVersion(u), s.version);
  }

  // ---------------------------------------------------------------------- what it says

  /** A live item that doesn't go stays live. */
  lemma {:induction false} StaysLive(s: Taxonomy, draws: seq<Draw>, p: Pos)
    requires ApplyAll(s, draws).BatchDone? && Has(s, p) && !p.AtValue? && Live(At(s, p)) && !Goes(s, draws, p)
    ensures Has(ApplyAll(s, draws).next, p) && Live(At(ApplyAll(s, draws).next, p))
    decreases |draws|
  {
    if draws != [] {
      StepShape(s, draws[0]);
      assert Stamp(ApplyOne(s, draws[0]).next, p) == NewStamp(s, draws[0].change, p);
      StaysLive(ApplyOne(s, draws[0]).next, draws[1..], p);
    }
  }

  /** A value that an undo names, after no feature followed it and it joined none, is of a feature still live. */
  lemma {:induction false} NamedKeepsFeature(s: Taxonomy, draws: seq<Draw>, i: nat, j: nat)
    requires ApplyAll(s, draws).BatchDone? && UniqueIds(ApplyAll(s, draws).next) && NoOrphans(s)
    requires forall k :: 0 <= k < |draws| ==> Proposable(draws[k].change)
    requires !FeatureFollows(s, draws) && !JoinedGoes(s, draws) && Has(ApplyAll(s, draws).next, AtValue(i, j))
    requires UndoSays(ApplyAll(s, draws).applied, At(ApplyAll(s, draws).next, AtValue(i, j)).id).Some?
    ensures Live(At(ApplyAll(s, draws).next, AtFeature(i)))
    decreases |draws|
  {
    var end := ApplyAll(s, draws).next;
    var id := At(end, AtValue(i, j)).id;
    assert draws != [];
    var Done(next, a) := ApplyOne(s, draws[0]);
    EmbedsAll(next, draws[1..]);
    EmbedsKeepsUnique(next, end);
    StepShape(s, draws[0]);
    EmbedsKeepsUnique(s, next);
    NoOrphansStep(s, draws[0]);
    UndoSaysHead(a, ApplyAll(next, draws[1..]).applied, id);
    if UndoneSays(a, id).Some? {
      NamedNow(s, draws[0], next, end, i, j);
      StaysLive(next, draws[1..], AtFeature(i));
    } else {
      NamedKeepsFeature(next, draws[1..], i, j);
    }
  }

  /** A value that one change's undo names: the change takes it away, or adds it, and its feature is live. */
  lemma NamedNow(s: Taxonomy, d: Draw, next: Taxonomy, end: Taxonomy, i: nat, j: nat)
    requires ApplyOne(s, d).Done? && next == ApplyOne(s, d).next && Proposable(d.change) && NoOrphans(s)
    requires UniqueIds(s) && UniqueIds(next) && UniqueIds(end) && Embeds(s, next) && Embeds(next, end) && Has(end, AtValue(i, j))
    requires UndoneSays(ApplyOne(s, d).applied, At(end, AtValue(i, j)).id).Some?
    ensures Has(next, AtFeature(i)) && Live(At(next, AtFeature(i)))
    ensures
      || Target(s, d.change) == Some(AtValue(i, j))
      || (d.change.AddValue? && LiveItem(s, FeatureSubject, d.change.feature) == Some(AtFeature(i)))
  {
    var v := AtValue(i, j);
    StepShape(s, d);
    CreatedIsDrawn(s, d);
    if Has(s, v) {
      assert At(end, v).id == At(s, v).id;
      UndoneSaysWas(s, d, v);
      NamedValue(s, d, i, j);
      assert Stamp(next, AtFeature(i)) == NewStamp(s, d.change, AtFeature(i));
    } else {
      NamedMade(s, d, next, end, v);
      AddedValue(s, d, i, j);
      assert Stamp(next, AtFeature(i)) == NewStamp(s, d.change, AtFeature(i));
    }
  }

  /** A new value that one change's undo names is added to a feature that was there. */
  lemma NamedMade(s: Taxonomy, d: Draw, next: Taxonomy, end: Taxonomy, v: Pos)
    requires ApplyOne(s, d).Done? && next == ApplyOne(s, d).next && UniqueIds(end)
    requires Embeds(s, next) && Embeds(next, end) && Has(end, v) && v.AtValue? && !Has(s, v)
    requires UniqueIds(next) && UndoneSays(ApplyOne(s, d).applied, At(end, v).id).Some?
    ensures Has(next, v) && Has(s, AtFeature(v.i))
  {
    var id := At(end, v).id;
    forall q | Has(s, q)
      ensures At(s, q).id != id
    {
      assert Has(next, q) && Has(end, q) && At(end, q).id == At(s, q).id;
    }
    NamesSomethingThere(s, d, id);
    CreatedIsDrawn(s, d);
    if !Has(next, v) {
      NotDrawn(s, d, end, v);
    } else if !Has(s, AtFeature(v.i)) {
      MadeTogether(s, d, v);
    }
  }

  /** The undo of an undo names what the undo does. */
  lemma {:induction false} RedoNames(undone: seq<Applied>, id: Id)
    requires UndoSays(undone, id).Some? && forall k :: 0 <= k < |undone| ==> Retirees(undone[k]) == []
    ensures LastSays(undone, id).Some?
  {
    if UndoneSays(undone[0], id) == None {
      assert forall k :: 0 <= k < |undone[1..]| ==> undone[1..][k] == undone[k + 1];
      RedoNames(undone[1..], id);
    }
  }

  lemma {:induction false} NothingMadeByUndo(v: Taxonomy, draws: seq<Draw>)
    requires ApplyAll(v, draws).BatchDone? && forall k :: 0 <= k < |draws| ==> Undoing(draws[k])
    ensures forall k :: 0 <= k < |draws| ==> Retirees(ApplyAll(v, draws).applied[k]) == []
    decreases |draws|
  {
    if draws != [] {
      OneMakesNothing(v, draws[0]);
      NothingMadeByUndo(ApplyOne(v, draws[0]).next, draws[1..]);
    }
  }

  lemma OneMakesNothing(v: Taxonomy, d: Draw)
    requires ApplyOne(v, d).Done? && Undoing(d)
    ensures Retirees(ApplyOne(v, d).applied) == []
  {
  }

  /** What undoing the undo last says of an item is how the batch left it. */
  lemma SaysAgain(
      t: Taxonomy, draws: seq<Draw>, n: Taxonomy, applied: seq<Applied>, u: Taxonomy, undone: seq<Applied>, p: Pos)
    requires Parts(t, draws, n, applied, u, undone) && !JoinedGoes(NewVersion(t), draws) && Has(n, p)
    ensures
      var said := UndoSays(undone, At(n, p).id);
      if said.Some? then said.value == !Live(At(n, p)) else LastSays(undone, At(n, p).id) == None
  {
    var m := NewVersion(n);
    var id := At(n, p).id;
    NewVersionPlaces(n);
    QuietSaysNothing(undone, id);
    if p.AtValue? {
      TripStarts(n, p.i, p.j);
      UndoTellsValue(m, Undo(applied), p.i, p.j);
      if UndoSays(undone, id) == Some(false) {
        SaidKeepsFeature(t, draws, n, applied, u, undone, p);
      }
    } else {
      UndoTells(m, Undo(applied), p);
    }
  }

  /** A value that undoing the undo names is of a feature that the batch leaves live. */
  lemma SaidKeepsFeature(
      t: Taxonomy, draws: seq<Draw>, n: Taxonomy, applied: seq<Applied>, u: Taxonomy, undone: seq<Applied>, p: Pos)
    requires Parts(t, draws, n, applied, u, undone) && !JoinedGoes(NewVersion(t), draws) && Has(n, p) && p.AtValue?
    requires UndoSays(undone, At(n, p).id).Some?
    ensures Live(At(n, AtFeature(p.i)))
  {
    var s := NewVersion(t);
    BatchUndoing(applied);
    NothingMadeByUndo(NewVersion(n), Undo(applied));
    RedoNames(undone, At(n, p).id);
    ApplyAllResolves(s, draws);
    UndoAllSays(NewVersion(n), applied, At(n, p).id);
    Refuses(t, draws);
    StartsSane(t);
    NamedKeepsFeature(s, draws, p.i, p.j);
  }

  // ---------------------------------------------------------------------- it is accepted

  /** What undoing the undo leaves, when it applies, is what the batch left. */
  ghost predicate Again(
      t: Taxonomy, draws: seq<Draw>, n: Taxonomy, applied: seq<Applied>, u: Taxonomy, undone: seq<Applied>, y: Taxonomy)
  {
    && Parts(t, draws, n, applied, u, undone) && !JoinedGoes(NewVersion(t), draws)
    && ApplyAll(NewVersion(u), Undo(undone)).BatchDone? && ApplyAll(NewVersion(u), Undo(undone)).next == y
    && Undone(n, y, MovedIn(undone)) && UniqueIds(y) && Embeds(n, y)
    && forall p :: Has(y, p) ==> Has(n, p)
  }

  lemma SaidAgain(
      t: Taxonomy, draws: seq<Draw>, n: Taxonomy, applied: seq<Applied>, u: Taxonomy, undone: seq<Applied>, y: Taxonomy, p: Pos)
    requires Again(t, draws, n, applied, u, undone, y) && Has(n, p)
    ensures
      var said := LastSaid(y.migrations, At(y, p).id);
      said.Some? ==> said.value == !Live(At(y, p))
  {
    var id := At(n, p).id;
    SaysAgain(t, draws, n, applied, u, undone, p);
    ApplyAllResolves(NewVersion(n), Undo(applied));
    UndoAllSays(NewVersion(u), undone, id);
    AllSaid(NewVersion(u), Undo(undone), id);
    AllSaid(NewVersion(n), Undo(applied), id);
  }

  lemma SlugsAgain(n: Taxonomy, y: Taxonomy, moved: set<Id>)
    requires Valid(n) && Undone(n, y, moved) && forall p :: Has(y, p) ==> Has(n, p)
    ensures UniqueSlugs(y)
    ensures forall i :: 0 <= i < |y.shelves| ==> y.shelves[i].item.slug != NONE_SHELF
  {
    forall p | Has(y, p)
      ensures At(y, p).slug == At(n, p).slug
    {
      assert SameWords(At(n, p), At(y, p), moved);
    }
    forall i | 0 <= i < |y.shelves|
      ensures y.shelves[i].item.slug != NONE_SHELF
    {
      assert Has(y, AtShelf(i));
    }
  }

  lemma AgainUsable(
      t: Taxonomy, draws: seq<Draw>, n: Taxonomy, applied: seq<Applied>, u: Taxonomy, undone: seq<Applied>, y: Taxonomy)
    requires Again(t, draws, n, applied, u, undone, y)
    ensures Valid(y)
  {
    var moved := MovedIn(undone);
    SlugsAgain(n, y, moved);
    BackUniqueNames(n, y, moved);
    ValidLinks(u);
    BatchUndoing(undone);
    LinksThereAll(NewVersion(u), Undo(undone));
    ShelvesBack(n, y, moved);
    forall i | 0 <= i < |y.features|
      ensures FeatureFits(y, y.features[i])
    {
      FeatureLive(n, y, moved, i);
    }
    forall p | Has(y, p)
      ensures
        var said := LastSaid(y.migrations, At(y, p).id);
        said.Some? ==> said.value == !Live(At(y, p))
    {
      SaidAgain(t, draws, n, applied, u, undone, y, p);
    }
    NewVersionFits(u);
    FitsAll(NewVersion(u), Undo(undone));
  }

  lemma UndoneIsSomething(v: Taxonomy, draws: seq<Draw>)
    requires ApplyAll(v, draws).BatchDone? && draws != [] && Undoing(draws[0])
    ensures Undo(ApplyAll(v, draws).applied) != []
  {
    SomethingToUndo(v, draws[0]);
    UndoSplits(ApplyAll(v, draws).applied);
  }

  /** An undo can be undone when no value joined a feature that the batch made, or that went after it. */
  lemma AcceptsAgain(
      t: Taxonomy, draws: seq<Draw>, n: Taxonomy, applied: seq<Applied>, u: Taxonomy, undone: seq<Applied>)
    requires Parts(t, draws, n, applied, u, undone)
    requires !JoinedGoes(NewVersion(t), draws) && !MadeGrows(NewVersion(t), draws)
    ensures ApplyChanges(u, Undo(undone)).BatchDone?
  {
    RedoGoes(t, draws, n, applied, u, undone);
    var y := ApplyAll(NewVersion(u), Undo(undone)).next;
    UndoneNewVersion(n, y, MovedIn(undone));
    assert forall p :: Has(NewVersion(n), p) ==> Has(n, p);
    MirrorEmbeds(n, y, MovedIn(undone));
    AgainUsable(t, draws, n, applied, u, undone, y);
    BatchUndoing(applied);
    UndoneIsSomething(NewVersion(n), Undo(applied));
  }
}
