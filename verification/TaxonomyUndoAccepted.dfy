/**
 When the undo of a proposed batch is accepted: exactly when no two items of a kind ever had one slug, no value goes
 that its feature came with or goes after it in the batch.
 */
module TaxonomyUndoAccepted {
  import opened Basics
  import opened Taxonomies
  import opened TaxonomyChanges
  import opened TaxonomySteps
  import opened TaxonomyForwarding
  import opened TaxonomyUndo
  import opened TaxonomyUndoBatch
  import opened TaxonomyLinks
  import opened TaxonomyUndoOne
  import opened TaxonomyEffects
  import opened TaxonomyMirror

  // ---------------------------------------------------------------------- the condition

  /** The slug an item of a batch's result had first: before the batch, or when the batch made it. */
  ghost function BornSlug(s: Taxonomy, draws: seq<Draw>, p: Pos): string
    requires ApplyAll(s, draws).BatchDone? && Has(ApplyAll(s, draws).next, p)
    decreases |draws|
  {
    if Has(s, p) then At(s, p).slug else BornSlug(ApplyOne(s, draws[0]).next, draws[1..], p)
  }

  /** No two items of a kind had one slug first, and no shelf the one that means none of them. */
  ghost predicate SlugsBornApart(s: Taxonomy, draws: seq<Draw>)
    requires ApplyAll(s, draws).BatchDone?
  {
    var n := ApplyAll(s, draws).next;
    && (forall p, q :: Has(n, p) && Has(n, q) && p != q && KindOf(p) == KindOf(q) ==>
          BornSlug(s, draws, p) != BornSlug(s, draws, q))
    && (forall i :: Has(n, AtShelf(i)) ==> BornSlug(s, draws, AtShelf(i)) != NONE_SHELF)
  }

  /** Whether a change of a batch retires, merges or restores the item at a place by name. */
  ghost predicate Goes(s: Taxonomy, draws: seq<Draw>, p: Pos)
    requires ApplyAll(s, draws).BatchDone?
    decreases |draws|
  {
    draws != [] && (Target(s, draws[0].change) == Some(p) || Goes(ApplyOne(s, draws[0]).next, draws[1..], p))
  }

  /** A value goes by name, and later in the batch its feature goes. */
  ghost predicate FeatureFollows(s: Taxonomy, draws: seq<Draw>)
    requires ApplyAll(s, draws).BatchDone?
    decreases |draws|
  {
    && draws != []
    && var next := ApplyOne(s, draws[0]).next;
       || (Target(s, draws[0].change).Some? && Target(s, draws[0].change).value.AtValue?
           && Goes(next, draws[1..], AtFeature(Target(s, draws[0].change).value.i)))
       || FeatureFollows(next, draws[1..])
  }

  /** A feature is made with a value, and later in the batch that value goes by name. */
  ghost predicate MadeValueGoes(s: Taxonomy, draws: seq<Draw>)
    requires ApplyAll(s, draws).BatchDone?
    decreases |draws|
  {
    && draws != []
    && var next := ApplyOne(s, draws[0]).next;
       || (draws[0].change.AddFeature?
           && exists j :: Has(next, AtValue(|s.features|, j)) && Goes(next, draws[1..], AtValue(|s.features|, j)))
       || MadeValueGoes(next, draws[1..])
  }

  // ---------------------------------------------------------------------- slugs

  lemma NewSlugStays(s: Taxonomy, d: Draw, v: Taxonomy, p: Pos)
    requires ApplyOne(s, d).Done? && Embeds(s, v) && UniqueIds(v) && Has(v, p) && !Has(s, p)
    requires ApplyAll(v, Undoers(s, d)).BatchDone?
    ensures Has(ApplyAll(v, Undoers(s, d)).next, p) && At(ApplyAll(v, Undoers(s, d)).next, p).slug == At(v, p).slug
  {
    var w := ApplyAll(v, Undoers(s, d)).next;
    if KeepsWords(d.change) {
      UndoKeepsWords(s, d);
      ContentKeptAll(v, Undoers(s, d));
      assert SameWords(At(v, p), At(w, p), {});
    } else {
      OneUndone(s, d);
      var back := Undoers(s, d)[0];
      OneSays(v, Undoers(s, d), "");
      ChangeDoes(v, back);
      TextNamesThere(s, d, v, p, back);
      assert LeftAs(v, back.change, w, p);
    }
  }

  /** A text change's undo names the item the change named, so nothing new. */
  lemma TextNamesThere(s: Taxonomy, d: Draw, v: Taxonomy, p: Pos, back: Draw)
    requires ApplyOne(s, d).Done? && !KeepsWords(d.change) && Embeds(s, v) && UniqueIds(v) && Has(v, p) && !Has(s, p)
    requires |Undoers(s, d)| == 1 && back == Undoers(s, d)[0]
    ensures SlugAfter(v, back.change, p) == At(v, p).slug
  {
    if d.change.Rename? {
      var q := LiveItem(s, d.change.subject, d.change.item).value;
      assert Has(v, q) && At(v, q).id == At(s, q).id;
      FindAt(v, q);
    }
  }

  /** A batch's undo gives every item, new ones too, the slug it had first. */
  lemma {:induction false} SlugsBack(s: Taxonomy, draws: seq<Draw>, r: Taxonomy, p: Pos)
    requires ApplyAll(s, draws).BatchDone? && SameContent(ApplyAll(s, draws).next, r, {}) && Has(ApplyAll(s, draws).next, p)
    requires ApplyAll(r, Undo(ApplyAll(s, draws).applied)).BatchDone?
    requires UniqueIds(ApplyAll(r, Undo(ApplyAll(s, draws).applied)).next)
    ensures Has(ApplyAll(r, Undo(ApplyAll(s, draws).applied)).next, p)
    ensures At(ApplyAll(r, Undo(ApplyAll(s, draws).applied)).next, p).slug == BornSlug(s, draws, p)
    decreases |draws|
  {
    var BatchDone(end, applied) := ApplyAll(s, draws);
    var w := ApplyAll(r, Undo(applied)).next;
    UndoneContentAll(s, draws, r);
    if Has(s, p) {
      assert SameWords(At(s, p), At(w, p), MovedIn(applied));
    } else {
      var Done(next, a) := ApplyOne(s, draws[0]);
      var rest := ApplyAll(next, draws[1..]).applied;
      assert applied[1..] == rest;
      UndoSplits(applied);
      ApplyAllConcat(r, Undo(rest), UndoOf(a));
      var v := ApplyAll(r, Undo(rest)).next;
      EmbedsAll(v, UndoOf(a));
      EmbedsKeepsUnique(v, w);
      SlugsBack(next, draws[1..], r, p);
      UndoneContentAll(next, draws[1..], r);
      MirrorEmbeds(next, v, MovedIn(rest));
      StepShape(s, draws[0]);
      EmbedsOn(s, next, v);
      NewSlugStays(s, draws[0], v, p);
    }
  }

  // ---------------------------------------------------------------------- what the undo last says

  /** What was there is named by the undo only to bring it back, and only if it was live. */
  lemma {:induction false} SaidOfOld(s: Taxonomy, draws: seq<Draw>, p: Pos)
    requires ApplyAll(s, draws).BatchDone? && UniqueIds(ApplyAll(s, draws).next) && Has(s, p)
    requires forall k :: 0 <= k < |draws| ==> Proposable(draws[k].change)
    ensures
      var applied := ApplyAll(s, draws).applied;
      var said := UndoSays(applied, At(s, p).id);
      && (said.Some? <==> Goes(s, draws, p))
      && (said.Some? ==> said == Some(false) && Live(At(s, p)))
      && (said == None ==> Quiet(applied, At(s, p).id))
    decreases |draws|
  {
    if draws != [] {
      var Done(next, a) := ApplyOne(s, draws[0]);
      EmbedsAll(next, draws[1..]);
      EmbedsKeepsUnique(next, ApplyAll(next, draws[1..]).next);
      StepShape(s, draws[0]);
      EmbedsKeepsUnique(s, next);
      UndoneSaysWas(s, draws[0], p);
      TargetSaid(s, draws[0], p);
      SaidOfOld(next, draws[1..], p);
      UndoSaysHead(a, ApplyAll(next, draws[1..]).applied, At(s, p).id);
      assert Stamp(next, p) == NewStamp(s, draws[0].change, p);
    }
  }

  /** What a batch made is last said to be retired, or never named, unless its feature was made with it and it goes. */
  lemma {:induction false} SaidOfMade(s: Taxonomy, draws: seq<Draw>, p: Pos)
    requires ApplyAll(s, draws).BatchDone? && UniqueIds(ApplyAll(s, draws).next)
    requires Has(ApplyAll(s, draws).next, p) && !Has(s, p)
    requires forall k :: 0 <= k < |draws| ==> Proposable(draws[k].change)
    requires !MadeValueGoes(s, draws)
    ensures
      var applied := ApplyAll(s, draws).applied;
      var id := At(ApplyAll(s, draws).next, p).id;
      UndoSays(applied, id) == Some(true) || (UndoSays(applied, id) == None && Quiet(applied, id))
    decreases |draws|
  {
    var u := ApplyAll(s, draws).next;
    var id := At(u, p).id;
    assert draws != [];
    var Done(next, a) := ApplyOne(s, draws[0]);
    EmbedsAll(next, draws[1..]);
    EmbedsKeepsUnique(next, u);
    StepShape(s, draws[0]);
    UndoSaysHead(a, ApplyAll(next, draws[1..]).applied, id);
    NamesSomethingThere(s, draws[0], id);
    CreatedIsDrawn(s, draws[0]);
    if !Has(next, p) {
      SaidOfMade(next, draws[1..], p);
      NotDrawn(s, draws[0], u, p);
    } else if p.AtValue? && !Has(s, AtFeature(p.i)) {
      MadeTogether(s, draws[0], p);
      SaidOfOld(next, draws[1..], p);
    } else {
      MadeIsRetiree(s, draws[0], p);
    }
  }

  /** A value new with its feature: the change makes both, and its undo names the feature only. */
  lemma MadeTogether(s: Taxonomy, d: Draw, p: Pos)
    requires ApplyOne(s, d).Done? && UniqueIds(ApplyOne(s, d).next)
    requires Has(ApplyOne(s, d).next, p) && !Has(s, p) && p.AtValue? && !Has(s, AtFeature(p.i))
    ensures d.change.AddFeature? && p.i == |s.features|
    ensures UndoneSays(ApplyOne(s, d).applied, At(ApplyOne(s, d).next, p).id) == None
  {
    var n := ApplyOne(s, d).next;
    NewFeatures(s, d);
    assert d.change.AddFeature? && p.i == |s.features|;
    assert Has(n, AtFeature(p.i)) && At(n, AtFeature(p.i)).id != At(n, p).id;
  }

  /** A value made with its feature, and gone by name, is last said to be live. */
  lemma {:induction false} SaidLive(s: Taxonomy, draws: seq<Draw>) returns (p: Pos)
    requires ApplyAll(s, draws).BatchDone? && UniqueIds(ApplyAll(s, draws).next)
    requires forall k :: 0 <= k < |draws| ==> Proposable(draws[k].change)
    requires MadeValueGoes(s, draws)
    ensures Has(ApplyAll(s, draws).next, p) && !Has(s, p)
    ensures UndoSays(ApplyAll(s, draws).applied, At(ApplyAll(s, draws).next, p).id) == Some(false)
    decreases |draws|
  {
    var u := ApplyAll(s, draws).next;
    var Done(next, a) := ApplyOne(s, draws[0]);
    EmbedsAll(next, draws[1..]);
    EmbedsKeepsUnique(next, u);
    StepShape(s, draws[0]);
    if MadeValueGoes(next, draws[1..]) {
      p := SaidLive(next, draws[1..]);
      NotDrawn(s, draws[0], u, p);
    } else {
      var j :| Has(next, AtValue(|s.features|, j)) && Goes(next, draws[1..], AtValue(|s.features|, j));
      p := AtValue(|s.features|, j);
      MadeTogether(s, draws[0], p);
      SaidOfOld(next, draws[1..], p);
    }
    var id := At(u, p).id;
    UndoSaysHead(a, ApplyAll(next, draws[1..]).applied, id);
    NamesSomethingThere(s, draws[0], id);
    CreatedIsDrawn(s, draws[0]);
  }

  // ---------------------------------------------------------------------- the condition suffices

  /** A proposed batch that a usable taxonomy accepts: the version before it, what it makes, and the next version of that. */
  ghost predicate Proposed(t: Taxonomy, draws: seq<Draw>) {
    && Valid(t) && NoOrphans(t)
    && ApplyChanges(t, draws).BatchDone?
    && forall k :: 0 <= k < |draws| ==> Proposable(draws[k].change)
  }

  lemma StartsSane(t: Taxonomy)
    requires Valid(t) && NoOrphans(t)
    ensures Sane(NewVersion(t)) && StampedBefore(NewVersion(t))
  {
    ValidNewVersion(t);
    assert forall p :: Has(NewVersion(t), p) ==> Has(t, p) && At(NewVersion(t), p) == At(t, p);
  }

  lemma StartsMirrored(n: Taxonomy)
    requires UniqueIds(n)
    ensures Mirrors(n, NewVersion(n), {})
  {
    var m := NewVersion(n);
    assert forall p :: Has(m, p) <==> Has(n, p);
    assert forall p :: Has(n, p) ==> At(m, p) == At(n, p);
  }

  /** A feature that goes with a value lost in the batch lost it by name, in the batch. */
  lemma {:induction false} LosesByName(s: Taxonomy, draws: seq<Draw>)
    requires ApplyAll(s, draws).BatchDone? && UniqueIds(ApplyAll(s, draws).next)
    requires forall k :: 0 <= k < |draws| ==> Proposable(draws[k].change)
    requires !FeatureFollows(s, draws)
    requires forall i, j :: Has(s, AtValue(i, j)) && Stamp(s, AtValue(i, j)) == Some(s.version) && Live(At(s, AtFeature(i))) ==>
      !Goes(s, draws, AtFeature(i))
    ensures AllLoseWhole(s, draws)
    decreases |draws|
  {
    if draws != [] {
      var d := draws[0];
      var next := ApplyOne(s, d).next;
      EmbedsAll(next, draws[1..]);
      EmbedsKeepsUnique(next, ApplyAll(next, draws[1..]).next);
      StepShape(s, d);
      EmbedsKeepsUnique(s, next);
      forall i, j | Has(next, AtValue(i, j)) && Stamp(next, AtValue(i, j)) == Some(next.version) && Live(At(next, AtFeature(i)))
        ensures !Goes(next, draws[1..], AtFeature(i))
      {
        LostSince(s, d, next, i, j);
      }
      LosesByName(next, draws[1..]);
      GoneGuards(s, d);
    }
  }

  /** A value lost by now, of a feature still live, was lost before, or by this change, by name. */
  lemma LostSince(s: Taxonomy, d: Draw, next: Taxonomy, i: nat, j: nat)
    requires ApplyOne(s, d).Done? && next == ApplyOne(s, d).next && UniqueIds(s) && Proposable(d.change)
    requires Has(next, AtValue(i, j)) && Stamp(next, AtValue(i, j)) == Some(next.version) && Live(At(next, AtFeature(i)))
    ensures Has(s, AtValue(i, j))
    ensures
      || Target(s, d.change) == Some(AtValue(i, j))
      || (Stamp(s, AtValue(i, j)) == Some(s.version) && Live(At(s, AtFeature(i))))
    ensures Target(s, d.change) != Some(AtFeature(i))
  {
    StepShape(s, d);
    var v, f := AtValue(i, j), AtFeature(i);
    assert Has(s, v) && Has(s, f);
    assert Stamp(next, v) == NewStamp(s, d.change, v) && Stamp(next, f) == NewStamp(s, d.change, f);
  }

  /** What the undo leaves, if it is usable, slugs apart. */
  lemma SaidBack(t: Taxonomy, draws: seq<Draw>, u: Taxonomy, undone: seq<Applied>, moved: set<Id>, p: Pos)
    requires Proposed(t, draws) && !MadeValueGoes(NewVersion(t), draws)
    requires ApplyAll(NewVersion(ApplyChanges(t, draws).next), Undo(ApplyChanges(t, draws).applied)) == BatchDone(u, undone)
    requires Undone(t, u, moved) && Has(u, p)
    ensures
      var said := LastSaid(u.migrations, At(u, p).id);
      said.Some? ==> said.value == !Live(At(u, p))
  {
    var s := NewVersion(t);
    var BatchDone(n, applied) := ApplyAll(s, draws);
    var m := NewVersion(n);
    NewVersionPlaces(n);
    NewVersionPlaces(t);
    EmbedsAll(m, Undo(applied));
    NothingMade(m, Undo(applied), p);
    var id := At(u, p).id;
    assert At(m, p).id == id && At(n, p).id == id;
    ApplyAllResolves(s, draws);
    UndoAllSays(m, applied, id);
    AllSaid(m, Undo(applied), id);
    AllSaid(s, draws, id);
    QuietSaysNothing(applied, id);
    EmbedsAll(s, draws);
    if Has(s, p) {
      SaidOfOld(s, draws, p);
      assert Has(t, p) && At(t, p).id == id;
    } else {
      assert !Has(t, p);
      SaidOfMade(s, draws, p);
      EmbedsOn(t, s, n);
      NewIdNeverSaid(t, n, p);
    }
  }

  /** The undo of a batch that meets the condition applies, and makes a usable taxonomy. */
  lemma Accepts(t: Taxonomy, draws: seq<Draw>)
    requires Proposed(t, draws)
    requires SlugsBornApart(NewVersion(t), draws)
    requires !FeatureFollows(NewVersion(t), draws) && !MadeValueGoes(NewVersion(t), draws)
    ensures ApplyChanges(ApplyChanges(t, draws).next, Undo(ApplyChanges(t, draws).applied)).BatchDone?
  {
    var s := NewVersion(t);
    var BatchDone(n, applied) := ApplyAll(s, draws);
    var m := NewVersion(n);
    StartsSane(t);
    StartsMirrored(n);
    LosesByName(s, draws);
    BatchGoesBack(s, draws, m);
    var BatchDone(u, undone) := ApplyAll(m, Undo(applied));
    var moved := MovedIn(applied);
    MirrorUndone(t, u, moved);
    MirrorEmbeds(t, u, moved);
    BatchUndoing(applied);
    BackUsable(t, draws, u, undone, moved);
    SomethingUndone(s, draws);
  }

  lemma MirrorUndone(t: Taxonomy, u: Taxonomy, moved: set<Id>)
    requires Mirrors(NewVersion(t), u, moved)
    ensures Undone(t, u, moved)
  {
    UndoneNewVersion(t, u, moved);
  }

  lemma {:induction false} BatchUndoing(applied: seq<Applied>)
    ensures forall k :: 0 <= k < |Undo(applied)| ==> Undoing(Undo(applied)[k])
  {
    if applied != [] {
      BatchUndoing(applied[1..]);
      UndoSplits(applied);
      InverseUndoes(applied[0]);
    }
  }

  lemma SomethingUndone(s: Taxonomy, draws: seq<Draw>)
    requires ApplyAll(s, draws).BatchDone? && draws != [] && Proposable(draws[0].change)
    ensures Undo(ApplyAll(s, draws).applied) != []
  {
    SomethingToUndo(s, draws[0]);
    UndoSplits(ApplyAll(s, draws).applied);
  }

  lemma BackUsable(t: Taxonomy, draws: seq<Draw>, u: Taxonomy, undone: seq<Applied>, moved: set<Id>)
    requires Proposed(t, draws) && SlugsBornApart(NewVersion(t), draws) && !MadeValueGoes(NewVersion(t), draws)
    requires ApplyAll(NewVersion(ApplyChanges(t, draws).next), Undo(ApplyChanges(t, draws).applied)) == BatchDone(u, undone)
    requires Undone(t, u, moved) && UniqueIds(u) && Embeds(t, u)
    requires forall k :: 0 <= k < |Undo(ApplyChanges(t, draws).applied)| ==> Undoing(Undo(ApplyChanges(t, draws).applied)[k])
    ensures Valid(u)
  {
    var n := ApplyChanges(t, draws).next;
    SlugsApartAfter(t, draws, u);
    BackUniqueNames(t, u, moved);
    ValidLinks(n);
    LinksThereAll(NewVersion(n), Undo(ApplyChanges(t, draws).applied));
    ShelvesBack(t, u, moved);
    forall i | 0 <= i < |u.features|
      ensures FeatureFits(u, u.features[i])
    {
      FeatureLive(t, u, moved, i);
    }
    forall p | Has(u, p)
      ensures
        var said := LastSaid(u.migrations, At(u, p).id);
        said.Some? ==> said.value == !Live(At(u, p))
    {
      SaidBack(t, draws, u, undone, moved, p);
    }
    NewVersionFits(n);
    FitsAll(NewVersion(n), Undo(ApplyChanges(t, draws).applied));
  }

  /** After an undo, slugs are apart exactly when they were born apart. */
  lemma SlugsApartAfter(t: Taxonomy, draws: seq<Draw>, u: Taxonomy)
    requires Proposed(t, draws) && UniqueIds(u)
    requires ApplyAll(NewVersion(ApplyChanges(t, draws).next), Undo(ApplyChanges(t, draws).applied)).BatchDone?
    requires u == ApplyAll(NewVersion(ApplyChanges(t, draws).next), Undo(ApplyChanges(t, draws).applied)).next
    ensures
      SlugsBornApart(NewVersion(t), draws) <==>
        UniqueSlugs(u) && forall i :: 0 <= i < |u.shelves| ==> u.shelves[i].item.slug != NONE_SHELF
  {
    var s := NewVersion(t);
    var BatchDone(n, applied) := ApplyAll(s, draws);
    var m := NewVersion(n);
    StartsMirrored(n);
    EmbedsAll(m, Undo(applied));
    forall p
      ensures Has(n, p) <==> Has(u, p)
      ensures Has(n, p) ==> At(u, p).slug == BornSlug(s, draws, p)
    {
      if Has(u, p) {
        NothingMade(m, Undo(applied), p);
      }
      if Has(n, p) {
        SlugsBack(s, draws, m, p);
      }
    }
    SlugsAre(s, draws, u);
  }

  lemma SlugsAre(s: Taxonomy, draws: seq<Draw>, u: Taxonomy)
    requires ApplyAll(s, draws).BatchDone?
    requires forall p :: Has(ApplyAll(s, draws).next, p) <==> Has(u, p)
    requires forall p :: Has(u, p) ==> At(u, p).slug == BornSlug(s, draws, p)
    ensures
      SlugsBornApart(s, draws) <==>
        UniqueSlugs(u) && forall i :: 0 <= i < |u.shelves| ==> u.shelves[i].item.slug != NONE_SHELF
  {
    assert forall i :: 0 <= i < |u.shelves| ==> Has(u, AtShelf(i)) && At(u, AtShelf(i)) == u.shelves[i].item;
    assert forall i: nat :: Has(u, AtShelf(i)) ==> i < |u.shelves|;
  }

  // ---------------------------------------------------------------------- and is needed

  /** No change of these names an item. */
  ghost predicate Unnamed(t: Taxonomy, draws: seq<Draw>, id: Id) {
    forall k :: 0 <= k < |draws| ==>
      match draws[k].change
      case Merge(_, _, _) => false
      case Retire(_, item) => item.ById? && item.id != id
      case Restore(_, item) => item.ById? && item.id != id
      case _ => true
  }

  /** An item no change names, nor its feature, is retired when it was. */
  lemma {:induction false} UnnamedStays(v: Taxonomy, draws: seq<Draw>, p: Pos)
    requires ApplyAll(v, draws).BatchDone? && Has(v, p) && Unnamed(v, draws, At(v, p).id)
    requires p.AtValue? ==> Unnamed(v, draws, At(v, AtFeature(p.i)).id)
    ensures Has(ApplyAll(v, draws).next, p) && Stamp(ApplyAll(v, draws).next, p) == Stamp(v, p)
    decreases |draws|
  {
    if draws != [] {
      var next := ApplyOne(v, draws[0]).next;
      StepShape(v, draws[0]);
      assert p.AtValue? ==> Has(v, AtFeature(p.i));
      assert Stamp(next, p) == NewStamp(v, draws[0].change, p);
      UnnamedStays(next, draws[1..], p);
    }
  }

  /** A change's undo names what the change took away, or what it made. */
  lemma UndoNames(s: Taxonomy, d: Draw, v: Taxonomy, p: Pos)
    requires ApplyOne(s, d).Done? && Proposable(d.change) && Has(s, p) && UniqueIds(ApplyOne(s, d).next)
    requires Target(s, d.change) != Some(p)
    ensures Unnamed(v, Undoers(s, d), At(s, p).id)
  {
    StepShape(s, d);
    EmbedsKeepsUnique(s, ApplyOne(s, d).next);
    CreatedIsDrawn(s, d);
    assert At(ApplyOne(s, d).next, p).id == At(s, p).id;
    NotDrawn(s, d, ApplyOne(s, d).next, p);
    if Target(s, d.change).Some? {
      assert At(s, Target(s, d.change).value).id != At(s, p).id;
      UndoIsRestore(s, d, Target(s, d.change).value);
    } else {
      UndoersRetireMade(s, d);
    }
  }

  /** Undoing a change that isn't about an item, nor its feature, leaves when it is retired. */
  lemma UndoLeaves(s: Taxonomy, d: Draw, v: Taxonomy, p: Pos)
    requires ApplyOne(s, d).Done? && Proposable(d.change) && Has(s, p) && UniqueIds(ApplyOne(s, d).next)
    requires Target(s, d.change) != Some(p) && (p.AtValue? ==> Target(s, d.change) != Some(AtFeature(p.i)))
    requires Embeds(s, v) && ApplyAll(v, Undoers(s, d)).BatchDone?
    ensures
      var w := ApplyAll(v, Undoers(s, d)).next;
      Has(w, p) && Stamp(w, p) == Stamp(v, p)
  {
    UndoNames(s, d, v, p);
    if p.AtValue? {
      assert Has(s, AtFeature(p.i));
      UndoNames(s, d, v, AtFeature(p.i));
    }
    UnnamedStays(v, Undoers(s, d), p);
  }

  lemma UndoersRetireMade(s: Taxonomy, d: Draw)
    requires ApplyOne(s, d).Done? && Proposable(d.change) && Target(s, d.change) == None
    ensures forall k :: 0 <= k < |Undoers(s, d)| ==>
      match Undoers(s, d)[k].change
      case Merge(_, _, _) => false
      case Retire(_, item) => item.ById? && item.id in d.ids
      case Restore(_, _) => false
      case _ => true
  {
    CreatedIsDrawn(s, d);
  }

  /** What undoing the rest of a batch leaves as it was stays so as the next change is undone, if that leaves it too. */
  lemma UndoneHead(s: Taxonomy, draws: seq<Draw>, r: Taxonomy)
    requires draws != [] && ApplyAll(s, draws).BatchDone? && UniqueIds(ApplyAll(s, draws).next)
    requires ApplyAll(r, Undo(ApplyAll(s, draws).applied)).BatchDone?
    ensures
      var next := ApplyOne(s, draws[0]).next;
      var rest := ApplyAll(next, draws[1..]).applied;
      && UniqueIds(next) && UniqueIds(s)
      && ApplyAll(r, Undo(rest)).BatchDone?
      && var v := ApplyAll(r, Undo(rest)).next;
      && ApplyAll(v, Undoers(s, draws[0])).BatchDone?
      && ApplyAll(v, Undoers(s, draws[0])).next == ApplyAll(r, Undo(ApplyAll(s, draws).applied)).next
  {
    var Done(next, a) := ApplyOne(s, draws[0]);
    var BatchDone(end, rest) := ApplyAll(next, draws[1..]);
    EmbedsAll(next, draws[1..]);
    EmbedsKeepsUnique(next, end);
    StepShape(s, draws[0]);
    EmbedsKeepsUnique(s, next);
    assert ([a] + rest)[1..] == rest;
    UndoSplits([a] + rest);
    ApplyAllConcat(r, Undo(rest), UndoOf(a));
  }

  /** What a batch's end is undone from: it has the end's items, retired when they are there. */
  ghost predicate HasStamps(end: Taxonomy, r: Taxonomy) {
    forall p :: Has(end, p) ==> Has(r, p) && At(r, p).id == At(end, p).id && Stamp(r, p) == Stamp(end, p)
  }

  lemma UndoneEmbeds(s: Taxonomy, draws: seq<Draw>, r: Taxonomy)
    requires ApplyAll(s, draws).BatchDone? && HasStamps(ApplyAll(s, draws).next, r)
    requires ApplyAll(r, Undo(ApplyAll(s, draws).applied)).BatchDone?
    ensures Embeds(s, ApplyAll(r, Undo(ApplyAll(s, draws).applied)).next)
  {
    EmbedsAll(s, draws);
    EmbedsAll(r, Undo(ApplyAll(s, draws).applied));
  }

  /** What was retired already, its feature too, stays retired when it was, forward and back. */
  lemma {:induction false} RetiredStays(s: Taxonomy, draws: seq<Draw>, r: Taxonomy, p: Pos)
    requires ApplyAll(s, draws).BatchDone? && UniqueIds(ApplyAll(s, draws).next)
    requires forall k :: 0 <= k < |draws| ==> Proposable(draws[k].change)
    requires HasStamps(ApplyAll(s, draws).next, r) && ApplyAll(r, Undo(ApplyAll(s, draws).applied)).BatchDone?
    requires Has(s, p) && Stamp(s, p).Some? && (p.AtValue? ==> Stamp(s, AtFeature(p.i)).Some?)
    ensures
      var w := ApplyAll(r, Undo(ApplyAll(s, draws).applied)).next;
      Has(w, p) && Stamp(w, p) == Stamp(s, p)
    decreases |draws|
  {
    if draws != [] {
      var d := draws[0];
      var next := ApplyOne(s, d).next;
      UndoneHead(s, draws, r);
      StepShape(s, d);
      GoneGuards(s, d);
      assert p.AtValue? ==> Has(s, AtFeature(p.i));
      assert Stamp(next, p) == NewStamp(s, d.change, p);
      assert p.AtValue? ==> Stamp(next, AtFeature(p.i)) == NewStamp(s, d.change, AtFeature(p.i));
      RetiredStays(next, draws[1..], r, p);
      var v := ApplyAll(r, Undo(ApplyAll(next, draws[1..]).applied)).next;
      UndoneEmbeds(next, draws[1..], r);
      EmbedsOn(s, next, v);
      UndoLeaves(s, d, v, p);
    }
  }

  /** A value lost in a batch is lost still after a change, and its feature as the change has it. */
  lemma LostStays(s: Taxonomy, d: Draw, i: nat, j: nat)
    requires ApplyOne(s, d).Done? && UniqueIds(s) && Proposable(d.change)
    requires Has(s, AtValue(i, j)) && Stamp(s, AtValue(i, j)) == Some(s.version)
    ensures
      var next := ApplyOne(s, d).next;
      && Has(next, AtValue(i, j)) && Stamp(next, AtValue(i, j)) == Some(next.version)
      && (Target(s, d.change) == Some(AtFeature(i)) ==> Stamp(next, AtFeature(i)) == Some(next.version))
    ensures Target(s, d.change) != Some(AtValue(i, j))
  {
    StepShape(s, d);
    GoneGuards(s, d);
    var next := ApplyOne(s, d).next;
    assert Has(s, AtFeature(i));
    assert Stamp(next, AtValue(i, j)) == NewStamp(s, d.change, AtValue(i, j));
    assert Stamp(next, AtFeature(i)) == NewStamp(s, d.change, AtFeature(i));
  }

  /** A value lost in a batch, whose feature goes after it, comes back as the feature does. */
  lemma {:induction false} BringsBack(s: Taxonomy, draws: seq<Draw>, r: Taxonomy, i: nat, j: nat)
    requires ApplyAll(s, draws).BatchDone? && UniqueIds(ApplyAll(s, draws).next)
    requires forall k :: 0 <= k < |draws| ==> Proposable(draws[k].change)
    requires UniqueIds(r) && HasStamps(ApplyAll(s, draws).next, r) && ApplyAll(r, Undo(ApplyAll(s, draws).applied)).BatchDone?
    requires Has(s, AtValue(i, j)) && Stamp(s, AtValue(i, j)) == Some(s.version) && Goes(s, draws, AtFeature(i))
    ensures
      var w := ApplyAll(r, Undo(ApplyAll(s, draws).applied)).next;
      Has(w, AtValue(i, j)) && Live(At(w, AtValue(i, j)))
    decreases |draws|
  {
    var d, p := draws[0], AtValue(i, j);
    var next := ApplyOne(s, d).next;
    UndoneHead(s, draws, r);
    LostStays(s, d, i, j);
    var v := ApplyAll(r, Undo(ApplyAll(next, draws[1..]).applied)).next;
    UndoneEmbeds(next, draws[1..], r);
    StepShape(s, d);
    EmbedsOn(s, next, v);
    if Target(s, d.change) == Some(AtFeature(i)) {
      RetiredStays(next, draws[1..], r, p);
      RetiredStays(next, draws[1..], r, AtFeature(i));
      UndoKeepsIds(r, Undo(ApplyAll(next, draws[1..]).applied));
      RestoresBoth(s, d, v, i, j);
    } else {
      BringsBack(next, draws[1..], r, i, j);
      UndoLeaves(s, d, v, p);
    }
  }

  /** Bringing a feature back brings back a value retired in the same version. */
  lemma RestoresBoth(s: Taxonomy, d: Draw, v: Taxonomy, i: nat, j: nat)
    requires ApplyOne(s, d).Done? && Proposable(d.change) && Target(s, d.change) == Some(AtFeature(i)) && Embeds(s, v)
    requires Has(v, AtValue(i, j)) && Stamp(v, AtValue(i, j)) == Stamp(v, AtFeature(i))
    requires UniqueIds(v) && ApplyAll(v, Undoers(s, d)).BatchDone?
    ensures Has(ApplyAll(v, Undoers(s, d)).next, AtValue(i, j))
    ensures Live(At(ApplyAll(v, Undoers(s, d)).next, AtValue(i, j)))
  {
    UndoIsRestore(s, d, AtFeature(i));
    var back := Undoers(s, d)[0];
    OneSays(v, Undoers(s, d), "");
    FindAt(v, AtFeature(i));
    StepShape(v, back);
    assert Stamp(ApplyOne(v, back).next, AtValue(i, j)) == NewStamp(v, back.change, AtValue(i, j));
  }

  /** A batch where a feature follows a value has an undo that does not apply. */
  lemma {:induction false} FollowedRefused(s: Taxonomy, draws: seq<Draw>, r: Taxonomy)
    requires ApplyAll(s, draws).BatchDone? && UniqueIds(ApplyAll(s, draws).next)
    requires forall k :: 0 <= k < |draws| ==> Proposable(draws[k].change)
    requires UniqueIds(r) && HasStamps(ApplyAll(s, draws).next, r) && FeatureFollows(s, draws)
    ensures ApplyAll(r, Undo(ApplyAll(s, draws).applied)).BatchRefused?
    decreases |draws|
  {
    if ApplyAll(r, Undo(ApplyAll(s, draws).applied)).BatchDone? {
      var next := ApplyOne(s, draws[0]).next;
      UndoneHead(s, draws, r);
      if FeatureFollows(next, draws[1..]) {
        FollowedRefused(next, draws[1..], r);
      } else {
        HeadFollowedRefused(s, draws, r);
      }
    }
  }

  /** What is live can't be brought back. */
  lemma LiveNotRestored(s: Taxonomy, d: Draw, v: Taxonomy, p: Pos)
    requires ApplyOne(s, d).Done? && Proposable(d.change) && Target(s, d.change) == Some(p) && Embeds(s, v)
    requires UniqueIds(v) && Has(v, p) && Live(At(v, p))
    ensures ApplyAll(v, Undoers(s, d)).BatchRefused?
  {
    UndoIsRestore(s, d, p);
    FindAt(v, p);
  }

  lemma HeadFollowedRefused(s: Taxonomy, draws: seq<Draw>, r: Taxonomy)
    requires draws != [] && ApplyAll(s, draws).BatchDone? && UniqueIds(ApplyAll(s, draws).next)
    requires forall k :: 0 <= k < |draws| ==> Proposable(draws[k].change)
    requires UniqueIds(r) && HasStamps(ApplyAll(s, draws).next, r)
    requires Target(s, draws[0].change).Some? && Target(s, draws[0].change).value.AtValue?
    requires Goes(ApplyOne(s, draws[0]).next, draws[1..], AtFeature(Target(s, draws[0].change).value.i))
    ensures ApplyAll(r, Undo(ApplyAll(s, draws).applied)).BatchRefused?
  {
    if ApplyAll(r, Undo(ApplyAll(s, draws).applied)).BatchDone? {
      var p := Target(s, draws[0].change).value;
      var next := ApplyOne(s, draws[0]).next;
      UndoneHead(s, draws, r);
      StepShape(s, draws[0]);
      assert Stamp(next, p) == NewStamp(s, draws[0].change, p);
      BringsBack(next, draws[1..], r, p.i, p.j);
      var v := ApplyAll(r, Undo(ApplyAll(next, draws[1..]).applied)).next;
      UndoneEmbeds(next, draws[1..], r);
      UndoKeepsIds(r, Undo(ApplyAll(next, draws[1..]).applied));
      StepShape(s, draws[0]);
      EmbedsOn(s, next, v);
      LiveNotRestored(s, draws[0], v, p);
    }
  }

  /** A batch with a slug born twice, or a value made with its feature that goes, has no usable undo. */
  lemma Refuses(t: Taxonomy, draws: seq<Draw>)
    requires Proposed(t, draws)
    requires ApplyChanges(ApplyChanges(t, draws).next, Undo(ApplyChanges(t, draws).applied)).BatchDone?
    ensures SlugsBornApart(NewVersion(t), draws)
    ensures !FeatureFollows(NewVersion(t), draws) && !MadeValueGoes(NewVersion(t), draws)
  {
    var s := NewVersion(t);
    var BatchDone(n, applied) := ApplyAll(s, draws);
    var u := ApplyChanges(n, Undo(applied)).next;
    RoundTripParts(t, draws, "");
    SlugsApartAfter(t, draws, u);
    StartsMirrored(n);
    if FeatureFollows(s, draws) {
      MirrorEmbeds(n, NewVersion(n), {});
      FollowedRefused(s, draws, NewVersion(n));
    }
    if MadeValueGoes(s, draws) {
      var p := SaidLive(s, draws);
      assert Has(t, p) ==> Has(s, p);
      UndoSaidFits(t, draws, p);
      UndoneMade(t, draws, p);
    }
  }

  /**
   * The undo of a proposed batch is accepted exactly when no two items of a kind first had one slug, before the
   * batch or when it made them; no value goes by name before its feature goes too; and no value goes by name that was
   * made with its feature.
   */
  lemma UndoAccepted(t: Taxonomy, draws: seq<Draw>)
    requires Proposed(t, draws)
    ensures
      var BatchDone(n, applied) := ApplyChanges(t, draws);
      ApplyChanges(n, Undo(applied)).BatchDone? <==>
        && SlugsBornApart(NewVersion(t), draws)
        && !FeatureFollows(NewVersion(t), draws)
        && !MadeValueGoes(NewVersion(t), draws)
  {
    if ApplyChanges(ApplyChanges(t, draws).next, Undo(ApplyChanges(t, draws).applied)).BatchDone? {
      Refuses(t, draws);
    } else if SlugsBornApart(NewVersion(t), draws) && !FeatureFollows(NewVersion(t), draws) && !MadeValueGoes(NewVersion(t), draws) {
      Accepts(t, draws);
    }
  }
}
