/**
 Undoing a batch that is itself an undo, step by step. What the undo brought back goes again, in a later version;
 otherwise each step back leaves what was there, retired when it was.
 */
module TaxonomyAgain {
  import opened Basics
  import opened Taxonomies
  import opened TaxonomyChanges
  import opened TaxonomySteps
  import opened TaxonomyForwarding
  import opened TaxonomyUndo
  import opened TaxonomyLinks
  import opened TaxonomyUndoOne
  import opened TaxonomyMeaning
  import opened TaxonomyMirror

  // ---------------------------------------------------------------------- the same guards

  /** The same items at the same places, with the same words and links, live alike. */
  ghost predicate SameLive(t: Taxonomy, u: Taxonomy, moved: set<Id>) {
    && UniqueIds(t) && UniqueIds(u) && SameContent(t, u, moved)
    && (forall p :: Has(u, p) ==> Has(t, p))
    && (forall p :: Has(t, p) ==> Live(At(u, p)) == Live(At(t, p)))
  }

  lemma SamePlaces(t: Taxonomy, u: Taxonomy, moved: set<Id>)
    requires SameLive(t, u, moved)
    ensures Embeds(t, u) && Embeds(u, t)
  {
    forall p | Has(t, p)
      ensures Has(u, p) && At(u, p).id == At(t, p).id
    {
      assert SameWords(At(t, p), At(u, p), moved);
    }
  }

  lemma SameFind(t: Taxonomy, u: Taxonomy, moved: set<Id>, subject: Subject, id: Id)
    requires SameLive(t, u, moved)
    ensures Find(u, subject, ById(id)) == Find(t, subject, ById(id))
    ensures LiveItem(u, subject, ById(id)) == LiveItem(t, subject, ById(id))
  {
    SamePlaces(t, u, moved);
    FindKept(t, u, subject, id);
    FindKept(u, t, subject, id);
  }

  lemma SameSubcategories(t: Taxonomy, u: Taxonomy, moved: set<Id>, id: Id)
    requires SameLive(t, u, moved)
    ensures HasSubcategories(t, id) <==> HasSubcategories(u, id)
    ensures Implied(t, id) <==> Implied(u, id)
  {
    forall i: nat
      ensures i < |t.shelves| <==> i < |u.shelves|
      ensures i < |t.shelves| ==>
        && u.shelves[i].parentId == t.shelves[i].parentId && u.shelves[i].implies == t.shelves[i].implies
        && Live(u.shelves[i].item) == Live(t.shelves[i].item)
    {
      assert Has(t, AtShelf(i)) <==> Has(u, AtShelf(i));
    }
  }

  lemma SameValuesLive(t: Taxonomy, u: Taxonomy, moved: set<Id>, i: nat)
    requires SameLive(t, u, moved) && i < |t.features|
    ensures i < |u.features| && |u.features[i].values| == |t.features[i].values|
    ensures Live(u.features[i].item) == Live(t.features[i].item)
    ensures forall j :: 0 <= j < |t.features[i].values| ==> Live(u.features[i].values[j]) == Live(t.features[i].values[j])
  {
    assert Has(t, AtFeature(i)) && Has(u, AtFeature(i));
    var x, y := |t.features[i].values|, |u.features[i].values|;
    assert Has(t, AtValue(i, x)) <==> Has(u, AtValue(i, x));
    assert Has(t, AtValue(i, y)) <==> Has(u, AtValue(i, y));
    assert forall j :: 0 <= j < x && j < y ==> Has(t, AtValue(i, j)) && At(t, AtValue(i, j)) == t.features[i].values[j];
  }

  lemma {:induction false} SameLiveCount(a: seq<Item>, b: seq<Item>)
    requires |a| == |b| && forall j :: 0 <= j < |a| ==> Live(a[j]) == Live(b[j])
    ensures LiveValues(a) == LiveValues(b)
    decreases |a|
  {
    if a != [] {
      SameLiveCount(a[..|a| - 1], b[..|b| - 1]);
    }
  }

  lemma SameOneLive(a: seq<Item>, b: seq<Item>)
    requires |a| == |b| && forall j :: 0 <= j < |a| ==> Live(a[j]) == Live(b[j])
    ensures OneLive(a) <==> OneLive(b)
  {
    SameLiveCount(a, b);
    OneLiveWhen(a);
    OneLiveWhen(b);
  }

  lemma ValueIn(t: Taxonomy, i: nat, j: nat)
    requires UniqueIds(t) && Has(t, AtValue(i, j))
    ensures FeatureOfValue(t, At(t, AtValue(i, j)).id) == Some(i)
  {
    FindAt(t, AtValue(i, j));
  }

  lemma GoesAlike(t: Taxonomy, u: Taxonomy, moved: set<Id>, subject: Subject, id: Id)
    requires SameLive(t, u, moved) && MayGo(t, subject, ById(id))
    ensures MayGo(u, subject, ById(id))
  {
    SameFind(t, u, moved, subject, id);
    SamePlaces(t, u, moved);
    var p := LiveItem(t, subject, ById(id)).value;
    assert At(u, p).id == At(t, p).id;
    SameSubcategories(t, u, moved, At(t, p).id);
    if p.AtValue? {
      ValueIn(t, p.i, p.j);
      ValueIn(u, p.i, p.j);
      SameValuesLive(t, u, moved, p.i);
      SameOneLive(u.features[p.i].values, t.features[p.i].values);
    }
  }

  lemma ReturnsAlike(t: Taxonomy, u: Taxonomy, moved: set<Id>, subject: Subject, id: Id)
    requires SameLive(t, u, moved) && MayReturn(t, subject, ById(id))
    ensures MayReturn(u, subject, ById(id))
  {
    SameFind(t, u, moved, subject, id);
    SamePlaces(t, u, moved);
    var p := Find(t, subject, ById(id)).value;
    assert At(u, p).id == At(t, p).id && Has(u, p);
    match p {
      case AtShelf(i) =>
        if t.shelves[i].parentId.Some? {
          SameFind(t, u, moved, ShelfSubject, t.shelves[i].parentId.value);
        }
      case AtValue(i, j) =>
        ValueIn(t, i, j);
        ValueIn(u, i, j);
        SameValuesLive(t, u, moved, i);
      case _ =>
    }
  }

  lemma MovesAlike(t: Taxonomy, u: Taxonomy, moved: set<Id>, item: Id, parent: Id)
    requires SameLive(t, u, moved) && MayMove(t, ById(item), ById(parent))
    ensures MayMove(u, ById(item), ById(parent))
  {
    SameFind(t, u, moved, ShelfSubject, item);
    SameFind(t, u, moved, ShelfSubject, parent);
    SamePlaces(t, u, moved);
    var i: nat, j: nat :|
      && LiveItem(t, ShelfSubject, ById(item)) == Some(AtShelf(i)) && LiveItem(t, ShelfSubject, ById(parent)) == Some(AtShelf(j))
      && t.shelves[i].parentId.Some? && t.shelves[j].parentId == None
      && t.shelves[i].parentId != Some(t.shelves[j].item.id);
    assert Has(t, AtShelf(i)) && Has(t, AtShelf(j)) && Has(u, AtShelf(i)) && Has(u, AtShelf(j));
    assert At(u, AtShelf(j)).id == At(t, AtShelf(j)).id;
  }

  /** Whether an undo's change names every item by ID. */
  predicate NamesById(c: Change) {
    match c
    case Describe(_, item, _) => item.ById?
    case Rename(_, item, _, _) => item.ById?
    case Implies(item, fns) => item.ById? && forall k :: 0 <= k < |fns| ==> fns[k].ById?
    case Move(item, parent) => item.ById? && parent.ById?
    case Retire(_, item) => item.ById?
    case Restore(_, item) => item.ById?
    case Scope(_) => true
    case _ => false
  }

  /** What may be done to one may be done to the other. */
  lemma SameGuards(t: Taxonomy, u: Taxonomy, moved: set<Id>, d: Draw)
    requires SameLive(t, u, moved) && NamesById(d.change) && ApplyOne(t, d).Done?
    ensures ApplyOne(u, d).Done?
  {
    AllowedWhen(t, d);
    AllowedWhen(u, d);
    match d.change
    case Describe(subject, item, _) => SameFind(t, u, moved, subject, item.id);
    case Rename(subject, item, _, _) => SameFind(t, u, moved, subject, item.id);
    case Implies(item, fns) =>
      SameFind(t, u, moved, ShelfSubject, item.id);
      forall k | 0 <= k < |fns|
        ensures IsLive(u, FunctionSubject, fns[k])
      {
        assert IsLive(t, FunctionSubject, fns[k]);
        SameFind(t, u, moved, FunctionSubject, fns[k].id);
      }
    case Move(item, parent) => MovesAlike(t, u, moved, item.id, parent.id);
    case Retire(subject, item) => GoesAlike(t, u, moved, subject, item.id);
    case Restore(subject, item) => ReturnsAlike(t, u, moved, subject, item.id);
    case Scope(_) =>
  }

  // ---------------------------------------------------------------------- one step back, again

  /** When an item is retired again: what one version retired, and the undo brought back, by a later one. */
  function Restamped(stamp: Option<nat>, version: nat, later: nat): Option<nat> {
    if stamp == Some(version) then Some(later) else stamp
  }

  /**
   * `w`, a version later, holds what `v` does, each item retired when it is in `v`, but for those a given
   * version retired: these are retired by its own. Only the shelves named may have another order.
   */
  ghost predicate Remirrors(v: Taxonomy, w: Taxonomy, moved: set<Id>, version: nat) {
    && UniqueIds(v) && UniqueIds(w) && version < v.version && w.version == v.version + 1
    && SameContent(v, w, moved)
    && (forall p :: Has(w, p) ==> Has(v, p))
    && (forall p :: Has(v, p) ==> Stamp(w, p) == Restamped(Stamp(v, p), version, w.version))
  }

  lemma RemirrorsLive(v: Taxonomy, w: Taxonomy, moved: set<Id>, version: nat)
    requires Remirrors(v, w, moved, version)
    ensures SameLive(v, w, moved)
  {
  }

  /** A restore brings back what the given version retired. */
  ghost predicate ReturnsFrom(v: Taxonomy, c: Change, version: nat) {
    c.Restore? && Target(v, c).Some? ==> Stamp(v, Target(v, c).value) == Some(version)
  }

  lemma SameWordsSelf(n: Taxonomy)
    ensures SameContent(n, n, {})
  {
  }

  lemma ResultsHere(v: Taxonomy, d: Draw)
    requires ApplyOne(v, d).Done? && UniqueIds(ApplyOne(v, d).next)
    ensures Results(v, d.change, ApplyOne(v, d).next)
  {
    StepShape(v, d);
    EmbedsKeepsUnique(v, ApplyOne(v, d).next);
  }

  /** What an undo's change is undone by. */
  ghost predicate UndoneBy(v: Taxonomy, d: Draw, back: Draw) {
    && ApplyOne(v, d).Done? && Undoers(v, d) == [back] && NamesById(back.change) && back.ids == []
    && match d.change
       case Retire(_, _) => back.change == Restore(KindOf(Target(v, d.change).value), ById(At(v, Target(v, d.change).value).id))
       case Restore(_, _) => back.change == Retire(KindOf(Target(v, d.change).value), ById(At(v, Target(v, d.change).value).id))
       case _ => !KeepsWords(back.change)
  }

  lemma UndoingBack(v: Taxonomy, d: Draw) returns (back: Draw)
    requires ApplyOne(v, d).Done? && Undoing(d)
    ensures UndoneBy(v, d, back)
    ensures d.change.Retire? || d.change.Restore? ==> Target(v, d.change).Some?
    ensures !d.change.Retire? && !d.change.Restore? ==> !KeepsWords(d.change)
  {
    if d.change.Retire? {
      UndoIsRestore(v, d, Target(v, d.change).value);
    } else if d.change.Restore? {
      UndoIsRetire(v, d, Target(v, d.change).value);
    } else {
      OneUndone(v, d);
      TextBackIsText(v, d, Undoers(v, d)[0]);
      TextNamesById(v, d);
    }
    back := Undoers(v, d)[0];
  }

  lemma TextNamesById(v: Taxonomy, d: Draw)
    requires ApplyOne(v, d).Done? && !KeepsWords(d.change) && |Undoers(v, d)| == 1
    ensures NamesById(Undoers(v, d)[0].change)
  {
  }

  /** A change's undo applies to its own result. */
  lemma UndoAppliesHere(v: Taxonomy, d: Draw, back: Draw)
    requires Sane(v) && UndoneBy(v, d, back) && Undoing(d) && UniqueIds(ApplyOne(v, d).next)
    ensures ApplyOne(ApplyOne(v, d).next, back).Done?
  {
    var n := ApplyOne(v, d).next;
    ResultsHere(v, d);
    if d.change.Retire? {
      var p := Target(v, d.change).value;
      ContentKept(v, d);
      RestoreApplies(v, d.change, n, p, {});
      StepShape(v, d);
      assert At(n, p).id == At(v, p).id;
      RestoreGoes(n, p, back);
    } else if d.change.Restore? {
      ContentKept(v, d);
      NoneAdded(v, d, n);
      RestoredUndoApplies(v, d, n, Target(v, d.change).value, back);
    } else {
      SameWordsSelf(n);
      TextUndoApplies(v, d, n, back, {});
    }
  }

  /** A change's undo applies to what remirrors its result, and leaves what remirrors what was there. */
  ghost predicate GoesAgain(v: Taxonomy, d: Draw, w: Taxonomy, moved: set<Id>, version: nat)
    requires ApplyOne(v, d).Done?
  {
    && ApplyAll(w, Undoers(v, d)).BatchDone?
    && Remirrors(v, ApplyAll(w, Undoers(v, d)).next, moved + MovedBy(ApplyOne(v, d).applied), version)
  }

  /** Which item the undo of an undo's change is about. */
  lemma BackTarget(v: Taxonomy, d: Draw, w: Taxonomy, back: Draw)
    requires UndoneBy(v, d, back) && Undoing(d) && UniqueIds(w) && Embeds(ApplyOne(v, d).next, w) && ApplyOne(w, back).Done?
    ensures
      if d.change.Retire? || d.change.Restore? then Target(v, d.change).Some? && Target(w, back.change) == Target(v, d.change)
      else Target(v, d.change) == None && Target(w, back.change) == None
  {
    if d.change.Retire? || d.change.Restore? {
      var p := Target(v, d.change).value;
      StepShape(v, d);
      assert Has(w, p) && At(w, p).id == At(v, p).id;
      FindAt(w, p);
    }
  }

  lemma StampsAgain(v: Taxonomy, d: Draw, w: Taxonomy, moved: set<Id>, version: nat, back: Draw, p: Pos)
    requires Sane(v) && UndoneBy(v, d, back) && Undoing(d) && Remirrors(ApplyOne(v, d).next, w, moved, version)
    requires ApplyOne(w, back).Done? && LosesWhole(v, d.change) && ReturnsFrom(v, d.change, version)
    requires Has(v, p)
    requires
      if d.change.Retire? || d.change.Restore? then Target(v, d.change).Some? && Target(w, back.change) == Target(v, d.change)
      else Target(v, d.change) == None && Target(w, back.change) == None
    ensures Has(ApplyOne(w, back).next, p)
    ensures Stamp(ApplyOne(w, back).next, p) == Restamped(Stamp(v, p), version, w.version)
  {
    var n, u := ApplyOne(v, d).next, ApplyOne(w, back).next;
    StepShape(v, d);
    StepShape(w, back);
    assert Stamp(n, p) == NewStamp(v, d.change, p) && Has(w, p);
    assert Stamp(u, p) == NewStamp(w, back.change, p);
    if Target(v, d.change).Some? {
      var q := Target(v, d.change).value;
      assert Stamp(n, q) == NewStamp(v, d.change, q) && Has(w, q);
    }
  }

  lemma OneAgain(v: Taxonomy, d: Draw, w: Taxonomy, moved: set<Id>, version: nat)
    requires Sane(v) && Undoing(d) && ApplyOne(v, d).Done? && Remirrors(ApplyOne(v, d).next, w, moved, version)
    requires LosesWhole(v, d.change) && ReturnsFrom(v, d.change, version)
    ensures GoesAgain(v, d, w, moved, version)
  {
    var n := ApplyOne(v, d).next;
    var back := UndoingBack(v, d);
    UndoAppliesHere(v, d, back);
    RemirrorsLive(n, w, moved, version);
    SameGuards(n, w, moved, back);
    SamePlaces(n, w, moved);
    BackTarget(v, d, w, back);
    var u := ApplyOne(w, back).next;
    assert ApplyAll(w, Undoers(v, d)) == BatchDone(u, [ApplyOne(w, back).applied]) by {
      assert [back][1..] == [];
      assert ApplyAll(u, []) == BatchDone(u, []);
    }
    forall p | Has(v, p)
      ensures Has(u, p) && Stamp(u, p) == Restamped(Stamp(v, p), version, u.version)
    {
      StampsAgain(v, d, w, moved, version, back, p);
      StepShape(w, back);
    }
    RemirrorsBack(v, d, w, moved, version, back, u);
  }

  lemma RemirrorsBack(v: Taxonomy, d: Draw, w: Taxonomy, moved: set<Id>, version: nat, back: Draw, u: Taxonomy)
    requires UniqueIds(v) && Undoing(d) && UndoneBy(v, d, back) && Remirrors(ApplyOne(v, d).next, w, moved, version)
    requires ApplyAll(w, Undoers(v, d)).BatchDone? && ApplyAll(w, Undoers(v, d)).next == u && ApplyOne(w, back).Done?
    requires ApplyOne(w, back).next == u
    requires forall p :: Has(v, p) ==> Has(u, p) && Stamp(u, p) == Restamped(Stamp(v, p), version, u.version)
    ensures Remirrors(v, u, moved + MovedBy(ApplyOne(v, d).applied), version)
  {
    UndoneContent(v, d, w, moved);
    StepShape(v, d);
    StepShape(w, back);
    NoneAdded(v, d, ApplyOne(v, d).next);
    NoneAdded(w, back, u);
    UndoKeepsIds(w, Undoers(v, d));
  }

  // ---------------------------------------------------------------------- a batch back, again

  /** What each change of an undo finds: a taxonomy in order, nothing lost already, and what one version retired. */
  ghost predicate Undoes(v: Taxonomy, draws: seq<Draw>, version: nat)
    requires ApplyAll(v, draws).BatchDone?
    decreases |draws|
  {
    draws != [] ==>
      && Sane(v) && Undoing(draws[0]) && LosesWhole(v, draws[0].change) && ReturnsFrom(v, draws[0].change, version)
      && Undoes(ApplyOne(v, draws[0]).next, draws[1..], version)
  }

  /** An undo's own undo applies change by change, and leaves what remirrors what was there. */
  lemma {:induction false} BatchGoesAgain(v: Taxonomy, draws: seq<Draw>, w: Taxonomy, version: nat)
    requires ApplyAll(v, draws).BatchDone? && Undoes(v, draws, version)
    requires Remirrors(ApplyAll(v, draws).next, w, {}, version)
    ensures
      var applied := ApplyAll(v, draws).applied;
      && ApplyAll(w, Undo(applied)).BatchDone?
      && Remirrors(v, ApplyAll(w, Undo(applied)).next, MovedIn(applied), version)
    decreases |draws|
  {
    if draws != [] {
      var Done(next, a) := ApplyOne(v, draws[0]);
      var rest := ApplyAll(next, draws[1..]).applied;
      BatchGoesAgain(next, draws[1..], w, version);
      OneAgain(v, draws[0], ApplyAll(w, Undo(rest)).next, MovedIn(rest), version);
      assert ([a] + rest)[1..] == rest;
      UndoSplits([a] + rest);
      AppliesTogether(w, Undo(rest), UndoOf(a));
    }
  }

  lemma {:induction false} UndoesTogether(v: Taxonomy, a: seq<Draw>, b: seq<Draw>, version: nat)
    requires ApplyAll(v, a).BatchDone? && ApplyAll(ApplyAll(v, a).next, b).BatchDone?
    requires Undoes(v, a, version) && Undoes(ApplyAll(v, a).next, b, version)
    ensures ApplyAll(v, a + b).BatchDone? && Undoes(v, a + b, version)
    decreases |a|
  {
    if a == [] {
      assert a + b == b;
    } else {
      assert (a + b)[1..] == a[1..] + b && (a + b)[0] == a[0];
      UndoesTogether(ApplyOne(v, a[0]).next, a[1..], b, version);
    }
  }
}
