/**
 When undoing an undo is accepted: exactly when no value was added, in the batch first undone, to a feature which that
 batch made, or which goes after it.
 */
module TaxonomyRedoAccepted {
  import opened Basics
  import opened Taxonomies
  import opened TaxonomyChanges
  import opened TaxonomySteps
  import opened TaxonomyForwarding
  import opened TaxonomyUndo
  import opened TaxonomyUndoBatch
  import opened TaxonomyLinks
  import opened TaxonomyUndoOne
  import opened TaxonomyMirror
  import opened TaxonomyUndoAccepted
  import opened TaxonomyAgain
  import opened TaxonomyRedo

  // ---------------------------------------------------------------------- a feature that goes with a value added to it

  /** What is retired, its feature too, stays retired when it was. */
  lemma {:induction false} StaysGone(s: Taxonomy, draws: seq<Draw>, p: Pos)
    requires ApplyAll(s, draws).BatchDone? && UniqueIds(ApplyAll(s, draws).next)
    requires forall k :: 0 <= k < |draws| ==> Proposable(draws[k].change)
    requires Has(s, p) && Stamp(s, p).Some? && (p.AtValue? ==> Stamp(s, AtFeature(p.i)).Some?)
    ensures Has(ApplyAll(s, draws).next, p) && Stamp(ApplyAll(s, draws).next, p) == Stamp(s, p)
    decreases |draws|
  {
    if draws != [] {
      var next := ApplyOne(s, draws[0]).next;
      EmbedsAll(next, draws[1..]);
      EmbedsKeepsUnique(next, ApplyAll(next, draws[1..]).next);
      StepShape(s, draws[0]);
      EmbedsKeepsUnique(s, next);
      GoneGuards(s, draws[0]);
      assert p.AtValue? ==> Has(s, AtFeature(p.i));
      assert Stamp(next, p) == NewStamp(s, draws[0].change, p);
      assert p.AtValue? ==> Stamp(next, AtFeature(p.i)) == NewStamp(s, draws[0].change, AtFeature(p.i));
      StaysGone(next, draws[1..], p);
    }
  }

  /** A live value that doesn't go by name is retired with its feature. */
  lemma {:induction false} GoesTogether(s: Taxonomy, draws: seq<Draw>, i: nat, j: nat)
    requires ApplyAll(s, draws).BatchDone? && UniqueIds(ApplyAll(s, draws).next)
    requires forall k :: 0 <= k < |draws| ==> Proposable(draws[k].change)
    requires Has(s, AtValue(i, j)) && Live(At(s, AtValue(i, j))) && Live(At(s, AtFeature(i)))
    requires Goes(s, draws, AtFeature(i)) && !FeatureFollows(s, draws)
    ensures Has(ApplyAll(s, draws).next, AtValue(i, j))
    ensures Attached(ApplyAll(s, draws).next, i, j) && !Live(At(ApplyAll(s, draws).next, AtValue(i, j)))
    decreases |draws|
  {
    var v, f := AtValue(i, j), AtFeature(i);
    var next := ApplyOne(s, draws[0]).next;
    StepShape(s, draws[0]);
    assert Stamp(next, v) == NewStamp(s, draws[0].change, v) && Stamp(next, f) == NewStamp(s, draws[0].change, f);
    if Target(s, draws[0].change) == Some(f) {
      StaysGone(next, draws[1..], v);
      StaysGone(next, draws[1..], f);
    } else {
      GoesTogether(next, draws[1..], i, j);
    }
  }

  /** A value added to a feature that goes: retired with it, and named by the undo. */
  lemma {:induction false} JoinedIsGone(s: Taxonomy, draws: seq<Draw>) returns (i: nat, j: nat)
    requires ApplyAll(s, draws).BatchDone? && UniqueIds(ApplyAll(s, draws).next)
    requires forall k :: 0 <= k < |draws| ==> Proposable(draws[k].change)
    requires JoinedGoes(s, draws) && !FeatureFollows(s, draws)
    ensures Has(ApplyAll(s, draws).next, AtValue(i, j))
    ensures Attached(ApplyAll(s, draws).next, i, j) && !Live(At(ApplyAll(s, draws).next, AtValue(i, j)))
    ensures UndoSays(ApplyAll(s, draws).applied, At(ApplyAll(s, draws).next, AtValue(i, j)).id).Some?
    decreases |draws|
  {
    var Done(next, a) := ApplyOne(s, draws[0]);
    var BatchDone(end, rest) := ApplyAll(next, draws[1..]);
    EmbedsAll(next, draws[1..]);
    if JoinedGoes(next, draws[1..]) {
      i, j := JoinedIsGone(next, draws[1..]);
    } else {
      i, j := JoinedPlace(s, draws[0]);
      GoesTogether(next, draws[1..], i, j);
      MadeIsRetiree(s, draws[0], AtValue(i, j));
    }
    UndoSaysHead(a, rest, At(end, AtValue(i, j)).id);
  }

  lemma JoinedPlace(s: Taxonomy, d: Draw) returns (i: nat, j: nat)
    requires ApplyOne(s, d).Done? && d.change.AddValue?
    ensures LiveItem(s, FeatureSubject, d.change.feature) == Some(AtFeature(i)) && Has(s, AtFeature(i))
    ensures var next := ApplyOne(s, d).next;
      && Has(next, AtValue(i, j)) && !Has(s, AtValue(i, j))
      && Live(At(next, AtValue(i, j))) && Live(At(next, AtFeature(i)))
  {
    i := LiveItem(s, FeatureSubject, d.change.feature).value.i;
    j := |s.features[i].values|;
  }

  lemma {:induction false} NamedAgain(undone: seq<Applied>, id: Id)
    requires LastSays(undone, id).Some?
    ensures UndoSays(undone, id).Some?
  {
    if LastSays(undone[1..], id).Some? {
      NamedAgain(undone[1..], id);
    }
  }

  /** A value the undo names, retired with its feature or not at all: undoing the undo says it is live. */
  lemma SaidToReturn(
      t: Taxonomy, draws: seq<Draw>, n: Taxonomy, applied: seq<Applied>, u: Taxonomy, undone: seq<Applied>, i: nat, j: nat)
    requires Parts(t, draws, n, applied, u, undone) && Has(n, AtValue(i, j)) && Attached(n, i, j)
    requires UndoSays(applied, At(n, AtValue(i, j)).id).Some?
    ensures UndoSays(undone, At(n, AtValue(i, j)).id) == Some(false)
  {
    var id := At(n, AtValue(i, j)).id;
    ApplyAllResolves(NewVersion(t), draws);
    UndoAllSays(NewVersion(n), applied, id);
    NamedAgain(undone, id);
    TripStarts(n, i, j);
    UndoTellsValue(NewVersion(n), Undo(applied), i, j);
  }

  /** What an accepted undo of an undo last says of an item is how the batch left it. */
  lemma SaidIsKept(n: Taxonomy, draws: seq<Draw>, p: Pos)
    requires RoundTrip(n, draws) && Has(n, p)
    ensures
      var said := UndoSays(ApplyChanges(n, draws).applied, At(n, p).id);
      said.Some? ==> said.value == !Live(At(n, p))
  {
    RoundTripParts(n, draws, "");
    assert Has(NewVersion(n), p);
    UndoSaidFits(n, draws, p);
    UndoBatch(n, draws);
  }

  /** Undoing the undo would say of such a value that it is live; but its feature goes again, and the value with it. */
  lemma NoneJoinedGoes(
      t: Taxonomy, draws: seq<Draw>, n: Taxonomy, applied: seq<Applied>, u: Taxonomy, undone: seq<Applied>)
    requires Parts(t, draws, n, applied, u, undone) && ApplyChanges(u, Undo(undone)).BatchDone?
    ensures !JoinedGoes(NewVersion(t), draws)
  {
    if JoinedGoes(NewVersion(t), draws) {
      Refuses(t, draws);
      var i, j := JoinedIsGone(NewVersion(t), draws);
      SaidToReturn(t, draws, n, applied, u, undone, i, j);
      SaidIsKept(n, Undo(applied), AtValue(i, j));
    }
  }

  // ---------------------------------------------------------------------- a feature made in the batch, that grows

  /** The changes that undo the undo of a batch, made from `m`. */
  ghost function Redo(s: Taxonomy, draws: seq<Draw>, m: Taxonomy): seq<Draw>
    requires ApplyAll(s, draws).BatchDone? && ApplyAll(m, Undo(ApplyAll(s, draws).applied)).BatchDone?
  {
    Undo(ApplyAll(m, Undo(ApplyAll(s, draws).applied)).applied)
  }

  /** The changes that undo the undo of one change. */
  ghost function RedoOne(s: Taxonomy, d: Draw, v: Taxonomy): seq<Draw>
    requires ApplyOne(s, d).Done? && ApplyAll(v, Undoers(s, d)).BatchDone?
  {
    Undo(ApplyAll(v, Undoers(s, d)).applied)
  }

  lemma {:induction false} UndoConcat(a: seq<Applied>, b: seq<Applied>)
    ensures Undo(a + b) == Undo(b) + Undo(a)
  {
    if a == [] {
      assert a + b == b;
    } else {
      assert (a + b)[1..] == a[1..] + b;
      UndoSplits(a + b);
      UndoSplits(a);
      UndoConcat(a[1..], b);
    }
  }

  /** A batch's redo begins with its first change's. */
  lemma RedoSplits(s: Taxonomy, draws: seq<Draw>, m: Taxonomy)
    requires draws != [] && ApplyAll(s, draws).BatchDone? && ApplyAll(m, Undo(ApplyAll(s, draws).applied)).BatchDone?
    ensures
      var next := ApplyOne(s, draws[0]).next;
      && ApplyAll(m, Undo(ApplyAll(next, draws[1..]).applied)).BatchDone?
      && var v := ApplyAll(m, Undo(ApplyAll(next, draws[1..]).applied)).next;
      && ApplyAll(v, Undoers(s, draws[0])).BatchDone?
      && Redo(s, draws, m) == RedoOne(s, draws[0], v) + Redo(next, draws[1..], m)
  {
    var Done(next, a) := ApplyOne(s, draws[0]);
    var rest := ApplyAll(next, draws[1..]).applied;
    assert ([a] + rest)[1..] == rest;
    UndoSplits([a] + rest);
    ApplyAllConcat(m, Undo(rest), UndoOf(a));
    var BatchDone(v, first) := ApplyAll(m, Undo(rest));
    UndoConcat(first, ApplyAll(v, UndoOf(a)).applied);
  }

  /** No change of these merges, or restores an item. */
  ghost predicate NotRestored(draws: seq<Draw>, id: Id) {
    forall k :: 0 <= k < |draws| ==>
      match draws[k].change
      case Merge(_, _, _) => false
      case Restore(_, item) => item.ById? && item.id != id
      case _ => true
  }

  /** No change of these retires an item. */
  ghost predicate NotRetired(draws: seq<Draw>, id: Id) {
    forall k :: 0 <= k < |draws| ==> draws[k].change.Retire? ==> draws[k].change.item.ById? && draws[k].change.item.id != id
  }

  /** What an undo's change doesn't name, or doesn't retire, its own undo doesn't name, or doesn't restore. */
  lemma OneRedoNames(v: Taxonomy, d: Draw, w: Taxonomy, id: Id)
    requires ApplyOne(v, d).Done? && Undoing(d)
    ensures Unnamed(v, [d], id) ==> Unnamed(w, Undoers(v, d), id)
    ensures NotRetired([d], id) ==> NotRestored(Undoers(v, d), id)
  {
    var back := UndoingBack(v, d);
    assert [d][0] == d;
  }

  lemma {:induction false} RedoNamesNone(v: Taxonomy, draws: seq<Draw>, w: Taxonomy, id: Id)
    requires ApplyAll(v, draws).BatchDone? && forall k :: 0 <= k < |draws| ==> Undoing(draws[k])
    ensures Unnamed(v, draws, id) ==> Unnamed(w, Undo(ApplyAll(v, draws).applied), id)
    ensures NotRetired(draws, id) ==> NotRestored(Undo(ApplyAll(v, draws).applied), id)
    decreases |draws|
  {
    if draws != [] {
      var Done(next, a) := ApplyOne(v, draws[0]);
      var rest := ApplyAll(next, draws[1..]).applied;
      OneRedoNames(v, draws[0], w, id);
      RedoNamesNone(next, draws[1..], w, id);
      assert ([a] + rest)[1..] == rest;
      UndoSplits([a] + rest);
      assert forall k :: 0 <= k < |draws[1..]| ==> draws[1..][k] == draws[k + 1];
    }
  }

  /** What a change isn't about and didn't make, undoing its undo doesn't name. */
  lemma RedoOneNames(s: Taxonomy, d: Draw, v: Taxonomy, w: Taxonomy, id: Id)
    requires ApplyOne(s, d).Done? && Proposable(d.change) && ApplyAll(v, Undoers(s, d)).BatchDone?
    requires id !in d.ids
    ensures NotRestored(RedoOne(s, d, v), id)
    ensures (Target(s, d.change).Some? ==> At(s, Target(s, d.change).value).id != id) ==> Unnamed(w, RedoOne(s, d, v), id)
  {
    InverseUndoes(ApplyOne(s, d).applied);
    if Target(s, d.change).Some? {
      UndoIsRestore(s, d, Target(s, d.change).value);
    } else {
      UndoersRetireMade(s, d);
    }
    RedoNamesNone(v, Undoers(s, d), w, id);
  }

  /** What is retired stays retired when it was, if no change names it or restores its feature. */
  lemma {:induction false} KeptRetired(w: Taxonomy, draws: seq<Draw>, p: Pos)
    requires ApplyAll(w, draws).BatchDone? && Has(w, p) && Stamp(w, p).Some? && Unnamed(w, draws, At(w, p).id)
    requires p.AtValue? ==> NotRestored(draws, At(w, AtFeature(p.i)).id)
    ensures Has(ApplyAll(w, draws).next, p) && Stamp(ApplyAll(w, draws).next, p) == Stamp(w, p)
    decreases |draws|
  {
    if draws != [] {
      var next := ApplyOne(w, draws[0]).next;
      StepShape(w, draws[0]);
      assert p.AtValue? ==> Has(w, AtFeature(p.i));
      assert Stamp(next, p) == NewStamp(w, draws[0].change, p);
      KeptRetired(next, draws[1..], p);
    }
  }

  /** A change isn't about what is made later. */
  lemma LaterIsOther(s: Taxonomy, d: Draw, end: Taxonomy, p: Pos)
    requires ApplyOne(s, d).Done? && Embeds(ApplyOne(s, d).next, end) && UniqueIds(end)
    requires Has(end, p) && !Has(ApplyOne(s, d).next, p)
    ensures Target(s, d.change).Some? ==> At(s, Target(s, d.change).value).id != At(end, p).id
    ensures At(end, p).id !in d.ids
  {
    StepShape(s, d);
    NotDrawn(s, d, end, p);
    if Target(s, d.change).Some? {
      var q := Target(s, d.change).value;
      assert Has(end, q) && At(end, q).id == At(s, q).id;
    }
  }

  /** What is made later in a batch, one change's redo doesn't name; nor does it restore a feature it didn't make. */
  lemma LaterUnnamed(s: Taxonomy, d: Draw, end: Taxonomy, v: Taxonomy, w: Taxonomy, p: Pos)
    requires ApplyOne(s, d).Done? && Proposable(d.change) && Embeds(ApplyOne(s, d).next, end) && UniqueIds(end)
    requires Has(end, p) && !Has(ApplyOne(s, d).next, p) && ApplyAll(v, Undoers(s, d)).BatchDone?
    ensures Unnamed(w, RedoOne(s, d, v), At(end, p).id)
    ensures p.AtValue? && (Has(ApplyOne(s, d).next, AtFeature(p.i)) ==> Has(s, AtFeature(p.i))) ==>
      NotRestored(RedoOne(s, d, v), At(end, AtFeature(p.i)).id)
  {
    LaterIsOther(s, d, end, p);
    RedoOneNames(s, d, v, w, At(end, p).id);
    if p.AtValue? && (Has(ApplyOne(s, d).next, AtFeature(p.i)) ==> Has(s, AtFeature(p.i))) {
      NotDrawn(s, d, end, AtFeature(p.i));
      RedoOneNames(s, d, v, w, At(end, AtFeature(p.i)).id);
    }
  }

  /** What is made later in a batch is as it was after one change's redo, unless that makes its feature. */
  lemma LaterKept(s: Taxonomy, d: Draw, end: Taxonomy, v: Taxonomy, w: Taxonomy, p: Pos)
    requires ApplyOne(s, d).Done? && Proposable(d.change) && Embeds(ApplyOne(s, d).next, end) && UniqueIds(end)
    requires Has(end, p) && !Has(ApplyOne(s, d).next, p) && Embeds(end, w) && Stamp(w, p).Some?
    requires p.AtValue? && Has(ApplyOne(s, d).next, AtFeature(p.i)) ==> Has(s, AtFeature(p.i))
    requires ApplyAll(v, Undoers(s, d)).BatchDone? && ApplyAll(w, RedoOne(s, d, v)).BatchDone?
    ensures Has(ApplyAll(w, RedoOne(s, d, v)).next, p)
    ensures Stamp(ApplyAll(w, RedoOne(s, d, v)).next, p) == Stamp(w, p)
  {
    LaterUnnamed(s, d, end, v, w, p);
    assert p.AtValue? ==> Has(end, AtFeature(p.i)) && At(w, AtFeature(p.i)).id == At(end, AtFeature(p.i)).id;
    KeptRetired(w, RedoOne(s, d, v), p);
  }

  // ---------------------------------------------------------------------- it comes back with its feature

  /** What undoes a retirement is one restore. */
  lemma RedoOfRetire(s: Taxonomy, d: Draw, v: Taxonomy, subject: Subject, id: Id)
    requires ApplyOne(s, d).Done? && |Undoers(s, d)| == 1 && Undoers(s, d)[0].change == Retire(subject, ById(id))
    requires ApplyAll(v, Undoers(s, d)).BatchDone?
    ensures |RedoOne(s, d, v)| == 1 && RedoOne(s, d, v)[0].change == Restore(subject, ById(id))
  {
    OneSays(v, Undoers(s, d), "");
    var a := ApplyOne(v, Undoers(s, d)[0]).applied;
    assert ApplyAll(ApplyOne(v, Undoers(s, d)[0]).next, Undoers(s, d)[1..]).applied == [];
    assert ApplyAll(v, Undoers(s, d)).applied == [a];
    UndoOfOne(a);
  }

  /** Bringing back a feature the batch made brings back what was added to it. */
  lemma FeatureBack(s: Taxonomy, d: Draw, end: Taxonomy, v: Taxonomy, w: Taxonomy, j: nat)
    requires ApplyOne(s, d).Done? && d.change.AddFeature? && Embeds(ApplyOne(s, d).next, end)
    requires Has(end, AtValue(|s.features|, j)) && Embeds(end, w) && UniqueIds(w)
    requires Stamp(w, AtValue(|s.features|, j)) == Stamp(w, AtFeature(|s.features|))
    requires ApplyAll(v, Undoers(s, d)).BatchDone? && ApplyAll(w, RedoOne(s, d, v)).BatchDone?
    ensures
      var x := ApplyAll(w, RedoOne(s, d, v)).next;
      Has(x, AtValue(|s.features|, j)) && Live(At(x, AtValue(|s.features|, j)))
  {
    var f := AtFeature(|s.features|);
    var p := AddedPlace(s, d);
    NewFeatures(s, d);
    assert p == f;
    RedoOfRetire(s, d, v, FeatureSubject, At(ApplyOne(s, d).next, f).id);
    assert Has(end, f) && At(w, f).id == At(ApplyOne(s, d).next, f).id;
    BringsBoth(w, RedoOne(s, d, v), |s.features|, j);
  }

  /** A feature brought back brings back a value retired in the same version. */
  lemma BringsBoth(w: Taxonomy, draws: seq<Draw>, i: nat, j: nat)
    requires UniqueIds(w) && Has(w, AtValue(i, j)) && Stamp(w, AtValue(i, j)) == Stamp(w, AtFeature(i))
    requires |draws| == 1 && draws[0].change == Restore(FeatureSubject, ById(At(w, AtFeature(i)).id))
    requires ApplyAll(w, draws).BatchDone?
    ensures Has(ApplyAll(w, draws).next, AtValue(i, j)) && Live(At(ApplyAll(w, draws).next, AtValue(i, j)))
  {
    OneSays(w, draws, "");
    FindAt(w, AtFeature(i));
    StepShape(w, draws[0]);
    assert Stamp(ApplyOne(w, draws[0]).next, AtValue(i, j)) == NewStamp(w, draws[0].change, AtValue(i, j));
  }

  /** What is live already can't be brought back. */
  lemma ValueNotBack(s: Taxonomy, d: Draw, v: Taxonomy, w: Taxonomy, p: Pos)
    requires ApplyOne(s, d).Done? && d.change.AddValue? && Has(ApplyOne(s, d).next, p) && !Has(s, p)
    requires Embeds(ApplyOne(s, d).next, w) && UniqueIds(w) && Live(At(w, p))
    requires ApplyAll(v, Undoers(s, d)).BatchDone?
    ensures ApplyAll(w, RedoOne(s, d, v)).BatchRefused?
  {
    var q := AddedPlace(s, d);
    assert p == q;
    RedoOfRetire(s, d, v, KindOf(p), At(ApplyOne(s, d).next, p).id);
    FindAt(w, p);
  }

  /** A retired feature is added nothing. */
  lemma {:induction false} GoneGrowsNot(s: Taxonomy, draws: seq<Draw>, i: nat, j: nat)
    requires ApplyAll(s, draws).BatchDone? && UniqueIds(ApplyAll(s, draws).next)
    requires forall k :: 0 <= k < |draws| ==> Proposable(draws[k].change)
    requires Has(s, AtFeature(i)) && !Live(At(s, AtFeature(i))) && Has(ApplyAll(s, draws).next, AtValue(i, j))
    ensures Has(s, AtValue(i, j))
    decreases |draws|
  {
    if draws != [] {
      var next := ApplyOne(s, draws[0]).next;
      EmbedsAll(next, draws[1..]);
      EmbedsKeepsUnique(next, ApplyAll(next, draws[1..]).next);
      StepShape(s, draws[0]);
      EmbedsKeepsUnique(s, next);
      GoneGuards(s, draws[0]);
      assert Stamp(next, AtFeature(i)) == NewStamp(s, draws[0].change, AtFeature(i));
      GoneGrowsNot(next, draws[1..], i, j);
      if !Has(s, AtValue(i, j)) {
        AddedValue(s, draws[0], i, j);
      }
    }
  }

  /** A value to be added is live already: its redo is refused. */
  lemma {:induction false} LiveRefused(s: Taxonomy, draws: seq<Draw>, m: Taxonomy, w: Taxonomy, i: nat, j: nat)
    requires ApplyAll(s, draws).BatchDone? && UniqueIds(ApplyAll(s, draws).next)
    requires ApplyAll(m, Undo(ApplyAll(s, draws).applied)).BatchDone?
    requires forall k :: 0 <= k < |draws| ==> Proposable(draws[k].change)
    requires Has(s, AtFeature(i)) && !Has(s, AtValue(i, j)) && Has(ApplyAll(s, draws).next, AtValue(i, j))
    requires UniqueIds(w) && Embeds(ApplyAll(s, draws).next, w) && Live(At(w, AtValue(i, j)))
    ensures ApplyAll(w, Redo(s, draws, m)).BatchRefused?
    decreases |draws|
  {
    if ApplyAll(w, Redo(s, draws, m)).BatchDone? {
      assert draws != [];
      var d, p := draws[0], AtValue(i, j);
      var next := ApplyOne(s, d).next;
      var end := ApplyAll(s, draws).next;
      RedoHead(s, draws, m, w);
      var v := ApplyAll(m, Undo(ApplyAll(next, draws[1..]).applied)).next;
      if Has(next, p) {
        AddedValue(s, d, i, j);
        EmbedsOn(next, end, w);
        ValueNotBack(s, d, v, w, p);
      } else {
        LiveKept(s, draws, v, w, i, j);
        LiveRefused(next, draws[1..], m, ApplyAll(w, RedoOne(s, d, v)).next, i, j);
      }
    }
  }

  /** The parts of a batch's redo: its first change's, and the rest from what that leaves. */
  lemma RedoHead(s: Taxonomy, draws: seq<Draw>, m: Taxonomy, w: Taxonomy)
    requires draws != [] && ApplyAll(s, draws).BatchDone? && UniqueIds(ApplyAll(s, draws).next)
    requires ApplyAll(m, Undo(ApplyAll(s, draws).applied)).BatchDone?
    requires UniqueIds(w) && Embeds(ApplyAll(s, draws).next, w) && ApplyAll(w, Redo(s, draws, m)).BatchDone?
    ensures
      var next := ApplyOne(s, draws[0]).next;
      && ApplyAll(m, Undo(ApplyAll(next, draws[1..]).applied)).BatchDone?
      && Embeds(s, next) && Embeds(next, ApplyAll(s, draws).next) && UniqueIds(next) && UniqueIds(s)
      && var v := ApplyAll(m, Undo(ApplyAll(next, draws[1..]).applied)).next;
      && ApplyAll(v, Undoers(s, draws[0])).BatchDone?
      && ApplyAll(w, RedoOne(s, draws[0], v)).BatchDone?
      && var x := ApplyAll(w, RedoOne(s, draws[0], v)).next;
      && ApplyAll(x, Redo(next, draws[1..], m)).BatchDone?
      && UniqueIds(x) && Embeds(ApplyAll(s, draws).next, x)
  {
    var next := ApplyOne(s, draws[0]).next;
    EmbedsAll(next, draws[1..]);
    EmbedsKeepsUnique(next, ApplyAll(next, draws[1..]).next);
    StepShape(s, draws[0]);
    EmbedsKeepsUnique(s, next);
    RedoSplits(s, draws, m);
    var v := ApplyAll(m, Undo(ApplyAll(next, draws[1..]).applied)).next;
    ApplyAllConcat(w, RedoOne(s, draws[0], v), Redo(next, draws[1..], m));
    EmbedsAll(w, RedoOne(s, draws[0], v));
    EmbedsOn(ApplyAll(s, draws).next, w, ApplyAll(w, RedoOne(s, draws[0], v)).next);
    UndoKeepsIds(w, RedoOne(s, draws[0], v));
  }

  /** A live value to be added later stays live. */
  lemma LiveKept(s: Taxonomy, draws: seq<Draw>, v: Taxonomy, w: Taxonomy, i: nat, j: nat)
    requires draws != [] && ApplyAll(s, draws).BatchDone? && UniqueIds(ApplyAll(s, draws).next)
    requires forall k :: 0 <= k < |draws| ==> Proposable(draws[k].change)
    requires Has(s, AtFeature(i)) && !Has(ApplyOne(s, draws[0]).next, AtValue(i, j))
    requires Has(ApplyAll(s, draws).next, AtValue(i, j))
    requires Embeds(ApplyAll(s, draws).next, w) && Live(At(w, AtValue(i, j)))
    requires ApplyAll(v, Undoers(s, draws[0])).BatchDone? && ApplyAll(w, RedoOne(s, draws[0], v)).BatchDone?
    ensures
      var x := ApplyAll(w, RedoOne(s, draws[0], v)).next;
      Has(x, AtValue(i, j)) && Live(At(x, AtValue(i, j)))
    ensures Has(ApplyOne(s, draws[0]).next, AtFeature(i))
  {
    var d, end, f := draws[0], ApplyAll(s, draws).next, AtFeature(i);
    var next := ApplyOne(s, d).next;
    EmbedsAll(next, draws[1..]);
    StepShape(s, d);
    LaterUnnamed(s, d, end, v, w, AtValue(i, j));
    FeatureUnnamed(s, draws, v, w, i, j);
    assert Has(end, f) && Has(w, AtValue(i, j));
    UnnamedStays(w, RedoOne(s, d, v), AtValue(i, j));
  }

  /** A change before a value is added to a feature isn't about the feature. */
  lemma FeatureUnnamed(s: Taxonomy, draws: seq<Draw>, v: Taxonomy, w: Taxonomy, i: nat, j: nat)
    requires draws != [] && ApplyAll(s, draws).BatchDone? && UniqueIds(ApplyAll(s, draws).next)
    requires forall k :: 0 <= k < |draws| ==> Proposable(draws[k].change)
    requires Has(s, AtFeature(i)) && !Has(ApplyOne(s, draws[0]).next, AtValue(i, j))
    requires Has(ApplyAll(s, draws).next, AtValue(i, j)) && ApplyAll(v, Undoers(s, draws[0])).BatchDone?
    ensures Has(ApplyAll(s, draws).next, AtFeature(i))
    ensures Unnamed(w, RedoOne(s, draws[0], v), At(ApplyAll(s, draws).next, AtFeature(i)).id)
  {
    var d, end, f := draws[0], ApplyAll(s, draws).next, AtFeature(i);
    var next := ApplyOne(s, d).next;
    EmbedsAll(next, draws[1..]);
    EmbedsKeepsUnique(next, end);
    StepShape(s, d);
    EmbedsKeepsUnique(s, next);
    if Target(s, d.change) == Some(f) {
      assert Stamp(next, f) == NewStamp(s, d.change, f);
      GoneGrowsNot(next, draws[1..], i, j);
    }
    NotDrawn(s, d, end, f);
    RedoOneNames(s, d, v, w, At(end, f).id);
  }

  /** A value added later to a feature just made comes back with it, so bringing it back by name is refused. */
  lemma HeadGrowsRefused(s: Taxonomy, draws: seq<Draw>, m: Taxonomy, v: Taxonomy, w: Taxonomy, version: nat)
    requires draws != [] && ApplyAll(s, draws).BatchDone? && UniqueIds(ApplyAll(s, draws).next)
    requires forall k :: 0 <= k < |draws| ==> Proposable(draws[k].change)
    requires UniqueIds(w) && Embeds(ApplyAll(s, draws).next, w)
    requires draws[0].change.AddFeature? && Grows(ApplyOne(s, draws[0]).next, draws[1..], |s.features|)
    requires forall p :: Has(ApplyAll(s, draws).next, p) && !Has(s, p) ==> Stamp(w, p) == Some(version)
    requires ApplyAll(m, Undo(ApplyAll(ApplyOne(s, draws[0]).next, draws[1..]).applied)).BatchDone?
    requires ApplyAll(v, Undoers(s, draws[0])).BatchDone? && ApplyAll(w, RedoOne(s, draws[0], v)).BatchDone?
    requires UniqueIds(ApplyAll(w, RedoOne(s, draws[0], v)).next)
    requires Embeds(ApplyAll(s, draws).next, ApplyAll(w, RedoOne(s, draws[0], v)).next)
    ensures ApplyAll(ApplyAll(w, RedoOne(s, draws[0], v)).next, Redo(ApplyOne(s, draws[0]).next, draws[1..], m)).BatchRefused?
  {
    var next, end := ApplyOne(s, draws[0]).next, ApplyAll(s, draws).next;
    var i := |s.features|;
    EmbedsAll(next, draws[1..]);
    var j :| Has(end, AtValue(i, j)) && !Has(next, AtValue(i, j));
    NewFeatures(s, draws[0]);
    assert Has(end, AtFeature(i)) && !Has(s, AtFeature(i)) && !Has(s, AtValue(i, j));
    FeatureBack(s, draws[0], end, v, w, j);
    LiveRefused(next, draws[1..], m, ApplyAll(w, RedoOne(s, draws[0], v)).next, i, j);
  }

  /** A batch that adds a value to a feature it made: undoing its undo is refused, as the value comes back with the feature. */
  lemma {:induction false} GrowsRefused(s: Taxonomy, draws: seq<Draw>, m: Taxonomy, w: Taxonomy, version: nat)
    requires ApplyAll(s, draws).BatchDone? && UniqueIds(ApplyAll(s, draws).next)
    requires ApplyAll(m, Undo(ApplyAll(s, draws).applied)).BatchDone?
    requires forall k :: 0 <= k < |draws| ==> Proposable(draws[k].change)
    requires UniqueIds(w) && Embeds(ApplyAll(s, draws).next, w) && MadeGrows(s, draws)
    requires forall p :: Has(ApplyAll(s, draws).next, p) && !Has(s, p) ==> Stamp(w, p) == Some(version)
    ensures ApplyAll(w, Redo(s, draws, m)).BatchRefused?
    decreases |draws|
  {
    if ApplyAll(w, Redo(s, draws, m)).BatchDone? {
      var d := draws[0];
      var next := ApplyOne(s, d).next;
      var end := ApplyAll(s, draws).next;
      RedoHead(s, draws, m, w);
      var v := ApplyAll(m, Undo(ApplyAll(next, draws[1..]).applied)).next;
      var x := ApplyAll(w, RedoOne(s, d, v)).next;
      if d.change.AddFeature? && Grows(next, draws[1..], |s.features|) {
        HeadGrowsRefused(s, draws, m, v, w, version);
      } else {
        forall p | Has(end, p) && !Has(next, p)
          ensures Stamp(x, p) == Some(version)
        {
          LaterIsOld(s, d, next, end, p);
          LaterKept(s, d, end, v, w, p);
        }
        GrowsRefused(next, draws[1..], m, x, version);
      }
    }
  }

  /** What a batch adds later to a feature, where the first change made none that grows, is to one that was there. */
  lemma LaterIsOld(s: Taxonomy, d: Draw, next: Taxonomy, end: Taxonomy, p: Pos)
    requires ApplyOne(s, d).Done? && next == ApplyOne(s, d).next && Embeds(s, next) && Has(end, p) && !Has(next, p)
    requires d.change.AddFeature? ==> forall j :: Has(end, AtValue(|s.features|, j)) ==> Has(next, AtValue(|s.features|, j))
    ensures !Has(s, p)
    ensures p.AtValue? && Has(next, AtFeature(p.i)) ==> Has(s, AtFeature(p.i))
  {
    NewFeatures(s, d);
  }

  // ---------------------------------------------------------------------- exactly when

  lemma NoneMadeGrows(
      t: Taxonomy, draws: seq<Draw>, n: Taxonomy, applied: seq<Applied>, u: Taxonomy, undone: seq<Applied>)
    requires Parts(t, draws, n, applied, u, undone) && ApplyChanges(u, Undo(undone)).BatchDone?
    ensures !MadeGrows(NewVersion(t), draws)
  {
    var s, m, w := NewVersion(t), NewVersion(n), NewVersion(u);
    if MadeGrows(s, draws) {
      StartsSane(t);
      StartsMirrored(n);
      Refuses(t, draws);
      LosesByName(s, draws);
      BatchGoesBack(s, draws, m);
      EmbedsAll(m, Undo(applied));
      NewVersionPlaces(n);
      NewVersionPlaces(u);
      EmbedsOn(n, m, u);
      EmbedsOn(n, u, w);
      assert forall p :: Has(u, p) ==> Stamp(w, p) == Stamp(u, p);
      GrowsRefused(s, draws, m, w, u.version);
    }
  }

  /**
   * The undo of a proposed batch can itself be undone exactly when no value was added, in the batch, to a feature that
   * went later in it, nor to one that it made.
   */
  lemma RedoAccepted(t: Taxonomy, draws: seq<Draw>)
    requires UndoneBatch(t, draws)
    ensures
      var BatchDone(n, applied) := ApplyChanges(t, draws);
      var BatchDone(u, undone) := ApplyChanges(n, Undo(applied));
      ApplyChanges(u, Undo(undone)).BatchDone? <==>
        !JoinedGoes(NewVersion(t), draws) && !MadeGrows(NewVersion(t), draws)
  {
    var n, applied, u, undone := PartsOf(t, draws);
    if ApplyChanges(u, Undo(undone)).BatchDone? {
      NoneJoinedGoes(t, draws, n, applied, u, undone);
      NoneMadeGrows(t, draws, n, applied, u, undone);
    } else if !JoinedGoes(NewVersion(t), draws) && !MadeGrows(NewVersion(t), draws) {
      AcceptsAgain(t, draws, n, applied, u, undone);
    }
  }
}
