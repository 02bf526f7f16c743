/**
 The undo theorem for batches: whenever the changes `inverseChanges` gives for a batch are accepted,
 they give back what was live before it, with the same words and links.
 */
module TaxonomyUndoBatch {
  import opened Basics
  import opened Taxonomies
  import opened TaxonomyChanges
  import opened TaxonomySteps
  import opened TaxonomyForwarding
  import opened TaxonomyUndo

  /**
   * `u` says of the items of `t` what `t` says, has live exactly those live in `t`, and keeps whatever
   * else it lists retired. Only the shelves named may have another order.
   */
  ghost predicate Undone(t: Taxonomy, u: Taxonomy, moved: set<Id>) {
    && SameContent(t, u, moved)
    && (forall p :: Has(t, p) ==> Live(At(t, p)) == Live(At(u, p)))
    && (forall p :: Has(u, p) && !Has(t, p) ==> !Live(At(u, p)))
  }

  /** A batch and its undo, from a taxonomy in use to one that has been accepted. */
  ghost predicate RoundTrip(t: Taxonomy, draws: seq<Draw>) {
    && Valid(t) && NoOrphans(t)
    && ApplyChanges(t, draws).BatchDone?
    && ApplyChanges(ApplyChanges(t, draws).next, Undo(ApplyChanges(t, draws).applied)).BatchDone?
  }

  /** A batch and its undo, as the changes of each are applied one after another. */
  ghost predicate Trip(s: Taxonomy, draws: seq<Draw>, n: Taxonomy, applied: seq<Applied>, u: Taxonomy, undone: seq<Applied>) {
    && NoOrphans(s) && Valid(n) && Valid(u)
    && ApplyAll(s, draws) == BatchDone(n, applied)
    && ApplyAll(NewVersion(n), Undo(applied)) == BatchDone(u, undone)
  }

  lemma TripFacts(s: Taxonomy, draws: seq<Draw>, n: Taxonomy, applied: seq<Applied>, u: Taxonomy, undone: seq<Applied>, id: Id)
    requires Trip(s, draws, n, applied, u, undone)
    ensures NoOrphans(n) && NoOrphans(u)
    ensures Embeds(s, n) && Embeds(NewVersion(n), u) && n.version == s.version
    ensures LastSays(undone, id) == UndoSays(applied, id)
  {
    ApplyAllResolves(s, draws);
    UndoAllSays(NewVersion(n), applied, id);
    NoOrphansAll(s, draws);
    NoOrphansAll(NewVersion(n), Undo(applied));
    EmbedsAll(s, draws);
    EmbedsAll(NewVersion(n), Undo(applied));
  }

  /** The parts of a round trip: before, after the batch, and after its undo. */
  lemma RoundTripParts(t: Taxonomy, draws: seq<Draw>, id: Id)
    requires RoundTrip(t, draws)
    ensures
      var BatchDone(n, applied) := ApplyAll(NewVersion(t), draws);
      && ApplyChanges(t, draws) == BatchDone(n, applied)
      && ApplyAll(NewVersion(n), Undo(applied)).BatchDone?
      && var u := ApplyAll(NewVersion(n), Undo(applied)).next;
      && ApplyChanges(n, Undo(applied)).next == u && Valid(u) && Valid(n)
      && NoOrphans(NewVersion(t)) && NoOrphans(n) && NoOrphans(u)
      && Embeds(NewVersion(t), n) && Embeds(NewVersion(n), u)
      && n.version == t.version + 1
      && LastSays(ApplyAll(NewVersion(n), Undo(applied)).applied, id) == UndoSays(applied, id)
  {
    var BatchDone(n, applied) := ApplyAll(NewVersion(t), draws);
    var BatchDone(u, undone) := ApplyAll(NewVersion(n), Undo(applied));
    assert NoOrphans(NewVersion(t));
    TripFacts(NewVersion(t), draws, n, applied, u, undone, id);
  }

  /** What the undo last says of an item is how the item ends. */
  lemma UndoSaidFits(t: Taxonomy, draws: seq<Draw>, p: Pos)
    requires RoundTrip(t, draws) && Has(ApplyChanges(t, draws).next, p)
    ensures
      var n := ApplyChanges(t, draws).next;
      var u := ApplyChanges(n, Undo(ApplyChanges(t, draws).applied)).next;
      var said := UndoSays(ApplyChanges(t, draws).applied, At(n, p).id);
      Has(u, p) && At(u, p).id == At(n, p).id && (said.Some? ==> said.value == !Live(At(u, p)))
  {
    var BatchDone(n, applied) := ApplyChanges(t, draws);
    var id := At(n, p).id;
    RoundTripParts(t, draws, id);
    assert Has(NewVersion(n), p);
    AllSaid(NewVersion(n), Undo(applied), id);
  }

  /** An item that isn't a value is live at the end exactly if it was. */
  lemma UndoneLive(t: Taxonomy, draws: seq<Draw>, p: Pos)
    requires RoundTrip(t, draws) && Has(t, p) && !p.AtValue?
    ensures
      var n := ApplyChanges(t, draws).next;
      var u := ApplyChanges(n, Undo(ApplyChanges(t, draws).applied)).next;
      Has(u, p) && Live(At(u, p)) == Live(At(t, p))
  {
    var BatchDone(n, applied) := ApplyChanges(t, draws);
    var id := At(t, p).id;
    RoundTripParts(t, draws, id);
    assert Has(NewVersion(t), p) && Has(n, p) && Has(NewVersion(n), p);
    UndoSaidFits(t, draws, p);
    UndoTells(NewVersion(t), draws, p);
    if UndoSays(applied, id) == None {
      QuietAll(NewVersion(t), draws, p);
      QuietSaysNothing(ApplyAll(NewVersion(n), Undo(applied)).applied, id);
      QuietAll(NewVersion(n), Undo(applied), p);
    }
  }

  /** An undo that doesn't name a value leaves it with its feature, or retired as it was. */
  lemma QuietUndo(n: Taxonomy, applied: seq<Applied>, u: Taxonomy, undone: seq<Applied>, i: nat, j: nat)
    requires ApplyAll(NewVersion(n), Undo(applied)) == BatchDone(u, undone) && UniqueIds(u) && NoOrphans(n)
    requires Has(n, AtValue(i, j)) && Quiet(undone, At(n, AtValue(i, j)).id)
    requires Stamp(n, AtValue(i, j)).Some? && !Attached(n, i, j) ==> Stamp(n, AtValue(i, j)).value <= n.version
    ensures Has(u, AtValue(i, j)) && Attached(u, i, j) == Attached(n, i, j)
    ensures !Attached(n, i, j) ==> Stamp(u, AtValue(i, j)) == Stamp(n, AtValue(i, j)) != None
  {
    var m, v := NewVersion(n), AtValue(i, j);
    assert Has(m, v) && Stamp(m, v) == Stamp(n, v) && Attached(m, i, j) == Attached(n, i, j);
    assert NoOrphans(m);
    QuietValueAll(m, Undo(applied), i, j);
  }

  /** A value the batch doesn't name ends with its feature, or retired as it was. */
  lemma QuietTrip(
      s: Taxonomy, draws: seq<Draw>, n: Taxonomy, applied: seq<Applied>, u: Taxonomy, undone: seq<Applied>, i: nat, j: nat)
    requires Trip(s, draws, n, applied, u, undone) && Has(s, AtValue(i, j))
    requires Stamp(s, AtValue(i, j)).Some? ==> Stamp(s, AtValue(i, j)).value < s.version
    requires UndoSays(applied, At(s, AtValue(i, j)).id) == None
    ensures Has(u, AtValue(i, j)) && Attached(u, i, j) == Attached(s, i, j)
    ensures !Attached(s, i, j) ==> Stamp(u, AtValue(i, j)) == Stamp(s, AtValue(i, j)) != None
  {
    var v := AtValue(i, j);
    TripFacts(s, draws, n, applied, u, undone, At(s, v).id);
    assert Has(n, v) && At(n, v).id == At(s, v).id;
    UndoTellsValue(s, draws, i, j);
    QuietValueAll(s, draws, i, j);
    QuietSaysNothing(undone, At(s, v).id);
    QuietUndo(n, applied, u, undone, i, j);
  }

  lemma QuietRoundTrip(t: Taxonomy, draws: seq<Draw>, i: nat, j: nat)
    requires RoundTrip(t, draws) && Has(t, AtValue(i, j))
    requires UndoSays(ApplyChanges(t, draws).applied, At(t, AtValue(i, j)).id) == None
    ensures
      var u := ApplyChanges(ApplyChanges(t, draws).next, Undo(ApplyChanges(t, draws).applied)).next;
      && Has(u, AtValue(i, j))
      && Attached(u, i, j) == Attached(t, i, j)
      && (!Attached(t, i, j) ==> !Live(At(u, AtValue(i, j))) && !Live(At(t, AtValue(i, j))))
  {
    var BatchDone(n, applied) := ApplyAll(NewVersion(t), draws);
    var BatchDone(u, undone) := ApplyAll(NewVersion(n), Undo(applied));
    TripStarts(t, i, j);
    QuietTrip(NewVersion(t), draws, n, applied, u, undone, i, j);
  }

  lemma TripStarts(t: Taxonomy, i: nat, j: nat)
    requires NoOrphans(t) && StampsFit(t) && Has(t, AtValue(i, j))
    ensures
      var s, v := NewVersion(t), AtValue(i, j);
      && NoOrphans(s) && Has(s, v) && At(s, v) == At(t, v) && Attached(s, i, j) == Attached(t, i, j)
      && (Stamp(s, v).Some? ==> Stamp(s, v).value < s.version)
  {
  }

  /** A value is live at the end exactly if it was. */
  lemma {:induction false} UndoneLiveValue(t: Taxonomy, draws: seq<Draw>, i: nat, j: nat)
    requires RoundTrip(t, draws) && Has(t, AtValue(i, j))
    ensures
      var n := ApplyChanges(t, draws).next;
      var u := ApplyChanges(n, Undo(ApplyChanges(t, draws).applied)).next;
      Has(u, AtValue(i, j)) && Live(At(u, AtValue(i, j))) == Live(At(t, AtValue(i, j)))
  {
    var v, f := AtValue(i, j), AtFeature(i);
    var BatchDone(n, applied) := ApplyChanges(t, draws);
    var id := At(t, v).id;
    RoundTripParts(t, draws, id);
    assert Has(NewVersion(t), v) && Has(n, v) && Has(NewVersion(n), v);
    UndoneLive(t, draws, f);
    UndoSaidFits(t, draws, v);
    UndoTellsValue(NewVersion(t), draws, i, j);
    if UndoSays(applied, id) == None {
      QuietRoundTrip(t, draws, i, j);
    }
  }

  lemma {:induction false} NothingMade(t: Taxonomy, draws: seq<Draw>, p: Pos)
    requires ApplyAll(t, draws).BatchDone? && forall k :: 0 <= k < |draws| ==> draws[k].ids == []
    requires Has(ApplyAll(t, draws).next, p)
    ensures Has(t, p)
    decreases |draws|
  {
    if draws != [] {
      NothingMade(ApplyOne(t, draws[0]).next, draws[1..], p);
      StepShape(t, draws[0]);
    }
  }

  /** What the batch made is retired at the end, named by the undo. */
  lemma {:induction false} UndoneMadeByName(t: Taxonomy, draws: seq<Draw>, p: Pos)
    requires RoundTrip(t, draws) && !Has(t, p) && Has(ApplyChanges(t, draws).next, p)
    requires p.AtValue? ==> Has(t, AtFeature(p.i))
    ensures
      var u := ApplyChanges(ApplyChanges(t, draws).next, Undo(ApplyChanges(t, draws).applied)).next;
      Has(u, p) && !Live(At(u, p))
  {
    RoundTripParts(t, draws, "");
    CreatedUndone(NewVersion(t), draws, p);
    UndoSaidFits(t, draws, p);
  }

  /** What the batch made is retired at the end, a new feature's values with it. */
  lemma {:induction false} UndoneMade(t: Taxonomy, draws: seq<Draw>, p: Pos)
    requires RoundTrip(t, draws) && !Has(t, p)
    requires Has(ApplyChanges(ApplyChanges(t, draws).next, Undo(ApplyChanges(t, draws).applied)).next, p)
    ensures !Live(At(ApplyChanges(ApplyChanges(t, draws).next, Undo(ApplyChanges(t, draws).applied)).next, p))
  {
    var BatchDone(n, applied) := ApplyChanges(t, draws);
    RoundTripParts(t, draws, "");
    NothingMade(NewVersion(n), Undo(applied), p);
    assert Has(n, p);
    if p.AtValue? && !Has(t, AtFeature(p.i)) {
      UndoneMadeByName(t, draws, AtFeature(p.i));
    } else {
      UndoneMadeByName(t, draws, p);
    }
  }

  /**
   * Whenever the undo of a batch is accepted, it gives back the live taxonomy there was: the same
   * items in the same places, with the same slugs, names, descriptions, parents, implied functions,
   * feature shelves and scope. A shelf the batch moved may have another order among its siblings.
   */
  lemma UndoBatch(t: Taxonomy, draws: seq<Draw>)
    requires RoundTrip(t, draws)
    ensures
      var BatchDone(n, applied) := ApplyChanges(t, draws);
      Undone(t, ApplyChanges(n, Undo(applied)).next, MovedIn(applied))
  {
    var BatchDone(n, applied) := ApplyChanges(t, draws);
    var u := ApplyChanges(n, Undo(applied)).next;
    RoundTripParts(t, draws, "");
    UndoneContentAll(NewVersion(t), draws, NewVersion(n));
    assert SameContent(t, u, MovedIn(applied)) by {
      assert forall p :: Has(t, p) ==> Has(NewVersion(t), p);
    }
    forall p | Has(t, p)
      ensures Live(At(t, p)) == Live(At(u, p))
    {
      if p.AtValue? {
        UndoneLiveValue(t, draws, p.i, p.j);
      } else {
        UndoneLive(t, draws, p);
      }
    }
    forall p | Has(u, p) && !Has(t, p)
      ensures !Live(At(u, p))
    {
      UndoneMade(t, draws, p);
    }
  }
}
