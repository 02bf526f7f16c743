/**
 Undoing a batch (platform/core/src/taxonomy-changes.ts:504-550). What a batch replaced is put back
 change by change, so words and links are followed backwards. What is live at the end is read off the
 migrations: an item's last one undoes its first one in the batch, and the undo is accepted only if
 each item is as its last migration says.
 */
module TaxonomyUndo {
  import opened Basics
  import opened Taxonomies
  import opened TaxonomyChanges
  import opened TaxonomySteps
  import opened TaxonomyAdditions
  import opened TaxonomyForwarding

  // ---------------------------------------------------------------------- what a batch says

  /** What a batch last says of an item. */
  function LastSays(applied: seq<Applied>, id: Id): Option<bool> {
    if applied == [] then None
    else
      var later := LastSays(applied[1..], id);
      if later.Some? then later else SaysOf(applied[0], id)
  }

  lemma {:induction false} LastSaysConcat(a: seq<Applied>, b: seq<Applied>, id: Id)
    ensures LastSays(a + b, id) == if LastSays(b, id).Some? then LastSays(b, id) else LastSays(a, id)
  {
    if a == [] {
      assert a + b == b;
    } else {
      assert (a + b)[1..] == a[1..] + b;
      LastSaysConcat(a[1..], b, id);
    }
  }

  lemma {:induction false} AllSaid(t: Taxonomy, draws: seq<Draw>, id: Id)
    requires ApplyAll(t, draws).BatchDone?
    ensures
      var BatchDone(u, applied) := ApplyAll(t, draws);
      LastSaid(u.migrations, id) ==
        if LastSays(applied, id).Some? then LastSays(applied, id) else LastSaid(t.migrations, id)
    decreases |draws|
  {
    if draws != [] {
      var Done(next, a) := ApplyOne(t, draws[0]);
      StepShape(t, draws[0]);
      StepSaid(t, next, a, id);
      AllSaid(next, draws[1..], id);
      var rest := ApplyAll(next, draws[1..]).applied;
      assert ([a] + rest)[1..] == rest;
    }
  }

  /** A live value belongs to a live feature. Validity doesn't ask it, and every change keeps it. */
  ghost predicate NoOrphans(t: Taxonomy) {
    forall i, j :: Has(t, AtValue(i, j)) && Live(At(t, AtValue(i, j))) ==> Live(At(t, AtFeature(i)))
  }

  lemma NoOrphansStep(t: Taxonomy, d: Draw)
    requires ApplyOne(t, d).Done? && NoOrphans(t) && UniqueIds(ApplyOne(t, d).next)
    ensures NoOrphans(ApplyOne(t, d).next)
  {
    var u := ApplyOne(t, d).next;
    StepShape(t, d);
    EmbedsKeepsUnique(t, u);
    forall i, j | Has(u, AtValue(i, j)) && Live(At(u, AtValue(i, j)))
      ensures Live(At(u, AtFeature(i)))
    {
      var v, f := AtValue(i, j), AtFeature(i);
      if Has(t, v) {
        assert Stamp(u, v) == NewStamp(t, d.change, v);
        assert Stamp(u, f) == NewStamp(t, d.change, f);
        if d.change.Restore? && Target(t, d.change) == Some(v) {
          FindAt(t, v);
        }
      } else if Has(t, f) {
        AddedValue(t, d, i, j);
        assert Stamp(u, f) == NewStamp(t, d.change, f);
      }
    }
  }

  /** A value new to a feature is new by `add-value`, which asks for a live feature. */
  lemma AddedValue(t: Taxonomy, d: Draw, i: nat, j: nat)
    requires ApplyOne(t, d).Done?
    requires Has(t, AtFeature(i)) && Has(ApplyOne(t, d).next, AtValue(i, j)) && !Has(t, AtValue(i, j))
    ensures d.change.AddValue? && LiveItem(t, FeatureSubject, d.change.feature) == Some(AtFeature(i))
    ensures At(ApplyOne(t, d).next, AtValue(i, j)).id == d.ids[0]
  {
    ChangeAdds(t, d);
  }

  lemma {:induction false} NoOrphansAll(t: Taxonomy, draws: seq<Draw>)
    requires ApplyAll(t, draws).BatchDone? && NoOrphans(t) && UniqueIds(ApplyAll(t, draws).next)
    ensures NoOrphans(ApplyAll(t, draws).next)
    decreases |draws|
  {
    if draws != [] {
      var next := ApplyOne(t, draws[0]).next;
      EmbedsAll(next, draws[1..]);
      EmbedsKeepsUnique(next, ApplyAll(next, draws[1..]).next);
      NoOrphansStep(t, draws[0]);
      NoOrphansAll(next, draws[1..]);
    }
  }

  // ---------------------------------------------------------------------- what a batch says nothing of

  ghost predicate Quiet(applied: seq<Applied>, id: Id) {
    forall k :: 0 <= k < |applied| ==> SaysOf(applied[k], id) == None
  }

  lemma {:induction false} QuietSaysNothing(applied: seq<Applied>, id: Id)
    ensures Quiet(applied, id) <==> LastSays(applied, id) == None
  {
    if applied != [] {
      QuietSaysNothing(applied[1..], id);
      assert forall k :: 1 <= k < |applied| ==> applied[k] == applied[1..][k - 1];
    }
  }

  /** A value that is live or retired just as its feature is, version for version. */
  predicate Attached(t: Taxonomy, i: nat, j: nat)
    requires Has(t, AtValue(i, j))
  {
    Stamp(t, AtValue(i, j)) == Stamp(t, AtFeature(i))
  }

  /** What a change says of the item it is about. */
  lemma TargetSaid(t: Taxonomy, d: Draw, p: Pos)
    requires ApplyOne(t, d).Done? && UniqueIds(t) && Has(t, p)
    ensures SaysOf(ApplyOne(t, d).applied, At(t, p).id) ==
      if Target(t, d.change) == Some(p) then Some(!d.change.Restore?) else None
    ensures Target(t, d.change) == Some(p) ==> Live(At(t, p)) == !d.change.Restore?
  {
  }

  /** An item that isn't a value keeps its state through a change that doesn't name it. */
  lemma QuietStep(t: Taxonomy, d: Draw, p: Pos)
    requires ApplyOne(t, d).Done? && UniqueIds(t) && Has(t, p) && !p.AtValue?
    requires SaysOf(ApplyOne(t, d).applied, At(t, p).id) == None
    ensures Has(ApplyOne(t, d).next, p) && Stamp(ApplyOne(t, d).next, p) == Stamp(t, p)
  {
    StepShape(t, d);
    TargetSaid(t, d, p);
    assert Stamp(ApplyOne(t, d).next, p) == NewStamp(t, d.change, p);
  }

  /** A value that no change names goes where its feature goes, or stays retired where it was. */
  lemma QuietValueStep(t: Taxonomy, d: Draw, i: nat, j: nat)
    requires ApplyOne(t, d).Done? && UniqueIds(t) && Has(t, AtValue(i, j))
    requires SaysOf(ApplyOne(t, d).applied, At(t, AtValue(i, j)).id) == None
    requires Stamp(t, AtValue(i, j)).Some? && !Attached(t, i, j) ==> Stamp(t, AtValue(i, j)).value < t.version
    requires NoOrphans(t)
    ensures Has(ApplyOne(t, d).next, AtValue(i, j))
    ensures Attached(ApplyOne(t, d).next, i, j) == Attached(t, i, j)
    ensures !Attached(t, i, j) ==> Stamp(ApplyOne(t, d).next, AtValue(i, j)) == Stamp(t, AtValue(i, j)) != None
  {
    var v, f := AtValue(i, j), AtFeature(i);
    StepShape(t, d);
    TargetSaid(t, d, v);
    TargetSaid(t, d, f);
    assert Stamp(ApplyOne(t, d).next, v) == NewStamp(t, d.change, v);
    assert Stamp(ApplyOne(t, d).next, f) == NewStamp(t, d.change, f);
  }

  lemma {:induction false} QuietAll(t: Taxonomy, draws: seq<Draw>, p: Pos)
    requires ApplyAll(t, draws).BatchDone? && UniqueIds(ApplyAll(t, draws).next) && Has(t, p) && !p.AtValue?
    requires Quiet(ApplyAll(t, draws).applied, At(t, p).id)
    ensures Has(ApplyAll(t, draws).next, p) && Stamp(ApplyAll(t, draws).next, p) == Stamp(t, p)
    decreases |draws|
  {
    EmbedsAll(t, draws);
    if draws != [] {
      var Done(next, a) := ApplyOne(t, draws[0]);
      QuietHead(a, ApplyAll(next, draws[1..]).applied, At(t, p).id);
      StepShape(t, draws[0]);
      QuietStep(t, draws[0], p);
      QuietAll(next, draws[1..], p);
    }
  }

  lemma QuietHead(a: Applied, rest: seq<Applied>, id: Id)
    requires Quiet([a] + rest, id)
    ensures SaysOf(a, id) == None && Quiet(rest, id)
  {
    assert ([a] + rest)[0] == a;
    assert forall k :: 0 <= k < |rest| ==> rest[k] == ([a] + rest)[k + 1];
  }

  lemma {:induction false} QuietValueAll(t: Taxonomy, draws: seq<Draw>, i: nat, j: nat)
    requires ApplyAll(t, draws).BatchDone? && UniqueIds(ApplyAll(t, draws).next)
    requires Has(t, AtValue(i, j)) && NoOrphans(t)
    requires Quiet(ApplyAll(t, draws).applied, At(t, AtValue(i, j)).id)
    requires Stamp(t, AtValue(i, j)).Some? && !Attached(t, i, j) ==> Stamp(t, AtValue(i, j)).value < t.version
    ensures Has(ApplyAll(t, draws).next, AtValue(i, j))
    ensures Attached(ApplyAll(t, draws).next, i, j) == Attached(t, i, j)
    ensures !Attached(t, i, j) ==> Stamp(ApplyAll(t, draws).next, AtValue(i, j)) == Stamp(t, AtValue(i, j)) != None
    decreases |draws|
  {
    EmbedsAll(t, draws);
    if draws != [] {
      var Done(next, a) := ApplyOne(t, draws[0]);
      QuietHead(a, ApplyAll(next, draws[1..]).applied, At(t, AtValue(i, j)).id);
      EmbedsAll(next, draws[1..]);
      EmbedsKeepsUnique(next, ApplyAll(next, draws[1..]).next);
      StepShape(t, draws[0]);
      NoOrphansStep(t, draws[0]);
      QuietValueStep(t, draws[0], i, j);
      QuietValueAll(next, draws[1..], i, j);
    }
  }

  // ---------------------------------------------------------------------- what an undo says

  /** The items a change made that its undo retires by name. A new feature's values go with it. */
  function Retirees(a: Applied): seq<Id> {
    match a.change
    case AddCategory(_) => a.created
    case AddSubcategory(_, _) => a.created
    case Split(_, _) => a.created
    case AddFunction(_) => a.created[..if |a.created| > 0 then 1 else 0]
    case AddFeature(_, _, _, _) => a.created[..if |a.created| > 0 then 1 else 0]
    case AddValue(_, _) => a.created[..if |a.created| > 0 then 1 else 0]
    case _ => []
  }

  /** What undoing a change says of an item. */
  function UndoneSays(a: Applied, id: Id): Option<bool> {
    match SaysOf(a, id)
    case Some(retired) => Some(!retired)
    case None => if id in Retirees(a) then Some(true) else None
  }

  /** What undoing a batch says of an item in the end: the undo of the first change that says anything. */
  function UndoSays(applied: seq<Applied>, id: Id): Option<bool> {
    if applied == [] then None
    else if UndoneSays(applied[0], id).Some? then UndoneSays(applied[0], id)
    else UndoSays(applied[1..], id)
  }

  /** An applied change names its item by ID. */
  predicate Resolved(a: Applied) {
    match a.change
    case Merge(_, from, _) => from.ById?
    case Retire(_, item) => item.ById?
    case Restore(_, item) => item.ById?
    case _ => true
  }

  lemma ApplyResolves(t: Taxonomy, d: Draw)
    requires ApplyOne(t, d).Done?
    ensures Resolved(ApplyOne(t, d).applied)
  {
  }

  lemma {:induction false} ApplyAllResolves(t: Taxonomy, draws: seq<Draw>)
    requires ApplyAll(t, draws).BatchDone?
    ensures forall k :: 0 <= k < |draws| ==> Resolved(ApplyAll(t, draws).applied[k])
    decreases |draws|
  {
    if draws != [] {
      ApplyResolves(t, draws[0]);
      ApplyAllResolves(ApplyOne(t, draws[0]).next, draws[1..]);
    }
  }

  lemma {:induction false} ApplyAllConcat(t: Taxonomy, a: seq<Draw>, b: seq<Draw>)
    requires ApplyAll(t, a + b).BatchDone?
    ensures ApplyAll(t, a).BatchDone? && ApplyAll(ApplyAll(t, a).next, b).BatchDone?
    ensures
      var BatchDone(u, first) := ApplyAll(t, a);
      var BatchDone(v, second) := ApplyAll(u, b);
      ApplyAll(t, a + b) == BatchDone(v, first + second)
    decreases |a|
  {
    if a == [] {
      assert a + b == b;
      assert ApplyAll(t, b).applied == [] + ApplyAll(t, b).applied;
    } else {
      TailOfConcat(a, b);
      var Done(next, x) := ApplyOne(t, a[0]);
      ApplyAllConcat(next, a[1..], b);
      var BatchDone(u, first) := ApplyAll(next, a[1..]);
      HeadThenBoth(x, first, ApplyAll(u, b).applied);
    }
  }

  lemma TailOfConcat(a: seq<Draw>, b: seq<Draw>)
    requires a != []
    ensures a + b != [] && (a + b)[0] == a[0] && (a + b)[1..] == a[1..] + b
  {
  }

  lemma HeadThenBoth(x: Applied, first: seq<Applied>, second: seq<Applied>)
    ensures [x] + (first + second) == ([x] + first) + second
  {
  }

  lemma InverseOfMakesNothing(a: Applied)
    ensures forall k :: 0 <= k < |InverseOf(a)| ==> Makes(InverseOf(a)[k]) == 0
  {
  }

  /** The batch that undoes one change. */
  function UndoOf(a: Applied): (draws: seq<Draw>)
    ensures |draws| == |InverseOf(a)|
    ensures forall k :: 0 <= k < |draws| ==> draws[k].change == InverseOf(a)[k] && draws[k].ids == []
  {
    InverseOfMakesNothing(a);
    AsDraws(InverseOf(a))
  }

  lemma UndoSplits(applied: seq<Applied>)
    requires applied != []
    ensures Undo(applied) == Undo(applied[1..]) + UndoOf(applied[0])
  {
  }

  lemma {:induction false} RetireEachSays(u: Taxonomy, ids: seq<Id>, draws: seq<Draw>, id: Id)
    requires |draws| == |ids|
    requires forall k :: 0 <= k < |ids| ==> draws[k].change == Retire(ShelfSubject, ById(ids[k]))
    requires ApplyAll(u, draws).BatchDone?
    ensures LastSays(ApplyAll(u, draws).applied, id) == if id in ids then Some(true) else None
    decreases |draws|
  {
    if draws != [] {
      var Done(next, a) := ApplyOne(u, draws[0]);
      RetireEachSays(next, ids[1..], draws[1..], id);
      assert ids == [ids[0]] + ids[1..];
      RetireIsWritten(u, draws[0], ids[0]);
      LastSaysHead(a, ApplyAll(next, draws[1..]).applied, id);
    }
  }

  lemma RetireIsWritten(u: Taxonomy, d: Draw, id: Id)
    requires d.change == Retire(ShelfSubject, ById(id)) && ApplyOne(u, d).Done?
    ensures ApplyOne(u, d).applied.change == d.change
  {
  }

  lemma LastSaysHead(a: Applied, rest: seq<Applied>, id: Id)
    ensures LastSays([a] + rest, id) == if LastSays(rest, id).Some? then LastSays(rest, id) else SaysOf(a, id)
  {
    LastSaysConcat([a], rest, id);
    assert [a][..0] == [] && [a][1..] == [];
  }

  lemma OneSays(u: Taxonomy, draws: seq<Draw>, id: Id)
    requires |draws| == 1 && ApplyAll(u, draws).BatchDone?
    ensures ApplyOne(u, draws[0]).Done?
    ensures ApplyAll(u, draws).next == ApplyOne(u, draws[0]).next
    ensures LastSays(ApplyAll(u, draws).applied, id) == SaysOf(ApplyOne(u, draws[0]).applied, id)
  {
    var Done(next, a) := ApplyOne(u, draws[0]);
    assert ApplyAll(next, draws[1..]) == BatchDone(next, []);
    assert ([a] + [])[1..] == [];
  }

  lemma UndoOfSays(u: Taxonomy, a: Applied, id: Id)
    requires Resolved(a) && ApplyAll(u, UndoOf(a)).BatchDone?
    ensures LastSays(ApplyAll(u, UndoOf(a)).applied, id) == UndoneSays(a, id)
  {
    if a.change.AddCategory? || a.change.AddSubcategory? || a.change.Split? {
      RetireEachSays(u, a.created, UndoOf(a), id);
    } else if UndoOf(a) != [] {
      OneSays(u, UndoOf(a), id);
    }
  }

  lemma {:induction false} UndoAllSays(u: Taxonomy, applied: seq<Applied>, id: Id)
    requires forall k :: 0 <= k < |applied| ==> Resolved(applied[k])
    requires ApplyAll(u, Undo(applied)).BatchDone?
    ensures LastSays(ApplyAll(u, Undo(applied)).applied, id) == UndoSays(applied, id)
  {
    if applied != [] {
      UndoSplits(applied);
      ApplyAllConcat(u, Undo(applied[1..]), UndoOf(applied[0]));
      var BatchDone(v, first) := ApplyAll(u, Undo(applied[1..]));
      var second := ApplyAll(v, UndoOf(applied[0])).applied;
      UndoAllSays(u, applied[1..], id);
      UndoOfSays(v, applied[0], id);
      LastSaysConcat(first, second, id);
    }
  }

  // ---------------------------------------------------------------------- what it says is how things were

  /** The IDs a change made are those of the items it added. */
  lemma CreatedAt(t: Taxonomy, d: Draw, id: Id) returns (p: Pos)
    requires ApplyOne(t, d).Done? && id in d.ids
    ensures Has(ApplyOne(t, d).next, p) && !Has(t, p) && At(ApplyOne(t, d).next, p).id == id
  {
    var k :| 0 <= k < |d.ids| && d.ids[k] == id;
    p := AddedAt(t, d, k);
    ChangeAdds(t, d);
    if NewShelves(d.change) != [] {
      CreatedShelf(t, d, ApplyOne(t, d).next, k);
    } else {
      CreatedOther(t, d, ApplyOne(t, d).next, k);
    }
  }

  lemma CreatedShelf(t: Taxonomy, d: Draw, u: Taxonomy, k: nat)
    requires AddsShelves(t, d, u) && k < |d.ids| && NewShelves(d.change) != []
    ensures Has(u, AddedAt(t, d, k)) && !Has(t, AddedAt(t, d, k)) && At(u, AddedAt(t, d, k)).id == d.ids[k]
  {
    assert ShelfAdded(t, NewParent(t, d.change), NewShelves(d.change)[k], d.ids[k], u.shelves, |t.shelves| + k);
  }

  lemma CreatedOther(t: Taxonomy, d: Draw, u: Taxonomy, k: nat)
    requires ApplyOne(t, d).Done? && u == ApplyOne(t, d).next && Adds(t, d, u)
    requires k < |d.ids| && NewShelves(d.change) == []
    ensures Has(u, AddedAt(t, d, k)) && !Has(t, AddedAt(t, d, k)) && At(u, AddedAt(t, d, k)).id == d.ids[k]
  {
    if d.change.AddFeature? && k > 0 {
      assert IsEntry(u.features[|t.features|].values[k - 1], d.change.values[k - 1], d.ids[1 + (k - 1)]);
    }
  }

  /** Where the item with one of a change's new IDs is. */
  function AddedAt(t: Taxonomy, d: Draw, k: nat): Pos
    requires k < |d.ids|
  {
    match d.change
    case AddFeature(_, _, _, _) => if k == 0 then AtFeature(|t.features|) else AtValue(|t.features|, k - 1)
    case AddValue(ref, _) =>
      (match LiveItem(t, FeatureSubject, ref)
       case Some(AtFeature(i)) => AtValue(i, |t.features[i].values|)
       case _ => AtFeature(|t.features|))
    case AddFunction(_) => AtFunction(|t.functions|)
    case _ => AtShelf(|t.shelves| + k)
  }

  /** What a change didn't make has none of the IDs it made. */
  lemma NotDrawn(t: Taxonomy, d: Draw, u: Taxonomy, p: Pos)
    requires ApplyOne(t, d).Done? && Embeds(ApplyOne(t, d).next, u) && UniqueIds(u)
    requires Has(u, p) && (Has(ApplyOne(t, d).next, p) ==> Has(t, p))
    ensures At(u, p).id !in d.ids
  {
    forall k | 0 <= k < |d.ids|
      ensures d.ids[k] != At(u, p).id
    {
      var q := CreatedAt(t, d, d.ids[k]);
      assert At(u, q).id == d.ids[k] && q != p;
    }
  }

  lemma CreatedIsDrawn(t: Taxonomy, d: Draw)
    requires ApplyOne(t, d).Done?
    ensures ApplyOne(t, d).applied.created == d.ids
  {
  }

  /** Undoing a change says of an item that was there what the change found: that it was live, or retired. */
  lemma UndoneSaysWas(t: Taxonomy, d: Draw, p: Pos)
    requires ApplyOne(t, d).Done? && UniqueIds(ApplyOne(t, d).next) && Has(t, p)
    ensures UndoneSays(ApplyOne(t, d).applied, At(t, p).id) ==
      if Target(t, d.change) == Some(p) then Some(!Live(At(t, p))) else None
    ensures UndoneSays(ApplyOne(t, d).applied, At(t, p).id) == None <==>
      SaysOf(ApplyOne(t, d).applied, At(t, p).id) == None
  {
    var u := ApplyOne(t, d).next;
    StepShape(t, d);
    EmbedsKeepsUnique(t, u);
    TargetSaid(t, d, p);
    CreatedIsDrawn(t, d);
    NotDrawn(t, d, u, p);
  }

  /** For an item that isn't a value: what the undo says of it is how it was before the batch. */
  lemma {:induction false} UndoTells(t: Taxonomy, draws: seq<Draw>, p: Pos)
    requires ApplyAll(t, draws).BatchDone? && UniqueIds(ApplyAll(t, draws).next)
    requires Has(t, p) && !p.AtValue?
    ensures
      var applied := ApplyAll(t, draws).applied;
      var said := UndoSays(applied, At(t, p).id);
      if said.Some? then said.value == !Live(At(t, p)) else Quiet(applied, At(t, p).id)
    decreases |draws|
  {
    if draws != [] {
      var Done(next, a) := ApplyOne(t, draws[0]);
      EmbedsAll(next, draws[1..]);
      EmbedsKeepsUnique(next, ApplyAll(next, draws[1..]).next);
      StepShape(t, draws[0]);
      UndoneSaysWas(t, draws[0], p);
      UndoTells(next, draws[1..], p);
      UndoSaysHead(a, ApplyAll(next, draws[1..]).applied, At(t, p).id);
      if UndoneSays(a, At(t, p).id) == None {
        EmbedsKeepsUnique(t, next);
        QuietStep(t, draws[0], p);
      }
    }
  }

  lemma UndoSaysHead(a: Applied, rest: seq<Applied>, id: Id)
    ensures UndoSays([a] + rest, id) == if UndoneSays(a, id).Some? then UndoneSays(a, id) else UndoSays(rest, id)
    ensures SaysOf(a, id) == None && Quiet(rest, id) ==> Quiet([a] + rest, id)
  {
    assert ([a] + rest)[1..] == rest;
  }

  /** For a value: an undo that brings it back found it attached, one that retires it found it retired. */
  lemma {:induction false} UndoTellsValue(t: Taxonomy, draws: seq<Draw>, i: nat, j: nat)
    requires ApplyAll(t, draws).BatchDone? && UniqueIds(ApplyAll(t, draws).next)
    requires Has(t, AtValue(i, j)) && NoOrphans(t)
    requires Stamp(t, AtValue(i, j)).Some? && !Attached(t, i, j) ==> Stamp(t, AtValue(i, j)).value < t.version
    ensures
      var applied := ApplyAll(t, draws).applied;
      var said := UndoSays(applied, At(t, AtValue(i, j)).id);
      if said.Some? then Attached(t, i, j) == !said.value
      else Quiet(applied, At(t, AtValue(i, j)).id)
    decreases |draws|
  {
    if draws != [] {
      var v := AtValue(i, j);
      var Done(next, a) := ApplyOne(t, draws[0]);
      EmbedsAll(next, draws[1..]);
      EmbedsKeepsUnique(next, ApplyAll(next, draws[1..]).next);
      StepShape(t, draws[0]);
      EmbedsKeepsUnique(t, next);
      NoOrphansStep(t, draws[0]);
      UndoneSaysWas(t, draws[0], v);
      UndoSaysHead(a, ApplyAll(next, draws[1..]).applied, At(t, v).id);
      if UndoneSays(a, At(t, v).id) == None {
        QuietValueStep(t, draws[0], i, j);
        UndoTellsValue(next, draws[1..], i, j);
      } else {
        NamedValue(t, draws[0], i, j);
      }
    }
  }

  /** A change that names a value finds its feature live. */
  lemma NamedValue(t: Taxonomy, d: Draw, i: nat, j: nat)
    requires ApplyOne(t, d).Done? && UniqueIds(t) && NoOrphans(t) && Has(t, AtValue(i, j))
    requires Target(t, d.change) == Some(AtValue(i, j))
    ensures Live(At(t, AtFeature(i)))
    ensures Live(At(t, AtValue(i, j))) == !d.change.Restore?
  {
    FindAt(t, AtValue(i, j));
  }

  /** What a batch made, its undo retires by name, but for a new feature's values. */
  lemma {:induction false} CreatedUndone(t: Taxonomy, draws: seq<Draw>, p: Pos)
    requires ApplyAll(t, draws).BatchDone? && UniqueIds(ApplyAll(t, draws).next)
    requires Has(ApplyAll(t, draws).next, p) && !Has(t, p)
    requires p.AtValue? ==> Has(t, AtFeature(p.i))
    ensures UndoSays(ApplyAll(t, draws).applied, At(ApplyAll(t, draws).next, p).id) == Some(true)
    decreases |draws|
  {
    var u := ApplyAll(t, draws).next;
    var id := At(u, p).id;
    assert draws != [];
    var Done(next, a) := ApplyOne(t, draws[0]);
    EmbedsAll(next, draws[1..]);
    EmbedsKeepsUnique(next, u);
    StepShape(t, draws[0]);
    UndoSaysHead(a, ApplyAll(next, draws[1..]).applied, id);
    CreatedIsDrawn(t, draws[0]);
    if Has(next, p) {
      MadeIsRetiree(t, draws[0], p);
      NamesSomethingThere(t, draws[0], id);
    } else {
      CreatedUndone(next, draws[1..], p);
      NamesSomethingThere(t, draws[0], id);
      NotDrawn(t, draws[0], u, p);
    }
  }

  /** A change names items that were there before it. */
  lemma NamesSomethingThere(t: Taxonomy, d: Draw, id: Id)
    requires ApplyOne(t, d).Done?
    ensures SaysOf(ApplyOne(t, d).applied, id).Some? ==> exists q :: Has(t, q) && At(t, q).id == id
  {
    if SaysOf(ApplyOne(t, d).applied, id).Some? {
      assert At(t, Target(t, d.change).value).id == id;
    }
  }

  lemma MadeIsRetiree(t: Taxonomy, d: Draw, p: Pos)
    requires ApplyOne(t, d).Done?
    requires Has(ApplyOne(t, d).next, p) && !Has(t, p)
    requires p.AtValue? ==> Has(t, AtFeature(p.i))
    ensures At(ApplyOne(t, d).next, p).id in Retirees(ApplyOne(t, d).applied)
  {
    StepShape(t, d);
    if p.AtValue? {
      AddedValue(t, d, p.i, p.j);
    }
  }

  // ---------------------------------------------------------------------- words and links

  /** The same item, but for when it is retired and, for the shelves named, its order. */
  predicate SameWords(x: Item, y: Item, moved: set<Id>) {
    && x.(sortOrder := y.sortOrder, retiredIn := y.retiredIn) == y
    && (x.id !in moved ==> x.sortOrder == y.sortOrder)
  }

  /** Everything `t` says of its items, `u` says too, but for what is retired and moved shelves' order. */
  ghost predicate SameContent(t: Taxonomy, u: Taxonomy, moved: set<Id>) {
    && t.scope == u.scope
    && (forall p :: Has(t, p) ==> Has(u, p) && SameWords(At(t, p), At(u, p), moved))
    && (forall i :: 0 <= i < |t.shelves| && Has(u, AtShelf(i)) ==>
          t.shelves[i].parentId == u.shelves[i].parentId && t.shelves[i].implies == u.shelves[i].implies)
    && (forall i :: 0 <= i < |t.features| && Has(u, AtFeature(i)) ==>
          t.features[i].cardinality == u.features[i].cardinality && t.features[i].shelves == u.features[i].shelves)
  }

  lemma SameContentTrans(t: Taxonomy, u: Taxonomy, v: Taxonomy, a: set<Id>, b: set<Id>)
    requires SameContent(t, u, a) && SameContent(u, v, b)
    ensures SameContent(t, v, a + b)
  {
    forall p | Has(t, p)
      ensures Has(v, p) && SameWords(At(t, p), At(v, p), a + b)
    {
      assert SameWords(At(t, p), At(u, p), a);
      assert SameWords(At(u, p), At(v, p), b);
    }
    forall i | 0 <= i < |t.shelves| && Has(v, AtShelf(i))
      ensures t.shelves[i].parentId == v.shelves[i].parentId && t.shelves[i].implies == v.shelves[i].implies
    {
      assert Has(t, AtShelf(i)) && Has(u, AtShelf(i));
    }
    forall i | 0 <= i < |t.features| && Has(v, AtFeature(i))
      ensures t.features[i].cardinality == v.features[i].cardinality && t.features[i].shelves == v.features[i].shelves
    {
      assert Has(t, AtFeature(i)) && Has(u, AtFeature(i));
    }
  }

  /** Adding, merging, splitting, retiring and restoring change no words and no links. */
  predicate KeepsWords(c: Change) {
    !(c.Describe? || c.Rename? || c.Move? || c.Implies? || c.Scope?)
  }

  lemma ContentKeptAdding(t: Taxonomy, d: Draw)
    requires d.change.AddCategory? || d.change.AddSubcategory? || d.change.AddFunction?
    requires ApplyOne(t, d).Done?
    ensures SameContent(t, ApplyOne(t, d).next, {})
  {
  }

  lemma ContentKeptAddingFeature(t: Taxonomy, d: Draw)
    requires d.change.AddFeature? || d.change.AddValue?
    requires ApplyOne(t, d).Done?
    ensures SameContent(t, ApplyOne(t, d).next, {})
  {
  }

  lemma ContentKeptSplitting(t: Taxonomy, d: Draw)
    requires d.change.Split? && ApplyOne(t, d).Done?
    ensures SameContent(t, ApplyOne(t, d).next, {})
  {
    PushChildrenShape(t, At(t, LiveItem(t, ShelfSubject, d.change.item).value).id, d.change.children, d.ids);
  }

  lemma ContentKeptMerging(t: Taxonomy, d: Draw)
    requires d.change.Merge? && ApplyOne(t, d).Done?
    ensures SameContent(t, ApplyOne(t, d).next, {})
  {
  }

  lemma ContentKeptRetiring(t: Taxonomy, p: Pos)
    requires Has(t, p)
    ensures SameContent(t, RetireAt(t, p), {})
  {
  }

  lemma ContentKeptRestoring(t: Taxonomy, p: Pos)
    requires Has(t, p)
    ensures SameContent(t, RestoreAt(t, p), {})
  {
  }

  lemma ContentKeptMigrating(t: Taxonomy, u: Taxonomy, migrations: seq<Migration>)
    requires SameContent(t, u, {})
    ensures SameContent(t, u.(migrations := migrations), {})
  {
  }

  lemma ContentKept(t: Taxonomy, d: Draw)
    requires ApplyOne(t, d).Done? && KeepsWords(d.change)
    ensures SameContent(t, ApplyOne(t, d).next, {})
  {
    match d.change
    case Split(_, _) => ContentKeptSplitting(t, d);
    case Merge(_, _, _) => ContentKeptMerging(t, d);
    case Retire(subject, ref) =>
      var p := LiveItem(t, subject, ref).value;
      ContentKeptRetiring(t, p);
      ContentKeptMigrating(t, RetireAt(t, p), ApplyOne(t, d).next.migrations);
    case Restore(subject, ref) =>
      var p := Find(t, subject, ref).value;
      ContentKeptRestoring(t, p);
      ContentKeptMigrating(t, RestoreAt(t, p), ApplyOne(t, d).next.migrations);
    case AddFeature(_, _, _, _) => ContentKeptAddingFeature(t, d);
    case AddValue(_, _) => ContentKeptAddingFeature(t, d);
    case _ => ContentKeptAdding(t, d);
  }

  lemma {:induction false} ContentKeptAll(t: Taxonomy, draws: seq<Draw>)
    requires ApplyAll(t, draws).BatchDone?
    requires forall k :: 0 <= k < |draws| ==> KeepsWords(draws[k].change)
    ensures SameContent(t, ApplyAll(t, draws).next, {})
    decreases |draws|
  {
    if draws != [] {
      var next := ApplyOne(t, draws[0]).next;
      ContentKept(t, draws[0]);
      ContentKeptAll(next, draws[1..]);
      SameContentTrans(t, next, ApplyAll(next, draws[1..]).next, {}, {});
    }
  }

  /** `u` differs from `t` in one item, and perhaps in its migrations. */
  ghost predicate OnlyItem(t: Taxonomy, u: Taxonomy, p: Pos, item: Item) {
    && Has(t, p)
    && u == Put(t, p, item).(migrations := u.migrations)
  }

  lemma RenameIs(t: Taxonomy, d: Draw, p: Pos)
    requires d.change.Rename? && ApplyOne(t, d).Done?
    requires LiveItem(t, d.change.subject, d.change.item) == Some(p)
    ensures
      var slug := if d.change.slug.Some? then d.change.slug.value else At(t, p).slug;
      OnlyItem(t, ApplyOne(t, d).next, p, At(t, p).(name := d.change.name, slug := slug))
    ensures
      var was := if d.change.slug.Some? then Some(At(t, p).slug) else None;
      UndoOf(ApplyOne(t, d).applied)[0].change == Rename(d.change.subject, ById(At(t, p).id), At(t, p).name, was)
  {
  }

  lemma DescribeIs(t: Taxonomy, d: Draw, p: Pos)
    requires d.change.Describe? && ApplyOne(t, d).Done?
    requires LiveItem(t, d.change.subject, d.change.item) == Some(p)
    ensures OnlyItem(t, ApplyOne(t, d).next, p, At(t, p).(description := d.change.description))
    ensures UndoOf(ApplyOne(t, d).applied)[0].change ==
      Describe(d.change.subject, ById(At(t, p).id), At(t, p).description)
  {
  }

  /** One item changed, other things may have happened since, and the item was changed back. */
  lemma ItemPutBack(t: Taxonomy, next: Taxonomy, u: Taxonomy, v: Taxonomy, p: Pos, x: Item, y: Item, moved: set<Id>)
    requires OnlyItem(t, next, p, x) && SameContent(next, u, moved) && OnlyItem(u, v, p, y)
    requires SameWords(At(t, p), y, moved)
    ensures SameContent(t, v, moved)
  {
    forall q | Has(t, q)
      ensures Has(v, q) && SameWords(At(t, q), At(v, q), moved)
    {
      assert SameWords(At(next, q), At(u, q), moved);
    }
    forall i | 0 <= i < |t.shelves| && Has(v, AtShelf(i))
      ensures t.shelves[i].parentId == v.shelves[i].parentId && t.shelves[i].implies == v.shelves[i].implies
    {
      assert Has(next, AtShelf(i)) && Has(u, AtShelf(i));
    }
    forall i | 0 <= i < |t.features| && Has(v, AtFeature(i))
      ensures t.features[i].cardinality == v.features[i].cardinality && t.features[i].shelves == v.features[i].shelves
    {
      assert Has(next, AtFeature(i)) && Has(u, AtFeature(i));
    }
  }

  /** Changing by ID what a shelf implies, to given functions. */
  lemma ImpliesIs(u: Taxonomy, p: Pos, d: Draw, fns: seq<Id>)
    requires UniqueIds(u) && Has(u, p) && p.AtShelf? && d.change == Implies(ById(At(u, p).id), ByIds(fns))
    requires ApplyOne(u, d).Done?
    ensures ApplyOne(u, d).next == u.(shelves := u.shelves[p.i := u.shelves[p.i].(implies := fns)])
  {
    FindAt(u, p);
    assert LiveIds(u, FunctionSubject, ByIds(fns)).value == fns;
  }

  /** A shelf put under a parent, with another order. */
  ghost predicate MovedTo(u: Taxonomy, v: Taxonomy, i: nat, parentId: Id) {
    && i < |u.shelves| && i < |v.shelves|
    && v == u.(migrations := v.migrations,
               shelves := u.shelves[i := u.shelves[i].(item := u.shelves[i].item.(sortOrder := v.shelves[i].item.sortOrder),
                                                       parentId := Some(parentId))])
  }

  lemma MoveIs(u: Taxonomy, p: Pos, d: Draw, parentId: Id)
    requires UniqueIds(u) && Has(u, p) && p.AtShelf? && d.change == Move(ById(At(u, p).id), ById(parentId))
    requires ApplyOne(u, d).Done?
    ensures MovedTo(u, ApplyOne(u, d).next, p.i, parentId)
  {
    FindAt(u, p);
  }

  lemma MoveAndBack(t: Taxonomy, next: Taxonomy, u: Taxonomy, v: Taxonomy, i: nat, there: Id, moved: set<Id>)
    requires i < |t.shelves| && t.shelves[i].parentId.Some?
    requires MovedTo(t, next, i, there) && SameContent(next, u, moved) && MovedTo(u, v, i, t.shelves[i].parentId.value)
    ensures SameContent(t, v, moved + {t.shelves[i].item.id})
  {
    forall q | Has(t, q)
      ensures Has(v, q) && SameWords(At(t, q), At(v, q), moved + {t.shelves[i].item.id})
    {
      assert Has(next, q) && SameWords(At(next, q), At(u, q), moved);
    }
    assert Has(u, AtShelf(i)) && Has(next, AtShelf(i));
  }

  lemma UndoneDescribe(t: Taxonomy, d: Draw, u: Taxonomy, moved: set<Id>)
    requires d.change.Describe? && ApplyOne(t, d).Done? && UniqueIds(u)
    requires SameContent(ApplyOne(t, d).next, u, moved)
    requires |UndoOf(ApplyOne(t, d).applied)| == 1 && ApplyOne(u, UndoOf(ApplyOne(t, d).applied)[0]).Done?
    ensures SameContent(t, ApplyOne(u, UndoOf(ApplyOne(t, d).applied)[0]).next, moved)
  {
    var Done(next, a) := ApplyOne(t, d);
    var p := LiveItem(t, d.change.subject, d.change.item).value;
    DescribeIs(t, d, p);
    assert SameWords(At(next, p), At(u, p), moved);
    FindAt(u, p);
    var back := UndoOf(a)[0];
    DescribeIs(u, back, p);
    var v := ApplyOne(u, back).next;
    ItemPutBack(t, next, u, v, p, At(next, p), At(v, p), moved);
  }

  lemma UndoneRename(t: Taxonomy, d: Draw, u: Taxonomy, moved: set<Id>)
    requires d.change.Rename? && ApplyOne(t, d).Done? && UniqueIds(u)
    requires SameContent(ApplyOne(t, d).next, u, moved)
    requires |UndoOf(ApplyOne(t, d).applied)| == 1 && ApplyOne(u, UndoOf(ApplyOne(t, d).applied)[0]).Done?
    ensures SameContent(t, ApplyOne(u, UndoOf(ApplyOne(t, d).applied)[0]).next, moved)
  {
    var Done(next, a) := ApplyOne(t, d);
    var p := LiveItem(t, d.change.subject, d.change.item).value;
    RenameIs(t, d, p);
    assert SameWords(At(next, p), At(u, p), moved);
    FindAt(u, p);
    var back := UndoOf(a)[0];
    RenameIs(u, back, p);
    var v := ApplyOne(u, back).next;
    ItemPutBack(t, next, u, v, p, At(next, p), At(v, p), moved);
  }

  lemma UndoneImplies(t: Taxonomy, d: Draw, u: Taxonomy, moved: set<Id>)
    requires d.change.Implies? && ApplyOne(t, d).Done? && UniqueIds(u)
    requires SameContent(ApplyOne(t, d).next, u, moved)
    requires |UndoOf(ApplyOne(t, d).applied)| == 1 && ApplyOne(u, UndoOf(ApplyOne(t, d).applied)[0]).Done?
    ensures SameContent(t, ApplyOne(u, UndoOf(ApplyOne(t, d).applied)[0]).next, moved)
  {
    var Done(next, a) := ApplyOne(t, d);
    var v := ApplyOne(u, UndoOf(a)[0]).next;
    var p := LiveItem(t, ShelfSubject, d.change.item).value;
    assert Has(next, p) && At(u, p).id == At(t, p).id;
    ImpliesIs(u, p, UndoOf(a)[0], t.shelves[p.i].implies);
    forall q | Has(t, q)
      ensures Has(v, q) && SameWords(At(t, q), At(v, q), moved)
    {
      assert SameWords(At(next, q), At(u, q), moved);
    }
  }

  lemma UndoneScope(t: Taxonomy, d: Draw, u: Taxonomy, moved: set<Id>)
    requires d.change.Scope? && ApplyOne(t, d).Done? && UniqueIds(u)
    requires SameContent(ApplyOne(t, d).next, u, moved)
    requires |UndoOf(ApplyOne(t, d).applied)| == 1 && ApplyOne(u, UndoOf(ApplyOne(t, d).applied)[0]).Done?
    ensures SameContent(t, ApplyOne(u, UndoOf(ApplyOne(t, d).applied)[0]).next, moved)
  {
    var Done(next, a) := ApplyOne(t, d);
    var v := ApplyOne(u, UndoOf(a)[0]).next;
    forall q | Has(t, q)
      ensures Has(v, q) && SameWords(At(t, q), At(v, q), moved)
    {
      assert SameWords(At(next, q), At(u, q), moved);
    }
  }

  /** The shelves a change moves to another category, which get a new order there. */
  function MovedBy(a: Applied): set<Id> {
    match a.change
    case Move(ById(id), _) => {id}
    case _ => {}
  }

  lemma UndoneMove(t: Taxonomy, d: Draw, u: Taxonomy, moved: set<Id>)
    requires d.change.Move?
    requires ApplyOne(t, d).Done? && UniqueIds(u)
    requires SameContent(ApplyOne(t, d).next, u, moved)
    requires |UndoOf(ApplyOne(t, d).applied)| == 1 && ApplyOne(u, UndoOf(ApplyOne(t, d).applied)[0]).Done?
    ensures
      SameContent(t, ApplyOne(u, UndoOf(ApplyOne(t, d).applied)[0]).next, moved + MovedBy(ApplyOne(t, d).applied))
  {
    var Done(next, a) := ApplyOne(t, d);
    var v := ApplyOne(u, UndoOf(a)[0]).next;
    var p := LiveItem(t, ShelfSubject, d.change.item).value;
    assert Has(next, p) && SameWords(At(next, p), At(u, p), moved);
    MoveIs(u, p, UndoOf(a)[0], t.shelves[p.i].parentId.value);
    MoveAndBack(t, next, u, v, p.i, next.shelves[p.i].parentId.value, moved);
  }

  /** Undoing one change puts back what it replaced, on whatever has the words it left. */
  lemma UndoneContent(t: Taxonomy, d: Draw, u: Taxonomy, moved: set<Id>)
    requires ApplyOne(t, d).Done? && UniqueIds(u)
    requires SameContent(ApplyOne(t, d).next, u, moved)
    requires ApplyAll(u, UndoOf(ApplyOne(t, d).applied)).BatchDone?
    ensures
      var a := ApplyOne(t, d).applied;
      SameContent(t, ApplyAll(u, UndoOf(a)).next, moved + MovedBy(a))
  {
    var Done(next, a) := ApplyOne(t, d);
    var v := ApplyAll(u, UndoOf(a)).next;
    if KeepsWords(d.change) {
      ContentKept(t, d);
      UndoKeepsWords(t, d);
      ContentKeptAll(u, UndoOf(a));
      SameContentTrans(t, next, u, {}, moved);
      SameContentTrans(t, u, v, moved, {});
      assert moved + {} + {} == moved == {} + moved + {} == moved + MovedBy(a);
    } else {
      OneUndone(t, d);
      OneSays(u, UndoOf(a), "");
      UndoneText(t, d, u, moved);
    }
  }

  lemma UndoneText(t: Taxonomy, d: Draw, u: Taxonomy, moved: set<Id>)
    requires !KeepsWords(d.change) && ApplyOne(t, d).Done? && UniqueIds(u)
    requires SameContent(ApplyOne(t, d).next, u, moved)
    requires |UndoOf(ApplyOne(t, d).applied)| == 1 && ApplyOne(u, UndoOf(ApplyOne(t, d).applied)[0]).Done?
    ensures
      var a := ApplyOne(t, d).applied;
      SameContent(t, ApplyOne(u, UndoOf(a)[0]).next, moved + MovedBy(a))
  {
    var a := ApplyOne(t, d).applied;
    assert d.change.Move? || moved + MovedBy(a) == moved;
    match d.change
    case Move(_, _) => UndoneMove(t, d, u, moved);
    case Implies(_, _) => UndoneImplies(t, d, u, moved);
    case Scope(_) => UndoneScope(t, d, u, moved);
    case Rename(_, _, _, _) => UndoneRename(t, d, u, moved);
    case _ => UndoneDescribe(t, d, u, moved);
  }

  lemma OneUndone(t: Taxonomy, d: Draw)
    requires !KeepsWords(d.change) && ApplyOne(t, d).Done?
    ensures |UndoOf(ApplyOne(t, d).applied)| == 1
  {
  }

  lemma WrittenKeepsWords(t: Taxonomy, d: Draw)
    requires ApplyOne(t, d).Done? && KeepsWords(d.change)
    ensures KeepsWords(ApplyOne(t, d).applied.change)
  {
  }

  lemma InverseKeepsWords(a: Applied)
    requires KeepsWords(a.change)
    ensures forall k :: 0 <= k < |InverseOf(a)| ==> KeepsWords(InverseOf(a)[k])
    ensures MovedBy(a) == {}
  {
  }

  lemma UndoKeepsWords(t: Taxonomy, d: Draw)
    requires ApplyOne(t, d).Done? && KeepsWords(d.change)
    ensures forall k :: 0 <= k < |UndoOf(ApplyOne(t, d).applied)| ==>
      KeepsWords(UndoOf(ApplyOne(t, d).applied)[k].change)
    ensures MovedBy(ApplyOne(t, d).applied) == {}
  {
    WrittenKeepsWords(t, d);
    InverseKeepsWords(ApplyOne(t, d).applied);
  }

  function MovedIn(applied: seq<Applied>): set<Id> {
    if applied == [] then {} else MovedIn(applied[1..]) + MovedBy(applied[0])
  }

  lemma {:induction false} UndoneContentAll(t: Taxonomy, draws: seq<Draw>, u: Taxonomy)
    requires ApplyAll(t, draws).BatchDone?
    requires SameContent(ApplyAll(t, draws).next, u, {})
    requires ApplyAll(u, Undo(ApplyAll(t, draws).applied)).BatchDone?
    requires UniqueIds(ApplyAll(u, Undo(ApplyAll(t, draws).applied)).next)
    ensures
      var applied := ApplyAll(t, draws).applied;
      SameContent(t, ApplyAll(u, Undo(applied)).next, MovedIn(applied))
    decreases |draws|
  {
    if draws != [] {
      var applied := ApplyAll(t, draws).applied;
      var next := ApplyOne(t, draws[0]).next;
      var rest := ApplyAll(next, draws[1..]).applied;
      assert applied[1..] == rest;
      UndoSplits(applied);
      ApplyAllConcat(u, Undo(rest), UndoOf(applied[0]));
      var v := ApplyAll(u, Undo(rest)).next;
      EmbedsAll(v, UndoOf(applied[0]));
      EmbedsKeepsUnique(v, ApplyAll(v, UndoOf(applied[0])).next);
      UndoneContentAll(next, draws[1..], u);
      UndoneContent(t, draws[0], v, MovedIn(rest));
    }
  }
}
