/**
 What one change does to a taxonomy, whatever its kind: where items are, when they were retired, and
 what the migrations say. Every argument about batches and runs rests on these three views.
 */
module TaxonomySteps {
  import opened Basics
  import opened Taxonomies
  import opened TaxonomyChanges

  function Stamp(t: Taxonomy, p: Pos): Option<nat>
    requires Has(t, p)
  {
    At(t, p).retiredIn
  }

  /** Every place of `t` is a place of `u`, and holds the same item. */
  ghost predicate Embeds(t: Taxonomy, u: Taxonomy) {
    forall p :: Has(t, p) ==> Has(u, p) && At(u, p).id == At(t, p).id
  }

  /** The item whose retirement a change is about. */
  function Target(t: Taxonomy, c: Change): (target: Option<Pos>)
    ensures target.Some? ==> Has(t, target.value)
  {
    match c
    case Merge(subject, from, _) => LiveItem(t, subject, from)
    case Retire(subject, item) => LiveItem(t, subject, item)
    case Restore(subject, item) => Find(t, subject, item)
    case _ => None
  }

  /** When an item of `t` is retired, once a change has been applied. */
  function NewStamp(t: Taxonomy, c: Change, q: Pos): Option<nat>
    requires Has(t, q)
  {
    match Target(t, c)
    case None => Stamp(t, q)
    case Some(p) =>
      if q == p then (if c.Restore? then None else Some(t.version))
      else if p.AtFeature? && q.AtValue? && q.i == p.i then
        if c.Restore? then (if Stamp(t, q) == Stamp(t, p) then None else Stamp(t, q))
        else (if Stamp(t, q) == None then Some(t.version) else Stamp(t, q))
      else Stamp(t, q)
  }

  /** What an applied change says of an item: that it is retired, that it is live, or nothing. */
  function SaysOf(a: Applied, id: Id): Option<bool> {
    match a.change
    case Merge(_, from, _) => if from == ById(id) then Some(true) else None
    case Retire(_, item) => if item == ById(id) then Some(true) else None
    case Restore(_, item) => if item == ById(id) then Some(false) else None
    case _ => None
  }

  lemma {:induction false} PushChildrenShape(t: Taxonomy, parentId: Id, children: seq<NewShelf>, ids: seq<Id>)
    requires |children| == |ids|
    requires PushChildren(t, parentId, children, ids).Some?
    ensures
      var u := PushChildren(t, parentId, children, ids).value.0;
      && u == t.(shelves := u.shelves)
      && |u.shelves| == |t.shelves| + |children|
      && t.shelves == u.shelves[..|t.shelves|]
      && (forall k :: |t.shelves| <= k < |u.shelves| ==>
            && Live(u.shelves[k].item)
            && u.shelves[k].parentId == Some(parentId)
            && u.shelves[k].item.id == ids[k - |t.shelves|])
    decreases |children|
  {
    if children != [] {
      var fns := LiveIds(t, FunctionSubject, children[0].implies).value;
      var pushed := PushShelf(t, children[0].fields, Some(parentId), fns, ids[0]);
      PushChildrenShape(pushed, parentId, children[1..], ids[1..]);
    }
  }

  /** A change keeps every place, and a new place holds a live item with a made ID. */
  ghost predicate PlacesKept(t: Taxonomy, d: Draw, u: Taxonomy) {
    && u.version == t.version
    && Embeds(t, u)
    && (forall p :: Has(u, p) && !Has(t, p) ==> Live(At(u, p)) && At(u, p).id in d.ids)
  }

  /** A change retires and restores exactly what `NewStamp` says. */
  ghost predicate StampsMoved(t: Taxonomy, c: Change, u: Taxonomy) {
    forall q :: Has(t, q) ==> Has(u, q) && Stamp(u, q) == NewStamp(t, c, q)
  }

  /** A change adds at most one migration, of this version, which says what the change says. */
  ghost predicate SaidOnce(t: Taxonomy, u: Taxonomy, a: Applied) {
    || (u.migrations == t.migrations && forall id :: SaysOf(a, id) == None)
    || exists m :: SaidBy(t, u, a, m)
  }

  ghost predicate SaidBy(t: Taxonomy, u: Taxonomy, a: Applied, m: Migration) {
    && u.migrations == t.migrations + [m]
    && m.version == t.version
    && forall id :: SaysOf(a, id) == if m.from == id then Says(m) else None
  }

  lemma AddShelfShape(t: Taxonomy, d: Draw)
    requires d.change.AddCategory? || d.change.AddSubcategory? || d.change.AddFunction?
    requires ApplyOne(t, d).Done?
    ensures PlacesKept(t, d, ApplyOne(t, d).next)
    ensures StampsMoved(t, d.change, ApplyOne(t, d).next)
    ensures SaidOnce(t, ApplyOne(t, d).next, ApplyOne(t, d).applied)
  {
  }

  lemma AddFeatureShape(t: Taxonomy, d: Draw)
    requires d.change.AddFeature? && ApplyOne(t, d).Done?
    ensures PlacesKept(t, d, ApplyOne(t, d).next)
    ensures StampsMoved(t, d.change, ApplyOne(t, d).next)
    ensures SaidOnce(t, ApplyOne(t, d).next, ApplyOne(t, d).applied)
  {
  }

  lemma AddValueShape(t: Taxonomy, d: Draw)
    requires d.change.AddValue? && ApplyOne(t, d).Done?
    ensures PlacesKept(t, d, ApplyOne(t, d).next)
    ensures StampsMoved(t, d.change, ApplyOne(t, d).next)
    ensures SaidOnce(t, ApplyOne(t, d).next, ApplyOne(t, d).applied)
  {
  }

  lemma SplitShape(t: Taxonomy, d: Draw)
    requires d.change.Split? && ApplyOne(t, d).Done?
    ensures PlacesKept(t, d, ApplyOne(t, d).next)
    ensures StampsMoved(t, d.change, ApplyOne(t, d).next)
    ensures SaidOnce(t, ApplyOne(t, d).next, ApplyOne(t, d).applied)
  {
    var id := At(t, LiveItem(t, ShelfSubject, d.change.item).value).id;
    PushChildrenShape(t, id, d.change.children, d.ids);
    assert SaidBy(t, ApplyOne(t, d).next, ApplyOne(t, d).applied,
                  Migration(t.version, SplitUp, ShelfSubject, id, ToMany(d.ids)));
  }

  lemma TextShape(t: Taxonomy, d: Draw)
    requires d.change.Describe? || d.change.Rename? || d.change.Implies? || d.change.Scope?
    requires ApplyOne(t, d).Done?
    ensures PlacesKept(t, d, ApplyOne(t, d).next)
    ensures StampsMoved(t, d.change, ApplyOne(t, d).next)
    ensures SaidOnce(t, ApplyOne(t, d).next, ApplyOne(t, d).applied)
  {
    if d.change.Rename? {
      RenameShape(t, d);
    }
  }

  lemma RenameShape(t: Taxonomy, d: Draw)
    requires d.change.Rename? && ApplyOne(t, d).Done?
    ensures PlacesKept(t, d, ApplyOne(t, d).next)
    ensures StampsMoved(t, d.change, ApplyOne(t, d).next)
    ensures SaidOnce(t, ApplyOne(t, d).next, ApplyOne(t, d).applied)
  {
    var id := At(t, LiveItem(t, d.change.subject, d.change.item).value).id;
    assert SaidBy(t, ApplyOne(t, d).next, ApplyOne(t, d).applied,
                  Migration(t.version, Renamed, d.change.subject, id, ToOne(id)));
  }

  lemma MoveShape(t: Taxonomy, d: Draw)
    requires d.change.Move? && ApplyOne(t, d).Done?
    ensures PlacesKept(t, d, ApplyOne(t, d).next)
    ensures StampsMoved(t, d.change, ApplyOne(t, d).next)
    ensures SaidOnce(t, ApplyOne(t, d).next, ApplyOne(t, d).applied)
  {
    var id := At(t, LiveItem(t, ShelfSubject, d.change.item).value).id;
    assert SaidBy(t, ApplyOne(t, d).next, ApplyOne(t, d).applied,
                  Migration(t.version, Moved, ShelfSubject, id, ToOne(id)));
  }

  lemma RetireAtShape(t: Taxonomy, p: Pos, d: Draw)
    requires d.change.Retire? && Target(t, d.change) == Some(p) && Live(At(t, p))
    ensures RetireAt(t, p).migrations == t.migrations
    ensures PlacesKept(t, d, RetireAt(t, p))
    ensures StampsMoved(t, d.change, RetireAt(t, p))
  {
  }

  lemma RestoreAtShape(t: Taxonomy, p: Pos, d: Draw)
    requires d.change.Restore? && Target(t, d.change) == Some(p)
    ensures RestoreAt(t, p).migrations == t.migrations
    ensures PlacesKept(t, d, RestoreAt(t, p))
    ensures StampsMoved(t, d.change, RestoreAt(t, p))
  {
  }

  lemma MigrateShape(t: Taxonomy, d: Draw, v: Taxonomy, m: Migration)
    requires PlacesKept(t, d, v) && StampsMoved(t, d.change, v)
    ensures PlacesKept(t, d, v.(migrations := v.migrations + [m]))
    ensures StampsMoved(t, d.change, v.(migrations := v.migrations + [m]))
  {
  }

  lemma MergedShape(t: Taxonomy, p: Pos, d: Draw)
    requires d.change.Merge? && Target(t, d.change) == Some(p)
    ensures PlacesKept(t, d, Put(t, p, At(t, p).(retiredIn := Some(t.version))))
    ensures StampsMoved(t, d.change, Put(t, p, At(t, p).(retiredIn := Some(t.version))))
  {
  }

  lemma MergeShape(t: Taxonomy, d: Draw)
    requires d.change.Merge? && ApplyOne(t, d).Done?
    ensures PlacesKept(t, d, ApplyOne(t, d).next)
    ensures StampsMoved(t, d.change, ApplyOne(t, d).next)
    ensures SaidOnce(t, ApplyOne(t, d).next, ApplyOne(t, d).applied)
  {
    var subject := d.change.mergeable;
    var p := LiveItem(t, subject, d.change.from).value;
    var from := At(t, p).id;
    var into := At(t, LiveItem(t, subject, d.change.into).value).id;
    MergedShape(t, p, d);
    MigrateShape(t, d, Put(t, p, At(t, p).(retiredIn := Some(t.version))), Migration(t.version, Merged, subject, from, ToOne(into)));
    assert SaidBy(t, ApplyOne(t, d).next, ApplyOne(t, d).applied,
                  Migration(t.version, Merged, subject, from, ToOne(into)));
  }

  lemma RetireShape(t: Taxonomy, d: Draw)
    requires d.change.Retire? && ApplyOne(t, d).Done?
    ensures PlacesKept(t, d, ApplyOne(t, d).next)
    ensures StampsMoved(t, d.change, ApplyOne(t, d).next)
    ensures SaidOnce(t, ApplyOne(t, d).next, ApplyOne(t, d).applied)
  {
    var p := LiveItem(t, d.change.subject, d.change.item).value;
    var id := At(t, p).id;
    RetireAtShape(t, p, d);
    MigrateShape(t, d, RetireAt(t, p), Migration(t.version, Retired, d.change.subject, id, ToNothing));
    assert SaidBy(t, ApplyOne(t, d).next, ApplyOne(t, d).applied,
                  Migration(t.version, Retired, d.change.subject, id, ToNothing));
  }

  lemma RestoreShape(t: Taxonomy, d: Draw)
    requires d.change.Restore? && ApplyOne(t, d).Done?
    ensures PlacesKept(t, d, ApplyOne(t, d).next)
    ensures StampsMoved(t, d.change, ApplyOne(t, d).next)
    ensures SaidOnce(t, ApplyOne(t, d).next, ApplyOne(t, d).applied)
  {
    var p := Find(t, d.change.subject, d.change.item).value;
    var id := At(t, p).id;
    RestoreAtShape(t, p, d);
    MigrateShape(t, d, RestoreAt(t, p), Migration(t.version, Restored, d.change.subject, id, ToOne(id)));
    assert SaidBy(t, ApplyOne(t, d).next, ApplyOne(t, d).applied,
                  Migration(t.version, Restored, d.change.subject, id, ToOne(id)));
  }

  /** The three views of one change, whatever its kind. */
  lemma StepShape(t: Taxonomy, d: Draw)
    requires ApplyOne(t, d).Done?
    ensures PlacesKept(t, d, ApplyOne(t, d).next)
    ensures StampsMoved(t, d.change, ApplyOne(t, d).next)
    ensures SaidOnce(t, ApplyOne(t, d).next, ApplyOne(t, d).applied)
  {
    match d.change
    case Describe(_, _, _) => TextShape(t, d);
    case Rename(_, _, _, _) => TextShape(t, d);
    case Implies(_, _) => TextShape(t, d);
    case Scope(_) => TextShape(t, d);
    case Move(_, _) => MoveShape(t, d);
    case Merge(_, _, _) => MergeShape(t, d);
    case Split(_, _) => SplitShape(t, d);
    case Retire(_, _) => RetireShape(t, d);
    case Restore(_, _) => RestoreShape(t, d);
    case AddFeature(_, _, _, _) => AddFeatureShape(t, d);
    case AddValue(_, _) => AddValueShape(t, d);
    case _ => AddShelfShape(t, d);
  }

  lemma StepSaid(t: Taxonomy, u: Taxonomy, a: Applied, id: Id)
    requires SaidOnce(t, u, a)
    ensures LastSaid(u.migrations, id) ==
            if SaysOf(a, id).Some? then SaysOf(a, id) else LastSaid(t.migrations, id)
  {
    if u.migrations != t.migrations {
      var m :| SaidBy(t, u, a, m);
      assert u.migrations[..|u.migrations| - 1] == t.migrations;
    }
  }

  lemma FindNewVersion(t: Taxonomy)
    ensures forall subject, ref :: Find(NewVersion(t), subject, ref) == Find(t, subject, ref)
    ensures forall subject, ref :: LiveItem(NewVersion(t), subject, ref) == LiveItem(t, subject, ref)
  {
  }

  /** A batch of one change. */
  lemma SingleBatch(t: Taxonomy, d: Draw)
    requires ApplyChanges(t, [d]).BatchDone?
    ensures ApplyOne(NewVersion(t), d).Done?
    ensures ApplyChanges(t, [d]) == BatchDone(ApplyOne(NewVersion(t), d).next, [ApplyOne(NewVersion(t), d).applied])
  {
    var Done(u, a) := ApplyOne(NewVersion(t), d);
    assert [d][1..] == [];
    assert ApplyAll(u, []) == BatchDone(u, []);
    assert ApplyAll(NewVersion(t), [d]) == BatchDone(u, [a]);
  }
}
