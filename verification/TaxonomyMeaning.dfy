/**
 What a change means, stated apart from how it is applied: when it is refused, the migration it records and
 what is written down of it, beside what it does to what was there and what it adds (`applyOne`, platform/core/src/taxonomy-changes.ts:184-498).
 */
module TaxonomyMeaning {
  import opened Basics
  import opened Taxonomies
  import opened TaxonomyChanges
  import opened TaxonomySteps
  import opened TaxonomyAdditions
  import opened TaxonomyEffects

  // ---------------------------------------------------------------------- when a change is refused

  predicate IsLive(t: Taxonomy, subject: Subject, ref: Ref) {
    LiveItem(t, subject, ref).Some?
  }

  predicate AllLive(t: Taxonomy, subject: Subject, refs: seq<Ref>) {
    forall k :: 0 <= k < |refs| ==> IsLive(t, subject, refs[k])
  }

  /** A live category, with live subcategories or without. */
  predicate IsCategory(t: Taxonomy, ref: Ref, divided: bool) {
    match LiveItem(t, ShelfSubject, ref)
    case Some(AtShelf(i)) => t.shelves[i].parentId == None && HasSubcategories(t, t.shelves[i].item.id) == divided
    case _ => false
  }

  predicate NoneLive(values: seq<Item>) {
    forall k :: 0 <= k < |values| ==> !Live(values[k])
  }

  predicate OnlyLive(values: seq<Item>, j: nat) {
    j < |values| && Live(values[j]) && NoneLive(values[..j]) && NoneLive(values[j + 1..])
  }

  /** Whether exactly one of some values is live. */
  ghost predicate OneLive(values: seq<Item>) {
    exists j: nat :: OnlyLive(values, j)
  }

  /** A live shelf under a category, and another live category. */
  ghost predicate MayMove(t: Taxonomy, item: Ref, parent: Ref) {
    exists i: nat, j: nat ::
      && LiveItem(t, ShelfSubject, item) == Some(AtShelf(i)) && LiveItem(t, ShelfSubject, parent) == Some(AtShelf(j))
      && t.shelves[i].parentId.Some? && t.shelves[j].parentId == None
      && t.shelves[i].parentId != Some(t.shelves[j].item.id)
  }

  /** Two live items, not the same: of shelves, the one that goes holds no subcategories; of functions, no shelf
      implies the one that goes; of values, both are one feature's. */
  ghost predicate MayMerge(t: Taxonomy, subject: Mergeable, from: Ref, into: Ref) {
    exists p, q ::
      && LiveItem(t, subject, from) == Some(p) && LiveItem(t, subject, into) == Some(q)
      && At(t, p).id != At(t, q).id
      && match subject
         case ShelfSubject => !HasSubcategories(t, At(t, p).id)
         case FunctionSubject => !Implied(t, At(t, p).id)
         case ValueSubject => SameFeature(t, At(t, p).id, At(t, q).id)
         case _ => true
  }

  /** A live item: a shelf that holds no subcategories, a function no shelf implies, a value not its feature's last. */
  ghost predicate MayGo(t: Taxonomy, subject: Subject, ref: Ref) {
    exists p ::
      && LiveItem(t, subject, ref) == Some(p)
      && match subject
         case ShelfSubject => !HasSubcategories(t, At(t, p).id)
         case FunctionSubject => !Implied(t, At(t, p).id)
         case FeatureSubject => true
         case ValueSubject =>
           match FeatureOfValue(t, At(t, p).id) case None => true case Some(i) => !OneLive(t.features[i].values)
  }

  /** A retired item whose category, or feature, is live. */
  ghost predicate MayReturn(t: Taxonomy, subject: Subject, ref: Ref) {
    exists p ::
      && Find(t, subject, ref) == Some(p) && !Live(At(t, p))
      && match p
         case AtShelf(i) => t.shelves[i].parentId.Some? ==> IsLive(t, ShelfSubject, ById(t.shelves[i].parentId.value))
         case AtValue(_, _) =>
           FeatureOfValue(t, At(t, p).id).Some? && Live(t.features[FeatureOfValue(t, At(t, p).id).value].item)
         case _ => true
  }

  ghost predicate Allowed(t: Taxonomy, c: Change) {
    match c
    case AddCategory(shelf) => AllLive(t, FunctionSubject, shelf.implies)
    case AddSubcategory(parent, shelf) => IsCategory(t, parent, true) && AllLive(t, FunctionSubject, shelf.implies)
    case AddFunction(_) => true
    case AddFeature(_, _, shelves, _) => AllLive(t, ShelfSubject, shelves)
    case AddValue(feature, _) => IsLive(t, FeatureSubject, feature)
    case Describe(subject, item, _) => IsLive(t, subject, item)
    case Rename(subject, item, _, _) => IsLive(t, subject, item)
    case Implies(item, fns) => IsLive(t, ShelfSubject, item) && AllLive(t, FunctionSubject, fns)
    case Scope(_) => true
    case Move(item, parent) => MayMove(t, item, parent)
    case Merge(subject, from, into) => MayMerge(t, subject, from, into)
    case Split(item, children) =>
      && IsCategory(t, item, false)
      && forall k :: 0 <= k < |children| ==> AllLive(t, FunctionSubject, children[k].implies)
    case Retire(subject, item) => MayGo(t, subject, item)
    case Restore(subject, item) => MayReturn(t, subject, item)
  }

  lemma {:induction false} LiveIdsWhen(t: Taxonomy, subject: Subject, refs: seq<Ref>)
    ensures LiveIds(t, subject, refs).Some? <==> AllLive(t, subject, refs)
  {
    if refs != [] {
      LiveIdsWhen(t, subject, refs[1..]);
      assert AllLive(t, subject, refs) <==> IsLive(t, subject, refs[0]) && AllLive(t, subject, refs[1..]) by {
        assert forall k :: 0 < k < |refs| ==> refs[k] == refs[1..][k - 1];
      }
    }
  }

  lemma NoneLiveAnd(values: seq<Item>, last: Item)
    ensures NoneLive(values + [last]) <==> NoneLive(values) && !Live(last)
  {
    assert forall k :: 0 <= k < |values| ==> (values + [last])[k] == values[k];
    assert (values + [last])[|values|] == last;
  }

  lemma OnlyLiveLast(values: seq<Item>, j: nat)
    requires values != []
    ensures
      var n := |values| - 1;
      OnlyLive(values, j) <==> if j < n then OnlyLive(values[..n], j) && !Live(values[n]) else j == n && Live(values[n]) && NoneLive(values[..n])
  {
    var n := |values| - 1;
    if j < n {
      assert values[..n][..j] == values[..j];
      NoneLiveAnd(values[..n][j + 1..], values[n]);
      assert values[j + 1..] == values[..n][j + 1..] + [values[n]];
    }
  }

  lemma {:induction false} OneLiveWhen(values: seq<Item>)
    ensures LiveValues(values) == 1 <==> OneLive(values)
  {
    if values != [] {
      var front, n := values[..|values| - 1], |values| - 1;
      OneLiveWhen(front);
      if OneLive(front) && !Live(values[n]) {
        var j: nat :| OnlyLive(front, j);
        OnlyLiveLast(values, j);
        assert OnlyLive(values, j);
      }
      if j: nat :| OnlyLive(values, j) {
        OnlyLiveLast(values, j);
      }
      OnlyLiveLast(values, n);
    }
  }

  /** Pushing shelves changes no function. */
  lemma FunctionsKept(t: Taxonomy, shelves: seq<Shelf>, refs: seq<Ref>)
    ensures LiveIds(t.(shelves := shelves), FunctionSubject, refs) == LiveIds(t, FunctionSubject, refs)
    decreases |refs|
  {
    if refs != [] {
      FunctionsKept(t, shelves, refs[1..]);
    }
  }

  lemma {:induction false} ChildrenWhen(t: Taxonomy, parentId: Id, children: seq<NewShelf>, ids: seq<Id>)
    requires |children| == |ids|
    ensures PushChildren(t, parentId, children, ids).Some? <==>
      forall k :: 0 <= k < |children| ==> AllLive(t, FunctionSubject, children[k].implies)
    decreases |children|
  {
    if children != [] {
      LiveIdsWhen(t, FunctionSubject, children[0].implies);
      if LiveIds(t, FunctionSubject, children[0].implies).Some? {
        var fns := LiveIds(t, FunctionSubject, children[0].implies).value;
        var pushed := PushShelf(t, children[0].fields, Some(parentId), fns, ids[0]);
        ChildrenWhen(pushed, parentId, children[1..], ids[1..]);
        forall k | 0 < k < |children|
          ensures AllLive(pushed, FunctionSubject, children[1..][k - 1].implies)
             <==> AllLive(t, FunctionSubject, children[k].implies)
        {
          FunctionsKept(t, pushed.shelves, children[k].implies);
          LiveIdsWhen(t, FunctionSubject, children[k].implies);
          LiveIdsWhen(pushed, FunctionSubject, children[k].implies);
        }
      }
    }
  }

  lemma AddAllowed(t: Taxonomy, d: Draw)
    requires d.change.AddCategory? || d.change.AddSubcategory? || d.change.AddFunction?
          || d.change.AddFeature? || d.change.AddValue?
    ensures ApplyOne(t, d).Done? <==> Allowed(t, d.change)
  {
    match d.change
    case AddCategory(shelf) => LiveIdsWhen(t, FunctionSubject, shelf.implies);
    case AddSubcategory(_, shelf) => LiveIdsWhen(t, FunctionSubject, shelf.implies);
    case AddFeature(_, _, shelves, _) => LiveIdsWhen(t, ShelfSubject, shelves);
    case _ =>
  }

  lemma RetireAllowed(t: Taxonomy, d: Draw)
    requires d.change.Retire?
    ensures ApplyOne(t, d).Done? <==> Allowed(t, d.change)
  {
    var found := LiveItem(t, d.change.subject, d.change.item);
    if found.Some? && found.value.AtValue? {
      var i := FeatureOfValue(t, At(t, found.value).id);
      if i.Some? {
        OneLiveWhen(t.features[i.value].values);
      }
    }
  }

  lemma MergeAllowed(t: Taxonomy, d: Draw)
    requires d.change.Merge?
    ensures ApplyOne(t, d).Done? <==> Allowed(t, d.change)
  {
  }

  lemma SplitAllowed(t: Taxonomy, d: Draw)
    requires d.change.Split?
    ensures ApplyOne(t, d).Done? <==> Allowed(t, d.change)
  {
    var found := LiveItem(t, ShelfSubject, d.change.item);
    if found.Some? {
      ChildrenWhen(t, At(t, found.value).id, d.change.children, d.ids);
    }
  }

  /** A change is refused exactly when what it names doesn't allow it. */
  lemma AllowedWhen(t: Taxonomy, d: Draw)
    ensures ApplyOne(t, d).Done? <==> Allowed(t, d.change)
  {
    match d.change
    case Describe(_, _, _) =>
    case Rename(_, _, _, _) =>
    case Implies(_, fns) => LiveIdsWhen(t, FunctionSubject, fns);
    case Scope(_) =>
    case Move(_, _) =>
    case Restore(_, _) =>
    case Merge(_, _, _) => MergeAllowed(t, d);
    case Split(_, _) => SplitAllowed(t, d);
    case Retire(_, _) => RetireAllowed(t, d);
    case _ => AddAllowed(t, d);
  }

  // ---------------------------------------------------------------------- what is written down

  /** The migration a change records: none for what adds, describes, implies or sets the scope. */
  function Records(t: Taxonomy, d: Draw): seq<Migration> {
    match d.change
    case Rename(subject, item, _, _) => OfItem(t, Renamed, subject, NamedId(t, subject, item))
    case Move(item, _) => OfItem(t, Moved, ShelfSubject, NamedId(t, ShelfSubject, item))
    case Restore(subject, item) => OfItem(t, Restored, subject, FoundId(t, subject, item))
    case Merge(subject, from, into) =>
      (match (NamedId(t, subject, from), NamedId(t, subject, into))
       case (Some(id), Some(to)) => [Migration(t.version, Merged, subject, id, ToOne(to))]
       case _ => [])
    case Split(item, _) =>
      (match NamedId(t, ShelfSubject, item)
       case Some(id) => [Migration(t.version, SplitUp, ShelfSubject, id, ToMany(d.ids))]
       case None => [])
    case Retire(subject, item) =>
      (match NamedId(t, subject, item)
       case Some(id) => [Migration(t.version, Retired, subject, id, ToNothing)]
       case None => [])
    case _ => []
  }

  function FoundId(t: Taxonomy, subject: Subject, ref: Ref): Option<Id> {
    match Find(t, subject, ref) case None => None case Some(p) => Some(At(t, p).id)
  }

  /** A migration of an item to itself. */
  function OfItem(t: Taxonomy, kind: MigrationKind, subject: Subject, id: Option<Id>): seq<Migration> {
    match id case None => [] case Some(id) => [Migration(t.version, kind, subject, id, ToOne(id))]
  }

  /** A reference by ID to the item another names. */
  predicate ByIdOf(t: Taxonomy, subject: Subject, ref: Ref, byId: Ref) {
    NamedId(t, subject, ref).Some? && byId == ById(NamedId(t, subject, ref).value)
  }

  ghost predicate AllByIdOf(t: Taxonomy, subject: Subject, refs: seq<Ref>, byIds: seq<Ref>) {
    |byIds| == |refs| && forall k :: 0 <= k < |refs| ==> ByIdOf(t, subject, refs[k], byIds[k])
  }

  ghost predicate ShelfByIds(t: Taxonomy, shelf: NewShelf, written: NewShelf) {
    written.fields == shelf.fields && AllByIdOf(t, FunctionSubject, shelf.implies, written.implies)
  }

  /** A change written down: itself, with every item it names by ID. */
  ghost predicate Written(t: Taxonomy, c: Change, w: Change) {
    match (c, w)
    case (AddCategory(shelf), AddCategory(written)) => ShelfByIds(t, shelf, written)
    case (AddSubcategory(parent, shelf), AddSubcategory(byId, written)) =>
      ByIdOf(t, ShelfSubject, parent, byId) && ShelfByIds(t, shelf, written)
    case (AddFunction(fields), AddFunction(written)) => written == fields
    case (AddFeature(fields, takes, shelves, values), AddFeature(f, c, byIds, v)) =>
      f == fields && c == takes && v == values && AllByIdOf(t, ShelfSubject, shelves, byIds)
    case (AddValue(feature, fields), AddValue(byId, written)) => ByIdOf(t, FeatureSubject, feature, byId) && written == fields
    case (Describe(subject, item, text), Describe(s, byId, d)) => s == subject && d == text && ByIdOf(t, subject, item, byId)
    case (Rename(subject, item, name, slug), Rename(s, byId, n, g)) =>
      s == subject && n == name && g == slug && ByIdOf(t, subject, item, byId)
    case (Move(item, parent), Move(byId, under)) => ByIdOf(t, ShelfSubject, item, byId) && ByIdOf(t, ShelfSubject, parent, under)
    case (Merge(subject, from, into), Merge(s, byId, to)) =>
      s == subject && ByIdOf(t, subject, from, byId) && ByIdOf(t, subject, into, to)
    case (Split(item, children), Split(byId, written)) =>
      && ByIdOf(t, ShelfSubject, item, byId) && |written| == |children|
      && forall k :: 0 <= k < |children| ==> ShelfByIds(t, children[k], written[k])
    case (Retire(subject, item), Retire(s, byId)) => s == subject && ByIdOf(t, subject, item, byId)
    case (Implies(item, fns), Implies(byId, byIds)) =>
      ByIdOf(t, ShelfSubject, item, byId) && AllByIdOf(t, FunctionSubject, fns, byIds)
    case (Scope(scope), Scope(written)) => written == scope
    case (Restore(subject, item), Restore(s, byId)) =>
      s == subject && FoundId(t, subject, item).Some? && byId == ById(FoundId(t, subject, item).value)
    case _ => false
  }

  lemma NamedByIds(t: Taxonomy, subject: Subject, refs: seq<Ref>)
    requires LiveIds(t, subject, refs).Some?
    ensures AllByIdOf(t, subject, refs, ByIds(LiveIds(t, subject, refs).value))
  {
  }

  lemma {:induction false} ChildrenWritten(t: Taxonomy, parentId: Id, children: seq<NewShelf>, ids: seq<Id>)
    requires |children| == |ids| && PushChildren(t, parentId, children, ids).Some?
    ensures
      var written := PushChildren(t, parentId, children, ids).value.1;
      |written| == |children| && forall k :: 0 <= k < |children| ==> ShelfByIds(t, children[k], written[k])
    decreases |children|
  {
    if children != [] {
      var fns := LiveIds(t, FunctionSubject, children[0].implies).value;
      var pushed := PushShelf(t, children[0].fields, Some(parentId), fns, ids[0]);
      ChildrenWritten(pushed, parentId, children[1..], ids[1..]);
      NamedByIds(t, FunctionSubject, children[0].implies);
      var rest := PushChildren(pushed, parentId, children[1..], ids[1..]).value.1;
      forall k | 0 < k < |children|
        ensures ShelfByIds(t, children[k], rest[k - 1])
      {
        assert ShelfByIds(pushed, children[1..][k - 1], rest[k - 1]);
        SameByIds(t, pushed, children[k], rest[k - 1]);
      }
    }
  }

  lemma SameByIds(t: Taxonomy, u: Taxonomy, shelf: NewShelf, written: NewShelf)
    requires u == t.(shelves := u.shelves) && ShelfByIds(u, shelf, written)
    ensures ShelfByIds(t, shelf, written)
  {
    forall k | 0 <= k < |shelf.implies|
      ensures ByIdOf(t, FunctionSubject, shelf.implies[k], written.implies[k])
    {
      assert ByIdOf(u, FunctionSubject, shelf.implies[k], written.implies[k]);
    }
  }

  /** What a change is written down as, with the IDs it made and the migration it records. */
  ghost predicate WrittenDown(t: Taxonomy, d: Draw, u: Taxonomy, a: Applied) {
    && a.created == d.ids && Written(t, d.change, a.change)
    && u.version == t.version && u.migrations == t.migrations + Records(t, d)
  }

  lemma AddsWritten(t: Taxonomy, d: Draw)
    requires d.change.AddCategory? || d.change.AddSubcategory? || d.change.AddFunction?
          || d.change.AddFeature? || d.change.AddValue?
    requires ApplyOne(t, d).Done?
    ensures WrittenDown(t, d, ApplyOne(t, d).next, ApplyOne(t, d).applied)
  {
    match d.change
    case AddCategory(shelf) => NamedByIds(t, FunctionSubject, shelf.implies);
    case AddSubcategory(_, shelf) => NamedByIds(t, FunctionSubject, shelf.implies);
    case AddFeature(_, _, shelves, _) => NamedByIds(t, ShelfSubject, shelves);
    case _ =>
  }

  lemma TextWritten(t: Taxonomy, d: Draw)
    requires d.change.Describe? || d.change.Rename? || d.change.Implies? || d.change.Scope?
    requires ApplyOne(t, d).Done?
    ensures WrittenDown(t, d, ApplyOne(t, d).next, ApplyOne(t, d).applied)
  {
    if d.change.Implies? {
      NamedByIds(t, FunctionSubject, d.change.implies);
    }
  }

  lemma SplitWritten(t: Taxonomy, d: Draw)
    requires d.change.Split? && ApplyOne(t, d).Done?
    ensures WrittenDown(t, d, ApplyOne(t, d).next, ApplyOne(t, d).applied)
  {
    var id := At(t, LiveItem(t, ShelfSubject, d.change.item).value).id;
    ChildrenWritten(t, id, d.change.children, d.ids);
    PushChildrenShape(t, id, d.change.children, d.ids);
  }

  lemma ChangeWritten(t: Taxonomy, d: Draw)
    requires ApplyOne(t, d).Done?
    ensures WrittenDown(t, d, ApplyOne(t, d).next, ApplyOne(t, d).applied)
  {
    match d.change
    case Describe(_, _, _) => TextWritten(t, d);
    case Rename(_, _, _, _) => TextWritten(t, d);
    case Implies(_, _) => TextWritten(t, d);
    case Scope(_) => TextWritten(t, d);
    case Split(_, _) => SplitWritten(t, d);
    case Move(_, _) =>
    case Merge(_, _, _) =>
    case Retire(_, _) =>
    case Restore(_, _) =>
    case _ => AddsWritten(t, d);
  }

  /**
   * A change is refused exactly when what it names doesn't allow it. Applied, it leaves what was there as
   * the table of effects says, adds what it says after that and nothing else, records the one migration of
   * its kind, and is written down with every item it names by ID.
   */
  lemma ChangeMeans(t: Taxonomy, d: Draw)
    ensures ApplyOne(t, d).Done? <==> Allowed(t, d.change)
    ensures ApplyOne(t, d).Done? ==>
      var Done(u, a) := ApplyOne(t, d);
      Effects(t, d.change, u) && Adds(t, d, u) && WrittenDown(t, d, u, a)
  {
    AllowedWhen(t, d);
    if ApplyOne(t, d).Done? {
      ChangeDoes(t, d);
      ChangeAdds(t, d);
      ChangeWritten(t, d);
    }
  }
}
