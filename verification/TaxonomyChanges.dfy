/**
 Changes to a taxonomy (platform/core/src/taxonomy-changes.ts): one change, a batch as the next
 version, and the changes that undo a batch.

 `makeId` is a parameter: each change comes with the IDs it made (`Draw`). Nothing here assumes the
 IDs are new; a taxonomy that uses an ID twice is refused at the end of the batch, as in the source.
 */
module TaxonomyChanges {
  import opened Basics
  import opened Taxonomies
  import Ordering

  datatype NewItem = NewItem(slug: string, name: Name, description: string)

  datatype NewShelf = NewShelf(fields: NewItem, implies: seq<Ref>)

  /** A shelf, a function or a value: a feature is never merged. */
  type Mergeable = s: Subject | s != FeatureSubject witness ShelfSubject

  datatype Change =
    | AddCategory(shelf: NewShelf)
    | AddSubcategory(parent: Ref, shelf: NewShelf)
    | AddFunction(fields: NewItem)
    | AddFeature(fields: NewItem, cardinality: Cardinality, shelves: seq<Ref>, values: seq<NewItem>)
    | AddValue(feature: Ref, fields: NewItem)
    | Describe(subject: Subject, item: Ref, description: string)
    | Rename(subject: Subject, item: Ref, name: Name, slug: Option<string>)
    | Move(item: Ref, parent: Ref)
    | Merge(mergeable: Mergeable, from: Ref, into: Ref)
    | Split(item: Ref, children: seq<NewShelf>)
    | Retire(subject: Subject, item: Ref)
    | Implies(item: Ref, implies: seq<Ref>)
    | Scope(scope: string)
    | Restore(subject: Subject, item: Ref)

  /** How many IDs a change makes. */
  function Makes(c: Change): nat {
    match c
    case AddCategory(_) => 1
    case AddSubcategory(_, _) => 1
    case AddFunction(_) => 1
    case AddFeature(_, _, _, values) => 1 + |values|
    case AddValue(_, _) => 1
    case Split(_, children) => |children|
    case _ => 0
  }

  datatype DrawBase = Draw(change: Change, ids: seq<Id>)

  /** A change, and the IDs `makeId` gave for it in order. */
  type Draw = d: DrawBase | |d.ids| == Makes(d.change) witness Draw(Scope(""), [])

  /** The content a change wrote over. */
  datatype Before =
    | NothingBefore
    | DescriptionBefore(description: string)
    | NamesBefore(name: Name, slug: Option<string>)
    | ParentBefore(parentId: Id)
    | ImpliesBefore(implies: seq<Id>)
    | ScopeBefore(scope: string)

  /** The record of a change: itself by IDs only, those it made, and the content it wrote over. */
  datatype Applied = Applied(change: Change, created: seq<Id>, before: Before)

  datatype Outcome = Refused | Done(next: Taxonomy, applied: Applied)

  datatype BatchOutcome = BatchRefused | BatchDone(next: Taxonomy, applied: seq<Applied>)

  // ---------------------------------------------------------------------- parts of a change

  /** The place of a live item the reference names. */
  function LiveItem(t: Taxonomy, subject: Subject, ref: Ref): (found: Option<Pos>)
    ensures found.Some? ==>
      && Has(t, found.value) && KindOf(found.value) == subject
      && Answers(At(t, found.value), ref) && Live(At(t, found.value))
  {
    match Find(t, subject, ref)
    case None => None
    case Some(p) => if Live(At(t, p)) then Some(p) else None
  }

  /** The IDs of live items of a kind, or nothing when a reference names none. */
  function LiveIds(t: Taxonomy, subject: Subject, refs: seq<Ref>): (found: Option<seq<Id>>)
    ensures found.Some? ==> |found.value| == |refs|
    ensures found.Some? ==>
      forall k :: 0 <= k < |refs| ==>
        && LiveItem(t, subject, refs[k]).Some?
        && At(t, LiveItem(t, subject, refs[k]).value).id == found.value[k]
  {
    if refs == [] then Some([])
    else
      match LiveItem(t, subject, refs[0])
      case None => None
      case Some(p) =>
        match LiveIds(t, subject, refs[1..])
        case None => None
        case Some(rest) => Some([At(t, p).id] + rest)
  }

  function ByIds(ids: seq<Id>): (refs: seq<Ref>)
    ensures |refs| == |ids|
    ensures forall k :: 0 <= k < |ids| ==> refs[k] == ById(ids[k])
  {
    seq(|ids|, k requires 0 <= k < |ids| => ById(ids[k]))
  }

  /** One more than the greatest order among the shelves under a parent. */
  function NextShelfPlace(shelves: seq<Shelf>, parentId: Option<Id>): int {
    MostShelfOrder(shelves, parentId) + 1
  }

  function MostShelfOrder(shelves: seq<Shelf>, parentId: Option<Id>): int {
    if shelves == [] then 0
    else
      var most, last := MostShelfOrder(shelves[..|shelves| - 1], parentId), shelves[|shelves| - 1];
      if last.parentId == parentId && last.item.sortOrder > most then last.item.sortOrder else most
  }

  function MostOrder(items: seq<Item>): int {
    if items == [] then 0
    else
      var most, last := MostOrder(items[..|items| - 1]), items[|items| - 1];
      if last.sortOrder > most then last.sortOrder else most
  }

  function NewEntry(fields: NewItem, id: Id, sortOrder: int): Item {
    Item(id, fields.slug, fields.name, fields.description, sortOrder, None)
  }

  /** `newShelf`, pushed: under its parent, after the shelves there. */
  function PushShelf(t: Taxonomy, fields: NewItem, parentId: Option<Id>, implies: seq<Id>, id: Id): Taxonomy {
    t.(shelves := t.shelves + [
      Shelf(NewEntry(fields, id, NextShelfPlace(t.shelves, parentId)), parentId, implies)])
  }

  function NewValues(values: seq<NewItem>, ids: seq<Id>): (made: seq<Item>)
    requires |values| == |ids|
    ensures |made| == |values|
    ensures forall j :: 0 <= j < |made| ==> made[j] == NewEntry(values[j], ids[j], j + 1)
  {
    seq(|values|, j requires 0 <= j < |values| => NewEntry(values[j], ids[j], j + 1))
  }

  function Migrate(t: Taxonomy, kind: MigrationKind, subject: Subject, from: Id, to: Destination): Taxonomy {
    t.(migrations := t.migrations + [Migration(t.version, kind, subject, from, to)])
  }

  /** Whether a shelf has live subcategories. */
  predicate HasSubcategories(t: Taxonomy, shelfId: Id) {
    exists i :: 0 <= i < |t.shelves| && t.shelves[i].parentId == Some(shelfId) && Live(t.shelves[i].item)
  }

  /** Whether a live shelf implies a function. */
  predicate Implied(t: Taxonomy, functionId: Id) {
    exists i :: 0 <= i < |t.shelves| && Live(t.shelves[i].item) && functionId in t.shelves[i].implies
  }

  /** A split's children, pushed one after another, with what each implies by ID. */
  function PushChildren(t: Taxonomy, parentId: Id, children: seq<NewShelf>, ids: seq<Id>)
    : (made: Option<(Taxonomy, seq<NewShelf>)>)
    requires |children| == |ids|
    decreases |children|
  {
    if children == [] then Some((t, []))
    else
      match LiveIds(t, FunctionSubject, children[0].implies)
      case None => None
      case Some(fns) =>
        var pushed := PushShelf(t, children[0].fields, Some(parentId), fns, ids[0]);
        match PushChildren(pushed, parentId, children[1..], ids[1..])
        case None => None
        case Some((u, rest)) => Some((u, [children[0].(implies := ByIds(fns))] + rest))
  }

  /** A feature's values once it is retired: the live ones are retired with it. */
  function RetiredValues(values: seq<Item>, version: nat): (retired: seq<Item>)
    ensures |retired| == |values|
    ensures forall j :: 0 <= j < |values| ==>
      retired[j] == if Live(values[j]) then values[j].(retiredIn := Some(version)) else values[j]
  {
    seq(|values|, j requires 0 <= j < |values| =>
      if Live(values[j]) then values[j].(retiredIn := Some(version)) else values[j])
  }

  /** A feature's values once it is back: those retired with it are back too. */
  function RestoredValues(values: seq<Item>, retiredIn: Option<nat>): (restored: seq<Item>)
    ensures |restored| == |values|
    ensures forall j :: 0 <= j < |values| ==>
      restored[j] == if values[j].retiredIn == retiredIn then values[j].(retiredIn := None) else values[j]
  {
    seq(|values|, j requires 0 <= j < |values| =>
      if values[j].retiredIn == retiredIn then values[j].(retiredIn := None) else values[j])
  }

  function SetValues(t: Taxonomy, i: nat, values: seq<Item>): Taxonomy
    requires i < |t.features|
  {
    t.(features := t.features[i := t.features[i].(values := values)])
  }

  // ---------------------------------------------------------------------- one change

  function ApplyAdd(t: Taxonomy, d: Draw): Outcome
    requires d.change.AddCategory? || d.change.AddSubcategory? || d.change.AddFunction?
          || d.change.AddFeature? || d.change.AddValue?
  {
    match d.change
    case AddCategory(shelf) =>
      (match LiveIds(t, FunctionSubject, shelf.implies)
       case None => Refused
       case Some(fns) =>
         Done(PushShelf(t, shelf.fields, None, fns, d.ids[0]),
              Applied(AddCategory(shelf.(implies := ByIds(fns))), d.ids, NothingBefore)))
    case AddSubcategory(parentRef, shelf) =>
      (match LiveItem(t, ShelfSubject, parentRef)
       case None => Refused
       case Some(p) =>
         var parent := t.shelves[p.i];
         if parent.parentId != None || !HasSubcategories(t, parent.item.id) then Refused
         else
           match LiveIds(t, FunctionSubject, shelf.implies)
           case None => Refused
           case Some(fns) =>
             Done(PushShelf(t, shelf.fields, Some(parent.item.id), fns, d.ids[0]),
                  Applied(AddSubcategory(ById(parent.item.id), shelf.(implies := ByIds(fns))), d.ids, NothingBefore)))
    case AddFunction(fields) =>
      Done(t.(functions := t.functions + [NewEntry(fields, d.ids[0], MostOrder(t.functions) + 1)]),
           Applied(d.change, d.ids, NothingBefore))
    case AddFeature(fields, cardinality, shelfRefs, values) =>
      (match LiveIds(t, ShelfSubject, shelfRefs)
       case None => Refused
       case Some(shelves) =>
         var entry := NewEntry(fields, d.ids[0], MostOrder(Ordering.FeatureItems(t.features)) + 1);
         Done(t.(features := t.features + [Feature(entry, cardinality, shelves, NewValues(values, d.ids[1..]))]),
              Applied(AddFeature(fields, cardinality, ByIds(shelves), values), d.ids, NothingBefore)))
    case AddValue(featureRef, fields) =>
      match LiveItem(t, FeatureSubject, featureRef)
      case None => Refused
      case Some(p) =>
        var feature := t.features[p.i];
        var value := NewEntry(fields, d.ids[0], MostOrder(feature.values) + 1);
        Done(SetValues(t, p.i, feature.values + [value]),
             Applied(AddValue(ById(feature.item.id), fields), d.ids, NothingBefore))
  }

  function ApplyMove(t: Taxonomy, item: Ref, parentRef: Ref): Outcome {
    match LiveItem(t, ShelfSubject, item)
    case None => Refused
    case Some(p) =>
      var shelf := t.shelves[p.i];
      if shelf.parentId == None then Refused
      else
        match LiveItem(t, ShelfSubject, parentRef)
        case None => Refused
        case Some(q) =>
          var parent := t.shelves[q.i];
          if parent.parentId != None || Some(parent.item.id) == shelf.parentId then Refused
          else
            var order := NextShelfPlace(t.shelves, Some(parent.item.id));
            var moved := shelf.(item := shelf.item.(sortOrder := order), parentId := Some(parent.item.id));
            var id := shelf.item.id;
            Done(Migrate(t.(shelves := t.shelves[p.i := moved]), Moved, ShelfSubject, id, ToOne(id)),
                 Applied(Move(ById(id), ById(parent.item.id)), [], ParentBefore(shelf.parentId.value)))
  }

  function ApplyMerge(t: Taxonomy, subject: Mergeable, fromRef: Ref, intoRef: Ref): Outcome {
    match LiveItem(t, subject, fromRef)
    case None => Refused
    case Some(p) =>
      match LiveItem(t, subject, intoRef)
      case None => Refused
      case Some(q) =>
        var from, into := At(t, p), At(t, q);
        if || from.id == into.id
           || (subject == ShelfSubject && HasSubcategories(t, from.id))
           || (subject == ValueSubject && !SameFeature(t, from.id, into.id))
           || (subject == FunctionSubject && Implied(t, from.id))
        then Refused
        else
          Done(Migrate(Put(t, p, from.(retiredIn := Some(t.version))), Merged, subject, from.id, ToOne(into.id)),
               Applied(Merge(subject, ById(from.id), ById(into.id)), [], NothingBefore))
  }

  /** `featureOfValue(a)?.id === featureOfValue(b)?.id` */
  predicate SameFeature(t: Taxonomy, a: Id, b: Id) {
    match (FeatureOfValue(t, a), FeatureOfValue(t, b))
    case (Some(i), Some(j)) => t.features[i].item.id == t.features[j].item.id
    case (None, None) => true
    case _ => false
  }

  function ApplySplit(t: Taxonomy, d: Draw): Outcome
    requires d.change.Split?
  {
    match LiveItem(t, ShelfSubject, d.change.item)
    case None => Refused
    case Some(p) =>
      var shelf := t.shelves[p.i];
      var id := shelf.item.id;
      if shelf.parentId != None || HasSubcategories(t, id) then Refused
      else
        match PushChildren(t, id, d.change.children, d.ids)
        case None => Refused
        case Some((u, children)) =>
          Done(Migrate(u, SplitUp, ShelfSubject, id, ToMany(d.ids)),
               Applied(Split(ById(id), children), d.ids, NothingBefore))
  }

  /** Whether a live item may be retired. */
  predicate MayRetire(t: Taxonomy, p: Pos)
    requires Has(t, p)
  {
    var id := At(t, p).id;
    match KindOf(p)
    case ShelfSubject => !HasSubcategories(t, id)
    case FunctionSubject => !Implied(t, id)
    case FeatureSubject => true
    case ValueSubject =>
      match FeatureOfValue(t, id)
      case None => true
      case Some(i) => LiveValues(t.features[i].values) != 1
  }

  /** The item at a place retired, and with a feature its live values. */
  function RetireAt(t: Taxonomy, p: Pos): Taxonomy
    requires Has(t, p)
  {
    var u := Put(t, p, At(t, p).(retiredIn := Some(t.version)));
    if p.AtFeature? then SetValues(u, p.i, RetiredValues(u.features[p.i].values, t.version)) else u
  }

  function ApplyRetire(t: Taxonomy, subject: Subject, ref: Ref): Outcome {
    match LiveItem(t, subject, ref)
    case None => Refused
    case Some(p) =>
      var id := At(t, p).id;
      if !MayRetire(t, p) then Refused
      else
        Done(Migrate(RetireAt(t, p), Retired, subject, id, ToNothing),
             Applied(Retire(subject, ById(id)), [], NothingBefore))
  }

  /** Whether a retired item may come back: its category, or its feature, is live. */
  predicate MayRestore(t: Taxonomy, p: Pos)
    requires Has(t, p)
  {
    match p
    case AtShelf(i) =>
      (match t.shelves[i].parentId
       case None => true
       case Some(parentId) => LiveItem(t, ShelfSubject, ById(parentId)).Some?)
    case AtValue(_, _) =>
      (match FeatureOfValue(t, At(t, p).id)
       case None => false
       case Some(i) => Live(t.features[i].item))
    case _ => true
  }

  /** The item at a place back, and with a feature the values retired with it. */
  function RestoreAt(t: Taxonomy, p: Pos): Taxonomy
    requires Has(t, p)
  {
    var u := Put(t, p, At(t, p).(retiredIn := None));
    if p.AtFeature? then SetValues(u, p.i, RestoredValues(u.features[p.i].values, At(t, p).retiredIn)) else u
  }

  function ApplyRestore(t: Taxonomy, subject: Subject, ref: Ref): Outcome {
    match Find(t, subject, ref)
    case None => Refused
    case Some(p) =>
      var id := At(t, p).id;
      if Live(At(t, p)) || !MayRestore(t, p) then Refused
      else
        Done(Migrate(RestoreAt(t, p), Restored, subject, id, ToOne(id)),
             Applied(Restore(subject, ById(id)), [], NothingBefore))
  }

  function ApplyText(t: Taxonomy, c: Change): Outcome
    requires c.Describe? || c.Rename? || c.Implies? || c.Scope?
  {
    match c
    case Describe(subject, ref, description) =>
      (match LiveItem(t, subject, ref)
       case None => Refused
       case Some(p) =>
         var item := At(t, p);
         Done(Put(t, p, item.(description := description)),
              Applied(Describe(subject, ById(item.id), description), [], DescriptionBefore(item.description))))
    case Rename(subject, ref, name, slug) =>
      (match LiveItem(t, subject, ref)
       case None => Refused
       case Some(p) =>
         var item := At(t, p);
         var renamed := item.(name := name, slug := if slug.Some? then slug.value else item.slug);
         Done(Migrate(Put(t, p, renamed), Renamed, subject, item.id, ToOne(item.id)),
              Applied(Rename(subject, ById(item.id), name, slug), [],
                      NamesBefore(item.name, if slug.Some? then Some(item.slug) else None))))
    case Implies(ref, impliesRefs) =>
      (match LiveItem(t, ShelfSubject, ref)
       case None => Refused
       case Some(p) =>
         match LiveIds(t, FunctionSubject, impliesRefs)
         case None => Refused
         case Some(fns) =>
           var shelf := t.shelves[p.i];
           Done(t.(shelves := t.shelves[p.i := shelf.(implies := fns)]),
                Applied(Implies(ById(shelf.item.id), ByIds(fns)), [], ImpliesBefore(shelf.implies))))
    case Scope(scope) =>
      Done(t.(scope := scope), Applied(c, [], ScopeBefore(t.scope)))
  }

  /** `applyOne` */
  function ApplyOne(t: Taxonomy, d: Draw): Outcome {
    match d.change
    case Describe(_, _, _) => ApplyText(t, d.change)
    case Rename(_, _, _, _) => ApplyText(t, d.change)
    case Implies(_, _) => ApplyText(t, d.change)
    case Scope(_) => ApplyText(t, d.change)
    case Move(item, parent) => ApplyMove(t, item, parent)
    case Merge(subject, from, into) => ApplyMerge(t, subject, from, into)
    case Split(_, _) => ApplySplit(t, d)
    case Retire(subject, item) => ApplyRetire(t, subject, item)
    case Restore(subject, item) => ApplyRestore(t, subject, item)
    case _ => ApplyAdd(t, d)
  }

  // ---------------------------------------------------------------------- batches

  /** The changes of a batch, one after another. */
  function ApplyAll(t: Taxonomy, draws: seq<Draw>): (r: BatchOutcome)
    ensures r.BatchDone? ==> |r.applied| == |draws|
    decreases |draws|
  {
    if draws == [] then BatchDone(t, [])
    else
      match ApplyOne(t, draws[0])
      case Refused => BatchRefused
      case Done(next, applied) =>
        match ApplyAll(next, draws[1..])
        case BatchRefused => BatchRefused
        case BatchDone(last, rest) => BatchDone(last, [applied] + rest)
  }

  /** A copy of the taxonomy, as the version a batch makes. */
  function NewVersion(t: Taxonomy): Taxonomy {
    t.(version := t.version + 1)
  }

  /** `applyChanges`: a batch as the next version, if the taxonomy it makes is usable. */
  ghost function ApplyChanges(t: Taxonomy, draws: seq<Draw>): (r: BatchOutcome)
    ensures r.BatchDone? ==> Valid(r.next)
  {
    if draws == [] then BatchRefused
    else
      match ApplyAll(NewVersion(t), draws)
      case BatchRefused => BatchRefused
      case BatchDone(next, applied) => if Valid(next) then BatchDone(next, applied) else BatchRefused
  }

  // ---------------------------------------------------------------------- undoing

  function RetireEach(ids: seq<Id>): seq<Change> {
    seq(|ids|, k requires 0 <= k < |ids| => Retire(ShelfSubject, ById(ids[k])))
  }

  /** The changes that undo one: what was added is retired, what went comes back, the rest is put back. */
  function InverseOf(a: Applied): seq<Change> {
    match a.change
    case AddCategory(_) => RetireEach(a.created)
    case AddSubcategory(_, _) => RetireEach(a.created)
    case Split(_, _) => RetireEach(a.created)
    case AddFunction(_) => if a.created == [] then [] else [Retire(FunctionSubject, ById(a.created[0]))]
    case AddFeature(_, _, _, _) => if a.created == [] then [] else [Retire(FeatureSubject, ById(a.created[0]))]
    case AddValue(_, _) => if a.created == [] then [] else [Retire(ValueSubject, ById(a.created[0]))]
    case Describe(subject, item, _) =>
      (match a.before case DescriptionBefore(was) => [Describe(subject, item, was)] case _ => [])
    case Rename(subject, item, _, _) =>
      (match a.before case NamesBefore(name, slug) => [Rename(subject, item, name, slug)] case _ => [])
    case Move(item, _) =>
      (match a.before case ParentBefore(parentId) => [Move(item, ById(parentId))] case _ => [])
    case Merge(subject, from, _) => [Restore(subject, from)]
    case Retire(subject, item) => [Restore(subject, item)]
    case Implies(item, _) =>
      (match a.before case ImpliesBefore(was) => [Implies(item, ByIds(was))] case _ => [])
    case Scope(_) => (match a.before case ScopeBefore(was) => [Scope(was)] case _ => [])
    case Restore(subject, item) => [Retire(subject, item)]
  }

  /** `inverseChanges`: what undoes each change, the last one first. */
  function InverseChanges(applied: seq<Applied>): seq<Change> {
    if applied == [] then []
    else InverseChanges(applied[1..]) + InverseOf(applied[0])
  }

  /** Changes that make no ID, as a batch. */
  function AsDraws(changes: seq<Change>): (draws: seq<Draw>)
    requires forall k :: 0 <= k < |changes| ==> Makes(changes[k]) == 0
    ensures |draws| == |changes|
    ensures forall k :: 0 <= k < |draws| ==> draws[k].change == changes[k] && draws[k].ids == []
  {
    seq(|changes|, k requires 0 <= k < |changes| => Draw(changes[k], []))
  }

  lemma {:induction false} InverseMakesNothing(applied: seq<Applied>)
    ensures forall k :: 0 <= k < |InverseChanges(applied)| ==>
      Makes(InverseChanges(applied)[k]) == 0 && !InverseChanges(applied)[k].Merge?
  {
    if applied != [] {
      InverseMakesNothing(applied[1..]);
    }
  }

  /** The batch that undoes another. No change in it makes an ID or merges. */
  function Undo(applied: seq<Applied>): (draws: seq<Draw>)
    ensures |draws| == |InverseChanges(applied)|
    ensures forall k :: 0 <= k < |draws| ==> !draws[k].change.Merge? && draws[k].ids == []
  {
    InverseMakesNothing(applied);
    AsDraws(InverseChanges(applied))
  }
}
