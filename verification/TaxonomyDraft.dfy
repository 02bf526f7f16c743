/**
 A batch as the source applies it (platform/core/src/taxonomy-changes.ts:159-498): each change edits a
 copy of the taxonomy in place, and the copy is kept only if every change applied and it is usable.
 Each method is the step of the transition system it is named after.
 */
module TaxonomyDraft {
  import opened Basics
  import opened Taxonomies
  import opened TaxonomyChanges
  import opened Ordering
  import opened TaxonomyIssuesFound

  /** What a change leaves in a draft, and gives: the taxonomy it makes and what was applied, or nothing. */
  predicate Leaves(outcome: Outcome, applied: Option<Applied>, next: Taxonomy) {
    match applied
    case None => outcome == Refused
    case Some(a) => outcome == Done(next, a)
  }

  class Draft {
    var version: nat
    var scope: string
    var shelves: seq<Shelf>
    var functions: seq<Item>
    var features: seq<Feature>
    var migrations: seq<Migration>

    function Value(): Taxonomy
      reads this
    {
      Taxonomy(version, scope, shelves, functions, features, migrations)
    }

    /** A copy of a taxonomy, as its next version. */
    constructor (t: Taxonomy)
      ensures Value() == NewVersion(t)
    {
      version, scope := t.version + 1, t.scope;
      shelves, functions, features, migrations := t.shelves, t.functions, t.features, t.migrations;
    }

    method Push(kind: MigrationKind, subject: Subject, from: Id, to: Destination)
      modifies this`migrations
      ensures Value() == Migrate(old(Value()), kind, subject, from, to)
    {
      migrations := migrations + [Migration(version, kind, subject, from, to)];
    }

    /** Assigning to the fields of the item at a place. */
    method Set(p: Pos, item: Item)
      requires Has(Value(), p)
      modifies this`shelves, this`functions, this`features
      ensures Value() == Put(old(Value()), p, item)
    {
      match p {
        case AtShelf(i) => shelves := shelves[i := shelves[i].(item := item)];
        case AtFunction(i) => functions := functions[i := item];
        case AtFeature(i) => features := features[i := features[i].(item := item)];
        case AtValue(i, j) =>
          features := features[i := features[i].(values := features[i].values[j := item])];
      }
    }

    method AddShelf(fields: NewItem, parentId: Option<Id>, implies: seq<Id>, id: Id)
      modifies this`shelves
      ensures Value() == PushShelf(old(Value()), fields, parentId, implies, id)
    {
      shelves := shelves + [Shelf(NewEntry(fields, id, NextShelfPlace(shelves, parentId)), parentId, implies)];
    }

    method Add(d: Draw) returns (applied: Option<Applied>)
      requires d.change.AddCategory? || d.change.AddSubcategory? || d.change.AddFunction?
            || d.change.AddFeature? || d.change.AddValue?
      modifies this`shelves, this`functions, this`features
      ensures Leaves(ApplyAdd(old(Value()), d), applied, Value())
    {
      match d.change {
        case AddCategory(shelf) =>
          var fns := LiveIds(Value(), FunctionSubject, shelf.implies);
          if fns == None {
            return None;
          }
          AddShelf(shelf.fields, None, fns.value, d.ids[0]);
          return Some(Applied(AddCategory(shelf.(implies := ByIds(fns.value))), d.ids, NothingBefore));
        case AddSubcategory(parentRef, shelf) =>
          var p := LiveItem(Value(), ShelfSubject, parentRef);
          if p == None {
            return None;
          }
          var parent := shelves[p.value.i];
          if parent.parentId != None || !HasSubcategories(Value(), parent.item.id) {
            return None;
          }
          var fns := LiveIds(Value(), FunctionSubject, shelf.implies);
          if fns == None {
            return None;
          }
          AddShelf(shelf.fields, Some(parent.item.id), fns.value, d.ids[0]);
          return Some(Applied(AddSubcategory(ById(parent.item.id), shelf.(implies := ByIds(fns.value))), d.ids, NothingBefore));
        case AddFunction(fields) =>
          functions := functions + [NewEntry(fields, d.ids[0], MostOrder(functions) + 1)];
          return Some(Applied(d.change, d.ids, NothingBefore));
        case AddFeature(fields, cardinality, shelfRefs, values) =>
          var on := LiveIds(Value(), ShelfSubject, shelfRefs);
          if on == None {
            return None;
          }
          var entry := NewEntry(fields, d.ids[0], MostOrder(FeatureItems(features)) + 1);
          features := features + [Feature(entry, cardinality, on.value, NewValues(values, d.ids[1..]))];
          return Some(Applied(AddFeature(fields, cardinality, ByIds(on.value), values), d.ids, NothingBefore));
        case AddValue(featureRef, fields) =>
          var p := LiveItem(Value(), FeatureSubject, featureRef);
          if p == None {
            return None;
          }
          var i := p.value.i;
          var value := NewEntry(fields, d.ids[0], MostOrder(features[i].values) + 1);
          var id := features[i].item.id;
          features := features[i := features[i].(values := features[i].values + [value])];
          return Some(Applied(AddValue(ById(id), fields), d.ids, NothingBefore));
      }
    }

    method Text(c: Change) returns (applied: Option<Applied>)
      requires c.Describe? || c.Rename? || c.Implies? || c.Scope?
      modifies this
      ensures Leaves(ApplyText(old(Value()), c), applied, Value())
    {
      match c {
        case Describe(subject, ref, description) =>
          var p := LiveItem(Value(), subject, ref);
          if p == None {
            return None;
          }
          var item := At(Value(), p.value);
          Set(p.value, item.(description := description));
          return Some(Applied(Describe(subject, ById(item.id), description), [], DescriptionBefore(item.description)));
        case Rename(subject, ref, name, slug) =>
          var p := LiveItem(Value(), subject, ref);
          if p == None {
            return None;
          }
          var item := At(Value(), p.value);
          Set(p.value, item.(name := name, slug := if slug.Some? then slug.value else item.slug));
          Push(Renamed, subject, item.id, ToOne(item.id));
          return Some(Applied(Rename(subject, ById(item.id), name, slug), [],
                              NamesBefore(item.name, if slug.Some? then Some(item.slug) else None)));
        case Implies(ref, impliesRefs) =>
          var p := LiveItem(Value(), ShelfSubject, ref);
          if p == None {
            return None;
          }
          var fns := LiveIds(Value(), FunctionSubject, impliesRefs);
          if fns == None {
            return None;
          }
          var shelf := shelves[p.value.i];
          shelves := shelves[p.value.i := shelf.(implies := fns.value)];
          return Some(Applied(Implies(ById(shelf.item.id), ByIds(fns.value)), [], ImpliesBefore(shelf.implies)));
        case Scope(text) =>
          var was := scope;
          scope := text;
          return Some(Applied(c, [], ScopeBefore(was)));
      }
    }

    method MoveShelf(item: Ref, parentRef: Ref) returns (applied: Option<Applied>)
      modifies this
      ensures Leaves(ApplyMove(old(Value()), item, parentRef), applied, Value())
    {
      var p := LiveItem(Value(), ShelfSubject, item);
      if p == None || shelves[p.value.i].parentId == None {
        return None;
      }
      var shelf := shelves[p.value.i];
      var q := LiveItem(Value(), ShelfSubject, parentRef);
      if q == None {
        return None;
      }
      var parent := shelves[q.value.i];
      if parent.parentId != None || Some(parent.item.id) == shelf.parentId {
        return None;
      }
      var order := NextShelfPlace(shelves, Some(parent.item.id));
      shelves := shelves[p.value.i := shelf.(item := shelf.item.(sortOrder := order), parentId := Some(parent.item.id))];
      Push(Moved, ShelfSubject, shelf.item.id, ToOne(shelf.item.id));
      return Some(Applied(Move(ById(shelf.item.id), ById(parent.item.id)), [], ParentBefore(shelf.parentId.value)));
    }

    method MergeItems(subject: Mergeable, fromRef: Ref, intoRef: Ref) returns (applied: Option<Applied>)
      modifies this
      ensures Leaves(ApplyMerge(old(Value()), subject, fromRef, intoRef), applied, Value())
    {
      var p, q := LiveItem(Value(), subject, fromRef), LiveItem(Value(), subject, intoRef);
      if p == None || q == None {
        return None;
      }
      var from, into := At(Value(), p.value), At(Value(), q.value);
      if from.id == into.id {
        return None;
      }
      if subject == ShelfSubject && HasSubcategories(Value(), from.id) {
        return None;
      }
      if subject == ValueSubject && !SameFeature(Value(), from.id, into.id) {
        return None;
      }
      if subject == FunctionSubject && Implied(Value(), from.id) {
        return None;
      }
      Set(p.value, from.(retiredIn := Some(version)));
      Push(Merged, subject, from.id, ToOne(into.id));
      return Some(Applied(Merge(subject, ById(from.id), ById(into.id)), [], NothingBefore));
    }

    /** A split's children, pushed one after another. */
    method SplitShelf(d: Draw) returns (applied: Option<Applied>)
      requires d.change.Split?
      modifies this
      ensures Leaves(ApplySplit(old(Value()), d), applied, Value())
    {
      var p := LiveItem(Value(), ShelfSubject, d.change.item);
      if p == None || shelves[p.value.i].parentId != None || HasSubcategories(Value(), shelves[p.value.i].item.id) {
        return None;
      }
      var id := shelves[p.value.i].item.id;
      var children := PushAll(id, d.change.children, d.ids);
      if children == None {
        return None;
      }
      Push(SplitUp, ShelfSubject, id, ToMany(d.ids));
      return Some(Applied(Split(ById(id), children.value), d.ids, NothingBefore));
    }

    method PushAll(id: Id, children: seq<NewShelf>, ids: seq<Id>) returns (made: Option<seq<NewShelf>>)
      requires |children| == |ids|
      modifies this`shelves
      ensures made == None <==> PushChildren(old(Value()), id, children, ids) == None
      ensures made.Some? ==> PushChildren(old(Value()), id, children, ids) == Some((Value(), made.value))
    {
      var done: seq<NewShelf> := [];
      PushedNone(Value(), id, children, ids);
      for k := 0 to |children|
        invariant PushedSoFar(old(Value()), Value(), id, children, ids, k, done)
      {
        var fns := LiveIds(Value(), FunctionSubject, children[k].implies);
        if fns == None {
          PushedRefused(old(Value()), Value(), id, children, ids, k, done);
          return None;
        }
        ghost var before := Value();
        AddShelf(children[k].fields, Some(id), fns.value, ids[k]);
        PushedMore(old(Value()), before, id, children, ids, k, done, fns.value);
        done := done + [children[k].(implies := ByIds(fns.value))];
      }
      PushedAll(old(Value()), Value(), id, children, ids, done);
      return Some(done);
    }

    method RetireItem(subject: Subject, ref: Ref) returns (applied: Option<Applied>)
      modifies this
      ensures Leaves(ApplyRetire(old(Value()), subject, ref), applied, Value())
    {
      var p := LiveItem(Value(), subject, ref);
      if p == None || !MayRetire(Value(), p.value) {
        return None;
      }
      var item := At(Value(), p.value);
      Set(p.value, item.(retiredIn := Some(version)));
      if p.value.AtFeature? {
        var i := p.value.i;
        var values := features[i].values;
        for j := 0 to |values|
          invariant |values| == |features[i].values|
          invariant forall k :: 0 <= k < |values| ==>
            values[k] == if k < j && Live(features[i].values[k]) then features[i].values[k].(retiredIn := Some(version))
                         else features[i].values[k]
        {
          if Live(values[j]) {
            values := values[j := values[j].(retiredIn := Some(version))];
          }
        }
        assert values == RetiredValues(features[i].values, version);
        features := features[i := features[i].(values := values)];
      }
      Push(Retired, subject, item.id, ToNothing);
      return Some(Applied(Retire(subject, ById(item.id)), [], NothingBefore));
    }

    method RestoreItem(subject: Subject, ref: Ref) returns (applied: Option<Applied>)
      modifies this
      ensures Leaves(ApplyRestore(old(Value()), subject, ref), applied, Value())
    {
      var p := Find(Value(), subject, ref);
      if p == None || Live(At(Value(), p.value)) || !MayRestore(Value(), p.value) {
        return None;
      }
      var item := At(Value(), p.value);
      Set(p.value, item.(retiredIn := None));
      if p.value.AtFeature? {
        var i := p.value.i;
        var values := features[i].values;
        for j := 0 to |values|
          invariant |values| == |features[i].values|
          invariant forall k :: 0 <= k < |values| ==>
            values[k] == if k < j && features[i].values[k].retiredIn == item.retiredIn
                         then features[i].values[k].(retiredIn := None) else features[i].values[k]
        {
          if values[j].retiredIn == item.retiredIn {
            values := values[j := values[j].(retiredIn := None)];
          }
        }
        assert values == RestoredValues(features[i].values, item.retiredIn);
        features := features[i := features[i].(values := values)];
      }
      Push(Restored, subject, item.id, ToOne(item.id));
      return Some(Applied(Restore(subject, ById(item.id)), [], NothingBefore));
    }

    /** `applyOne` */
    method Apply(d: Draw) returns (applied: Option<Applied>)
      modifies this
      ensures Leaves(ApplyOne(old(Value()), d), applied, Value())
    {
      match d.change {
        case Describe(_, _, _) => applied := Text(d.change);
        case Rename(_, _, _, _) => applied := Text(d.change);
        case Implies(_, _) => applied := Text(d.change);
        case Scope(_) => applied := Text(d.change);
        case Move(item, parent) => applied := MoveShelf(item, parent);
        case Merge(subject, from, into) => applied := MergeItems(subject, from, into);
        case Split(_, _) => applied := SplitShelf(d);
        case Retire(subject, item) => applied := RetireItem(subject, item);
        case Restore(subject, item) => applied := RestoreItem(subject, item);
        case _ => applied := Add(d);
      }
    }
  }

  /** What is left of a split to push, after its first children. */
  ghost predicate PushedSoFar(
      t: Taxonomy, u: Taxonomy, id: Id, children: seq<NewShelf>, ids: seq<Id>, k: nat, made: seq<NewShelf>)
    requires |children| == |ids| && k <= |children|
  {
    PushChildren(t, id, children, ids) ==
      match PushChildren(u, id, children[k..], ids[k..])
      case None => None
      case Some((last, rest)) => Some((last, made + rest))
  }

  lemma PushedNone(t: Taxonomy, id: Id, children: seq<NewShelf>, ids: seq<Id>)
    requires |children| == |ids|
    ensures PushedSoFar(t, t, id, children, ids, 0, [])
  {
    assert children[0..] == children && ids[0..] == ids;
    assert forall rest: seq<NewShelf> :: [] + rest == rest;
  }

  lemma PushedMore(
      t: Taxonomy, u: Taxonomy, id: Id, children: seq<NewShelf>, ids: seq<Id>, k: nat, made: seq<NewShelf>, fns: seq<Id>)
    requires |children| == |ids| && k < |children| && PushedSoFar(t, u, id, children, ids, k, made)
    requires LiveIds(u, FunctionSubject, children[k].implies) == Some(fns)
    ensures PushedSoFar(t, PushShelf(u, children[k].fields, Some(id), fns, ids[k]), id, children, ids, k + 1,
                        made + [children[k].(implies := ByIds(fns))])
  {
    assert children[k..][1..] == children[k + 1..] && ids[k..][1..] == ids[k + 1..];
    var next := children[k].(implies := ByIds(fns));
    assert forall rest: seq<NewShelf> :: made + ([next] + rest) == made + [next] + rest;
  }

  lemma PushedRefused(
      t: Taxonomy, u: Taxonomy, id: Id, children: seq<NewShelf>, ids: seq<Id>, k: nat, made: seq<NewShelf>)
    requires |children| == |ids| && k < |children| && PushedSoFar(t, u, id, children, ids, k, made)
    requires LiveIds(u, FunctionSubject, children[k].implies) == None
    ensures PushChildren(t, id, children, ids) == None
  {
  }

  lemma PushedAll(t: Taxonomy, u: Taxonomy, id: Id, children: seq<NewShelf>, ids: seq<Id>, made: seq<NewShelf>)
    requires |children| == |ids| && PushedSoFar(t, u, id, children, ids, |children|, made)
    ensures PushChildren(t, id, children, ids) == Some((u, made))
  {
    assert made + [] == made;
  }

  /** `applyChanges` */
  method ApplyBatch(t: Taxonomy, draws: seq<Draw>) returns (outcome: BatchOutcome)
    ensures outcome == ApplyChanges(t, draws)
  {
    if draws == [] {
      return BatchRefused;
    }
    var next := new Draft(t);
    var applied: seq<Applied> := [];
    var refused := false;
    for k := 0 to |draws|
      invariant if refused then ApplyAll(NewVersion(t), draws) == BatchRefused
                else AppliedSoFar(NewVersion(t), draws, k, next.Value(), applied)
    {
      var result := next.Apply(draws[k]);
      assert draws[k..][1..] == draws[k + 1..];
      if result == None {
        refused := true;
      } else {
        applied := applied + [result.value];
      }
    }
    if refused {
      return BatchRefused;
    }
    assert ApplyAll(NewVersion(t), draws) == BatchDone(next.Value(), applied + []);
    assert applied + [] == applied;
    var issues := TaxonomyIssues(next.Value());
    outcome := if issues == [] then BatchDone(next.Value(), applied) else BatchRefused;
  }

  /** What is left of a batch to apply, after its first changes. */
  ghost predicate AppliedSoFar(t: Taxonomy, draws: seq<Draw>, k: nat, u: Taxonomy, applied: seq<Applied>)
    requires k <= |draws|
  {
    ApplyAll(t, draws) ==
      match ApplyAll(u, draws[k..])
      case BatchRefused => BatchRefused
      case BatchDone(last, rest) => BatchDone(last, applied + rest)
  }
}
