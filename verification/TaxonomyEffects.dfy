/**
 What each kind of change does to what was there, all of it: `applyOne` (platform/core/src/taxonomy-changes.ts:184-498)
 against a table of effects, one line for each kind that has one.
 */
module TaxonomyEffects {
  import opened Basics
  import opened Taxonomies
  import opened TaxonomyChanges
  import opened TaxonomySteps
  import opened TaxonomyUndo

  /** Whether a change is about the item at a place. */
  predicate About(t: Taxonomy, subject: Subject, ref: Ref, q: Pos) {
    LiveItem(t, subject, ref) == Some(q)
  }

  function DescriptionAfter(t: Taxonomy, c: Change, q: Pos): string
    requires Has(t, q)
  {
    match c
    case Describe(subject, ref, description) => if About(t, subject, ref, q) then description else At(t, q).description
    case _ => At(t, q).description
  }

  function NameAfter(t: Taxonomy, c: Change, q: Pos): Name
    requires Has(t, q)
  {
    match c
    case Rename(subject, ref, name, _) => if About(t, subject, ref, q) then name else At(t, q).name
    case _ => At(t, q).name
  }

  function SlugAfter(t: Taxonomy, c: Change, q: Pos): string
    requires Has(t, q)
  {
    match c
    case Rename(subject, ref, _, Some(slug)) => if About(t, subject, ref, q) then slug else At(t, q).slug
    case _ => At(t, q).slug
  }

  /** A moved shelf's parent: the live shelf the change names. */
  function ParentAfter(t: Taxonomy, c: Change, i: nat): Option<Id>
    requires i < |t.shelves|
  {
    match c
    case Move(item, parent) =>
      if About(t, ShelfSubject, item, AtShelf(i)) && LiveItem(t, ShelfSubject, parent).Some?
      then Some(At(t, LiveItem(t, ShelfSubject, parent).value).id)
      else t.shelves[i].parentId
    case _ => t.shelves[i].parentId
  }

  function ImpliesAfter(t: Taxonomy, c: Change, i: nat): seq<Id>
    requires i < |t.shelves|
  {
    match c
    case Implies(item, refs) =>
      if About(t, ShelfSubject, item, AtShelf(i)) && LiveIds(t, FunctionSubject, refs).Some?
      then LiveIds(t, FunctionSubject, refs).value
      else t.shelves[i].implies
    case _ => t.shelves[i].implies
  }

  /** What was there, as the table says a change leaves it. Only a moved shelf's order changes, to after its siblings'. */
  ghost predicate LeftAs(t: Taxonomy, c: Change, u: Taxonomy, q: Pos)
    requires Has(t, q) && Has(u, q)
  {
    && At(u, q).id == At(t, q).id
    && At(u, q).description == DescriptionAfter(t, c, q)
    && At(u, q).name == NameAfter(t, c, q)
    && At(u, q).slug == SlugAfter(t, c, q)
    && At(u, q).retiredIn == NewStamp(t, c, q)
    && (if c.Move? && About(t, ShelfSubject, c.item, q) then LastUnder(t, ParentAfter(t, c, q.i), At(u, q).sortOrder)
        else At(u, q).sortOrder == At(t, q).sortOrder)
  }

  ghost predicate LastUnder(t: Taxonomy, parentId: Option<Id>, sortOrder: int) {
    forall i :: 0 <= i < |t.shelves| && t.shelves[i].parentId == parentId ==> t.shelves[i].item.sortOrder < sortOrder
  }

  ghost predicate Effects(t: Taxonomy, c: Change, u: Taxonomy) {
    && u.scope == (if c.Scope? then c.scope else t.scope)
    && (forall q :: Has(t, q) ==> Has(u, q) && LeftAs(t, c, u, q))
    && (forall i :: 0 <= i < |t.shelves| && i < |u.shelves| ==>
          u.shelves[i].parentId == ParentAfter(t, c, i) && u.shelves[i].implies == ImpliesAfter(t, c, i))
    && (forall i :: 0 <= i < |t.features| && i < |u.features| ==>
          u.features[i].cardinality == t.features[i].cardinality && u.features[i].shelves == t.features[i].shelves)
  }

  lemma {:induction false} NextIsLast(shelves: seq<Shelf>, parentId: Option<Id>, i: nat)
    requires i < |shelves| && shelves[i].parentId == parentId
    ensures shelves[i].item.sortOrder < NextShelfPlace(shelves, parentId)
  {
    if i < |shelves| - 1 {
      NextIsLast(shelves[..|shelves| - 1], parentId, i);
    }
  }

  lemma WordsEffects(t: Taxonomy, d: Draw)
    requires KeepsWords(d.change) && ApplyOne(t, d).Done?
    ensures Effects(t, d.change, ApplyOne(t, d).next)
  {
    StepShape(t, d);
    ContentKept(t, d);
    var u := ApplyOne(t, d).next;
    forall q | Has(t, q)
      ensures Has(u, q) && LeftAs(t, d.change, u, q)
    {
      assert SameWords(At(t, q), At(u, q), {});
    }
  }

  lemma MoveEffects(t: Taxonomy, d: Draw)
    requires d.change.Move? && ApplyOne(t, d).Done?
    ensures Effects(t, d.change, ApplyOne(t, d).next)
  {
    StepShape(t, d);
    var parentId := Some(At(t, LiveItem(t, ShelfSubject, d.change.parent).value).id);
    forall i | 0 <= i < |t.shelves| && t.shelves[i].parentId == parentId
      ensures t.shelves[i].item.sortOrder < NextShelfPlace(t.shelves, parentId)
    {
      NextIsLast(t.shelves, parentId, i);
    }
  }

  /** Replacing an item leaves where shelves are and what features hold. */
  lemma PutKeeps(t: Taxonomy, p: Pos, item: Item)
    requires Has(t, p)
    ensures
      var u := Put(t, p, item);
      && u.scope == t.scope && |u.shelves| == |t.shelves| && |u.features| == |t.features|
      && (forall i :: 0 <= i < |t.shelves| ==>
            u.shelves[i].parentId == t.shelves[i].parentId && u.shelves[i].implies == t.shelves[i].implies)
      && (forall i :: 0 <= i < |t.features| ==>
            u.features[i].cardinality == t.features[i].cardinality && u.features[i].shelves == t.features[i].shelves)
  {
  }

  /** Replacing one item's words has the effects that name them. */
  lemma PutEffects(t: Taxonomy, c: Change, p: Pos, item: Item, u: Taxonomy)
    requires c.Describe? || c.Rename?
    requires LiveItem(t, c.subject, c.item) == Some(p) && Has(t, p)
    requires item == if c.Describe? then At(t, p).(description := c.description)
                     else At(t, p).(name := c.name, slug := if c.slug.Some? then c.slug.value else At(t, p).slug)
    requires u.(migrations := t.migrations) == Put(t, p, item)
    ensures Effects(t, c, u)
  {
    PutKeeps(t, p, item);
    var v := Put(t, p, item);
    forall q | Has(t, q)
      ensures Has(u, q) && LeftAs(t, c, u, q)
    {
      assert Has(v, q) && At(u, q) == At(v, q) == if q == p then item else At(t, q);
    }
  }

  lemma DescribeEffects(t: Taxonomy, d: Draw)
    requires d.change.Describe? && ApplyOne(t, d).Done?
    ensures Effects(t, d.change, ApplyOne(t, d).next)
  {
    var p := LiveItem(t, d.change.subject, d.change.item).value;
    PutEffects(t, d.change, p, At(t, p).(description := d.change.description), ApplyOne(t, d).next);
  }

  lemma RenameEffects(t: Taxonomy, d: Draw)
    requires d.change.Rename? && ApplyOne(t, d).Done?
    ensures Effects(t, d.change, ApplyOne(t, d).next)
  {
    var p := LiveItem(t, d.change.subject, d.change.item).value;
    var item := At(t, p);
    var renamed :=
      item.(name := d.change.name, slug := if d.change.slug.Some? then d.change.slug.value else item.slug);
    PutEffects(t, d.change, p, renamed, ApplyOne(t, d).next);
  }

  lemma ImpliesEffects(t: Taxonomy, d: Draw)
    requires d.change.Implies? && ApplyOne(t, d).Done?
    ensures Effects(t, d.change, ApplyOne(t, d).next)
  {
    StepShape(t, d);
  }

  lemma ScopeEffects(t: Taxonomy, d: Draw)
    requires d.change.Scope? && ApplyOne(t, d).Done?
    ensures Effects(t, d.change, ApplyOne(t, d).next)
  {
    StepShape(t, d);
  }

  /**
   * Every change does to the items there were what the table says, and nothing else: words, parents, implied
   * functions, scope, retirement, and no order but a moved shelf's, which comes last under its new parent.
   */
  lemma ChangeDoes(t: Taxonomy, d: Draw)
    requires ApplyOne(t, d).Done?
    ensures Effects(t, d.change, ApplyOne(t, d).next)
  {
    match d.change
    case Move(_, _) => MoveEffects(t, d);
    case Describe(_, _, _) => DescribeEffects(t, d);
    case Rename(_, _, _, _) => RenameEffects(t, d);
    case Implies(_, _) => ImpliesEffects(t, d);
    case Scope(_) => ScopeEffects(t, d);
    case _ => WordsEffects(t, d);
  }
}
