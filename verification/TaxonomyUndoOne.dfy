/**
 The undo theorem for one change: under a usable taxonomy every change that applies can be undone.
 Its undo is applied here step by step, and what it makes is usable because what is live is as it was.
 */
module TaxonomyUndoOne {
  import opened Basics
  import opened Taxonomies
  import opened TaxonomyChanges
  import opened TaxonomySteps
  import opened TaxonomyForwarding
  import opened TaxonomyUndo
  import opened TaxonomyUndoBatch
  import opened TaxonomyLinks

  // ---------------------------------------------------------------------- what makes it usable again

  /** `t` before a change, `n` after it, and `u` after its undo, which has yet to be found usable. */
  ghost predicate Back(t: Taxonomy, n: Taxonomy, u: Taxonomy, moved: set<Id>) {
    && Undone(t, u, moved)
    && Embeds(t, n) && Embeds(n, u)
    && (forall p :: Has(u, p) ==> Has(n, p))
    && (SameContent(n, u, {}) || forall p :: Has(n, p) ==> Has(t, p))
  }

  lemma BackUniqueIds(t: Taxonomy, n: Taxonomy, u: Taxonomy, moved: set<Id>)
    requires Valid(n) && Back(t, n, u, moved)
    ensures UniqueIds(u)
  {
  }

  lemma BackUniqueSlugs(t: Taxonomy, n: Taxonomy, u: Taxonomy, moved: set<Id>)
    requires Valid(t) && Valid(n) && Back(t, n, u, moved)
    ensures UniqueSlugs(u)
    ensures forall i :: 0 <= i < |u.shelves| ==> u.shelves[i].item.slug != NONE_SHELF
  {
    forall p, q | Has(u, p) && Has(u, q) && p != q && KindOf(p) == KindOf(q)
      ensures At(u, p).slug != At(u, q).slug
    {
      if SameContent(n, u, {}) {
        assert SameWords(At(n, p), At(u, p), {}) && SameWords(At(n, q), At(u, q), {});
      } else {
        assert SameWords(At(t, p), At(u, p), moved) && SameWords(At(t, q), At(u, q), moved);
      }
    }
    forall i | 0 <= i < |u.shelves|
      ensures u.shelves[i].item.slug != NONE_SHELF
    {
      assert Has(u, AtShelf(i));
      if SameContent(n, u, {}) {
        assert SameWords(At(n, AtShelf(i)), At(u, AtShelf(i)), {});
      } else {
        assert SameWords(At(t, AtShelf(i)), At(u, AtShelf(i)), moved);
      }
    }
  }

  lemma BackUniqueNames(t: Taxonomy, u: Taxonomy, moved: set<Id>)
    requires Valid(t) && Undone(t, u, moved)
    ensures UniqueNames(u)
  {
    forall p, q | Has(u, p) && Has(u, q) && p != q && Live(At(u, p)) && Live(At(u, q)) && Siblings(u, p, q)
      ensures At(u, p).name.key != At(u, q).name.key
    {
      assert SameWords(At(t, p), At(u, p), moved) && SameWords(At(t, q), At(u, q), moved);
      assert Siblings(t, p, q);
    }
  }

  lemma StampsFitStep(t: Taxonomy, d: Draw)
    requires ApplyOne(t, d).Done? && StampsFit(t)
    ensures StampsFit(ApplyOne(t, d).next)
  {
    StepShape(t, d);
    var u := ApplyOne(t, d).next;
    forall p | Has(u, p) && At(u, p).retiredIn.Some?
      ensures At(u, p).retiredIn.value <= u.version
    {
      assert Has(t, p) && Stamp(u, p) == NewStamp(t, d.change, p);
    }
  }

  /** What an undo's change adds to the migrations. */
  lemma AddedMigration(t: Taxonomy, d: Draw)
    requires ApplyOne(t, d).Done? && Undoing(d)
    ensures
      var u := ApplyOne(t, d).next;
      match d.change
      case Rename(subject, ref, _, _) =>
        var id := At(t, LiveItem(t, subject, ref).value).id;
        u.migrations == t.migrations + [Migration(t.version, Renamed, subject, id, ToOne(id))]
      case Move(ref, _) =>
        var id := At(t, LiveItem(t, ShelfSubject, ref).value).id;
        u.migrations == t.migrations + [Migration(t.version, Moved, ShelfSubject, id, ToOne(id))]
      case Retire(subject, ref) =>
        var id := At(t, LiveItem(t, subject, ref).value).id;
        u.migrations == t.migrations + [Migration(t.version, Retired, subject, id, ToNothing)]
      case Restore(subject, ref) =>
        var id := At(t, Find(t, subject, ref).value).id;
        u.migrations == t.migrations + [Migration(t.version, Restored, subject, id, ToOne(id))]
      case _ => u.migrations == t.migrations
  {
  }

  lemma NewMigrationFits(t: Taxonomy, d: Draw)
    requires ApplyOne(t, d).Done? && Undoing(d) && UniqueIds(ApplyOne(t, d).next)
    ensures
      var u := ApplyOne(t, d).next;
      || u.migrations == t.migrations
      || exists m :: u.migrations == t.migrations + [m] && m.version == u.version && MigrationFits(u, m)
  {
    var u := ApplyOne(t, d).next;
    StepShape(t, d);
    AddedMigration(t, d);
    match d.change
    case Rename(subject, ref, _, _) => OwnMigrationFits(t, u, LiveItem(t, subject, ref).value);
    case Move(ref, _) => OwnMigrationFits(t, u, LiveItem(t, ShelfSubject, ref).value);
    case Retire(subject, ref) => OwnMigrationFits(t, u, LiveItem(t, subject, ref).value);
    case Restore(subject, ref) => OwnMigrationFits(t, u, Find(t, subject, ref).value);
    case _ =>
  }

  /** A migration that is about one item alone. */
  lemma OwnMigrationFits(t: Taxonomy, u: Taxonomy, p: Pos)
    requires Embeds(t, u) && UniqueIds(u) && Has(t, p) && t.version == u.version
    ensures MigrationFits(u, Migration(t.version, Retired, KindOf(p), At(t, p).id, ToNothing))
    ensures forall kind :: kind == Renamed || kind == Moved || kind == Restored ==>
      MigrationFits(u, Migration(t.version, kind, KindOf(p), At(t, p).id, ToOne(At(t, p).id)))
  {
    FindAt(u, p);
  }

  lemma MigrationsFitStep(t: Taxonomy, d: Draw)
    requires ApplyOne(t, d).Done? && Undoing(d) && UniqueIds(ApplyOne(t, d).next) && MigrationsFit(t)
    ensures MigrationsFit(ApplyOne(t, d).next)
  {
    var u := ApplyOne(t, d).next;
    NewMigrationFits(t, d);
    StepShape(t, d);
    forall k | 0 <= k < |t.migrations|
      ensures MigrationFits(u, t.migrations[k])
    {
      MigrationStillFits(t, u, t.migrations[k]);
    }
  }

  lemma MigrationStillFits(t: Taxonomy, u: Taxonomy, m: Migration)
    requires MigrationFits(t, m) && Embeds(t, u) && UniqueIds(u) && t.version <= u.version
    ensures MigrationFits(u, m)
  {
    FindKept(t, u, m.subject, m.from);
    match m.to
    case ToNothing =>
    case ToOne(id) => FindKept(t, u, m.subject, id);
    case ToMany(ids) =>
      forall k | 0 <= k < |ids| {
        FindKept(t, u, ShelfSubject, ids[k]);
      }
  }

  lemma {:induction false} FitsAll(t: Taxonomy, draws: seq<Draw>)
    requires ApplyAll(t, draws).BatchDone? && UniqueIds(ApplyAll(t, draws).next)
    requires forall k :: 0 <= k < |draws| ==> Undoing(draws[k])
    requires StampsFit(t) && MigrationsFit(t)
    ensures StampsFit(ApplyAll(t, draws).next) && MigrationsFit(ApplyAll(t, draws).next)
    decreases |draws|
  {
    if draws != [] {
      var next := ApplyOne(t, draws[0]).next;
      EmbedsAll(next, draws[1..]);
      EmbedsKeepsUnique(next, ApplyAll(next, draws[1..]).next);
      StampsFitStep(t, draws[0]);
      MigrationsFitStep(t, draws[0]);
      FitsAll(next, draws[1..]);
    }
  }

  /** An item no migration is about has nothing said of it. */
  lemma {:induction false} NeverSaid(migrations: seq<Migration>, id: Id)
    requires forall k :: 0 <= k < |migrations| ==> migrations[k].from != id
    ensures LastSaid(migrations, id) == None
  {
    if migrations != [] {
      NeverSaid(migrations[..|migrations| - 1], id);
    }
  }

  /** A change that applied under a usable taxonomy, what it made, and its undo applied to that. */
  ghost predicate UndoApplied(t: Taxonomy, d: Draw) {
    && Valid(t) && NoOrphans(t)
    && ApplyOne(NewVersion(t), d).Done?
    && Valid(ApplyOne(NewVersion(t), d).next)
    && ApplyAll(NewVersion(ApplyOne(NewVersion(t), d).next), UndoOf(ApplyOne(NewVersion(t), d).applied)).BatchDone?
  }

  /** What the undo made of it. */
  ghost function After(t: Taxonomy, d: Draw): Taxonomy
    requires UndoApplied(t, d)
  {
    ApplyAll(NewVersion(ApplyOne(NewVersion(t), d).next), UndoOf(ApplyOne(NewVersion(t), d).applied)).next
  }

  lemma NewVersionPlaces(t: Taxonomy)
    ensures Embeds(t, NewVersion(t)) && Embeds(NewVersion(t), t)
  {
  }

  lemma EmbedsOn(t: Taxonomy, m: Taxonomy, n: Taxonomy)
    requires Embeds(t, m) && Embeds(m, n)
    ensures Embeds(t, n)
  {
  }

  /** An undo makes no place. */
  lemma UndoPlaces(n: Taxonomy, a: Applied)
    requires ApplyAll(NewVersion(n), UndoOf(a)).BatchDone?
    ensures
      var u := ApplyAll(NewVersion(n), UndoOf(a)).next;
      Embeds(n, u) && u.version == n.version + 1 && forall p :: Has(u, p) ==> Has(n, p)
  {
    var m := NewVersion(n);
    NewVersionPlaces(n);
    EmbedsAll(m, UndoOf(a));
    EmbedsOn(n, m, ApplyAll(m, UndoOf(a)).next);
    forall p | Has(ApplyAll(m, UndoOf(a)).next, p)
      ensures Has(n, p)
    {
      NothingMade(m, UndoOf(a), p);
    }
  }

  lemma AfterPlaces(t: Taxonomy, d: Draw)
    requires UndoApplied(t, d)
    ensures
      var n, u := ApplyOne(NewVersion(t), d).next, After(t, d);
      && Embeds(t, n) && Embeds(n, u) && UniqueIds(u)
      && (forall p :: Has(u, p) ==> Has(n, p))
      && n.version == t.version + 1 && u.version == t.version + 2
  {
    var Done(n, a) := ApplyOne(NewVersion(t), d);
    StepShape(NewVersion(t), d);
    NewVersionPlaces(t);
    EmbedsOn(t, NewVersion(t), n);
    UndoPlaces(n, a);
    EmbedsKeepsUnique(n, After(t, d));
  }

  /** What the migrations last say of an item fits how the undo left it. */
  lemma BackSaid(t: Taxonomy, d: Draw, p: Pos, moved: set<Id>)
    requires UndoApplied(t, d) && Has(After(t, d), p)
    requires Undone(t, After(t, d), moved)
    ensures
      var said := LastSaid(After(t, d).migrations, At(After(t, d), p).id);
      said.Some? ==> said.value == !Live(At(After(t, d), p))
  {
    var Done(n, a) := ApplyOne(NewVersion(t), d);
    var u := After(t, d);
    AfterPlaces(t, d);
    var id := At(u, p).id;
    assert At(n, p).id == id;
    ApplyResolves(NewVersion(t), d);
    UndoOfSays(NewVersion(n), a, id);
    AllSaid(NewVersion(n), UndoOf(a), id);
    StepShape(NewVersion(t), d);
    StepSaid(NewVersion(t), n, a, id);
    if Has(t, p) {
      assert Has(NewVersion(t), p);
      UndoneSaysWas(NewVersion(t), d, p);
    } else {
      assert !Has(NewVersion(t), p);
      NamesSomethingThere(NewVersion(t), d, id);
      assert SaysOf(a, id) == None;
      NewIdNeverSaid(t, n, p);
    }
  }

  lemma NewIdNeverSaid(t: Taxonomy, n: Taxonomy, p: Pos)
    requires MigrationsFit(t) && UniqueIds(n) && Embeds(t, n) && Has(n, p) && !Has(t, p)
    ensures LastSaid(t.migrations, At(n, p).id) == None
  {
    forall k | 0 <= k < |t.migrations|
      ensures t.migrations[k].from != At(n, p).id
    {
      assert MigrationFits(t, t.migrations[k]);
      var q := Find(t, t.migrations[k].subject, ById(t.migrations[k].from)).value;
      assert At(n, q).id == t.migrations[k].from;
    }
    NeverSaid(t.migrations, At(n, p).id);
  }

  /** If the undo of a change applies and gives back what was live, what it makes is usable. */
  lemma BackValid(t: Taxonomy, d: Draw, moved: set<Id>)
    requires UndoApplied(t, d)
    requires Back(t, ApplyOne(NewVersion(t), d).next, After(t, d), moved)
    requires forall k :: 0 <= k < |UndoOf(ApplyOne(NewVersion(t), d).applied)| ==>
      Undoing(UndoOf(ApplyOne(NewVersion(t), d).applied)[k])
    ensures Valid(After(t, d))
  {
    var Done(n, a) := ApplyOne(NewVersion(t), d);
    var u := After(t, d);
    BackUniqueIds(t, n, u, moved);
    BackUniqueSlugs(t, n, u, moved);
    BackUniqueNames(t, u, moved);
    ValidLinks(n);
    LinksThereAll(NewVersion(n), UndoOf(a));
    ShelvesBack(t, u, moved);
    forall i | 0 <= i < |u.features|
      ensures FeatureFits(u, u.features[i])
    {
      FeatureLive(t, u, moved, i);
    }
    forall p | Has(u, p)
      ensures
        var said := LastSaid(u.migrations, At(u, p).id);
        said.Some? ==> said.value == !Live(At(u, p))
    {
      BackSaid(t, d, p, moved);
    }
    NewVersionFits(n);
    FitsAll(NewVersion(n), UndoOf(a));
  }

  lemma NewVersionFits(n: Taxonomy)
    requires StampsFit(n) && MigrationsFit(n)
    ensures StampsFit(NewVersion(n)) && MigrationsFit(NewVersion(n))
  {
    FindNewVersion(n);
    forall k | 0 <= k < |n.migrations|
      ensures MigrationFits(NewVersion(n), n.migrations[k])
    {
      assert MigrationFits(n, n.migrations[k]);
    }
    assert forall p :: Has(NewVersion(n), p) ==> Has(n, p);
  }

  // ---------------------------------------------------------------------- the undo applies

  /** `m` holds what `s` does and perhaps more, retired as a change to `s` has it. */
  ghost predicate Results(s: Taxonomy, c: Change, m: Taxonomy) {
    && UniqueIds(s) && UniqueIds(m) && Embeds(s, m) && StampsMoved(s, c, m)
  }

  /** Every shelf's parent and implied functions fit. */
  ghost predicate LinksFit(t: Taxonomy) {
    && (forall i :: 0 <= i < |t.shelves| ==> ParentFits(t, t.shelves[i]))
    && (forall i :: 0 <= i < |t.shelves| ==> ImpliesFit(t, t.shelves[i]))
  }

  lemma ShelvesFitNewVersion(t: Taxonomy)
    requires ShelvesFit(t) && FeaturesFit(t)
    ensures ShelvesFit(NewVersion(t)) && FeaturesFit(NewVersion(t))
  {
    FindNewVersion(t);
    var u := NewVersion(t);
    forall i | 0 <= i < |u.shelves|
      ensures ParentFits(u, u.shelves[i]) && ImpliesFit(u, u.shelves[i])
    {
      assert ParentFits(t, t.shelves[i]) && ImpliesFit(t, t.shelves[i]);
    }
    forall i | 0 <= i < |u.features|
      ensures FeatureFits(u, u.features[i])
    {
      assert FeatureFits(t, t.features[i]);
    }
  }

  /** A taxonomy is as usable a version later, and then everything retired was retired before. */
  lemma ValidNewVersion(t: Taxonomy)
    requires Valid(t)
    ensures Valid(NewVersion(t))
    ensures forall p :: Has(NewVersion(t), p) && Stamp(NewVersion(t), p).Some? ==>
      Stamp(NewVersion(t), p).value < NewVersion(t).version
  {
    NewVersionFits(t);
    ShelvesFitNewVersion(t);
    var u := NewVersion(t);
    assert forall p :: Has(u, p) ==> Has(t, p) && At(u, p) == At(t, p);
    assert forall p, q :: Has(u, p) && Has(u, q) ==> Siblings(u, p, q) == Siblings(t, p, q);
  }

  lemma ResultsOf(s: Taxonomy, d: Draw, n: Taxonomy)
    requires ApplyOne(s, d).Done? && ApplyOne(s, d).next == n && UniqueIds(n)
    ensures Results(s, d.change, NewVersion(n))
    ensures forall p :: Has(NewVersion(n), p) && !Has(s, p) ==> Live(At(NewVersion(n), p))
  {
    StepShape(s, d);
    EmbedsKeepsUnique(s, n);
    assert forall p :: Has(NewVersion(n), p) <==> Has(n, p);
    assert forall p :: Has(n, p) ==> At(NewVersion(n), p) == At(n, p);
  }

  lemma LiveAt(t: Taxonomy, p: Pos)
    requires UniqueIds(t) && Has(t, p) && Live(At(t, p))
    ensures LiveItem(t, KindOf(p), ById(At(t, p).id)) == Some(p)
  {
    FindAt(t, p);
  }

  /** An item that was live, and that the change isn't about, is found live after it. */
  lemma StillLive(s: Taxonomy, c: Change, m: Taxonomy, p: Pos)
    requires Results(s, c, m) && Has(s, p) && Live(At(s, p)) && !p.AtValue? && Target(s, c) != Some(p)
    ensures LiveItem(m, KindOf(p), ById(At(s, p).id)) == Some(p)
  {
    assert Stamp(m, p) == NewStamp(s, c, p);
    LiveAt(m, p);
  }

  lemma ItemUndoApplies(s: Taxonomy, d: Draw, m: Taxonomy, back: Draw)
    requires (d.change.Describe? || d.change.Rename?) && ApplyOne(s, d).Done? && Results(s, d.change, m)
    requires |UndoOf(ApplyOne(s, d).applied)| == 1 && back == UndoOf(ApplyOne(s, d).applied)[0]
    ensures ApplyOne(m, back).Done?
  {
    var p := LiveItem(s, d.change.subject, d.change.item).value;
    assert Stamp(m, p) == NewStamp(s, d.change, p);
    LiveAt(m, p);
  }

  lemma {:induction false} LiveIdsFound(t: Taxonomy, ids: seq<Id>)
    requires forall k :: 0 <= k < |ids| ==> LiveItem(t, FunctionSubject, ById(ids[k])).Some?
    ensures LiveIds(t, FunctionSubject, ByIds(ids)).Some?
    decreases |ids|
  {
    if ids != [] {
      LiveIdsFound(t, ids[1..]);
      assert ByIds(ids)[1..] == ByIds(ids[1..]);
    }
  }

  lemma ImpliesUndoApplies(s: Taxonomy, d: Draw, m: Taxonomy, back: Draw)
    requires d.change.Implies? && ApplyOne(s, d).Done? && Results(s, d.change, m) && LinksFit(s)
    requires |UndoOf(ApplyOne(s, d).applied)| == 1 && back == UndoOf(ApplyOne(s, d).applied)[0]
    ensures ApplyOne(m, back).Done?
  {
    var p := LiveItem(s, ShelfSubject, d.change.item).value;
    StillLive(s, d.change, m, p);
    var was := s.shelves[p.i].implies;
    assert ImpliesFit(s, s.shelves[p.i]);
    forall k | 0 <= k < |was|
      ensures LiveItem(m, FunctionSubject, ById(was[k])).Some?
    {
      StillLive(s, d.change, m, Find(s, FunctionSubject, ById(was[k])).value);
    }
    LiveIdsFound(m, was);
  }

  /** A live shelf's category is found live after a change that isn't about it. */
  lemma ParentStillLive(s: Taxonomy, c: Change, m: Taxonomy, i: nat)
    requires Results(s, c, m) && LinksFit(s) && i < |s.shelves| && s.shelves[i].parentId.Some?
    requires Live(s.shelves[i].item) && (Target(s, c) == None || Target(s, c) == Some(AtShelf(i)))
    ensures
      var parentId := s.shelves[i].parentId.value;
      && Find(s, ShelfSubject, ById(parentId)).Some?
      && Find(s, ShelfSubject, ById(parentId)) != Some(AtShelf(i))
      && LiveItem(m, ShelfSubject, ById(parentId)) == Find(s, ShelfSubject, ById(parentId))
  {
    assert ParentFits(s, s.shelves[i]);
    StillLive(s, c, m, Find(s, ShelfSubject, ById(s.shelves[i].parentId.value)).value);
  }

  lemma MoveUndoApplies(s: Taxonomy, d: Draw, m: Taxonomy, back: Draw, moved: set<Id>)
    requires d.change.Move? && ApplyOne(s, d).Done? && Results(s, d.change, m) && LinksFit(s)
    requires SameContent(ApplyOne(s, d).next, m, moved)
    requires |UndoOf(ApplyOne(s, d).applied)| == 1 && back == UndoOf(ApplyOne(s, d).applied)[0]
    ensures ApplyOne(m, back).Done?
  {
    var p := LiveItem(s, ShelfSubject, d.change.item).value;
    StillLive(s, d.change, m, p);
    ParentStillLive(s, d.change, m, p.i);
    assert ParentFits(s, s.shelves[p.i]);
    assert Has(m, p);
    var q := Find(s, ShelfSubject, ById(s.shelves[p.i].parentId.value)).value;
    assert Has(m, q);
  }

  /** What a merge or a retirement took away may come back. */
  lemma RestoreApplies(s: Taxonomy, c: Change, m: Taxonomy, p: Pos, moved: set<Id>)
    requires Results(s, c, m) && LinksFit(s) && NoOrphans(s) && SameContent(s, m, moved)
    requires (c.Merge? || c.Retire?) && Target(s, c) == Some(p)
    ensures Find(m, KindOf(p), ById(At(s, p).id)) == Some(p) && !Live(At(m, p)) && MayRestore(m, p)
  {
    assert Stamp(m, p) == NewStamp(s, c, p);
    FindAt(m, p);
    match p {
      case AtShelf(i) =>
        if s.shelves[i].parentId.Some? {
          ParentStillLive(s, c, m, i);
        }
      case AtValue(i, j) =>
        assert Has(s, AtFeature(i)) && Stamp(m, AtFeature(i)) == NewStamp(s, c, AtFeature(i));
      case _ =>
    }
  }

  lemma {:induction false} TwoLiveValues(values: seq<Item>, j: nat, k: nat)
    requires j < k < |values| && Live(values[j]) && Live(values[k])
    ensures LiveValues(values) >= 2
  {
    if k < |values| - 1 {
      TwoLiveValues(values[..|values| - 1], j, k);
    } else {
      assert values[..|values| - 1][j] == values[j];
    }
  }

  /** A feature with another live value may lose one. */
  lemma ValueMayRetire(m: Taxonomy, i: nat, j: nat, k: nat)
    requires UniqueIds(m) && Has(m, AtValue(i, j)) && Has(m, AtValue(i, k)) && j != k
    requires Live(At(m, AtValue(i, j))) && Live(At(m, AtValue(i, k)))
    ensures MayRetire(m, AtValue(i, j))
  {
    FindAt(m, AtValue(i, j));
    TwoLiveValues(m.features[i].values, if j < k then j else k, if j < k then k else j);
  }

  /** Nothing else had the ID an item has. */
  lemma OnlyHolder(s: Taxonomy, m: Taxonomy, p: Pos)
    requires Embeds(s, m) && UniqueIds(m) && Has(m, p)
    ensures
      var found := Find(s, KindOf(p), ById(At(m, p).id));
      found.Some? ==> found.value == p
  {
    forall q | Has(s, q) && q != p
      ensures At(s, q).id != At(m, p).id
    {
      assert At(m, q).id == At(s, q).id;
    }
  }

  /** A shelf that is new, or that was retired, has no subcategories but new ones under others. */
  lemma ShelfMayRetire(s: Taxonomy, c: Change, m: Taxonomy, p: Pos, moved: set<Id>)
    requires Results(s, c, m) && LinksFit(s) && SameContent(s, m, moved)
    requires c.Restore? ==> Target(s, c) == Some(p)
    requires !c.Restore? ==> Target(s, c) == None
    requires Has(m, p) && p.AtShelf? && (Has(s, p) ==> !Live(At(s, p)))
    requires forall i: nat :: Has(m, AtShelf(i)) && !Has(s, AtShelf(i)) ==>
      !Live(m.shelves[i].item) || m.shelves[i].parentId != Some(At(m, p).id)
    ensures !HasSubcategories(m, At(m, p).id)
  {
    OnlyHolder(s, m, p);
    forall i | 0 <= i < |m.shelves| && m.shelves[i].parentId == Some(At(m, p).id)
      ensures !Live(m.shelves[i].item)
    {
      assert Has(m, AtShelf(i));
      if Has(s, AtShelf(i)) {
        assert ParentFits(s, s.shelves[i]);
        assert Stamp(m, AtShelf(i)) == NewStamp(s, c, AtShelf(i));
      }
    }
  }

  /** A function that is new, or that was retired, is implied by no live shelf. */
  lemma FunctionMayRetire(s: Taxonomy, c: Change, m: Taxonomy, p: Pos, moved: set<Id>)
    requires Results(s, c, m) && LinksFit(s) && SameContent(s, m, moved)
    requires forall i: nat :: Has(m, AtShelf(i)) && !Has(s, AtShelf(i)) ==> !Live(m.shelves[i].item)
    requires c.Restore? ==> Target(s, c) == Some(p)
    requires !c.Restore? ==> Target(s, c) == None
    requires Has(m, p) && p.AtFunction? && (Has(s, p) ==> !Live(At(s, p)))
    ensures !Implied(m, At(m, p).id)
  {
    OnlyHolder(s, m, p);
    forall i | 0 <= i < |m.shelves| && At(m, p).id in m.shelves[i].implies
      ensures !Live(m.shelves[i].item)
    {
      assert Has(m, AtShelf(i));
      if Has(s, AtShelf(i)) {
        assert ImpliesFit(s, s.shelves[i]);
        assert Stamp(m, AtShelf(i)) == NewStamp(s, c, AtShelf(i));
      }
    }
  }

  lemma RetireApplies(m: Taxonomy, p: Pos, back: Draw)
    requires UniqueIds(m) && Has(m, p) && Live(At(m, p)) && MayRetire(m, p)
    requires back.change == Retire(KindOf(p), ById(At(m, p).id))
    ensures ApplyOne(m, back).Done? && Target(m, back.change) == Some(p)
  {
    LiveAt(m, p);
  }

  // ---------------------------------------------------------------------- the undo gives back what was live

  /** Every item of `s` is live in `u` exactly if it is in `s`. */
  ghost predicate LiveAgain(s: Taxonomy, u: Taxonomy) {
    forall p :: Has(s, p) ==> Has(u, p) && Live(At(u, p)) == Live(At(s, p))
  }

  ghost predicate StampedBefore(s: Taxonomy) {
    forall p :: Has(s, p) && Stamp(s, p).Some? ==> Stamp(s, p).value < s.version
  }

  lemma LiveAgainBySwitch(s: Taxonomy, c: Change, m: Taxonomy, back: Change, u: Taxonomy, p: Pos)
    requires Results(s, c, m) && StampsMoved(m, back, u) && NoOrphans(s) && StampedBefore(s)
    requires Target(s, c) == Some(p) && Target(m, back) == Some(p)
    requires c.Restore? == !back.Restore? && Live(At(s, p)) == !c.Restore?
    ensures LiveAgain(s, u)
  {
    forall q | Has(s, q)
      ensures Has(u, q) && Live(At(u, q)) == Live(At(s, q))
    {
      assert Stamp(m, p) == NewStamp(s, c, p);
      assert Stamp(m, q) == NewStamp(s, c, q);
      assert Stamp(u, q) == NewStamp(m, back, q);
    }
  }

  lemma LiveAgainByText(s: Taxonomy, c: Change, m: Taxonomy, back: Change, u: Taxonomy)
    requires Results(s, c, m) && StampsMoved(m, back, u)
    requires Target(s, c) == None
    requires Target(m, back).Some? ==> !Has(s, Target(m, back).value)
    ensures LiveAgain(s, u)
  {
    forall q | Has(s, q)
      ensures Has(u, q) && Live(At(u, q)) == Live(At(s, q))
    {
      assert Stamp(m, q) == NewStamp(s, c, q);
      assert Stamp(u, q) == NewStamp(m, back, q);
    }
  }

  /** What a batch's undo gives back, short of the words. */
  ghost predicate LiveOnly(s: Taxonomy, u: Taxonomy) {
    && LiveAgain(s, u)
    && forall p :: Has(u, p) && !Has(s, p) ==> !Live(At(u, p))
  }

  /** Nothing new is left live when the one new item, or the one new feature, is retired. */
  lemma NewRetired(s: Taxonomy, m: Taxonomy, back: Draw, p: Pos)
    requires ApplyOne(m, back).Done? && back.change.Retire? && back.ids == [] && Target(m, back.change) == Some(p)
    requires !Has(s, p)
    requires forall q :: Has(m, q) && !Has(s, q) ==> q == p || (p.AtFeature? && q.AtValue? && q.i == p.i)
    ensures forall q :: Has(ApplyOne(m, back).next, q) && !Has(s, q) ==> !Live(At(ApplyOne(m, back).next, q))
  {
    var u := ApplyOne(m, back).next;
    StepShape(m, back);
    forall q | Has(u, q) && !Has(s, q)
      ensures !Live(At(u, q))
    {
      assert Has(m, q) && Stamp(u, q) == NewStamp(m, back.change, q);
    }
  }

  /** The shelves from a place on have these IDs, are live and have no subcategories. */
  ghost predicate Retirable(m: Taxonomy, ids: seq<Id>, base: nat) {
    && UniqueIds(m)
    && base + |ids| <= |m.shelves|
    && forall i :: base <= i < base + |ids| ==>
         && m.shelves[i].item.id == ids[i - base]
         && Live(m.shelves[i].item)
         && !HasSubcategories(m, m.shelves[i].item.id)
  }

  /** The shelves between two places are retired, and every other item is as it was. */
  ghost predicate OnlyShelvesRetired(m: Taxonomy, u: Taxonomy, from: nat, to: nat) {
    forall p :: Has(m, p) ==>
      (Has(u, p) && Stamp(u, p) == if p.AtShelf? && from <= p.i < to then Some(m.version) else Stamp(m, p))
  }

  /** Retiring new shelves one after another. */
  lemma {:induction false} RetireEachApplies(m: Taxonomy, ids: seq<Id>, base: nat, draws: seq<Draw>)
    requires Retirable(m, ids, base) && |draws| == |ids|
    requires forall k :: 0 <= k < |ids| ==> draws[k].change == Retire(ShelfSubject, ById(ids[k])) && draws[k].ids == []
    ensures ApplyAll(m, draws).BatchDone?
    ensures OnlyShelvesRetired(m, ApplyAll(m, draws).next, base, base + |ids|)
    decreases |draws|
  {
    if draws != [] {
      var p := AtShelf(base);
      assert At(m, p).id == ids[0];
      RetireApplies(m, p, draws[0]);
      var next := ApplyOne(m, draws[0]).next;
      RetireOneShelf(m, base, draws[0]);
      RetireEachApplies(next, ids[1..], base + 1, draws[1..]);
      RetiredThenRetired(m, next, ApplyAll(m, draws).next, base, base + |ids|);
    }
  }

  lemma RetiredThenRetired(m: Taxonomy, next: Taxonomy, u: Taxonomy, base: nat, to: nat)
    requires base < to && base < |m.shelves| && next.version == m.version
    requires forall p :: Has(m, p) ==>
      Has(next, p) && Stamp(next, p) == if p == AtShelf(base) then Some(m.version) else Stamp(m, p)
    requires OnlyShelvesRetired(next, u, base + 1, to)
    ensures OnlyShelvesRetired(m, u, base, to)
  {
  }

  lemma RetireOneShelf(m: Taxonomy, i: nat, d: Draw)
    requires UniqueIds(m) && i < |m.shelves| && ApplyOne(m, d).Done? && d.ids == []
    requires d.change.Retire? && Target(m, d.change) == Some(AtShelf(i))
    ensures
      var next := ApplyOne(m, d).next;
      && UniqueIds(next) && |next.shelves| == |m.shelves| && next.version == m.version
      && (forall k :: 0 <= k < |m.shelves| ==> next.shelves[k].item.id == m.shelves[k].item.id)
      && (forall k :: 0 <= k < |m.shelves| && k != i ==> next.shelves[k] == m.shelves[k])
      && (forall p :: Has(m, p) ==> Has(next, p) && Stamp(next, p) == if p == AtShelf(i) then Some(m.version) else Stamp(m, p))
      && (forall id :: HasSubcategories(next, id) ==> HasSubcategories(m, id))
  {
    StepShape(m, d);
    var next := ApplyOne(m, d).next;
    assert next.shelves == m.shelves[i := m.shelves[i].(item := m.shelves[i].item.(retiredIn := Some(m.version)))];
    forall p, q | Has(next, p) && Has(next, q) && p != q
      ensures At(next, p).id != At(next, q).id
    {
      assert Has(m, p) && Has(m, q);
    }
  }

  // ---------------------------------------------------------------------- each kind undone

  /** A change that applied to the version a usable taxonomy became, and made a usable one. */
  ghost predicate Starts(s: Taxonomy, d: Draw) {
    && Valid(s) && NoOrphans(s) && StampedBefore(s)
    && ApplyOne(s, d).Done? && Valid(ApplyOne(s, d).next)
  }

  function Undoers(s: Taxonomy, d: Draw): seq<Draw>
    requires ApplyOne(s, d).Done?
  {
    UndoOf(ApplyOne(s, d).applied)
  }

  /** The undo applies, and what is live after it is what was. */
  ghost predicate BackLive(s: Taxonomy, d: Draw)
    requires ApplyOne(s, d).Done?
  {
    && ApplyAll(NewVersion(ApplyOne(s, d).next), Undoers(s, d)).BatchDone?
    && LiveOnly(s, ApplyAll(NewVersion(ApplyOne(s, d).next), Undoers(s, d)).next)
  }

  /** An undo of one change. */
  lemma OneBackLive(s: Taxonomy, d: Draw, back: Draw)
    requires ApplyOne(s, d).Done? && |Undoers(s, d)| == 1 && back == Undoers(s, d)[0]
    requires ApplyOne(NewVersion(ApplyOne(s, d).next), back).Done?
    requires LiveOnly(s, ApplyOne(NewVersion(ApplyOne(s, d).next), back).next)
    ensures BackLive(s, d)
  {
    var m := NewVersion(ApplyOne(s, d).next);
    var next := ApplyOne(m, back).next;
    assert ApplyAll(next, Undoers(s, d)[1..]) == BatchDone(next, []);
  }

  lemma NothingNew(s: Taxonomy, d: Draw, back: Draw)
    requires ApplyOne(s, d).Done? && d.ids == [] && back.ids == []
    requires ApplyOne(NewVersion(ApplyOne(s, d).next), back).Done?
    ensures forall p :: Has(ApplyOne(NewVersion(ApplyOne(s, d).next), back).next, p) ==> Has(s, p)
  {
    var n := ApplyOne(s, d).next;
    StepShape(s, d);
    StepShape(NewVersion(n), back);
    assert forall p :: Has(NewVersion(n), p) ==> Has(n, p);
  }

  lemma NewVersionSame(n: Taxonomy)
    ensures SameContent(n, NewVersion(n), {})
  {
    forall p | Has(n, p)
      ensures Has(NewVersion(n), p) && SameWords(At(n, p), At(NewVersion(n), p), {})
    {
    }
  }

  /** The undo of a text change applies to what has its results. */
  lemma TextUndoApplies(s: Taxonomy, d: Draw, m: Taxonomy, back: Draw, moved: set<Id>)
    requires !KeepsWords(d.change) && ApplyOne(s, d).Done? && Results(s, d.change, m) && LinksFit(s)
    requires SameContent(ApplyOne(s, d).next, m, moved)
    requires |UndoOf(ApplyOne(s, d).applied)| == 1 && back == UndoOf(ApplyOne(s, d).applied)[0]
    ensures ApplyOne(m, back).Done?
  {
    match d.change {
      case Describe(_, _, _) => ItemUndoApplies(s, d, m, back);
      case Rename(_, _, _, _) => ItemUndoApplies(s, d, m, back);
      case Implies(_, _) => ImpliesUndoApplies(s, d, m, back);
      case Move(_, _) => MoveUndoApplies(s, d, m, back, moved);
      case _ => ScopeUndoApplies(s, d, m, back);
    }
  }

  lemma ScopeUndoApplies(s: Taxonomy, d: Draw, m: Taxonomy, back: Draw)
    requires d.change.Scope? && ApplyOne(s, d).Done?
    requires |UndoOf(ApplyOne(s, d).applied)| == 1 && back == UndoOf(ApplyOne(s, d).applied)[0]
    ensures ApplyOne(m, back).Done?
  {
  }

  /** The undo of a text change applies to its own result, and makes nothing. */
  lemma TextUndoAppliesHere(s: Taxonomy, d: Draw, back: Draw)
    requires Starts(s, d) && !KeepsWords(d.change) && |Undoers(s, d)| == 1 && back == Undoers(s, d)[0]
    ensures ApplyOne(NewVersion(ApplyOne(s, d).next), back).Done? && d.ids == [] && back.ids == []
  {
    var n := ApplyOne(s, d).next;
    ResultsOf(s, d, n);
    NewVersionSame(n);
    TextUndoApplies(s, d, NewVersion(n), back, {});
    TextBackIsText(s, d, back);
  }

  /** What is live after a text change and its undo is what was. */
  lemma TextUndoLive(s: Taxonomy, d: Draw, back: Draw)
    requires Starts(s, d) && !KeepsWords(d.change) && |Undoers(s, d)| == 1 && back == Undoers(s, d)[0]
    requires ApplyOne(NewVersion(ApplyOne(s, d).next), back).Done?
    ensures LiveAgain(s, ApplyOne(NewVersion(ApplyOne(s, d).next), back).next)
  {
    var m := NewVersion(ApplyOne(s, d).next);
    ResultsOf(s, d, ApplyOne(s, d).next);
    TextBackIsText(s, d, back);
    StepShape(m, back);
    LiveAgainByText(s, d.change, m, back.change, ApplyOne(m, back).next);
  }

  lemma TextBackLive(s: Taxonomy, d: Draw)
    requires Starts(s, d) && !KeepsWords(d.change)
    ensures BackLive(s, d)
  {
    OneUndone(s, d);
    var back := Undoers(s, d)[0];
    TextUndoAppliesHere(s, d, back);
    TextUndoLive(s, d, back);
    NothingNew(s, d, back);
    OneBackLive(s, d, back);
  }

  lemma TextBackIsText(s: Taxonomy, d: Draw, back: Draw)
    requires ApplyOne(s, d).Done? && !KeepsWords(d.change) && |Undoers(s, d)| == 1 && back == Undoers(s, d)[0]
    ensures d.ids == [] && !KeepsWords(back.change)
  {
  }

  lemma GoneBackLive(s: Taxonomy, d: Draw)
    requires Starts(s, d) && (d.change.Merge? || d.change.Retire?)
    ensures BackLive(s, d)
  {
    var n := ApplyOne(s, d).next;
    var m := NewVersion(n);
    var p := Target(s, d.change).value;
    ResultsOf(s, d, n);
    ContentKept(s, d);
    SameContentNewVersion(s, n);
    RestoreApplies(s, d.change, m, p, {});
    UndoIsRestore(s, d, p);
    var back := Undoers(s, d)[0];
    RestoreGoes(m, p, back);
    StepShape(m, back);
    LiveAgainBySwitch(s, d.change, m, back.change, ApplyOne(m, back).next, p);
    NothingNew(s, d, back);
    OneBackLive(s, d, back);
  }

  lemma UndoIsRestore(s: Taxonomy, d: Draw, p: Pos)
    requires ApplyOne(s, d).Done? && (d.change.Merge? || d.change.Retire?) && Target(s, d.change) == Some(p)
    ensures |Undoers(s, d)| == 1 && Undoers(s, d)[0].change == Restore(KindOf(p), ById(At(s, p).id))
    ensures d.ids == []
  {
  }

  lemma RestoreGoes(m: Taxonomy, p: Pos, back: Draw)
    requires Has(m, p) && Find(m, KindOf(p), ById(At(m, p).id)) == Some(p) && !Live(At(m, p)) && MayRestore(m, p)
    requires back.change == Restore(KindOf(p), ById(At(m, p).id))
    ensures ApplyOne(m, back).Done? && Target(m, back.change) == Some(p)
  {
  }

  lemma SameContentNewVersion(s: Taxonomy, n: Taxonomy)
    requires SameContent(s, n, {})
    ensures SameContent(s, NewVersion(n), {})
  {
  }

  lemma RestoredBackLive(s: Taxonomy, d: Draw)
    requires Starts(s, d) && d.change.Restore?
    ensures BackLive(s, d)
  {
    var n := ApplyOne(s, d).next;
    var m := NewVersion(n);
    var p := Target(s, d.change).value;
    ResultsOf(s, d, n);
    ContentKept(s, d);
    SameContentNewVersion(s, n);
    NoneAdded(s, d, n);
    UndoIsRetire(s, d, p);
    var back := Undoers(s, d)[0];
    RestoredUndoApplies(s, d, m, p, back);
    StepShape(m, back);
    LiveAgainBySwitch(s, d.change, m, back.change, ApplyOne(m, back).next, p);
    NothingNew(s, d, back);
    OneBackLive(s, d, back);
  }

  lemma NoneAdded(s: Taxonomy, d: Draw, n: Taxonomy)
    requires ApplyOne(s, d).Done? && n == ApplyOne(s, d).next && d.ids == []
    ensures forall p :: Has(n, p) ==> Has(s, p)
    ensures forall p :: Has(NewVersion(n), p) ==> Has(s, p)
  {
    StepShape(s, d);
    assert forall p :: Has(NewVersion(n), p) ==> Has(n, p);
  }

  lemma UndoIsRetire(s: Taxonomy, d: Draw, p: Pos)
    requires ApplyOne(s, d).Done? && d.change.Restore? && Target(s, d.change) == Some(p)
    ensures |Undoers(s, d)| == 1 && Undoers(s, d)[0].change == Retire(KindOf(p), ById(At(s, p).id))
    ensures d.ids == []
  {
  }

  /** The undo of a restore applies to what has its results, and no shelf more. */
  lemma RestoredUndoApplies(s: Taxonomy, d: Draw, m: Taxonomy, p: Pos, back: Draw)
    requires LinksFit(s) && FeaturesFit(s) && ApplyOne(s, d).Done? && d.change.Restore? && Target(s, d.change) == Some(p)
    requires Results(s, d.change, m) && SameContent(s, m, {}) && forall q :: Has(m, q) ==> Has(s, q)
    requires back.change == Retire(KindOf(p), ById(At(s, p).id))
    ensures ApplyOne(m, back).Done? && Target(m, back.change) == Some(p)
  {
    assert Stamp(m, p) == NewStamp(s, d.change, p);
    RestoredMayRetire(s, d, m, p);
    RetireApplies(m, p, back);
  }

  /** What was restored may be retired again. */
  lemma RestoredMayRetire(s: Taxonomy, d: Draw, m: Taxonomy, p: Pos)
    requires LinksFit(s) && FeaturesFit(s) && ApplyOne(s, d).Done? && d.change.Restore? && Target(s, d.change) == Some(p)
    requires Results(s, d.change, m) && SameContent(s, m, {}) && forall i :: Has(m, AtShelf(i)) ==> Has(s, AtShelf(i))
    ensures MayRetire(m, p)
  {
    match p
    case AtShelf(_) => ShelfMayRetire(s, d.change, m, p, {});
    case AtFunction(_) => FunctionMayRetire(s, d.change, m, p, {});
    case AtFeature(_) =>
    case AtValue(i, j) => RestoredValueMayRetire(s, d, m, i, j);
  }

  lemma RestoredValueMayRetire(s: Taxonomy, d: Draw, m: Taxonomy, i: nat, j: nat)
    requires FeaturesFit(s) && ApplyOne(s, d).Done? && d.change.Restore? && Target(s, d.change) == Some(AtValue(i, j))
    requires Results(s, d.change, m)
    ensures Has(m, AtValue(i, j)) && MayRetire(m, AtValue(i, j))
  {
    var p := AtValue(i, j);
    FindAt(s, p);
    assert FeatureFits(s, s.features[i]);
    var k :| 0 <= k < |s.features[i].values| && Live(s.features[i].values[k]);
    assert Has(s, AtValue(i, k)) && Stamp(m, AtValue(i, k)) == NewStamp(s, d.change, AtValue(i, k));
    assert Stamp(m, p) == NewStamp(s, d.change, p);
    ValueMayRetire(m, i, j, k);
  }

  /** What adding one function, feature or value makes, and where. */
  lemma AddedPlace(s: Taxonomy, d: Draw) returns (p: Pos)
    requires ApplyOne(s, d).Done? && (d.change.AddFunction? || d.change.AddFeature? || d.change.AddValue?)
    ensures
      var n := ApplyOne(s, d).next;
      && Has(n, p) && !Has(s, p) && |n.shelves| == |s.shelves|
      && |Undoers(s, d)| == 1 && Undoers(s, d)[0].change == Retire(KindOf(p), ById(At(n, p).id))
      && (forall q :: Has(n, q) && !Has(s, q) ==> q == p || (p.AtFeature? && q.AtValue? && q.i == p.i))
      && (p.AtValue? ==> d.change.AddValue? && LiveItem(s, FeatureSubject, d.change.feature) == Some(AtFeature(p.i)))
  {
    match d.change
    case AddFunction(_) => p := AtFunction(|s.functions|);
    case AddFeature(_, _, _, _) => p := AtFeature(|s.features|);
    case AddValue(ref, _) =>
      var i := LiveItem(s, FeatureSubject, ref).value.i;
      p := AtValue(i, |s.features[i].values|);
  }

  /** What was just added may be retired. */
  lemma AddedMayRetire(s: Taxonomy, c: Change, m: Taxonomy, p: Pos, moved: set<Id>)
    requires LinksFit(s) && FeaturesFit(s) && Results(s, c, m) && SameContent(s, m, moved)
    requires forall i: nat :: Has(m, AtShelf(i)) && !Has(s, AtShelf(i)) ==> !Live(m.shelves[i].item)
    requires !c.Restore? && Target(s, c) == None && Has(m, p) && !Has(s, p) && Live(At(m, p)) && !p.AtShelf?
    requires p.AtValue? ==> Has(s, AtFeature(p.i)) && Live(At(s, AtFeature(p.i)))
    ensures MayRetire(m, p)
  {
    match p
    case AtFunction(_) => FunctionMayRetire(s, c, m, p, moved);
    case AtFeature(_) =>
    case AtValue(i, j) =>
      assert FeatureFits(s, s.features[i]);
      var k :| 0 <= k < |s.features[i].values| && Live(s.features[i].values[k]);
      assert Has(s, AtValue(i, k)) && Stamp(m, AtValue(i, k)) == NewStamp(s, c, AtValue(i, k));
      ValueMayRetire(m, i, j, k);
  }

  lemma AddedBackLive(s: Taxonomy, d: Draw)
    requires Starts(s, d) && (d.change.AddFunction? || d.change.AddFeature? || d.change.AddValue?)
    ensures BackLive(s, d)
  {
    var n := ApplyOne(s, d).next;
    var m := NewVersion(n);
    ResultsOf(s, d, n);
    ContentKept(s, d);
    SameContentNewVersion(s, n);
    var p := AddedPlace(s, d);
    NewVersionPlaces(n);
    assert Has(m, p) && At(m, p).id == At(n, p).id;
    AddedMayRetire(s, d.change, m, p, {});
    AddedRetires(s, d.change, m, p, Undoers(s, d)[0]);
    OneBackLive(s, d, Undoers(s, d)[0]);
  }

  /** Retiring what was added leaves live what was. */
  lemma AddedRetires(s: Taxonomy, c: Change, m: Taxonomy, p: Pos, back: Draw)
    requires Results(s, c, m) && Target(s, c) == None && Has(m, p) && !Has(s, p) && Live(At(m, p)) && MayRetire(m, p)
    requires back.change == Retire(KindOf(p), ById(At(m, p).id)) && back.ids == []
    requires forall q :: Has(m, q) && !Has(s, q) ==> q == p || (p.AtFeature? && q.AtValue? && q.i == p.i)
    ensures ApplyOne(m, back).Done? && LiveOnly(s, ApplyOne(m, back).next)
  {
    RetireApplies(m, p, back);
    StepShape(m, back);
    LiveAgainByText(s, c, m, back.change, ApplyOne(m, back).next);
    NewRetired(s, m, back, p);
  }

  /** The shelves a change adds, in order, at the end of the list. */
  lemma AddedShelves(s: Taxonomy, d: Draw)
    requires ApplyOne(s, d).Done? && (d.change.AddCategory? || d.change.AddSubcategory? || d.change.Split?)
    ensures
      var n := ApplyOne(s, d).next;
      && |n.shelves| == |s.shelves| + |d.ids|
      && (forall i :: |s.shelves| <= i < |n.shelves| ==>
            && n.shelves[i].item.id == d.ids[i - |s.shelves|]
            && Live(n.shelves[i].item)
            && (n.shelves[i].parentId == None
                || exists q :: Has(s, q) && q.AtShelf? && Some(At(s, q).id) == n.shelves[i].parentId))
      && (forall q :: Has(n, q) && !Has(s, q) ==> q.AtShelf?)
      && |Undoers(s, d)| == |d.ids|
      && (forall k :: 0 <= k < |d.ids| ==> Undoers(s, d)[k].change == Retire(ShelfSubject, ById(d.ids[k])))
  {
    match d.change
    case AddCategory(_) =>
    case AddSubcategory(ref, _) =>
      assert Has(s, LiveItem(s, ShelfSubject, ref).value);
    case Split(ref, children) =>
      var p := LiveItem(s, ShelfSubject, ref).value;
      assert Has(s, p);
      PushChildrenShape(s, At(s, p).id, children, d.ids);
  }

  lemma ShelvesBackLive(s: Taxonomy, d: Draw)
    requires Starts(s, d) && (d.change.AddCategory? || d.change.AddSubcategory? || d.change.Split?)
    ensures BackLive(s, d)
  {
    var n := ApplyOne(s, d).next;
    var m := NewVersion(n);
    ResultsOf(s, d, n);
    AddedShelves(s, d);
    ContentKept(s, d);
    SameContentNewVersion(s, n);
    AddedShelvesRetirable(s, d, m);
    RetireEachApplies(m, d.ids, |s.shelves|, Undoers(s, d));
    ShelvesBackOnly(s, d, m, ApplyAll(m, Undoers(s, d)).next);
  }

  lemma AddedShelvesRetirable(s: Taxonomy, d: Draw, m: Taxonomy)
    requires LinksFit(s) && ApplyOne(s, d).Done? && (d.change.AddCategory? || d.change.AddSubcategory? || d.change.Split?)
    requires Results(s, d.change, m) && SameContent(s, m, {})
    requires m == NewVersion(ApplyOne(s, d).next)
    ensures Retirable(m, d.ids, |s.shelves|)
  {
    AddedShelves(s, d);
    assert m.shelves == ApplyOne(s, d).next.shelves && Target(s, d.change) == None;
    AddedShelvesBare(s, d.change, m);
  }

  lemma AddedShelvesBare(s: Taxonomy, c: Change, m: Taxonomy)
    requires LinksFit(s) && Results(s, c, m) && !c.Restore? && SameContent(s, m, {}) && Target(s, c) == None
    requires forall k :: |s.shelves| <= k < |m.shelves| ==>
      || m.shelves[k].parentId == None
      || exists q :: Has(s, q) && q.AtShelf? && Some(At(s, q).id) == m.shelves[k].parentId
    ensures forall i :: |s.shelves| <= i < |m.shelves| ==> !HasSubcategories(m, m.shelves[i].item.id)
  {
    forall i | |s.shelves| <= i < |m.shelves|
      ensures !HasSubcategories(m, m.shelves[i].item.id)
    {
      AddedShelfIsBare(s, c, m, i, {});
    }
  }

  lemma AddedShelfIsBare(s: Taxonomy, c: Change, m: Taxonomy, i: nat, moved: set<Id>)
    requires LinksFit(s) && Results(s, c, m) && !c.Restore? && SameContent(s, m, moved)
    requires Target(s, c) == None && |s.shelves| <= i < |m.shelves|
    requires forall k :: |s.shelves| <= k < |m.shelves| ==>
      || !Live(m.shelves[k].item)
      || m.shelves[k].parentId == None
      || exists q :: Has(s, q) && q.AtShelf? && Some(At(s, q).id) == m.shelves[k].parentId
    ensures !HasSubcategories(m, m.shelves[i].item.id)
  {
    var p := AtShelf(i);
    assert Has(m, p) && !Has(s, p);
    forall k: nat | Has(m, AtShelf(k)) && !Has(s, AtShelf(k))
      ensures !Live(m.shelves[k].item) || m.shelves[k].parentId != Some(At(m, p).id)
    {
      if Live(m.shelves[k].item) && m.shelves[k].parentId != None {
        var q :| Has(s, q) && q.AtShelf? && Some(At(s, q).id) == m.shelves[k].parentId;
        assert At(m, q).id == At(s, q).id && q != p;
      }
    }
    ShelfMayRetire(s, c, m, p, moved);
  }

  lemma ShelvesBackOnly(s: Taxonomy, d: Draw, m: Taxonomy, u: Taxonomy)
    requires Starts(s, d) && Results(s, d.change, m) && Target(s, d.change) == None
    requires m == NewVersion(ApplyOne(s, d).next) && |m.shelves| == |s.shelves| + |d.ids|
    requires forall q :: Has(ApplyOne(s, d).next, q) && !Has(s, q) ==> q.AtShelf?
    requires ApplyAll(m, Undoers(s, d)) .BatchDone? && u == ApplyAll(m, Undoers(s, d)).next
    requires OnlyShelvesRetired(m, u, |s.shelves|, |m.shelves|)
    ensures LiveOnly(s, u)
  {
    forall p | Has(s, p)
      ensures Has(u, p) && Live(At(u, p)) == Live(At(s, p))
    {
      assert Stamp(m, p) == NewStamp(s, d.change, p);
    }
    forall p | Has(u, p) && !Has(s, p)
      ensures !Live(At(u, p))
    {
      NothingMade(m, Undoers(s, d), p);
      assert Has(ApplyOne(s, d).next, p);
    }
  }

  // ---------------------------------------------------------------------- the theorem

  lemma AnyBackLive(s: Taxonomy, d: Draw)
    requires Starts(s, d)
    ensures BackLive(s, d)
  {
    match d.change
    case Merge(_, _, _) => GoneBackLive(s, d);
    case Retire(_, _) => GoneBackLive(s, d);
    case Restore(_, _) => RestoredBackLive(s, d);
    case AddFunction(_) => AddedBackLive(s, d);
    case AddFeature(_, _, _, _) => AddedBackLive(s, d);
    case AddValue(_, _) => AddedBackLive(s, d);
    case AddCategory(_) => ShelvesBackLive(s, d);
    case AddSubcategory(_, _) => ShelvesBackLive(s, d);
    case Split(_, _) => ShelvesBackLive(s, d);
    case _ => TextBackLive(s, d);
  }

  lemma InverseUndoes(a: Applied)
    ensures forall k :: 0 <= k < |UndoOf(a)| ==> Undoing(UndoOf(a)[k])
  {
    assert forall k :: 0 <= k < |InverseOf(a)| ==>
      !InverseOf(a)[k].Merge? && !InverseOf(a)[k].Split? && !InverseOf(a)[k].AddFeature?;
  }

  /** A split makes at least one child, as the change schema has it. */
  predicate Formed(c: Change) {
    c.Split? ==> c.children != []
  }

  lemma SomethingToUndo(s: Taxonomy, d: Draw)
    requires ApplyOne(s, d).Done? && Formed(d.change)
    ensures Undoers(s, d) != []
  {
    match d.change
    case Merge(_, _, _) => UndoIsRestore(s, d, Target(s, d.change).value);
    case Retire(_, _) => UndoIsRestore(s, d, Target(s, d.change).value);
    case Restore(_, _) =>
    case AddFunction(_) => var _ := AddedPlace(s, d);
    case AddFeature(_, _, _, _) => var _ := AddedPlace(s, d);
    case AddValue(_, _) => var _ := AddedPlace(s, d);
    case AddCategory(_) => AddedShelves(s, d);
    case AddSubcategory(_, _) => AddedShelves(s, d);
    case Split(_, _) => AddedShelves(s, d);
    case _ => OneUndone(s, d);
  }

  lemma UndoOfOne(a: Applied)
    ensures Undo([a]) == UndoOf(a)
  {
    UndoSplits([a]);
    assert [a][1..] == [];
    assert Undo([]) == [];
  }

  lemma StartsFrom(t: Taxonomy, d: Draw)
    requires Valid(t) && NoOrphans(t) && ApplyChanges(t, [d]).BatchDone?
    ensures Starts(NewVersion(t), d)
    ensures ApplyChanges(t, [d]) == BatchDone(ApplyOne(NewVersion(t), d).next, [ApplyOne(NewVersion(t), d).applied])
  {
    SingleBatch(t, d);
    ValidNewVersion(t);
    assert forall p :: Has(NewVersion(t), p) ==> Has(t, p) && At(NewVersion(t), p) == At(t, p);
  }

  lemma UndoneNewVersion(t: Taxonomy, u: Taxonomy, moved: set<Id>)
    requires SameContent(NewVersion(t), u, moved) && LiveOnly(NewVersion(t), u)
    ensures Undone(t, u, moved)
  {
    forall p | Has(t, p)
      ensures Has(u, p) && Live(At(t, p)) == Live(At(u, p)) && SameWords(At(t, p), At(u, p), moved)
    {
      assert Has(NewVersion(t), p);
    }
    assert forall p :: Has(NewVersion(t), p) ==> Has(t, p);
  }

  /** A change that keeps words, and its undo, leave the words it made. */
  lemma MadeWordsKept(s: Taxonomy, d: Draw, m: Taxonomy)
    requires ApplyOne(s, d).Done? && KeepsWords(d.change)
    requires SameContent(ApplyOne(s, d).next, m, {}) && ApplyAll(m, Undoers(s, d)).BatchDone?
    ensures SameContent(ApplyOne(s, d).next, ApplyAll(m, Undoers(s, d)).next, {})
  {
    UndoKeepsWords(s, d);
    ContentKeptAll(m, Undoers(s, d));
    SameContentTrans(ApplyOne(s, d).next, m, ApplyAll(m, Undoers(s, d)).next, {}, {});
  }

  /** The undo of a change applies, and gives back what was there. */
  lemma UndoneOnce(t: Taxonomy, d: Draw)
    requires Valid(t) && NoOrphans(t) && ApplyChanges(t, [d]).BatchDone?
    ensures UndoApplied(t, d)
    ensures Undone(t, After(t, d), MovedBy(ApplyOne(NewVersion(t), d).applied))
    ensures SameContent(ApplyOne(NewVersion(t), d).next, After(t, d), {}) || d.ids == []
  {
    var s := NewVersion(t);
    StartsFrom(t, d);
    AnyBackLive(s, d);
    var Done(n, a) := ApplyOne(s, d);
    var m := NewVersion(n);
    ResultsOf(s, d, n);
    UndoneContentFrom(s, d, m);
    UndoneNewVersion(t, After(t, d), MovedBy(a));
    if KeepsWords(d.change) {
      MadeWordsKept(s, d, m);
    }
  }

  lemma UndoneContentFrom(s: Taxonomy, d: Draw, m: Taxonomy)
    requires ApplyOne(s, d).Done? && m == NewVersion(ApplyOne(s, d).next) && UniqueIds(m)
    requires ApplyAll(m, Undoers(s, d)).BatchDone?
    ensures SameContent(s, ApplyAll(m, Undoers(s, d)).next, MovedBy(ApplyOne(s, d).applied))
    ensures SameContent(ApplyOne(s, d).next, m, {})
  {
    UndoneContent(s, d, m, {});
    assert {} + MovedBy(ApplyOne(s, d).applied) == MovedBy(ApplyOne(s, d).applied);
  }

  /**
   * Every change that applies under a usable taxonomy can be undone, and its undo gives back the live
   * taxonomy there was, but for a moved shelf's order.
   */
  lemma UndoOne(t: Taxonomy, d: Draw)
    requires Valid(t) && NoOrphans(t) && Formed(d.change) && ApplyChanges(t, [d]).BatchDone?
    ensures
      var BatchDone(n, applied) := ApplyChanges(t, [d]);
      && ApplyChanges(n, Undo(applied)).BatchDone?
      && Undone(t, ApplyChanges(n, Undo(applied)).next, MovedIn(applied))
  {
    var Done(n, a) := ApplyOne(NewVersion(t), d);
    StartsFrom(t, d);
    UndoneOnce(t, d);
    AfterPlaces(t, d);
    SomethingToUndo(NewVersion(t), d);
    UndoOfOne(a);
    InverseUndoes(a);
    BackPlaces(t, d);
    BackValid(t, d, MovedBy(a));
    assert MovedIn([a]) == MovedBy(a) by {
      assert [a][1..] == [];
    }
  }

  lemma BackPlaces(t: Taxonomy, d: Draw)
    requires UndoApplied(t, d)
    requires Undone(t, After(t, d), MovedBy(ApplyOne(NewVersion(t), d).applied))
    requires SameContent(ApplyOne(NewVersion(t), d).next, After(t, d), {}) || d.ids == []
    ensures Back(t, ApplyOne(NewVersion(t), d).next, After(t, d), MovedBy(ApplyOne(NewVersion(t), d).applied))
  {
    AfterPlaces(t, d);
    StepShape(NewVersion(t), d);
    assert forall p :: Has(NewVersion(t), p) ==> Has(t, p);
  }
}