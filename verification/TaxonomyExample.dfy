/**
 A usable taxonomy of one shelf, with one feature that takes one of two values; a batch it accepts whose undo is
 refused; and one whose undo is accepted but can't be undone.
 */
module TaxonomyExample {
  import opened Basics
  import opened Taxonomies
  import opened TaxonomyChanges
  import opened TaxonomySteps
  import opened TaxonomyUndo
  import opened TaxonomyUndoAccepted
  import opened TaxonomyRedo
  import opened TaxonomyRedoAccepted

  /** The earpads, their feature and its values retired or not. */
  function EarpadsAs(version: nat, form: Option<nat>, a: Option<nat>, b: Option<nat>, migrations: seq<Migration>): Taxonomy {
    Taxonomy(
      version, "", [Shelf(Item("sh", "headphones", Name("Headphones", "headphones"), "", 1, None), None, [])], [],
      [Feature(Item("ft", "form", Name("Form", "form"), "", 1, form), TakesOne, ["sh"],
               [Item("a", "over-ear", Name("Over-ear", "over-ear"), "", 1, a),
                Item("b", "on-ear", Name("On-ear", "on-ear"), "", 2, b)])],
      migrations)
  }

  function Earpads(): Taxonomy {
    EarpadsAs(1, None, None, None, [])
  }

  lemma EarpadsFind(version: nat, form: Option<nat>, a: Option<nat>, b: Option<nat>, migrations: seq<Migration>)
    ensures
      var t := EarpadsAs(version, form, a, b, migrations);
      && UniqueIds(t)
      && Find(t, ShelfSubject, ById("sh")) == Some(AtShelf(0))
      && Find(t, FeatureSubject, ById("ft")) == Some(AtFeature(0))
      && Find(t, ValueSubject, ById("a")) == Some(AtValue(0, 0))
      && FeatureOfValue(t, "a") == Some(0)
  {
    var t := EarpadsAs(version, form, a, b, migrations);
    assert At(t, AtValue(0, 0)).id == "a" && At(t, AtValue(0, 1)).id == "b" && At(t, AtShelf(0)).id == "sh";
    assert Answers(t.features[0].values[0], ById("a"));
    FindAt(t, AtValue(0, 0));
  }

  lemma EarpadsApart(version: nat, form: Option<nat>, a: Option<nat>, b: Option<nat>, migrations: seq<Migration>)
    ensures
      var t := EarpadsAs(version, form, a, b, migrations);
      UniqueSlugs(t) && UniqueNames(t)
  {
    var t := EarpadsAs(version, form, a, b, migrations);
    assert t.features[0].values[0].slug[1] == 'v' && t.features[0].values[1].slug[1] == 'n';
    assert t.features[0].values[0].name.key[1] == 'v' && t.features[0].values[1].name.key[1] == 'n';
  }

  lemma EarpadsFit(version: nat, form: Option<nat>, a: Option<nat>, b: Option<nat>, migrations: seq<Migration>)
    requires form.None? ==> a.None? || b.None?
    ensures
      var t := EarpadsAs(version, form, a, b, migrations);
      ShelvesFit(t) && FeaturesFit(t)
  {
    var t := EarpadsAs(version, form, a, b, migrations);
    EarpadsFind(version, form, a, b, migrations);
    assert t.shelves[..0] == [] && LiveShelves(t.shelves) == 1;
    assert t.shelves[0].item.slug[0] == 'h';
    if form.None? {
      assert Live(t.features[0].values[if a.None? then 0 else 1]);
    }
  }

  /** With no migration, nothing is said and nothing is retired. */
  lemma EarpadsUnsaid()
    ensures
      var t := Earpads();
      StampsFit(t) && MigrationsFit(t) && SaidFits(t) && NoOrphans(t)
  {
  }

  lemma EarpadsValid()
    ensures Valid(Earpads()) && NoOrphans(Earpads())
  {
    EarpadsFind(1, None, None, None, []);
    EarpadsApart(1, None, None, None, []);
    EarpadsFit(1, None, None, None, []);
    EarpadsUnsaid();
  }

  /** A value retired, and then its feature. */
  function Wear(): seq<Draw> {
    [Draw(Retire(ValueSubject, ById("a")), []), Draw(Retire(FeatureSubject, ById("ft")), [])]
  }

  const WEAR := [
    Migration(2, Retired, ValueSubject, "a", ToNothing), Migration(2, Retired, FeatureSubject, "ft", ToNothing)]

  function Worn(): Taxonomy {
    EarpadsAs(2, Some(2), Some(2), Some(2), WEAR)
  }

  lemma WearValue()
    ensures
      var s := NewVersion(Earpads());
      && Target(s, Wear()[0].change) == Some(AtValue(0, 0))
      && ApplyOne(s, Wear()[0]).Done?
      && ApplyOne(s, Wear()[0]).next == EarpadsAs(2, None, Some(2), None, WEAR[..1])
  {
    var s := NewVersion(Earpads());
    EarpadsFind(2, None, None, None, []);
    TwoLive(s);
    assert WEAR[..1] == [] + [WEAR[0]];
    var values := s.features[0].values;
    assert values[0 := values[0].(retiredIn := Some(2))] == [values[0].(retiredIn := Some(2)), values[1]];
  }

  lemma WearFeature()
    ensures
      var m := EarpadsAs(2, None, Some(2), None, WEAR[..1]);
      && Target(m, Wear()[1].change) == Some(AtFeature(0))
      && ApplyOne(m, Wear()[1]).Done?
      && ApplyOne(m, Wear()[1]).next == Worn()
  {
    var m := EarpadsAs(2, None, Some(2), None, WEAR[..1]);
    EarpadsFind(2, None, Some(2), None, WEAR[..1]);
    assert WEAR == WEAR[..1] + [WEAR[1]];
    assert RetiredValues(m.features[0].values, 2) == Worn().features[0].values;
  }

  lemma WearApplies()
    ensures ApplyAll(NewVersion(Earpads()), Wear()).BatchDone? && ApplyAll(NewVersion(Earpads()), Wear()).next == Worn()
  {
    WearValue();
    WearFeature();
    assert Wear()[1..] == [Wear()[1]] && Wear()[1..][1..] == [];
  }

  lemma TwoLive(s: Taxonomy)
    requires s == NewVersion(Earpads())
    ensures LiveValues(s.features[0].values) == 2
  {
    var values := s.features[0].values;
    assert values[..1][..0] == [] && LiveValues(values[..1]) == 1;
  }

  lemma WornSaid()
    ensures LastSaid(WEAR, "a") == Some(true) && LastSaid(WEAR, "ft") == Some(true)
    ensures LastSaid(WEAR, "b") == None && LastSaid(WEAR, "sh") == None
  {
    assert WEAR[..1] == [WEAR[0]] && [WEAR[0]][..0] == [];
    assert LastSaid([WEAR[0]], "b") == None;
    assert LastSaid([WEAR[0]], "sh") == None;
  }

  lemma WornMigrations()
    ensures StampsFit(Worn()) && MigrationsFit(Worn())
  {
    EarpadsFind(2, Some(2), Some(2), Some(2), WEAR);
  }

  lemma WornValid()
    ensures Valid(Worn())
  {
    WornMigrations();
    EarpadsFind(2, Some(2), Some(2), Some(2), WEAR);
    EarpadsApart(2, Some(2), Some(2), Some(2), WEAR);
    EarpadsFit(2, Some(2), Some(2), Some(2), WEAR);
    WornSaid();
  }

  /** A usable taxonomy accepts a batch that retires a value and then its feature, and refuses its undo. */
  lemma ValueThenFeature()
    ensures Proposed(Earpads(), Wear()) && ApplyChanges(Earpads(), Wear()).next == Worn()
    ensures FeatureFollows(NewVersion(Earpads()), Wear())
    ensures ApplyChanges(Worn(), Undo(ApplyChanges(Earpads(), Wear()).applied)).BatchRefused?
  {
    EarpadsValid();
    WearApplies();
    WearValue();
    WearFeature();
    WornValid();
    var m := ApplyOne(NewVersion(Earpads()), Wear()[0]).next;
    assert Wear()[1..] == [Wear()[1]];
    assert Goes(m, Wear()[1..], AtFeature(0));
    UndoAccepted(Earpads(), Wear());
  }

  // ---------------------------------------------------------------------- an undo that can't be undone

  /** The earpads with a third value, all retired or none. */
  function PadsAs(version: nat, gone: Option<nat>, migrations: seq<Migration>): Taxonomy {
    var t := EarpadsAs(version, gone, gone, gone, migrations);
    t.(features := [t.features[0].(values := t.features[0].values + [
      Item("c", "in-ear", Name("In-ear", "in-ear"), "", 3, gone)])])
  }

  /** A value added, and then its feature retired. */
  function Widen(): seq<Draw> {
    [Draw(AddValue(ById("ft"), NewItem("in-ear", Name("In-ear", "in-ear"), "")), ["c"]),
     Draw(Retire(FeatureSubject, ById("ft")), [])]
  }

  const WIDEN := [Migration(2, Retired, FeatureSubject, "ft", ToNothing)]

  function Widened(): Taxonomy {
    PadsAs(2, Some(2), WIDEN)
  }

  lemma PadsFind(version: nat, gone: Option<nat>, migrations: seq<Migration>)
    ensures
      var t := PadsAs(version, gone, migrations);
      && UniqueIds(t)
      && Find(t, ShelfSubject, ById("sh")) == Some(AtShelf(0))
      && Find(t, FeatureSubject, ById("ft")) == Some(AtFeature(0))
  {
    var t := PadsAs(version, gone, migrations);
    assert At(t, AtValue(0, 0)).id == "a" && At(t, AtValue(0, 1)).id == "b" && At(t, AtValue(0, 2)).id == "c";
    assert At(t, AtShelf(0)).id == "sh";
  }

  lemma PadsApart(version: nat, gone: Option<nat>, migrations: seq<Migration>)
    ensures
      var t := PadsAs(version, gone, migrations);
      UniqueSlugs(t) && UniqueNames(t)
  {
    var values := PadsAs(version, gone, migrations).features[0].values;
    assert values[0].slug[1] == 'v' && values[1].slug[1] == 'n' && values[2].slug[0] == 'i';
    assert values[0].name.key[1] == 'v' && values[1].name.key[1] == 'n' && values[2].name.key[0] == 'i';
  }

  lemma WidenValue()
    ensures
      var s := NewVersion(Earpads());
      ApplyOne(s, Widen()[0]).Done? && ApplyOne(s, Widen()[0]).next == PadsAs(2, None, [])
  {
    var s := NewVersion(Earpads());
    EarpadsFind(2, None, None, None, []);
    var values := s.features[0].values;
    assert MostOrder(values) == 2;
    assert SetValues(s, 0, PadsAs(2, None, []).features[0].values) == PadsAs(2, None, []);
  }

  lemma WidenFeature()
    ensures
      var m := PadsAs(2, None, []);
      && Target(m, Widen()[1].change) == Some(AtFeature(0))
      && ApplyOne(m, Widen()[1]).Done?
      && ApplyOne(m, Widen()[1]).next == Widened()
  {
    var m := PadsAs(2, None, []);
    PadsFind(2, None, []);
    assert WIDEN == [] + [WIDEN[0]];
    assert RetiredValues(m.features[0].values, 2) == Widened().features[0].values;
  }

  lemma WidenApplies()
    ensures ApplyAll(NewVersion(Earpads()), Widen()).BatchDone? && ApplyAll(NewVersion(Earpads()), Widen()).next == Widened()
  {
    WidenValue();
    WidenFeature();
    assert Widen()[1..] == [Widen()[1]] && Widen()[1..][1..] == [];
  }

  lemma WidenedSaid()
    ensures forall id :: LastSaid(WIDEN, id) == if id == "ft" then Some(true) else None
  {
    assert WIDEN[..0] == [];
  }

  lemma WidenedValid()
    ensures Valid(Widened())
  {
    PadsFind(2, Some(2), WIDEN);
    PadsApart(2, Some(2), WIDEN);
    var t := Widened();
    assert t.shelves[..0] == [] && LiveShelves(t.shelves) == 1 && t.shelves[0].item.slug[0] == 'h';
    assert ShelvesFit(t) && FeaturesFit(t);
    assert StampsFit(t) && MigrationsFit(t);
    WidenedSaid();
  }

  lemma WidenBorn(p: Pos)
    requires ApplyAll(NewVersion(Earpads()), Widen()).BatchDone? && ApplyAll(NewVersion(Earpads()), Widen()).next == Widened()
    requires Has(Widened(), p)
    ensures BornSlug(NewVersion(Earpads()), Widen(), p) == At(Widened(), p).slug
  {
    if !Has(NewVersion(Earpads()), p) {
      WidenValue();
      assert p == AtValue(0, 2) && Has(PadsAs(2, None, []), p);
    }
  }

  /** The batch has nothing its undo would be refused for. */
  lemma WidenUndone()
    requires ApplyAll(NewVersion(Earpads()), Widen()).BatchDone? && ApplyAll(NewVersion(Earpads()), Widen()).next == Widened()
    ensures SlugsBornApart(NewVersion(Earpads()), Widen())
    ensures !FeatureFollows(NewVersion(Earpads()), Widen()) && !MadeValueGoes(NewVersion(Earpads()), Widen())
    ensures JoinedGoes(NewVersion(Earpads()), Widen())
  {
    WidenedValid();
    forall p | Has(Widened(), p)
      ensures BornSlug(NewVersion(Earpads()), Widen(), p) == At(Widened(), p).slug
    {
      WidenBorn(p);
    }
    SlugsAre(NewVersion(Earpads()), Widen(), Widened());
    WidenSteps();
  }

  lemma WidenSteps()
    requires ApplyAll(NewVersion(Earpads()), Widen()).BatchDone?
    ensures !FeatureFollows(NewVersion(Earpads()), Widen()) && !MadeValueGoes(NewVersion(Earpads()), Widen())
    ensures JoinedGoes(NewVersion(Earpads()), Widen())
  {
    WidenValue();
    WidenFeature();
    EarpadsFind(2, None, None, None, []);
    var m := PadsAs(2, None, []);
    assert Widen()[1..] == [Widen()[1]] && [Widen()[1]][1..] == [];
    assert Goes(m, Widen()[1..], AtFeature(0));
    assert !FeatureFollows(m, Widen()[1..]) && !MadeValueGoes(m, Widen()[1..]);
  }

  /**
   * A usable taxonomy accepts a batch that adds a value to a feature and then retires the feature; it accepts the undo;
   * and refuses to undo that.
   */
  lemma AddedThenFeature()
    ensures UndoneBatch(Earpads(), Widen()) && ApplyChanges(Earpads(), Widen()).next == Widened()
    ensures
      var BatchDone(u, undone) := ApplyChanges(Widened(), Undo(ApplyChanges(Earpads(), Widen()).applied));
      ApplyChanges(u, Undo(undone)).BatchRefused?
  {
    EarpadsValid();
    WidenApplies();
    WidenedValid();
    WidenUndone();
    UndoAccepted(Earpads(), Widen());
    RedoAccepted(Earpads(), Widen());
  }
}
