/**
 What the guarantees rest on: over every run from a seeded taxonomy each single change can be undone;
 a batch's undo may be refused, as when it retires a value and then its feature; and one batch that
 mixes merges with restores can make merges lead in a circle.
 */
module TaxonomyLimits {
  import opened Basics
  import opened Taxonomies
  import opened TaxonomyChanges
  import opened TaxonomyForwarding
  import opened TaxonomyResolution
  import opened TaxonomySeed
  import opened TaxonomyUndo
  import opened TaxonomyUndoBatch
  import opened TaxonomyUndoOne
  import opened TaxonomyMirror

  // ---------------------------------------------------------------------- over runs from a seed

  lemma SeededLive(seed: Seed, makeId: Pos -> Id)
    requires SeedTaxonomy(seed, makeId).Some?
    ensures SeedTaxonomy(seed, makeId).value.migrations == []
    ensures NoOrphans(SeedTaxonomy(seed, makeId).value)
  {
    var t := SeedTaxonomy(seed, makeId).value;
    var functions := SeedItems(seed.functions, (k: nat) => makeId(AtFunction(k)));
    var shelves := SeedShelves(seed.categories, functions, makeId).value;
    forall i | 0 <= i < |t.features|
      ensures Live(t.features[i].item)
    {
      assert SeedOneFeature(seed.features[i], i, Ordering.ShelfItems(shelves), makeId) == Some(t.features[i]);
    }
  }

  /** Over every run, a live value belongs to a live feature if it did at the start. */
  lemma {:induction false} NoOrphansRun(run: seq<Taxonomy>, batches: seq<seq<Draw>>, n: nat)
    requires IsRun(run, batches) && NoOrphans(run[0]) && n < |run|
    ensures NoOrphans(run[n])
  {
    if n > 0 {
      NoOrphansRun(run, batches, n - 1);
      NoOrphansVersion(run[n - 1], run[n], batches[n - 1]);
    }
  }

  lemma NoOrphansVersion(t: Taxonomy, u: Taxonomy, draws: seq<Draw>)
    requires NoOrphans(t) && Steps(t, u, draws)
    ensures NoOrphans(u)
  {
    assert NoOrphans(NewVersion(t));
    NoOrphansAll(NewVersion(t), draws);
  }

  /**
   * At every version of every run from a seeded taxonomy, a change that applies can be undone, and its
   * undo gives back the live taxonomy there was, but for a moved shelf's order.
   */
  lemma UndoAnywhere(seed: Seed, makeId: Pos -> Id, run: seq<Taxonomy>, batches: seq<seq<Draw>>, n: nat, d: Draw)
    requires SeedTaxonomy(seed, makeId).Some? && IsRun(run, batches) && run[0] == SeedTaxonomy(seed, makeId).value
    requires n < |run| && Formed(d.change) && ApplyChanges(run[n], [d]).BatchDone?
    ensures
      var BatchDone(u, applied) := ApplyChanges(run[n], [d]);
      && ApplyChanges(u, Undo(applied)).BatchDone?
      && Undone(run[n], ApplyChanges(u, Undo(applied)).next, MovedIn(applied))
  {
    SeededLive(seed, makeId);
    NoOrphansRun(run, batches, n);
    ForwardRun(run, batches, n);
    UndoOne(run[n], d);
  }

  /** Versions of a run between which nothing is restored. */
  lemma {:induction false} FollowsRun(run: seq<Taxonomy>, batches: seq<seq<Draw>>, m: nat, n: nat)
    requires IsRun(run, batches) && m <= n < |run|
    requires forall k :: m <= k < n ==> forall j :: 0 <= j < |batches[k]| ==> !batches[k][j].change.Restore?
    ensures Follows(run[m], run[n])
  {
    if m < n {
      FollowsRun(run, batches, m, n - 1);
      assert Steps(run[n - 1], run[n], batches[n - 1]);
      FollowsBatch(run[n - 1], batches[n - 1]);
      FollowsTrans(run[m], run[n - 1], run[n]);
    }
  }

  // ---------------------------------------------------------------------- merges in a circle

  lemma AcceptedWhen(t: Taxonomy, draws: seq<Draw>, n: Taxonomy)
    requires draws != [] && ApplyAll(NewVersion(t), draws).BatchDone? && ApplyAll(NewVersion(t), draws).next == n && Valid(n)
    ensures ApplyChanges(t, draws).BatchDone? && ApplyChanges(t, draws).next == n
  {
  }

  /** One shelf and two functions that nothing implies. */
  function TwoFunctions(): Taxonomy {
    Taxonomy(
      1, "", [Shelf(Item("sh", "headphones", Name("Headphones", "headphones"), "", 1, None), None, [])],
      [Item("a", "amp", Name("Amp", "amp"), "", 1, None), Item("b", "dac", Name("DAC", "dac"), "", 2, None)], [], [])
  }

  /** Merge one into the other and bring it back, merge the other into it, and retire it. */
  function Circle(): seq<Draw> {
    [Draw(Merge(FunctionSubject, ById("a"), ById("b")), []), Draw(Restore(FunctionSubject, ById("a")), []),
     Draw(Merge(FunctionSubject, ById("b"), ById("a")), []), Draw(Retire(FunctionSubject, ById("a")), [])]
  }

  function Circled(migrations: seq<Migration>, a: Option<nat>, b: Option<nat>): Taxonomy {
    var t := TwoFunctions();
    t.(version := 2, functions := [t.functions[0].(retiredIn := a), t.functions[1].(retiredIn := b)], migrations := migrations)
  }

  const CIRCLE_MIGRATIONS := [
    Migration(2, Merged, FunctionSubject, "a", ToOne("b")), Migration(2, Restored, FunctionSubject, "a", ToOne("a")),
    Migration(2, Merged, FunctionSubject, "b", ToOne("a")), Migration(2, Retired, FunctionSubject, "a", ToNothing)]

  lemma CircledFinds(migrations: seq<Migration>, a: Option<nat>, b: Option<nat>)
    ensures
      var t := Circled(migrations, a, b);
      && Find(t, FunctionSubject, ById("a")) == Some(AtFunction(0))
      && Find(t, FunctionSubject, ById("b")) == Some(AtFunction(1))
      && !Implied(t, "a") && !Implied(t, "b")
  {
    var t := Circled(migrations, a, b);
    assert t.functions[0].id == "a" && t.functions[1].id == "b";
  }

  lemma CircleStart()
    ensures ApplyOne(Circled([], None, None), Circle()[0]).Done?
    ensures ApplyOne(Circled([], None, None), Circle()[0]).next == Circled(CIRCLE_MIGRATIONS[..1], Some(2), None)
    ensures ApplyOne(Circled(CIRCLE_MIGRATIONS[..1], Some(2), None), Circle()[1]).Done?
    ensures ApplyOne(Circled(CIRCLE_MIGRATIONS[..1], Some(2), None), Circle()[1]).next == Circled(CIRCLE_MIGRATIONS[..2], None, None)
  {
    CircledFinds([], None, None);
    CircledFinds(CIRCLE_MIGRATIONS[..1], Some(2), None);
  }

  lemma CircleEnd()
    ensures ApplyOne(Circled(CIRCLE_MIGRATIONS[..2], None, None), Circle()[2]).Done?
    ensures ApplyOne(Circled(CIRCLE_MIGRATIONS[..2], None, None), Circle()[2]).next == Circled(CIRCLE_MIGRATIONS[..3], None, Some(2))
    ensures ApplyOne(Circled(CIRCLE_MIGRATIONS[..3], None, Some(2)), Circle()[3]).Done?
    ensures ApplyOne(Circled(CIRCLE_MIGRATIONS[..3], None, Some(2)), Circle()[3]).next == Circled(CIRCLE_MIGRATIONS, Some(2), Some(2))
  {
    CircledFinds(CIRCLE_MIGRATIONS[..2], None, None);
    CircledFinds(CIRCLE_MIGRATIONS[..3], None, Some(2));
  }

  lemma CircleSteps()
    ensures ApplyAll(NewVersion(TwoFunctions()), Circle()).BatchDone?
    ensures ApplyAll(NewVersion(TwoFunctions()), Circle()).next == Circled(CIRCLE_MIGRATIONS, Some(2), Some(2))
  {
    var draws, ms := Circle(), CIRCLE_MIGRATIONS;
    CircleStart();
    CircleEnd();
    AllOf(Circled([], None, None), draws, Circled(ms[..1], Some(2), None), 0);
    AllOf(Circled(ms[..1], Some(2), None), draws, Circled(ms[..2], None, None), 1);
    AllOf(Circled(ms[..2], None, None), draws, Circled(ms[..3], None, Some(2)), 2);
    AllOf(Circled(ms[..3], None, Some(2)), draws, Circled(ms, Some(2), Some(2)), 3);
    assert draws[4..] == [] && draws[0..] == draws;
    assert NewVersion(TwoFunctions()) == Circled([], None, None);
  }

  lemma AllOf(t: Taxonomy, draws: seq<Draw>, u: Taxonomy, k: nat)
    requires k < |draws| && ApplyOne(t, draws[k]).Done? && ApplyOne(t, draws[k]).next == u
    ensures ApplyAll(t, draws[k..]).BatchDone? <==> ApplyAll(u, draws[k + 1..]).BatchDone?
    ensures ApplyAll(t, draws[k..]).BatchDone? ==> ApplyAll(t, draws[k..]).next == ApplyAll(u, draws[k + 1..]).next
  {
    assert draws[k..][1..] == draws[k + 1..];
  }

  lemma CircledSaid()
    ensures LastSaid(CIRCLE_MIGRATIONS, "a") == Some(true)
    ensures LastSaid(CIRCLE_MIGRATIONS, "b") == Some(true)
    ensures LastSaid(CIRCLE_MIGRATIONS, "sh") == None
  {
    var ms := CIRCLE_MIGRATIONS;
    assert ms[..3][..2][..1][..0] == [] && ms[..3][..2] == ms[..2] && ms[..2][..1] == ms[..1];
    assert LastSaid(ms[..3], "b") == Some(true);
    assert LastSaid(ms[..1], "sh") == None;
    assert LastSaid(ms[..2], "sh") == None;
    assert LastSaid(ms[..3], "sh") == None;
  }

  lemma CircledFits()
    ensures
      var t := Circled(CIRCLE_MIGRATIONS, Some(2), Some(2));
      UniqueIds(t) && UniqueSlugs(t) && UniqueNames(t) && ShelvesFit(t) && FeaturesFit(t) && StampsFit(t)
  {
    var t := Circled(CIRCLE_MIGRATIONS, Some(2), Some(2));
    assert t.shelves[..0] == [] && LiveShelves(t.shelves) == 1;
    assert t.shelves[0].item.slug[0] == 'h';
  }

  lemma CircledValid()
    ensures Valid(Circled(CIRCLE_MIGRATIONS, Some(2), Some(2)))
  {
    CircledFits();
    CircledFinds(CIRCLE_MIGRATIONS, Some(2), Some(2));
    CircledSaid();
  }

  /** What makes a version is unmixed: a proposal holds no restore, and an undo no merge. */
  lemma SentUnmixed(draws: seq<Draw>, applied: seq<Applied>)
    ensures (forall k :: 0 <= k < |draws| ==> Proposable(draws[k].change)) ==> Unmixed(draws)
    ensures Unmixed(Undo(applied))
  {
    UndoIsUnmixed(applied);
    if forall k :: 0 <= k < |draws| ==> Proposable(draws[k].change) {
      assert forall k :: 0 <= k < |draws| ==> Keeps(draws[k].change, false);
    }
  }

  /**
   * A batch that mixes merges and restores would be accepted, and leave merges that lead to each other. No
   * proposal is such a batch, and no undo: `applyChanges` itself doesn't refuse it.
   */
  lemma MixedBatchCircles()
    ensures !Unmixed(Circle())
    ensures exists k :: 0 <= k < |Circle()| && !Proposable(Circle()[k].change)
    ensures forall applied :: Undo(applied) != Circle()
    ensures ApplyChanges(TwoFunctions(), Circle()).BatchDone?
    ensures ApplyChanges(TwoFunctions(), Circle()).next == Circled(CIRCLE_MIGRATIONS, Some(2), Some(2))
    ensures !Forward(Circled(CIRCLE_MIGRATIONS, Some(2), Some(2)))
    ensures Next(Circled(CIRCLE_MIGRATIONS, Some(2), Some(2)), FunctionSubject, "a") == Some("b")
    ensures Next(Circled(CIRCLE_MIGRATIONS, Some(2), Some(2)), FunctionSubject, "b") == Some("a")
  {
    CircleSteps();
    CircledValid();
    AcceptedWhen(TwoFunctions(), Circle(), Circled(CIRCLE_MIGRATIONS, Some(2), Some(2)));
    CircledCircles();
    CircleIsMixed();
    forall applied
      ensures Undo(applied) != Circle()
    {
      SentUnmixed([], applied);
    }
  }

  lemma CircleIsMixed()
    ensures !Unmixed(Circle())
    ensures !Proposable(Circle()[1].change)
  {
    assert Circle()[0].change.Merge? && Circle()[1].change.Restore?;
  }

  lemma CircledCircles()
    ensures
      var t := Circled(CIRCLE_MIGRATIONS, Some(2), Some(2));
      && !Forward(t) && Next(t, FunctionSubject, "a") == Some("b") && Next(t, FunctionSubject, "b") == Some("a")
  {
    var t := Circled(CIRCLE_MIGRATIONS, Some(2), Some(2));
    CircledFinds(CIRCLE_MIGRATIONS, Some(2), Some(2));
    assert CurrentMerge(t, 0) && CurrentMerge(t, 2) && LeadsTo(t, 2, 0);
    CircleMerges();
  }

  lemma CircleMerges()
    ensures LastMerge(CIRCLE_MIGRATIONS, FunctionSubject, "a", Some(2)) == Some(0)
    ensures LastMerge(CIRCLE_MIGRATIONS, FunctionSubject, "b", Some(2)) == Some(2)
  {
    var ms := CIRCLE_MIGRATIONS;
    assert MergesFrom(ms[0], FunctionSubject, "a", Some(2)) && MergesFrom(ms[2], FunctionSubject, "b", Some(2));
  }
}
