/**
 What later versions of a taxonomy keep: every item in its place, each value in its feature, and how
 many values a feature takes. Values are merged only within a feature and features never merge, so
 resolving a value keeps its feature.
 */
module TaxonomyVersions {
  import opened Basics
  import opened Taxonomies
  import opened TaxonomyChanges
  import opened TaxonomySteps
  import opened TaxonomyForwarding
  import opened TaxonomyResolution

  /** The feature a value is of, by ID: `featureOfValue(taxonomy, value)?.id`. */
  function FeatureIdOf(t: Taxonomy, value: Id): Option<Id> {
    match FeatureOfValue(t, value)
    case Some(i) => Some(t.features[i].item.id)
    case None => None
  }

  /** Whether an ID names a feature that takes one value. */
  predicate TakesOneValue(t: Taxonomy, featureId: Id) {
    match Find(t, FeatureSubject, ById(featureId))
    case Some(p) => t.features[p.i].cardinality == TakesOne
    case None => false
  }

  /** `u` is a later version of `t`: every place holds its item, and a feature takes what it took. */
  ghost predicate Later(t: Taxonomy, u: Taxonomy) {
    && Embeds(t, u)
    && forall i :: 0 <= i < |t.features| && i < |u.features| ==> t.features[i].cardinality == u.features[i].cardinality
  }

  lemma LaterTrans(t: Taxonomy, u: Taxonomy, v: Taxonomy)
    requires Later(t, u) && Later(u, v)
    ensures Later(t, v)
  {
    forall i | 0 <= i < |t.features| && i < |v.features|
      ensures t.features[i].cardinality == v.features[i].cardinality
    {
      assert Has(t, AtFeature(i)) && Has(u, AtFeature(i));
    }
  }

  ghost predicate SameCardinalities(t: Taxonomy, u: Taxonomy) {
    forall i :: 0 <= i < |t.features| && i < |u.features| ==> t.features[i].cardinality == u.features[i].cardinality
  }

  lemma CardinalitiesStep(t: Taxonomy, d: Draw)
    requires ApplyOne(t, d).Done?
    ensures SameCardinalities(t, ApplyOne(t, d).next)
  {
    match d.change
    case Split(ref, children) =>
      PushChildrenShape(t, At(t, LiveItem(t, ShelfSubject, ref).value).id, children, d.ids);
    case _ =>
  }

  lemma LaterStep(t: Taxonomy, d: Draw)
    requires ApplyOne(t, d).Done?
    ensures Later(t, ApplyOne(t, d).next)
  {
    StepShape(t, d);
    CardinalitiesStep(t, d);
  }

  lemma {:induction false} LaterAll(t: Taxonomy, draws: seq<Draw>)
    requires ApplyAll(t, draws).BatchDone?
    ensures Later(t, ApplyAll(t, draws).next)
    decreases |draws|
  {
    if draws != [] {
      LaterStep(t, draws[0]);
      LaterAll(ApplyOne(t, draws[0]).next, draws[1..]);
      LaterTrans(t, ApplyOne(t, draws[0]).next, ApplyAll(t, draws).next);
    }
  }

  // ---------------------------------------------------------------------- merges keep a value's feature

  /** No feature is merged, and a value is merged only into one of its own feature. */
  predicate MergeWithin(t: Taxonomy, m: Migration) {
    m.kind == Merged ==>
      && m.subject != FeatureSubject
      && m.to.ToOne?
      && (m.subject == ValueSubject ==>
            match (Find(t, ValueSubject, ById(m.from)), Find(t, ValueSubject, ById(m.to.id)))
            case (Some(p), Some(q)) => p.i == q.i
            case _ => false)
  }

  ghost predicate MergesWithin(t: Taxonomy) {
    forall k :: 0 <= k < |t.migrations| ==> MergeWithin(t, t.migrations[k])
  }

  lemma MergeWithinLater(t: Taxonomy, u: Taxonomy, m: Migration)
    requires MergeWithin(t, m) && Embeds(t, u) && UniqueIds(u)
    ensures MergeWithin(u, m)
  {
    if m.kind == Merged && m.subject == ValueSubject {
      FindKept(t, u, ValueSubject, m.from);
      FindKept(t, u, ValueSubject, m.to.id);
    }
  }

  /** The values `applyOne` lets merge are of one feature. */
  lemma MergedWithin(t: Taxonomy, d: Draw)
    requires ApplyOne(t, d).Done? && d.change.Merge? && UniqueIds(ApplyOne(t, d).next)
    ensures MergeWithin(ApplyOne(t, d).next, ApplyOne(t, d).next.migrations[|t.migrations|])
  {
    var u := ApplyOne(t, d).next;
    StepShape(t, d);
    MergeMigrations(t, d);
    EmbedsKeepsUnique(t, u);
    var p, q := LiveItem(t, d.change.mergeable, d.change.from).value, LiveItem(t, d.change.mergeable, d.change.into).value;
    FindAt(u, p);
    FindAt(u, q);
    if d.change.mergeable == ValueSubject {
      FindAt(t, p);
      FindAt(t, q);
      assert SameFeature(t, At(t, p).id, At(t, q).id);
      assert Has(t, AtFeature(p.i)) && Has(t, AtFeature(q.i));
      assert At(t, AtFeature(p.i)).id == At(t, AtFeature(q.i)).id;
    }
  }

  lemma MergesWithinStep(t: Taxonomy, d: Draw)
    requires ApplyOne(t, d).Done? && UniqueIds(ApplyOne(t, d).next) && MergesWithin(t)
    ensures MergesWithin(ApplyOne(t, d).next)
  {
    var u := ApplyOne(t, d).next;
    StepShape(t, d);
    MergeMigrations(t, d);
    forall k | 0 <= k < |u.migrations|
      ensures MergeWithin(u, u.migrations[k])
    {
      if k < |t.migrations| {
        assert u.migrations[k] == t.migrations[k];
        MergeWithinLater(t, u, t.migrations[k]);
      } else if d.change.Merge? {
        MergedWithin(t, d);
      }
    }
  }

  lemma {:induction false} MergesWithinAll(t: Taxonomy, draws: seq<Draw>)
    requires ApplyAll(t, draws).BatchDone? && UniqueIds(ApplyAll(t, draws).next) && MergesWithin(t)
    ensures MergesWithin(ApplyAll(t, draws).next)
    decreases |draws|
  {
    if draws != [] {
      var next := ApplyOne(t, draws[0]).next;
      EmbedsAll(next, draws[1..]);
      EmbedsKeepsUnique(next, ApplyAll(next, draws[1..]).next);
      MergesWithinStep(t, draws[0]);
      MergesWithinAll(next, draws[1..]);
    }
  }

  // ---------------------------------------------------------------------- over runs

  /** What every version in use is: valid, with merges that lead forward and stay in a feature. */
  ghost predicate Usable(t: Taxonomy) {
    Valid(t) && Forward(t) && MergesWithin(t)
  }

  lemma MergesStart(t: Taxonomy)
    requires MergesWithin(t)
    ensures MergesWithin(NewVersion(t))
  {
    FindNewVersion(t);
    assert forall k :: 0 <= k < |t.migrations| ==> MergeWithin(t, t.migrations[k]);
  }

  lemma UsableBatch(t: Taxonomy, draws: seq<Draw>)
    requires Usable(t) && Unmixed(draws) && ApplyChanges(t, draws).BatchDone?
    ensures Usable(ApplyChanges(t, draws).next) && Later(t, ApplyChanges(t, draws).next)
  {
    ForwardBatch(t, draws);
    MergesStart(t);
    MergesWithinAll(NewVersion(t), draws);
    LaterAll(NewVersion(t), draws);
    LaterTrans(t, NewVersion(t), ApplyChanges(t, draws).next);
  }

  /** Over every run, every version is usable, and later than those before it. */
  lemma {:induction false} UsableRun(run: seq<Taxonomy>, batches: seq<seq<Draw>>, m: nat, n: nat)
    requires IsRun(run, batches) && m <= n < |run|
    ensures Usable(run[n]) && Usable(run[m]) && Later(run[m], run[n])
    decreases n
  {
    if n == 0 {
      RunStarts(run, batches);
    } else {
      UsableRun(run, batches, if m < n then m else n - 1, n - 1);
      UsableVersion(run[n - 1], run[n], batches[n - 1]);
      if m < n {
        LaterTrans(run[m], run[n - 1], run[n]);
      }
    }
  }

  lemma UsableVersion(t: Taxonomy, u: Taxonomy, draws: seq<Draw>)
    requires Usable(t) && Steps(t, u, draws)
    ensures Usable(u) && Later(t, u)
  {
    UsableBatch(t, draws);
  }

  // ---------------------------------------------------------------------- features and values, later

  lemma FeatureIdAt(t: Taxonomy, i: nat, j: nat)
    requires UniqueIds(t) && Has(t, AtValue(i, j))
    ensures FeatureIdOf(t, At(t, AtValue(i, j)).id) == Some(t.features[i].item.id)
  {
    FindAt(t, AtValue(i, j));
  }

  /** A listed value's feature never changes. */
  lemma FeatureIdLater(t: Taxonomy, u: Taxonomy, value: Id)
    requires Later(t, u) && UniqueIds(u) && FeatureIdOf(t, value).Some?
    ensures FeatureIdOf(u, value) == FeatureIdOf(t, value)
    ensures TakesOneValue(u, FeatureIdOf(t, value).value) == TakesOneValue(t, FeatureIdOf(t, value).value)
  {
    var p := Find(t, ValueSubject, ById(value)).value;
    FindKept(t, u, ValueSubject, value);
    assert Has(t, AtFeature(p.i)) && Has(u, AtFeature(p.i));
    assert At(u, AtFeature(p.i)).id == At(t, AtFeature(p.i)).id;
    TakesOneLater(t, u, p.i);
  }

  lemma TakesOneLater(t: Taxonomy, u: Taxonomy, i: nat)
    requires Later(t, u) && UniqueIds(u) && i < |t.features|
    ensures TakesOneValue(u, t.features[i].item.id) == TakesOneValue(t, t.features[i].item.id)
  {
    assert Has(t, AtFeature(i)) && Has(u, AtFeature(i));
    EmbedsKeepsUnique(t, u);
    FindAt(t, AtFeature(i));
    FindAt(u, AtFeature(i));
    assert At(u, AtFeature(i)).id == At(t, AtFeature(i)).id;
  }

  /** Following a merge keeps a value's feature. */
  lemma NextKeepsFeature(t: Taxonomy, value: Id)
    requires Usable(t) && Next(t, ValueSubject, value).Some?
    ensures FeatureIdOf(t, Next(t, ValueSubject, value).value) == FeatureIdOf(t, value)
  {
    var p := Find(t, ValueSubject, ById(value)).value;
    var k := MergeOf(t, p).value;
    assert MergeWithin(t, t.migrations[k]);
  }

  /** What a value resolves to is of the same feature. */
  lemma {:induction false} ResolveKeepsFeature(t: Taxonomy, value: Id)
    requires Usable(t) && Resolve(t, ValueSubject, value).Some?
    ensures FeatureIdOf(t, value).Some?
    ensures FeatureIdOf(t, Resolve(t, ValueSubject, value).value) == FeatureIdOf(t, value)
    decreases Height(t, ValueSubject, value)
  {
    ResolveMeans(t, ValueSubject, value);
    if !LiveId(t, ValueSubject, value) {
      NextIsNearer(t, ValueSubject, value);
      NextKeepsFeature(t, value);
      ResolveKeepsFeature(t, Next(t, ValueSubject, value).value);
    }
  }

  /** A feature stands for itself, or for nothing. */
  lemma FeatureResolves(t: Taxonomy, featureId: Id)
    requires Usable(t)
    ensures Resolve(t, FeatureSubject, featureId) == if LiveId(t, FeatureSubject, featureId) then Some(featureId) else None
  {
    ResolveMeans(t, FeatureSubject, featureId);
    forall k | 0 <= k < |t.migrations|
      ensures t.migrations[k].kind == Merged ==> t.migrations[k].subject != FeatureSubject
    {
      assert MergeWithin(t, t.migrations[k]);
    }
  }
}
