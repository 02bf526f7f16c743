/**
 Resolving across versions: over versions that restore nothing, resolving an ID and resolving what
 it resolved to come to the same item, which is what lets stored answers be brought up to date once
 or at every version alike (platform/core/src/taxonomy.ts:590-611).
 */
module TaxonomyResolution {
  import opened Basics
  import opened Taxonomies
  import opened TaxonomyChanges
  import opened TaxonomySteps
  import opened TaxonomyForwarding

  /** `u` comes after `t` with nothing restored: what was retired stays so, and by the same merge. */
  ghost predicate Follows(t: Taxonomy, u: Taxonomy) {
    && Embeds(t, u)
    && t.migrations <= u.migrations
    && (forall p :: Has(t, p) && !Live(At(t, p)) ==> Stamp(u, p) == Stamp(t, p))
    && (forall k, p :: |t.migrations| <= k < |u.migrations| && Has(t, p) && !Live(At(t, p)) ==>
          !MergesFrom(u.migrations[k], KindOf(p), At(t, p).id, Stamp(t, p)))
  }

  lemma FollowsTrans(t: Taxonomy, u: Taxonomy, v: Taxonomy)
    requires Follows(t, u) && Follows(u, v)
    ensures Follows(t, v)
  {
    forall k, p | |t.migrations| <= k < |v.migrations| && Has(t, p) && !Live(At(t, p))
      ensures !MergesFrom(v.migrations[k], KindOf(p), At(t, p).id, Stamp(t, p))
    {
      assert Stamp(u, p) == Stamp(t, p);
      if k < |u.migrations| {
        assert v.migrations[k] == u.migrations[k];
      }
    }
  }

  lemma FollowsStep(t: Taxonomy, d: Draw)
    requires ApplyOne(t, d).Done? && UniqueIds(t) && !d.change.Restore?
    ensures Follows(t, ApplyOne(t, d).next)
  {
    var u := ApplyOne(t, d).next;
    StepShape(t, d);
    MergeMigrations(t, d);
    forall p | Has(t, p) && !Live(At(t, p))
      ensures Stamp(u, p) == Stamp(t, p)
    {
      assert Stamp(u, p) == NewStamp(t, d.change, p);
    }
  }

  lemma {:induction false} FollowsAll(t: Taxonomy, draws: seq<Draw>)
    requires ApplyAll(t, draws).BatchDone? && UniqueIds(ApplyAll(t, draws).next)
    requires forall k :: 0 <= k < |draws| ==> !draws[k].change.Restore?
    ensures Follows(t, ApplyAll(t, draws).next)
    decreases |draws|
  {
    if draws != [] {
      var next := ApplyOne(t, draws[0]).next;
      EmbedsAll(t, draws);
      EmbedsAll(next, draws[1..]);
      FollowsStep(t, draws[0]);
      FollowsAll(next, draws[1..]);
      FollowsTrans(t, next, ApplyAll(next, draws[1..]).next);
    }
  }

  /** A version made with no restore follows the one before it. */
  lemma FollowsBatch(t: Taxonomy, draws: seq<Draw>)
    requires ApplyChanges(t, draws).BatchDone?
    requires forall k :: 0 <= k < |draws| ==> !draws[k].change.Restore?
    ensures Follows(t, ApplyChanges(t, draws).next)
  {
    FollowsAll(NewVersion(t), draws);
  }

  lemma LastMergeKept(ms: seq<Migration>, later: seq<Migration>, subject: Subject, from: Id, stamp: Option<nat>)
    requires ms <= later
    requires forall k :: |ms| <= k < |later| ==> !MergesFrom(later[k], subject, from, stamp)
    ensures LastMerge(later, subject, from, stamp) == LastMerge(ms, subject, from, stamp)
  {
    var a, b := LastMerge(ms, subject, from, stamp), LastMerge(later, subject, from, stamp);
    if b.Some? {
      assert later[b.value] == ms[b.value];
    }
    if a.Some? {
      assert later[a.value] == ms[a.value];
    }
  }

  /** A retired item is forwarded to the same item ever after. */
  lemma NextKept(t: Taxonomy, u: Taxonomy, subject: Subject, id: Id)
    requires Follows(t, u) && UniqueIds(u)
    requires Listed(t, subject, id) && !LiveId(t, subject, id)
    ensures !LiveId(u, subject, id) && Next(u, subject, id) == Next(t, subject, id)
  {
    FindKept(t, u, subject, id);
    var p := Find(t, subject, ById(id)).value;
    LastMergeKept(t.migrations, u.migrations, subject, id, Stamp(t, p));
  }

  /** Resolving later is resolving now, and then resolving later what came of it. */
  lemma {:induction false} ResolveLater(t: Taxonomy, u: Taxonomy, subject: Subject, id: Id)
    requires Valid(t) && Forward(t) && Valid(u) && Forward(u) && Follows(t, u)
    requires Listed(t, subject, id)
    ensures Resolve(u, subject, id) ==
      match Resolve(t, subject, id) case Some(now) => Resolve(u, subject, now) case None => None
    decreases Height(t, subject, id)
  {
    ResolveMeans(t, subject, id);
    ResolveMeans(u, subject, id);
    if !LiveId(t, subject, id) {
      NextKept(t, u, subject, id);
      if Next(t, subject, id).Some? {
        NextIsNearer(t, subject, id);
        ResolveLater(t, u, subject, Next(t, subject, id).value);
      }
    }
  }

  /** What an ID resolves to is live. */
  lemma {:induction false} ResolveLive(t: Taxonomy, subject: Subject, id: Id)
    requires Valid(t) && Forward(t)
    ensures Resolve(t, subject, id).Some? ==>
      LiveId(t, subject, Resolve(t, subject, id).value)
    decreases Height(t, subject, id)
  {
    ResolveMeans(t, subject, id);
    if !LiveId(t, subject, id) && Next(t, subject, id).Some? {
      NextIsNearer(t, subject, id);
      ResolveLive(t, subject, Next(t, subject, id).value);
    }
  }

  /** After merging one item into another, what stood for the first stands for the second, and nothing else moves. */
  lemma MergeResolves(t: Taxonomy, d: Draw, subject: Subject, id: Id)
    requires Valid(t) && Forward(t) && d.change.Merge?
    requires ApplyChanges(t, [d]).BatchDone?
    requires Listed(t, subject, id)
    ensures LiveItem(t, d.change.mergeable, d.change.from).Some? && LiveItem(t, d.change.mergeable, d.change.into).Some?
    ensures
      var from := At(t, LiveItem(t, d.change.mergeable, d.change.from).value).id;
      var into := At(t, LiveItem(t, d.change.mergeable, d.change.into).value).id;
      var before := Resolve(t, subject, id);
      Resolve(ApplyChanges(t, [d]).next, subject, id) ==
        if subject == d.change.mergeable && before == Some(from) then Some(into) else before
  {
    AfterMerge(t, d);
    ResolveLater(t, ApplyChanges(t, [d]).next, subject, id);
    ResolveLive(t, subject, id);
    if Resolve(t, subject, id).Some? {
      LiveAfterMerge(t, d, subject, Resolve(t, subject, id).value);
    }
  }

  lemma AfterMerge(t: Taxonomy, d: Draw)
    requires Valid(t) && Forward(t) && d.change.Merge?
    requires ApplyChanges(t, [d]).BatchDone?
    ensures LiveItem(t, d.change.mergeable, d.change.from).Some? && LiveItem(t, d.change.mergeable, d.change.into).Some?
    ensures Forward(ApplyChanges(t, [d]).next) && Follows(t, ApplyChanges(t, [d]).next)
  {
    assert Unmixed([d]);
    ForwardBatch(t, [d]);
    FollowsBatch(t, [d]);
    SingleBatch(t, d);
    FindNewVersion(t);
  }

  lemma LiveAfterMerge(t: Taxonomy, d: Draw, subject: Subject, id: Id)
    requires Valid(t) && d.change.Merge? && ApplyChanges(t, [d]).BatchDone?
    requires Forward(ApplyChanges(t, [d]).next)
    requires LiveId(t, subject, id)
    ensures LiveItem(t, d.change.mergeable, d.change.from).Some? && LiveItem(t, d.change.mergeable, d.change.into).Some?
    ensures
      var from := At(t, LiveItem(t, d.change.mergeable, d.change.from).value).id;
      var into := At(t, LiveItem(t, d.change.mergeable, d.change.into).value).id;
      Resolve(ApplyChanges(t, [d]).next, subject, id) ==
        Some(if subject == d.change.mergeable && id == from then into else id)
  {
    SingleBatch(t, d);
    FindNewVersion(t);
    LiveMerged(NewVersion(t), d, subject, id);
  }

  lemma LiveMerged(t: Taxonomy, d: Draw, subject: Subject, id: Id)
    requires d.change.Merge? && ApplyOne(t, d).Done? && Valid(ApplyOne(t, d).next) && Forward(ApplyOne(t, d).next)
    requires LiveId(t, subject, id)
    ensures
      var from := At(t, LiveItem(t, d.change.mergeable, d.change.from).value).id;
      var into := At(t, LiveItem(t, d.change.mergeable, d.change.into).value).id;
      Resolve(ApplyOne(t, d).next, subject, id) == Some(if subject == d.change.mergeable && id == from then into else id)
  {
    MergedIn(t, d, subject, id);
    ResolveShort(ApplyOne(t, d).next, subject, id);
  }

  /** Resolving what is live, or is forwarded to what is. */
  lemma ResolveShort(t: Taxonomy, subject: Subject, id: Id)
    requires Valid(t) && Forward(t)
    requires LiveId(t, subject, id) || (Next(t, subject, id).Some? && LiveId(t, subject, Next(t, subject, id).value))
    ensures Resolve(t, subject, id) == if LiveId(t, subject, id) then Some(id) else Next(t, subject, id)
  {
    ResolveMeans(t, subject, id);
    if !LiveId(t, subject, id) {
      ResolveMeans(t, subject, Next(t, subject, id).value);
    }
  }

  /** A merge forwards the item it retires, and leaves every other live. */
  lemma MergedIn(t: Taxonomy, d: Draw, subject: Subject, id: Id)
    requires d.change.Merge? && ApplyOne(t, d).Done? && UniqueIds(ApplyOne(t, d).next)
    requires LiveId(t, subject, id)
    ensures
      var u := ApplyOne(t, d).next;
      var p, q := LiveItem(t, d.change.mergeable, d.change.from).value, LiveItem(t, d.change.mergeable, d.change.into).value;
      if subject == d.change.mergeable && id == At(t, p).id then
        && !LiveId(u, subject, id)
        && Next(u, subject, id) == Some(At(t, q).id)
        && LiveId(u, subject, At(t, q).id)
      else LiveId(u, subject, id)
  {
    var u := ApplyOne(t, d).next;
    StepShape(t, d);
    MergeMigrations(t, d);
    var p, q := LiveItem(t, d.change.mergeable, d.change.from).value, LiveItem(t, d.change.mergeable, d.change.into).value;
    FindAt(u, p);
    FindAt(u, q);
    FindKept(t, u, subject, id);
    assert Stamp(u, p) == NewStamp(t, d.change, p);
    assert Stamp(u, q) == NewStamp(t, d.change, q);
    var x := Find(t, subject, ById(id)).value;
    assert Stamp(u, x) == NewStamp(t, d.change, x);
    EmbedsKeepsUnique(t, u);
    FindAt(t, p);
  }
}
