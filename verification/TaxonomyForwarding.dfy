/**
 Merge forwarding: `resolveId` (platform/core/src/taxonomy.ts:590-611) follows the merges that
 retired an item. Over every run of batches that don't mix merges with restores, following them
 always gets to later merges, so it ends; and following them now or later comes to the same item.
 */
module TaxonomyForwarding {
  import opened Basics
  import opened Taxonomies
  import opened TaxonomyChanges
  import opened TaxonomySteps

  predicate MergesFrom(m: Migration, subject: Subject, from: Id, stamp: Option<nat>) {
    m.kind == Merged && m.subject == subject && m.from == from && Some(m.version) == stamp
  }

  /** `migrations.findLast(...)`: the last merge of an item in the version it is retired in. */
  function LastMerge(migrations: seq<Migration>, subject: Subject, from: Id, stamp: Option<nat>): (found: Option<nat>)
    ensures found.Some? ==>
      && found.value < |migrations|
      && MergesFrom(migrations[found.value], subject, from, stamp)
      && forall k :: found.value < k < |migrations| ==> !MergesFrom(migrations[k], subject, from, stamp)
    ensures found.None? ==>
      forall k :: 0 <= k < |migrations| ==> !MergesFrom(migrations[k], subject, from, stamp)
  {
    if migrations == [] then None
    else if MergesFrom(migrations[|migrations| - 1], subject, from, stamp) then Some(|migrations| - 1)
    else LastMerge(migrations[..|migrations| - 1], subject, from, stamp)
  }

  /** The merge a retired item is forwarded by, if one retired it. */
  function MergeOf(t: Taxonomy, p: Pos): (found: Option<nat>)
    requires Has(t, p)
    ensures found.Some? ==> found.value < |t.migrations|
  {
    if Live(At(t, p)) then None else LastMerge(t.migrations, KindOf(p), At(t, p).id, Stamp(t, p))
  }

  /** The item an ID stands for, in at most this many steps. */
  function ResolveIn(t: Taxonomy, subject: Subject, id: Id, steps: nat): Option<Id>
    decreases steps
  {
    if steps == 0 then None
    else
      match Find(t, subject, ById(id))
      case None => None
      case Some(p) =>
        if Live(At(t, p)) then Some(At(t, p).id)
        else
          match MergeOf(t, p)
          case None => None
          case Some(k) =>
            if t.migrations[k].to.ToOne? then ResolveIn(t, subject, t.migrations[k].to.id, steps - 1) else None
  }

  /** `resolveId`: in at most one step more than there are migrations. */
  function Resolve(t: Taxonomy, subject: Subject, id: Id): Option<Id> {
    ResolveIn(t, subject, id, |t.migrations| + 1)
  }

  /** What resolving gives is live. */
  lemma {:induction false} ResolveInLive(t: Taxonomy, subject: Subject, id: Id, steps: nat)
    ensures ResolveIn(t, subject, id, steps).Some? ==> LiveId(t, subject, ResolveIn(t, subject, id, steps).value)
    decreases steps
  {
    if steps > 0 && Find(t, subject, ById(id)).Some? {
      var p := Find(t, subject, ById(id)).value;
      if !Live(At(t, p)) && MergeOf(t, p).Some? && t.migrations[MergeOf(t, p).value].to.ToOne? {
        ResolveInLive(t, subject, t.migrations[MergeOf(t, p).value].to.id, steps - 1);
      }
    }
  }

  method ResolveId(t: Taxonomy, subject: Subject, itemId: Id) returns (live: Option<Id>)
    ensures live == Resolve(t, subject, itemId)
  {
    var current := itemId;
    for steps := 0 to |t.migrations| + 1
      invariant Resolve(t, subject, itemId) == ResolveIn(t, subject, current, |t.migrations| + 1 - steps)
    {
      var found := Find(t, subject, ById(current));
      if found == None {
        return None;
      }
      if Live(At(t, found.value)) {
        return Some(At(t, found.value).id);
      }
      var merge := MergeOf(t, found.value);
      if merge == None || !t.migrations[merge.value].to.ToOne? {
        return None;
      }
      current := t.migrations[merge.value].to.id;
    }
    return None;
  }

  // ---------------------------------------------------------------------- the invariant

  /** Whether a migration is a merge from an item that is retired in the merge's version. */
  predicate CurrentMerge(t: Taxonomy, k: nat) {
    && k < |t.migrations|
    && t.migrations[k].kind == Merged
    && match Find(t, t.migrations[k].subject, ById(t.migrations[k].from))
       case None => false
       case Some(p) => Stamp(t, p) == Some(t.migrations[k].version)
  }

  /** Whether a merge leads to the item another one is from. */
  predicate LeadsTo(t: Taxonomy, k: nat, l: nat)
    requires k < |t.migrations| && l < |t.migrations|
  {
    t.migrations[k].subject == t.migrations[l].subject && t.migrations[k].to == ToOne(t.migrations[l].from)
  }

  /** A current merge leads only to later ones. */
  ghost predicate Forward(t: Taxonomy) {
    forall k, l :: CurrentMerge(t, k) && CurrentMerge(t, l) && LeadsTo(t, k, l) ==> k < l
  }

  /** While a batch is applied, the merges it made are current, and a batch that restores makes none. */
  ghost predicate MergesKept(t: Taxonomy, restoring: bool) {
    forall k :: 0 <= k < |t.migrations| && t.migrations[k].kind == Merged && t.migrations[k].version >= t.version ==>
      !restoring && CurrentMerge(t, k)
  }

  predicate Keeps(c: Change, restoring: bool) {
    if restoring then !c.Merge? else !c.Restore?
  }

  lemma FindKept(t: Taxonomy, u: Taxonomy, subject: Subject, id: Id)
    requires UniqueIds(u) && Embeds(t, u)
    ensures Find(t, subject, ById(id)).Some? ==> Find(u, subject, ById(id)) == Find(t, subject, ById(id))
    ensures Find(t, subject, ById(id)).None? && Find(u, subject, ById(id)).Some? ==>
      !Has(t, Find(u, subject, ById(id)).value)
  {
    var found := Find(t, subject, ById(id));
    if found.Some? {
      FindAt(u, found.value);
    }
  }

  lemma EmbedsKeepsUnique(t: Taxonomy, u: Taxonomy)
    requires Embeds(t, u) && UniqueIds(u)
    ensures UniqueIds(t)
  {
  }

  /** Only a merge adds a merge. */
  lemma MergeMigrations(t: Taxonomy, d: Draw)
    requires ApplyOne(t, d).Done?
    ensures
      var u := ApplyOne(t, d).next;
      if d.change.Merge? then
        var p, q := LiveItem(t, d.change.mergeable, d.change.from), LiveItem(t, d.change.mergeable, d.change.into);
        && p.Some? && q.Some? && p != q
        && u.migrations == t.migrations +
             [Migration(t.version, Merged, d.change.mergeable, At(t, p.value).id, ToOne(At(t, q.value).id))]
      else
        || u.migrations == t.migrations
        || exists m :: u.migrations == t.migrations + [m] && m.kind != Merged
  {
    var u := ApplyOne(t, d).next;
    if d.change.Split? {
      var id := At(t, LiveItem(t, ShelfSubject, d.change.item).value).id;
      PushChildrenShape(t, id, d.change.children, d.ids);
    } else if d.change.Retire? {
      RetireAtShape(t, LiveItem(t, d.change.subject, d.change.item).value, d);
    } else if d.change.Restore? {
      RestoreAtShape(t, Find(t, d.change.subject, d.change.item).value, d);
    }
    if !d.change.Merge? {
      OneMore(t.migrations, u.migrations);
    }
  }

  lemma OneMore(before: seq<Migration>, after: seq<Migration>)
    requires before == after || (|after| == |before| + 1 && before == after[..|before|] && after[|before|].kind != Merged)
    ensures after == before || exists m :: after == before + [m] && m.kind != Merged
  {
    if after != before {
      assert after == before + [after[|before|]];
    }
  }

  ghost predicate MergesListed(t: Taxonomy) {
    forall k :: 0 <= k < |t.migrations| && t.migrations[k].kind == Merged ==>
      && Listed(t, t.migrations[k].subject, t.migrations[k].from)
      && t.migrations[k].to.ToOne?
      && Listed(t, t.migrations[k].subject, t.migrations[k].to.id)
  }

  /** What a batch keeps of merge forwarding while it is applied. */
  ghost predicate InBatch(t: Taxonomy, restoring: bool) {
    Forward(t) && MergesKept(t, restoring) && MergesListed(t)
  }

  lemma MergesListedStep(t: Taxonomy, d: Draw)
    requires ApplyOne(t, d).Done? && UniqueIds(ApplyOne(t, d).next)
    requires MergesListed(t)
    ensures MergesListed(ApplyOne(t, d).next)
  {
    var u := ApplyOne(t, d).next;
    StepShape(t, d);
    MergeMigrations(t, d);
    forall k | 0 <= k < |u.migrations| && u.migrations[k].kind == Merged
      ensures Listed(u, u.migrations[k].subject, u.migrations[k].from)
      ensures u.migrations[k].to.ToOne? && Listed(u, u.migrations[k].subject, u.migrations[k].to.id)
    {
      if k < |t.migrations| {
        assert u.migrations[k] == t.migrations[k];
        FindKept(t, u, t.migrations[k].subject, t.migrations[k].from);
        FindKept(t, u, t.migrations[k].subject, t.migrations[k].to.id);
      } else {
        FindAt(u, LiveItem(t, d.change.mergeable, d.change.from).value);
        FindAt(u, LiveItem(t, d.change.mergeable, d.change.into).value);
      }
    }
  }

  /** No change makes an earlier merge current again. */
  lemma OldMergeStep(t: Taxonomy, d: Draw, restoring: bool, k: nat)
    requires ApplyOne(t, d).Done? && UniqueIds(ApplyOne(t, d).next)
    requires InBatch(t, restoring) && k < |t.migrations|
    ensures CurrentMerge(ApplyOne(t, d).next, k) ==> CurrentMerge(t, k)
    ensures !restoring && !d.change.Restore? && CurrentMerge(t, k) ==> CurrentMerge(ApplyOne(t, d).next, k)
  {
    var u := ApplyOne(t, d).next;
    StepShape(t, d);
    MergeMigrations(t, d);
    assert u.migrations[k] == t.migrations[k];
    if t.migrations[k].kind == Merged {
      FindKept(t, u, t.migrations[k].subject, t.migrations[k].from);
      var p := Find(t, t.migrations[k].subject, ById(t.migrations[k].from)).value;
      assert Stamp(u, p) == NewStamp(t, d.change, p);
    }
  }

  lemma NewMergeStep(t: Taxonomy, d: Draw)
    requires d.change.Merge? && ApplyOne(t, d).Done? && UniqueIds(ApplyOne(t, d).next)
    ensures CurrentMerge(ApplyOne(t, d).next, |t.migrations|)
    ensures
      var u := ApplyOne(t, d).next;
      forall l :: CurrentMerge(u, l) ==> !LeadsTo(u, |t.migrations|, l)
  {
    var u := ApplyOne(t, d).next;
    StepShape(t, d);
    MergeMigrations(t, d);
    var p := LiveItem(t, d.change.mergeable, d.change.from).value;
    var q := LiveItem(t, d.change.mergeable, d.change.into).value;
    FindAt(u, p);
    FindAt(u, q);
    assert Stamp(u, p) == NewStamp(t, d.change, p);
    assert Stamp(u, q) == NewStamp(t, d.change, q);
  }

  lemma ForwardStep(t: Taxonomy, d: Draw, restoring: bool)
    requires ApplyOne(t, d).Done? && UniqueIds(ApplyOne(t, d).next)
    requires InBatch(t, restoring) && Keeps(d.change, restoring)
    ensures InBatch(ApplyOne(t, d).next, restoring)
  {
    MergesListedStep(t, d);
    ForwardPairs(t, d, restoring);
    MergesKeptStep(t, d, restoring);
  }

  lemma ForwardPairs(t: Taxonomy, d: Draw, restoring: bool)
    requires ApplyOne(t, d).Done? && UniqueIds(ApplyOne(t, d).next)
    requires InBatch(t, restoring) && Keeps(d.change, restoring)
    ensures Forward(ApplyOne(t, d).next)
  {
    var u := ApplyOne(t, d).next;
    MergeMigrations(t, d);
    if d.change.Merge? {
      NewMergeStep(t, d);
    }
    forall k: nat, l: nat | CurrentMerge(u, k) && CurrentMerge(u, l) && LeadsTo(u, k, l)
      ensures k < l
    {
      if k < |t.migrations| && l < |t.migrations| {
        OldMergeStep(t, d, restoring, k);
        OldMergeStep(t, d, restoring, l);
        assert LeadsTo(t, k, l);
      }
    }
  }

  lemma MergesKeptStep(t: Taxonomy, d: Draw, restoring: bool)
    requires ApplyOne(t, d).Done? && UniqueIds(ApplyOne(t, d).next)
    requires InBatch(t, restoring) && Keeps(d.change, restoring)
    ensures MergesKept(ApplyOne(t, d).next, restoring)
  {
    var u := ApplyOne(t, d).next;
    MergeMigrations(t, d);
    StepShape(t, d);
    if d.change.Merge? {
      NewMergeStep(t, d);
    }
    forall k: nat | k < |u.migrations| && u.migrations[k].kind == Merged && u.migrations[k].version >= u.version
      ensures !restoring && CurrentMerge(u, k)
    {
      if k < |t.migrations| {
        OldMergeStep(t, d, restoring, k);
      }
    }
  }

  // ---------------------------------------------------------------------- batches and runs

  lemma {:induction false} EmbedsAll(t: Taxonomy, draws: seq<Draw>)
    requires ApplyAll(t, draws).BatchDone?
    ensures Embeds(t, ApplyAll(t, draws).next)
    ensures ApplyAll(t, draws).next.version == t.version
    decreases |draws|
  {
    if draws != [] {
      StepShape(t, draws[0]);
      EmbedsAll(ApplyOne(t, draws[0]).next, draws[1..]);
    }
  }

  lemma {:induction false} ForwardAll(t: Taxonomy, draws: seq<Draw>, restoring: bool)
    requires ApplyAll(t, draws).BatchDone? && UniqueIds(ApplyAll(t, draws).next)
    requires forall k :: 0 <= k < |draws| ==> Keeps(draws[k].change, restoring)
    requires InBatch(t, restoring)
    ensures InBatch(ApplyAll(t, draws).next, restoring)
    decreases |draws|
  {
    if draws != [] {
      var next := ApplyOne(t, draws[0]).next;
      EmbedsAll(next, draws[1..]);
      EmbedsKeepsUnique(next, ApplyAll(next, draws[1..]).next);
      ForwardStep(t, draws[0], restoring);
      ForwardAll(next, draws[1..], restoring);
    }
  }

  /** A batch a person or a proposal may send has no restore; an undo has no merge. */
  predicate Unmixed(draws: seq<Draw>) {
    || (forall k :: 0 <= k < |draws| ==> Keeps(draws[k].change, false))
    || (forall k :: 0 <= k < |draws| ==> Keeps(draws[k].change, true))
  }

  /** The batch that undoes another is never mixed. */
  lemma UndoIsUnmixed(applied: seq<Applied>)
    ensures Unmixed(Undo(applied))
  {
    assert forall k :: 0 <= k < |Undo(applied)| ==> Keeps(Undo(applied)[k].change, true);
  }

  ghost predicate Steps(t: Taxonomy, u: Taxonomy, draws: seq<Draw>) {
    Unmixed(draws) && ApplyChanges(t, draws).BatchDone? && ApplyChanges(t, draws).next == u
  }

  /** A run: versions one after another from one with no migration yet, each by an unmixed batch. */
  ghost predicate IsRun(run: seq<Taxonomy>, batches: seq<seq<Draw>>) {
    && |run| == |batches| + 1
    && Valid(run[0]) && run[0].migrations == []
    && forall k :: 0 <= k < |batches| ==> Steps(run[k], run[k + 1], batches[k])
  }

  /** A new version starts a batch with merge forwarding as it was. */
  lemma ForwardStart(t: Taxonomy, restoring: bool)
    requires Valid(t) && Forward(t)
    ensures InBatch(NewVersion(t), restoring)
  {
    var u := NewVersion(t);
    assert forall subject, ref :: Find(u, subject, ref) == Find(t, subject, ref);
    forall k: nat, l: nat | CurrentMerge(u, k) && CurrentMerge(u, l) && LeadsTo(u, k, l)
      ensures k < l
    {
      assert CurrentMerge(t, k) && CurrentMerge(t, l) && LeadsTo(t, k, l);
    }
    forall k: nat | k < |u.migrations| && u.migrations[k].kind == Merged
      ensures Listed(u, u.migrations[k].subject, u.migrations[k].from)
      ensures u.migrations[k].to.ToOne? && Listed(u, u.migrations[k].subject, u.migrations[k].to.id)
      ensures u.migrations[k].version < u.version
    {
      assert MigrationFits(t, t.migrations[k]);
    }
  }

  /**
   * An unmixed batch keeps merge forwarding acyclic. Being unmixed is enough, and not needed: a batch may
   * mix a merge of one item with a restore of another. What a version is made by is unmixed all the same,
   * as a proposal holds no restore and an undo no merge.
   */
  lemma ForwardBatch(t: Taxonomy, draws: seq<Draw>)
    requires Valid(t) && Forward(t) && Unmixed(draws) && ApplyChanges(t, draws).BatchDone?
    ensures Forward(ApplyChanges(t, draws).next)
  {
    var restoring := !forall k :: 0 <= k < |draws| ==> Keeps(draws[k].change, false);
    ForwardStart(t, restoring);
    ForwardAll(NewVersion(t), draws, restoring);
  }

  lemma ForwardVersion(t: Taxonomy, u: Taxonomy, draws: seq<Draw>)
    requires Valid(t) && Forward(t) && Steps(t, u, draws)
    ensures Valid(u) && Forward(u)
  {
    ForwardBatch(t, draws);
  }

  /** A run starts usable, with nothing forwarded. */
  lemma RunStarts(run: seq<Taxonomy>, batches: seq<seq<Draw>>)
    requires IsRun(run, batches)
    ensures Valid(run[0]) && Forward(run[0])
  {
  }

  /** Over every run, every version's merge forwarding is acyclic. */
  lemma {:induction false} ForwardRun(run: seq<Taxonomy>, batches: seq<seq<Draw>>, n: nat)
    requires IsRun(run, batches) && n < |run|
    ensures Valid(run[n]) && Forward(run[n])
  {
    if n == 0 {
      RunStarts(run, batches);
    } else {
      ForwardRun(run, batches, n - 1);
      ForwardVersion(run[n - 1], run[n], batches[n - 1]);
    }
  }

  // ---------------------------------------------------------------------- resolving

  /** How far from its end an item's forwarding can be. */
  function Height(t: Taxonomy, subject: Subject, id: Id): nat {
    match Find(t, subject, ById(id))
    case None => 0
    case Some(p) =>
      match MergeOf(t, p)
      case None => 0
      case Some(k) => |t.migrations| - k
  }

  /** The item the one an ID names is forwarded to, if it is retired by a merge. */
  function Next(t: Taxonomy, subject: Subject, id: Id): Option<Id> {
    match Find(t, subject, ById(id))
    case None => None
    case Some(p) =>
      match MergeOf(t, p)
      case None => None
      case Some(k) => if t.migrations[k].to.ToOne? then Some(t.migrations[k].to.id) else None
  }

  predicate LiveId(t: Taxonomy, subject: Subject, id: Id) {
    LiveItem(t, subject, ById(id)).Some?
  }

  /** Following a merge gets nearer the end. */
  lemma NextIsNearer(t: Taxonomy, subject: Subject, id: Id)
    requires Valid(t) && Forward(t) && Next(t, subject, id).Some?
    ensures Height(t, subject, Next(t, subject, id).value) < Height(t, subject, id)
    ensures Listed(t, subject, Next(t, subject, id).value)
  {
    var p := Find(t, subject, ById(id)).value;
    var k := MergeOf(t, p).value;
    assert MigrationFits(t, t.migrations[k]);
    assert CurrentMerge(t, k);
    var to := t.migrations[k].to.id;
    var q := Find(t, subject, ById(to)).value;
    if MergeOf(t, q).Some? {
      var l := MergeOf(t, q).value;
      assert CurrentMerge(t, l);
      assert LeadsTo(t, k, l);
    }
  }

  /** One step of resolving: it ends at a live item, or goes to where an item was merged. */
  lemma ResolveStep(t: Taxonomy, subject: Subject, id: Id, steps: nat)
    requires steps > 0
    ensures ResolveIn(t, subject, id, steps) ==
      if LiveId(t, subject, id) then Some(id)
      else if Next(t, subject, id).Some? then ResolveIn(t, subject, Next(t, subject, id).value, steps - 1)
      else None
  {
  }

  /** More steps than an item's height change nothing. */
  lemma {:induction false} StepsEnough(t: Taxonomy, subject: Subject, id: Id, steps: nat, more: nat)
    requires Valid(t) && Forward(t)
    requires Height(t, subject, id) < steps <= more
    ensures ResolveIn(t, subject, id, steps) == ResolveIn(t, subject, id, more)
    decreases steps
  {
    ResolveStep(t, subject, id, steps);
    ResolveStep(t, subject, id, more);
    if Next(t, subject, id).Some? {
      NextIsNearer(t, subject, id);
      StepsEnough(t, subject, Next(t, subject, id).value, steps - 1, more - 1);
    }
  }

  /** What resolving means, with no count of steps: it never runs out. */
  lemma ResolveMeans(t: Taxonomy, subject: Subject, id: Id)
    requires Valid(t) && Forward(t)
    ensures Resolve(t, subject, id) ==
      if LiveId(t, subject, id) then Some(id)
      else if Next(t, subject, id).Some? then Resolve(t, subject, Next(t, subject, id).value)
      else None
  {
    if Next(t, subject, id).Some? {
      NextIsNearer(t, subject, id);
      StepsEnough(t, subject, Next(t, subject, id).value, |t.migrations|, |t.migrations| + 1);
    }
  }

  /** The items an ID is forwarded through, each by a later merge than the one before. */
  ghost predicate IsPath(t: Taxonomy, subject: Subject, path: seq<Id>) {
    && path != []
    && (forall k :: 0 <= k < |path| - 1 ==> Next(t, subject, path[k]) == Some(path[k + 1]))
    && (forall k :: 0 <= k < |path| - 1 ==> Height(t, subject, path[k]) > Height(t, subject, path[k + 1]))
  }

  lemma LongerPath(t: Taxonomy, subject: Subject, id: Id, rest: seq<Id>)
    requires IsPath(t, subject, rest) && Next(t, subject, id) == Some(rest[0])
    requires Height(t, subject, id) > Height(t, subject, rest[0])
    ensures IsPath(t, subject, [id] + rest)
  {
    var path := [id] + rest;
    forall k | 0 <= k < |path| - 1
      ensures Next(t, subject, path[k]) == Some(path[k + 1])
      ensures Height(t, subject, path[k]) > Height(t, subject, path[k + 1])
    {
      if k > 0 {
        assert path[k] == rest[k - 1] && path[k + 1] == rest[k];
      }
    }
  }

  /**
   * Resolving ends, by merges that only get later, at a live item, which it gives, or at one that is
   * unknown or retired into nothing, for which it gives nothing.
   */
  lemma {:induction false} ResolveEnds(t: Taxonomy, subject: Subject, id: Id) returns (path: seq<Id>)
    requires Valid(t) && Forward(t)
    ensures IsPath(t, subject, path) && path[0] == id && |path| <= |t.migrations| + 1
    ensures
      var end := path[|path| - 1];
      && Next(t, subject, end) == None
      && Resolve(t, subject, id) == (if LiveId(t, subject, end) then Some(end) else None)
    ensures |path| <= Height(t, subject, id) + 1
    decreases Height(t, subject, id)
  {
    ResolveMeans(t, subject, id);
    if Next(t, subject, id).Some? {
      NextIsNearer(t, subject, id);
      var rest := ResolveEnds(t, subject, Next(t, subject, id).value);
      path := [id] + rest;
      LongerPath(t, subject, id, rest);
    } else {
      path := [id];
    }
  }
}
