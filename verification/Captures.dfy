/**
 The page archive (platform/store/src/captures.ts): which captures retention lets go, what deleting
 captures frees, and purging a source. Tables are lists of rows with unique IDs, times are milliseconds,
 and the queries' orders are by time and then by ID.
 */
module Captures {
  import opened Basics
  import opened Sorting

  type Id = string

  const KEEP_MS := 365 * 24 * 60 * 60 * 1000
  const KEEP_EARLIER := 10

  datatype Capture = Capture(
    id: Id, dataset: Id, item: Id, source: Id, fetchedAt: int, hash: string, readKey: Option<string>)

  /** A page, with its stored copy's hash. */
  datatype Item = Item(id: Id, dataset: Id, source: Id, hash: Option<string>)

  /** A fetch of a page, with the hash it logged. */
  datatype Fetch = Fetch(id: Id, item: Id, hash: Option<string>)

  /** A current statement's citation. */
  datatype Statement = Statement(id: Id, capture: Option<Id>, withdrawn: bool)

  ghost predicate UniqueIds(rows: seq<Capture>) {
    forall i, j :: 0 <= i < j < |rows| ==> rows[i].id != rows[j].id
  }

  // ---------------------------------------------------------------------- what retention lets go

  /** `order by fetched_at, id` */
  predicate Older(a: Capture, b: Capture) {
    a.fetchedAt < b.fetchedAt || (a.fetchedAt == b.fetchedAt && TextLess(a.id, b.id))
  }

  /** `n > 1`: a page's capture that isn't its latest. */
  predicate Earlier(rows: seq<Capture>, r: Capture) {
    exists s :: s in rows && s.item == r.item && Older(r, s)
  }

  /** `content_hash = latest_hash` */
  predicate Copy(rows: seq<Capture>, r: Capture) {
    exists s :: s in rows && s.item == r.item && s.hash == r.hash && !Earlier(rows, s)
  }

  /** A page's earlier captures at least as late as one, copies or not alike. */
  predicate CountsFor(rows: seq<Capture>, r: Capture, s: Capture) {
    s.item == r.item && Earlier(rows, s) && Copy(rows, s) == Copy(rows, r) && !Older(s, r)
  }

  /** `k`: which of its page's earlier captures it is, the latest first. */
  function Number(rows: seq<Capture>, r: Capture): nat {
    |Filter(Counts(rows, r), rows)|
  }

  function Counts(rows: seq<Capture>, r: Capture): Capture -> bool {
    (s: Capture) => CountsFor(rows, r, s)
  }

  predicate Cited(statements: seq<Statement>, id: Id) {
    exists s :: s in statements && s.capture == Some(id) && !s.withdrawn
  }

  /** Whether a statement cites a capture that is deleted. */
  predicate CitesGone(rows: seq<Capture>, s: Statement, ids: seq<Id>) {
    s.capture.Some? && s.capture.value in ids && exists r :: r in rows && r.id == s.capture.value
  }

  /** Statements once some captures are deleted: those that cited one cite none. */
  ghost predicate Cleared(rows: seq<Capture>, before: seq<Statement>, after: seq<Statement>, ids: seq<Id>) {
    && |after| == |before|
    && forall k :: 0 <= k < |after| ==>
         after[k] == if CitesGone(rows, before[k], ids) then before[k].(capture := None) else before[k]
  }

  /** Current statements that cite the same captures. */
  ghost predicate SameCitations(a: seq<Statement>, b: seq<Statement>) {
    forall id :: Cited(a, id) == Cited(b, id)
  }

  /** Whether retention lets a capture go. */
  predicate Goes(rows: seq<Capture>, cutoff: int, statements: seq<Statement>, r: Capture) {
    && Earlier(rows, r)
    && (Copy(rows, r) || Number(rows, r) > KEEP_EARLIER || r.fetchedAt < cutoff)
    && !Cited(statements, r.id)
  }

  function InDataset(dataset: Id): Capture -> bool {
    (r: Capture) => r.dataset == dataset
  }

  function Of(rows: seq<Capture>, dataset: Id): seq<Capture> {
    Filter(InDataset(dataset), rows)
  }

  function GoesFrom(rows: seq<Capture>, cutoff: int, statements: seq<Statement>): Capture -> bool {
    (r: Capture) => Goes(rows, cutoff, statements, r)
  }

  /** Everything a dataset's retention lets go, oldest first. */
  function Prunable(rows: seq<Capture>, dataset: Id, now: int, statements: seq<Statement>): seq<Capture> {
    var own := Of(rows, dataset);
    SortBy(Older, Filter(GoesFrom(own, now - KEEP_MS, statements), own))
  }

  function First<T>(list: seq<T>, limit: nat): seq<T> {
    list[..if limit < |list| then limit else |list|]
  }

  function Rest<T>(list: seq<T>, limit: nat): seq<T> {
    list[if limit < |list| then limit else |list|..]
  }

  function Ids(rows: seq<Capture>): (ids: seq<Id>)
    ensures |ids| == |rows| && forall k :: 0 <= k < |rows| ==> ids[k] == rows[k].id
  {
    seq(|rows|, k requires 0 <= k < |rows| => rows[k].id)
  }

  /** `prunableCaptures` */
  function PrunableCaptures(rows: seq<Capture>, dataset: Id, now: int, limit: nat, statements: seq<Statement>): seq<Id> {
    Ids(First(Prunable(rows, dataset, now, statements), limit))
  }

  function Stays(ids: seq<Id>): Capture -> bool {
    (r: Capture) => r.id !in ids
  }

  function Without(rows: seq<Capture>, ids: seq<Id>): seq<Capture> {
    Filter(Stays(ids), rows)
  }

  // ---------------------------------------------------------------------- what a deletion frees

  predicate HeldByCapture(rows: seq<Capture>, hash: string) {
    exists r :: r in rows && r.hash == hash
  }

  predicate HeldByPage(items: seq<Item>, hash: string) {
    exists page :: page in items && page.hash == Some(hash)
  }

  function Hashes(rows: seq<Capture>): (hashes: seq<string>)
    ensures |hashes| == |rows| && forall k :: 0 <= k < |rows| ==> hashes[k] == rows[k].hash
  {
    seq(|rows|, k requires 0 <= k < |rows| => rows[k].hash)
  }

  function Going(rows: seq<Capture>, ids: seq<Id>): seq<Capture> {
    Filter((r: Capture) => r.id in ids, rows)
  }

  /** `freedKeys(...).hashes`, before its sort by code unit. */
  function FreedHashes(rows: seq<Capture>, items: seq<Item>, ids: seq<Id>): seq<string> {
    var staying := Without(rows, ids);
    Filter((hash: string) => !HeldByCapture(staying, hash) && !HeldByPage(items, hash), Unique(Hashes(Going(rows, ids))))
  }

  // ---------------------------------------------------------------------- purging a source

  predicate PageOf(dataset: Id, source: Id, page: Item) {
    page.dataset == dataset && page.source == source
  }

  predicate PagePurged(items: seq<Item>, dataset: Id, source: Id, id: Id) {
    exists page :: page in items && PageOf(dataset, source, page) && page.id == id
  }

  /** A capture goes with a source when it was taken under it, or its page is the source's now. */
  predicate Purged(items: seq<Item>, dataset: Id, source: Id, r: Capture) {
    r.dataset == dataset && (r.source == source || PagePurged(items, dataset, source, r.item))
  }

  function PurgedIds(rows: seq<Capture>, items: seq<Item>, dataset: Id, source: Id): seq<Id> {
    Ids(Filter((r: Capture) => Purged(items, dataset, source, r), rows))
  }

  lemma PurgedHas(rows: seq<Capture>, items: seq<Item>, dataset: Id, source: Id)
    requires UniqueIds(rows)
    ensures forall r :: r in rows ==> (r.id in PurgedIds(rows, items, dataset, source) <==> Purged(items, dataset, source, r))
  {
    var purged := Filter((r: Capture) => Purged(items, dataset, source, r), rows);
    var ids := Ids(purged);
    forall r | r in rows
      ensures r.id in ids <==> Purged(items, dataset, source, r)
    {
      if r.id in ids {
        var k :| 0 <= k < |ids| && ids[k] == r.id;
        assert purged[k] in purged;
        SameRow(rows, r, purged[k]);
      }
      if r in purged {
        var k :| 0 <= k < |purged| && purged[k] == r;
        assert ids[k] == r.id;
      }
    }
  }

  /** Whether a purge names a body: a capture, a page or a fetch of the source's has it. */
  ghost predicate PurgeNames(rows: seq<Capture>, items: seq<Item>, fetches: seq<Fetch>, dataset: Id, source: Id, hash: string) {
    || (exists r :: r in rows && Purged(items, dataset, source, r) && r.hash == hash)
    || (exists page :: page in items && PageOf(dataset, source, page) && page.hash == Some(hash))
    || (exists f :: f in fetches && PagePurged(items, dataset, source, f.item) && f.hash == Some(hash))
  }

  /** Whether something a purge leaves holds a body. */
  ghost predicate HeldElsewhere(rows: seq<Capture>, items: seq<Item>, dataset: Id, source: Id, hash: string) {
    || (exists r :: r in rows && !Purged(items, dataset, source, r) && r.hash == hash)
    || (exists page :: page in items && page.hash == Some(hash) && !PagePurged(items, dataset, source, page.id))
  }

  /** `purgeKeys(...).hashes`: the bodies a purge frees. */
  ghost predicate PurgeFrees(rows: seq<Capture>, items: seq<Item>, fetches: seq<Fetch>, dataset: Id, source: Id, hash: string) {
    PurgeNames(rows, items, fetches, dataset, source, hash) && !HeldElsewhere(rows, items, dataset, source, hash)
  }

  // ---------------------------------------------------------------------- deleting, in batches

  method DeleteRows(rows: seq<Capture>, statements: seq<Statement>, ids: seq<Id>)
    returns (left: seq<Capture>, cleared: seq<Statement>)
    ensures left == Without(rows, ids) && Cleared(rows, statements, cleared, ids)
  {
    left := Without(rows, ids);
    cleared := [];
    for k := 0 to |statements|
      invariant |cleared| == k
      invariant forall i :: 0 <= i < k ==>
        cleared[i] == if CitesGone(rows, statements[i], ids) then statements[i].(capture := None) else statements[i]
    {
      var s := statements[k];
      cleared := cleared + [if CitesGone(rows, s, ids) then s.(capture := None) else s];
    }
  }

  /** What batches leave, one after another, at a fixed time and with fixed citations. */
  ghost function Batches(rows: seq<Capture>, dataset: Id, now: int, limit: nat, statements: seq<Statement>): seq<Capture>
    requires limit > 0 && UniqueIds(rows)
    decreases |Prunable(rows, dataset, now, statements)|
  {
    var ids := PrunableCaptures(rows, dataset, now, limit, statements);
    if ids == [] then rows
    else
      BatchStep(rows, dataset, now, limit, statements);
      Batches(Without(rows, ids), dataset, now, limit, statements)
  }

  // ---------------------------------------------------------------------- the tables

  /** How many of a source's pages have a stored copy. */
  function StoredCopies(dataset: Id, source: Id, items: seq<Item>): nat {
    if items == [] then 0
    else
      var last := items[|items| - 1];
      StoredCopies(dataset, source, items[..|items| - 1])
      + if PageOf(dataset, source, last) && last.hash.Some? then 1 else 0
  }

  class Archive {
    var captures: seq<Capture>
    var items: seq<Item>
    var fetches: seq<Fetch>
    var statements: seq<Statement>

    constructor (captures: seq<Capture>, items: seq<Item>, fetches: seq<Fetch>, statements: seq<Statement>)
      ensures this.captures == captures && this.items == items && this.fetches == fetches && this.statements == statements
    {
      this.captures, this.items, this.fetches, this.statements := captures, items, fetches, statements;
    }

    /** `recordCapture`: once; recording it again gives back what is there. */
    method Record(capture: Capture) returns (row: Capture)
      requires UniqueIds(captures)
      modifies this`captures
      ensures UniqueIds(captures) && row in captures && row.id == capture.id
      ensures captures == if row in old(captures) then old(captures) else old(captures) + [capture]
      ensures row !in old(captures) ==> row == capture
      ensures row in old(captures) <==> exists r :: r in old(captures) && r.id == capture.id
    {
      for k := 0 to |captures|
        invariant captures == old(captures)
        invariant forall i :: 0 <= i < k ==> captures[i].id != capture.id
      {
        if captures[k].id == capture.id {
          return captures[k];
        }
      }
      captures := captures + [capture];
      row := capture;
    }

    /** `deleteCaptures`: a statement that cited one cites none. */
    method Delete(ids: seq<Id>) returns (deleted: nat)
      modifies this`captures, this`statements
      ensures captures == Without(old(captures), ids)
      ensures Cleared(old(captures), old(statements), statements, ids)
      ensures deleted == |old(captures)| - |captures|
    {
      var left, cleared := DeleteRows(captures, statements, ids);
      deleted := |captures| - |left|;
      captures, statements := left, cleared;
    }

    /** `cleanUpCaptures`: one batch a run. */
    method CleanUp(dataset: Id, now: int, limit: nat) returns (pruned: nat)
      modifies this`captures, this`statements
      ensures captures == Without(old(captures), PrunableCaptures(old(captures), dataset, now, limit, old(statements)))
      ensures SameCitations(statements, old(statements))
      ensures pruned == |old(captures)| - |captures|
    {
      var ids := PrunableCaptures(captures, dataset, now, limit, statements);
      pruned := 0;
      if ids != [] {
        pruned := Delete(ids);
        CitationsKept(old(captures), old(statements), statements, ids, dataset, now, limit, old(statements));
      } else {
        NothingGone(captures);
      }
    }

    /** `purgeSource` */
    method PurgeSource(dataset: Id, source: Id) returns (purged: nat, forgotten: nat)
      requires UniqueIds(captures)
      modifies this
      ensures Cleared(old(captures), old(statements), statements, PurgedIds(old(captures), old(items), dataset, source))
      ensures forall r :: r in captures <==> r in old(captures) && !Purged(old(items), dataset, source, r)
      ensures |items| == |old(items)| && |fetches| == |old(fetches)|
      ensures forall k :: 0 <= k < |items| ==>
        items[k] == if PageOf(dataset, source, old(items)[k]) then old(items)[k].(hash := None) else old(items)[k]
      ensures forall k :: 0 <= k < |fetches| ==>
        fetches[k] == if PagePurged(old(items), dataset, source, old(fetches)[k].item) then old(fetches)[k].(hash := None)
                      else old(fetches)[k]
      ensures purged == |old(captures)| - |captures| && forgotten == StoredCopies(dataset, source, old(items))
    {
      var pages, before := items, captures;
      PurgedHas(captures, items, dataset, source);
      var left, cleared := DeleteRows(captures, statements, PurgedIds(captures, pages, dataset, source));
      purged := |before| - |left|;
      forgotten := 0;
      var copies: seq<Item> := [];
      for k := 0 to |pages|
        invariant |copies| == k && forgotten == StoredCopies(dataset, source, pages[..k])
        invariant forall i :: 0 <= i < k ==>
          copies[i] == if PageOf(dataset, source, pages[i]) then pages[i].(hash := None) else pages[i]
      {
        assert pages[..k + 1][..k] == pages[..k];
        if PageOf(dataset, source, pages[k]) && pages[k].hash.Some? {
          copies := copies + [pages[k].(hash := None)];
          forgotten := forgotten + 1;
        } else {
          copies := copies + [pages[k]];
        }
      }
      assert pages[..|pages|] == pages;
      var logged: seq<Fetch> := [];
      for k := 0 to |fetches|
        invariant |logged| == k && fetches == old(fetches)
        invariant forall i :: 0 <= i < k ==>
          logged[i] == if PagePurged(pages, dataset, source, fetches[i].item) then fetches[i].(hash := None) else fetches[i]
      {
        logged := logged + [if PagePurged(pages, dataset, source, fetches[k].item) then fetches[k].(hash := None) else fetches[k]];
      }
      captures, statements, items, fetches := left, cleared, copies, logged;
    }
  }

  // ---------------------------------------------------------------------- the order

  lemma OlderOrders()
    ensures Orders(Older)
  {
    forall a, b | Older(a, b)
      ensures !Older(b, a)
    {
      TextLessTotal(a.id, b.id);
    }
    forall a, b, c | !Older(b, a) && !Older(c, b)
      ensures !Older(c, a)
    {
      TextLessTotal(a.id, b.id);
      TextLessTotal(b.id, c.id);
      TextLessTotal(a.id, c.id);
      if TextLess(a.id, b.id) && TextLess(b.id, c.id) {
        TextLessTrans(a.id, b.id, c.id);
      }
    }
  }

  lemma OlderOrSame(a: Capture, b: Capture)
    requires a.id != b.id
    ensures Older(a, b) || Older(b, a)
  {
    TextLessTotal(a.id, b.id);
  }

  // ---------------------------------------------------------------------- deleting some

  lemma {:induction false} FilterBoth<T(!new)>(p: T -> bool, q: T -> bool, both: T -> bool, list: seq<T>)
    requires forall x :: x in list ==> both(x) == (p(x) && q(x))
    ensures Filter(p, Filter(q, list)) == Filter(both, list)
  {
    if list != [] {
      var front, last := list[..|list| - 1], list[|list| - 1];
      assert list == front + [last];
      FilterBoth(p, q, both, front);
      if q(last) {
        FilterFront(p, Filter(q, front), last);
      }
    }
  }

  lemma {:induction false} FilterSwap<T(!new)>(p: T -> bool, q: T -> bool, list: seq<T>)
    ensures Filter(p, Filter(q, list)) == Filter(q, Filter(p, list))
  {
    if list != [] {
      var front, last := list[..|list| - 1], list[|list| - 1];
      FilterSwap(p, q, front);
      if q(last) {
        FilterFront(p, Filter(q, front), last);
      }
      if p(last) {
        FilterFront(q, Filter(p, front), last);
      }
    }
  }

  lemma {:induction false} FilterAll<T(!new)>(p: T -> bool, list: seq<T>)
    requires forall x :: x in list ==> p(x)
    ensures Filter(p, list) == list
  {
    if list != [] {
      var front, last := list[..|list| - 1], list[|list| - 1];
      assert list == front + [last];
      FilterAll(p, front);
    }
  }

  lemma {:induction false} FilterSame<T(!new)>(p: T -> bool, q: T -> bool, list: seq<T>)
    requires forall x :: x in list ==> p(x) == q(x)
    ensures Filter(p, list) == Filter(q, list)
  {
    if list != [] {
      var front, last := list[..|list| - 1], list[|list| - 1];
      assert list == front + [last];
      FilterSame(p, q, front);
    }
  }

  lemma NothingGone(rows: seq<Capture>)
    ensures Without(rows, []) == rows
  {
    FilterAll(Stays([]), rows);
  }

  lemma WithoutBoth(rows: seq<Capture>, a: seq<Id>, b: seq<Id>)
    ensures Without(Without(rows, a), b) == Without(rows, a + b)
  {
    FilterBoth(Stays(b), Stays(a), Stays(a + b), rows);
  }

  lemma WithoutUnique(rows: seq<Capture>, ids: seq<Id>)
    requires UniqueIds(rows)
    ensures UniqueIds(Without(rows, ids))
  {
    FilterUnique(Stays(ids), rows);
  }

  lemma {:induction false} FilterUnique(keep: Capture -> bool, rows: seq<Capture>)
    requires UniqueIds(rows)
    ensures UniqueIds(Filter(keep, rows))
  {
    if rows != [] {
      var front, last := rows[..|rows| - 1], rows[|rows| - 1];
      FilterUnique(keep, front);
      var kept := Filter(keep, front);
      forall i | 0 <= i < |kept|
        ensures kept[i].id != last.id
      {
        assert kept[i] in front;
      }
    }
  }

  // ---------------------------------------------------------------------- one batch

  /** Rows of which some that go have been deleted. */
  ghost predicate Deleted(rows: seq<Capture>, cutoff: int, statements: seq<Statement>, ids: seq<Id>) {
    UniqueIds(rows) && forall r :: r in rows && r.id in ids ==> Goes(rows, cutoff, statements, r)
  }

  lemma {:induction false} LatestOf(rows: seq<Capture>, item: Id) returns (latest: Capture)
    requires exists r :: r in rows && r.item == item
    ensures latest in rows && latest.item == item
    ensures forall r :: r in rows && r.item == item ==> !Older(latest, r)
  {
    OlderOrders();
    var front, last := rows[..|rows| - 1], rows[|rows| - 1];
    assert rows == front + [last];
    if exists r :: r in front && r.item == item {
      var before := LatestOf(front, item);
      latest := if last.item == item && Older(before, last) then last else before;
    } else {
      latest := last;
    }
  }

  /** What is earlier stays so, and what is latest too: a page's latest is never deleted. */
  lemma EarlierStays(rows: seq<Capture>, cutoff: int, statements: seq<Statement>, ids: seq<Id>, r: Capture)
    requires Deleted(rows, cutoff, statements, ids) && r in rows
    ensures Earlier(Without(rows, ids), r) == Earlier(rows, r)
  {
    if Earlier(rows, r) {
      var latest := LatestOf(rows, r.item);
      var s :| s in rows && s.item == r.item && Older(r, s);
      OlderOrders();
      assert !Earlier(rows, latest);
      assert latest in Without(rows, ids);
      assert Older(r, latest);
    }
  }

  lemma CopyStays(rows: seq<Capture>, cutoff: int, statements: seq<Statement>, ids: seq<Id>, r: Capture)
    requires Deleted(rows, cutoff, statements, ids) && r in rows
    ensures Copy(Without(rows, ids), r) == Copy(rows, r)
  {
    var left := Without(rows, ids);
    if s :| s in rows && s.item == r.item && s.hash == r.hash && !Earlier(rows, s) {
      EarlierStays(rows, cutoff, statements, ids, s);
      assert s in left;
    }
    if s :| s in left && s.item == r.item && s.hash == r.hash && !Earlier(left, s) {
      EarlierStays(rows, cutoff, statements, ids, s);
    }
  }

  /** A row's number among its page's earlier captures never rises. */
  lemma NumberFalls(rows: seq<Capture>, cutoff: int, statements: seq<Statement>, ids: seq<Id>, r: Capture)
    requires Deleted(rows, cutoff, statements, ids) && r in rows
    ensures Filter(Counts(Without(rows, ids), r), Without(rows, ids)) == Filter(Stays(ids), Filter(Counts(rows, r), rows))
    ensures Number(Without(rows, ids), r) <= Number(rows, r)
  {
    var left, counts := Without(rows, ids), Counts(rows, r);
    CountsStay(rows, cutoff, statements, ids, r);
    FilterSame(Counts(left, r), counts, left);
    FilterSwap(counts, Stays(ids), rows);
  }

  lemma {:induction false} LatestIn(rows: seq<Capture>) returns (latest: Capture)
    requires rows != []
    ensures latest in rows && forall r :: r in rows ==> !Older(latest, r)
  {
    OlderOrders();
    var front, last := rows[..|rows| - 1], rows[|rows| - 1];
    assert rows == front + [last];
    if front == [] {
      latest := last;
    } else {
      var before := LatestIn(front);
      latest := if Older(before, last) then last else before;
    }
  }

  lemma {:induction false} FilterFewer<T(!new)>(p: T -> bool, q: T -> bool, list: seq<T>)
    requires forall x :: x in list && p(x) ==> q(x)
    ensures |Filter(p, list)| <= |Filter(q, list)|
  {
    if list != [] {
      var front, last := list[..|list| - 1], list[|list| - 1];
      assert list == front + [last];
      FilterFewer(p, q, front);
    }
  }

  lemma {:induction false} FilterOneFewer<T(!new)>(p: T -> bool, q: T -> bool, list: seq<T>, one: T)
    requires forall x :: x in list && p(x) ==> q(x)
    requires one in list && q(one) && !p(one)
    ensures |Filter(p, list)| < |Filter(q, list)|
  {
    var front, last := list[..|list| - 1], list[|list| - 1];
    assert list == front + [last];
    if one == last {
      FilterFewer(p, q, front);
    } else {
      FilterOneFewer(p, q, front, one);
    }
  }

  lemma {:induction false} FilterButOne(keep: Capture -> bool, rows: seq<Capture>, one: Capture)
    requires UniqueIds(rows)
    ensures |Filter(keep, rows)| <= |Filter((s: Capture) => keep(s) && s != one, rows)| + 1
  {
    var others := (s: Capture) => keep(s) && s != one;
    if rows != [] {
      var front, last := rows[..|rows| - 1], rows[|rows| - 1];
      assert rows == front + [last];
      FilterButOne(keep, front, one);
      if last == one {
        FilterSame(keep, others, front);
      }
    }
  }

  /**
   * A capture too many that is recent, and no copy, is still one too many: the latest that went before it was itself, so
   * it has ten before it that stay.
   */
  lemma StillTooMany(rows: seq<Capture>, cutoff: int, statements: seq<Statement>, ids: seq<Id>, r: Capture)
    requires Deleted(rows, cutoff, statements, ids) && r in rows && r.id !in ids
    requires Goes(rows, cutoff, statements, r) && !Copy(rows, r) && r.fetchedAt >= cutoff
    ensures |Filter(Stays(ids), Filter(Counts(rows, r), rows))| > KEEP_EARLIER
  {
    var counts := Counts(rows, r);
    var went := Filter((s: Capture) => s.id in ids, Filter(counts, rows));
    if went == [] {
      forall s | s in Filter(counts, rows)
        ensures Stays(ids)(s)
      {
        assert s.id in ids ==> s in went;
      }
      FilterAll(Stays(ids), Filter(counts, rows));
    } else {
      var d := LatestIn(went);
      TenBefore(rows, cutoff, statements, ids, r, d);
    }
  }

  lemma TenBefore(rows: seq<Capture>, cutoff: int, statements: seq<Statement>, ids: seq<Id>, r: Capture, d: Capture)
    requires Deleted(rows, cutoff, statements, ids) && r in rows && r.id !in ids && d in rows && d.id in ids
    requires Goes(rows, cutoff, statements, r) && !Copy(rows, r) && r.fetchedAt >= cutoff
    requires CountsFor(rows, r, d)
    requires forall s :: s in rows && s.id in ids && CountsFor(rows, r, s) ==> !Older(d, s)
    ensures |Filter(Stays(ids), Filter(Counts(rows, r), rows))| > KEEP_EARLIER
  {
    OlderOrders();
    var counts, before := Counts(rows, r), Counts(rows, d);
    var others := (s: Capture) => before(s) && s != d;
    var kept := (s: Capture) => Stays(ids)(s) && counts(s);
    assert Number(rows, d) > KEEP_EARLIER;
    FilterButOne(before, rows, d);
    OlderOrSame(r, d);
    forall s | s in rows && others(s)
      ensures kept(s)
    {
      BeforeStays(rows, ids, r, d, s);
    }
    FilterOneFewer(others, kept, rows, r);
    FilterBoth(Stays(ids), counts, kept, rows);
  }

  lemma BeforeStays(rows: seq<Capture>, ids: seq<Id>, r: Capture, d: Capture, s: Capture)
    requires UniqueIds(rows) && d in rows && s in rows && s != d && CountsFor(rows, d, s) && CountsFor(rows, r, d)
    requires forall x :: x in rows && x.id in ids && CountsFor(rows, r, x) ==> !Older(d, x)
    ensures Stays(ids)(s) && CountsFor(rows, r, s)
  {
    OlderOrders();
    if s.id == d.id {
      SameRow(rows, s, d);
    }
    OlderOrSame(s, d);
  }

  lemma CountsStay(rows: seq<Capture>, cutoff: int, statements: seq<Statement>, ids: seq<Id>, r: Capture)
    requires Deleted(rows, cutoff, statements, ids) && r in rows
    ensures forall s :: s in Without(rows, ids) ==> CountsFor(Without(rows, ids), r, s) == CountsFor(rows, r, s)
  {
    CopyStays(rows, cutoff, statements, ids, r);
    forall s | s in Without(rows, ids)
      ensures CountsFor(Without(rows, ids), r, s) == CountsFor(rows, r, s)
    {
      EarlierStays(rows, cutoff, statements, ids, s);
      CopyStays(rows, cutoff, statements, ids, s);
    }
  }

  /** What goes after some that go are deleted is what went before, without them. */
  lemma GoesStays(rows: seq<Capture>, cutoff: int, statements: seq<Statement>, ids: seq<Id>, r: Capture)
    requires Deleted(rows, cutoff, statements, ids) && r in rows && r.id !in ids
    ensures Goes(Without(rows, ids), cutoff, statements, r) == Goes(rows, cutoff, statements, r)
  {
    EarlierStays(rows, cutoff, statements, ids, r);
    CopyStays(rows, cutoff, statements, ids, r);
    NumberFalls(rows, cutoff, statements, ids, r);
    if Goes(rows, cutoff, statements, r) && !Copy(rows, r) && r.fetchedAt >= cutoff {
      StillTooMany(rows, cutoff, statements, ids, r);
    }
  }

  lemma PrunableHas(rows: seq<Capture>, dataset: Id, now: int, statements: seq<Statement>)
    ensures
      var own, pruned := Of(rows, dataset), Prunable(rows, dataset, now, statements);
      && InOrderBy(Older, pruned)
      && (forall r :: r in pruned <==> r in own && Goes(own, now - KEEP_MS, statements, r))
      && (UniqueIds(rows) ==> UniqueIds(own) && UniqueIds(pruned))
  {
    var own := Of(rows, dataset);
    var goes := GoesFrom(own, now - KEEP_MS, statements);
    var list := Filter(goes, own);
    OlderOrders();
    SortOrders(Older, list);
    forall r
      ensures r in Prunable(rows, dataset, now, statements) <==> r in list
    {
      SortHas(Older, list, r);
    }
    if UniqueIds(rows) {
      FilterUnique(InDataset(dataset), rows);
      FilterUnique(goes, own);
      SortUnique(list);
    }
  }

  lemma SortUnique(rows: seq<Capture>)
    requires UniqueIds(rows)
    ensures UniqueIds(SortBy(Older, rows))
  {
    var sorted := SortBy(Older, rows);
    SortKeeps(Older, rows);
    SameElements(sorted, rows);
    forall i, j | 0 <= i < j < |sorted|
      ensures sorted[i].id != sorted[j].id
    {
      assert sorted[i] in rows && sorted[j] in rows;
      if sorted[i] == sorted[j] {
        TwiceThere(sorted, i, j);
        OnceThere(rows, sorted[i]);
      }
    }
  }

  lemma TwiceThere(rows: seq<Capture>, i: nat, j: nat)
    requires i < j < |rows| && rows[i] == rows[j]
    ensures multiset(rows)[rows[i]] >= 2
  {
    assert rows == rows[..j] + [rows[j]] + rows[j + 1..];
    assert rows[i] in rows[..j];
  }

  lemma {:induction false} OnceThere(rows: seq<Capture>, r: Capture)
    requires UniqueIds(rows)
    ensures multiset(rows)[r] <= 1
  {
    if rows != [] {
      var front, last := rows[..|rows| - 1], rows[|rows| - 1];
      OnceThere(front, r);
      assert rows == front + [last];
      assert r == last ==> r !in front && r !in multiset(front);
    }
  }

  /** A batch deletes some that go. */
  lemma BatchDeletes(rows: seq<Capture>, dataset: Id, now: int, limit: nat, statements: seq<Statement>)
    requires UniqueIds(rows)
    ensures Deleted(Of(rows, dataset), now - KEEP_MS, statements, PrunableCaptures(rows, dataset, now, limit, statements))
  {
    var own, pruned := Of(rows, dataset), Prunable(rows, dataset, now, statements);
    var m := if limit < |pruned| then limit else |pruned|;
    PrunableHas(rows, dataset, now, statements);
    FirstDeleted(own, pruned, m, now - KEEP_MS, statements);
  }

  /** The first of what goes all go. */
  lemma FirstDeleted(own: seq<Capture>, pruned: seq<Capture>, m: nat, cutoff: int, statements: seq<Statement>)
    requires UniqueIds(own) && m <= |pruned|
    requires forall r :: r in pruned <==> r in own && Goes(own, cutoff, statements, r)
    ensures Deleted(own, cutoff, statements, Ids(pruned[..m]))
  {
    var ids := Ids(pruned[..m]);
    forall r | r in own && r.id in ids
      ensures r in pruned[..m]
    {
      var k :| 0 <= k < m && ids[k] == r.id;
      assert pruned[k] in pruned;
      SameRow(own, r, pruned[k]);
    }
  }

  lemma SameRow(rows: seq<Capture>, r: Capture, s: Capture)
    requires UniqueIds(rows) && r in rows && s in rows && r.id == s.id
    ensures r == s
  {
    var i :| 0 <= i < |rows| && rows[i] == r;
    var j :| 0 <= j < |rows| && rows[j] == s;
  }

  lemma {:induction false} WithoutFirst(rows: seq<Capture>, m: nat)
    requires UniqueIds(rows) && m <= |rows|
    ensures Without(rows, Ids(rows[..m])) == rows[m..]
  {
    var notFirst := Stays(Ids(rows[..m]));
    if |rows| > m {
      var front, last := rows[..|rows| - 1], rows[|rows| - 1];
      WithoutFirst(front, m);
      assert front[..m] == rows[..m];
      assert last.id !in Ids(rows[..m]);
      assert rows[m..] == front[m..] + [last];
    } else {
      forall r | r in rows
        ensures !notFirst(r)
      {
        var k :| 0 <= k < |rows| && rows[k] == r;
        assert Ids(rows[..m])[k] == r.id;
      }
      FilterNothing(notFirst, rows);
    }
  }

  lemma OfWithout(rows: seq<Capture>, dataset: Id, ids: seq<Id>)
    ensures Of(Without(rows, ids), dataset) == Without(Of(rows, dataset), ids)
  {
    FilterSwap(InDataset(dataset), Stays(ids), rows);
  }

  /** What is left to let go, once some of what goes is deleted, is what there was, without that. */
  lemma AfterSome(rows: seq<Capture>, dataset: Id, now: int, statements: seq<Statement>, ids: seq<Id>)
    requires Deleted(Of(rows, dataset), now - KEEP_MS, statements, ids)
    ensures Prunable(Without(rows, ids), dataset, now, statements) == Without(Prunable(rows, dataset, now, statements), ids)
  {
    var own := Of(rows, dataset);
    var left := Without(own, ids);
    OfWithout(rows, dataset, ids);
    var goes, goesNow := GoesFrom(own, now - KEEP_MS, statements), GoesFrom(left, now - KEEP_MS, statements);
    forall r | r in left
      ensures goesNow(r) == goes(r)
    {
      GoesStays(own, now - KEEP_MS, statements, ids, r);
    }
    FilterSame(goesNow, goes, left);
    GoingWithout(own, goes, ids);
  }

  /** What a batch leaves to let go is what there was to let go, without the batch. */
  lemma AfterBatch(rows: seq<Capture>, dataset: Id, now: int, limit: nat, statements: seq<Statement>)
    requires UniqueIds(rows)
    ensures
      Prunable(Without(rows, PrunableCaptures(rows, dataset, now, limit, statements)), dataset, now, statements)
      == Rest(Prunable(rows, dataset, now, statements), limit)
  {
    var pruned := Prunable(rows, dataset, now, statements);
    PrunableHas(rows, dataset, now, statements);
    BatchDeletes(rows, dataset, now, limit, statements);
    AfterSome(rows, dataset, now, statements, PrunableCaptures(rows, dataset, now, limit, statements));
    WithoutFirst(pruned, if limit < |pruned| then limit else |pruned|);
  }

  /** Sorting what goes and is left is leaving out of what goes, sorted. */
  lemma GoingWithout(own: seq<Capture>, goes: Capture -> bool, ids: seq<Id>)
    ensures SortBy(Older, Filter(goes, Without(own, ids))) == Without(SortBy(Older, Filter(goes, own)), ids)
  {
    OlderOrders();
    FilterSwap(goes, Stays(ids), own);
    SortFiltered(Older, Stays(ids), Filter(goes, own));
  }

  /** A batch's IDs among those of all that goes. */
  lemma BatchIds(whole: seq<Capture>, limit: nat)
    ensures
      var ids := Ids(First(whole, limit));
      && Ids(whole) == ids + Ids(Rest(whole, limit))
      && (limit > 0 && ids != [] ==> |Rest(whole, limit)| < |whole|)
      && (limit > 0 && ids == [] ==> whole == [])
  {
  }

  /** A batch leaves less to let go. */
  lemma BatchStep(rows: seq<Capture>, dataset: Id, now: int, limit: nat, statements: seq<Statement>)
    requires limit > 0 && UniqueIds(rows) && PrunableCaptures(rows, dataset, now, limit, statements) != []
    ensures
      var next := Without(rows, PrunableCaptures(rows, dataset, now, limit, statements));
      UniqueIds(next) && |Prunable(next, dataset, now, statements)| < |Prunable(rows, dataset, now, statements)|
  {
    AfterBatch(rows, dataset, now, limit, statements);
    BatchIds(Prunable(rows, dataset, now, statements), limit);
    WithoutUnique(rows, PrunableCaptures(rows, dataset, now, limit, statements));
  }

  /** Batches of any size delete exactly what one without a limit would. */
  lemma {:induction false} BatchesDelete(rows: seq<Capture>, dataset: Id, now: int, limit: nat, statements: seq<Statement>)
    requires limit > 0 && UniqueIds(rows)
    ensures Batches(rows, dataset, now, limit, statements) == Without(rows, Ids(Prunable(rows, dataset, now, statements)))
    decreases |Prunable(rows, dataset, now, statements)|
  {
    var whole, ids := Prunable(rows, dataset, now, statements), PrunableCaptures(rows, dataset, now, limit, statements);
    BatchIds(whole, limit);
    if ids == [] {
      NothingGone(rows);
    } else {
      BatchStep(rows, dataset, now, limit, statements);
      AfterBatch(rows, dataset, now, limit, statements);
      BatchesDelete(Without(rows, ids), dataset, now, limit, statements);
      WithoutBoth(rows, ids, Ids(Rest(whole, limit)));
    }
  }

  // ---------------------------------------------------------------------- runs, each at its own time

  /** A run's cleanup: when it started, the most it deletes, and the statements there are. */
  datatype Run = Run(now: int, limit: nat, statements: seq<Statement>)

  /** A run after another: no earlier, and with no capture cited that wasn't cited then. */
  ghost predicate Follows(a: Run, b: Run) {
    a.now <= b.now && forall id :: Cited(b.statements, id) ==> Cited(a.statements, id)
  }

  ghost predicate InTurn(runs: seq<Run>) {
    forall i, j :: 0 <= i < j < |runs| ==> Follows(runs[i], runs[j])
  }

  /** What runs leave, one batch each. */
  function Left(rows: seq<Capture>, dataset: Id, runs: seq<Run>): seq<Capture> {
    if runs == [] then rows
    else
      var before, run := Left(rows, dataset, runs[..|runs| - 1]), runs[|runs| - 1];
      Without(before, PrunableCaptures(before, dataset, run.now, run.limit, run.statements))
  }

  /** What they deleted. */
  function Gone(rows: seq<Capture>, dataset: Id, runs: seq<Run>): seq<Id> {
    if runs == [] then []
    else
      var before, run := Left(rows, dataset, runs[..|runs| - 1]), runs[|runs| - 1];
      Gone(rows, dataset, runs[..|runs| - 1]) + PrunableCaptures(before, dataset, run.now, run.limit, run.statements)
  }

  lemma {:induction false} LeftWithout(rows: seq<Capture>, dataset: Id, runs: seq<Run>)
    ensures Left(rows, dataset, runs) == Without(rows, Gone(rows, dataset, runs))
  {
    if runs == [] {
      NothingGone(rows);
    } else {
      var front, run := runs[..|runs| - 1], runs[|runs| - 1];
      LeftWithout(rows, dataset, front);
      WithoutBoth(rows, Gone(rows, dataset, front),
                  PrunableCaptures(Left(rows, dataset, front), dataset, run.now, run.limit, run.statements));
    }
  }

  /** The IDs are of captures of a dataset that go. */
  ghost predicate AllGo(rows: seq<Capture>, dataset: Id, now: int, statements: seq<Statement>, ids: seq<Id>) {
    forall r :: r in rows && r.id in ids ==> r in Of(rows, dataset) && Goes(Of(rows, dataset), now - KEEP_MS, statements, r)
  }

  /** What a batch deletes after some that go are deleted goes too, then or later. */
  lemma BatchGoes(rows: seq<Capture>, dataset: Id, gone: seq<Id>, run: Run, now: int, statements: seq<Statement>)
    requires UniqueIds(rows) && AllGo(rows, dataset, run.now, run.statements, gone) && run.now <= now
    requires forall id :: Cited(statements, id) ==> Cited(run.statements, id)
    ensures AllGo(rows, dataset, now, statements,
                  PrunableCaptures(Without(rows, gone), dataset, run.now, run.limit, run.statements))
  {
    var own, before := Of(rows, dataset), Without(rows, gone);
    var pruned := Prunable(before, dataset, run.now, run.statements);
    var ids := PrunableCaptures(before, dataset, run.now, run.limit, run.statements);
    PrunableHas(before, dataset, run.now, run.statements);
    FilterUnique(InDataset(dataset), rows);
    OfWithout(rows, dataset, gone);
    forall r | r in rows && r.id in ids
      ensures r in own && Goes(own, now - KEEP_MS, statements, r)
    {
      var k :| 0 <= k < |ids| && ids[k] == r.id;
      assert pruned[k] in pruned;
      SameRow(rows, r, pruned[k]);
      GoesStays(own, run.now - KEEP_MS, run.statements, gone, r);
    }
  }

  /** Whatever runs deleted goes at any later time. */
  lemma {:induction false} RunsGo(rows: seq<Capture>, dataset: Id, runs: seq<Run>, now: int, statements: seq<Statement>)
    requires UniqueIds(rows) && InTurn(runs)
    requires forall i :: 0 <= i < |runs| ==> Follows(runs[i], Run(now, 0, statements))
    ensures AllGo(rows, dataset, now, statements, Gone(rows, dataset, runs))
  {
    if runs != [] {
      var front, run := runs[..|runs| - 1], runs[|runs| - 1];
      RunsGo(rows, dataset, front, run.now, run.statements);
      RunsGo(rows, dataset, front, now, statements);
      LeftWithout(rows, dataset, front);
      BatchGoes(rows, dataset, Gone(rows, dataset, front), run, now, statements);
    }
  }

  /** Deleting what goes, some before and the rest after, is deleting it all. */
  lemma InTwoParts(rows: seq<Capture>, whole: seq<Capture>, gone: seq<Id>)
    requires UniqueIds(rows) && (forall r :: r in whole ==> r in rows)
    requires forall r :: r in rows && r.id in gone ==> r in whole
    ensures Without(Without(rows, gone), Ids(Without(whole, gone))) == Without(rows, Ids(whole))
  {
    var rest := Without(whole, gone);
    WithoutBoth(rows, gone, Ids(rest));
    forall r | r in rows
      ensures Stays(gone + Ids(rest))(r) == Stays(Ids(whole))(r)
    {
      IdsHave(rows, whole, r);
      IdsHave(rows, rest, r);
    }
    FilterSame(Stays(gone + Ids(rest)), Stays(Ids(whole)), rows);
  }

  lemma IdsHave(rows: seq<Capture>, some: seq<Capture>, r: Capture)
    requires UniqueIds(rows) && r in rows && forall s :: s in some ==> s in rows
    ensures r.id in Ids(some) <==> r in some
  {
    var ids := Ids(some);
    if r.id in ids {
      var k :| 0 <= k < |ids| && ids[k] == r.id;
      assert some[k] in some;
      SameRow(rows, r, some[k]);
    }
    if r in some {
      var k :| 0 <= k < |some| && some[k] == r;
      assert ids[k] == r.id;
    }
  }

  /** A batch short of its limit, after some that go are deleted, leaves what one without a limit would have. */
  lemma LastPrunes(rows: seq<Capture>, dataset: Id, gone: seq<Id>, last: Run)
    requires UniqueIds(rows) && AllGo(rows, dataset, last.now, last.statements, gone)
    requires |PrunableCaptures(Without(rows, gone), dataset, last.now, last.limit, last.statements)| < last.limit
    ensures
      var before := Without(rows, gone);
      Without(before, PrunableCaptures(before, dataset, last.now, last.limit, last.statements))
      == Without(rows, Ids(Prunable(rows, dataset, last.now, last.statements)))
  {
    var whole := Prunable(rows, dataset, last.now, last.statements);
    FilterUnique(InDataset(dataset), rows);
    AfterSome(rows, dataset, last.now, last.statements, gone);
    PrunableHas(rows, dataset, last.now, last.statements);
    InTwoParts(rows, whole, gone);
    assert First(Without(whole, gone), last.limit) == Without(whole, gone);
  }

  /**
   * Cleanups over any number of runs, each at its own time, with its own limit and citations: once a run deletes less
   * than its limit, what is left is exactly what one cleanup without a limit would have left there and then, had no run
   * before it deleted anything.
   */
  lemma RunsPrune(rows: seq<Capture>, dataset: Id, runs: seq<Run>)
    requires UniqueIds(rows) && InTurn(runs) && runs != []
    requires
      var before, last := Left(rows, dataset, runs[..|runs| - 1]), runs[|runs| - 1];
      |PrunableCaptures(before, dataset, last.now, last.limit, last.statements)| < last.limit
    ensures
      var last := runs[|runs| - 1];
      Left(rows, dataset, runs) == Without(rows, Ids(Prunable(rows, dataset, last.now, last.statements)))
  {
    var front, last := runs[..|runs| - 1], runs[|runs| - 1];
    LeftWithout(rows, dataset, front);
    RunsGo(rows, dataset, front, last.now, last.statements);
    LastPrunes(rows, dataset, Gone(rows, dataset, front), last);
  }

  lemma BatchUncited(rows: seq<Capture>, dataset: Id, now: int, limit: nat, statements: seq<Statement>)
    ensures forall id :: id in PrunableCaptures(rows, dataset, now, limit, statements) ==> !Cited(statements, id)
  {
    var pruned, ids := Prunable(rows, dataset, now, statements), PrunableCaptures(rows, dataset, now, limit, statements);
    PrunableHas(rows, dataset, now, statements);
    forall id | id in ids
      ensures !Cited(statements, id)
    {
      var k :| 0 <= k < |ids| && ids[k] == id;
      assert pruned[k] in pruned;
    }
  }

  /** A batch leaves every current citation. */
  lemma CitationsKept(
      rows: seq<Capture>, before: seq<Statement>, after: seq<Statement>, ids: seq<Id>, dataset: Id, now: int, limit: nat,
      statements: seq<Statement>)
    requires SameCitations(before, statements) && Cleared(rows, before, after, ids)
    requires ids == PrunableCaptures(rows, dataset, now, limit, statements)
    ensures SameCitations(after, statements)
  {
    BatchUncited(rows, dataset, now, limit, statements);
    CitationsStay(rows, before, after, ids);
  }

  /** Deleting captures no current statement cites leaves every citation. */
  lemma CitationsStay(rows: seq<Capture>, before: seq<Statement>, after: seq<Statement>, ids: seq<Id>)
    requires Cleared(rows, before, after, ids)
    requires forall id :: id in ids ==> !Cited(before, id)
    ensures SameCitations(after, before)
  {
    forall id
      ensures Cited(after, id) == Cited(before, id)
    {
      if s :| s in before && s.capture == Some(id) && !s.withdrawn {
        var k :| 0 <= k < |before| && before[k] == s;
        assert after[k] == s;
      }
      if s :| s in after && s.capture == Some(id) && !s.withdrawn {
        var k :| 0 <= k < |after| && after[k] == s;
        assert before[k] == s;
      }
    }
  }

  // ---------------------------------------------------------------------- what is never let go, and what is freed

  /** No batch of any size lets go of a page's latest capture, or of one a current statement cites. */
  lemma KeptAlways(rows: seq<Capture>, dataset: Id, now: int, limit: nat, statements: seq<Statement>, r: Capture)
    requires UniqueIds(rows) && r in rows && r.dataset == dataset
    requires Cited(statements, r.id) || forall s :: s in Of(rows, dataset) && s.item == r.item ==> !Older(r, s)
    ensures r.id !in PrunableCaptures(rows, dataset, now, limit, statements)
  {
    BatchDeletes(rows, dataset, now, limit, statements);
  }

  /**
   * A body is freed exactly when a capture that goes has it, and no capture or page that remains does:
   * nothing left points at a file that is deleted, and nothing deletable is kept.
   */
  lemma FreedIsUnheld(rows: seq<Capture>, items: seq<Item>, ids: seq<Id>, hash: string)
    ensures
      hash in FreedHashes(rows, items, ids) <==>
      && HeldByCapture(rows, hash)
      && !HeldByCapture(Without(rows, ids), hash)
      && !HeldByPage(items, hash)
  {
    var going := Going(rows, ids);
    if r :| r in going && r.hash == hash {
      var k :| 0 <= k < |going| && going[k] == r;
      assert Hashes(going)[k] == hash;
    }
    if r :| r in rows && r.hash == hash && !HeldByCapture(Without(rows, ids), hash) {
      assert r !in Without(rows, ids);
      assert r in going;
    }
  }

  /** What a purge frees, nothing it leaves holds; and purging again finds nothing. */
  lemma PurgeLeavesNothing(
      rows: seq<Capture>, items: seq<Item>, fetches: seq<Fetch>, dataset: Id, source: Id,
      rowsAfter: seq<Capture>, itemsAfter: seq<Item>, fetchesAfter: seq<Fetch>, hash: string)
    requires forall r :: r in rowsAfter <==> r in rows && !Purged(items, dataset, source, r)
    requires forall k, l :: 0 <= k < l < |items| ==> items[k].id != items[l].id
    requires |itemsAfter| == |items| && |fetchesAfter| == |fetches|
    requires forall k :: 0 <= k < |items| ==>
      itemsAfter[k] == if PageOf(dataset, source, items[k]) then items[k].(hash := None) else items[k]
    requires forall k :: 0 <= k < |fetches| ==>
      fetchesAfter[k] == if PagePurged(items, dataset, source, fetches[k].item) then fetches[k].(hash := None) else fetches[k]
    ensures PurgeFrees(rows, items, fetches, dataset, source, hash) ==>
      !HeldByCapture(rowsAfter, hash) && !HeldByPage(itemsAfter, hash)
    ensures !PurgeNames(rowsAfter, itemsAfter, fetchesAfter, dataset, source, hash)
  {
    forall id
      ensures PagePurged(itemsAfter, dataset, source, id) == PagePurged(items, dataset, source, id)
    {
      if page :| page in items && PageOf(dataset, source, page) && page.id == id {
        var k :| 0 <= k < |items| && items[k] == page;
        assert PageOf(dataset, source, itemsAfter[k]) && itemsAfter[k].id == id;
      }
      if page :| page in itemsAfter && PageOf(dataset, source, page) && page.id == id {
        var k :| 0 <= k < |itemsAfter| && itemsAfter[k] == page;
        assert PageOf(dataset, source, items[k]) && items[k].id == id;
      }
    }
  }
}
