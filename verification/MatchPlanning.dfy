/**
 Plans for pages that are of no entity yet (platform/core/src/matching.ts): join one, start one, ask, or wait.
 What plans never do, what they do it for, and that asking ends.
 */
module MatchPlanning {
  import opened Basics
  import opened Sorting
  import opened Matching

  const MATCH_SIMILARITY := 0.6
  const MAX_MATCH_CANDIDATES := 3

  /** A name an entity's pages give, and how alike it is to the page's. */
  datatype ScopeName = ScopeName(key: string, similarity: real)

  datatype Scoped = Scoped(id: string, names: seq<ScopeName>)

  datatype Plan =
    | Unresolvable
    | Join(entityId: string)
    | Create
    | Ask(entityIds: seq<string>)
    | Wait
    | Hold(name: ClaimValue)
    | Dispute(disputed: set<string>)

  datatype Match = Match(
    recordType: RecordType,
    values: Values,
    entities: Entities,
    sameScope: seq<Scoped>,
    verdicts: map<string, Verdict>,
    byPerson: set<string>,
    contested: set<ClaimValue>)

  // ---------------------------------------------------------------------- names within a scope

  /** The key that scopes a name: the earliest that has at least two fields. */
  function ScopedKey(keys: seq<seq<string>>): (key: Option<seq<string>>)
    ensures key.Some? ==> |key.value| >= 2
  {
    if keys == [] then None else if |keys[0]| >= 2 then Some(keys[0]) else ScopedKey(keys[1..])
  }

  /** `nameScope`: the key of the record's name, where it has one and a scope to compare it in. */
  function NameKey(recordType: RecordType, values: Values): Option<string> {
    match ScopedKey(recordType.keys)
    case None => None
    case Some(key) =>
      var name := ValuesOf(values, key[|key| - 1]);
      if name == [] || name[0].Spec? then None
      else if exists k :: 0 <= k < |key| - 1 && FirstKey(values, key[k]) == "" then None
      else Some(name[0].key)
  }

  predicate Named(entity: Scoped, key: string) {
    exists k :: 0 <= k < |entity.names| && entity.names[k].key == key
  }

  function ById(): (string, string) -> bool {
    (a: string, b: string) => TextLess(a, b)
  }

  function CarrierOf(key: string): Scoped -> Option<string> {
    (e: Scoped) => if Named(e, key) then Some(e.id) else None
  }

  /** `sharingName` */
  function SharingName(m: Match): seq<string> {
    match NameKey(m.recordType, m.values)
    case None => []
    case Some(key) => SortBy(ById(), Mapped(CarrierOf(key), m.sameScope))
  }

  /** How alike an entity's closest name is. */
  function Score(names: seq<ScopeName>): real {
    if names == [] then 0.0
    else
      var before, last := Score(names[..|names| - 1]), names[|names| - 1].similarity;
      if before < last then last else before
  }

  lemma {:induction false} ScoreIsBest(names: seq<ScopeName>, k: nat)
    requires k < |names|
    ensures names[k].similarity <= Score(names)
  {
    if k < |names| - 1 {
      ScoreIsBest(names[..|names| - 1], k);
    }
  }

  datatype Scored = Scored(id: string, score: real)

  function Closer(): (Scored, Scored) -> bool {
    (a: Scored, b: Scored) => if a.score == b.score then TextLess(a.id, b.id) else a.score > b.score
  }

  function Similar(e: Scoped, apart: set<string>): Option<Scored> {
    if e.id !in apart && Score(e.names) >= MATCH_SIMILARITY then Some(Scored(e.id, Score(e.names))) else None
  }

  function SimilarOf(apart: set<string>): Scoped -> Option<Scored> {
    (e: Scoped) => Similar(e, apart)
  }

  /** The entities with a similar enough name that the page isn't kept apart from. */
  function Alike(sameScope: seq<Scoped>, apart: set<string>): seq<Scored> {
    Mapped(SimilarOf(apart), sameScope)
  }

  function Closest(candidates: seq<string>): seq<string> {
    if |candidates| <= MAX_MATCH_CANDIDATES then candidates else candidates[..MAX_MATCH_CANDIDATES]
  }

  function Ids(scored: seq<Scored>): seq<string> {
    seq(|scored|, k requires 0 <= k < |scored| => scored[k].id)
  }

  /** `similarNames` */
  function SimilarNames(m: Match, apart: set<string>): seq<string> {
    if NameKey(m.recordType, m.values) == None then []
    else Closest(Ids(SortBy(Closer(), Alike(m.sameScope, apart))))
  }

  // ---------------------------------------------------------------------- planMatch

  function Judged(m: Match, verdict: Verdict): set<string> {
    set id | id in m.verdicts && m.verdicts[id] == verdict
  }

  /** The entities a verdict joins the page to, as one product or as editions. */
  function Sames(m: Match): set<string> {
    Judged(m, Same) + Judged(m, Edition)
  }

  function TheOne(ids: set<string>): (id: string)
    requires |ids| == 1
    ensures ids == {id}
  {
    OnlyOne(ids);
    var id :| id in ids;
    id
  }

  lemma OnlyOne(ids: set<string>)
    requires |ids| == 1
    ensures forall a, b :: a in ids && b in ids ==> a == b
    ensures forall a :: a in ids ==> ids == {a}
  {
    forall a | a in ids
      ensures ids == {a}
    {
      assert |ids - {a}| == 0;
      assert ids == {a} + (ids - {a});
    }
  }

  function ByRank(): (Claim, Claim) -> bool {
    (a: Claim, b: Claim) => a.rank < b.rank
  }

  /** A claim an entity owns that the page isn't kept apart from. */
  predicate Owned(m: Match, claim: Claim) {
    claim.value in m.entities.owners && m.entities.owners[claim.value] !in Judged(m, NotSame)
  }

  function FirstOwned(m: Match, claims: seq<Claim>): (claim: Option<Claim>)
    ensures claim.Some? ==> claim.value in claims && Owned(m, claim.value)
    ensures claim == None <==> forall c :: c in claims ==> !Owned(m, c)
  {
    if claims == [] then None else if Owned(m, claims[0]) then Some(claims[0]) else FirstOwned(m, claims[1..])
  }

  function FirstContested(m: Match, claims: seq<Claim>): (claim: Option<Claim>)
    ensures claim.Some? ==> claim.value in claims && claim.value.value in m.contested
    ensures claim == None <==> forall c :: c in claims ==> c.value !in m.contested
  {
    if claims == [] then None else if claims[0].value in m.contested then Some(claims[0]) else FirstContested(m, claims[1..])
  }

  predicate NameOnly(m: Match) {
    forall claim :: claim in Claims(m.recordType, m.values) ==> IsName(m.recordType, claim)
  }

  predicate AnyIn(ids: seq<string>, pending: set<string>) {
    exists id :: id in ids && id in pending
  }

  function Strongest(m: Match): Option<Claim> {
    FirstOwned(m, SortBy(ByRank(), Claims(m.recordType, m.values)))
  }

  /** The other entities that carry the page's name, apart from those it is kept apart from. */
  function Sharing(m: Match, owner: string): seq<string> {
    Filter((id: string) => id != owner && id !in Judged(m, NotSame), SharingName(m))
  }

  function OwnersIdentifiers(m: Match, owner: string): Values {
    if owner in m.entities.identifiers then m.entities.identifiers[owner] else map[]
  }

  /** What to do about the strongest claim an entity owns. */
  function PlanOwned(m: Match, claim: Claim): Plan
    requires Owned(m, claim)
  {
    var owner := m.entities.owners[claim.value];
    if owner in Judged(m, Unsure) then Wait
    else if !IsName(m.recordType, claim) then Join(owner)
    else
      var sharing := Sharing(m, owner);
      if sharing != [] then
        var asked := Closest([owner] + sharing);
        if AnyIn(asked, Judged(m, Unsure)) then Wait else Ask(asked)
      else if Disagree(m.recordType, m.values, OwnersIdentifiers(m, owner)) then Ask([owner])
      else Join(owner)
  }

  function PlanSimilar(m: Match): Plan {
    var similar := SimilarNames(m, Judged(m, NotSame));
    if AnyIn(similar, Judged(m, Unsure)) then Wait
    else if similar == [] then Create
    else Ask(similar)
  }

  /** `planMatch` */
  function PlanMatch(m: Match): Plan {
    var claims := Claims(m.recordType, m.values);
    var same, pending := Sames(m), Judged(m, Unsure);
    var chosen := same * m.byPerson;
    if claims == [] then Unresolvable
    else if |chosen| == 1 then Join(TheOne(chosen))
    else if |same| == 1 && pending == {} then Join(TheOne(same))
    else if |same| > 1 then Dispute(same)
    else if |same| == 1 then Wait
    else
      var contested := FirstContested(m, claims);
      if contested.Some? && NameOnly(m) then
        if pending != {} then Wait else Hold(contested.value.value)
      else
        match Strongest(m)
        case Some(claim) => PlanOwned(m, claim)
        case None => PlanSimilar(m)
  }

  // ---------------------------------------------------------------------- safe plans

  /** No verdict says the page is the same as anything, which every question needs. */
  predicate Undecided(m: Match) {
    Sames(m) == {}
  }

  /** No plan joins an entity the page is judged apart from. */
  lemma JoinsNoneApart(m: Match)
    requires PlanMatch(m).Join?
    ensures PlanMatch(m).entityId !in Judged(m, NotSame) && PlanMatch(m).entityId !in Judged(m, Unsure)
  {
    var same := Sames(m);
    if |same * m.byPerson| == 1 {
      assert TheOne(same * m.byPerson) in same * m.byPerson;
    } else if |same| == 1 {
      assert TheOne(same) in same;
    }
  }

  ghost predicate DistinctScope(m: Match) {
    forall i, j :: 0 <= i < j < |m.sameScope| ==> m.sameScope[i].id != m.sameScope[j].id
  }

  /** Every entity there is to ask about. */
  function Known(m: Match): set<string> {
    m.entities.owners.Values + set e | e in m.sameScope :: e.id
  }

  /** What a plan asks: one to three entities, each once, known, and none with a verdict on the page. */
  ghost predicate AsksWell(m: Match, ids: seq<string>) {
    && 1 <= |ids| <= MAX_MATCH_CANDIDATES
    && (DistinctScope(m) ==> NoRepeats(ids))
    && (forall id :: id in ids ==> id in Known(m) && id !in m.verdicts)
  }

  lemma NoVerdict(m: Match, id: string)
    requires Undecided(m) && id !in Judged(m, NotSame) && id !in Judged(m, Unsure)
    ensures id !in m.verdicts
  {
    assert id !in Sames(m);
    assert forall x :: x in m.verdicts ==> x in Sames(m) || x in Judged(m, NotSame) || x in Judged(m, Unsure);
  }

  lemma SharingIs(m: Match, owner: string, id: string)
    requires id in Sharing(m, owner)
    ensures id in Known(m) && id != owner && id !in Judged(m, NotSame)
  {
    var key := NameKey(m.recordType, m.values).value;
    SortHas(ById(), Mapped(CarrierOf(key), m.sameScope), id);
    MappedFrom(CarrierOf(key), m.sameScope, id);
  }

  lemma SharingOnce(m: Match, owner: string)
    requires DistinctScope(m)
    ensures NoRepeats([owner] + Sharing(m, owner))
  {
    if NameKey(m.recordType, m.values).Some? {
      var key := NameKey(m.recordType, m.values).value;
      MappedDistinct(CarrierOf(key), m.sameScope);
      SortDistinct(ById(), Mapped(CarrierOf(key), m.sameScope));
    }
    var keep := (id: string) => id != owner && id !in Judged(m, NotSame);
    FilterDistinct(keep, SharingName(m));
    assert owner !in Sharing(m, owner);
  }

  lemma OwnedAsksWell(m: Match, claim: Claim)
    requires Undecided(m) && Owned(m, claim) && PlanOwned(m, claim).Ask?
    ensures AsksWell(m, PlanOwned(m, claim).entityIds)
  {
    var ids, owner := PlanOwned(m, claim).entityIds, m.entities.owners[claim.value];
    if DistinctScope(m) {
      SharingOnce(m, owner);
    }
    forall id | id in ids
      ensures id in Known(m) && id !in m.verdicts
    {
      if id != owner {
        SharingIs(m, owner, id);
      }
      NoVerdict(m, id);
    }
  }

  lemma AlikeIs(sameScope: seq<Scoped>, apart: set<string>, found: Scored)
    requires found in Alike(sameScope, apart)
    ensures exists e :: e in sameScope && Similar(e, apart) == Some(found)
  {
    MappedFrom(SimilarOf(apart), sameScope, found);
  }

  lemma SortedAlike(sameScope: seq<Scoped>, apart: set<string>, k: nat)
    requires k < |SortBy(Closer(), Alike(sameScope, apart))|
    ensures SortBy(Closer(), Alike(sameScope, apart))[k] in Alike(sameScope, apart)
  {
    SortHas(Closer(), Alike(sameScope, apart), SortBy(Closer(), Alike(sameScope, apart))[k]);
  }

  predicate SimilarTo(sameScope: seq<Scoped>, apart: set<string>, found: Scored) {
    exists e :: e in sameScope && Similar(e, apart) == Some(found)
  }

  lemma SimilarIs(sameScope: seq<Scoped>, apart: set<string>, k: nat)
    requires k < |SortBy(Closer(), Alike(sameScope, apart))|
    ensures SimilarTo(sameScope, apart, SortBy(Closer(), Alike(sameScope, apart))[k])
  {
    SortedAlike(sameScope, apart, k);
    AlikeIs(sameScope, apart, SortBy(Closer(), Alike(sameScope, apart))[k]);
  }

  lemma OneId(sameScope: seq<Scoped>, apart: set<string>, a: Scored, b: Scored)
    requires forall i, j :: 0 <= i < j < |sameScope| ==> sameScope[i].id != sameScope[j].id
    requires SimilarTo(sameScope, apart, a) && SimilarTo(sameScope, apart, b) && a.id == b.id
    ensures a == b
  {
    var x :| x in sameScope && Similar(x, apart) == Some(a);
    var y :| y in sameScope && Similar(y, apart) == Some(b);
    assert x.id == a.id && y.id == b.id;
    assert x == y;
  }

  lemma AlikeOnce(sameScope: seq<Scoped>, apart: set<string>)
    requires forall i, j :: 0 <= i < j < |sameScope| ==> sameScope[i].id != sameScope[j].id
    ensures NoRepeats(SortBy(Closer(), Alike(sameScope, apart)))
  {
    MappedDistinct(SimilarOf(apart), sameScope);
    SortDistinct(Closer(), Alike(sameScope, apart));
  }

  lemma SimilarOnce(sameScope: seq<Scoped>, apart: set<string>)
    requires forall i, j :: 0 <= i < j < |sameScope| ==> sameScope[i].id != sameScope[j].id
    ensures NoRepeats(Ids(SortBy(Closer(), Alike(sameScope, apart))))
  {
    var sorted := SortBy(Closer(), Alike(sameScope, apart));
    AlikeOnce(sameScope, apart);
    forall i, j | 0 <= i < j < |sorted|
      ensures sorted[i].id != sorted[j].id
    {
      SimilarIs(sameScope, apart, i);
      SimilarIs(sameScope, apart, j);
      if sorted[i].id == sorted[j].id {
        OneId(sameScope, apart, sorted[i], sorted[j]);
      }
    }
  }

  lemma SimilarAsksWell(m: Match)
    requires Undecided(m) && PlanSimilar(m).Ask?
    ensures AsksWell(m, PlanSimilar(m).entityIds)
  {
    var ids, apart := PlanSimilar(m).entityIds, Judged(m, NotSame);
    if DistinctScope(m) {
      SimilarOnce(m.sameScope, apart);
    }
    forall id | id in ids
      ensures id in Known(m) && id !in m.verdicts
    {
      var k :| 0 <= k < |ids| && ids[k] == id;
      SimilarIs(m.sameScope, apart, k);
      NoVerdict(m, id);
    }
  }

  /** No plan asks about an entity that has a verdict, and every question names one to three entities. */
  lemma EveryAskIsWell(m: Match)
    requires PlanMatch(m).Ask?
    ensures AsksWell(m, PlanMatch(m).entityIds)
  {
    assert Undecided(m);
    match Strongest(m)
    case Some(claim) => OwnedAsksWell(m, claim);
    case None => SimilarAsksWell(m);
  }

  // ---------------------------------------------------------------------- asking ends

  /** What answers and other pages may change between two plans for a page, its questions being answered. */
  ghost predicate Answers(m: Match, next: Match) {
    && next.recordType == m.recordType && next.values == m.values
    && next.entities.owners == m.entities.owners && next.sameScope == m.sameScope
    && m.verdicts.Keys <= next.verdicts.Keys
    && PlanMatch(m).Ask?
    && exists id :: id in PlanMatch(m).entityIds && id in next.verdicts
  }

  /** However questions are answered, a page's are at most as many as the entities there are. */
  lemma {:induction false} AskingEnds(run: seq<Match>)
    requires run != []
    requires forall k, after :: 0 <= k && after == k + 1 && after < |run| ==> Answers(run[k], run[after])
    ensures |run| - 1 <= |Known(run[0]) * run[|run| - 1].verdicts.Keys| <= |Known(run[0])|
    ensures Known(run[|run| - 1]) == Known(run[0])
  {
    var last := |run| - 1;
    if last > 0 {
      var before := run[..last];
      AskingEnds(before);
      var m, next := run[last - 1], run[last];
      assert Answers(m, next);
      EveryAskIsWell(m);
      var id :| id in PlanMatch(m).entityIds && id in next.verdicts;
      Strictly(Known(run[0]) * m.verdicts.Keys, Known(run[0]) * next.verdicts.Keys, id);
    }
    Within(Known(run[0]) * run[last].verdicts.Keys, Known(run[0]));
  }

  lemma Within<T>(less: set<T>, more: set<T>)
    requires less <= more
    ensures |less| <= |more|
  {
    assert more == less + (more - less);
  }

  lemma Strictly<T>(less: set<T>, more: set<T>, x: T)
    requires less <= more && x in more && x !in less
    ensures |less| + 1 <= |more|
  {
    Within(less + {x}, more);
  }

  // ---------------------------------------------------------------------- what plans are made for

  lemma {:induction false} FirstIsFirst(m: Match, claims: seq<Claim>, k: nat)
    requires k < |claims| && Owned(m, claims[k]) && InOrderBy(ByRank(), claims)
    ensures FirstOwned(m, claims).Some? && FirstOwned(m, claims).value.rank <= claims[k].rank
  {
    if Owned(m, claims[0]) {
      assert k > 0 ==> !ByRank()(claims[k], claims[0]);
    } else {
      FirstIsFirst(m, claims[1..], k - 1);
    }
  }

  /** Of the claims owned by entities the page isn't kept apart from, the strongest decides. */
  lemma StrongestIs(m: Match, claim: Claim)
    requires claim in Claims(m.recordType, m.values) && Owned(m, claim)
    ensures Strongest(m).Some? && Strongest(m).value.rank <= claim.rank
    ensures Strongest(m).value in Claims(m.recordType, m.values) && Owned(m, Strongest(m).value)
  {
    var claims := Claims(m.recordType, m.values);
    SortHas(ByRank(), claims, claim);
    SortOrders(ByRank(), claims);
    var sorted := SortBy(ByRank(), claims);
    var k :| 0 <= k < |sorted| && sorted[k] == claim;
    FirstIsFirst(m, sorted, k);
    SortHas(ByRank(), claims, Strongest(m).value);
  }

  /** Identifiers outrank names: while nothing is judged, a page joins the owner of an identifier, or waits for it. */
  lemma IdentifiersOutrank(m: Match, claim: Claim)
    requires Undecided(m) && claim in Claims(m.recordType, m.values)
    requires !IsName(m.recordType, claim) && Owned(m, claim)
    ensures
      var strongest := Strongest(m);
      && strongest.Some? && !IsName(m.recordType, strongest.value) && Owned(m, strongest.value)
      && var owner := m.entities.owners[strongest.value.value];
         PlanMatch(m) == if owner in Judged(m, Unsure) then Wait else Join(owner)
  {
    StrongestIs(m, claim);
    assert !NameOnly(m);
    assert Sames(m) * m.byPerson == {};
  }

  /** With nothing to go by but a contested name, a page waits until a verdict says which entity it is. */
  lemma NameAloneWaits(m: Match, claim: Claim)
    requires NameOnly(m) && claim in Claims(m.recordType, m.values) && claim.value in m.contested
    ensures PlanMatch(m).Join? ==> PlanMatch(m).entityId in Sames(m)
    ensures !PlanMatch(m).Create? && !PlanMatch(m).Ask?
    ensures Undecided(m) && Judged(m, Unsure) == {} ==> PlanMatch(m).Hold? && PlanMatch(m).name in m.contested
  {
    var same := Sames(m);
    if |same * m.byPerson| == 1 {
      assert TheOne(same * m.byPerson) in same * m.byPerson;
    } else if |same| == 1 {
      assert TheOne(same) in same;
    }
  }

  /**
   * Two pages that give identifiers that disagree keep a third, which gives only their name, from joining or
   * starting an entity by that name.
   */
  lemma DisagreementHolds(m: Match, pages: seq<Page>, a: Page, b: Page, name: ClaimValue)
    requires a in pages && b in pages && Disagree(m.recordType, a.values, b.values)
    requires Carries(m.recordType, a, name) && Carries(m.recordType, b, name)
    requires Carries(m.recordType, Page(m.values, m.verdicts), name)
    requires NameOnly(m) && forall n :: n in m.contested <==> Contested(m.recordType, pages, m.entities, n)
    ensures PlanMatch(m).Join? ==> PlanMatch(m).entityId in Sames(m)
    ensures !PlanMatch(m).Create? && !PlanMatch(m).Ask?
  {
    assert PagesDisagree(m.recordType, pages, name);
    var claim :| claim in Claims(m.recordType, m.values) && claim.value == name;
    NameAloneWaits(m, claim);
  }

  /** A page joins by a name alone only when no other entity in its scope carries it, and no identifiers disagree. */
  lemma JoinsByName(m: Match, e: Scoped)
    requires Undecided(m) && PlanMatch(m).Join? && e in m.sameScope
    requires forall claim :: claim in Claims(m.recordType, m.values) && Owned(m, claim) ==> IsName(m.recordType, claim)
    ensures !Disagree(m.recordType, m.values, OwnersIdentifiers(m, PlanMatch(m).entityId))
    ensures
      NameKey(m.recordType, m.values).Some? && Named(e, NameKey(m.recordType, m.values).value) ==>
        e.id == PlanMatch(m).entityId || e.id in Judged(m, NotSame)
  {
    var claims := Claims(m.recordType, m.values);
    assert Sames(m) * m.byPerson == {};
    var claim := Strongest(m).value;
    SortHas(ByRank(), claims, claim);
    if NameKey(m.recordType, m.values).Some? && Named(e, NameKey(m.recordType, m.values).value) {
      Carrier(m, e);
    }
  }

  lemma Carrier(m: Match, e: Scoped)
    requires e in m.sameScope && NameKey(m.recordType, m.values).Some?
    requires Named(e, NameKey(m.recordType, m.values).value)
    ensures e.id in SharingName(m)
  {
    var key := NameKey(m.recordType, m.values).value;
    MappedFrom(CarrierOf(key), m.sameScope, e.id);
    assert CarrierOf(key)(e) == Some(e.id);
    SortHas(ById(), Mapped(CarrierOf(key), m.sameScope), e.id);
  }

  lemma Candidate(sameScope: seq<Scoped>, apart: set<string>, e: Scoped)
    requires e in sameScope && Similar(e, apart).Some?
    ensures Similar(e, apart).value in SortBy(Closer(), Alike(sameScope, apart))
  {
    MappedFrom(SimilarOf(apart), sameScope, Similar(e, apart).value);
    assert SimilarOf(apart)(e) == Similar(e, apart);
    SortHas(Closer(), Alike(sameScope, apart), Similar(e, apart).value);
  }

  /** A page starts an entity only when it is kept apart from all in its scope whose names are similar. */
  lemma CreatesLast(m: Match, e: Scoped, k: nat)
    requires PlanMatch(m) == Create && NameKey(m.recordType, m.values).Some?
    requires e in m.sameScope && k < |e.names| && e.names[k].similarity >= MATCH_SIMILARITY
    ensures e.id in Judged(m, NotSame)
  {
    assert Strongest(m) == None;
    ScoreIsBest(e.names, k);
    if Similar(e, Judged(m, NotSame)).Some? {
      Candidate(m.sameScope, Judged(m, NotSame), e);
    }
  }

  lemma CloserOrders()
    ensures Orders(Closer())
  {
    forall a: Scored, b: Scored
      ensures Closer()(a, b) ==> !Closer()(b, a)
      ensures !Closer()(a, b) && !Closer()(b, a) ==> a == b
    {
      TextLessTotal(a.id, b.id);
    }
    forall a: Scored, b: Scored, c: Scored | !Closer()(b, a) && !Closer()(c, b)
      ensures !Closer()(c, a)
    {
      TextLessTotal(a.id, b.id);
      TextLessTotal(b.id, c.id);
      TextLessTotal(a.id, c.id);
      if TextLess(a.id, b.id) && TextLess(b.id, c.id) {
        TextLessTrans(a.id, b.id, c.id);
      }
    }
  }

  /** The closest few: what is left out is no closer, and only left out when the few are full. */
  lemma ClosestLeft(sameScope: seq<Scoped>, apart: set<string>, e: Scoped, k: nat)
    requires e in sameScope && Similar(e, apart).Some?
    requires e.id !in Closest(Ids(SortBy(Closer(), Alike(sameScope, apart)))) && k < MAX_MATCH_CANDIDATES
    ensures
      var sorted := SortBy(Closer(), Alike(sameScope, apart));
      |sorted| > MAX_MATCH_CANDIDATES && sorted[k].score >= Score(e.names)
  {
    var sorted := SortBy(Closer(), Alike(sameScope, apart));
    Candidate(sameScope, apart, e);
    var at :| 0 <= at < |sorted| && sorted[at] == Similar(e, apart).value;
    assert Ids(sorted)[at] == e.id;
    assert at >= MAX_MATCH_CANDIDATES;
    CloserOrders();
    SortOrders(Closer(), Alike(sameScope, apart));
    assert !Closer()(sorted[at], sorted[k]);
  }

  lemma AsksSimilar(m: Match)
    requires PlanMatch(m).Ask? && Strongest(m) == None
    ensures PlanMatch(m).entityIds == Closest(Ids(SortBy(Closer(), Alike(m.sameScope, Judged(m, NotSame)))))
  {
  }

  /** A similar entity a page isn't asked about yet is no closer than any of the three it is asked about. */
  lemma ClosestFirst(m: Match, e: Scoped, k: nat)
    requires PlanMatch(m).Ask? && Strongest(m) == None
    requires e in m.sameScope && Similar(e, Judged(m, NotSame)).Some? && e.id !in PlanMatch(m).entityIds
    requires k < |PlanMatch(m).entityIds|
    ensures |PlanMatch(m).entityIds| == MAX_MATCH_CANDIDATES
    ensures exists asked ::
      asked in m.sameScope && asked.id == PlanMatch(m).entityIds[k] && Score(asked.names) >= Score(e.names)
  {
    AsksSimilar(m);
    ClosestAsked(m.sameScope, Judged(m, NotSame), PlanMatch(m).entityIds, e, k);
  }

  lemma ClosestAsked(sameScope: seq<Scoped>, apart: set<string>, ids: seq<string>, e: Scoped, k: nat)
    requires ids == Closest(Ids(SortBy(Closer(), Alike(sameScope, apart))))
    requires e in sameScope && Similar(e, apart).Some? && e.id !in ids && k < |ids|
    ensures |ids| == MAX_MATCH_CANDIDATES
    ensures exists asked :: asked in sameScope && asked.id == ids[k] && Score(asked.names) >= Score(e.names)
  {
    ClosestLeft(sameScope, apart, e, k);
    SimilarIs(sameScope, apart, k);
    var found := SortBy(Closer(), Alike(sameScope, apart))[k];
    var asked :| asked in sameScope && Similar(asked, apart) == Some(found);
    assert asked.id == ids[k];
  }
}
