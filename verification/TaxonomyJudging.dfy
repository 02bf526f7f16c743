/**
 Which shelf, and which values, a decider's probabilities settle and open (platform/core/src/taxonomy-decision.ts:594-696),
 what an answer merges to, and what a decision brought up to date asks of the shelf.
 */
module TaxonomyJudging {
  import opened Basics
  import opened Taxonomies
  import opened Ordering
  import opened TaxonomyVersions
  import opened TaxonomyDecision
  import Deciding = TaxonomyDeciding

  /** A category whose shelves together reach the threshold, and which has shelves to choose from. */
  predicate FamilyReaches(t: Taxonomy, c: nat, chances: map<Place, real>, accept: real)
    requires c < |t.shelves|
  {
    |FamilyPlaces(t, c)| > 1 && Round(Total(FamilyPlaces(t, c), chances)) >= accept
  }

  /** The first category of a list whose family reaches the threshold. */
  ghost predicate FirstReaching(t: Taxonomy, categories: seq<nat>, k: nat, chances: map<Place, real>, accept: real)
    requires InRange(categories, |t.shelves|)
  {
    && k < |categories| && FamilyReaches(t, categories[k], chances, accept)
    && forall j :: 0 <= j < k ==> !FamilyReaches(t, categories[j], chances, accept)
  }

  lemma {:induction false} FallbackIsFirst(t: Taxonomy, categories: seq<nat>, chances: map<Place, real>, accept: real)
    requires InRange(categories, |t.shelves|)
    ensures
      match FallbackCategory(t, categories, chances, accept)
      case None => forall c :: c in categories ==> !FamilyReaches(t, c, chances, accept)
      case Some(c) => exists k: nat :: FirstReaching(t, categories, k, chances, accept) && categories[k] == c
    decreases |categories|
  {
    if categories != [] && !FamilyReaches(t, categories[0], chances, accept) {
      FallbackIsFirst(t, categories[1..], chances, accept);
      if FallbackCategory(t, categories[1..], chances, accept).Some? {
        var k: nat :| FirstReaching(t, categories[1..], k, chances, accept)
              && categories[1..][k] == FallbackCategory(t, categories, chances, accept).value;
        FirstAfter(t, categories, k, chances, accept);
      }
    } else if categories != [] {
      assert FirstReaching(t, categories, 0, chances, accept);
    }
  }

  lemma FirstAfter(t: Taxonomy, categories: seq<nat>, k: nat, chances: map<Place, real>, accept: real)
    requires InRange(categories, |t.shelves|) && categories != [] && !FamilyReaches(t, categories[0], chances, accept)
    requires FirstReaching(t, categories[1..], k, chances, accept)
    ensures FirstReaching(t, categories, k + 1, chances, accept) && categories[k + 1] == categories[1..][k]
  {
    forall j | 0 <= j < k + 1
      ensures !FamilyReaches(t, categories[j], chances, accept)
    {
      assert j > 0 ==> categories[j] == categories[1..][j - 1];
    }
  }

  /** The first offered of the likeliest. */
  ghost predicate FirstBest<K(!new)>(ids: seq<K>, chances: map<K, real>, id: K) {
    exists k: nat :: IsFirstBest(ids, chances, k) && ids[k] == id
  }

  ghost predicate IsFirstBest<K(!new)>(ids: seq<K>, chances: map<K, real>, k: nat) {
    && k < |ids|
    && (forall j :: 0 <= j < |ids| ==> Chance(chances, ids[j]) <= Chance(chances, ids[k]))
    && (forall j :: 0 <= j < k ==> Chance(chances, ids[j]) < Chance(chances, ids[k]))
  }

  /** There is one first of the likeliest. */
  lemma OneFirstBest<K(!new)>(ids: seq<K>, chances: map<K, real>, x: K, y: K)
    requires FirstBest(ids, chances, x) && FirstBest(ids, chances, y)
    ensures x == y
  {
    var i: nat :| IsFirstBest(ids, chances, i) && ids[i] == x;
    var j: nat :| IsFirstBest(ids, chances, j) && ids[j] == y;
    assert Chance(chances, ids[i]) == Chance(chances, ids[j]);
  }

  lemma {:induction false} LikeliestIsFirst<K(!new)>(ids: seq<K>, chances: map<K, real>)
    ensures Likeliest(ids, chances).Some? ==> FirstBest(ids, chances, Likeliest(ids, chances).value)
  {
    if ids != [] {
      var front, last := ids[..|ids| - 1], ids[|ids| - 1];
      LikeliestIsFirst(front, chances);
      var best := Likeliest(ids, chances);
      var before := Likeliest(front, chances);
      if best == Some(last) && (before == None || Chance(chances, last) > Chance(chances, before.value)) {
        LastIsBest(ids, chances);
      } else if best.Some? {
        var k: nat :| IsFirstBest(front, chances, k) && front[k] == best.value;
        FrontIsBest(ids, chances, k);
      }
    }
  }

  lemma LastIsBest<K(!new)>(ids: seq<K>, chances: map<K, real>)
    requires ids != [] && forall k :: k in ids[..|ids| - 1] ==> Chance(chances, k) < Chance(chances, ids[|ids| - 1])
    ensures FirstBest(ids, chances, ids[|ids| - 1])
  {
    assert forall j :: 0 <= j < |ids| - 1 ==> ids[j] == ids[..|ids| - 1][j];
    assert IsFirstBest(ids, chances, |ids| - 1);
  }

  lemma FrontIsBest<K(!new)>(ids: seq<K>, chances: map<K, real>, k: nat)
    requires ids != [] && IsFirstBest(ids[..|ids| - 1], chances, k)
    requires Chance(chances, ids[|ids| - 1]) <= Chance(chances, ids[..|ids| - 1][k])
    ensures FirstBest(ids, chances, ids[..|ids| - 1][k])
  {
    assert forall j :: 0 <= j < |ids| - 1 ==> ids[j] == ids[..|ids| - 1][j];
    assert IsFirstBest(ids, chances, k);
  }

  /** No shelf reaches the threshold: the first category whose family does, or none. */
  lemma FallsBack(t: Taxonomy, asked: Parts, chances: map<Place, real>, accept: real)
    requires asked.shelves != [] && forall place :: place in asked.shelves ==> Chance(chances, place) < accept
    ensures
      var verdict := DecideShelf(t, asked, None, chances, accept);
      if verdict.shelf.Some? then
        verdict.fallback && exists k: nat ::
          && FirstReaching(t, CategoriesOf(t), k, chances, accept)
          && verdict.shelf == Some(On(t.shelves[CategoriesOf(t)[k]].item.id))
          && verdict.open == FamilyPlaces(t, CategoriesOf(t)[k])
      else
        && !verdict.fallback && verdict.open == asked.shelves
        && forall c :: c in CategoriesOf(t) ==> !FamilyReaches(t, c, chances, accept)
  {
    FallbackIsFirst(t, CategoriesOf(t), chances, accept);
  }

  /**
   * Where no shelf is fixed: the likeliest offered shelf, the first of several, is settled exactly when it reaches the
   * threshold. Otherwise the first category whose family reaches it is, and its family asked; and when none does,
   * nothing is settled and everything offered is asked.
   */
  lemma SettledShelf(t: Taxonomy, asked: Parts, chances: map<Place, real>, accept: real)
    requires asked.shelves != [] && 0.5 <= accept <= 1.0
    ensures
      var verdict := DecideShelf(t, asked, None, chances, accept);
      var reached := exists place :: place in asked.shelves && Chance(chances, place) >= accept;
      && (reached ==>
            && !verdict.fallback && verdict.shelf.Some? && verdict.open == []
            && Chance(chances, verdict.shelf.value) >= accept && FirstBest(asked.shelves, chances, verdict.shelf.value))
      && (!reached && verdict.shelf.Some? ==>
            verdict.fallback && exists k: nat ::
              && FirstReaching(t, CategoriesOf(t), k, chances, accept)
              && verdict.shelf == Some(On(t.shelves[CategoriesOf(t)[k]].item.id))
              && verdict.open == FamilyPlaces(t, CategoriesOf(t)[k]))
      && (!reached && verdict.shelf == None ==>
            && !verdict.fallback && verdict.open == asked.shelves
            && forall c :: c in CategoriesOf(t) ==> !FamilyReaches(t, c, chances, accept))
  {
    if place :| place in asked.shelves && Chance(chances, place) >= accept {
      LikeliestIsFirst(asked.shelves, chances);
    } else {
      FallsBack(t, asked, chances, accept);
    }
  }

  lemma HalfRounded(accept: real)
    requires 0.5 <= accept <= 1.0
    ensures Round(1.0 - accept) <= 0.5
  {
  }

  // ---------------------------------------------------------------------- functions

  /**
   * Where each function asked stands in a decision, unless the page is on none of the shelves: implied by
   * the settled shelf; or settled from the threshold up, asked when below it and above what it leaves,
   * and otherwise rejected. With a threshold of a half at least, none likelier than not is rejected.
   */
  lemma FunctionsJudged(
      t: Taxonomy, asked: Parts, fixedShelf: Option<Id>, probabilities: Probabilities, accept: real, fn: Id)
    requires fn in asked.functions
    ensures
      var d, p := AcceptParts(t, asked, fixedShelf, probabilities, accept), Chance(probabilities.functions, fn);
      var implied := fn in ImpliedBy(t, d.settled.shelf);
      var rejected := fn !in d.settled.functions && fn !in d.open.functions && !implied;
      d.settled.shelf != Some(NoneOfThese) ==>
        && (fn in d.settled.functions <==> !implied && p >= accept)
        && (fn in d.open.functions <==> !implied && Round(1.0 - accept) < p < accept)
        && (rejected <==> !implied && p < accept && p <= Round(1.0 - accept))
        && (fn in d.proposed.functions <==> fn in d.settled.functions || (fn in d.open.functions && p >= 0.5))
        && (0.5 <= accept <= 1.0 && rejected ==> p <= 0.5)
    ensures
      var d := AcceptParts(t, asked, fixedShelf, probabilities, accept);
      d.settled.shelf == Some(NoneOfThese) ==>
        d == PartsDecision(NONE_ANSWER, NO_PARTS, NONE_ANSWER, false)
  {
    if 0.5 <= accept <= 1.0 {
      HalfRounded(accept);
    }
  }

  // ---------------------------------------------------------------------- values

  /** A feature's own verdict, when it is asked. */
  function VerdictOf(
      t: Taxonomy, i: nat, asked: seq<FeaturePart>, chances: map<Id, real>, accept: real, known: bool): FeatureVerdict
    requires i < |t.features|
  {
    match Offered(asked, t.features[i].item.id)
    case None => FeatureVerdict([], [], [])
    case Some(values) => JudgeFeature(t.features[i].cardinality, values, chances, accept, known)
  }

  lemma JudgedNext(
      t: Taxonomy, places: seq<nat>, asked: seq<FeaturePart>, chances: map<Id, real>, accept: real, known: bool, v: Id)
    requires InRange(places, |t.features|) && places != []
    ensures
      var verdict := VerdictOf(t, places[|places| - 1], asked, chances, accept, known);
      var before := JudgeFeatures(FeaturesAt(t, places[..|places| - 1]), asked, chances, accept, known);
      var after := JudgeFeatures(FeaturesAt(t, places), asked, chances, accept, known);
      && (v in after.settled <==> v in before.settled || v in verdict.settled)
      && (v in AllValues(after.open) <==> v in AllValues(before.open) || v in verdict.open)
      && (v in after.proposed <==> v in before.proposed || v in verdict.proposed)
  {
    Deciding.FeaturesAtFront(t, places);
    var before := JudgeFeatures(FeaturesAt(t, places[..|places| - 1]), asked, chances, accept, known);
    var verdict := VerdictOf(t, places[|places| - 1], asked, chances, accept, known);
    OpenMore(before.open, FeaturePart(t.features[places[|places| - 1]].item.id, verdict.open), v);
  }

  lemma OpenMore(open: seq<FeaturePart>, part: FeaturePart, v: Id)
    ensures v in AllValues(open + [part]) <==> v in AllValues(open) || v in part.values
  {
    assert (open + [part])[..|open|] == open;
  }

  /** A feature's verdict is about no other feature's values. */
  lemma VerdictFits(
      t: Taxonomy, i: nat, asked: seq<FeaturePart>, chances: map<Id, real>, accept: real, known: bool, v: Id)
    requires UniqueIds(t) && i < |t.features| && Deciding.WellOffered(t, asked)
    ensures
      var verdict := VerdictOf(t, i, asked, chances, accept, known);
      v in verdict.settled || v in verdict.open || v in verdict.proposed ==> FeatureIdOf(t, v) == Some(t.features[i].item.id)
  {
    if Offered(asked, t.features[i].item.id).Some? {
      var values := Offered(asked, t.features[i].item.id).value;
      Deciding.JudgedPart(t.features[i].cardinality, values, chances, accept, known);
    }
  }

  /** What is judged of some features is, for a feature's values, what is judged of that feature. */
  lemma {:induction false} JudgedAlone(
      t: Taxonomy, places: seq<nat>, i: nat, asked: seq<FeaturePart>, chances: map<Id, real>, accept: real, known: bool,
      v: Id)
    requires UniqueIds(t) && InRange(places, |t.features|) && i < |t.features| && Deciding.WellOffered(t, asked)
    requires FeatureIdOf(t, v) == Some(t.features[i].item.id)
    ensures
      var verdict := VerdictOf(t, i, asked, chances, accept, known);
      var all := JudgeFeatures(FeaturesAt(t, places), asked, chances, accept, known);
      && (v in all.settled <==> i in places && v in verdict.settled)
      && (v in AllValues(all.open) <==> i in places && v in verdict.open)
      && (v in all.proposed <==> i in places && v in verdict.proposed)
  {
    if places != [] {
      var front, last := places[..|places| - 1], places[|places| - 1];
      JudgedAlone(t, front, i, asked, chances, accept, known, v);
      JudgedNext(t, places, asked, chances, accept, known, v);
      VerdictFits(t, last, asked, chances, accept, known, v);
      OfOneFeature(t, i, last);
      assert i in places <==> i in front || i == last by {
        assert places == front + [last];
      }
    }
  }

  lemma OfOneFeature(t: Taxonomy, i: nat, j: nat)
    requires UniqueIds(t) && i < |t.features| && j < |t.features|
    ensures t.features[i].item.id == t.features[j].item.id ==> i == j
  {
    assert Has(t, AtFeature(i)) && Has(t, AtFeature(j));
    assert At(t, AtFeature(i)).id == At(t, AtFeature(j)).id ==> AtFeature(i) == AtFeature(j);
  }

  /** The shelf whose features are judged: the one settled, or the likeliest while none is. */
  function JudgedShelf(asked: Parts, d: PartsDecision, chances: map<Place, real>): Option<Place> {
    if d.settled.shelf != None then d.settled.shelf else Likeliest(asked.shelves, chances)
  }

  /**
   * A feature that takes one value: its likeliest, the first of several, is settled exactly when the shelf is known and
   * it reaches the threshold. Otherwise all its values are asked exactly when one is above what the threshold leaves,
   * and the likeliest is proposed when it is as likely as not.
   */
  lemma JudgedOne(values: seq<Id>, chances: map<Id, real>, accept: real, known: bool, v: Id)
    requires 0.5 <= accept <= 1.0 && v in values
    ensures
      var verdict := JudgeFeature(TakesOne, values, chances, accept, known);
      OneJudged(values, chances, v, accept, known, v in verdict.settled, v in verdict.open, v in verdict.proposed)
  {
    HalfRounded(accept);
    LikeliestIsFirst(values, chances);
    if FirstBest(values, chances, v) && Likeliest(values, chances).Some? {
      OneFirstBest(values, chances, v, Likeliest(values, chances).value);
    }
  }

  /** What a decision says of a value asked is its own feature's verdict, if the feature is on the shelf judged. */
  lemma ValuesAlone(
      t: Taxonomy, asked: Parts, fixedShelf: Option<Id>, probabilities: Probabilities, accept: real, i: nat, v: Id)
    requires UniqueIds(t) && Deciding.WellOffered(t, asked.features) && i < |t.features|
    requires FeatureIdOf(t, v) == Some(t.features[i].item.id)
    ensures
      var d := AcceptParts(t, asked, fixedShelf, probabilities, accept);
      var verdict := VerdictOf(t, i, asked.features, probabilities.values, accept, d.settled.shelf != None);
      var on := t.features[i].item.id in OnShelfIds(t, JudgedShelf(asked, d, probabilities.shelves));
      && (v in d.settled.values <==> on && v in verdict.settled)
      && (v in AllValues(d.open.features) <==> on && v in verdict.open)
      && (v in d.proposed.values <==> on && v in verdict.proposed)
  {
    var verdict := DecideShelf(t, asked, fixedShelf, probabilities.shelves, accept);
    JudgedShelfIs(t, asked, fixedShelf, probabilities, accept);
    if verdict.shelf != Some(NoneOfThese) {
      JudgedAlone(t, JudgedPlaces(t, verdict), i, asked.features, probabilities.values, accept, verdict.shelf != None, v);
      PlacedOn(t, if verdict.shelf != None then verdict.shelf else verdict.best, i);
    }
  }

  /** The shelf a decision judges by is the one its verdict settles, or its best. */
  lemma JudgedShelfIs(t: Taxonomy, asked: Parts, fixedShelf: Option<Id>, probabilities: Probabilities, accept: real)
    ensures
      var d := AcceptParts(t, asked, fixedShelf, probabilities, accept);
      var verdict := DecideShelf(t, asked, fixedShelf, probabilities.shelves, accept);
      && d.settled.shelf == verdict.shelf
      && JudgedShelf(asked, d, probabilities.shelves) == if verdict.shelf != None then verdict.shelf else verdict.best
  {
  }

  lemma PlacedOn(t: Taxonomy, on: Option<Place>, i: nat)
    requires UniqueIds(t) && i < |t.features|
    ensures on.Some? && on.value.On? ==>
      (t.features[i].item.id in OnShelfIds(t, on) <==> i in FeaturesFor(t, on.value.id))
  {
    if on.Some? && on.value.On? {
      var places, ids := FeaturesFor(t, on.value.id), OnShelfIds(t, on);
      if t.features[i].item.id in ids {
        var k :| 0 <= k < |ids| && ids[k] == t.features[i].item.id;
        OfOneFeature(t, i, places[k]);
      }
      if i in places {
        var k :| 0 <= k < |places| && places[k] == i;
        assert ids[k] == t.features[i].item.id;
      }
    }
  }

  /**
   * A value of a feature that takes many: settled from the threshold up, once the shelf is known; otherwise asked
   * when above what the threshold leaves; proposed when it is settled, or asked and as likely as not.
   */
  predicate ManyJudged(p: real, accept: real, known: bool, settled: bool, open: bool, proposed: bool) {
    && (settled <==> known && p >= accept)
    && (open <==> !settled && p > Round(1.0 - accept))
    && (proposed <==> settled || (open && p >= 0.5))
  }

  /**
   * A value of a feature that takes one: settled exactly when the shelf is known, some value reaches the threshold and
   * this is the first of the likeliest; then none is asked, and else all are, exactly when one is above what the
   * threshold leaves; proposed when settled, or asked, the first of the likeliest and as likely as not.
   */
  ghost predicate OneJudged(
      values: seq<Id>, chances: map<Id, real>, v: Id, accept: real, known: bool, settled: bool, open: bool, proposed: bool)
  {
    var reached, first := known && exists w :: w in values && Chance(chances, w) >= accept, FirstBest(values, chances, v);
    && (settled <==> reached && first)
    && (open <==> !reached && exists w :: w in values && Chance(chances, w) > Round(1.0 - accept))
    && (proposed <==> settled || (open && first && Chance(chances, v) >= 0.5))
  }

  /**
   * Where each value asked stands in a decision: off the shelf judged it is neither settled nor asked, and on it
   * as its chance and its feature's cardinality say.
   */
  lemma ValuesJudged(
      t: Taxonomy, asked: Parts, fixedShelf: Option<Id>, probabilities: Probabilities, accept: real, i: nat,
      values: seq<Id>, v: Id)
    requires UniqueIds(t) && Deciding.WellOffered(t, asked.features) && i < |t.features| && 0.5 <= accept <= 1.0
    requires Offered(asked.features, t.features[i].item.id) == Some(values) && v in values
    ensures
      var d, chances := AcceptParts(t, asked, fixedShelf, probabilities, accept), probabilities.values;
      var known, settled, open := d.settled.shelf != None, v in d.settled.values, v in AllValues(d.open.features);
      if t.features[i].item.id !in OnShelfIds(t, JudgedShelf(asked, d, probabilities.shelves)) then
        !settled && !open && v !in d.proposed.values
      else if t.features[i].cardinality == TakesMany then
        ManyJudged(Chance(chances, v), accept, known, settled, open, v in d.proposed.values)
      else OneJudged(values, chances, v, accept, known, settled, open, v in d.proposed.values)
  {
    var known := AcceptParts(t, asked, fixedShelf, probabilities, accept).settled.shelf != None;
    ValuesAlone(t, asked, fixedShelf, probabilities, accept, i, v);
    if t.features[i].cardinality == TakesMany {
      ManyStand(values, probabilities.values, accept, known, v);
    } else {
      JudgedOne(values, probabilities.values, accept, known, v);
    }
  }

  lemma ManyStand(values: seq<Id>, chances: map<Id, real>, accept: real, known: bool, v: Id)
    requires v in values
    ensures
      var verdict := JudgeFeature(TakesMany, values, chances, accept, known);
      ManyJudged(Chance(chances, v), accept, known, v in verdict.settled, v in verdict.open, v in verdict.proposed)
  {
  }

  /** What an answer merges to: the given shelf over the settled, and everything settled or given that the shelf takes. */
  lemma MergedHas(t: Taxonomy, settled: Answer, given: Answer, id: Id)
    requires given.shelf != Some(NoneOfThese)
    ensures
      var whole := MergeAnswers(t, settled, given);
      && whole.shelf == (if given.shelf.Some? then given.shelf else settled.shelf)
      && (id in whole.functions <==>
            (id in settled.functions || id in given.functions) && id !in ImpliedBy(t, whole.shelf))
      && (id in whole.values <==> id in given.values || (id in settled.values && Fits(t, whole.shelf, id)))
      && NoRepeats(whole.values) && NoRepeats(whole.functions)
  {
    var whole := MergeAnswers(t, settled, given);
    var implied := ImpliedBy(t, whole.shelf);
    FilterDistinct((fn: Id) => fn !in implied, Unique(settled.functions + given.functions));
  }

  /** Giving an answer again changes nothing: what it merges to holds what it held. */
  lemma MergedAgain(t: Taxonomy, settled: Answer, given: Answer, id: Id)
    requires given.shelf != Some(NoneOfThese)
    ensures
      var whole := MergeAnswers(t, settled, given);
      var again := MergeAnswers(t, whole, given);
      && again.shelf == whole.shelf
      && (id in again.functions <==> id in whole.functions)
      && (id in again.values <==> id in whole.values)
  {
    MergedHas(t, settled, given, id);
    MergedHas(t, MergeAnswers(t, settled, given), given, id);
  }

  /**
   * A decision brought up to date asks of the shelves its own stand for now, each once; and of none at all
   * unless two of them stand for different ones.
   */
  lemma FreshShelves(t: Taxonomy, d: PartsDecision, place: Place)
    ensures
      var shelves := Freshen(t, d).open.shelves;
      var now := PlaceResolver(t);
      && |shelves| != 1 && NoRepeats(shelves)
      && (shelves != [] <==> exists x, y ::
            x in d.open.shelves && y in d.open.shelves && now(x).Some? && now(y).Some? && now(x) != now(y))
      && (shelves != [] ==> (place in shelves <==> exists before :: before in d.open.shelves && now(before) == Some(place)))
  {
    var now := PlaceResolver(t);
    var kept := Unique(Mapped(now, d.open.shelves));
    MappedFrom(now, d.open.shelves, place);
    if |kept| >= 2 {
      MappedFrom(now, d.open.shelves, kept[0]);
      MappedFrom(now, d.open.shelves, kept[1]);
      assert kept[0] in kept && kept[1] in kept;
    }
    if x, y :| x in d.open.shelves && y in d.open.shelves && now(x).Some? && now(y).Some? && now(x) != now(y) {
      MappedFrom(now, d.open.shelves, now(x).value);
      MappedFrom(now, d.open.shelves, now(y).value);
      TwoOfThem(kept, now(x).value, now(y).value);
    }
  }

  lemma TwoOfThem(list: seq<Place>, x: Place, y: Place)
    requires x in list && y in list && x != y
    ensures |list| >= 2
  {
  }
}
