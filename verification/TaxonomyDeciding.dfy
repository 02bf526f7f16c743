/**
 What a decision over a page's parts keeps: each value offered is under its own feature, a feature
 that takes one value is settled or asked but never both, and bringing a decision up to date with a
 later taxonomy keeps all of it.
 */
module TaxonomyDeciding {
  import opened Basics
  import opened Taxonomies
  import opened TaxonomyChanges
  import opened Ordering
  import opened TaxonomyForwarding
  import opened TaxonomyResolution
  import opened TaxonomyVersions
  import opened TaxonomyDecision
  import Steps = TaxonomySteps

  /** Whether two values are of one feature, which takes one value. */
  predicate Compete(t: Taxonomy, a: Id, b: Id) {
    && FeatureIdOf(t, a).Some?
    && FeatureIdOf(t, a) == FeatureIdOf(t, b)
    && TakesOneValue(t, FeatureIdOf(t, a).value)
  }

  /** At most one value for each feature that takes one. */
  ghost predicate OnePer(t: Taxonomy, values: seq<Id>) {
    forall a, b :: a in values && b in values && Compete(t, a, b) ==> a == b
  }

  ghost predicate AllKnown(t: Taxonomy, values: seq<Id>) {
    forall v :: v in values ==> FeatureIdOf(t, v).Some?
  }

  /** A part names values of its own feature. */
  ghost predicate PartFits(t: Taxonomy, part: FeaturePart) {
    forall v :: v in part.values ==> FeatureIdOf(t, v) == Some(part.feature)
  }

  ghost predicate WellOffered(t: Taxonomy, features: seq<FeaturePart>) {
    && FeaturesOnce(features)
    && forall k :: 0 <= k < |features| ==> PartFits(t, features[k])
  }

  /** Values settled and parts open: no feature that takes one value is both. */
  ghost predicate WellDecided(t: Taxonomy, settled: seq<Id>, open: seq<FeaturePart>) {
    && WellOffered(t, open)
    && OnePer(t, settled) && AllKnown(t, settled)
    && forall v, k :: v in settled && 0 <= k < |open| && FeatureIdOf(t, v) == Some(open[k].feature) ==>
         !TakesOneValue(t, open[k].feature)
  }

  // ---------------------------------------------------------------------- what is asked

  /** Whether an ID is one of some features'. */
  predicate OfPlaces(t: Taxonomy, places: seq<nat>, featureId: Id)
    requires InRange(places, |t.features|)
  {
    exists k :: 0 <= k < |places| && t.features[places[k]].item.id == featureId
  }

  /** A feature after others is none of them. */
  lemma LastIsNew(t: Taxonomy, places: seq<nat>)
    requires UniqueIds(t) && InRange(places, |t.features|) && NoRepeats(places) && places != []
    ensures !OfPlaces(t, places[..|places| - 1], t.features[places[|places| - 1]].item.id)
  {
    var n := |places| - 1;
    forall k | 0 <= k < n
      ensures t.features[places[k]].item.id != t.features[places[n]].item.id
    {
      assert Has(t, AtFeature(places[k])) && Has(t, AtFeature(places[n]));
      assert At(t, AtFeature(places[k])).id != At(t, AtFeature(places[n])).id;
    }
  }

  lemma FrontPlaces(t: Taxonomy, places: seq<nat>)
    requires InRange(places, |t.features|) && places != []
    ensures OfPlaces(t, places, t.features[places[|places| - 1]].item.id)
    ensures forall f :: OfPlaces(t, places[..|places| - 1], f) ==> OfPlaces(t, places, f)
  {
    var front := places[..|places| - 1];
    forall f | OfPlaces(t, front, f)
      ensures OfPlaces(t, places, f)
    {
      var k :| 0 <= k < |front| && t.features[front[k]].item.id == f;
      assert places[k] == front[k];
    }
  }

  lemma FeaturesAtFront(t: Taxonomy, places: seq<nat>)
    requires InRange(places, |t.features|) && places != []
    ensures FeaturesAt(t, places)[..|places| - 1] == FeaturesAt(t, places[..|places| - 1])
  {
  }

  lemma AskedValuesFit(t: Taxonomy, i: nat, decided: set<Id>)
    requires UniqueIds(t) && i < |t.features|
    ensures PartFits(t, FeaturePart(t.features[i].item.id, AskedValues(t.features[i], decided)))
  {
    forall v | v in AskedValues(t.features[i], decided)
      ensures FeatureIdOf(t, v) == Some(t.features[i].item.id)
    {
      var j :| 0 <= j < |t.features[i].values| && t.features[i].values[j].id == v;
      FeatureIdAt(t, i, j);
    }
  }

  lemma OneMorePart(t: Taxonomy, before: seq<FeaturePart>, part: FeaturePart)
    requires WellOffered(t, before) && PartFits(t, part)
    requires forall k :: 0 <= k < |before| ==> before[k].feature != part.feature
    ensures WellOffered(t, before + [part])
  {
  }

  lemma {:induction false} AskedFeaturesWell(t: Taxonomy, places: seq<nat>, decided: set<Id>)
    requires UniqueIds(t) && InRange(places, |t.features|) && NoRepeats(places)
    ensures
      var asked := AskedFeatures(FeaturesAt(t, places), decided);
      WellOffered(t, asked) && forall k :: 0 <= k < |asked| ==> OfPlaces(t, places, asked[k].feature)
  {
    if places != [] {
      var front, last := places[..|places| - 1], places[|places| - 1];
      AskedFeaturesWell(t, front, decided);
      FeaturesAtFront(t, places);
      LastIsNew(t, places);
      AskedValuesFit(t, last, decided);
      FrontPlaces(t, places);
      OneMorePart(t, AskedFeatures(FeaturesAt(t, front), decided),
                  FeaturePart(t.features[last].item.id, AskedValues(t.features[last], decided)));
    }
  }

  /** A question offers each value under its own feature, and each feature once. */
  lemma AskedWell(t: Taxonomy, fixedShelf: Option<Id>, carried: Carried)
    requires UniqueIds(t)
    ensures WellOffered(t, AskedParts(t, fixedShelf, carried).features)
  {
    match fixedShelf
    case None =>
      LiveInOrderAre(FeatureItems(t.features));
      AskedFeaturesWell(t, LiveInOrder(FeatureItems(t.features)), DecidedBefore(carried));
    case Some(shelf) =>
      FeaturesForAre(t, shelf);
      AskedFeaturesWell(t, FeaturesFor(t, shelf), DecidedBefore(carried));
  }

  /** The functions asked are the live ones a person didn't decide before. */
  lemma FunctionsNotAskedAgain(t: Taxonomy, fixedShelf: Option<Id>, carried: Carried, fn: Id)
    requires UniqueIds(t)
    ensures
      fn in AskedParts(t, fixedShelf, carried).functions <==>
      LiveId(t, FunctionSubject, fn) && fn !in DecidedBefore(carried)
  {
    LiveFunctionIds(t, fn);
  }

  /**
   * A question leaves out every value that the person's earlier word covers, and with it the other values of its
   * feature, where that takes only one.
   */
  lemma ValuesNotAskedAgain(t: Taxonomy, fixedShelf: Option<Id>, carried: Carried, part: FeaturePart, value: Id)
    requires UniqueIds(t) && part in AskedParts(t, fixedShelf, carried).features
    requires value in DecidedBefore(carried)
    ensures value !in part.values
    ensures part.values != []
    ensures LiveId(t, ValueSubject, value) && FeatureIdOf(t, value) == Some(part.feature) ==> !TakesOneValue(t, part.feature)
  {
    var decided := DecidedBefore(carried);
    var places := match fixedShelf case None => LiveInOrder(FeatureItems(t.features)) case Some(shelf) => FeaturesFor(t, shelf);
    var i := AskedPartOf(t, places, decided, part);
    if LiveId(t, ValueSubject, value) && FeatureIdOf(t, value) == Some(part.feature) {
      AskedWhole(t, i, decided, value);
    }
  }

  lemma InFront<T>(list: seq<T>, x: T)
    requires list != [] && x in list[..|list| - 1]
    ensures x in list
  {
  }

  lemma AskedLast(features: seq<Feature>, decided: set<Id>, part: FeaturePart)
    requires features != [] && part in AskedFeatures(features, decided)
    requires part !in AskedFeatures(features[..|features| - 1], decided)
    ensures part.values != []
    ensures
      var last := features[|features| - 1];
      part == FeaturePart(last.item.id, AskedValues(last, decided))
  {
  }

  /** A part asked is some feature's, with a value to ask. */
  lemma {:induction false} AskedPartOf(t: Taxonomy, places: seq<nat>, decided: set<Id>, part: FeaturePart) returns (i: nat)
    requires InRange(places, |t.features|) && part in AskedFeatures(FeaturesAt(t, places), decided)
    ensures i in places && part.values != []
    ensures part == FeaturePart(t.features[i].item.id, AskedValues(t.features[i], decided))
  {
    var front, last := places[..|places| - 1], places[|places| - 1];
    FeaturesAtFront(t, places);
    if part in AskedFeatures(FeaturesAt(t, front), decided) {
      i := AskedPartOf(t, front, decided, part);
      InFront(places, i);
    } else {
      AskedLast(FeaturesAt(t, places), decided, part);
      i := last;
    }
  }

  lemma LiveFunctionIds(t: Taxonomy, fn: Id)
    requires UniqueIds(t)
    ensures fn in IdsAt(t.functions, LiveInOrder(t.functions)) <==> LiveId(t, FunctionSubject, fn)
  {
    var places := LiveInOrder(t.functions);
    var ids := IdsAt(t.functions, places);
    LiveInOrderAre(t.functions);
    if fn in ids {
      var k :| 0 <= k < |ids| && ids[k] == fn;
      assert places[k] in places;
      FindAt(t, AtFunction(places[k]));
    }
    if LiveId(t, FunctionSubject, fn) {
      var p := LiveItem(t, FunctionSubject, ById(fn)).value;
      assert p.i in places;
      var k :| 0 <= k < |places| && places[k] == p.i;
      assert ids[k] == fn;
    }
  }

  /** A feature that takes one value isn't asked when one of its live values was decided. */
  lemma AskedWhole(t: Taxonomy, i: nat, decided: set<Id>, value: Id)
    requires UniqueIds(t) && i < |t.features|
    requires value in decided && LiveId(t, ValueSubject, value) && FeatureIdOf(t, value) == Some(t.features[i].item.id)
    ensures TakesOneValue(t, t.features[i].item.id) ==> AskedValues(t.features[i], decided) == []
  {
    var p := Find(t, ValueSubject, ById(value)).value;
    FindAt(t, AtFeature(i));
    FindAt(t, AtFeature(p.i));
    assert p.i == i;
    var places := LiveInOrder(t.features[i].values);
    LiveInOrderAre(t.features[i].values);
    assert p.j in places;
    var k :| 0 <= k < |places| && places[k] == p.j;
    assert IdsAt(t.features[i].values, places)[k] == value;
  }

  // ---------------------------------------------------------------------- what is accepted

  /** A feature's verdict settles and opens only what it offers; one that takes one settles one, or opens. */
  lemma JudgedPart(cardinality: Cardinality, values: seq<Id>, chances: map<Id, real>, accept: real, known: bool)
    ensures
      var verdict := JudgeFeature(cardinality, values, chances, accept, known);
      && (forall v :: v in verdict.settled ==> v in values)
      && (forall v :: v in verdict.open ==> v in values)
      && (!known ==> verdict.settled == [])
      && (cardinality == TakesOne ==> |verdict.settled| <= 1 && (verdict.settled == [] || verdict.open == []))
      && (cardinality == TakesMany ==> forall v :: v in verdict.settled ==> v !in verdict.open)
  {
    if cardinality == TakesMany && !known {
      FilterNothing((v: Id) => Judge(Chance(chances, v), accept, known) == Settled, values);
    }
  }

  /** A verdict on some features: well decided, about those features, and settling nothing on an open shelf. */
  ghost predicate JudgedSo(t: Taxonomy, places: seq<nat>, known: bool, r: FeaturesVerdict)
    requires InRange(places, |t.features|)
  {
    && WellDecided(t, r.settled, r.open)
    && (!known ==> r.settled == [])
    && (forall k :: 0 <= k < |r.open| ==> OfPlaces(t, places, r.open[k].feature))
    && (forall v :: v in r.settled ==> OfPlaces(t, places, FeatureIdOf(t, v).value))
  }

  /** The last feature's verdict comes after the others'. */
  lemma JudgedLast(
      t: Taxonomy, places: seq<nat>, asked: seq<FeaturePart>, chances: map<Id, real>, accept: real, known: bool)
    requires InRange(places, |t.features|) && places != []
    ensures
      var last := t.features[places[|places| - 1]];
      var before := JudgeFeatures(FeaturesAt(t, places[..|places| - 1]), asked, chances, accept, known);
      var after := JudgeFeatures(FeaturesAt(t, places), asked, chances, accept, known);
      match Offered(asked, last.item.id)
      case None => after == before
      case Some(values) =>
        var verdict := JudgeFeature(last.cardinality, values, chances, accept, known);
        && after.settled == before.settled + verdict.settled
        && after.open ==
             if verdict.open != [] then before.open + [FeaturePart(last.item.id, verdict.open)] else before.open
  {
    FeaturesAtFront(t, places);
  }

  lemma {:induction false} JudgedWell(
      t: Taxonomy, places: seq<nat>, asked: seq<FeaturePart>, chances: map<Id, real>, accept: real, known: bool)
    requires UniqueIds(t) && InRange(places, |t.features|) && NoRepeats(places) && WellOffered(t, asked)
    ensures JudgedSo(t, places, known, JudgeFeatures(FeaturesAt(t, places), asked, chances, accept, known))
  {
    if places != [] {
      var front, last := places[..|places| - 1], places[|places| - 1];
      var id := t.features[last].item.id;
      var before := JudgeFeatures(FeaturesAt(t, front), asked, chances, accept, known);
      JudgedWell(t, front, asked, chances, accept, known);
      JudgedLast(t, places, asked, chances, accept, known);
      if Offered(asked, id) == None {
        JudgedFront(t, places, known, before);
      } else {
        var verdict := JudgeFeature(t.features[last].cardinality, Offered(asked, id).value, chances, accept, known);
        JudgedFits(t, last, asked, chances, accept, known);
        JudgedMore(t, places, known, before, id, verdict,
                   JudgeFeatures(FeaturesAt(t, places), asked, chances, accept, known));
      }
    }
  }

  /** A feature's verdict is about its own values, and fits how many it takes. */
  lemma JudgedFits(t: Taxonomy, i: nat, asked: seq<FeaturePart>, chances: map<Id, real>, accept: real, known: bool)
    requires UniqueIds(t) && i < |t.features| && WellOffered(t, asked)
    requires Offered(asked, t.features[i].item.id).Some?
    ensures
      var id := t.features[i].item.id;
      var verdict := JudgeFeature(t.features[i].cardinality, Offered(asked, id).value, chances, accept, known);
      && PartFits(t, FeaturePart(id, verdict.settled)) && PartFits(t, FeaturePart(id, verdict.open))
      && (TakesOneValue(t, id) ==> |verdict.settled| <= 1 && (verdict.settled == [] || verdict.open == []))
      && (!known ==> verdict.settled == [])
  {
    FindAt(t, AtFeature(i));
    JudgedPart(t.features[i].cardinality, Offered(asked, t.features[i].item.id).value, chances, accept, known);
  }

  lemma JudgedFront(t: Taxonomy, places: seq<nat>, known: bool, before: FeaturesVerdict)
    requires InRange(places, |t.features|) && places != []
    requires JudgedSo(t, places[..|places| - 1], known, before)
    ensures JudgedSo(t, places, known, before)
  {
    FrontPlaces(t, places);
  }

  lemma JudgedMore(
      t: Taxonomy, places: seq<nat>, known: bool, before: FeaturesVerdict, id: Id, verdict: FeatureVerdict,
      r: FeaturesVerdict)
    requires UniqueIds(t) && InRange(places, |t.features|) && NoRepeats(places) && places != []
    requires id == t.features[places[|places| - 1]].item.id
    requires JudgedSo(t, places[..|places| - 1], known, before)
    requires PartFits(t, FeaturePart(id, verdict.settled)) && PartFits(t, FeaturePart(id, verdict.open))
    requires TakesOneValue(t, id) ==> |verdict.settled| <= 1 && (verdict.settled == [] || verdict.open == [])
    requires !known ==> verdict.settled == []
    requires r.settled == before.settled + verdict.settled
    requires r.open == if verdict.open != [] then before.open + [FeaturePart(id, verdict.open)] else before.open
    ensures JudgedSo(t, places, known, r)
  {
    LastIsNew(t, places);
    OneMoreJudged(t, places, before, id, verdict);
    FrontPlaces(t, places);
    OneMorePlaces(t, places, before, id, verdict, r);
  }

  lemma OneMorePlaces(
      t: Taxonomy, places: seq<nat>, before: FeaturesVerdict, id: Id, verdict: FeatureVerdict, r: FeaturesVerdict)
    requires InRange(places, |t.features|) && OfPlaces(t, places, id) && AllKnown(t, r.settled)
    requires forall k :: 0 <= k < |before.open| ==> OfPlaces(t, places, before.open[k].feature)
    requires AllKnown(t, before.settled) && forall v :: v in before.settled ==> OfPlaces(t, places, FeatureIdOf(t, v).value)
    requires PartFits(t, FeaturePart(id, verdict.settled))
    requires r.settled == before.settled + verdict.settled
    requires r.open == if verdict.open != [] then before.open + [FeaturePart(id, verdict.open)] else before.open
    ensures forall k :: 0 <= k < |r.open| ==> OfPlaces(t, places, r.open[k].feature)
    ensures forall v :: v in r.settled ==> OfPlaces(t, places, FeatureIdOf(t, v).value)
  {
  }

  /** One more feature's verdict, after others', keeps the whole well decided. */
  lemma OneMoreJudged(t: Taxonomy, places: seq<nat>, before: FeaturesVerdict, id: Id, verdict: FeatureVerdict)
    requires WellDecided(t, before.settled, before.open) && InRange(places, |t.features|) && places != []
    requires !OfPlaces(t, places[..|places| - 1], id)
    requires forall k :: 0 <= k < |before.open| ==> OfPlaces(t, places[..|places| - 1], before.open[k].feature)
    requires forall v :: v in before.settled ==> OfPlaces(t, places[..|places| - 1], FeatureIdOf(t, v).value)
    requires PartFits(t, FeaturePart(id, verdict.settled)) && PartFits(t, FeaturePart(id, verdict.open))
    requires TakesOneValue(t, id) ==> |verdict.settled| <= 1 && (verdict.settled == [] || verdict.open == [])
    ensures
      WellDecided(t, before.settled + verdict.settled,
                  if verdict.open != [] then before.open + [FeaturePart(id, verdict.open)] else before.open)
  {
    var settled := before.settled + verdict.settled;
    forall a, b | a in settled && b in settled && Compete(t, a, b)
      ensures a == b
    {
      if a in verdict.settled || b in verdict.settled {
        assert a !in before.settled && b !in before.settled;
      }
    }
  }

  /**
   * What `acceptParts` settles and opens of the features: each value under its own feature, at most one
   * value settled for a feature that takes one, and such a feature never both settled and open; and
   * settled values are on the settled shelf.
   */
  lemma AcceptedWell(t: Taxonomy, asked: Parts, fixedShelf: Option<Id>, probabilities: Probabilities, accept: real)
    requires UniqueIds(t) && WellOffered(t, asked.features)
    ensures
      var d := AcceptParts(t, asked, fixedShelf, probabilities, accept);
      && WellDecided(t, d.settled.values, d.open.features)
      && (forall v :: v in d.settled.values ==> Fits(t, d.settled.shelf, v))
  {
    var d := AcceptParts(t, asked, fixedShelf, probabilities, accept);
    var verdict := DecideShelf(t, asked, fixedShelf, probabilities.shelves, accept);
    if verdict.shelf != Some(NoneOfThese) {
      var on := if verdict.shelf != None then verdict.shelf else verdict.best;
      if on != None && on.value.On? {
        FeaturesForAre(t, on.value.id);
      }
      JudgedWell(t, JudgedPlaces(t, verdict), asked.features, probabilities.values, accept, verdict.shelf != None);
      forall v | v in d.settled.values
        ensures Fits(t, d.settled.shelf, v)
      {
        OnShelfPlace(t, d.settled.shelf.value.id, FeatureIdOf(t, v).value);
      }
    }
  }

  lemma OnShelfPlace(t: Taxonomy, shelf: Id, featureId: Id)
    ensures OfPlaces(t, FeaturesFor(t, shelf), featureId) <==> featureId in OnShelfIds(t, Some(On(shelf)))
  {
    var places, ids := FeaturesFor(t, shelf), OnShelfIds(t, Some(On(shelf)));
    if featureId in ids {
      var k :| 0 <= k < |ids| && ids[k] == featureId;
      assert t.features[places[k]].item.id == featureId;
    }
    if OfPlaces(t, places, featureId) {
      var k :| 0 <= k < |places| && t.features[places[k]].item.id == featureId;
      assert ids[k] == featureId;
    }
  }

  // ---------------------------------------------------------------------- brought up to date

  lemma ResolvedFrom(t: Taxonomy, subject: Subject, ids: seq<Id>, now: Id)
    ensures now in Resolved(t, subject, ids) <==> exists id :: id in ids && Resolve(t, subject, id) == Some(now)
  {
    MappedFrom(Resolver(t, subject), ids, now);
    assert forall id :: Resolver(t, subject)(id) == Resolve(t, subject, id);
  }

  /** Values brought up to date are of the features they were of. */
  lemma ResolvedValues(t: Taxonomy, u: Taxonomy, values: seq<Id>)
    requires Usable(u) && Later(t, u) && AllKnown(t, values)
    ensures AllKnown(u, Resolved(u, ValueSubject, values))
    ensures forall now :: now in Resolved(u, ValueSubject, values) ==>
      exists v :: v in values && Resolve(u, ValueSubject, v) == Some(now) && FeatureIdOf(u, now) == FeatureIdOf(t, v)
    ensures OnePer(t, values) ==> OnePer(u, Resolved(u, ValueSubject, values))
  {
    var later := Resolved(u, ValueSubject, values);
    forall now | now in later
      ensures exists v :: v in values && Resolve(u, ValueSubject, v) == Some(now) && FeatureIdOf(u, now) == FeatureIdOf(t, v)
    {
      ResolvedFrom(u, ValueSubject, values, now);
      var v :| v in values && Resolve(u, ValueSubject, v) == Some(now);
      FeatureIdLater(t, u, v);
      ResolveKeepsFeature(u, v);
    }
    if OnePer(t, values) {
      forall a, b | a in later && b in later && Compete(u, a, b)
        ensures a == b
      {
        var x :| x in values && Resolve(u, ValueSubject, x) == Some(a) && FeatureIdOf(u, a) == FeatureIdOf(t, x);
        var y :| y in values && Resolve(u, ValueSubject, y) == Some(b) && FeatureIdOf(u, b) == FeatureIdOf(t, y);
        FeatureIdLater(t, u, x);
        assert Compete(t, x, y);
      }
    }
  }

  /** A part of its own sets nothing else aside. */
  lemma SetNewPart(features: seq<FeaturePart>, part: FeaturePart)
    requires forall k :: 0 <= k < |features| ==> features[k].feature != part.feature
    ensures SetPart(features, part) == features + [part]
  {
    assert PartAt(features, part.feature) == None;
  }

  /** A feature's part, brought up to date: dropped with its feature, or when none of its values is left. */
  function FreshPart(t: Taxonomy, part: FeaturePart): seq<FeaturePart> {
    var kept := Resolved(t, ValueSubject, part.values);
    if LiveId(t, FeatureSubject, part.feature) && kept != [] then [FeaturePart(part.feature, kept)] else []
  }

  /** A part brought up to date is one of some features', each on its own. */
  ghost predicate FreshFrom(t: Taxonomy, features: seq<FeaturePart>, part: FeaturePart) {
    exists l :: 0 <= l < |features| && [part] == FreshPart(t, features[l])
  }

  ghost predicate AllFreshFrom(t: Taxonomy, features: seq<FeaturePart>, now: seq<FeaturePart>) {
    FeaturesOnce(now) && forall k :: 0 <= k < |now| ==> FreshFrom(t, features, now[k])
  }

  lemma FreshFromFront(t: Taxonomy, features: seq<FeaturePart>, part: FeaturePart)
    requires features != [] && FreshFrom(t, features[..|features| - 1], part) && FeaturesOnce(features)
    ensures FreshFrom(t, features, part) && part.feature != features[|features| - 1].feature
  {
    var front := features[..|features| - 1];
    var l :| 0 <= l < |front| && [part] == FreshPart(t, front[l]);
    assert features[l] == front[l];
    assert [part][0] == FreshPart(t, front[l])[0];
  }

  /** One part more, brought up to date, after the others: its feature is none of theirs. */
  lemma FreshLast(t: Taxonomy, features: seq<FeaturePart>, before: seq<FeaturePart>)
    requires Usable(t) && features != [] && before == FreshFeatures(t, features[..|features| - 1])
    requires forall k :: 0 <= k < |before| ==> before[k].feature != features[|features| - 1].feature
    ensures FreshFeatures(t, features) == before + FreshPart(t, features[|features| - 1])
  {
    var last := features[|features| - 1];
    FeatureResolves(t, last.feature);
    SetNewPart(before, FeaturePart(last.feature, Resolved(t, ValueSubject, last.values)));
  }

  lemma AllFreshLast(t: Taxonomy, features: seq<FeaturePart>, before: seq<FeaturePart>)
    requires features != [] && FeaturesOnce(features) && AllFreshFrom(t, features[..|features| - 1], before)
    ensures AllFreshFrom(t, features, before + FreshPart(t, features[|features| - 1]))
  {
    var more := before + FreshPart(t, features[|features| - 1]);
    forall k | 0 <= k < |more|
      ensures FreshFrom(t, features, more[k])
      ensures k < |before| ==> more[k].feature != features[|features| - 1].feature
    {
      if k < |before| {
        FreshFromFront(t, features, before[k]);
      } else {
        assert [more[k]] == FreshPart(t, features[|features| - 1]);
      }
    }
  }

  /** Features never merge, so each part is brought up to date on its own. */
  lemma {:induction false} FreshParts(t: Taxonomy, features: seq<FeaturePart>)
    requires Usable(t) && FeaturesOnce(features)
    ensures features != [] ==>
      FreshFeatures(t, features) == FreshFeatures(t, features[..|features| - 1]) + FreshPart(t, features[|features| - 1])
    ensures AllFreshFrom(t, features, FreshFeatures(t, features))
  {
    if features != [] {
      var before := FreshFeatures(t, features[..|features| - 1]);
      FreshParts(t, features[..|features| - 1]);
      forall k | 0 <= k < |before|
        ensures before[k].feature != features[|features| - 1].feature
      {
        FreshFromFront(t, features, before[k]);
      }
      FreshLast(t, features, before);
      AllFreshLast(t, features, before);
    }
  }

  /** A decision brought up to date is still well decided. */
  lemma FreshenWell(t: Taxonomy, u: Taxonomy, d: PartsDecision)
    requires Usable(u) && Later(t, u) && WellDecided(t, d.settled.values, d.open.features)
    ensures WellDecided(u, Freshen(u, d).settled.values, Freshen(u, d).open.features)
  {
    var settled, open := Freshen(u, d).settled.values, Freshen(u, d).open.features;
    ResolvedValues(t, u, d.settled.values);
    FreshParts(u, d.open.features);
    forall k | 0 <= k < |open|
      ensures PartFits(u, open[k])
      ensures exists l :: 0 <= l < |d.open.features| && d.open.features[l].feature == open[k].feature
    {
      assert FreshFrom(u, d.open.features, open[k]);
      var l :| 0 <= l < |d.open.features| && [open[k]] == FreshPart(u, d.open.features[l]);
      assert [open[k]][0] == FreshPart(u, d.open.features[l])[0];
      assert PartFits(t, d.open.features[l]);
      ResolvedValues(t, u, d.open.features[l].values);
    }
    forall v, k | v in settled && 0 <= k < |open| && FeatureIdOf(u, v) == Some(open[k].feature)
      ensures !TakesOneValue(u, open[k].feature)
    {
      var x :| x in d.settled.values && Resolve(u, ValueSubject, x) == Some(v) && FeatureIdOf(u, v) == FeatureIdOf(t, x);
      FeatureIdLater(t, u, x);
    }
  }

  // ---------------------------------------------------------------------- brought up to date twice

  /** IDs that each resolve later as what they resolve to now does. */
  ghost predicate Settles(t: Taxonomy, u: Taxonomy, subject: Subject, id: Id) {
    Resolve(u, subject, id) == match Resolve(t, subject, id) case Some(now) => Resolve(u, subject, now) case None => None
  }

  /** Bringing IDs up to date in an earlier version and then a later one is bringing them up to date in the later. */
  lemma ResolvedTwice(t: Taxonomy, u: Taxonomy, subject: Subject, ids: seq<Id>)
    requires forall id :: id in ids ==> Settles(t, u, subject, id)
    ensures Resolved(u, subject, Resolved(t, subject, ids)) == Resolved(u, subject, ids)
  {
    UniqueMapped(Resolver(u, subject), Mapped(Resolver(t, subject), ids));
    MappedTwice(Resolver(t, subject), Resolver(u, subject), ids);
  }

  /** Resolving commutes with what versions that restore nothing do, for what was listed. */
  lemma ListedSettles(t: Taxonomy, u: Taxonomy, subject: Subject, id: Id)
    requires Usable(t) && Usable(u) && Follows(t, u) && Listed(t, subject, id)
    ensures Settles(t, u, subject, id)
  {
    ResolveLater(t, u, subject, id);
  }

  ghost predicate AllListed(t: Taxonomy, subject: Subject, ids: seq<Id>) {
    forall id :: id in ids ==> Listed(t, subject, id)
  }

  ghost predicate PlaceListed(t: Taxonomy, place: Option<Place>) {
    place.Some? && place.value.On? ==> Listed(t, ShelfSubject, place.value.id)
  }

  ghost predicate AnswerListed(t: Taxonomy, answer: Answer) {
    && PlaceListed(t, answer.shelf)
    && AllListed(t, FunctionSubject, answer.functions)
    && AllListed(t, ValueSubject, answer.values)
  }

  ghost predicate PartListed(t: Taxonomy, part: FeaturePart) {
    Listed(t, FeatureSubject, part.feature) && AllListed(t, ValueSubject, part.values)
  }

  /** A decision made under a taxonomy names only what it lists. */
  ghost predicate DecisionListed(t: Taxonomy, d: PartsDecision) {
    && AnswerListed(t, d.settled) && AnswerListed(t, d.proposed)
    && (forall place :: place in d.open.shelves ==> PlaceListed(t, Some(place)))
    && AllListed(t, FunctionSubject, d.open.functions)
    && (forall k :: 0 <= k < |d.open.features| ==> PartListed(t, d.open.features[k]))
  }

  lemma ListedTwice(t: Taxonomy, u: Taxonomy, subject: Subject, ids: seq<Id>)
    requires Usable(t) && Usable(u) && Follows(t, u) && AllListed(t, subject, ids)
    ensures Resolved(u, subject, Resolved(t, subject, ids)) == Resolved(u, subject, ids)
  {
    forall id | id in ids
      ensures Settles(t, u, subject, id)
    {
      ListedSettles(t, u, subject, id);
    }
    ResolvedTwice(t, u, subject, ids);
  }

  lemma PlaceSettles(t: Taxonomy, u: Taxonomy, place: Place)
    requires Usable(t) && Usable(u) && Follows(t, u) && PlaceListed(t, Some(place))
    ensures ResolvePlace(u, place) == match ResolvePlace(t, place) case Some(now) => ResolvePlace(u, now) case None => None
  {
    if place.On? {
      ListedSettles(t, u, ShelfSubject, place.id);
    }
  }

  lemma AnswerTwice(t: Taxonomy, u: Taxonomy, answer: Answer)
    requires Usable(t) && Usable(u) && Follows(t, u) && AnswerListed(t, answer)
    ensures FreshAnswer(u, FreshAnswer(t, answer)) == FreshAnswer(u, answer)
  {
    if answer.shelf.Some? {
      PlaceSettles(t, u, answer.shelf.value);
    }
    ListedTwice(t, u, FunctionSubject, answer.functions);
    ListedTwice(t, u, ValueSubject, answer.values);
  }

  lemma ShelvesTwice(t: Taxonomy, u: Taxonomy, places: seq<Place>)
    requires Usable(t) && Usable(u) && Follows(t, u)
    requires forall place :: place in places ==> PlaceListed(t, Some(place))
    ensures FreshShelves(u, FreshShelves(t, places)) == FreshShelves(u, places)
  {
    forall place | place in places
      ensures PlaceResolver(u)(place) ==
              match PlaceResolver(t)(place) case Some(now) => PlaceResolver(u)(now) case None => None
    {
      PlaceSettles(t, u, place);
    }
    MappedTwice(PlaceResolver(t), PlaceResolver(u), places);
    UniqueMapped(PlaceResolver(u), Mapped(PlaceResolver(t), places));
  }

  lemma PartTwice(t: Taxonomy, u: Taxonomy, part: FeaturePart)
    requires Usable(t) && Usable(u) && Follows(t, u) && PartListed(t, part)
    ensures FreshPart(u, part) == if FreshPart(t, part) == [] then [] else FreshPart(u, FreshPart(t, part)[0])
  {
    ListedTwice(t, u, ValueSubject, part.values);
    ListedSettles(t, u, FeatureSubject, part.feature);
    FeatureResolves(t, part.feature);
    FeatureResolves(u, part.feature);
  }

  lemma {:induction false} PartsTwice(t: Taxonomy, u: Taxonomy, features: seq<FeaturePart>)
    requires Usable(t) && Usable(u) && Follows(t, u) && FeaturesOnce(features)
    requires forall k :: 0 <= k < |features| ==> PartListed(t, features[k])
    ensures FreshFeatures(u, FreshFeatures(t, features)) == FreshFeatures(u, features)
  {
    if features != [] {
      var front, last := features[..|features| - 1], features[|features| - 1];
      PartsTwice(t, u, front);
      FreshParts(t, features);
      FreshParts(u, features);
      PartTwice(t, u, last);
      var now := FreshFeatures(t, features);
      if FreshPart(t, last) != [] {
        FreshParts(u, now);
        assert now[..|now| - 1] == FreshFeatures(t, front) && now[|now| - 1] == FreshPart(t, last)[0];
      } else {
        assert now == FreshFeatures(t, front);
      }
    }
  }

  /**
   * Over versions that restore nothing, a decision brought up to date at one of them and then at the
   * last is the decision brought up to date at the last alone.
   */
  lemma FreshenTwice(t: Taxonomy, u: Taxonomy, d: PartsDecision)
    requires Usable(t) && Usable(u) && Follows(t, u) && DecisionListed(t, d) && FeaturesOnce(d.open.features)
    ensures Freshen(u, Freshen(t, d)) == Freshen(u, d)
  {
    AnswerTwice(t, u, d.settled);
    AnswerTwice(t, u, d.proposed);
    ShelvesTwice(t, u, d.open.shelves);
    ListedTwice(t, u, FunctionSubject, d.open.functions);
    PartsTwice(t, u, d.open.features);
  }

  // ---------------------------------------------------------------------- what is decided is listed

  ghost predicate PlacesListed(t: Taxonomy, places: seq<Place>) {
    forall place :: place in places ==> PlaceListed(t, Some(place))
  }

  lemma FamilyListed(t: Taxonomy, c: nat)
    requires UniqueIds(t) && c < |t.shelves|
    ensures PlacesListed(t, FamilyPlaces(t, c))
  {
    forall place | place in FamilyPlaces(t, c)
      ensures PlaceListed(t, Some(place))
    {
      var subs := SubcategoriesOf(t, t.shelves[c].item.id);
      var k :| 0 <= k < |FamilyPlaces(t, c)| && FamilyPlaces(t, c)[k] == place;
      FindAt(t, AtShelf(if k == 0 then c else subs[k - 1]));
    }
  }

  lemma {:induction false} OfferedListed(t: Taxonomy, categories: seq<nat>)
    requires UniqueIds(t) && InRange(categories, |t.shelves|)
    ensures PlacesListed(t, OfferedShelves(t, categories))
  {
    if categories != [] {
      OfferedListed(t, categories[..|categories| - 1]);
      FamilyListed(t, categories[|categories| - 1]);
    }
  }

  /** What a question asks is listed. */
  ghost predicate AskedListed(t: Taxonomy, asked: Parts) {
    && PlacesListed(t, asked.shelves)
    && AllListed(t, FunctionSubject, asked.functions)
    && WellOffered(t, asked.features)
  }

  lemma AskedIsListed(t: Taxonomy, fixedShelf: Option<Id>, carried: Carried)
    requires UniqueIds(t)
    ensures AskedListed(t, AskedParts(t, fixedShelf, carried))
  {
    AskedWell(t, fixedShelf, carried);
    OfferedListed(t, CategoriesOf(t));
    var asked := AskedParts(t, fixedShelf, carried);
    forall fn | fn in asked.functions
      ensures Listed(t, FunctionSubject, fn)
    {
      LiveFunctionIds(t, fn);
    }
  }

  ghost predicate VerdictListed(t: Taxonomy, verdict: ShelfVerdict) {
    PlaceListed(t, verdict.shelf) && PlacesListed(t, verdict.open) && PlaceListed(t, verdict.best)
  }

  /** The shelves a decision settles and opens are listed. */
  lemma ShelfListed(t: Taxonomy, asked: Parts, fixedShelf: Option<Id>, chances: map<Place, real>, accept: real)
    requires UniqueIds(t) && PlacesListed(t, asked.shelves)
    requires fixedShelf.Some? ==> Listed(t, ShelfSubject, fixedShelf.value)
    ensures VerdictListed(t, DecideShelf(t, asked, fixedShelf, chances, accept))
  {
    var found := FallbackCategory(t, CategoriesOf(t), chances, accept);
    if found.Some? {
      FamilyListed(t, found.value);
      assert FamilyPlaces(t, found.value)[0] in FamilyPlaces(t, found.value);
    }
  }

  lemma ShelfProposed(t: Taxonomy, verdict: ShelfVerdict, chances: map<Place, real>)
    requires VerdictListed(t, verdict)
    ensures PlaceListed(t, ProposedShelf(verdict, chances))
  {
  }

  lemma PartIsListed(t: Taxonomy, places: seq<nat>, part: FeaturePart)
    requires UniqueIds(t) && InRange(places, |t.features|) && OfPlaces(t, places, part.feature) && PartFits(t, part)
    ensures PartListed(t, part)
  {
    var k :| 0 <= k < |places| && t.features[places[k]].item.id == part.feature;
    FindAt(t, AtFeature(places[k]));
  }

  /** What is proposed of the features is among what they offer. */
  lemma {:induction false} ProposedListed(
      t: Taxonomy, places: seq<nat>, asked: seq<FeaturePart>, chances: map<Id, real>, accept: real, known: bool)
    requires InRange(places, |t.features|) && WellOffered(t, asked)
    ensures AllListed(t, ValueSubject, JudgeFeatures(FeaturesAt(t, places), asked, chances, accept, known).proposed)
  {
    if places != [] {
      ProposedListed(t, places[..|places| - 1], asked, chances, accept, known);
      ProposedLast(t, places, asked, chances, accept, known);
    }
  }

  lemma ProposedLast(
      t: Taxonomy, places: seq<nat>, asked: seq<FeaturePart>, chances: map<Id, real>, accept: real, known: bool)
    requires InRange(places, |t.features|) && places != [] && WellOffered(t, asked)
    ensures
      var before := JudgeFeatures(FeaturesAt(t, places[..|places| - 1]), asked, chances, accept, known);
      var after := JudgeFeatures(FeaturesAt(t, places), asked, chances, accept, known);
      forall v :: v in after.proposed ==> v in before.proposed || Listed(t, ValueSubject, v)
  {
    FeaturesAtFront(t, places);
    var last := t.features[places[|places| - 1]];
    if Offered(asked, last.item.id).Some? {
      var values := Offered(asked, last.item.id).value;
      forall v | v in JudgeFeature(last.cardinality, values, chances, accept, known).proposed
        ensures Listed(t, ValueSubject, v)
      {
        assert v in values && FeatureIdOf(t, v) == Some(last.item.id);
      }
    }
  }

  /** A decision names only what was asked, so only what its version lists. */
  lemma DecidedListed(t: Taxonomy, asked: Parts, fixedShelf: Option<Id>, probabilities: Probabilities, accept: real)
    requires UniqueIds(t) && AskedListed(t, asked)
    requires fixedShelf.Some? ==> Listed(t, ShelfSubject, fixedShelf.value)
    ensures DecisionListed(t, AcceptParts(t, asked, fixedShelf, probabilities, accept))
    ensures FeaturesOnce(AcceptParts(t, asked, fixedShelf, probabilities, accept).open.features)
  {
    var verdict := DecideShelf(t, asked, fixedShelf, probabilities.shelves, accept);
    if verdict.shelf != Some(NoneOfThese) {
      ShelfListed(t, asked, fixedShelf, probabilities.shelves, accept);
      ShelfProposed(t, verdict, probabilities.shelves);
      var places, known := JudgedPlaces(t, verdict), verdict.shelf != None;
      JudgedOnce(t, verdict);
      JudgedWell(t, places, asked.features, probabilities.values, accept, known);
      ProposedListed(t, places, asked.features, probabilities.values, accept, known);
      var r := JudgeFeatures(FeaturesAt(t, places), asked.features, probabilities.values, accept, known);
      forall k | 0 <= k < |r.open|
        ensures PartListed(t, r.open[k])
      {
        PartIsListed(t, places, r.open[k]);
      }
    }
  }

  lemma JudgedOnce(t: Taxonomy, verdict: ShelfVerdict)
    requires UniqueIds(t)
    ensures NoRepeats(JudgedPlaces(t, verdict))
  {
    match (if verdict.shelf != None then verdict.shelf else verdict.best)
    case Some(On(id)) => FeaturesForAre(t, id);
    case _ =>
  }

  /**
   * A decision over what a version asks, brought up to date at a later version and then at one after it with no
   * restore between, is the decision brought up to date at the last alone.
   */
  lemma DecidedFreshens(
      t: Taxonomy, fixedShelf: Option<Id>, carried: Carried, probabilities: Probabilities, accept: real,
      u: Taxonomy, v: Taxonomy)
    requires Usable(t) && Usable(u) && Usable(v) && Later(t, u) && Follows(u, v)
    requires fixedShelf.Some? ==> Listed(t, ShelfSubject, fixedShelf.value)
    ensures
      var d := AcceptParts(t, AskedParts(t, fixedShelf, carried), fixedShelf, probabilities, accept);
      Freshen(v, Freshen(u, d)) == Freshen(v, d)
  {
    var asked := AskedParts(t, fixedShelf, carried);
    var d := AcceptParts(t, asked, fixedShelf, probabilities, accept);
    AskedIsListed(t, fixedShelf, carried);
    DecidedListed(t, asked, fixedShelf, probabilities, accept);
    ListedStays(t, u, d);
    FreshenTwice(u, v, d);
  }

  lemma StillListed(t: Taxonomy, u: Taxonomy, subject: Subject, id: Id)
    requires UniqueIds(t) && UniqueIds(u) && Steps.Embeds(t, u) && Listed(t, subject, id)
    ensures Listed(u, subject, id)
  {
    FindAt(u, Find(t, subject, ById(id)).value);
  }

  lemma ListedStays(t: Taxonomy, u: Taxonomy, d: PartsDecision)
    requires UniqueIds(t) && UniqueIds(u) && Steps.Embeds(t, u) && DecisionListed(t, d)
    ensures DecisionListed(u, d)
  {
    forall subject, id | Listed(t, subject, id)
      ensures Listed(u, subject, id)
    {
      StillListed(t, u, subject, id);
    }
  }
}
