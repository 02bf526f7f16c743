/**
 Every place `placeRecord` builds is one `placementIssues` finds nothing wrong with, and it is what the
 page's standing answer says.
 */
module TaxonomyPlacementProofs {
  import opened Basics
  import opened Sorting
  import opened Taxonomies
  import opened Ordering
  import opened TaxonomyForwarding
  import opened TaxonomyVersions
  import opened TaxonomyDecision
  import opened TaxonomyPlacement
  import Deciding = TaxonomyDeciding
  import S = Survivorship

  // ---------------------------------------------------------------------- what is stated and chosen

  /** The shelf taken is live, and its statement the first that names a live one. */
  lemma {:induction false} ShelfTaken(t: Taxonomy, about: seq<S.Statement>)
    ensures
      match ShelfStatement(t, about)
      case None => forall k :: 0 <= k < |about| ==> Said(t, ShelfSubject, about[k]) == None
      case Some(taken) =>
        && LiveId(t, ShelfSubject, taken.id)
        && exists k :: 0 <= k < |about| && about[k] == taken.said && Said(t, ShelfSubject, about[k]) == Some(taken.id)
                    && forall j :: 0 <= j < k ==> Said(t, ShelfSubject, about[j]) == None
    decreases |about|
  {
    if about != [] {
      match Said(t, ShelfSubject, about[0])
      case Some(shelf) => ResolveInLive(t, ShelfSubject, about[0].value.text, |t.migrations| + 1);
      case None =>
        var rest := about[1..];
        ShelfTaken(t, rest);
        if ShelfStatement(t, rest).Some? {
          var taken := ShelfStatement(t, rest).value;
          var k :| 0 <= k < |rest| && rest[k] == taken.said && Said(t, ShelfSubject, rest[k]) == Some(taken.id)
                   && forall j :: 0 <= j < k ==> Said(t, ShelfSubject, rest[j]) == None;
          assert about[k + 1] == rest[k];
          assert forall j :: 0 <= j < k + 1 ==> j == 0 || about[j] == rest[j - 1];
        }
    }
  }

  lemma {:induction false} StatedLive(t: Taxonomy, about: seq<S.Statement>)
    ensures forall k :: 0 <= k < |StatedFunctions(t, about)| ==> LiveId(t, FunctionSubject, StatedFunctions(t, about)[k].id)
  {
    if about != [] {
      StatedLive(t, about[..|about| - 1]);
      var s := about[|about| - 1];
      if s.value.Text? {
        ResolveInLive(t, FunctionSubject, s.value.text, |t.migrations| + 1);
      }
    }
  }

  /** Values chosen, each live, under its own feature, on the shelf, and one for a feature that takes one. */
  ghost predicate WellChosen(t: Taxonomy, onShelf: seq<Id>, chosen: seq<Chose>) {
    && (forall k :: 0 <= k < |chosen| ==>
          && LiveId(t, ValueSubject, chosen[k].value)
          && FeatureIdOf(t, chosen[k].value) == Some(chosen[k].feature)
          && chosen[k].feature in onShelf)
    && (forall k, l ::
          0 <= k < l < |chosen| && chosen[k].feature == chosen[l].feature ==> !TakesOneValue(t, chosen[k].feature))
  }

  lemma OneMoreChosen(t: Taxonomy, onShelf: seq<Id>, chosen: seq<Chose>, value: Id, s: S.Statement)
    requires UniqueIds(t) && WellChosen(t, onShelf, chosen)
    requires LiveId(t, ValueSubject, value) && MayChoose(t, onShelf, chosen, value)
    ensures WellChosen(t, onShelf, chosen + [Chose(FeatureIdOf(t, value).value, value, s)])
  {
    FindAt(t, AtFeature(FeatureOfValue(t, value).value));
  }

  lemma {:induction false} ChosenWell(t: Taxonomy, onShelf: seq<Id>, about: seq<S.Statement>)
    requires UniqueIds(t)
    ensures WellChosen(t, onShelf, ChosenValues(t, onShelf, about))
  {
    if about != [] {
      var front, s := about[..|about| - 1], about[|about| - 1];
      ChosenWell(t, onShelf, front);
      var before := ChosenValues(t, onShelf, front);
      if Said(t, ValueSubject, s).Some? {
        var value := Said(t, ValueSubject, s).value;
        ResolveInLive(t, ValueSubject, s.value.text, |t.migrations| + 1);
        if MayChoose(t, onShelf, before, value) {
          OneMoreChosen(t, onShelf, before, value, s);
        }
      }
    }
  }

  // ---------------------------------------------------------------------- lists of IDs

  ghost predicate DistinctIds(items: seq<Item>) {
    forall i, j :: 0 <= i < j < |items| ==> items[i].id != items[j].id
  }

  lemma ChosenIdsAre(items: seq<Item>, keep: nat -> bool, id: Id)
    ensures id in ChosenIds(items, keep) <==> exists k: nat :: k < |items| && keep(k) && items[k].id == id
    ensures DistinctIds(items) ==> NoRepeats(ChosenIds(items, keep))
  {
    var places, ids := ChosenInOrder(items, keep), ChosenIds(items, keep);
    ChosenInOrderAre(items, keep);
    if id in ids {
      var k :| 0 <= k < |ids| && ids[k] == id;
      assert places[k] in places;
    }
    if k: nat :| k < |items| && keep(k) && items[k].id == id {
      assert k in places;
      var x :| 0 <= x < |places| && places[x] == k;
      assert ids[x] == id;
    }
    if DistinctIds(items) {
      forall x, y | 0 <= x < y < |ids|
        ensures ids[x] != ids[y]
      {
        assert places[x] != places[y];
      }
    }
  }

  lemma FunctionsDistinct(t: Taxonomy)
    requires UniqueIds(t)
    ensures DistinctIds(t.functions)
  {
    forall i, j | 0 <= i < j < |t.functions|
      ensures t.functions[i].id != t.functions[j].id
    {
      assert Has(t, AtFunction(i)) && Has(t, AtFunction(j));
      assert At(t, AtFunction(i)).id != At(t, AtFunction(j)).id;
    }
  }

  lemma ValuesDistinct(t: Taxonomy, i: nat)
    requires UniqueIds(t) && i < |t.features|
    ensures DistinctIds(t.features[i].values)
  {
    var values := t.features[i].values;
    forall x, y | 0 <= x < y < |values|
      ensures values[x].id != values[y].id
    {
      assert Has(t, AtValue(i, x)) && Has(t, AtValue(i, y));
      assert At(t, AtValue(i, x)).id != At(t, AtValue(i, y)).id;
    }
  }

  /** A place's functions are exactly its shelf's and the stated ones, without repeats and all live. */
  lemma FunctionsPlaced(t: Taxonomy, shelf: Id, stated: seq<Stated>)
    requires UniqueIds(t) && forall k :: 0 <= k < |stated| ==> LiveId(t, FunctionSubject, stated[k].id)
    ensures
      var functions := PlacedFunctions(t, ImpliedFunctions(t, shelf), stated);
      && NoRepeats(functions)
      && (forall fn :: fn in functions <==> fn in ImpliedFunctions(t, shelf) || States(stated, fn))
      && (forall fn :: fn in functions ==> LiveFunction(t, fn))
  {
    var implied := ImpliedFunctions(t, shelf);
    var keep := (k: nat) => k < |t.functions| && (t.functions[k].id in implied || States(stated, t.functions[k].id));
    var functions := PlacedFunctions(t, implied, stated);
    FunctionsDistinct(t);
    forall fn
      ensures fn in functions <==> fn in implied || States(stated, fn)
      ensures fn in functions ==> LiveFunction(t, fn)
    {
      ChosenIdsAre(t.functions, keep, fn);
      if fn in implied {
        var k :| 0 <= k < |t.functions| && t.functions[k].id == fn && Live(t.functions[k]);
        FindAt(t, AtFunction(k));
        assert keep(k);
      }
      if States(stated, fn) {
        var k :| 0 <= k < |stated| && stated[k].id == fn;
        var p := Find(t, FunctionSubject, ById(fn)).value;
        assert keep(p.i);
      }
    }
    ChosenIdsAre(t.functions, keep, "");
  }

  predicate ChosenUnder(chosen: seq<Chose>, feature: Id, value: Id) {
    exists k :: 0 <= k < |chosen| && chosen[k].feature == feature && chosen[k].value == value
  }

  /** A value of a feature that is chosen at all is chosen under it, and is live. */
  lemma ValueChosen(t: Taxonomy, onShelf: seq<Id>, i: nat, j: nat, chosen: seq<Chose>)
    requires UniqueIds(t) && Has(t, AtValue(i, j)) && WellChosen(t, onShelf, chosen)
    requires TaxonomyPlacement.Chosen(chosen, t.features[i].values[j].id)
    ensures ChosenUnder(chosen, t.features[i].item.id, t.features[i].values[j].id)
    ensures LiveValueOf(t.features[i], t.features[i].values[j].id)
  {
    var v := t.features[i].values[j].id;
    var k :| 0 <= k < |chosen| && chosen[k].value == v;
    FeatureIdAt(t, i, j);
    FindAt(t, AtValue(i, j));
    ValuesDistinct(t, i);
    FirstOfDistinct(t.features[i].values, j);
  }

  /** A value chosen under a feature is one of its values. */
  lemma ChosenIsValue(t: Taxonomy, onShelf: seq<Id>, i: nat, chosen: seq<Chose>, v: Id) returns (j: nat)
    requires UniqueIds(t) && i < |t.features| && WellChosen(t, onShelf, chosen) && ChosenUnder(chosen, t.features[i].item.id, v)
    ensures j < |t.features[i].values| && t.features[i].values[j].id == v && TaxonomyPlacement.Chosen(chosen, v)
  {
    var k :| 0 <= k < |chosen| && chosen[k].feature == t.features[i].item.id && chosen[k].value == v;
    var p := Find(t, ValueSubject, ById(v)).value;
    assert Has(t, AtFeature(p.i)) && Has(t, AtFeature(i));
    assert At(t, AtFeature(p.i)).id == At(t, AtFeature(i)).id;
    j := p.j;
  }

  /** A feature's chosen values, in its order: live ones of its own, once each. */
  lemma ValuesPlaced(t: Taxonomy, onShelf: seq<Id>, i: nat, chosen: seq<Chose>)
    requires UniqueIds(t) && i < |t.features| && WellChosen(t, onShelf, chosen)
    ensures
      var feature, values := t.features[i], PlacedValues(t.features[i], chosen);
      && NoRepeats(values)
      && (forall v :: v in values <==> ChosenUnder(chosen, feature.item.id, v))
      && (forall v :: v in values ==> LiveValueOf(feature, v))
  {
    var feature, values := t.features[i], PlacedValues(t.features[i], chosen);
    var keep := (k: nat) => k < |feature.values| && TaxonomyPlacement.Chosen(chosen, feature.values[k].id);
    ValuesDistinct(t, i);
    ChosenIdsAre(feature.values, keep, "");
    forall v
      ensures v in values <==> ChosenUnder(chosen, feature.item.id, v)
      ensures v in values ==> LiveValueOf(feature, v)
    {
      ChosenIdsAre(feature.values, keep, v);
      if v in values {
        var j: nat :| j < |feature.values| && keep(j) && feature.values[j].id == v;
        ValueChosen(t, onShelf, i, j, chosen);
      }
      if ChosenUnder(chosen, feature.item.id, v) {
        var j := ChosenIsValue(t, onShelf, i, chosen, v);
        assert keep(j);
      }
    }
  }

  lemma FirstOfDistinct(items: seq<Item>, j: nat)
    requires DistinctIds(items) && j < |items|
    ensures FirstFrom(items, ById(items[j].id), 0) == Some(j)
  {
    assert Answers(items[j], ById(items[j].id));
  }

  lemma AnotherElement(values: seq<Id>, x: Id)
    requires |values| > 1 && NoRepeats(values)
    ensures exists v :: v in values && v != x
  {
    var other := if values[0] == x then values[1] else values[0];
    assert other in values;
  }

  lemma OneElement(values: seq<Id>, x: Id)
    requires NoRepeats(values) && x in values && forall v :: v in values ==> v == x
    ensures |values| == 1
  {
    if |values| > 1 {
      AnotherElement(values, x);
    }
  }

  lemma FeatureIsPlaced(t: Taxonomy, shelf: Id, i: nat, chosen: seq<Chose>)
    requires UniqueIds(t) && i < |t.features| && OnShelf(t, t.features[i], shelf)
    requires WellChosen(t, OnShelfIds(t, Some(On(shelf))), chosen) && ChosenOf(chosen, t.features[i].item.id)
    ensures FeaturePlaced(t, shelf, FeaturePart(t.features[i].item.id, PlacedValues(t.features[i], chosen)))
  {
    var feature, values := t.features[i], PlacedValues(t.features[i], chosen);
    var onShelf := OnShelfIds(t, Some(On(shelf)));
    FindAt(t, AtFeature(i));
    ValuesPlaced(t, onShelf, i, chosen);
    FeaturesForAre(t, shelf);
    var x :| 0 <= x < |FeaturesFor(t, shelf)| && FeaturesFor(t, shelf)[x] == i;
    assert onShelf[x] == feature.item.id;
    if feature.cardinality == TakesOne {
      var k :| 0 <= k < |chosen| && chosen[k].feature == feature.item.id;
      assert chosen[k].value in values;
      OneElement(values, chosen[k].value);
    }
  }

  /** The parts placed of some features: each placed, each once. */
  ghost predicate PartsPlaced(t: Taxonomy, shelf: Id, places: seq<nat>, parts: seq<FeaturePart>)
    requires InRange(places, |t.features|)
  {
    && FeaturesOnce(parts)
    && (forall k :: 0 <= k < |parts| ==> FeaturePlaced(t, shelf, parts[k]) && Deciding.OfPlaces(t, places, parts[k].feature))
  }

  lemma PartsFront(t: Taxonomy, shelf: Id, places: seq<nat>, parts: seq<FeaturePart>)
    requires InRange(places, |t.features|) && places != [] && PartsPlaced(t, shelf, places[..|places| - 1], parts)
    ensures PartsPlaced(t, shelf, places, parts)
  {
    Deciding.FrontPlaces(t, places);
  }

  lemma OnePartMore(t: Taxonomy, shelf: Id, places: seq<nat>, parts: seq<FeaturePart>, part: FeaturePart)
    requires UniqueIds(t) && InRange(places, |t.features|) && NoRepeats(places) && places != []
    requires PartsPlaced(t, shelf, places[..|places| - 1], parts) && FeaturePlaced(t, shelf, part)
    requires part.feature == t.features[places[|places| - 1]].item.id
    ensures PartsPlaced(t, shelf, places, parts + [part])
  {
    Deciding.LastIsNew(t, places);
    Deciding.FrontPlaces(t, places);
  }

  lemma PlacedLast(t: Taxonomy, places: seq<nat>, chosen: seq<Chose>)
    requires InRange(places, |t.features|) && places != []
    ensures
      var last := t.features[places[|places| - 1]];
      var before := PlacedFeatures(FeaturesAt(t, places[..|places| - 1]), chosen);
      PlacedFeatures(FeaturesAt(t, places), chosen) ==
        if ChosenOf(chosen, last.item.id) then before + [FeaturePart(last.item.id, PlacedValues(last, chosen))]
        else before
  {
    Deciding.FeaturesAtFront(t, places);
  }

  lemma {:induction false} FeaturesPlaced(t: Taxonomy, shelf: Id, places: seq<nat>, chosen: seq<Chose>)
    requires UniqueIds(t) && InRange(places, |t.features|) && NoRepeats(places)
    requires forall k :: 0 <= k < |places| ==> OnShelf(t, t.features[places[k]], shelf)
    requires WellChosen(t, OnShelfIds(t, Some(On(shelf))), chosen)
    ensures PartsPlaced(t, shelf, places, PlacedFeatures(FeaturesAt(t, places), chosen))
  {
    if places != [] {
      var front, last := places[..|places| - 1], places[|places| - 1];
      var before := PlacedFeatures(FeaturesAt(t, front), chosen);
      FeaturesPlaced(t, shelf, front, chosen);
      PlacedLast(t, places, chosen);
      if ChosenOf(chosen, t.features[last].item.id) {
        FeatureIsPlaced(t, shelf, last, chosen);
        OnePartMore(t, shelf, places, before, FeaturePart(t.features[last].item.id, PlacedValues(t.features[last], chosen)));
      } else {
        PartsFront(t, shelf, places, before);
      }
    }
  }

  /**
   * Every place built from any statements under a usable taxonomy passes: a live shelf, the functions it
   * implies all there, no repeats, only features of the shelf with live values of theirs, exactly one
   * where one is taken, and the name of the shelf's category.
   */
  lemma PlacedIsPlace(t: Taxonomy, statements: seq<S.Statement>)
    requires Valid(t) && PlaceRecord(t, statements).Some?
    ensures IsPlace(t, PlaceRecord(t, statements).value.fields)
    ensures FeaturesOnce(PlaceRecord(t, statements).value.fields.features)
  {
    var shelf := ShelfStatement(t, About(statements, "shelf")).value.id;
    ShelfTaken(t, About(statements, "shelf"));
    var stated := StatedFunctions(t, About(statements, "functions"));
    StatedLive(t, About(statements, "functions"));
    FunctionsPlaced(t, shelf, stated);
    ChosenWell(t, OnShelfIds(t, Some(On(shelf))), About(statements, "features"));
    FeaturesForAre(t, shelf);
    forall k | 0 <= k < |FeaturesFor(t, shelf)|
      ensures OnShelf(t, t.features[FeaturesFor(t, shelf)[k]], shelf)
    {
      assert FeaturesFor(t, shelf)[k] in FeaturesFor(t, shelf);
    }
    FeaturesPlaced(t, shelf, FeaturesFor(t, shelf), ChosenValues(t, OnShelfIds(t, Some(On(shelf))), About(statements, "features")));
  }

  /** A record has a place exactly when a statement of it names a shelf that is live. */
  lemma PlacedWhen(t: Taxonomy, statements: seq<S.Statement>)
    requires Valid(t)
    ensures PlaceRecord(t, statements).Some? <==>
      exists s :: s in statements && s.property == "shelf" && Said(t, ShelfSubject, s).Some?
  {
    var about := About(statements, "shelf");
    var mine := Filter(IsAbout("shelf"), statements);
    ShelfTaken(t, about);
    forall s
      ensures s in about <==> s in mine
    {
      SortHas(S.Better, mine, s);
    }
    if ShelfStatement(t, about).Some? {
      var p := Find(t, ShelfSubject, ById(ShelfStatement(t, about).value.id)).value;
      assert ParentFits(t, t.shelves[p.i]);
      assert ShelfStatement(t, about).value.said in about;
    }
    if s :| s in statements && s.property == "shelf" && Said(t, ShelfSubject, s).Some? {
      assert s in about;
    }
  }

  // ---------------------------------------------------------------------- as the page's answer has it

  lemma SaidAbout(t: Taxonomy, statements: seq<S.Statement>, property: string, subject: Subject)
    ensures SaidIds(t, statements, property, subject) == Mapped((s: S.Statement) => Said(t, subject, s), About(statements, property))
  {
    S.BetterOrders();
    SortFiltered(S.Better, IsAbout(property), statements);
  }

  /** The values chosen for a place are those of the page's answer that are on the shelf. */
  lemma {:induction false} ChosenAsStanding(t: Taxonomy, onShelf: seq<Id>, about: seq<S.Statement>, v: Id)
    ensures
      TaxonomyPlacement.Chosen(ChosenValues(t, onShelf, about), v) <==>
      && v in FirstValues(t, Mapped((s: S.Statement) => Said(t, ValueSubject, s), about))
      && FeatureIdOf(t, v).Some? && FeatureIdOf(t, v).value in onShelf
    decreases |about|, 0
  {
    if about != [] {
      var front, s := about[..|about| - 1], about[|about| - 1];
      ChosenAsStanding(t, onShelf, front, v);
      var before := ChosenValues(t, onShelf, front);
      var values := FirstValues(t, Mapped((s: S.Statement) => Said(t, ValueSubject, s), front));
      if Said(t, ValueSubject, s).Some? {
        var value := Said(t, ValueSubject, s).value;
        var ids := Mapped((s: S.Statement) => Said(t, ValueSubject, s), front);
        assert (ids + [value])[..|ids|] == ids;
        ChosenAsStanding(t, onShelf, front, value);
        if FeatureOfValue(t, value).Some? && FeatureIdOf(t, value).value in onShelf {
          TakenAlike(t, onShelf, front, FeatureIdOf(t, value).value);
          assert MayChoose(t, onShelf, before, value) <==> FirstValues(t, ids + [value]) != values;
        }
        if MayChoose(t, onShelf, before, value) {
          var after := before + [Chose(FeatureIdOf(t, value).value, value, s)];
          assert after[|before|].value == value;
          assert TaxonomyPlacement.Chosen(after, v) <==> TaxonomyPlacement.Chosen(before, v) || v == value by {
            if TaxonomyPlacement.Chosen(before, v) {
              var k :| 0 <= k < |before| && before[k].value == v;
              assert after[k].value == v;
            }
          }
        }
      }
    }
  }

  lemma {:induction false} TakenAlike(t: Taxonomy, onShelf: seq<Id>, about: seq<S.Statement>, feature: Id)
    requires feature in onShelf
    ensures
      ChosenOf(ChosenValues(t, onShelf, about), feature) <==>
      TakenIn(t, FirstValues(t, Mapped((s: S.Statement) => Said(t, ValueSubject, s), about)), feature)
    decreases |about|, 1
  {
    var chosen := ChosenValues(t, onShelf, about);
    var values := FirstValues(t, Mapped((s: S.Statement) => Said(t, ValueSubject, s), about));
    ChosenFeatures(t, onShelf, about);
    if ChosenOf(chosen, feature) {
      var k :| 0 <= k < |chosen| && chosen[k].feature == feature;
      ChosenAsStanding(t, onShelf, about, chosen[k].value);
      assert TaxonomyPlacement.Chosen(chosen, chosen[k].value);
    }
    if TakenIn(t, values, feature) {
      var v :| v in values && FeatureIdOf(t, v) == Some(feature);
      ChosenAsStanding(t, onShelf, about, v);
    }
  }

  lemma {:induction false} ChosenFeatures(t: Taxonomy, onShelf: seq<Id>, about: seq<S.Statement>)
    ensures forall k :: 0 <= k < |ChosenValues(t, onShelf, about)| ==>
      FeatureIdOf(t, ChosenValues(t, onShelf, about)[k].value) == Some(ChosenValues(t, onShelf, about)[k].feature)
  {
    if about != [] {
      ChosenFeatures(t, onShelf, about[..|about| - 1]);
    }
  }

  lemma {:induction false} PlacedHas(features: seq<Feature>, chosen: seq<Chose>, v: Id)
    ensures v in AllValues(PlacedFeatures(features, chosen)) <==>
      exists k :: 0 <= k < |features| && ChosenOf(chosen, features[k].item.id) && v in PlacedValues(features[k], chosen)
  {
    if features != [] {
      var front, feature := features[..|features| - 1], features[|features| - 1];
      PlacedHas(front, chosen, v);
      var before := PlacedFeatures(front, chosen);
      if ChosenOf(chosen, feature.item.id) {
        assert (before + [FeaturePart(feature.item.id, PlacedValues(feature, chosen))])[..|before|] == before;
      }
      if k :| 0 <= k < |front| && ChosenOf(chosen, front[k].item.id) && v in PlacedValues(front[k], chosen) {
        assert features[k] == front[k];
      }
      if k :| 0 <= k < |features| && ChosenOf(chosen, features[k].item.id) && v in PlacedValues(features[k], chosen) {
        assert k < |front| ==> front[k] == features[k];
      }
    }
  }

  /**
   * What a record publishes is what its page's answer says: the same shelf, the values of its answer
   * whose features are on it, and its functions with those the shelf implies.
   */
  lemma PlacedAsStanding(t: Taxonomy, statements: seq<S.Statement>, id: Id)
    requires Valid(t) && PlaceRecord(t, statements).Some?
    ensures
      var fields, standing := PlaceRecord(t, statements).value.fields, StandingAnswer(t, statements);
      && standing.shelf == Some(On(fields.shelf))
      && (id in fields.functions <==> id in standing.functions || id in ImpliedFunctions(t, fields.shelf))
      && (id in AllValues(fields.features) <==> id in standing.values && Fits(t, standing.shelf, id))
  {
    var shelf := ShelfStatement(t, About(statements, "shelf")).value.id;
    var onShelf, places := OnShelfIds(t, Some(On(shelf))), FeaturesFor(t, shelf);
    var about := About(statements, "features");
    var chosen := ChosenValues(t, onShelf, about);
    var stated := StatedFunctions(t, About(statements, "functions"));
    StatedLive(t, About(statements, "functions"));
    FunctionsPlaced(t, shelf, stated);
    SaidAbout(t, statements, "functions", FunctionSubject);
    StatedHas(t, About(statements, "functions"), id);
    SaidAbout(t, statements, "features", ValueSubject);
    ChosenAsStanding(t, onShelf, about, id);
    ChosenWell(t, onShelf, about);
    PlacedHas(FeaturesAt(t, places), chosen, id);
    PlacedValuesAll(t, shelf, chosen, id);
  }

  lemma {:induction false} StatedHas(t: Taxonomy, about: seq<S.Statement>, id: Id)
    ensures States(StatedFunctions(t, about), id) <==> id in Mapped((s: S.Statement) => Said(t, FunctionSubject, s), about)
  {
    if about != [] {
      var front, s := about[..|about| - 1], about[|about| - 1];
      StatedHas(t, front, id);
      var before, after := StatedFunctions(t, front), StatedFunctions(t, about);
      if after != before {
        assert after[|before|].id == Said(t, FunctionSubject, s).value;
      }
      if States(before, id) {
        var k :| 0 <= k < |before| && before[k].id == id;
        assert after[k].id == id;
      }
      if Said(t, FunctionSubject, s).Some? {
        StatedHas(t, front, Said(t, FunctionSubject, s).value);
      }
    }
  }

  /** Every value chosen is placed. */
  lemma PlacedValuesAll(t: Taxonomy, shelf: Id, chosen: seq<Chose>, v: Id)
    requires UniqueIds(t) && WellChosen(t, OnShelfIds(t, Some(On(shelf))), chosen)
    ensures
      var features := FeaturesAt(t, FeaturesFor(t, shelf));
      (exists k :: 0 <= k < |features| && ChosenOf(chosen, features[k].item.id) && v in PlacedValues(features[k], chosen))
      <==> TaxonomyPlacement.Chosen(chosen, v)
  {
    var onShelf, places := OnShelfIds(t, Some(On(shelf))), FeaturesFor(t, shelf);
    var features := FeaturesAt(t, places);
    if k :| 0 <= k < |features| && ChosenOf(chosen, features[k].item.id) && v in PlacedValues(features[k], chosen) {
      ValuesPlaced(t, onShelf, places[k], chosen);
      assert ChosenUnder(chosen, features[k].item.id, v);
    }
    if c :| 0 <= c < |chosen| && chosen[c].value == v {
      Deciding.OnShelfPlace(t, shelf, chosen[c].feature);
      var k :| 0 <= k < |places| && t.features[places[k]].item.id == chosen[c].feature;
      ValuesPlaced(t, onShelf, places[k], chosen);
      assert ChosenUnder(chosen, features[k].item.id, v);
      assert v in PlacedValues(features[k], chosen);
    }
  }
}
