/**
 A record's place in the taxonomy (platform/core/src/taxonomy-records.ts): what `placeRecord` builds
 from the record's statements, and what `placementIssues` says a place is.
 */
module TaxonomyPlacement {
  import opened Basics
  import opened Sorting
  import opened Taxonomies
  import opened Ordering
  import opened TaxonomyVersions
  import opened TaxonomyDecision
  import S = Survivorship

  /** A record's place: a shelf, functions, values by feature, and its category's name. */
  datatype Fields = Fields(shelf: Id, functions: seq<Id>, features: seq<FeaturePart>, category: string)

  datatype Provenances = Provenances(
    shelf: S.Provenance, functions: Option<S.Provenance>, features: Option<S.Provenance>, category: S.Provenance)

  datatype Placed = Placed(fields: Fields, provenance: Provenances)

  /** A value a statement puts under a feature. */
  datatype Chose = Chose(feature: Id, value: Id, said: S.Statement)

  // ---------------------------------------------------------------------- what is stated

  predicate States(stated: seq<Stated>, id: Id) {
    exists k :: 0 <= k < |stated| && stated[k].id == id
  }

  /** The functions statements stand for, without repeats, each with the first to name it. */
  function StatedFunctions(t: Taxonomy, about: seq<S.Statement>): seq<Stated> {
    if about == [] then []
    else
      var before, s := StatedFunctions(t, about[..|about| - 1]), about[|about| - 1];
      match Said(t, FunctionSubject, s)
      case None => before
      case Some(fn) => if States(before, fn) then before else before + [Stated(fn, s)]
  }

  predicate ChosenOf(chosen: seq<Chose>, feature: Id) {
    exists k :: 0 <= k < |chosen| && chosen[k].feature == feature
  }

  predicate Chosen(chosen: seq<Chose>, value: Id) {
    exists k :: 0 <= k < |chosen| && chosen[k].value == value
  }

  /** Whether a value is chosen, after others: its feature is on the shelf, and has room for it. */
  predicate MayChoose(t: Taxonomy, onShelf: seq<Id>, chosen: seq<Chose>, value: Id) {
    match FeatureOfValue(t, value)
    case None => false
    case Some(i) =>
      && t.features[i].item.id in onShelf
      && !(t.features[i].cardinality == TakesOne && ChosenOf(chosen, t.features[i].item.id))
      && !Chosen(chosen, value)
  }

  /** The values statements stand for that a shelf has room for, each with the first to name it. */
  function ChosenValues(t: Taxonomy, onShelf: seq<Id>, about: seq<S.Statement>): seq<Chose> {
    if about == [] then []
    else
      var before, s := ChosenValues(t, onShelf, about[..|about| - 1]), about[|about| - 1];
      match Said(t, ValueSubject, s)
      case None => before
      case Some(value) =>
        if MayChoose(t, onShelf, before, value) then before + [Chose(FeatureIdOf(t, value).value, value, s)] else before
  }

  // ---------------------------------------------------------------------- the place

  function ChosenIds(items: seq<Item>, keep: nat -> bool): seq<Id> {
    IdsAt(items, ChosenInOrder(items, keep))
  }

  function PlacedFunctions(t: Taxonomy, implied: seq<Id>, stated: seq<Stated>): seq<Id> {
    ChosenIds(t.functions,
              (k: nat) => k < |t.functions| && (t.functions[k].id in implied || States(stated, t.functions[k].id)))
  }

  /** A feature's chosen values, in its order. */
  function PlacedValues(feature: Feature, chosen: seq<Chose>): seq<Id> {
    ChosenIds(feature.values, (k: nat) => k < |feature.values| && Chosen(chosen, feature.values[k].id))
  }

  function PlacedFeatures(features: seq<Feature>, chosen: seq<Chose>): seq<FeaturePart> {
    if features == [] then []
    else
      var before, feature := PlacedFeatures(features[..|features| - 1], chosen), features[|features| - 1];
      if ChosenOf(chosen, feature.item.id) then
        before + [FeaturePart(feature.item.id, PlacedValues(feature, chosen))]
      else before
  }

  function Statements(stated: seq<Stated>): (list: seq<S.Statement>)
    ensures |list| == |stated|
  {
    seq(|stated|, k requires 0 <= k < |stated| => stated[k].said)
  }

  /** The statements of functions the shelf doesn't imply. */
  function Beyond(implied: seq<Id>, stated: seq<Stated>): seq<S.Statement> {
    Statements(Filter((s: Stated) => s.id !in implied, stated))
  }

  /** The statements behind the chosen values, feature by feature. */
  function Behind(features: seq<Feature>, chosen: seq<Chose>): seq<S.Statement> {
    if features == [] then []
    else
      var id := features[|features| - 1].item.id;
      Behind(features[..|features| - 1], chosen) + Mapped((c: Chose) => if c.feature == id then Some(c.said) else None, chosen)
  }

  /** Where a list's best statement came from, with the list's lowest confidence. */
  function BestProvenance(list: seq<S.Statement>): S.Provenance
    requires list != []
  {
    S.ProvenanceOf(SortBy(S.Better, list)[0], list)
  }

  /** `placeRecord` */
  function PlaceRecord(t: Taxonomy, statements: seq<S.Statement>): Option<Placed> {
    match ShelfStatement(t, About(statements, "shelf"))
    case None => None
    case Some(Stated(shelf, said)) =>
      match CategoryOf(t, shelf)
      case None => None
      case Some(c) =>
        var shelfProvenance := S.ProvenanceOf(said, [said]);
        var implied := ImpliedFunctions(t, shelf);
        var stated := StatedFunctions(t, About(statements, "functions"));
        var functions := PlacedFunctions(t, implied, stated);
        var beyond := Beyond(implied, stated);
        var features := FeaturesAt(t, FeaturesFor(t, shelf));
        var chosen := ChosenValues(t, OnShelfIds(t, Some(On(shelf))), About(statements, "features"));
        var behind := Behind(features, chosen);
        Some(Placed(
          Fields(shelf, functions, PlacedFeatures(features, chosen), t.shelves[c].item.name.text),
          Provenances(
            shelfProvenance,
            if functions == [] then None else if beyond == [] then Some(shelfProvenance) else Some(BestProvenance(beyond)),
            if behind == [] then None else Some(BestProvenance(behind)),
            shelfProvenance)))
  }

  // ---------------------------------------------------------------------- what a place is

  predicate LiveFunction(t: Taxonomy, id: Id) {
    match Find(t, FunctionSubject, ById(id)) case Some(p) => Live(At(t, p)) case None => false
  }

  predicate LiveValueOf(feature: Feature, id: Id) {
    match FirstFrom(feature.values, ById(id), 0) case Some(j) => Live(feature.values[j]) case None => false
  }

  predicate LiveShelf(t: Taxonomy, id: Id) {
    match Find(t, ShelfSubject, ById(id)) case Some(p) => Live(At(t, p)) case None => false
  }

  /** A feature's values in a place: a live feature of the shelf, live values of it once each, one if it takes one. */
  predicate FeaturePlaced(t: Taxonomy, shelf: Id, part: FeaturePart) {
    match Find(t, FeatureSubject, ById(part.feature))
    case None => false
    case Some(p) =>
      && Live(At(t, p))
      && (LiveShelf(t, shelf) ==> part.feature in OnShelfIds(t, Some(On(shelf))))
      && (forall v :: v in part.values ==> LiveValueOf(t.features[p.i], v))
      && NoRepeats(part.values)
      && (t.features[p.i].cardinality == TakesOne ==> |part.values| == 1)
  }

  predicate CategoryNamed(t: Taxonomy, shelf: Id, category: string) {
    match CategoryOf(t, shelf) case Some(c) => category == t.shelves[c].item.name.text case None => true
  }

  /** What `placementIssues` finds nothing wrong with. */
  predicate IsPlace(t: Taxonomy, fields: Fields) {
    && LiveShelf(t, fields.shelf)
    && (forall fn :: fn in fields.functions ==> LiveFunction(t, fn))
    && NoRepeats(fields.functions)
    && (forall fn :: fn in ImpliedFunctions(t, fields.shelf) ==> fn in fields.functions)
    && (forall k :: 0 <= k < |fields.features| ==> FeaturePlaced(t, fields.shelf, fields.features[k]))
    && CategoryNamed(t, fields.shelf, fields.category)
  }

  // ---------------------------------------------------------------------- as the source's loops do it

  method TakeShelf(t: Taxonomy, about: seq<S.Statement>) returns (taken: Option<Stated>)
    ensures taken == ShelfStatement(t, about)
  {
    var n := 0;
    while n < |about|
      invariant 0 <= n <= |about|
      invariant ShelfStatement(t, about) == ShelfStatement(t, about[n..])
    {
      var shelf := Said(t, ShelfSubject, about[n]);
      if shelf.Some? {
        return Some(Stated(shelf.value, about[n]));
      }
      assert about[n..][1..] == about[n + 1..];
      n := n + 1;
    }
    return None;
  }

  method StateFunctions(t: Taxonomy, about: seq<S.Statement>) returns (stated: seq<Stated>)
    ensures stated == StatedFunctions(t, about)
  {
    stated := [];
    for k := 0 to |about|
      invariant stated == StatedFunctions(t, about[..k])
    {
      assert about[..k + 1][..k] == about[..k];
      var fn := Said(t, FunctionSubject, about[k]);
      if fn.Some? && !States(stated, fn.value) {
        stated := stated + [Stated(fn.value, about[k])];
      }
    }
    assert about[..|about|] == about;
  }

  method ChooseValues(t: Taxonomy, onShelf: seq<Id>, about: seq<S.Statement>) returns (chosen: seq<Chose>)
    ensures chosen == ChosenValues(t, onShelf, about)
  {
    chosen := [];
    for k := 0 to |about|
      invariant chosen == ChosenValues(t, onShelf, about[..k])
    {
      assert about[..k + 1][..k] == about[..k];
      var value := Said(t, ValueSubject, about[k]);
      if value.Some? && MayChoose(t, onShelf, chosen, value.value) {
        chosen := chosen + [Chose(FeatureIdOf(t, value.value).value, value.value, about[k])];
      }
    }
    assert about[..|about|] == about;
  }

  method PlaceFeatures(features: seq<Feature>, chosen: seq<Chose>) returns (parts: seq<FeaturePart>, behind: seq<S.Statement>)
    ensures parts == PlacedFeatures(features, chosen) && behind == Behind(features, chosen)
  {
    parts, behind := [], [];
    for k := 0 to |features|
      invariant parts == PlacedFeatures(features[..k], chosen) && behind == Behind(features[..k], chosen)
    {
      assert features[..k + 1][..k] == features[..k];
      var id := features[k].item.id;
      if ChosenOf(chosen, id) {
        parts := parts + [FeaturePart(id, PlacedValues(features[k], chosen))];
      }
      behind := behind + Mapped((c: Chose) => if c.feature == id then Some(c.said) else None, chosen);
    }
    assert features[..|features|] == features;
  }

  method Place(t: Taxonomy, statements: seq<S.Statement>) returns (placed: Option<Placed>)
    ensures placed == PlaceRecord(t, statements)
  {
    var taken := TakeShelf(t, About(statements, "shelf"));
    if taken == None {
      return None;
    }
    var shelf := taken.value.id;
    var category := CategoryOf(t, shelf);
    if category == None {
      return None;
    }
    var shelfProvenance := S.ProvenanceOf(taken.value.said, [taken.value.said]);
    var implied := ImpliedFunctions(t, shelf);
    var stated := StateFunctions(t, About(statements, "functions"));
    var functions := PlacedFunctions(t, implied, stated);
    var beyond := Beyond(implied, stated);
    var chosen := ChooseValues(t, OnShelfIds(t, Some(On(shelf))), About(statements, "features"));
    var parts, behind := PlaceFeatures(FeaturesAt(t, FeaturesFor(t, shelf)), chosen);
    placed := Some(Placed(
      Fields(shelf, functions, parts, t.shelves[category.value].item.name.text),
      Provenances(
        shelfProvenance,
        if functions == [] then None else if beyond == [] then Some(shelfProvenance) else Some(BestProvenance(beyond)),
        if behind == [] then None else Some(BestProvenance(behind)),
        shelfProvenance)));
  }

  /** Where fields fail to be a place. */
  datatype Issue =
    | ShelfIssue
    | FunctionIssue(index: nat)
    | MissingFunction(id: Id)
    | FeatureIssue(feature: Id)
    | ValueIssue(feature: Id, index: nat)
    | CountIssue(feature: Id)
    | CategoryIssue

  /** Issues with a list of functions: each is live and listed once, and those implied are all there. */
  method FunctionIssues(t: Taxonomy, functions: seq<Id>, implied: seq<Id>) returns (issues: seq<Issue>)
    ensures issues == [] <==>
      && (forall fn :: fn in functions ==> LiveFunction(t, fn))
      && NoRepeats(functions)
      && (forall fn :: fn in implied ==> fn in functions)
  {
    issues := [];
    for k := 0 to |functions|
      invariant issues == [] <==>
        (forall i :: 0 <= i < k ==> LiveFunction(t, functions[i])) && NoRepeats(functions[..k])
    {
      assert functions[..k + 1] == functions[..k] + [functions[k]];
      if !LiveFunction(t, functions[k]) || functions[k] in functions[..k] {
        issues := issues + [FunctionIssue(k)];
      }
    }
    assert functions[..|functions|] == functions;
    ghost var listed := issues == [];
    for k := 0 to |implied|
      invariant issues == [] <==> listed && forall i :: 0 <= i < k ==> implied[i] in functions
    {
      if implied[k] !in functions {
        issues := issues + [MissingFunction(implied[k])];
      }
    }
  }

  /** `placementIssues` */
  method PlacementIssues(t: Taxonomy, fields: Fields) returns (issues: seq<Issue>)
    ensures issues == [] <==> IsPlace(t, fields)
  {
    var live := LiveShelf(t, fields.shelf);
    var implied := if live then ImpliedFunctions(t, fields.shelf) else [];
    issues := FunctionIssues(t, fields.functions, implied);
    if !live {
      issues := [ShelfIssue] + issues;
    }
    ghost var earlier := issues == [];
    for k := 0 to |fields.features|
      invariant issues == [] <==> earlier && forall i :: 0 <= i < k ==> FeaturePlaced(t, fields.shelf, fields.features[i])
    {
      var found := FeatureIssues(t, fields.shelf, fields.features[k]);
      issues := issues + found;
    }
    if live && !CategoryNamed(t, fields.shelf, fields.category) {
      issues := issues + [CategoryIssue];
    }
  }

  method FeatureIssues(t: Taxonomy, shelf: Id, part: FeaturePart) returns (issues: seq<Issue>)
    ensures issues == [] <==> FeaturePlaced(t, shelf, part)
  {
    issues := [];
    var found := Find(t, FeatureSubject, ById(part.feature));
    if found == None || !Live(At(t, found.value)) {
      return [FeatureIssue(part.feature)];
    }
    var feature := t.features[found.value.i];
    if LiveShelf(t, shelf) && part.feature !in OnShelfIds(t, Some(On(shelf))) {
      issues := issues + [FeatureIssue(part.feature)];
    }
    ghost var onShelf := issues == [];
    for k := 0 to |part.values|
      invariant issues == [] <==>
        onShelf && (forall i :: 0 <= i < k ==> LiveValueOf(feature, part.values[i])) && NoRepeats(part.values[..k])
    {
      var value := part.values[k];
      assert part.values[..k + 1] == part.values[..k] + [value];
      if !LiveValueOf(feature, value) || value in part.values[..k] {
        issues := issues + [ValueIssue(part.feature, k)];
      }
    }
    assert part.values[..|part.values|] == part.values;
    if feature.cardinality == TakesOne && |part.values| != 1 {
      issues := issues + [CountIssue(part.feature)];
    }
  }
}
