/**
 Deciding a page's place in the taxonomy (platform/core/src/taxonomy-decision.ts): what a decider is
 asked, what of its answer is accepted, what a person's answer may be, and what it makes of the page.
 Probabilities are exact reals.
 */
module TaxonomyDecision {
  import opened Basics
  import opened Taxonomies
  import opened TaxonomyChanges
  import opened Ordering
  import opened TaxonomyForwarding
  import opened TaxonomyVersions
  import opened Sorting
  import S = Survivorship

  /** A shelf part's answer: `none`, or a shelf. */
  datatype Place = NoneOfThese | On(id: Id)

  /** A page's parts: its shelf, or nothing while it is unknown, its functions, and its values. */
  datatype Answer = Answer(shelf: Option<Place>, functions: seq<Id>, values: seq<Id>)

  /** The values offered, or asked, of one feature. */
  datatype FeaturePart = FeaturePart(feature: Id, values: seq<Id>)

  /** What a question asks. Its features are a record: each is named once. */
  datatype Parts = Parts(shelves: seq<Place>, functions: seq<Id>, features: seq<FeaturePart>)

  const NO_PARTS := Parts([], [], [])
  const NONE_ANSWER := Answer(Some(NoneOfThese), [], [])

  datatype Probabilities = Probabilities(shelves: map<Place, real>, functions: map<Id, real>, values: map<Id, real>)

  /** What a person decided before: their yes and their no. */
  datatype Carried = Carried(yesFunctions: seq<Id>, noFunctions: seq<Id>, yesValues: seq<Id>, noValues: seq<Id>)

  const NOTHING_CARRIED := Carried([], [], [], [])

  // ---------------------------------------------------------------------- records of parts

  /** Where a record of parts has a feature. */
  function PartAt(features: seq<FeaturePart>, featureId: Id): (at: Option<nat>)
    ensures at.Some? ==> at.value < |features| && features[at.value].feature == featureId
    ensures at.None? ==> forall k :: 0 <= k < |features| ==> features[k].feature != featureId
  {
    if features == [] then None
    else if features[|features| - 1].feature == featureId then Some(|features| - 1)
    else PartAt(features[..|features| - 1], featureId)
  }

  /** `features[featureId]` */
  function Offered(features: seq<FeaturePart>, featureId: Id): Option<seq<Id>> {
    match PartAt(features, featureId)
    case Some(k) => Some(features[k].values)
    case None => None
  }

  /** `features[part.feature] = part.values` */
  function SetPart(features: seq<FeaturePart>, part: FeaturePart): seq<FeaturePart> {
    match PartAt(features, part.feature)
    case Some(k) => features[k := part]
    case None => features + [part]
  }

  /** `Object.values(features).flat()` */
  function AllValues(features: seq<FeaturePart>): (values: seq<Id>)
    ensures forall v :: v in values <==> exists k :: 0 <= k < |features| && v in features[k].values
  {
    if features == [] then []
    else
      var front, last := features[..|features| - 1], features[|features| - 1];
      assert features == front + [last];
      AllValues(front) + last.values
  }

  predicate FeaturesOnce(features: seq<FeaturePart>) {
    forall i, j :: 0 <= i < j < |features| ==> features[i].feature != features[j].feature
  }

  // ---------------------------------------------------------------------- features and their values

  /** The IDs of the features on a page's shelf: none while it is unknown, or none of these. */
  function OnShelfIds(t: Taxonomy, shelf: Option<Place>): (ids: seq<Id>)
  {
    match shelf
    case Some(On(id)) =>
      var places := FeaturesFor(t, id);
      seq(|places|, k requires 0 <= k < |places| => t.features[places[k]].item.id)
    case _ => []
  }

  /** Whether a value's feature is on a page's shelf. */
  predicate Fits(t: Taxonomy, shelf: Option<Place>, value: Id) {
    FeatureIdOf(t, value).Some? && FeatureIdOf(t, value).value in OnShelfIds(t, shelf)
  }

  /** The functions a page's shelf implies: none while it is unknown, or none of these. */
  function ImpliedBy(t: Taxonomy, shelf: Option<Place>): seq<Id> {
    match shelf
    case Some(On(id)) => ImpliedFunctions(t, id)
    case _ => []
  }

  // ---------------------------------------------------------------------- what is asked

  function IdsAt(items: seq<Item>, places: seq<nat>): (ids: seq<Id>)
    requires InRange(places, |items|)
    ensures |ids| == |places| && forall k :: 0 <= k < |ids| ==> ids[k] == items[places[k]].id
  {
    seq(|places|, k requires 0 <= k < |places| => items[places[k]].id)
  }

  function DecidedBefore(carried: Carried): set<Id> {
    set id | id in carried.yesFunctions + carried.noFunctions + carried.yesValues + carried.noValues
  }

  /** The values asked of one feature: none decided before, and a feature that takes one is decided whole. */
  function AskedValues(feature: Feature, decided: set<Id>): (open: seq<Id>)
    ensures forall v :: v in open ==> v !in decided && exists j :: 0 <= j < |feature.values| && feature.values[j].id == v
  {
    var values := IdsAt(feature.values, LiveInOrder(feature.values));
    if feature.cardinality == TakesOne then
      if exists v :: v in values && v in decided then [] else values
    else Filter(v => v !in decided, values)
  }

  function AskedFeatures(features: seq<Feature>, decided: set<Id>): (asked: seq<FeaturePart>)
  {
    if features == [] then []
    else
      var front, last := features[..|features| - 1], features[|features| - 1];
      var open := AskedValues(last, decided);
      if open != [] then AskedFeatures(front, decided) + [FeaturePart(last.item.id, open)]
      else AskedFeatures(front, decided)
  }

  function FeaturesAt(t: Taxonomy, places: seq<nat>): (features: seq<Feature>)
    requires InRange(places, |t.features|)
    ensures |features| == |places| && forall k :: 0 <= k < |features| ==> features[k] == t.features[places[k]]
  {
    seq(|places|, k requires 0 <= k < |places| => t.features[places[k]])
  }

  /** The live shelves, each category followed by its subcategories, as a question offers them. */
  function OfferedShelves(t: Taxonomy, categories: seq<nat>): seq<Place>
    requires InRange(categories, |t.shelves|)
  {
    if categories == [] then []
    else
      var c := categories[|categories| - 1];
      OfferedShelves(t, categories[..|categories| - 1]) + FamilyPlaces(t, c)
  }

  /** A category and its subcategories, as a question offers them. */
  function FamilyPlaces(t: Taxonomy, c: nat): (places: seq<Place>)
    requires c < |t.shelves|
    ensures |places| > 0 && places[0] == On(t.shelves[c].item.id)
  {
    var subs := SubcategoriesOf(t, t.shelves[c].item.id);
    [On(t.shelves[c].item.id)] +
    seq(|subs|, j requires 0 <= j < |subs| => On(t.shelves[subs[j]].item.id))
  }

  /** `askedParts` */
  function AskedParts(t: Taxonomy, fixedShelf: Option<Id>, carried: Carried): Parts {
    var decided := DecidedBefore(carried);
    var features := match fixedShelf
      case None => LiveInOrder(FeatureItems(t.features))
      case Some(shelf) => FeaturesFor(t, shelf);
    Parts(
      if fixedShelf == None then OfferedShelves(t, CategoriesOf(t)) + [NoneOfThese] else [],
      Filter(fn => fn !in decided, IdsAt(t.functions, LiveInOrder(t.functions))),
      AskedFeatures(FeaturesAt(t, features), decided))
  }

  // ---------------------------------------------------------------------- what is accepted

  /** `roundProbability`: to nine places, a half up. */
  function Round(p: real): real {
    (p * 1000000000.0 + 0.5).Floor as real / 1000000000.0
  }

  function Chance<K>(record: map<K, real>, k: K): real {
    if k in record then record[k] else 0.0
  }

  /** Of the options offered, the first that no other exceeds, if it has any chance. */
  function Likeliest<K(!new)>(ids: seq<K>, chances: map<K, real>): (best: Option<K>)
    ensures best.Some? ==>
      best.value in ids && Chance(chances, best.value) > 0.0
      && forall k :: k in ids ==> Chance(chances, k) <= Chance(chances, best.value)
    ensures best.None? ==> forall k :: k in ids ==> Chance(chances, k) <= 0.0
  {
    if ids == [] then None
    else
      var front, last := ids[..|ids| - 1], ids[|ids| - 1];
      var best := Likeliest(front, chances);
      assert ids == front + [last];
      if Chance(chances, last) > 0.0 && (best == None || Chance(chances, last) > Chance(chances, best.value))
      then Some(last) else best
  }

  function Total(places: seq<Place>, chances: map<Place, real>): real {
    if places == [] then 0.0
    else Total(places[..|places| - 1], chances) + Chance(chances, places[|places| - 1])
  }

  /** The first category, in order, whose family's total reaches the threshold. */
  function FallbackCategory(t: Taxonomy, categories: seq<nat>, chances: map<Place, real>, accept: real): (found: Option<nat>)
    requires InRange(categories, |t.shelves|)
    ensures found.Some? ==>
      && found.value in categories
      && |FamilyPlaces(t, found.value)| > 1
      && Round(Total(FamilyPlaces(t, found.value), chances)) >= accept
    decreases |categories|
  {
    if categories == [] then None
    else
      var c := categories[0];
      if |FamilyPlaces(t, c)| > 1 && Round(Total(FamilyPlaces(t, c), chances)) >= accept then Some(c)
      else FallbackCategory(t, categories[1..], chances, accept)
  }

  /** Where the shelf part stands: settled or not, by falling back or not, and what of it is open. */
  datatype ShelfVerdict = ShelfVerdict(shelf: Option<Place>, fallback: bool, open: seq<Place>, best: Option<Place>)

  function DecideShelf(
      t: Taxonomy, asked: Parts, fixedShelf: Option<Id>, chances: map<Place, real>, accept: real): ShelfVerdict
  {
    var fixed := match fixedShelf case Some(id) => Some(On(id)) case None => None;
    if fixedShelf == None && asked.shelves != [] then
      var best := Likeliest(asked.shelves, chances);
      if best != None && Chance(chances, best.value) >= accept then ShelfVerdict(best, false, [], best)
      else
        match FallbackCategory(t, CategoriesOf(t), chances, accept)
        case None => ShelfVerdict(None, false, asked.shelves, best)
        case Some(c) => ShelfVerdict(Some(On(t.shelves[c].item.id)), true, FamilyPlaces(t, c), best)
    else ShelfVerdict(fixed, false, [], fixed)
  }

  /** Where an option that stands alone stands. */
  datatype Judgement = Settled | Open | Rejected

  /** A value is not settled while its page's shelf is open. */
  function Judge(p: real, accept: real, maySettle: bool): Judgement {
    if p >= accept && maySettle then Settled else if p > Round(1.0 - accept) then Open else Rejected
  }

  /** A feature's values by where they stand. */
  datatype FeatureVerdict = FeatureVerdict(settled: seq<Id>, open: seq<Id>, proposed: seq<Id>)

  function JudgeFeature(
      cardinality: Cardinality, values: seq<Id>, chances: map<Id, real>, accept: real, shelfKnown: bool): FeatureVerdict
  {
    if cardinality == TakesOne then
      var top := Likeliest(values, chances);
      if top != None && Chance(chances, top.value) >= accept && shelfKnown then
        FeatureVerdict([top.value], [], [top.value])
      else if exists v :: v in values && Chance(chances, v) > Round(1.0 - accept) then
        FeatureVerdict([], values, if top != None && Chance(chances, top.value) >= 0.5 then [top.value] else [])
      else FeatureVerdict([], [], [])
    else
      FeatureVerdict(
        Filter(v => Judge(Chance(chances, v), accept, shelfKnown) == Settled, values),
        Filter(v => Judge(Chance(chances, v), accept, shelfKnown) == Open, values),
        Filter(v => Judge(Chance(chances, v), accept, shelfKnown) == Settled
                 || (Judge(Chance(chances, v), accept, shelfKnown) == Open && Chance(chances, v) >= 0.5), values))
  }

  /** The features' verdicts together: the values settled, the parts open, the values proposed. */
  datatype FeaturesVerdict = FeaturesVerdict(settled: seq<Id>, open: seq<FeaturePart>, proposed: seq<Id>)

  function JudgeFeatures(
      features: seq<Feature>, asked: seq<FeaturePart>, chances: map<Id, real>, accept: real, shelfKnown: bool)
    : FeaturesVerdict
  {
    if features == [] then FeaturesVerdict([], [], [])
    else
      var feature := features[|features| - 1];
      var before := JudgeFeatures(features[..|features| - 1], asked, chances, accept, shelfKnown);
      match Offered(asked, feature.item.id)
      case None => before
      case Some(values) =>
        var verdict := JudgeFeature(feature.cardinality, values, chances, accept, shelfKnown);
        FeaturesVerdict(
          before.settled + verdict.settled,
          if verdict.open != [] then before.open + [FeaturePart(feature.item.id, verdict.open)] else before.open,
          before.proposed + verdict.proposed)
  }

  /** The functions by where they stand, beyond those the settled shelf implies. */
  datatype FunctionsVerdict = FunctionsVerdict(settled: seq<Id>, open: seq<Id>, proposed: seq<Id>)

  function JudgeFunctions(implied: seq<Id>, asked: seq<Id>, chances: map<Id, real>, accept: real): FunctionsVerdict {
    var functions := Filter(fn => fn !in implied, asked);
    FunctionsVerdict(
      Filter(fn => Judge(Chance(chances, fn), accept, true) == Settled, functions),
      Filter(fn => Judge(Chance(chances, fn), accept, true) == Open, functions),
      Filter(fn => Judge(Chance(chances, fn), accept, true) == Settled
                || (Judge(Chance(chances, fn), accept, true) == Open && Chance(chances, fn) >= 0.5), functions))
  }

  /** The features on the page's shelf, or on its likeliest while it is open. */
  function JudgedPlaces(t: Taxonomy, verdict: ShelfVerdict): (places: seq<nat>)
    ensures InRange(places, |t.features|)
  {
    match (if verdict.shelf != None then verdict.shelf else verdict.best)
    case Some(On(id)) => FeaturesFor(t, id)
    case _ => []
  }

  /** The likeliest whole answer's shelf. */
  function ProposedShelf(verdict: ShelfVerdict, chances: map<Place, real>): Option<Place> {
    if verdict.fallback then
      var likeliest := Likeliest(verdict.open, chances);
      if likeliest != None then likeliest else verdict.shelf
    else if verdict.shelf != None then verdict.shelf
    else verdict.best
  }

  /** What a decider's answer settles, what a person is asked, and what their question proposes. */
  datatype PartsDecision = PartsDecision(settled: Answer, open: Parts, proposed: Answer, fallback: bool)

  /** `acceptParts` */
  function AcceptParts(
      t: Taxonomy, asked: Parts, fixedShelf: Option<Id>, probabilities: Probabilities, accept: real): PartsDecision
  {
    var verdict := DecideShelf(t, asked, fixedShelf, probabilities.shelves, accept);
    if verdict.shelf == Some(NoneOfThese) then PartsDecision(NONE_ANSWER, NO_PARTS, NONE_ANSWER, false)
    else
      var functions := JudgeFunctions(ImpliedBy(t, verdict.shelf), asked.functions, probabilities.functions, accept);
      var features := JudgeFeatures(
        FeaturesAt(t, JudgedPlaces(t, verdict)), asked.features, probabilities.values, accept, verdict.shelf != None);
      PartsDecision(
        Answer(verdict.shelf, functions.settled, features.settled),
        Parts(verdict.open, functions.open, features.open),
        Answer(ProposedShelf(verdict, probabilities.shelves), functions.proposed, features.proposed),
        verdict.fallback)
  }

  // ---------------------------------------------------------------------- a person's answer, checked

  /** The shelf a person gives: none of these, or a shelf by ID or slug. */
  datatype GivenShelf = GivenNone | GivenShelf(ref: Ref)

  /** What a person sends: parts that name items by ID or slug. */
  datatype GivenParts = GivenParts(shelf: Option<GivenShelf>, functions: seq<Ref>, features: seq<(Ref, seq<Ref>)>)

  /** The shelf part, or a refusal: it is given exactly when it is asked, and is live or none. */
  function CheckShelf(t: Taxonomy, asked: Parts, given: Option<GivenShelf>): Option<Option<Place>> {
    if asked.shelves != [] then
      match given
      case None => None
      case Some(GivenNone) => Some(Some(NoneOfThese))
      case Some(GivenShelf(ref)) =>
        match LiveItem(t, ShelfSubject, ref)
        case None => None
        case Some(p) => Some(Some(On(At(t, p).id)))
    else if given == None then Some(None) else None
  }

  function Add(ids: seq<Id>, id: Id): (added: seq<Id>)
    ensures forall x :: x in added <==> x in ids || x == id
    ensures NoRepeats(ids) ==> NoRepeats(added)
  {
    if id in ids then ids else ids + [id]
  }

  /** The functions given, once each, or a refusal: each is among those asked. */
  function CheckFunctions(t: Taxonomy, asked: Parts, refs: seq<Ref>): (given: Option<seq<Id>>)
    ensures given.Some? ==> NoRepeats(given.value) && forall fn :: fn in given.value ==> fn in asked.functions
  {
    if refs == [] then Some([])
    else
      match CheckFunctions(t, asked, refs[..|refs| - 1])
      case None => None
      case Some(before) =>
        match Find(t, FunctionSubject, refs[|refs| - 1])
        case None => None
        case Some(p) => if At(t, p).id in asked.functions then Some(Add(before, At(t, p).id)) else None
  }

  /** The values given of one feature, once each, or a refusal: each is offered, and on the page's shelf. */
  function CheckValues(feature: Feature, offered: seq<Id>, refs: seq<Ref>, mayTake: bool): (chosen: Option<seq<Id>>)
    ensures chosen.Some? ==> NoRepeats(chosen.value)
    ensures chosen.Some? ==> (chosen.value != [] ==> mayTake)
    ensures chosen.Some? ==> forall v :: v in chosen.value ==>
      v in offered && exists j :: 0 <= j < |feature.values| && feature.values[j].id == v
  {
    if refs == [] then Some([])
    else
      match CheckValues(feature, offered, refs[..|refs| - 1], mayTake)
      case None => None
      case Some(before) =>
        match FirstFrom(feature.values, refs[|refs| - 1], 0)
        case None => None
        case Some(j) =>
          if feature.values[j].id in offered && mayTake then Some(Add(before, feature.values[j].id)) else None
  }

  /** Whether a feature's values may be given: not on none of these, and only on a shelf with the feature. */
  predicate MayTake(t: Taxonomy, onShelf: Option<Place>, featureId: Id) {
    onShelf != Some(NoneOfThese) && (onShelf != None ==> featureId in OnShelfIds(t, onShelf))
  }

  /** One feature's values, or a refusal: the feature is asked, and takes one value if it takes one. */
  function CheckFeature(t: Taxonomy, asked: Parts, entry: (Ref, seq<Ref>), onShelf: Option<Place>): (values: Option<seq<Id>>) {
    match Find(t, FeatureSubject, entry.0)
    case None => None
    case Some(p) =>
      var feature := t.features[p.i];
      match Offered(asked.features, feature.item.id)
      case None => None
      case Some(offered) =>
        match CheckValues(feature, offered, entry.1, MayTake(t, onShelf, feature.item.id))
        case None => None
        case Some(chosen) => if feature.cardinality == TakesOne && |chosen| > 1 then None else Some(chosen)
  }

  function CheckFeatures(t: Taxonomy, asked: Parts, given: seq<(Ref, seq<Ref>)>, onShelf: Option<Place>): (values: Option<seq<Id>>)
    decreases |given|
  {
    if given == [] then Some([])
    else
      match CheckFeatures(t, asked, given[..|given| - 1], onShelf)
      case None => None
      case Some(before) =>
        match CheckFeature(t, asked, given[|given| - 1], onShelf)
        case None => None
        case Some(chosen) => Some(before + chosen)
  }

  /** `checkTaxonomyAnswer`: a person's answer checked against what a question asks, or a refusal. */
  function CheckTaxonomyAnswer(t: Taxonomy, asked: Parts, given: GivenParts, settledShelf: Option<Place>): Option<Answer> {
    match CheckShelf(t, asked, given.shelf)
    case None => None
    case Some(shelf) =>
      match CheckFunctions(t, asked, given.functions)
      case None => None
      case Some(functions) =>
        match CheckFeatures(t, asked, given.features, if shelf != None then shelf else settledShelf)
        case None => None
        case Some(values) =>
          if shelf == Some(NoneOfThese) then Some(NONE_ANSWER) else Some(Answer(shelf, functions, values))
  }

  /** `mergeAnswers`: what was settled and what is given, as one answer. */
  function MergeAnswers(t: Taxonomy, settled: Answer, given: Answer): Answer {
    if given.shelf == Some(NoneOfThese) then NONE_ANSWER
    else
      var shelf := if given.shelf != None then given.shelf else settled.shelf;
      var implied := ImpliedBy(t, shelf);
      Answer(shelf,
             Filter(fn => fn !in implied, Unique(settled.functions + given.functions)),
             Unique(Filter(v => Fits(t, shelf, v), settled.values) + given.values))
  }

  // ---------------------------------------------------------------------- a person's word, carried over

  /** A finished answer, with the parts a person was asked and the parts they gave. */
  datatype Final = Final(answer: Answer, asked: Parts, given: Answer)

  /** The functions a person was asked, as they now resolve, by whether they said yes. */
  function CarriedFunctions(t: Taxonomy, asked: seq<Id>, given: seq<Id>, yes: bool): seq<Id> {
    Mapped((fn: Id) => if (fn in given) == yes then Resolve(t, FunctionSubject, fn) else None, asked)
  }

  /** A value a person was asked, as it now resolves, if its feature is still on the shelf. */
  function CarriedValue(t: Taxonomy, given: seq<Id>, shelf: Option<Place>, yes: bool, value: Id): Option<Id> {
    match Resolve(t, ValueSubject, value)
    case None => None
    case Some(now) => if Fits(t, shelf, now) && (value in given) == yes then Some(now) else None
  }

  function CarriedValues(t: Taxonomy, asked: seq<Id>, given: seq<Id>, shelf: Option<Place>, yes: bool): seq<Id> {
    Mapped((v: Id) => CarriedValue(t, given, shelf, yes, v), asked)
  }

  /** `carriedOver` */
  function CarriedOver(t: Taxonomy, final: Option<Final>, shelf: Option<Place>): Carried {
    match final
    case None => NOTHING_CARRIED
    case Some(f) =>
      var values := AllValues(f.asked.features);
      Carried(
        CarriedFunctions(t, f.asked.functions, f.given.functions, true),
        CarriedFunctions(t, f.asked.functions, f.given.functions, false),
        CarriedValues(t, values, f.given.values, shelf, true),
        CarriedValues(t, values, f.given.values, shelf, false))
  }

  /** What a question asks, what it settled, and what is given now. */
  datatype Question = Question(asked: Parts, settled: Answer, given: Answer)

  // What the page's statements say now (`standingAnswer`).

  /** Whether a statement gives text for a property. */
  function IsAbout(property: string): S.Statement -> bool {
    (s: S.Statement) => s.property == property && s.value.Text?
  }

  /** `statementsAbout`: the text a page's statements give for a property, in survivorship's order. */
  function About(statements: seq<S.Statement>, property: string): seq<S.Statement> {
    SortBy(S.Better, Filter(IsAbout(property), statements))
  }

  /** What a statement's text stands for now. */
  function Said(t: Taxonomy, subject: Subject, s: S.Statement): Option<Id> {
    if s.value.Text? then Resolve(t, subject, s.value.text) else None
  }

  /** What a statement stands for now. */
  datatype Stated = Stated(id: Id, said: S.Statement)

  /** The shelf taken: the first stated, best first, that stands for a live one. */
  function ShelfStatement(t: Taxonomy, about: seq<S.Statement>): Option<Stated>
    decreases |about|
  {
    if about == [] then None
    else
      match Said(t, ShelfSubject, about[0])
      case Some(shelf) => Some(Stated(shelf, about[0]))
      case None => ShelfStatement(t, about[1..])
  }

  /** The items the statements about a property stand for now, best first. */
  function SaidIds(t: Taxonomy, statements: seq<S.Statement>, property: string, subject: Subject): seq<Id> {
    Mapped((s: S.Statement) => Said(t, subject, s),
           Filter(IsAbout(property), SortBy(S.Better, statements)))
  }

  /** Each value once, a feature that takes one keeping the first of its. */
  function FirstValues(t: Taxonomy, ids: seq<Id>): seq<Id> {
    if ids == [] then []
    else
      var before, v := FirstValues(t, ids[..|ids| - 1]), ids[|ids| - 1];
      match FeatureOfValue(t, v)
      case None => before
      case Some(i) =>
        if v in before || (t.features[i].cardinality == TakesOne && TakenIn(t, before, t.features[i].item.id)) then before
        else before + [v]
  }

  predicate TakenIn(t: Taxonomy, values: seq<Id>, featureId: Id) {
    exists v :: v in values && FeatureIdOf(t, v) == Some(featureId)
  }

  /** `standingAnswer` */
  function StandingAnswer(t: Taxonomy, statements: seq<S.Statement>): Answer {
    Answer(
      match ShelfStatement(t, About(statements, "shelf")) case None => None case Some(stated) => Some(On(stated.id)),
      Unique(SaidIds(t, statements, "functions", FunctionSubject)),
      FirstValues(t, SaidIds(t, statements, "features", ValueSubject)))
  }

  /** The shelf the answer puts the page on, or a refusal. */
  function FinalShelf(t: Taxonomy, q: Question, previous: Option<Final>, base: Answer): Option<Option<Place>> {
    var asks := q.asked.shelves != [];
    var shelf := if asks && q.given.shelf != None then q.given.shelf else base.shelf;
    if asks || previous == None then Some(shelf)
    else
      match previous.value.answer.shelf
      case None => Some(shelf)
      case Some(NoneOfThese) => None
      case Some(On(id)) =>
        match Resolve(t, ShelfSubject, id)
        case None => None
        case Some(live) => Some(Some(On(live)))
  }

  /** Whether this question decides a one-value feature whole, by asking it or by a value given for it. */
  predicate TakenWhole(t: Taxonomy, q: Question, featureId: Id) {
    && TakesOneValue(t, featureId)
    && (|| (exists k :: 0 <= k < |q.asked.features| && q.asked.features[k].feature == featureId)
        || (exists v :: v in q.given.values && FeatureIdOf(t, v) == Some(featureId)))
  }

  predicate AskedNow(q: Question, id: Id) {
    id in q.asked.functions || id in AllValues(q.asked.features)
  }

  predicate ValueTakenWhole(t: Taxonomy, q: Question, value: Id) {
    FeatureIdOf(t, value).Some? && TakenWhole(t, q, FeatureIdOf(t, value).value)
  }

  /** The part of a carried word that this question leaves standing. */
  function Standing(t: Taxonomy, q: Question, carried: Carried): Carried {
    Carried(
      Filter(fn => !AskedNow(q, fn), carried.yesFunctions),
      Filter(fn => !AskedNow(q, fn), carried.noFunctions),
      Filter(v => !AskedNow(q, v) && !ValueTakenWhole(t, q, v), carried.yesValues),
      Filter(v => !AskedNow(q, v) && !ValueTakenWhole(t, q, v), carried.noValues))
  }

  /** The person's word that stands: "None of these" says nothing of functions or features. */
  function Word(t: Taxonomy, q: Question, previous: Option<Final>, shelf: Option<Place>): Carried {
    if previous == None || previous.value.answer.shelf == Some(NoneOfThese) then NOTHING_CARRIED
    else Standing(t, q, CarriedOver(t, previous, shelf))
  }

  /** Whether their yes is for some value of a value's feature, which takes one. */
  predicate TheirsWhole(t: Taxonomy, yesValues: seq<Id>, value: Id) {
    exists y :: y in yesValues && FeatureIdOf(t, y) == FeatureIdOf(t, value)
             && FeatureIdOf(t, y).Some? && TakesOneValue(t, FeatureIdOf(t, y).value)
  }

  /** Whether a value of the base stays. */
  predicate KeptValue(t: Taxonomy, q: Question, word: Carried, shelf: Option<Place>, value: Id) {
    && Fits(t, shelf, value)
    && value !in word.noFunctions && value !in word.noValues
    && !AskedNow(q, value)
    && !ValueTakenWhole(t, q, value)
    && !(TheirsWhole(t, word.yesValues, value) && value !in word.yesValues)
  }

  predicate KeptFunction(q: Question, word: Carried, fn: Id) {
    fn !in word.noFunctions && fn !in word.noValues && !AskedNow(q, fn)
  }

  /** `features[feature] = unique([...(features[feature] ?? []), value])` */
  function AskAlso(features: seq<FeaturePart>, featureId: Id, value: Id): seq<FeaturePart> {
    var before := match Offered(features, featureId) case Some(values) => values case None => [];
    SetPart(features, FeaturePart(featureId, Unique(before + [value])))
  }

  function AskAlsoAll(t: Taxonomy, features: seq<FeaturePart>, values: seq<Id>): seq<FeaturePart> {
    if values == [] then features
    else
      var before, v := AskAlsoAll(t, features, values[..|values| - 1]), values[|values| - 1];
      match FeatureIdOf(t, v)
      case None => before
      case Some(f) => AskAlso(before, f, v)
  }

  /** `withCarried`: a person's answer made whole with their earlier word, or a refusal. */
  function WithCarried(t: Taxonomy, q: Question, previous: Option<Final>, standing: Option<Answer>): Option<Final> {
    if q.given.shelf == Some(NoneOfThese) then Some(Final(NONE_ANSWER, q.asked, q.given))
    else
      var base := if standing != None then standing.value else q.settled;
      match FinalShelf(t, q, previous, base)
      case None => None
      case Some(shelf) =>
        if shelf != None && exists v :: v in q.given.values && !Fits(t, shelf, v) then None
        else Some(Whole(t, q, base, shelf, Word(t, q, previous, shelf)))
  }

  /** A base answer overridden by what is given now and by the word that stands. */
  function Whole(t: Taxonomy, q: Question, base: Answer, shelf: Option<Place>, word: Carried): Final {
    var implied := ImpliedBy(t, shelf);
    Final(
      Answer(
        shelf,
        Filter(fn => fn !in implied,
               Unique(Filter(fn => KeptFunction(q, word, fn), base.functions) + q.given.functions + word.yesFunctions)),
        Unique(Filter(v => KeptValue(t, q, word, shelf, v), base.values) + q.given.values + word.yesValues)),
      Parts(
        q.asked.shelves,
        Unique(q.asked.functions + word.yesFunctions + word.noFunctions),
        AskAlsoAll(t, q.asked.features, word.yesValues + word.noValues)),
      Answer(q.given.shelf, Unique(q.given.functions + word.yesFunctions), Unique(q.given.values + word.yesValues)))
  }

  // ---------------------------------------------------------------------- a decision under a newer taxonomy

  function Resolver(t: Taxonomy, subject: Subject): Id -> Option<Id> {
    (id: Id) => Resolve(t, subject, id)
  }

  /** `unique(ids.map(resolve))`, what resolves to nothing dropped. */
  function Resolved(t: Taxonomy, subject: Subject, ids: seq<Id>): seq<Id> {
    Unique(Mapped(Resolver(t, subject), ids))
  }

  function ResolvePlace(t: Taxonomy, place: Place): Option<Place> {
    match place
    case NoneOfThese => Some(NoneOfThese)
    case On(id) => match Resolve(t, ShelfSubject, id) case None => None case Some(now) => Some(On(now))
  }

  function PlaceResolver(t: Taxonomy): Place -> Option<Place> {
    (place: Place) => ResolvePlace(t, place)
  }

  function FreshAnswer(t: Taxonomy, answer: Answer): Answer {
    Answer(match answer.shelf case None => None case Some(place) => ResolvePlace(t, place),
           Resolved(t, FunctionSubject, answer.functions),
           Resolved(t, ValueSubject, answer.values))
  }

  function FreshFeatures(t: Taxonomy, features: seq<FeaturePart>): seq<FeaturePart> {
    if features == [] then []
    else
      var before, part := FreshFeatures(t, features[..|features| - 1]), features[|features| - 1];
      var kept := Resolved(t, ValueSubject, part.values);
      match Resolve(t, FeatureSubject, part.feature)
      case None => before
      case Some(now) => if kept == [] then before else SetPart(before, FeaturePart(now, kept))
  }

  /** The shelves still to choose from, if there is a choice left. */
  function FreshShelves(t: Taxonomy, places: seq<Place>): seq<Place> {
    var shelves := Unique(Mapped(PlaceResolver(t), places));
    if |shelves| < 2 then [] else shelves
  }

  /** `freshen` */
  function Freshen(t: Taxonomy, d: PartsDecision): PartsDecision {
    PartsDecision(
      FreshAnswer(t, d.settled),
      Parts(FreshShelves(t, d.open.shelves),
            Resolved(t, FunctionSubject, d.open.functions),
            FreshFeatures(t, d.open.features)),
      FreshAnswer(t, d.proposed),
      d.fallback)
  }
}
