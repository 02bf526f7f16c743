/**
 The living taxonomy (platform/core/src/taxonomy.ts): its data, what makes it usable, and the
 resolver that follows merges.

 An item's place in the taxonomy's lists is a `Pos`. Nothing is ever deleted and new items are
 pushed at the end of their list, so a place names the same item for good.
 */
module Taxonomies {
  import opened Basics

  type Id = string

  const NONE_SHELF := "none"
  const MAX_SHELVES := 254

  datatype Subject = ShelfSubject | FunctionSubject | FeatureSubject | ValueSubject

  /** A name as written, and the lowercase key siblings' names compare by. */
  datatype Name = Name(text: string, key: string)

  datatype Item = Item(
    id: Id, slug: string, name: Name, description: string, sortOrder: int, retiredIn: Option<nat>)

  datatype Cardinality = TakesOne | TakesMany

  datatype Shelf = Shelf(item: Item, parentId: Option<Id>, implies: seq<Id>)

  datatype Feature = Feature(item: Item, cardinality: Cardinality, shelves: seq<Id>, values: seq<Item>)

  datatype MigrationKind = Renamed | Moved | Merged | SplitUp | Retired | Restored

  /** What a migration leads to: nothing, one item, or the items a split made. */
  datatype Destination = ToNothing | ToOne(id: Id) | ToMany(ids: seq<Id>)

  datatype Migration = Migration(version: nat, kind: MigrationKind, subject: Subject, from: Id, to: Destination)

  datatype Taxonomy = Taxonomy(
    version: nat,
    scope: string,
    shelves: seq<Shelf>,
    functions: seq<Item>,
    features: seq<Feature>,
    migrations: seq<Migration>)

  /** How a change or a person names an item: by its ID or by its slug. The two never look alike. */
  datatype Ref = ById(id: Id) | BySlug(slug: string)

  predicate Live(item: Item) { item.retiredIn == None }

  // ---------------------------------------------------------------------- places

  datatype Pos = AtShelf(i: nat) | AtFunction(i: nat) | AtFeature(i: nat) | AtValue(i: nat, j: nat)

  function KindOf(p: Pos): Subject {
    match p
    case AtShelf(_) => ShelfSubject
    case AtFunction(_) => FunctionSubject
    case AtFeature(_) => FeatureSubject
    case AtValue(_, _) => ValueSubject
  }

  predicate Has(t: Taxonomy, p: Pos) {
    match p
    case AtShelf(i) => i < |t.shelves|
    case AtFunction(i) => i < |t.functions|
    case AtFeature(i) => i < |t.features|
    case AtValue(i, j) => i < |t.features| && j < |t.features[i].values|
  }

  function At(t: Taxonomy, p: Pos): Item
    requires Has(t, p)
  {
    match p
    case AtShelf(i) => t.shelves[i].item
    case AtFunction(i) => t.functions[i]
    case AtFeature(i) => t.features[i].item
    case AtValue(i, j) => t.features[i].values[j]
  }

  /** The taxonomy with the item at a place replaced: what assigning to a found item's fields does. */
  function Put(t: Taxonomy, p: Pos, item: Item): (u: Taxonomy)
    requires Has(t, p)
    ensures forall q :: Has(u, q) <==> Has(t, q)
    ensures forall q :: Has(t, q) ==> At(u, q) == if q == p then item else At(t, q)
  {
    match p
    case AtShelf(i) => t.(shelves := t.shelves[i := t.shelves[i].(item := item)])
    case AtFunction(i) => t.(functions := t.functions[i := item])
    case AtFeature(i) => t.(features := t.features[i := t.features[i].(item := item)])
    case AtValue(i, j) =>
      t.(features := t.features[i := t.features[i].(values := t.features[i].values[j := item])])
  }

  // ---------------------------------------------------------------------- finding items

  predicate Answers(item: Item, ref: Ref) {
    match ref
    case ById(id) => item.id == id
    case BySlug(slug) => item.slug == slug
  }

  /** `list.find(...)`, as an index: the first item the reference names. */
  function FirstFrom(items: seq<Item>, ref: Ref, from: nat): (found: Option<nat>)
    requires from <= |items|
    ensures found.Some? ==> from <= found.value < |items| && Answers(items[found.value], ref)
    ensures found.Some? ==> forall k :: from <= k < found.value ==> !Answers(items[k], ref)
    ensures found.None? ==> forall k :: from <= k < |items| ==> !Answers(items[k], ref)
    decreases |items| - from
  {
    if from == |items| then None
    else if Answers(items[from], ref) then Some(from)
    else FirstFrom(items, ref, from + 1)
  }

  function FirstShelf(shelves: seq<Shelf>, ref: Ref, from: nat): (found: Option<nat>)
    requires from <= |shelves|
    ensures found.Some? ==> from <= found.value < |shelves| && Answers(shelves[found.value].item, ref)
    ensures found.Some? ==> forall k :: from <= k < found.value ==> !Answers(shelves[k].item, ref)
    ensures found.None? ==> forall k :: from <= k < |shelves| ==> !Answers(shelves[k].item, ref)
    decreases |shelves| - from
  {
    if from == |shelves| then None
    else if Answers(shelves[from].item, ref) then Some(from)
    else FirstShelf(shelves, ref, from + 1)
  }

  function FirstFeature(features: seq<Feature>, ref: Ref, from: nat): (found: Option<nat>)
    requires from <= |features|
    ensures found.Some? ==> from <= found.value < |features| && Answers(features[found.value].item, ref)
    ensures found.Some? ==> forall k :: from <= k < found.value ==> !Answers(features[k].item, ref)
    ensures found.None? ==> forall k :: from <= k < |features| ==> !Answers(features[k].item, ref)
    decreases |features| - from
  {
    if from == |features| then None
    else if Answers(features[from].item, ref) then Some(from)
    else FirstFeature(features, ref, from + 1)
  }

  /** The first value the reference names, over every feature's values in order. */
  function FirstValue(features: seq<Feature>, ref: Ref, from: nat): (found: Option<(nat, nat)>)
    requires from <= |features|
    ensures found.Some? ==>
      var (i, j) := found.value;
      from <= i < |features| && j < |features[i].values| && Answers(features[i].values[j], ref)
    ensures found.None? ==>
      forall i, j :: from <= i < |features| && 0 <= j < |features[i].values| ==>
        !Answers(features[i].values[j], ref)
    decreases |features| - from
  {
    if from == |features| then None
    else
      match FirstFrom(features[from].values, ref, 0)
      case Some(j) => Some((from, j))
      case None => FirstValue(features, ref, from + 1)
  }

  /** `findItem`: the place of an item of a kind, live or retired. */
  function Find(t: Taxonomy, subject: Subject, ref: Ref): (found: Option<Pos>)
    ensures found.Some? ==>
      Has(t, found.value) && KindOf(found.value) == subject && Answers(At(t, found.value), ref)
    ensures found.None? ==>
      forall p :: Has(t, p) && KindOf(p) == subject ==> !Answers(At(t, p), ref)
  {
    match subject
    case ShelfSubject =>
      (match FirstShelf(t.shelves, ref, 0) case Some(i) => Some(AtShelf(i)) case None => None)
    case FunctionSubject =>
      (match FirstFrom(t.functions, ref, 0) case Some(i) => Some(AtFunction(i)) case None => None)
    case FeatureSubject =>
      (match FirstFeature(t.features, ref, 0) case Some(i) => Some(AtFeature(i)) case None => None)
    case ValueSubject =>
      (match FirstValue(t.features, ref, 0) case Some(ij) => Some(AtValue(ij.0, ij.1)) case None => None)
  }

  /** `featureOfValue`: the first feature with a value of this ID. */
  function FeatureOfValue(t: Taxonomy, valueId: Id): (found: Option<nat>)
    ensures found.Some? ==> found.value < |t.features|
  {
    match FirstValue(t.features, ById(valueId), 0)
    case Some(ij) => Some(ij.0)
    case None => None
  }

  // ---------------------------------------------------------------------- what makes one usable

  ghost predicate UniqueIds(t: Taxonomy) {
    forall p, q :: Has(t, p) && Has(t, q) && p != q ==> At(t, p).id != At(t, q).id
  }

  ghost predicate UniqueSlugs(t: Taxonomy) {
    forall p, q :: Has(t, p) && Has(t, q) && p != q && KindOf(p) == KindOf(q) ==>
      At(t, p).slug != At(t, q).slug
  }

  predicate Siblings(t: Taxonomy, p: Pos, q: Pos)
    requires Has(t, p) && Has(t, q)
  {
    match (p, q)
    case (AtShelf(i), AtShelf(j)) => t.shelves[i].parentId == t.shelves[j].parentId
    case (AtFunction(_), AtFunction(_)) => true
    case (AtFeature(_), AtFeature(_)) => true
    case (AtValue(i, _), AtValue(j, _)) => i == j
    case _ => false
  }

  /** No two live siblings share a folded name. */
  ghost predicate UniqueNames(t: Taxonomy) {
    forall p, q :: Has(t, p) && Has(t, q) && p != q && Live(At(t, p)) && Live(At(t, q)) && Siblings(t, p, q) ==>
      At(t, p).name.key != At(t, q).name.key
  }

  function LiveShelves(shelves: seq<Shelf>): (count: nat)
  {
    if shelves == [] then 0
    else LiveShelves(shelves[..|shelves| - 1]) + if Live(shelves[|shelves| - 1].item) then 1 else 0
  }

  function LiveValues(values: seq<Item>): (count: nat)
    ensures count > 0 <==> exists j :: 0 <= j < |values| && Live(values[j])
  {
    if values == [] then 0
    else
      assert values == values[..|values| - 1] + [values[|values| - 1]];
      LiveValues(values[..|values| - 1]) + if Live(values[|values| - 1]) then 1 else 0
  }

  /** A shelf's category exists, is a category, is another shelf, and is live if the shelf is. */
  predicate ParentFits(t: Taxonomy, shelf: Shelf) {
    match shelf.parentId
    case None => true
    case Some(parentId) =>
      match Find(t, ShelfSubject, ById(parentId))
      case None => false
      case Some(p) =>
        && t.shelves[p.i].parentId == None
        && parentId != shelf.item.id
        && (Live(shelf.item) ==> Live(t.shelves[p.i].item))
  }

  /** What a shelf implies are functions, live ones if the shelf is live. */
  predicate ImpliesFit(t: Taxonomy, shelf: Shelf) {
    forall k :: 0 <= k < |shelf.implies| ==>
      match Find(t, FunctionSubject, ById(shelf.implies[k]))
      case None => false
      case Some(p) => Live(shelf.item) ==> Live(At(t, p))
  }

  ghost predicate ShelvesFit(t: Taxonomy) {
    && 1 <= LiveShelves(t.shelves) <= MAX_SHELVES
    && (forall i :: 0 <= i < |t.shelves| ==> t.shelves[i].item.slug != NONE_SHELF)
    && (forall i :: 0 <= i < |t.shelves| ==> ParentFits(t, t.shelves[i]))
    && (forall i :: 0 <= i < |t.shelves| ==> ImpliesFit(t, t.shelves[i]))
  }

  /** A feature names shelves, and keeps a live value while it is live. */
  predicate FeatureFits(t: Taxonomy, feature: Feature) {
    && (forall k :: 0 <= k < |feature.shelves| ==> Find(t, ShelfSubject, ById(feature.shelves[k])).Some?)
    && (Live(feature.item) ==> LiveValues(feature.values) > 0)
  }

  ghost predicate FeaturesFit(t: Taxonomy) {
    forall i :: 0 <= i < |t.features| ==> FeatureFits(t, t.features[i])
  }

  /** No item is retired after the taxonomy's version. */
  ghost predicate StampsFit(t: Taxonomy) {
    forall p :: Has(t, p) ==> At(t, p).retiredIn.Some? ==> At(t, p).retiredIn.value <= t.version
  }

  predicate Listed(t: Taxonomy, subject: Subject, id: Id) {
    Find(t, subject, ById(id)).Some?
  }

  /** A migration is about a listed item, and leads where its kind does. */
  predicate MigrationFits(t: Taxonomy, m: Migration) {
    && m.version <= t.version
    && Listed(t, m.subject, m.from)
    && match m.kind
       case Merged => m.to.ToOne? && m.to.id != m.from && Listed(t, m.subject, m.to.id)
       case SplitUp =>
         && m.to.ToMany?
         && m.subject == ShelfSubject
         && forall k :: 0 <= k < |m.to.ids| ==> Listed(t, ShelfSubject, m.to.ids[k])
       case Retired => m.to == ToNothing
       case _ => m.to == ToOne(m.from)
  }

  ghost predicate MigrationsFit(t: Taxonomy) {
    && (forall k :: 0 <= k < |t.migrations| ==> MigrationFits(t, t.migrations[k]))
    && (forall k, l :: 0 <= k < l < |t.migrations| ==> t.migrations[k].version <= t.migrations[l].version)
  }

  /** What one migration says of the item it is from: that it is retired, that it is live, or nothing. */
  function Says(m: Migration): Option<bool> {
    match m.kind
    case Merged => Some(true)
    case Retired => Some(true)
    case Restored => Some(false)
    case _ => None
  }

  /** What the migrations last say of an item: retired, live, or nothing. */
  function LastSaid(migrations: seq<Migration>, id: Id): Option<bool> {
    if migrations == [] then None
    else
      var last := migrations[|migrations| - 1];
      if last.from == id && Says(last).Some? then Says(last)
      else LastSaid(migrations[..|migrations| - 1], id)
  }

  /** What migrations last say of an item, if they say anything, is how it is. */
  ghost predicate SaidFits(t: Taxonomy) {
    forall p :: Has(t, p) ==>
      var said := LastSaid(t.migrations, At(t, p).id);
      said.Some? ==> said.value == !Live(At(t, p))
  }

  /** What `taxonomyIssues` finds nothing wrong with. */
  ghost predicate Valid(t: Taxonomy) {
    && UniqueIds(t) && UniqueSlugs(t) && UniqueNames(t)
    && ShelvesFit(t) && FeaturesFit(t)
    && StampsFit(t) && MigrationsFit(t) && SaidFits(t)
  }

  // ---------------------------------------------------------------------- lemmas about places

  /** An ID names one place. */
  lemma FindAt(t: Taxonomy, p: Pos)
    requires UniqueIds(t) && Has(t, p)
    ensures Find(t, KindOf(p), ById(At(t, p).id)) == Some(p)
  {
    var found := Find(t, KindOf(p), ById(At(t, p).id));
    assert Answers(At(t, p), ById(At(t, p).id));
  }

  lemma {:induction false} LiveShelvesCount(shelves: seq<Shelf>, others: seq<Shelf>)
    requires |shelves| <= |others|
    requires forall i :: 0 <= i < |shelves| ==> Live(shelves[i].item) == Live(others[i].item)
    requires forall i :: |shelves| <= i < |others| ==> !Live(others[i].item)
    ensures LiveShelves(others) == LiveShelves(shelves)
    decreases |others|
  {
    if others != [] {
      if |others| > |shelves| {
        LiveShelvesCount(shelves, others[..|others| - 1]);
      } else {
        LiveShelvesCount(shelves[..|shelves| - 1], others[..|others| - 1]);
      }
    }
  }
}
