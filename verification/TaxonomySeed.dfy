/**
 Seeding and exporting (platform/core/src/taxonomy.ts:380-507): the live taxonomy as a seed file with
 its IDs, and a seed file as version 1. `makeId` is a parameter: the ID it gave for an item is named
 by the item's place in the taxonomy it makes.
 */
module TaxonomySeed {
  import opened Basics
  import opened Taxonomies
  import opened Ordering
  import TaxonomyForwarding

  datatype SeedItem = SeedItem(id: Option<Id>, slug: string, name: Name, description: string)

  datatype SeedShelf = SeedShelf(entry: SeedItem, implies: seq<string>)

  datatype SeedCategory = SeedCategory(shelf: SeedShelf, children: seq<SeedShelf>)

  datatype SeedFeature = SeedFeature(
    entry: SeedItem, cardinality: Cardinality, shelves: seq<string>, values: seq<SeedItem>)

  datatype Seed = Seed(
    scope: string, functions: seq<SeedItem>, categories: seq<SeedCategory>, features: seq<SeedFeature>)

  // ---------------------------------------------------------------------- export

  function Base(item: Item): SeedItem {
    SeedItem(Some(item.id), item.slug, item.name, item.description)
  }

  /** `functionSlugs.get(fnId) ?? fnId` */
  function FunctionSlug(t: Taxonomy, id: Id): string {
    match Find(t, FunctionSubject, ById(id))
    case Some(p) => At(t, p).slug
    case None => id
  }

  function ExportShelf(t: Taxonomy, shelf: Shelf): SeedShelf {
    SeedShelf(Base(shelf.item),
              seq(|shelf.implies|, k requires 0 <= k < |shelf.implies| => FunctionSlug(t, shelf.implies[k])))
  }

  function ExportCategory(t: Taxonomy, category: Shelf): SeedCategory {
    var subs := SubcategoriesOf(t, category.item.id);
    SeedCategory(ExportShelf(t, category),
                 seq(|subs|, j requires 0 <= j < |subs| => ExportShelf(t, t.shelves[subs[j]])))
  }

  function ExportCategories(t: Taxonomy, places: seq<nat>): (cats: seq<SeedCategory>)
    requires InRange(places, |t.shelves|)
    ensures |cats| == |places|
    ensures forall k :: 0 <= k < |places| ==> cats[k] == ExportCategory(t, t.shelves[places[k]])
  {
    seq(|places|, k requires 0 <= k < |places| => ExportCategory(t, t.shelves[places[k]]))
  }

  /** The slugs of the live shelves some IDs stand for now. */
  function LiveSlugs(t: Taxonomy, ids: seq<Id>): seq<string> {
    if ids == [] then []
    else
      match TaxonomyForwarding.Resolve(t, ShelfSubject, ids[0])
      case None => LiveSlugs(t, ids[1..])
      case Some(live) =>
        (match Find(t, ShelfSubject, ById(live))
         case Some(p) => [At(t, p).slug]
         case None => [live]) + LiveSlugs(t, ids[1..])
  }

  function ExportItems(items: seq<Item>): (entries: seq<SeedItem>)
  {
    var places := LiveInOrder(items);
    seq(|places|, k requires 0 <= k < |places| => Base(items[places[k]]))
  }

  function ExportFeature(t: Taxonomy, feature: Feature): SeedFeature {
    SeedFeature(Base(feature.item), feature.cardinality, Unique(LiveSlugs(t, feature.shelves)),
                ExportItems(feature.values))
  }

  function ExportFeatures(t: Taxonomy): (features: seq<SeedFeature>)
  {
    var places := LiveInOrder(FeatureItems(t.features));
    seq(|places|, k requires 0 <= k < |places| => ExportFeature(t, t.features[places[k]]))
  }

  /** `exportTaxonomy` */
  function ExportTaxonomy(t: Taxonomy): Seed {
    Seed(t.scope, ExportItems(t.functions), ExportCategories(t, CategoriesOf(t)), ExportFeatures(t))
  }

  // ---------------------------------------------------------------------- seed

  /** An entry as the item at a place among its siblings, with the ID it gives or one made for it. */
  function SeedEntry(entry: SeedItem, index: nat, made: Id): Item {
    Item(if entry.id.Some? then entry.id.value else made, entry.slug, entry.name, entry.description, index + 1, None)
  }

  function SeedItems(entries: seq<SeedItem>, made: nat -> Id): (items: seq<Item>)
    ensures |items| == |entries|
    ensures forall k :: 0 <= k < |items| ==> items[k] == SeedEntry(entries[k], k, made(k))
  {
    seq(|entries|, k requires 0 <= k < |entries| => SeedEntry(entries[k], k, made(k)))
  }

  /** The IDs of the items some slugs name, or nothing when one names none. */
  function IdsOfSlugs(items: seq<Item>, slugs: seq<string>): (ids: Option<seq<Id>>)
    ensures ids.Some? ==> |ids.value| == |slugs|
  {
    if slugs == [] then Some([])
    else
      match (FirstFrom(items, BySlug(slugs[0]), 0), IdsOfSlugs(items, slugs[1..]))
      case (Some(k), Some(rest)) => Some([items[k].id] + rest)
      case _ => None
  }

  function SeedOneShelf(shelf: SeedShelf, index: nat, made: Id, parentId: Option<Id>, functions: seq<Item>)
    : Option<Shelf>
  {
    match IdsOfSlugs(functions, shelf.implies)
    case None => None
    case Some(implies) => Some(Shelf(SeedEntry(shelf.entry, index, made), parentId, implies))
  }

  /** A category's children, one after another, the first at a place in the list of shelves. */
  function SeedChildren(children: seq<SeedShelf>, at: nat, parentId: Id, functions: seq<Item>, makeId: Pos -> Id)
    : (made: Option<seq<Shelf>>)
    ensures made.Some? ==> |made.value| == |children|
  {
    if children == [] then Some([])
    else
      var last := |children| - 1;
      match (SeedChildren(children[..last], at, parentId, functions, makeId),
             SeedOneShelf(children[last], last, makeId(AtShelf(at + last)), Some(parentId), functions))
      case (Some(before), Some(shelf)) => Some(before + [shelf])
      case _ => None
  }

  /** The categories, each followed by its children. */
  function SeedShelves(categories: seq<SeedCategory>, functions: seq<Item>, makeId: Pos -> Id): Option<seq<Shelf>>
  {
    if categories == [] then Some([])
    else
      var last := |categories| - 1;
      match SeedShelves(categories[..last], functions, makeId)
      case None => None
      case Some(before) =>
        match SeedOneShelf(categories[last].shelf, last, makeId(AtShelf(|before|)), None, functions)
        case None => None
        case Some(category) =>
          match SeedChildren(categories[last].children, |before| + 1, category.item.id, functions, makeId)
          case None => None
          case Some(children) => Some(before + [category] + children)
  }

  function SeedOneFeature(feature: SeedFeature, index: nat, shelves: seq<Item>, makeId: Pos -> Id): Option<Feature> {
    match IdsOfSlugs(shelves, feature.shelves)
    case None => None
    case Some(shelfIds) =>
      Some(Feature(SeedEntry(feature.entry, index, makeId(AtFeature(index))), feature.cardinality, shelfIds,
                   SeedItems(feature.values, (j: nat) => makeId(AtValue(index, j)))))
  }

  function SeedFeatures(features: seq<SeedFeature>, shelves: seq<Item>, makeId: Pos -> Id): (made: Option<seq<Feature>>)
    ensures made.Some? ==> |made.value| == |features|
    ensures made.Some? ==>
      forall k :: 0 <= k < |features| ==> SeedOneFeature(features[k], k, shelves, makeId) == Some(made.value[k])
  {
    if features == [] then Some([])
    else
      var last := |features| - 1;
      match (SeedFeatures(features[..last], shelves, makeId), SeedOneFeature(features[last], last, shelves, makeId))
      case (Some(before), Some(feature)) => Some(before + [feature])
      case _ => None
  }

  /** `seedTaxonomy`: a seed file as version 1, if every slug it names is there and it is usable. */
  ghost function SeedTaxonomy(seed: Seed, makeId: Pos -> Id): (seeded: Option<Taxonomy>)
    ensures seeded.Some? ==> Valid(seeded.value)
  {
    var functions := SeedItems(seed.functions, (k: nat) => makeId(AtFunction(k)));
    match SeedShelves(seed.categories, functions, makeId)
    case None => None
    case Some(shelves) =>
      match SeedFeatures(seed.features, ShelfItems(shelves), makeId)
      case None => None
      case Some(features) =>
        var t := Taxonomy(1, seed.scope, shelves, functions, features, []);
        if Valid(t) then Some(t) else None
  }
}
