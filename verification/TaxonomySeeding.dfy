/**
 Seeding step by step (platform/core/src/taxonomy.ts:380-468): the lists filled in loops, a problem noted for every
 slug that names nothing, and the issues found.
 */
module TaxonomySeeding {
  import opened Basics
  import opened Taxonomies
  import opened TaxonomySeed
  import opened Ordering
  import TaxonomyIssuesFound

  lemma {:induction false} IdsOfMore(items: seq<Item>, slugs: seq<string>, slug: string)
    ensures
      IdsOfSlugs(items, slugs + [slug])
        == match (IdsOfSlugs(items, slugs), FirstFrom(items, BySlug(slug), 0))
           case (Some(ids), Some(k)) => Some(ids + [items[k].id])
           case _ => None
  {
    if slugs == [] {
      assert slugs + [slug] == [slug] && [slug][1..] == [];
      assert IdsOfSlugs(items, [slug][1..]) == Some([]);
      match FirstFrom(items, BySlug(slug), 0)
      case Some(k) => assert [items[k].id] + [] == [] + [items[k].id];
      case None =>
    } else {
      IdsOfMore(items, slugs[1..], slug);
      assert (slugs + [slug])[1..] == slugs[1..] + [slug] && (slugs + [slug])[0] == slugs[0];
      match (FirstFrom(items, BySlug(slugs[0]), 0), IdsOfSlugs(items, slugs[1..]), FirstFrom(items, BySlug(slug), 0))
      case (Some(j), Some(ids), Some(k)) =>
        assert [items[j].id] + (ids + [items[k].id]) == ([items[j].id] + ids) + [items[k].id];
      case _ =>
    }
  }

  /** The IDs some slugs name, those that name nothing left out as problems. */
  method IdsNamed(items: seq<Item>, slugs: seq<string>) returns (ids: seq<Id>, problem: bool)
    ensures IdsOfSlugs(items, slugs) == if problem then None else Some(ids)
  {
    ids, problem := [], false;
    for i := 0 to |slugs|
      invariant IdsOfSlugs(items, slugs[..i]) == if problem then None else Some(ids)
    {
      assert slugs[..i + 1] == slugs[..i] + [slugs[i]];
      IdsOfMore(items, slugs[..i], slugs[i]);
      var k := FirstFrom(items, BySlug(slugs[i]), 0);
      if k == None {
        problem := true;
      } else {
        ids := ids + [items[k.value].id];
      }
    }
    assert slugs[..|slugs|] == slugs;
  }

  method SeedShelf(shelf: SeedShelf, index: nat, made: Id, parentId: Option<Id>, functions: seq<Item>)
      returns (shelf': Shelf, problem: bool)
    ensures SeedOneShelf(shelf, index, made, parentId, functions) == if problem then None else Some(shelf')
    ensures shelf'.item == SeedEntry(shelf.entry, index, made)
  {
    var implies;
    implies, problem := IdsNamed(functions, shelf.implies);
    shelf' := Shelf(SeedEntry(shelf.entry, index, made), parentId, implies);
  }

  /** The shelves of a seed, each category pushed before its children. */
  method ShelvesOf(categories: seq<SeedCategory>, functions: seq<Item>, makeId: Pos -> Id)
      returns (shelves: seq<Shelf>, problem: bool)
    ensures SeedShelves(categories, functions, makeId) == if problem then None else Some(shelves)
  {
    shelves, problem := [], false;
    for i := 0 to |categories|
      invariant SeedShelves(categories[..i], functions, makeId) == if problem then None else Some(shelves)
    {
      assert categories[..i + 1][..i] == categories[..i];
      var before, category := shelves, categories[i];
      var shelf, missing := SeedShelf(category.shelf, i, makeId(AtShelf(|shelves|)), None, functions);
      shelves := shelves + [shelf];
      var at := |shelves|;
      var children, lacking := ChildrenOf(category.children, at, shelf.item.id, functions, makeId);
      shelves := shelves + children;
      ghost var was := problem;
      problem := problem || missing || lacking;
      assert !was && !missing ==> |before| + 1 == at;
      assert before + [shelf] + children == shelves;
    }
    assert categories[..|categories|] == categories;
  }

  method ChildrenOf(children: seq<SeedShelf>, at: nat, parentId: Id, functions: seq<Item>, makeId: Pos -> Id)
      returns (shelves: seq<Shelf>, problem: bool)
    ensures SeedChildren(children, at, parentId, functions, makeId) == if problem then None else Some(shelves)
  {
    shelves, problem := [], false;
    for j := 0 to |children|
      invariant SeedChildren(children[..j], at, parentId, functions, makeId) == if problem then None else Some(shelves)
    {
      assert children[..j + 1][..j] == children[..j];
      var shelf, missing := SeedShelf(children[j], j, makeId(AtShelf(at + j)), Some(parentId), functions);
      shelves := shelves + [shelf];
      problem := problem || missing;
    }
    assert children[..|children|] == children;
  }

  method FeaturesOf(features: seq<SeedFeature>, shelves: seq<Item>, makeId: Pos -> Id)
      returns (made: seq<Feature>, problem: bool)
    ensures SeedFeatures(features, shelves, makeId) == if problem then None else Some(made)
  {
    made, problem := [], false;
    for i := 0 to |features|
      invariant SeedFeatures(features[..i], shelves, makeId) == if problem then None else Some(made)
    {
      assert features[..i + 1][..i] == features[..i];
      var feature := features[i];
      var shelfIds, missing := IdsNamed(shelves, feature.shelves);
      var values := SeedItems(feature.values, (j: nat) => makeId(AtValue(i, j)));
      made := made + [Feature(SeedEntry(feature.entry, i, makeId(AtFeature(i))), feature.cardinality, shelfIds, values)];
      problem := problem || missing;
    }
    assert features[..|features|] == features;
  }

  /** `seedTaxonomy`, with its problems and issues as one refusal. */
  method Seeded(seed: Seed, makeId: Pos -> Id) returns (seeded: Option<Taxonomy>)
    ensures seeded == SeedTaxonomy(seed, makeId)
  {
    var functions := SeedItems(seed.functions, (k: nat) => makeId(AtFunction(k)));
    var shelves, missing := ShelvesOf(seed.categories, functions, makeId);
    var features, lacking := FeaturesOf(seed.features, ShelfItems(shelves), makeId);
    if missing || lacking {
      return None;
    }
    var t := Taxonomy(1, seed.scope, shelves, functions, features, []);
    var issues := TaxonomyIssuesFound.TaxonomyIssues(t);
    seeded := if issues == [] then Some(t) else None;
  }
}
