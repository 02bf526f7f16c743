/**
 Export and seed undo each other: seeding the export of any usable taxonomy succeeds, and exporting
 what it seeds gives the same export, to the ID and the order.
 */
module TaxonomyRoundTrip {
  import opened Basics
  import opened Taxonomies
  import opened Ordering
  import opened TaxonomySeed
  import opened TaxonomyForwarding

  predicate Reordered(x: Item, y: Item) {
    x.(sortOrder := y.sortOrder) == y
  }

  function Upto(n: nat): (places: seq<nat>)
    ensures |places| == n && forall k :: 0 <= k < n ==> places[k] == k
  {
    seq(n, k => k)
  }

  /** A list in its order from the first to the last, all live. */
  lemma RisingLiveOrder(items: seq<Item>)
    requires forall k :: 0 <= k < |items| ==> Live(items[k]) && items[k].sortOrder == k + 1
    ensures LiveInOrder(items) == Upto(|items|)
  {
    forall k: nat | k < |items|
      ensures k in Upto(|items|)
    {
      assert Upto(|items|)[k] == k;
    }
    LiveInOrderIs(items, Upto(|items|));
  }

  /** A list of items exported and seeded: the live ones, in order, and then exported the same. */
  lemma ItemsBack(items: seq<Item>, made: nat -> Id)
    ensures
      var places, back := LiveInOrder(items), SeedItems(ExportItems(items), made);
      && |back| == |places|
      && (forall k :: 0 <= k < |places| ==> back[k] == items[places[k]].(sortOrder := k + 1) && Live(back[k]))
      && ExportItems(back) == ExportItems(items)
      && LiveInOrder(back) == Upto(|back|)
  {
    var places, back := LiveInOrder(items), SeedItems(ExportItems(items), made);
    LiveInOrderAre(items);
    forall k | 0 <= k < |places|
      ensures back[k] == items[places[k]].(sortOrder := k + 1) && Live(back[k])
    {
      assert places[k] in places;
    }
    RisingLiveOrder(back);
  }

  predicate Named(items: seq<Item>, slug: string, id: Id) {
    exists i :: 0 <= i < |items| && items[i].slug == slug && items[i].id == id
  }

  ghost predicate SlugsDiffer(items: seq<Item>) {
    forall i, j :: 0 <= i < |items| && 0 <= j < |items| && i != j ==> items[i].slug != items[j].slug
  }

  /** Slugs that are each some item's give back the items' IDs. */
  lemma {:induction false} SlugsBack(items: seq<Item>, slugs: seq<string>, ids: seq<Id>)
    requires |slugs| == |ids|
    requires SlugsDiffer(items)
    requires forall k :: 0 <= k < |ids| ==> Named(items, slugs[k], ids[k])
    ensures IdsOfSlugs(items, slugs) == Some(ids)
    decreases |slugs|
  {
    if slugs != [] {
      var i :| 0 <= i < |items| && items[i].slug == slugs[0] && items[i].id == ids[0];
      assert Answers(items[i], BySlug(slugs[0]));
      var found := FirstFrom(items, BySlug(slugs[0]), 0);
      assert found == Some(i);
      SlugsBack(items, slugs[1..], ids[1..]);
      assert [items[i].id] + ids[1..] == ids;
    }
  }

  // ---------------------------------------------------------------------- the shelves, family by family

  /** A category and its subcategories, in order. */
  function Family(t: Taxonomy, c: nat): (places: seq<nat>)
    requires c < |t.shelves|
    ensures InRange(places, |t.shelves|) && places != []
  {
    [c] + SubcategoriesOf(t, t.shelves[c].item.id)
  }

  function FamiliesOf(t: Taxonomy, cats: seq<nat>): (families: seq<seq<nat>>)
    requires InRange(cats, |t.shelves|)
    ensures |families| == |cats|
  {
    if cats == [] then []
    else FamiliesOf(t, cats[..|cats| - 1]) + [Family(t, cats[|cats| - 1])]
  }

  function Families(t: Taxonomy): (families: seq<seq<nat>>)
    ensures |families| == |CategoriesOf(t)|
  {
    FamiliesOf(t, CategoriesOf(t))
  }

  lemma {:induction false} FamiliesAt(t: Taxonomy, cats: seq<nat>, k: nat)
    requires InRange(cats, |t.shelves|) && k < |cats|
    ensures FamiliesOf(t, cats)[k] == Family(t, cats[k])
    ensures SeededFamilies(t, cats)[k] == SeededFamily(t, cats[k], k)
  {
    if k < |cats| - 1 {
      FamiliesAt(t, cats[..|cats| - 1], k);
    }
  }

  /** Families are seeded one for one. */
  lemma SameLengths(t: Taxonomy)
    ensures forall i :: 0 <= i < |Families(t)| ==>
      |Families(t)[i]| == |SeededFamilies(t, CategoriesOf(t))[i]| > 0
  {
    forall i | 0 <= i < |Families(t)|
      ensures |Families(t)[i]| == |SeededFamilies(t, CategoriesOf(t))[i]| > 0
    {
      FamiliesAt(t, CategoriesOf(t), i);
    }
  }

  /** A shelf with its order among its siblings set. */
  function Placed(shelf: Shelf, index: nat): Shelf {
    shelf.(item := shelf.item.(sortOrder := index + 1))
  }

  /** A category and its subcategories as they are seeded. */
  function SeededFamily(t: Taxonomy, c: nat, k: nat): (family: seq<Shelf>)
    requires c < |t.shelves|
    ensures |family| == |Family(t, c)|
  {
    var subs := SubcategoriesOf(t, t.shelves[c].item.id);
    [Placed(t.shelves[c], k)] + seq(|subs|, j requires 0 <= j < |subs| => Placed(t.shelves[subs[j]], j))
  }

  function SeededFamilies(t: Taxonomy, cats: seq<nat>): (families: seq<seq<Shelf>>)
    requires InRange(cats, |t.shelves|)
    ensures |families| == |cats|
  {
    if cats == [] then []
    else SeededFamilies(t, cats[..|cats| - 1]) + [SeededFamily(t, cats[|cats| - 1], |cats| - 1)]
  }

  function SeededFunctions(t: Taxonomy, makeId: Pos -> Id): seq<Item> {
    SeedItems(ExportItems(t.functions), (k: nat) => makeId(AtFunction(k)))
  }

  lemma SlugsStillDiffer(items: seq<Item>, made: nat -> Id)
    requires SlugsDiffer(items)
    ensures SlugsDiffer(SeedItems(ExportItems(items), made))
  {
    var places, back := LiveInOrder(items), SeedItems(ExportItems(items), made);
    ItemsBack(items, made);
    LiveInOrderAre(items);
    forall a, b | 0 <= a < |back| && 0 <= b < |back| && a != b
      ensures back[a].slug != back[b].slug
    {
      assert places[a] != places[b];
    }
  }

  lemma FunctionSlugsDiffer(t: Taxonomy)
    requires UniqueSlugs(t)
    ensures SlugsDiffer(t.functions)
  {
    forall a, b | 0 <= a < |t.functions| && 0 <= b < |t.functions| && a != b
      ensures t.functions[a].slug != t.functions[b].slug
    {
      assert Has(t, AtFunction(a)) && Has(t, AtFunction(b));
    }
  }

  lemma SeededFunction(t: Taxonomy, id: Id, makeId: Pos -> Id)
    requires Find(t, FunctionSubject, ById(id)).Some? && Live(At(t, Find(t, FunctionSubject, ById(id)).value))
    ensures
      Named(SeededFunctions(t, makeId), FunctionSlug(t, id), id)
  {
    var places := LiveInOrder(t.functions);
    LiveInOrderAre(t.functions);
    var p := Find(t, FunctionSubject, ById(id)).value;
    assert p.i in places;
    var a :| 0 <= a < |places| && places[a] == p.i;
    SeededFunctionAt(t, makeId, a);
    assert SeededFunctions(t, makeId)[a].slug == FunctionSlug(t, id);
  }

  lemma SeededFunctionAt(t: Taxonomy, makeId: Pos -> Id, a: nat)
    requires a < |LiveInOrder(t.functions)|
    ensures
      var item, back := t.functions[LiveInOrder(t.functions)[a]], SeededFunctions(t, makeId);
      a < |back| && back[a].slug == item.slug && back[a].id == item.id
  {
    ItemsBack(t.functions, (k: nat) => makeId(AtFunction(k)));
  }

  /** A live shelf implies what its export does, once it is seeded. */
  lemma ImpliesBack(t: Taxonomy, i: nat, makeId: Pos -> Id)
    requires UniqueSlugs(t) && i < |t.shelves| && Live(t.shelves[i].item) && ImpliesFit(t, t.shelves[i])
    ensures IdsOfSlugs(SeededFunctions(t, makeId), ExportShelf(t, t.shelves[i]).implies) == Some(t.shelves[i].implies)
  {
    var shelf := t.shelves[i];
    FunctionSlugsDiffer(t);
    SlugsStillDiffer(t.functions, (k: nat) => makeId(AtFunction(k)));
    forall k | 0 <= k < |shelf.implies|
      ensures Named(SeededFunctions(t, makeId), ExportShelf(t, shelf).implies[k], shelf.implies[k])
    {
      SeededFunction(t, shelf.implies[k], makeId);
    }
    SlugsBack(SeededFunctions(t, makeId), ExportShelf(t, shelf).implies, shelf.implies);
  }

  lemma ShelfBack(t: Taxonomy, i: nat, index: nat, made: Id, makeId: Pos -> Id)
    requires UniqueSlugs(t) && i < |t.shelves| && Live(t.shelves[i].item) && ImpliesFit(t, t.shelves[i])
    ensures SeedOneShelf(ExportShelf(t, t.shelves[i]), index, made, t.shelves[i].parentId, SeededFunctions(t, makeId))
         == Some(Placed(t.shelves[i], index))
  {
    ImpliesBack(t, i, makeId);
  }

  /** Children are seeded one by one. */
  lemma {:induction false} ChildrenBack(
      children: seq<SeedShelf>, placed: seq<Shelf>, at: nat, id: Id, functions: seq<Item>, makeId: Pos -> Id)
    requires |children| == |placed|
    requires forall j: nat, made :: j < |children| ==>
      SeedOneShelf(children[j], j, made, Some(id), functions) == Some(placed[j])
    ensures SeedChildren(children, at, id, functions, makeId) == Some(placed)
  {
    if children != [] {
      var last := |children| - 1;
      ChildrenBack(children[..last], placed[..last], at, id, functions, makeId);
      assert placed == placed[..last] + [placed[last]];
    }
  }

  /** What seeding a category gives: itself, and its children one by one. */
  ghost predicate SeedsAs(category: SeedCategory, k: nat, family: seq<Shelf>, functions: seq<Item>) {
    && |family| == 1 + |category.children|
    && (forall made :: SeedOneShelf(category.shelf, k, made, None, functions) == Some(family[0]))
    && (forall j: nat, made :: j < |category.children| ==>
          SeedOneShelf(category.children[j], j, made, Some(family[0].item.id), functions) == Some(family[j + 1]))
  }

  /** One more category is seeded with its children. */
  lemma OneMoreCategory(
      categories: seq<SeedCategory>, before: seq<Shelf>, category: Shelf, children: seq<Shelf>, functions: seq<Item>,
      makeId: Pos -> Id)
    requires categories != []
    requires SeedShelves(categories[..|categories| - 1], functions, makeId) == Some(before)
    requires
      var last := |categories| - 1;
      && SeedOneShelf(categories[last].shelf, last, makeId(AtShelf(|before|)), None, functions) == Some(category)
      && SeedChildren(categories[last].children, |before| + 1, category.item.id, functions, makeId) == Some(children)
    ensures SeedShelves(categories, functions, makeId) == Some(before + [category] + children)
  {
  }

  lemma OneFamilyBack(
      categories: seq<SeedCategory>, before: seq<Shelf>, family: seq<Shelf>, functions: seq<Item>, makeId: Pos -> Id)
    requires categories != []
    requires SeedShelves(categories[..|categories| - 1], functions, makeId) == Some(before)
    requires SeedsAs(categories[|categories| - 1], |categories| - 1, family, functions)
    ensures SeedShelves(categories, functions, makeId) == Some(before + family)
  {
    var last := |categories| - 1;
    ChildrenBack(categories[last].children, family[1..], |before| + 1, family[0].item.id, functions, makeId);
    OneMoreCategory(categories, before, family[0], family[1..], functions, makeId);
    JoinedAfter(before, family);
  }

  lemma JoinedAfter<T>(before: seq<T>, run: seq<T>)
    requires run != []
    ensures before + [run[0]] + run[1..] == before + run
  {
    assert [run[0]] + run[1..] == run;
  }

  /** Categories are seeded family by family. */
  lemma {:induction false} ShelvesBack(
      categories: seq<SeedCategory>, families: seq<seq<Shelf>>, functions: seq<Item>, makeId: Pos -> Id)
    requires |categories| == |families|
    requires forall k :: 0 <= k < |categories| ==> SeedsAs(categories[k], k, families[k], functions)
    ensures SeedShelves(categories, functions, makeId) == Some(Flat(families))
  {
    if categories != [] {
      var last := |categories| - 1;
      ShelvesBack(categories[..last], families[..last], functions, makeId);
      OneFamilyBack(categories, Flat(families[..last]), families[last], functions, makeId);
    }
  }

  /** An exported category is seeded as its family. */
  lemma FamilyBack(t: Taxonomy, k: nat, makeId: Pos -> Id)
    requires UniqueSlugs(t) && ShelvesFit(t) && k < |CategoriesOf(t)|
    ensures
      var c := CategoriesOf(t)[k];
      SeedsAs(ExportCategory(t, t.shelves[c]), k, SeededFamily(t, c, k), SeededFunctions(t, makeId))
  {
    var c := CategoriesOf(t)[k];
    LiveUnderAre(t, None);
    assert c in CategoriesOf(t);
    var subs := SubcategoriesOf(t, t.shelves[c].item.id);
    LiveUnderAre(t, Some(t.shelves[c].item.id));
    forall made {
      ShelfBack(t, c, k, made, makeId);
    }
    forall j: nat, made | j < |subs|
      ensures SeedOneShelf(ExportShelf(t, t.shelves[subs[j]]), j, made, Some(t.shelves[c].item.id), SeededFunctions(t, makeId))
           == Some(Placed(t.shelves[subs[j]], j))
    {
      assert subs[j] in subs;
      ShelfBack(t, subs[j], j, made, makeId);
    }
  }

  /** An export's categories are seeded as the families they were. */
  lemma ExportSeedsShelves(t: Taxonomy, makeId: Pos -> Id)
    requires UniqueSlugs(t) && ShelvesFit(t)
    ensures
      SeedShelves(ExportCategories(t, CategoriesOf(t)), SeededFunctions(t, makeId), makeId)
      == Some(Flat(SeededFamilies(t, CategoriesOf(t))))
  {
    var cats := CategoriesOf(t);
    forall k | 0 <= k < |cats|
      ensures SeedsAs(ExportCategories(t, cats)[k], k, SeededFamilies(t, cats)[k], SeededFunctions(t, makeId))
    {
      FamilyBack(t, k, makeId);
      FamiliesAt(t, cats, k);
    }
    ShelvesBack(ExportCategories(t, cats), SeededFamilies(t, cats), SeededFunctions(t, makeId), makeId);
  }

  // ---------------------------------------------------------------------- where each seeded shelf was

  /** Where the seeded shelves were: every live shelf, category by category. */
  function ShelfOrder(t: Taxonomy): (places: seq<nat>)
    ensures InRange(places, |t.shelves|)
  {
    FamiliesInRange(t, CategoriesOf(t));
    FlatInRange(Families(t), |t.shelves|);
    Flat(Families(t))
  }

  lemma FamiliesInRange(t: Taxonomy, cats: seq<nat>)
    requires InRange(cats, |t.shelves|)
    ensures forall k :: 0 <= k < |cats| ==> InRange(FamiliesOf(t, cats)[k], |t.shelves|)
  {
    forall k | 0 <= k < |cats|
      ensures InRange(FamiliesOf(t, cats)[k], |t.shelves|)
    {
      FamiliesAt(t, cats, k);
    }
  }

  lemma FlatInRange(runs: seq<seq<nat>>, n: nat)
    requires forall k :: 0 <= k < |runs| ==> InRange(runs[k], n)
    ensures InRange(Flat(runs), n)
  {
    var flat: seq<nat> := Flat(runs);
    forall x | 0 <= x < |flat|
      ensures flat[x] < n
    {
      var k, j := FlatOf(runs, x);
    }
  }

  function SeededShelves(t: Taxonomy): seq<Shelf> {
    Flat(SeededFamilies(t, CategoriesOf(t)))
  }

  /** Who is in a family: a live category, and then its live subcategories. */
  lemma FamilyAt(t: Taxonomy, k: nat, j: nat)
    requires k < |CategoriesOf(t)| && j < |Family(t, CategoriesOf(t)[k])|
    ensures
      var i := Family(t, CategoriesOf(t)[k])[j];
      && i < |t.shelves| && Live(t.shelves[i].item)
      && SeededFamily(t, CategoriesOf(t)[k], k)[j] == Placed(t.shelves[i], if j == 0 then k else j - 1)
      && (if j == 0 then t.shelves[i].parentId == None && i == CategoriesOf(t)[k]
          else t.shelves[i].parentId == Some(t.shelves[CategoriesOf(t)[k]].item.id))
  {
    var c := CategoriesOf(t)[k];
    LiveUnderAre(t, None);
    assert c in CategoriesOf(t);
    var subs := SubcategoriesOf(t, t.shelves[c].item.id);
    LiveUnderAre(t, Some(t.shelves[c].item.id));
    if j > 0 {
      assert subs[j - 1] in subs;
    }
  }

  /** A seeded shelf is the shelf it was, in a place of its own among its siblings. */
  lemma ShelfOrigin(t: Taxonomy, x: nat) returns (k: nat, j: nat)
    requires x < |SeededShelves(t)| || x < |ShelfOrder(t)|
    ensures x < |SeededShelves(t)| && x < |ShelfOrder(t)|
    ensures k < |CategoriesOf(t)| && j < |Family(t, CategoriesOf(t)[k])|
    ensures x == Offset(Families(t), k) + j
    ensures ShelfOrder(t)[x] == Family(t, CategoriesOf(t)[k])[j]
    ensures SeededShelves(t)[x] == SeededFamily(t, CategoriesOf(t)[k], k)[j]
  {
    SameLengths(t);
    k, j := FlatTogether(Families(t), SeededFamilies(t, CategoriesOf(t)), x);
    FamiliesAt(t, CategoriesOf(t), k);
  }

  /** What a seeded shelf keeps of the shelf it was: all but its order. */
  lemma SeededAs(t: Taxonomy, x: nat)
    requires x < |SeededShelves(t)| || x < |ShelfOrder(t)|
    ensures x < |SeededShelves(t)| && x < |ShelfOrder(t)|
    ensures
      var i := ShelfOrder(t)[x];
      && i < |t.shelves| && Live(t.shelves[i].item)
      && Reordered(t.shelves[i].item, SeededShelves(t)[x].item)
      && SeededShelves(t)[x] == t.shelves[i].(item := SeededShelves(t)[x].item)
  {
    var k, j := ShelfOrigin(t, x);
    FamilyAt(t, k, j);
  }

  lemma PlacesInjective(places: seq<nat>, x: nat, y: nat)
    requires NoRepeats(places) && x < |places| && y < |places| && places[x] == places[y]
    ensures x == y
  {
  }

  lemma CategoryOnce(t: Taxonomy, k: nat, l: nat)
    requires UniqueIds(t) && k < |CategoriesOf(t)| && l < |CategoriesOf(t)|
    requires t.shelves[CategoriesOf(t)[k]].item.id == t.shelves[CategoriesOf(t)[l]].item.id
    ensures k == l
  {
    var a, b := CategoriesOf(t)[k], CategoriesOf(t)[l];
    assert Has(t, AtShelf(a)) && Has(t, AtShelf(b));
    assert At(t, AtShelf(a)).id == At(t, AtShelf(b)).id;
    LiveUnderAre(t, None);
    PlacesInjective(CategoriesOf(t), k, l);
  }

  /** A shelf is in one family, at one place. */
  lemma FamiliesDistinct(t: Taxonomy, k: nat, j: nat, l: nat, m: nat)
    requires UniqueIds(t)
    requires k < |CategoriesOf(t)| && j < |Family(t, CategoriesOf(t)[k])|
    requires l < |CategoriesOf(t)| && m < |Family(t, CategoriesOf(t)[l])|
    requires Family(t, CategoriesOf(t)[k])[j] == Family(t, CategoriesOf(t)[l])[m]
    ensures k == l && j == m
  {
    var cats := CategoriesOf(t);
    FamilyAt(t, k, j);
    FamilyAt(t, l, m);
    FamilyAt(t, k, 0);
    FamilyAt(t, l, 0);
    CategoryOnce(t, k, l);
    LiveUnderAre(t, Some(t.shelves[cats[k]].item.id));
  }

  /** No shelf is seeded twice. */
  lemma ShelfOrderDistinct(t: Taxonomy, x: nat, y: nat)
    requires UniqueIds(t) && x < |ShelfOrder(t)| && y < |ShelfOrder(t)| && ShelfOrder(t)[x] == ShelfOrder(t)[y]
    ensures x == y
  {
    var k, j := ShelfOrigin(t, x);
    var l, m := ShelfOrigin(t, y);
    FamiliesDistinct(t, k, j, l, m);
  }

  /** Every live shelf is in a family. */
  lemma FamiliesCover(t: Taxonomy, i: nat) returns (k: nat, j: nat)
    requires ShelvesFit(t) && i < |t.shelves| && Live(t.shelves[i].item)
    ensures k < |CategoriesOf(t)| && j < |Family(t, CategoriesOf(t)[k])| && Family(t, CategoriesOf(t)[k])[j] == i
  {
    var cats := CategoriesOf(t);
    LiveUnderAre(t, None);
    assert ParentFits(t, t.shelves[i]);
    var c := if t.shelves[i].parentId == None then i
             else Find(t, ShelfSubject, ById(t.shelves[i].parentId.value)).value.i;
    assert c in cats;
    k :| 0 <= k < |cats| && cats[k] == c;
    if c == i {
      j := 0;
    } else {
      var subs := SubcategoriesOf(t, t.shelves[c].item.id);
      LiveUnderAre(t, Some(t.shelves[c].item.id));
      assert i in subs;
      var s :| 0 <= s < |subs| && subs[s] == i;
      j := s + 1;
    }
  }

  /** Every live shelf is seeded. */
  lemma ShelfOrderCovers(t: Taxonomy, i: nat) returns (x: nat)
    requires ShelvesFit(t) && i < |t.shelves| && Live(t.shelves[i].item)
    ensures x < |ShelfOrder(t)| && ShelfOrder(t)[x] == i
  {
    var k, j := FamiliesCover(t, i);
    FamiliesAt(t, CategoriesOf(t), k);
    FlatElement(Families(t), k, j);
    x := Offset(Families(t), k) + j;
  }

  // ---------------------------------------------------------------------- the features

  /** The live slugs are live shelves'. */
  lemma {:induction false} LiveSlugsLive(t: Taxonomy, ids: seq<Id>, slug: string)
    requires slug in LiveSlugs(t, ids)
    ensures exists i :: 0 <= i < |t.shelves| && Live(t.shelves[i].item) && t.shelves[i].item.slug == slug
    decreases |ids|
  {
    ResolveInLive(t, ShelfSubject, ids[0], |t.migrations| + 1);
    match Resolve(t, ShelfSubject, ids[0])
    case None => LiveSlugsLive(t, ids[1..], slug);
    case Some(live) =>
      var p := Find(t, ShelfSubject, ById(live)).value;
      if slug != At(t, p).slug {
        LiveSlugsLive(t, ids[1..], slug);
      } else {
        assert Live(t.shelves[p.i].item);
      }
  }

  predicate SlugIn(items: seq<Item>, slug: string) {
    exists i :: 0 <= i < |items| && items[i].slug == slug
  }

  lemma {:induction false} SlugsFound(items: seq<Item>, slugs: seq<string>)
    requires forall k :: 0 <= k < |slugs| ==> SlugIn(items, slugs[k])
    ensures IdsOfSlugs(items, slugs).Some?
    ensures forall k :: 0 <= k < |slugs| ==> Named(items, slugs[k], IdsOfSlugs(items, slugs).value[k])
    decreases |slugs|
  {
    if slugs != [] {
      SlugsFound(items, slugs[1..]);
      var i :| 0 <= i < |items| && items[i].slug == slugs[0];
      assert Answers(items[i], BySlug(slugs[0]));
      var found := FirstFrom(items, BySlug(slugs[0]), 0).value;
      assert Named(items, slugs[0], items[found].id);
    }
  }

  /** The shelves an exported feature lists are all seeded. */
  lemma FeatureShelvesFound(t: Taxonomy, feature: Feature)
    requires UniqueIds(t) && ShelvesFit(t)
    ensures
      var slugs := ExportFeature(t, feature).shelves;
      var items := ShelfItems(SeededShelves(t));
      && IdsOfSlugs(items, slugs).Some?
      && forall k :: 0 <= k < |slugs| ==> Named(items, slugs[k], IdsOfSlugs(items, slugs).value[k])
  {
    var slugs := ExportFeature(t, feature).shelves;
    var items := ShelfItems(SeededShelves(t));
    forall k | 0 <= k < |slugs|
      ensures SlugIn(items, slugs[k])
    {
      assert slugs[k] in slugs;
      LiveSlugsLive(t, feature.shelves, slugs[k]);
      var i :| 0 <= i < |t.shelves| && Live(t.shelves[i].item) && t.shelves[i].item.slug == slugs[k];
      var x := ShelfOrderCovers(t, i);
      SeededAs(t, x);
      assert items[x].slug == slugs[k];
    }
    SlugsFound(items, slugs);
  }

  // ---------------------------------------------------------------------- what an export seeds

  function FeatureOrder(t: Taxonomy): (places: seq<nat>)
    ensures InRange(places, |t.features|)
  {
    LiveInOrder(FeatureItems(t.features))
  }

  /** `u` is what the export of `t` is seeded as, before it is found usable. */
  ghost predicate Seeded(t: Taxonomy, u: Taxonomy, makeId: Pos -> Id) {
    && u.version == 1 && u.migrations == [] && u.scope == t.scope
    && u.functions == SeededFunctions(t, makeId)
    && u.shelves == SeededShelves(t)
    && |u.features| == |FeatureOrder(t)|
    && forall k :: 0 <= k < |u.features| ==>
         SeedOneFeature(ExportFeature(t, t.features[FeatureOrder(t)[k]]), k, ShelfItems(u.shelves), makeId) == Some(u.features[k])
  }

  lemma {:induction false} FeaturesSeed(features: seq<SeedFeature>, shelves: seq<Item>, makeId: Pos -> Id)
    requires forall k :: 0 <= k < |features| ==> IdsOfSlugs(shelves, features[k].shelves).Some?
    ensures SeedFeatures(features, shelves, makeId).Some?
  {
    if features != [] {
      FeaturesSeed(features[..|features| - 1], shelves, makeId);
    }
  }

  /** Seeding an export finds every slug it names. */
  lemma ExportSeeds(t: Taxonomy, makeId: Pos -> Id) returns (u: Taxonomy)
    requires Valid(t)
    ensures Seeded(t, u, makeId)
    ensures SeedTaxonomy(ExportTaxonomy(t), makeId) == if Valid(u) then Some(u) else None
  {
    ExportSeedsShelves(t, makeId);
    var shelves, features := ShelfItems(SeededShelves(t)), ExportFeatures(t);
    forall k | 0 <= k < |features|
      ensures IdsOfSlugs(shelves, features[k].shelves).Some?
    {
      FeatureShelvesFound(t, t.features[FeatureOrder(t)[k]]);
    }
    FeaturesSeed(features, shelves, makeId);
    u := Taxonomy(1, t.scope, SeededShelves(t), SeededFunctions(t, makeId),
                  SeedFeatures(features, shelves, makeId).value, []);
  }

  /** Where a seeded item was. */
  function Origin(t: Taxonomy, p: Pos): Pos {
    match p
    case AtShelf(x) => AtShelf(if x < |ShelfOrder(t)| then ShelfOrder(t)[x] else 0)
    case AtFunction(x) => AtFunction(if x < |LiveInOrder(t.functions)| then LiveInOrder(t.functions)[x] else 0)
    case AtFeature(x) => AtFeature(FeatureAt(t, x))
    case AtValue(x, y) => AtValue(FeatureAt(t, x), ValueAt(t, FeatureAt(t, x), y))
  }

  function FeatureAt(t: Taxonomy, x: nat): nat {
    if x < |FeatureOrder(t)| then FeatureOrder(t)[x] else 0
  }

  function ValueAt(t: Taxonomy, i: nat, y: nat): nat {
    if i < |t.features| && y < |LiveInOrder(t.features[i].values)| then LiveInOrder(t.features[i].values)[y] else 0
  }

  lemma SeededFeatureAs(t: Taxonomy, u: Taxonomy, makeId: Pos -> Id, x: nat)
    requires Seeded(t, u, makeId) && x < |u.features|
    ensures
      var i := FeatureAt(t, x);
      && i < |t.features| && Live(t.features[i].item)
      && u.features[x].item == t.features[i].item.(sortOrder := x + 1)
      && u.features[x].cardinality == t.features[i].cardinality
      && u.features[x].values == SeedItems(ExportItems(t.features[i].values), (j: nat) => makeId(AtValue(x, j)))
      && |u.features[x].values| == |LiveInOrder(t.features[i].values)|
      && (forall y :: 0 <= y < |u.features[x].values| ==>
            var j := LiveInOrder(t.features[i].values)[y];
            && j < |t.features[i].values| && Live(t.features[i].values[j])
            && u.features[x].values[y] == t.features[i].values[j].(sortOrder := y + 1))
  {
    var i := FeatureOrder(t)[x];
    LiveInOrderAre(FeatureItems(t.features));
    LiveInOrderAre(t.features[i].values);
    assert i in FeatureOrder(t);
    assert SeedOneFeature(ExportFeature(t, t.features[i]), x, ShelfItems(u.shelves), makeId) == Some(u.features[x]);
    ItemsBack(t.features[i].values, (j: nat) => makeId(AtValue(x, j)));
    forall y | 0 <= y < |u.features[x].values|
      ensures Live(t.features[i].values[LiveInOrder(t.features[i].values)[y]])
    {
      assert LiveInOrder(t.features[i].values)[y] in LiveInOrder(t.features[i].values);
    }
  }

  /** A seeded item is the live item it was, but for its order. */
  lemma OriginOf(t: Taxonomy, u: Taxonomy, makeId: Pos -> Id, p: Pos)
    requires Seeded(t, u, makeId) && Has(u, p)
    ensures Has(t, Origin(t, p)) && KindOf(Origin(t, p)) == KindOf(p)
    ensures Live(At(t, Origin(t, p))) && Live(At(u, p)) && Reordered(At(t, Origin(t, p)), At(u, p))
  {
    match p
    case AtShelf(x) => SeededAs(t, x);
    case AtFunction(x) => FunctionOrigin(t, u, makeId, x);
    case AtFeature(x) => SeededFeatureAs(t, u, makeId, x);
    case AtValue(x, y) => SeededFeatureAs(t, u, makeId, x);
  }

  lemma FunctionOrigin(t: Taxonomy, u: Taxonomy, makeId: Pos -> Id, x: nat)
    requires Seeded(t, u, makeId) && Has(u, AtFunction(x))
    ensures
      var p := Origin(t, AtFunction(x));
      Has(t, p) && p.AtFunction? && Live(At(t, p)) && Live(At(u, AtFunction(x))) && Reordered(At(t, p), At(u, AtFunction(x)))
  {
    ItemsBack(t.functions, (k: nat) => makeId(AtFunction(k)));
    LiveInOrderAre(t.functions);
    assert LiveInOrder(t.functions)[x] in LiveInOrder(t.functions);
  }

  /** Two seeded items were never one. */
  lemma OriginInjective(t: Taxonomy, u: Taxonomy, makeId: Pos -> Id, p: Pos, q: Pos)
    requires Seeded(t, u, makeId) && UniqueIds(t) && Has(u, p) && Has(u, q) && Origin(t, p) == Origin(t, q)
    ensures p == q
  {
    assert KindOf(Origin(t, p)) == KindOf(p) && KindOf(Origin(t, q)) == KindOf(q);
    match p {
      case AtShelf(x) =>
        SeededAs(t, x);
        SeededAs(t, q.i);
        ShelfOrderDistinct(t, x, q.i);
      case AtFunction(x) =>
        ItemsBack(t.functions, (k: nat) => makeId(AtFunction(k)));
        LiveInOrderAre(t.functions);
        PlacesInjective(LiveInOrder(t.functions), x, q.i);
      case AtFeature(x) =>
        LiveInOrderAre(FeatureItems(t.features));
        PlacesInjective(FeatureOrder(t), x, q.i);
      case AtValue(x, y) =>
        LiveInOrderAre(FeatureItems(t.features));
        PlacesInjective(FeatureOrder(t), x, q.i);
        SeededFeatureAs(t, u, makeId, x);
        LiveInOrderAre(t.features[FeatureAt(t, x)].values);
        PlacesInjective(LiveInOrder(t.features[FeatureAt(t, x)].values), y, q.j);
    }
  }

  lemma SeededIds(t: Taxonomy, u: Taxonomy, makeId: Pos -> Id)
    requires UniqueIds(t) && Seeded(t, u, makeId)
    ensures UniqueIds(u)
  {
    forall p, q | Has(u, p) && Has(u, q) && p != q
      ensures At(u, p).id != At(u, q).id
    {
      OriginOf(t, u, makeId, p);
      OriginOf(t, u, makeId, q);
      if Origin(t, p) == Origin(t, q) {
        OriginInjective(t, u, makeId, p, q);
      }
    }
  }

  lemma SeededSlugs(t: Taxonomy, u: Taxonomy, makeId: Pos -> Id)
    requires UniqueIds(t) && UniqueSlugs(t) && Seeded(t, u, makeId)
    ensures UniqueSlugs(u)
  {
    forall p, q | Has(u, p) && Has(u, q) && p != q && KindOf(p) == KindOf(q)
      ensures At(u, p).slug != At(u, q).slug
    {
      OriginOf(t, u, makeId, p);
      OriginOf(t, u, makeId, q);
      if Origin(t, p) == Origin(t, q) {
        OriginInjective(t, u, makeId, p, q);
      }
    }
  }

  lemma SeededNames(t: Taxonomy, u: Taxonomy, makeId: Pos -> Id)
    requires Valid(t) && Seeded(t, u, makeId)
    ensures UniqueNames(u)
  {
    forall p, q | Has(u, p) && Has(u, q) && p != q && Siblings(u, p, q)
      ensures At(u, p).name.key != At(u, q).name.key
    {
      OriginOf(t, u, makeId, p);
      OriginOf(t, u, makeId, q);
      if Origin(t, p) == Origin(t, q) {
        OriginInjective(t, u, makeId, p, q);
      }
      if p.AtShelf? {
        SeededAs(t, p.i);
        SeededAs(t, q.i);
      }
      assert Siblings(t, Origin(t, p), Origin(t, q));
    }
  }

  /** A live shelf of the taxonomy is seeded, and found by its ID. */
  lemma SeededShelfFound(t: Taxonomy, u: Taxonomy, makeId: Pos -> Id, i: nat)
    requires Valid(t) && Seeded(t, u, makeId) && UniqueIds(u) && i < |t.shelves| && Live(t.shelves[i].item)
    ensures
      var found := Find(u, ShelfSubject, ById(t.shelves[i].item.id));
      && found.Some?
      && u.shelves[found.value.i].parentId == t.shelves[i].parentId
      && Live(u.shelves[found.value.i].item)
  {
    var x := ShelfOrderCovers(t, i);
    SeededAs(t, x);
    assert Has(u, AtShelf(x));
    FindAt(u, AtShelf(x));
  }

  lemma SeededParent(t: Taxonomy, u: Taxonomy, makeId: Pos -> Id, x: nat)
    requires Valid(t) && Seeded(t, u, makeId) && UniqueIds(u) && x < |u.shelves|
    ensures ParentFits(u, u.shelves[x])
    ensures u.shelves[x].item.slug != NONE_SHELF && Live(u.shelves[x].item)
  {
    SeededAs(t, x);
    var shelf := t.shelves[ShelfOrder(t)[x]];
    assert ParentFits(t, shelf);
    if shelf.parentId.Some? {
      SeededShelfFound(t, u, makeId, Find(t, ShelfSubject, ById(shelf.parentId.value)).value.i);
    }
  }

  lemma SeededImplies(t: Taxonomy, u: Taxonomy, makeId: Pos -> Id, x: nat)
    requires Valid(t) && Seeded(t, u, makeId) && UniqueIds(u) && x < |u.shelves|
    ensures ImpliesFit(u, u.shelves[x])
  {
    SeededAs(t, x);
    var shelf := t.shelves[ShelfOrder(t)[x]];
    assert ImpliesFit(t, shelf);
    forall k | 0 <= k < |shelf.implies|
      ensures Find(u, FunctionSubject, ById(shelf.implies[k])).Some?
      ensures Live(At(u, Find(u, FunctionSubject, ById(shelf.implies[k])).value))
    {
      SeededFunction(t, shelf.implies[k], makeId);
      var a :| 0 <= a < |u.functions| && u.functions[a].id == shelf.implies[k];
      assert Has(u, AtFunction(a));
      FindAt(u, AtFunction(a));
      OriginOf(t, u, makeId, AtFunction(a));
    }
  }

  function PlacesSet(places: seq<nat>): set<nat> {
    set x | x in places
  }

  lemma {:induction false} DistinctCount(places: seq<nat>)
    requires NoRepeats(places)
    ensures |PlacesSet(places)| == |places|
  {
    if places != [] {
      var front, last := places[..|places| - 1], places[|places| - 1];
      DistinctCount(front);
      assert places == front + [last];
      assert PlacesSet(places) == PlacesSet(front) + {last};
    }
  }

  lemma {:induction false} LiveShelvesSet(shelves: seq<Shelf>)
    ensures LiveShelves(shelves) == |set i | 0 <= i < |shelves| && Live(shelves[i].item)|
  {
    if shelves != [] {
      var front, last := shelves[..|shelves| - 1], |shelves| - 1;
      LiveShelvesSet(front);
      var before := set i | 0 <= i < |front| && Live(front[i].item);
      var all := set i | 0 <= i < |shelves| && Live(shelves[i].item);
      assert all == before + (if Live(shelves[last].item) then {last} else {});
    }
  }

  /** As many shelves are seeded as were live. */
  lemma SeededCount(t: Taxonomy)
    requires UniqueIds(t) && ShelvesFit(t)
    ensures LiveShelves(SeededShelves(t)) == LiveShelves(t.shelves)
  {
    var u, order := SeededShelves(t), ShelfOrder(t);
    var live := set i | 0 <= i < |t.shelves| && Live(t.shelves[i].item);
    LiveShelvesSet(t.shelves);
    SameLength(t);
    forall x, y | 0 <= x < y < |order|
      ensures order[x] != order[y]
    {
      if order[x] == order[y] {
        ShelfOrderDistinct(t, x, y);
      }
    }
    DistinctCount(order);
    assert PlacesSet(order) == live by {
      forall i | i in live
        ensures i in order
      {
        var x := ShelfOrderCovers(t, i);
      }
      forall x | 0 <= x < |order|
        ensures order[x] in live
      {
        SeededAs(t, x);
      }
    }
    forall x | 0 <= x < |u|
      ensures Live(u[x].item)
    {
      SeededAs(t, x);
    }
    AllLive(u);
  }

  lemma SameLength(t: Taxonomy)
    ensures |ShelfOrder(t)| == |SeededShelves(t)|
  {
    var families, seeded := Families(t), SeededFamilies(t, CategoriesOf(t));
    SameLengths(t);
    SameOffsets(families, seeded, |families|);
    FlatLength(families);
    FlatLength(seeded);
  }

  lemma {:induction false} AllLive(shelves: seq<Shelf>)
    requires forall x :: 0 <= x < |shelves| ==> Live(shelves[x].item)
    ensures LiveShelves(shelves) == |shelves|
  {
    if shelves != [] {
      AllLive(shelves[..|shelves| - 1]);
    }
  }

  lemma SeededFeatureFits(t: Taxonomy, u: Taxonomy, makeId: Pos -> Id, x: nat)
    requires Valid(t) && Seeded(t, u, makeId) && UniqueIds(u) && x < |u.features|
    ensures FeatureFits(u, u.features[x])
  {
    SeededFeatureLives(t, u, makeId, x);
    forall k | 0 <= k < |u.features[x].shelves|
      ensures Find(u, ShelfSubject, ById(u.features[x].shelves[k])).Some?
    {
      SeededFeatureShelf(t, u, makeId, x, k);
    }
  }

  lemma SeededFeatureLives(t: Taxonomy, u: Taxonomy, makeId: Pos -> Id, x: nat)
    requires Valid(t) && Seeded(t, u, makeId) && x < |u.features|
    ensures LiveValues(u.features[x].values) > 0
  {
    var i := FeatureAt(t, x);
    SeededFeatureAs(t, u, makeId, x);
    assert FeatureFits(t, t.features[i]);
    var j :| 0 <= j < |t.features[i].values| && Live(t.features[i].values[j]);
    LiveInOrderAre(t.features[i].values);
    assert j in LiveInOrder(t.features[i].values);
    assert Live(u.features[x].values[0]);
  }

  lemma SeededFeatureShelf(t: Taxonomy, u: Taxonomy, makeId: Pos -> Id, x: nat, k: nat)
    requires Valid(t) && Seeded(t, u, makeId) && UniqueIds(u) && x < |u.features| && k < |u.features[x].shelves|
    ensures Find(u, ShelfSubject, ById(u.features[x].shelves[k])).Some?
  {
    var i := FeatureAt(t, x);
    SeededFeatureAs(t, u, makeId, x);
    FeatureShelvesFound(t, t.features[i]);
    var slug := ExportFeature(t, t.features[i]).shelves[k];
    assert Named(ShelfItems(u.shelves), slug, u.features[x].shelves[k]);
    var y :| 0 <= y < |u.shelves| && u.shelves[y].item.id == u.features[x].shelves[k];
    assert Has(u, AtShelf(y));
  }

  /** What an export seeds is usable. */
  lemma SeededValid(t: Taxonomy, u: Taxonomy, makeId: Pos -> Id)
    requires Valid(t) && Seeded(t, u, makeId)
    ensures Valid(u)
  {
    SeededIds(t, u, makeId);
    SeededSlugs(t, u, makeId);
    SeededNames(t, u, makeId);
    SeededCount(t);
    forall x | 0 <= x < |u.shelves|
      ensures ParentFits(u, u.shelves[x]) && ImpliesFit(u, u.shelves[x]) && u.shelves[x].item.slug != NONE_SHELF
    {
      SeededParent(t, u, makeId, x);
      SeededImplies(t, u, makeId, x);
    }
    forall x | 0 <= x < |u.features|
      ensures FeatureFits(u, u.features[x])
    {
      SeededFeatureFits(t, u, makeId, x);
    }
    forall p | Has(u, p)
      ensures Live(At(u, p))
    {
      OriginOf(t, u, makeId, p);
    }
  }

  // ---------------------------------------------------------------------- exported again

  /** Where each category is seeded. */
  function Starts(t: Taxonomy): (places: seq<nat>)
    ensures |places| == |CategoriesOf(t)|
    ensures forall k :: 0 <= k < |places| ==> places[k] == Offset(Families(t), k)
  {
    seq(|CategoriesOf(t)|, k requires 0 <= k < |CategoriesOf(t)| => Offset(Families(t), k))
  }

  function Run(base: nat, n: nat): (places: seq<nat>)
    ensures |places| == n && forall j :: 0 <= j < n ==> places[j] == base + j
  {
    seq(n, (j: nat) => base + j)
  }

  /** Where each subcategory of a category is seeded. */
  function SubStarts(t: Taxonomy, k: nat): (places: seq<nat>)
    requires k < |CategoriesOf(t)|
  {
    Run(Offset(Families(t), k) + 1, |Family(t, CategoriesOf(t)[k])| - 1)
  }

  /** What is seeded at a family's place. */
  lemma SeededMember(t: Taxonomy, k: nat, j: nat)
    requires k < |CategoriesOf(t)| && j < |Family(t, CategoriesOf(t)[k])|
    ensures Offset(Families(t), k) + j < |SeededShelves(t)| == |ShelfOrder(t)|
    ensures ShelfOrder(t)[Offset(Families(t), k) + j] == Family(t, CategoriesOf(t)[k])[j]
    ensures SeededShelves(t)[Offset(Families(t), k) + j] == SeededFamily(t, CategoriesOf(t)[k], k)[j]
  {
    FamiliesAt(t, CategoriesOf(t), k);
    SameLengths(t);
    SeededRuns(t, Families(t), SeededFamilies(t, CategoriesOf(t)), k, j);
  }

  lemma SeededRuns(t: Taxonomy, families: seq<seq<nat>>, seeded: seq<seq<Shelf>>, k: nat, j: nat)
    requires families == Families(t) && seeded == SeededFamilies(t, CategoriesOf(t)) && |families| == |seeded|
    requires forall i :: 0 <= i < |families| ==> |families[i]| == |seeded[i]|
    requires k < |families| && j < |families[k]|
    ensures Offset(families, k) + j < |SeededShelves(t)| == |ShelfOrder(t)|
    ensures ShelfOrder(t)[Offset(families, k) + j] == families[k][j]
    ensures SeededShelves(t)[Offset(families, k) + j] == seeded[k][j]
  {
    FlatElements(families, seeded, k, j);
  }

  lemma {:induction false} OffsetsRise<T>(runs: seq<seq<T>>, k: nat, l: nat)
    requires k < l <= |runs| && forall i :: 0 <= i < |runs| ==> runs[i] != []
    ensures Offset(runs, k) < Offset(runs, l)
  {
    if k < l - 1 {
      OffsetsRise(runs, k, l - 1);
    }
  }

  lemma StartsRise(t: Taxonomy)
    ensures Rising(Starts(t))
  {
    SameLengths(t);
    forall k, l | 0 <= k < l < |Starts(t)|
      ensures Starts(t)[k] < Starts(t)[l]
    {
      OffsetsRise(Families(t), k, l);
    }
  }

  /** Each family starts with a seeded category, in order. */
  lemma StartsAt(t: Taxonomy, k: nat)
    requires k < |Starts(t)|
    ensures
      var x := Starts(t)[k];
      && x < |SeededShelves(t)|
      && SeededShelves(t)[x].parentId == None
      && Live(SeededShelves(t)[x].item)
      && SeededShelves(t)[x].item.sortOrder == k + 1
      && x < |ShelfOrder(t)|
      && ShelfOrder(t)[x] == CategoriesOf(t)[k]
  {
    SeededMember(t, k, 0);
    FamilyAt(t, k, 0);
  }

  lemma StartFound(t: Taxonomy, x: nat)
    requires x < |SeededShelves(t)| && SeededShelves(t)[x].parentId == None
    ensures x in Starts(t)
  {
    var k, j := ShelfOrigin(t, x);
    FamilyAt(t, k, j);
    assert Starts(t)[k] == x;
  }

  /** The seeded categories are where their families start. */
  lemma CategoriesAgain(t: Taxonomy, u: Taxonomy, makeId: Pos -> Id)
    requires Seeded(t, u, makeId)
    ensures CategoriesOf(u) == Starts(t)
  {
    var starts := Starts(t);
    StartsRise(t);
    forall k | 0 <= k < |starts|
      ensures IsUnder(u, None, starts[k]) && u.shelves[starts[k]].item.sortOrder == k + 1
    {
      StartsAt(t, k);
    }
    forall x: nat | IsUnder(u, None, x)
      ensures x in starts
    {
      StartFound(t, x);
    }
    LiveUnderIs(u, None, starts);
  }

  /** A shelf seeded under a category follows it. */
  lemma SubFollows(t: Taxonomy, k: nat, x: nat)
    requires UniqueIds(t) && k < |CategoriesOf(t)| && x < |SeededShelves(t)|
    requires SeededShelves(t)[x].parentId == Some(t.shelves[CategoriesOf(t)[k]].item.id)
    ensures x in SubStarts(t, k)
  {
    var l, j := ShelfOrigin(t, x);
    FamilyAt(t, l, j);
    CategoryOnce(t, k, l);
    assert SubStarts(t, k)[j - 1] == x;
  }

  /** What follows a seeded category is its subcategories, in order. */
  lemma SubStartsAt(t: Taxonomy, k: nat, j: nat)
    requires k < |CategoriesOf(t)| && j < |SubStarts(t, k)|
    ensures
      var x := SubStarts(t, k)[j];
      && x < |SeededShelves(t)|
      && SeededShelves(t)[x].parentId == Some(t.shelves[CategoriesOf(t)[k]].item.id)
      && Live(SeededShelves(t)[x].item)
      && SeededShelves(t)[x].item.sortOrder == j + 1
      && x < |ShelfOrder(t)|
      && ShelfOrder(t)[x] == SubcategoriesOf(t, t.shelves[CategoriesOf(t)[k]].item.id)[j]
  {
    SeededMember(t, k, j + 1);
    FamilyAt(t, k, j + 1);
  }

  /** A seeded category's subcategories follow it. */
  lemma SubcategoriesAgain(t: Taxonomy, u: Taxonomy, makeId: Pos -> Id, k: nat)
    requires UniqueIds(t) && Seeded(t, u, makeId) && k < |CategoriesOf(t)|
    ensures SubcategoriesOf(u, t.shelves[CategoriesOf(t)[k]].item.id) == SubStarts(t, k)
  {
    var id := t.shelves[CategoriesOf(t)[k]].item.id;
    var starts := SubStarts(t, k);
    forall j | 0 <= j < |starts|
      ensures IsUnder(u, Some(id), starts[j]) && u.shelves[starts[j]].item.sortOrder == j + 1
    {
      SubStartsAt(t, k, j);
    }
    forall x: nat | IsUnder(u, Some(id), x)
      ensures x in starts
    {
      SubFollows(t, k, x);
    }
    LiveUnderIs(u, Some(id), starts);
  }

  /** A seeded shelf is exported as it was. */
  lemma ShelfAgain(t: Taxonomy, u: Taxonomy, makeId: Pos -> Id, x: nat)
    requires Valid(t) && Seeded(t, u, makeId) && UniqueIds(u) && x < |u.shelves|
    ensures x < |ShelfOrder(t)| && ExportShelf(u, u.shelves[x]) == ExportShelf(t, t.shelves[ShelfOrder(t)[x]])
  {
    SeededAs(t, x);
    var shelf := t.shelves[ShelfOrder(t)[x]];
    assert ImpliesFit(t, shelf);
    forall k | 0 <= k < |shelf.implies|
      ensures FunctionSlug(u, shelf.implies[k]) == FunctionSlug(t, shelf.implies[k])
    {
      SeededFunction(t, shelf.implies[k], makeId);
      var a :| 0 <= a < |u.functions| && u.functions[a].id == shelf.implies[k]
                && u.functions[a].slug == FunctionSlug(t, shelf.implies[k]);
      assert Has(u, AtFunction(a));
      FindAt(u, AtFunction(a));
    }
  }

  lemma SubcategoryAgain(t: Taxonomy, u: Taxonomy, makeId: Pos -> Id, k: nat, j: nat)
    requires Valid(t) && Seeded(t, u, makeId) && UniqueIds(u) && k < |CategoriesOf(t)| && j < |SubStarts(t, k)|
    ensures SubStarts(t, k)[j] < |u.shelves|
    ensures
      var subs := SubcategoriesOf(t, t.shelves[CategoriesOf(t)[k]].item.id);
      ExportShelf(u, u.shelves[SubStarts(t, k)[j]]) == ExportShelf(t, t.shelves[subs[j]])
  {
    SubStartsAt(t, k, j);
    ShelfAgain(t, u, makeId, SubStarts(t, k)[j]);
  }

  /** A seeded category is exported as it was. */
  lemma CategoryAgain(t: Taxonomy, u: Taxonomy, makeId: Pos -> Id, k: nat)
    requires Valid(t) && Seeded(t, u, makeId) && UniqueIds(u) && k < |CategoriesOf(t)|
    ensures Starts(t)[k] < |u.shelves|
    ensures ExportCategory(u, u.shelves[Starts(t)[k]]) == ExportCategory(t, t.shelves[CategoriesOf(t)[k]])
  {
    var category := t.shelves[CategoriesOf(t)[k]];
    var x := Starts(t)[k];
    StartsAt(t, k);
    ShelfAgain(t, u, makeId, x);
    SubcategoriesAgain(t, u, makeId, k);
    var before, after := ExportCategory(t, category).children, ExportCategory(u, u.shelves[x]).children;
    forall j | 0 <= j < |before|
      ensures after[j] == before[j]
    {
      SubcategoryAgain(t, u, makeId, k, j);
    }
  }

  /** Shelves that are live stand for themselves. */
  lemma {:induction false} LiveSlugsAgain(u: Taxonomy, ids: seq<Id>, slugs: seq<string>)
    requires UniqueIds(u) && |ids| == |slugs|
    requires forall x :: 0 <= x < |u.shelves| ==> Live(u.shelves[x].item)
    requires forall k :: 0 <= k < |ids| ==> Named(ShelfItems(u.shelves), slugs[k], ids[k])
    ensures LiveSlugs(u, ids) == slugs
    decreases |ids|
  {
    if ids != [] {
      LiveSlugsAgain(u, ids[1..], slugs[1..]);
      var x :| 0 <= x < |u.shelves| && u.shelves[x].item.id == ids[0] && u.shelves[x].item.slug == slugs[0];
      assert Has(u, AtShelf(x));
      FindAt(u, AtShelf(x));
      assert Resolve(u, ShelfSubject, ids[0]) == Some(ids[0]);
      assert slugs == [slugs[0]] + slugs[1..];
    }
  }

  /** A seeded feature is exported as it was. */
  lemma FeatureAgain(t: Taxonomy, u: Taxonomy, makeId: Pos -> Id, x: nat)
    requires Valid(t) && Seeded(t, u, makeId) && UniqueIds(u) && x < |u.features|
    ensures FeatureAt(t, x) < |t.features|
    ensures ExportFeature(u, u.features[x]) == ExportFeature(t, t.features[FeatureAt(t, x)])
  {
    SeededFeatureAs(t, u, makeId, x);
    var feature := t.features[FeatureAt(t, x)];
    var slugs := ExportFeature(t, feature).shelves;
    FeatureShelvesFound(t, feature);
    forall y | 0 <= y < |u.shelves|
      ensures Live(u.shelves[y].item)
    {
      SeededAs(t, y);
    }
    LiveSlugsAgain(u, u.features[x].shelves, slugs);
    UniqueOfDistinct(slugs);
    ItemsBack(feature.values, (j: nat) => makeId(AtValue(x, j)));
  }

  lemma FeatureInOrder(t: Taxonomy, u: Taxonomy, makeId: Pos -> Id, x: nat)
    requires Valid(t) && Seeded(t, u, makeId) && UniqueIds(u) && x < |u.features|
    ensures x < |FeatureOrder(t)| == |u.features|
    ensures Live(u.features[x].item) && u.features[x].item.sortOrder == x + 1
    ensures ExportFeature(u, u.features[x]) == ExportFeature(t, t.features[FeatureOrder(t)[x]])
  {
    SeededFeatureAs(t, u, makeId, x);
    FeatureAgain(t, u, makeId, x);
  }

  lemma FeaturesAgain(t: Taxonomy, u: Taxonomy, makeId: Pos -> Id)
    requires Valid(t) && Seeded(t, u, makeId) && UniqueIds(u)
    ensures ExportFeatures(u) == ExportFeatures(t)
  {
    forall x | 0 <= x < |u.features|
      ensures x < |FeatureOrder(t)| == |u.features|
      ensures Live(u.features[x].item) && u.features[x].item.sortOrder == x + 1
      ensures ExportFeature(u, u.features[x]) == ExportFeature(t, t.features[FeatureOrder(t)[x]])
    {
      FeatureInOrder(t, u, makeId, x);
    }
    RisingLiveOrder(FeatureItems(u.features));
    FeaturesExported(t, u);
  }

  lemma FeaturesExported(t: Taxonomy, u: Taxonomy)
    requires LiveInOrder(FeatureItems(u.features)) == Upto(|u.features|) && |FeatureOrder(t)| == |u.features|
    requires forall x :: 0 <= x < |u.features| ==>
      ExportFeature(u, u.features[x]) == ExportFeature(t, t.features[FeatureOrder(t)[x]])
    ensures ExportFeatures(u) == ExportFeatures(t)
  {
    var before, after := ExportFeatures(t), ExportFeatures(u);
    forall x | 0 <= x < |u.features|
      ensures after[x] == before[x]
    {
      assert Upto(|u.features|)[x] == x;
    }
  }

  /**
   * For every usable taxonomy, seeding its export succeeds, whatever `makeId` would make, and
   * exporting what it seeds gives the identical export.
   */
  lemma ExportSeedExport(t: Taxonomy, makeId: Pos -> Id)
    requires Valid(t)
    ensures SeedTaxonomy(ExportTaxonomy(t), makeId).Some?
    ensures ExportTaxonomy(SeedTaxonomy(ExportTaxonomy(t), makeId).value) == ExportTaxonomy(t)
  {
    var u := ExportSeeds(t, makeId);
    SeededValid(t, u, makeId);
    ItemsBack(t.functions, (k: nat) => makeId(AtFunction(k)));
    CategoriesAgain(t, u, makeId);
    forall k | 0 <= k < |CategoriesOf(t)|
      ensures Starts(t)[k] < |u.shelves|
      ensures ExportCategory(u, u.shelves[Starts(t)[k]]) == ExportCategory(t, t.shelves[CategoriesOf(t)[k]])
    {
      CategoryAgain(t, u, makeId, k);
    }
    assert ExportCategories(u, CategoriesOf(u)) == ExportCategories(t, CategoriesOf(t));
    FeaturesAgain(t, u, makeId);
  }
}
