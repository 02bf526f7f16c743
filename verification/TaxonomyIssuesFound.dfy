/**
 `taxonomyIssues` (platform/core/src/taxonomy.ts:132-331): the checks the source runs over a taxonomy's
 lists find nothing exactly when the taxonomy is valid.
 */
module TaxonomyIssuesFound {
  import opened Basics
  import opened Taxonomies

  /** What is wrong, and where. */
  datatype Issue =
    | SameId(index: nat) | SameSlug(index: nat) | SameName(index: nat)
    | NoShelf | TooManyShelves | ShelfIssue(index: nat) | FeatureIssue(index: nat) | StampIssue(p: Pos)
    | MigrationIssue(index: nat) | OrderIssue(index: nat) | SaidIssue(p: Pos)

  // ---------------------------------------------------------------------- every place, in order

  function ValuePlaces(features: seq<Feature>): (places: seq<Pos>)
  {
    if features == [] then []
    else
      var i := |features| - 1;
      ValuePlaces(features[..i]) + seq(|features[i].values|, (j: nat) => AtValue(i, j))
  }

  function Places(t: Taxonomy): seq<Pos> {
    seq(|t.shelves|, (i: nat) => AtShelf(i)) + seq(|t.functions|, (i: nat) => AtFunction(i))
    + seq(|t.features|, (i: nat) => AtFeature(i)) + ValuePlaces(t.features)
  }

  lemma {:induction false} ValuePlacesAre(features: seq<Feature>)
    ensures forall p :: p in ValuePlaces(features) <==> p.AtValue? && p.i < |features| && p.j < |features[p.i].values|
    ensures NoRepeats(ValuePlaces(features))
  {
    if features != [] {
      var i := |features| - 1;
      ValuePlacesAre(features[..i]);
      var last := seq(|features[i].values|, (j: nat) => AtValue(i, j));
      forall p
        ensures p in last <==> p.AtValue? && p.i == i && p.j < |features[i].values|
      {
        if p.AtValue? && p.i == i && p.j < |features[i].values| {
          assert last[p.j] == p;
        }
      }
      forall p
        ensures p in ValuePlaces(features) <==> p.AtValue? && p.i < |features| && p.j < |features[p.i].values|
      {
        assert p in ValuePlaces(features) <==> p in ValuePlaces(features[..i]) || p in last;
      }
      forall a, b | 0 <= a < |ValuePlaces(features[..i])| && 0 <= b < |last|
        ensures ValuePlaces(features[..i])[a] != last[b]
      {
        assert ValuePlaces(features[..i])[a] in ValuePlaces(features[..i]);
      }
    }
  }

  /** Every item is at one of the places, once. */
  lemma PlacesAre(t: Taxonomy)
    ensures forall p :: p in Places(t) <==> Has(t, p)
    ensures NoRepeats(Places(t))
  {
    ValuePlacesAre(t.features);
    var shelves, functions := seq(|t.shelves|, (i: nat) => AtShelf(i)), seq(|t.functions|, (i: nat) => AtFunction(i));
    var features, values := seq(|t.features|, (i: nat) => AtFeature(i)), ValuePlaces(t.features);
    forall p
      ensures p in Places(t) <==> Has(t, p)
    {
      match p
      case AtShelf(i) => assert i < |shelves| ==> shelves[i] == p;
      case AtFunction(i) => assert i < |functions| ==> functions[i] == p;
      case AtFeature(i) => assert i < |features| ==> features[i] == p;
      case AtValue(i, j) =>
      assert p in Places(t) <==> p in shelves || p in functions || p in features || p in values;
    }
    forall a, b | 0 <= a < b < |Places(t)|
      ensures Places(t)[a] != Places(t)[b]
    {
      var before := |shelves| + |functions| + |features|;
      assert b >= before ==> Places(t)[b] == values[b - before] && values[b - before] in values;
      assert a >= before ==> Places(t)[a] == values[a - before];
    }
  }

  // ---------------------------------------------------------------------- nothing twice

  /** `if (seen.has(key)) report(...); seen.add(key);`, over a list of keys. */
  method Repeats<T(==,!new)>(keys: seq<T>) returns (found: seq<nat>)
    ensures found == [] <==> NoRepeats(keys)
  {
    found := [];
    var seen: set<T> := {};
    for k := 0 to |keys|
      invariant seen == set i | 0 <= i < k :: keys[i]
      invariant found == [] <==> NoRepeats(keys[..k])
    {
      assert keys[..k + 1] == keys[..k] + [keys[k]];
      if keys[k] in seen {
        found := found + [k];
      }
      seen := seen + {keys[k]};
    }
    assert keys[..|keys|] == keys;
  }

  function ItemAt(t: Taxonomy, places: seq<Pos>, k: nat): Item
    requires k < |places| && forall p :: p in places ==> Has(t, p)
  {
    At(t, places[k])
  }

  function IdKeys(t: Taxonomy, places: seq<Pos>): seq<Id>
    requires forall p :: p in places ==> Has(t, p)
  {
    seq(|places|, k requires 0 <= k < |places| => ItemAt(t, places, k).id)
  }

  function SlugKeys(t: Taxonomy, places: seq<Pos>): seq<(Subject, string)>
    requires forall p :: p in places ==> Has(t, p)
  {
    seq(|places|, k requires 0 <= k < |places| => (KindOf(places[k]), ItemAt(t, places, k).slug))
  }

  /** Who an item is a sibling of. */
  datatype Group = ShelvesUnder(parentId: Option<Id>) | AllFunctions | AllFeatures | ValuesOf(i: nat)

  function GroupOf(t: Taxonomy, p: Pos): Group
    requires Has(t, p)
  {
    match p
    case AtShelf(i) => ShelvesUnder(t.shelves[i].parentId)
    case AtFunction(_) => AllFunctions
    case AtFeature(_) => AllFeatures
    case AtValue(i, _) => ValuesOf(i)
  }

  function LivePlaces(t: Taxonomy): (places: seq<Pos>)
    ensures forall p :: p in places <==> Has(t, p) && Live(At(t, p))
  {
    PlacesAre(t);
    Filter((p: Pos) => Has(t, p) && Live(At(t, p)), Places(t))
  }

  function NameKeys(t: Taxonomy, places: seq<Pos>): seq<(Group, string)>
    requires forall p :: p in places ==> Has(t, p)
  {
    seq(|places|, k requires 0 <= k < |places| => (GroupOf(t, ItemPlace(t, places, k)), ItemAt(t, places, k).name.key))
  }

  function ItemPlace(t: Taxonomy, places: seq<Pos>, k: nat): (p: Pos)
    requires k < |places| && forall p :: p in places ==> Has(t, p)
    ensures Has(t, p)
  {
    places[k]
  }

  lemma IdsUnique(t: Taxonomy)
    ensures forall p :: p in Places(t) ==> Has(t, p)
    ensures NoRepeats(IdKeys(t, Places(t))) <==> UniqueIds(t)
  {
    PlacesAre(t);
    var places, keys := Places(t), IdKeys(t, Places(t));
    if NoRepeats(keys) {
      forall p, q | Has(t, p) && Has(t, q) && p != q
        ensures At(t, p).id != At(t, q).id
      {
        var a :| 0 <= a < |places| && places[a] == p;
        var b :| 0 <= b < |places| && places[b] == q;
        assert keys[a] == At(t, p).id && keys[b] == At(t, q).id;
        assert a < b || b < a;
      }
    }
    if UniqueIds(t) {
      forall a, b | 0 <= a < b < |keys|
        ensures keys[a] != keys[b]
      {
        assert places[a] in places && places[b] in places && places[a] != places[b];
      }
    }
  }

  lemma SlugsUnique(t: Taxonomy)
    ensures forall p :: p in Places(t) ==> Has(t, p)
    ensures NoRepeats(SlugKeys(t, Places(t))) <==> UniqueSlugs(t)
  {
    PlacesAre(t);
    var places, keys := Places(t), SlugKeys(t, Places(t));
    if NoRepeats(keys) {
      forall p, q | Has(t, p) && Has(t, q) && p != q && KindOf(p) == KindOf(q)
        ensures At(t, p).slug != At(t, q).slug
      {
        var a :| 0 <= a < |places| && places[a] == p;
        var b :| 0 <= b < |places| && places[b] == q;
        assert keys[a] == (KindOf(p), At(t, p).slug) && keys[b] == (KindOf(q), At(t, q).slug);
        assert a < b || b < a;
      }
    }
    if UniqueSlugs(t) {
      forall a, b | 0 <= a < b < |keys|
        ensures keys[a] != keys[b]
      {
        assert places[a] in places && places[b] in places && places[a] != places[b];
      }
    }
  }

  lemma NamesApart(t: Taxonomy, p: Pos, q: Pos)
    requires NoRepeats(NameKeys(t, LivePlaces(t)))
    requires Has(t, p) && Has(t, q) && p != q && Live(At(t, p)) && Live(At(t, q)) && Siblings(t, p, q)
    ensures At(t, p).name.key != At(t, q).name.key
  {
    var places, keys := LivePlaces(t), NameKeys(t, LivePlaces(t));
    assert p in places && q in places;
    var a :| 0 <= a < |places| && places[a] == p;
    var b :| 0 <= b < |places| && places[b] == q;
    assert keys[a] == (GroupOf(t, p), At(t, p).name.key) && keys[b] == (GroupOf(t, q), At(t, q).name.key);
    assert a < b || b < a;
  }

  lemma NameKeysApart(t: Taxonomy)
    requires UniqueNames(t)
    ensures NoRepeats(NameKeys(t, LivePlaces(t)))
  {
    PlacesAre(t);
    FilterDistinct((p: Pos) => Has(t, p) && Live(At(t, p)), Places(t));
    var places, keys := LivePlaces(t), NameKeys(t, LivePlaces(t));
    forall a, b | 0 <= a < b < |keys|
      ensures keys[a] != keys[b]
    {
      assert places[a] in places && places[b] in places && places[a] != places[b];
      assert GroupOf(t, places[a]) == GroupOf(t, places[b]) ==> Siblings(t, places[a], places[b]);
    }
  }

  lemma NamesUnique(t: Taxonomy)
    ensures NoRepeats(NameKeys(t, LivePlaces(t))) <==> UniqueNames(t)
  {
    if NoRepeats(NameKeys(t, LivePlaces(t))) {
      forall p, q | Has(t, p) && Has(t, q) && p != q && Live(At(t, p)) && Live(At(t, q)) && Siblings(t, p, q)
        ensures At(t, p).name.key != At(t, q).name.key
      {
        NamesApart(t, p, q);
      }
    }
    if UniqueNames(t) {
      NameKeysApart(t);
    }
  }

  method NamingIssues(t: Taxonomy) returns (issues: seq<Issue>)
    ensures issues == [] <==> UniqueIds(t) && UniqueSlugs(t) && UniqueNames(t)
  {
    IdsUnique(t);
    SlugsUnique(t);
    NamesUnique(t);
    var ids := Repeats(IdKeys(t, Places(t)));
    var slugs := Repeats(SlugKeys(t, Places(t)));
    var names := Repeats(NameKeys(t, LivePlaces(t)));
    issues := seq(|ids|, k requires 0 <= k < |ids| => SameId(ids[k]))
            + seq(|slugs|, k requires 0 <= k < |slugs| => SameSlug(slugs[k]))
            + seq(|names|, k requires 0 <= k < |names| => SameName(names[k]));
  }

  // ---------------------------------------------------------------------- shelves and features

  method ShelfIssues(t: Taxonomy) returns (issues: seq<Issue>)
    ensures issues == [] <==> ShelvesFit(t)
  {
    issues := [];
    var live := LiveShelves(t.shelves);
    if live == 0 {
      issues := issues + [NoShelf];
    }
    if live > MAX_SHELVES {
      issues := issues + [TooManyShelves];
    }
    for i := 0 to |t.shelves|
      invariant issues == [] <==>
        && 1 <= live <= MAX_SHELVES
        && (forall k :: 0 <= k < i ==> t.shelves[k].item.slug != NONE_SHELF)
        && (forall k :: 0 <= k < i ==> ParentFits(t, t.shelves[k]))
        && (forall k :: 0 <= k < i ==> ImpliesFit(t, t.shelves[k]))
    {
      var shelf := t.shelves[i];
      if shelf.item.slug == NONE_SHELF || !ParentFits(t, shelf) || !ImpliesFit(t, shelf) {
        issues := issues + [ShelfIssue(i)];
      }
    }
  }

  method FeatureIssues(t: Taxonomy) returns (issues: seq<Issue>)
    ensures issues == [] <==> FeaturesFit(t)
  {
    issues := [];
    for i := 0 to |t.features|
      invariant issues == [] <==> forall k :: 0 <= k < i ==> FeatureFits(t, t.features[k])
    {
      if !FeatureFits(t, t.features[i]) {
        issues := issues + [FeatureIssue(i)];
      }
    }
  }

  method StampIssues(t: Taxonomy) returns (issues: seq<Issue>)
    ensures issues == [] <==> StampsFit(t)
  {
    issues := [];
    var places := Places(t);
    PlacesAre(t);
    for k := 0 to |places|
      invariant issues == [] <==>
        forall i :: 0 <= i < k ==> places[i] in places && StampFits(t, places[i])
    {
      assert places[k] in places;
      if !StampFits(t, places[k]) {
        issues := issues + [StampIssue(places[k])];
      }
    }
  }

  predicate StampFits(t: Taxonomy, p: Pos) {
    Has(t, p) && At(t, p).retiredIn.Some? ==> At(t, p).retiredIn.value <= t.version
  }

  // ---------------------------------------------------------------------- migrations

  method MigrationIssues(t: Taxonomy) returns (issues: seq<Issue>)
    ensures issues == [] <==> MigrationsFit(t)
  {
    issues := [];
    var last := 0;
    for k := 0 to |t.migrations|
      invariant forall i :: 0 <= i < k ==> t.migrations[i].version <= last
      invariant last == 0 || exists i :: 0 <= i < k && t.migrations[i].version == last
      invariant issues == [] <==>
        && (forall i :: 0 <= i < k ==> MigrationFits(t, t.migrations[i]))
        && (forall i, j :: 0 <= i < j < k ==> t.migrations[i].version <= t.migrations[j].version)
    {
      var m := t.migrations[k];
      if !MigrationFits(t, m) {
        issues := issues + [MigrationIssue(k)];
      }
      if m.version < last {
        issues := issues + [OrderIssue(k)];
      }
      last := if m.version > last then m.version else last;
    }
  }

  method SaidIssues(t: Taxonomy) returns (issues: seq<Issue>)
    ensures issues == [] <==> SaidFits(t)
  {
    var lastSaid: map<Id, bool> := map[];
    for k := 0 to |t.migrations|
      invariant forall id :: LastSaid(t.migrations[..k], id) == if id in lastSaid then Some(lastSaid[id]) else None
    {
      assert t.migrations[..k + 1][..k] == t.migrations[..k];
      var said := Says(t.migrations[k]);
      if said.Some? {
        lastSaid := lastSaid[t.migrations[k].from := said.value];
      }
    }
    assert t.migrations[..|t.migrations|] == t.migrations;
    issues := [];
    var places := Places(t);
    PlacesAre(t);
    for k := 0 to |places|
      invariant issues == [] <==> forall i :: 0 <= i < k ==> SaidOf(t, places[i])
    {
      assert places[k] in places;
      var item := At(t, places[k]);
      if item.id in lastSaid && lastSaid[item.id] == Live(item) {
        issues := issues + [SaidIssue(places[k])];
      }
    }
    forall p | Has(t, p)
      ensures issues == [] ==> SaidOf(t, p)
    {
      assert p in places;
    }
  }

  predicate SaidOf(t: Taxonomy, p: Pos) {
    Has(t, p) ==>
      var said := LastSaid(t.migrations, At(t, p).id);
      said.Some? ==> said.value == !Live(At(t, p))
  }

  /** `taxonomyIssues`: nothing is found exactly when the taxonomy is valid. */
  method TaxonomyIssues(t: Taxonomy) returns (issues: seq<Issue>)
    ensures issues == [] <==> Valid(t)
  {
    issues := NamingIssues(t);
    var more := ShelfIssues(t);
    issues := issues + more;
    more := FeatureIssues(t);
    issues := issues + more;
    more := StampIssues(t);
    issues := issues + more;
    more := MigrationIssues(t);
    issues := issues + more;
    more := SaidIssues(t);
    issues := issues + more;
  }
}
