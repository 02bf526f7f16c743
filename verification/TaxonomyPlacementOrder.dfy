/**
 When a record's place is the same whatever order its statements are read in
 (platform/core/src/taxonomy-records.ts): exactly when the statements that tie and that nothing beats
 agree on the shelf, and on the value of each feature of it that takes one.
 */
module TaxonomyPlacementOrder {
  import opened Basics
  import opened Sorting
  import opened Choosing
  import opened Taxonomies
  import opened Ordering
  import opened TaxonomyVersions
  import opened TaxonomyDecision
  import opened TaxonomyPlacement
  import opened TaxonomyPlacementProofs
  import Order = SurvivorshipOrder
  import S = Survivorship

  /** What a statement under `features` competes for: the one value a feature takes, or a value's own place. */
  datatype Slot = Only(feature: Id) | Each(value: Id)

  function ShelfSlot(t: Taxonomy): S.Statement -> Option<bool> {
    (s: S.Statement) => if Said(t, ShelfSubject, s).Some? then Some(true) else None
  }

  function FunctionSlot(t: Taxonomy): S.Statement -> Option<Id> {
    (s: S.Statement) => Said(t, FunctionSubject, s)
  }

  function SlotOf(t: Taxonomy, onShelf: seq<Id>, value: Id): Option<Slot> {
    match FeatureOfValue(t, value)
    case None => None
    case Some(i) =>
      if t.features[i].item.id !in onShelf then None
      else if t.features[i].cardinality == TakesOne then Some(Only(t.features[i].item.id))
      else Some(Each(value))
  }

  function ValueSlot(t: Taxonomy, onShelf: seq<Id>): S.Statement -> Option<Slot> {
    (s: S.Statement) => match Said(t, ValueSubject, s) case None => None case Some(v) => SlotOf(t, onShelf, v)
  }

  function Those(statements: seq<S.Statement>, property: string): seq<S.Statement> {
    Filter(IsAbout(property), statements)
  }

  /** The best statements of a shelf name the same one. */
  ghost predicate ShelvesAgree(t: Taxonomy, statements: seq<S.Statement>) {
    forall x, y ::
      Unbeaten(S.Better, ShelfSlot(t), Those(statements, "shelf"), x)
      && Unbeaten(S.Better, ShelfSlot(t), Those(statements, "shelf"), y) ==>
        Said(t, ShelfSubject, x) == Said(t, ShelfSubject, y)
  }

  /** The best statements of a feature that takes one value name the same one. */
  ghost predicate ValuesAgree(t: Taxonomy, onShelf: seq<Id>, statements: seq<S.Statement>) {
    var slot := ValueSlot(t, onShelf);
    forall x, y ::
      Unbeaten(S.Better, slot, Those(statements, "features"), x)
      && Unbeaten(S.Better, slot, Those(statements, "features"), y)
      && slot(x) == slot(y) && slot(x).value.Only? ==>
        Said(t, ValueSubject, x) == Said(t, ValueSubject, y)
  }

  /** The shelf a record is on. */
  function ShelfTakenFrom(t: Taxonomy, statements: seq<S.Statement>): Option<Id> {
    match ShelfStatement(t, About(statements, "shelf")) case None => None case Some(taken) => Some(taken.id)
  }

  ghost predicate Agree(t: Taxonomy, statements: seq<S.Statement>) {
    && ShelvesAgree(t, statements)
    && match ShelfTakenFrom(t, statements)
       case None => true
       case Some(shelf) => ValuesAgree(t, OnShelfIds(t, Some(On(shelf))), statements)
  }

  // ---------------------------------------------------------------------- what is taken, by what competes

  lemma {:induction false} ShelfNext(t: Taxonomy, about: seq<S.Statement>, s: S.Statement)
    ensures ShelfStatement(t, about + [s]) ==
      if ShelfStatement(t, about).Some? then ShelfStatement(t, about)
      else match Said(t, ShelfSubject, s) case None => None case Some(shelf) => Some(Stated(shelf, s))
    decreases |about|
  {
    if about == [] {
      assert ([] + [s])[1..] == [];
    } else {
      ShelfNext(t, about[1..], s);
      assert (about + [s])[1..] == about[1..] + [s];
    }
  }

  lemma {:induction false} ShelfBy(t: Taxonomy, about: seq<S.Statement>)
    ensures
      var kept := FirstBy(ShelfSlot(t), about);
      match ShelfStatement(t, about)
      case None => kept == []
      case Some(taken) => kept == [taken.said] && Said(t, ShelfSubject, taken.said) == Some(taken.id)
  {
    if about != [] {
      var front, s := about[..|about| - 1], about[|about| - 1];
      ShelfBy(t, front);
      ShelfNext(t, front, s);
      assert about == front + [s];
      var kept := FirstBy(ShelfSlot(t), front);
      if kept != [] {
        assert ShelfSlot(t)(kept[0]) == Some(true);
      }
    }
  }

  lemma {:induction false} StatedBy(t: Taxonomy, about: seq<S.Statement>)
    ensures Statements(StatedFunctions(t, about)) == FirstBy(FunctionSlot(t), about)
    ensures forall k :: 0 <= k < |StatedFunctions(t, about)| ==>
      Said(t, FunctionSubject, StatedFunctions(t, about)[k].said) == Some(StatedFunctions(t, about)[k].id)
  {
    if about != [] {
      var front, s := about[..|about| - 1], about[|about| - 1];
      StatedBy(t, front);
      var before, kept := StatedFunctions(t, front), FirstBy(FunctionSlot(t), front);
      if Said(t, FunctionSubject, s).Some? {
        StatesBy(t, before, kept, Said(t, FunctionSubject, s).value);
        OneStatedMore(before, Stated(Said(t, FunctionSubject, s).value, s));
      }
    }
  }

  lemma StatesBy(t: Taxonomy, stated: seq<Stated>, kept: seq<S.Statement>, id: Id)
    requires Statements(stated) == kept
    requires forall k :: 0 <= k < |stated| ==> Said(t, FunctionSubject, stated[k].said) == Some(stated[k].id)
    ensures States(stated, id) <==> Taken(FunctionSlot(t), kept, Some(id))
  {
    assert forall k :: 0 <= k < |stated| ==> kept[k] == stated[k].said;
  }

  lemma OneStatedMore(stated: seq<Stated>, s: Stated)
    ensures Statements(stated + [s]) == Statements(stated) + [s.said]
  {
  }

  /** Chosen values side by side with the statements kept for them. */
  ghost predicate ChosenFrom(t: Taxonomy, onShelf: seq<Id>, chosen: seq<Chose>, kept: seq<S.Statement>) {
    && |chosen| == |kept|
    && forall k :: 0 <= k < |chosen| ==> ChoseFrom(t, onShelf, chosen[k], kept[k])
  }

  ghost predicate ChoseFrom(t: Taxonomy, onShelf: seq<Id>, c: Chose, s: S.Statement) {
    && c.said == s && Said(t, ValueSubject, s) == Some(c.value)
    && FeatureIdOf(t, c.value) == Some(c.feature) && c.feature in onShelf
  }

  lemma SameFeature(t: Taxonomy, i: nat, j: nat)
    requires UniqueIds(t) && i < |t.features| && j < |t.features| && t.features[i].item.id == t.features[j].item.id
    ensures i == j
  {
    assert Has(t, AtFeature(i)) && Has(t, AtFeature(j));
    assert At(t, AtFeature(i)).id == At(t, AtFeature(j)).id;
  }

  lemma RoomFor(t: Taxonomy, onShelf: seq<Id>, chosen: seq<Chose>, kept: seq<S.Statement>, value: Id)
    requires UniqueIds(t) && ChosenFrom(t, onShelf, chosen, kept)
    ensures MayChoose(t, onShelf, chosen, value) <==>
      SlotOf(t, onShelf, value).Some? && !Taken(ValueSlot(t, onShelf), kept, SlotOf(t, onShelf, value))
  {
    var slot := SlotOf(t, onShelf, value);
    if slot.Some? {
      var i := FeatureOfValue(t, value).value;
      var id := t.features[i].item.id;
      forall k | 0 <= k < |chosen|
        ensures t.features[i].cardinality == TakesOne ==>
          (ValueSlot(t, onShelf)(kept[k]) == slot <==> chosen[k].feature == id)
        ensures t.features[i].cardinality != TakesOne ==>
          (ValueSlot(t, onShelf)(kept[k]) == slot <==> chosen[k].value == value)
        ensures chosen[k].value == value ==> chosen[k].feature == id
      {
        assert ChoseFrom(t, onShelf, chosen[k], kept[k]);
        if chosen[k].feature == id {
          SameFeature(t, i, FeatureOfValue(t, chosen[k].value).value);
        }
      }
    }
  }

  lemma {:induction false} ChosenBy(t: Taxonomy, onShelf: seq<Id>, about: seq<S.Statement>)
    requires UniqueIds(t)
    ensures ChosenFrom(t, onShelf, ChosenValues(t, onShelf, about), FirstBy(ValueSlot(t, onShelf), about))
  {
    if about != [] {
      var front, s := about[..|about| - 1], about[|about| - 1];
      ChosenBy(t, onShelf, front);
      var before, kept := ChosenValues(t, onShelf, front), FirstBy(ValueSlot(t, onShelf), front);
      if Said(t, ValueSubject, s).Some? {
        var value := Said(t, ValueSubject, s).value;
        RoomFor(t, onShelf, before, kept, value);
        if MayChoose(t, onShelf, before, value) {
          assert ChoseFrom(t, onShelf, Chose(FeatureIdOf(t, value).value, value, s), s);
        }
      }
    }
  }

  // ---------------------------------------------------------------------- provenance

  /** Alike to the comparison. */
  function Ties(): (S.Statement, S.Statement) -> bool {
    (x, y) => Tied(S.Better, x, y)
  }

  lemma {:induction false} LowestIs(list: seq<S.Statement>) returns (s: S.Statement)
    requires list != []
    ensures s in list && s.confidence == S.Lowest(list)
    ensures forall r :: r in list ==> S.Lowest(list) <= r.confidence
  {
    var n := |list| - 1;
    Order.LowestLast(list);
    s := list[n];
    if n > 0 {
      var r := LowestIs(list[..n]);
      if r.confidence <= s.confidence {
        s := r;
      }
    }
  }

  lemma LowestBelow(a: seq<S.Statement>, b: seq<S.Statement>)
    requires Matched(Ties(), a, b) && a != [] && b != []
    ensures S.Lowest(a) == S.Lowest(b)
  {
    var s := LowestIs(a);
    var r := LowestIs(b);
    assert MatchIn(Ties(), s, b);
    var y :| y in b && Ties()(s, y);
    Order.TiesShare(s, y);
    assert MatchOf(Ties(), a, r);
    var x :| x in a && Ties()(x, r);
    Order.TiesShare(x, r);
  }

  lemma BestOf(list: seq<S.Statement>)
    requires list != []
    ensures SortBy(S.Better, list)[0] in list
    ensures forall s :: s in list ==> !S.Better(s, SortBy(S.Better, list)[0])
  {
    var sorted := SortBy(S.Better, list);
    S.BetterOrders();
    SortOrders(S.Better, list);
    SortKeeps(S.Better, list);
    SameElements(sorted, list);
    forall s | s in list
      ensures !S.Better(s, sorted[0])
    {
      var i :| 0 <= i < |sorted| && sorted[i] == s;
      Order.BetterOnceFirst(sorted, i);
    }
  }

  lemma NotBetter(p: S.Statement, y: S.Statement, q: S.Statement)
    requires Tied(S.Better, p, y) && !S.Better(y, q)
    ensures !S.Better(p, q)
  {
    S.BetterOrders();
    SameAgainst(S.Better, p, y, q);
  }

  /** Lists that match, tie for tie, have the same provenance. */
  lemma SameBest(a: seq<S.Statement>, b: seq<S.Statement>)
    requires Matched(Ties(), a, b)
    ensures (a == []) == (b == [])
    ensures a != [] ==> BestProvenance(a) == BestProvenance(b)
  {
    if a != [] {
      assert MatchIn(Ties(), a[0], b);
    }
    if b != [] {
      assert MatchOf(Ties(), a, b[0]);
    }
    if a != [] && b != [] {
      BestOf(a);
      BestOf(b);
      var p, q := SortBy(S.Better, a)[0], SortBy(S.Better, b)[0];
      assert MatchIn(Ties(), p, b);
      var y :| y in b && Ties()(p, y);
      NotBetter(p, y, q);
      assert MatchOf(Ties(), a, q);
      var x :| x in a && Ties()(x, q);
      NotBetter(q, x, p);
      LowestBelow(a, b);
      Order.SameProvenance(p, q, a, b);
    }
  }

  // ---------------------------------------------------------------------- enough

  lemma ThoseAlike(a: seq<S.Statement>, b: seq<S.Statement>, property: string)
    requires forall s :: s in a <==> s in b
    ensures forall s :: s in Those(a, property) <==> s in Those(b, property)
  {
  }

  lemma SameShelf(t: Taxonomy, a: seq<S.Statement>, b: seq<S.Statement>)
    requires (forall s :: s in a <==> s in b) && ShelvesAgree(t, a)
    ensures
      match ShelfStatement(t, About(a, "shelf"))
      case None => ShelfStatement(t, About(b, "shelf")) == None
      case Some(taken) =>
        var other := ShelfStatement(t, About(b, "shelf"));
        && other.Some? && other.value.id == taken.id
        && S.ProvenanceOf(other.value.said, [other.value.said]) == S.ProvenanceOf(taken.said, [taken.said])
  {
    ShelfBy(t, About(a, "shelf"));
    ShelfBy(t, About(b, "shelf"));
    ThoseAlike(a, b, "shelf");
    var c, d := FirstBy(ShelfSlot(t), About(a, "shelf")), FirstBy(ShelfSlot(t), About(b, "shelf"));
    if c != [] {
      FirstShelves(t, a, b, c[0]);
    } else if d != [] {
      S.BetterOrders();
      var x := KeptAlike(S.Better, ShelfSlot(t), Those(b, "shelf"), Those(a, "shelf"), d[0]);
    }
  }

  /** The statements a shelf is taken from, in one order and another, tie and name one shelf. */
  lemma FirstShelves(t: Taxonomy, a: seq<S.Statement>, b: seq<S.Statement>, x: S.Statement)
    requires (forall s :: s in Those(a, "shelf") <==> s in Those(b, "shelf")) && ShelvesAgree(t, a)
    requires x in FirstBy(ShelfSlot(t), About(a, "shelf"))
    ensures
      exists y ::
        && y in FirstBy(ShelfSlot(t), About(b, "shelf")) && Said(t, ShelfSubject, y) == Said(t, ShelfSubject, x)
        && S.ProvenanceOf(y, [y]) == S.ProvenanceOf(x, [x])
  {
    S.BetterOrders();
    var y := KeptAlike(S.Better, ShelfSlot(t), Those(a, "shelf"), Those(b, "shelf"), x);
    Order.TiesShare(x, y);
  }

  /** What is kept from lists of the same statements matches, tie for tie. */
  lemma KeptMatch<K(!new)>(key: S.Statement -> Option<K>, a: seq<S.Statement>, b: seq<S.Statement>)
    requires forall s :: s in a <==> s in b
    ensures Matched(Ties(), FirstBy(key, SortBy(S.Better, a)), FirstBy(key, SortBy(S.Better, b)))
  {
    var c, d := FirstBy(key, SortBy(S.Better, a)), FirstBy(key, SortBy(S.Better, b));
    S.BetterOrders();
    forall x | x in c
      ensures MatchIn(Ties(), x, d)
    {
      var y := KeptAlike(S.Better, key, a, b, x);
      assert Ties()(x, y);
    }
    forall y | y in d
      ensures MatchOf(Ties(), c, y)
    {
      var x := KeptAlike(S.Better, key, b, a, y);
      assert Ties()(x, y);
    }
  }

  lemma SameStated(t: Taxonomy, a: seq<S.Statement>, b: seq<S.Statement>, id: Id)
    requires forall s :: s in a <==> s in b
    ensures States(StatedFunctions(t, About(a, "functions")), id) <==> States(StatedFunctions(t, About(b, "functions")), id)
  {
    var said := (s: S.Statement) => Said(t, FunctionSubject, s);
    var c, d := About(a, "functions"), About(b, "functions");
    StatedHas(t, c, id);
    StatedHas(t, d, id);
    MappedFrom(said, c, id);
    MappedFrom(said, d, id);
    forall s
      ensures s in c <==> s in d
    {
      SortHas(S.Better, Those(a, "functions"), s);
      SortHas(S.Better, Those(b, "functions"), s);
    }
  }

  lemma SameFunctions(t: Taxonomy, implied: seq<Id>, a: seq<S.Statement>, b: seq<S.Statement>)
    requires forall s :: s in a <==> s in b
    ensures
      PlacedFunctions(t, implied, StatedFunctions(t, About(a, "functions")))
      == PlacedFunctions(t, implied, StatedFunctions(t, About(b, "functions")))
  {
    var c, d := StatedFunctions(t, About(a, "functions")), StatedFunctions(t, About(b, "functions"));
    forall k: nat | k < |t.functions|
      ensures States(c, t.functions[k].id) == States(d, t.functions[k].id)
    {
      SameStated(t, a, b, t.functions[k].id);
    }
    ChosenAlike(t.functions,
                (k: nat) => k < |t.functions| && (t.functions[k].id in implied || States(c, t.functions[k].id)),
                (k: nat) => k < |t.functions| && (t.functions[k].id in implied || States(d, t.functions[k].id)));
  }

  lemma BeyondHas(implied: seq<Id>, stated: seq<Stated>, s: S.Statement)
    ensures s in Beyond(implied, stated) <==> exists k :: 0 <= k < |stated| && stated[k].said == s && stated[k].id !in implied
  {
    var kept := Filter((s: Stated) => s.id !in implied, stated);
    assert Beyond(implied, stated) == Statements(kept);
    if s in Beyond(implied, stated) {
      var i :| 0 <= i < |kept| && kept[i].said == s;
      assert kept[i] in kept && kept[i] in stated;
    }
    if k :| 0 <= k < |stated| && stated[k].said == s && stated[k].id !in implied {
      assert stated[k] in kept;
      var i :| 0 <= i < |kept| && kept[i] == stated[k];
      assert Statements(kept)[i] == s;
    }
  }

  lemma BeyondKept(t: Taxonomy, implied: seq<Id>, about: seq<S.Statement>, s: S.Statement)
    ensures s in Beyond(implied, StatedFunctions(t, about)) <==>
      && s in FirstBy(FunctionSlot(t), about)
      && Said(t, FunctionSubject, s).Some? && Said(t, FunctionSubject, s).value !in implied
  {
    var stated, kept := StatedFunctions(t, about), FirstBy(FunctionSlot(t), about);
    StatedBy(t, about);
    BeyondHas(implied, stated, s);
    if s in kept {
      var k :| 0 <= k < |kept| && kept[k] == s;
      assert stated[k].said == s;
    }
    if k :| 0 <= k < |stated| && stated[k].said == s {
      assert kept[k] == s;
    }
  }

  lemma BeyondMatch(t: Taxonomy, implied: seq<Id>, a: seq<S.Statement>, b: seq<S.Statement>, s: S.Statement)
    returns (r: S.Statement)
    requires (forall s :: s in a <==> s in b) && s in Beyond(implied, StatedFunctions(t, About(a, "functions")))
    ensures r in Beyond(implied, StatedFunctions(t, About(b, "functions"))) && Tied(S.Better, s, r)
  {
    BeyondKept(t, implied, About(a, "functions"), s);
    S.BetterOrders();
    ThoseAlike(a, b, "functions");
    r := KeptAlike(S.Better, FunctionSlot(t), Those(a, "functions"), Those(b, "functions"), s);
    BeyondKept(t, implied, About(b, "functions"), r);
  }

  lemma SameBeyond(t: Taxonomy, implied: seq<Id>, a: seq<S.Statement>, b: seq<S.Statement>)
    requires forall s :: s in a <==> s in b
    ensures Matched(Ties(), Beyond(implied, StatedFunctions(t, About(a, "functions"))),
                    Beyond(implied, StatedFunctions(t, About(b, "functions"))))
  {
    var c := Beyond(implied, StatedFunctions(t, About(a, "functions")));
    var d := Beyond(implied, StatedFunctions(t, About(b, "functions")));
    forall x | x in c
      ensures MatchIn(Ties(), x, d)
    {
      var y := BeyondMatch(t, implied, a, b, x);
      assert Ties()(x, y);
    }
    forall y | y in d
      ensures MatchOf(Ties(), c, y)
    {
      var x := BeyondMatch(t, implied, b, a, y);
      assert Ties()(x, y);
    }
  }

  /** A statement kept names a value that is chosen, and a value is chosen by one. */
  lemma ChosenSays(t: Taxonomy, onShelf: seq<Id>, about: seq<S.Statement>)
    requires UniqueIds(t)
    ensures
      var chosen, kept := ChosenValues(t, onShelf, about), FirstBy(ValueSlot(t, onShelf), about);
      && (forall v :: TaxonomyPlacement.Chosen(chosen, v) <==> exists s :: s in kept && Said(t, ValueSubject, s) == Some(v))
      && (forall f :: ChosenOf(chosen, f) <==>
            exists s :: s in kept && Said(t, ValueSubject, s).Some? && FeatureIdOf(t, Said(t, ValueSubject, s).value) == Some(f))
  {
    var chosen, kept := ChosenValues(t, onShelf, about), FirstBy(ValueSlot(t, onShelf), about);
    ChosenBy(t, onShelf, about);
    forall k | 0 <= k < |chosen|
      ensures kept[k] in kept && Said(t, ValueSubject, kept[k]) == Some(chosen[k].value)
      ensures FeatureIdOf(t, chosen[k].value) == Some(chosen[k].feature)
    {
      assert ChoseFrom(t, onShelf, chosen[k], kept[k]);
    }
    forall s | s in kept
      ensures exists k :: 0 <= k < |chosen| && kept[k] == s && Said(t, ValueSubject, s) == Some(chosen[k].value)
                       && FeatureIdOf(t, chosen[k].value) == Some(chosen[k].feature)
    {
      var k :| 0 <= k < |kept| && kept[k] == s;
      assert Said(t, ValueSubject, kept[k]) == Some(chosen[k].value);
    }
  }

  lemma SlotSays(t: Taxonomy, onShelf: seq<Id>, a: seq<S.Statement>, x: S.Statement, y: S.Statement)
    requires ValuesAgree(t, onShelf, a)
    requires Unbeaten(S.Better, ValueSlot(t, onShelf), Those(a, "features"), x)
    requires Unbeaten(S.Better, ValueSlot(t, onShelf), Those(a, "features"), y)
    requires ValueSlot(t, onShelf)(x) == ValueSlot(t, onShelf)(y)
    ensures Said(t, ValueSubject, x) == Said(t, ValueSubject, y)
  {
  }

  lemma ValueMatch(t: Taxonomy, onShelf: seq<Id>, a: seq<S.Statement>, b: seq<S.Statement>, s: S.Statement)
    returns (r: S.Statement)
    requires (forall s :: s in a <==> s in b) && ValuesAgree(t, onShelf, a)
    requires s in FirstBy(ValueSlot(t, onShelf), About(a, "features"))
    ensures r in FirstBy(ValueSlot(t, onShelf), About(b, "features")) && Said(t, ValueSubject, r) == Said(t, ValueSubject, s)
  {
    S.BetterOrders();
    ThoseAlike(a, b, "features");
    r := KeptAlike(S.Better, ValueSlot(t, onShelf), Those(a, "features"), Those(b, "features"), s);
    SlotSays(t, onShelf, a, s, r);
  }

  lemma ValuesAgreeAlike(t: Taxonomy, onShelf: seq<Id>, a: seq<S.Statement>, b: seq<S.Statement>)
    requires (forall s :: s in a <==> s in b) && ValuesAgree(t, onShelf, a)
    ensures ValuesAgree(t, onShelf, b)
  {
    ThoseAlike(a, b, "features");
    forall x
      ensures Unbeaten(S.Better, ValueSlot(t, onShelf), Those(a, "features"), x)
         <==> Unbeaten(S.Better, ValueSlot(t, onShelf), Those(b, "features"), x)
    {
      UnbeatenAlike(S.Better, ValueSlot(t, onShelf), Those(a, "features"), Those(b, "features"), x);
    }
  }

  ghost predicate ChoosesAll(t: Taxonomy, onShelf: seq<Id>, a: seq<S.Statement>, b: seq<S.Statement>) {
    var chosen, others := ChosenValues(t, onShelf, About(a, "features")), ChosenValues(t, onShelf, About(b, "features"));
    && (forall v :: TaxonomyPlacement.Chosen(chosen, v) ==> TaxonomyPlacement.Chosen(others, v))
    && (forall f :: ChosenOf(chosen, f) ==> ChosenOf(others, f))
  }

  lemma ChoosesSame(t: Taxonomy, onShelf: seq<Id>, a: seq<S.Statement>, b: seq<S.Statement>)
    requires UniqueIds(t) && (forall s :: s in a <==> s in b) && ValuesAgree(t, onShelf, a)
    ensures ChoosesAll(t, onShelf, a, b)
  {
    var c, d := FirstBy(ValueSlot(t, onShelf), About(a, "features")), FirstBy(ValueSlot(t, onShelf), About(b, "features"));
    ChosenSays(t, onShelf, About(a, "features"));
    ChosenSays(t, onShelf, About(b, "features"));
    forall s | s in c
      ensures exists r :: r in d && Said(t, ValueSubject, r) == Said(t, ValueSubject, s)
    {
      var r := ValueMatch(t, onShelf, a, b, s);
    }
  }

  lemma {:induction false} PlacedFeaturesSame(features: seq<Feature>, chosen: seq<Chose>, others: seq<Chose>)
    requires forall v :: TaxonomyPlacement.Chosen(chosen, v) <==> TaxonomyPlacement.Chosen(others, v)
    requires forall f :: ChosenOf(chosen, f) <==> ChosenOf(others, f)
    ensures PlacedFeatures(features, chosen) == PlacedFeatures(features, others)
  {
    if features != [] {
      PlacedFeaturesSame(features[..|features| - 1], chosen, others);
      var values := features[|features| - 1].values;
      ChosenAlike(values,
                  (k: nat) => k < |values| && TaxonomyPlacement.Chosen(chosen, values[k].id),
                  (k: nat) => k < |values| && TaxonomyPlacement.Chosen(others, values[k].id));
    }
  }

  lemma {:induction false} BehindHas(features: seq<Feature>, chosen: seq<Chose>, s: S.Statement)
    ensures s in Behind(features, chosen) <==>
      exists i, k :: 0 <= i < |features| && 0 <= k < |chosen| && chosen[k].feature == features[i].item.id && chosen[k].said == s
  {
    if features != [] {
      var front, id := features[..|features| - 1], features[|features| - 1].item.id;
      BehindHas(front, chosen, s);
      var said := (c: Chose) => if c.feature == id then Some(c.said) else None;
      MappedFrom(said, chosen, s);
      if c :| c in chosen && said(c) == Some(s) {
        var k :| 0 <= k < |chosen| && chosen[k] == c;
        assert features[|front|].item.id == id;
      }
      if i, k :| 0 <= i < |front| && 0 <= k < |chosen| && chosen[k].feature == front[i].item.id && chosen[k].said == s {
        assert features[i] == front[i];
      }
      if i, k :| 0 <= i < |features| && 0 <= k < |chosen| && chosen[k].feature == features[i].item.id && chosen[k].said == s {
        if i < |front| {
          assert features[i] == front[i];
        } else {
          assert said(chosen[k]) == Some(s);
        }
      }
    }
  }

  predicate Holds(features: seq<Feature>, id: Id) {
    exists i :: 0 <= i < |features| && features[i].item.id == id
  }

  lemma BehindAll(features: seq<Feature>, chosen: seq<Chose>, kept: seq<S.Statement>, s: S.Statement)
    requires |chosen| == |kept| && forall k :: 0 <= k < |chosen| ==> chosen[k].said == kept[k] && Holds(features, chosen[k].feature)
    ensures s in Behind(features, chosen) <==> s in kept
  {
    BehindHas(features, chosen, s);
    if s in kept {
      var k :| 0 <= k < |kept| && kept[k] == s;
      var i :| 0 <= i < |features| && features[i].item.id == chosen[k].feature;
    }
  }

  lemma ShelfHolds(t: Taxonomy, shelf: Id, id: Id)
    requires id in OnShelfIds(t, Some(On(shelf)))
    ensures Holds(FeaturesAt(t, FeaturesFor(t, shelf)), id)
  {
    var onShelf, features := OnShelfIds(t, Some(On(shelf))), FeaturesAt(t, FeaturesFor(t, shelf));
    var i :| 0 <= i < |onShelf| && onShelf[i] == id;
    assert features[i].item.id == id;
  }

  /** The statements behind a place's values are those kept for its shelf's features. */
  lemma BehindKept(t: Taxonomy, shelf: Id, about: seq<S.Statement>, s: S.Statement)
    requires UniqueIds(t)
    ensures
      var onShelf := OnShelfIds(t, Some(On(shelf)));
      s in Behind(FeaturesAt(t, FeaturesFor(t, shelf)), ChosenValues(t, onShelf, about))
      <==> s in FirstBy(ValueSlot(t, onShelf), about)
  {
    var onShelf, features := OnShelfIds(t, Some(On(shelf))), FeaturesAt(t, FeaturesFor(t, shelf));
    var chosen, kept := ChosenValues(t, onShelf, about), FirstBy(ValueSlot(t, onShelf), about);
    ChosenBy(t, onShelf, about);
    forall k | 0 <= k < |chosen|
      ensures chosen[k].said == kept[k] && Holds(features, chosen[k].feature)
    {
      assert ChoseFrom(t, onShelf, chosen[k], kept[k]);
      ShelfHolds(t, shelf, chosen[k].feature);
    }
    BehindAll(features, chosen, kept, s);
  }

  lemma SameBehind(t: Taxonomy, shelf: Id, a: seq<S.Statement>, b: seq<S.Statement>)
    requires UniqueIds(t) && forall s :: s in a <==> s in b
    ensures
      var onShelf, features := OnShelfIds(t, Some(On(shelf))), FeaturesAt(t, FeaturesFor(t, shelf));
      Matched(Ties(), Behind(features, ChosenValues(t, onShelf, About(a, "features"))),
              Behind(features, ChosenValues(t, onShelf, About(b, "features"))))
  {
    var onShelf, features := OnShelfIds(t, Some(On(shelf))), FeaturesAt(t, FeaturesFor(t, shelf));
    var c := Behind(features, ChosenValues(t, onShelf, About(a, "features")));
    var d := Behind(features, ChosenValues(t, onShelf, About(b, "features")));
    var kept, others := FirstBy(ValueSlot(t, onShelf), About(a, "features")), FirstBy(ValueSlot(t, onShelf), About(b, "features"));
    ThoseAlike(a, b, "features");
    KeptMatch(ValueSlot(t, onShelf), Those(a, "features"), Those(b, "features"));
    forall s
      ensures (s in c <==> s in kept) && (s in d <==> s in others)
    {
      BehindKept(t, shelf, About(a, "features"), s);
      BehindKept(t, shelf, About(b, "features"), s);
    }
    MatchedAlike(kept, others, c, d);
  }

  lemma MatchedAlike(a: seq<S.Statement>, b: seq<S.Statement>, c: seq<S.Statement>, d: seq<S.Statement>)
    requires Matched(Ties(), a, b) && forall s :: (s in c <==> s in a) && (s in d <==> s in b)
    ensures Matched(Ties(), c, d)
  {
    forall x | x in c
      ensures MatchIn(Ties(), x, d)
    {
      assert MatchIn(Ties(), x, b);
    }
    forall y | y in d
      ensures MatchOf(Ties(), c, y)
    {
      assert MatchOf(Ties(), a, y);
    }
  }

  /** Functions, features and their provenance, for the record's place on a shelf. */
  lemma SameOnShelf(t: Taxonomy, shelf: Id, a: seq<S.Statement>, b: seq<S.Statement>)
    requires UniqueIds(t) && (forall s :: s in a <==> s in b) && ValuesAgree(t, OnShelfIds(t, Some(On(shelf))), a)
    ensures
      var onShelf, features := OnShelfIds(t, Some(On(shelf))), FeaturesAt(t, FeaturesFor(t, shelf));
      PlacedFeatures(features, ChosenValues(t, onShelf, About(a, "features")))
      == PlacedFeatures(features, ChosenValues(t, onShelf, About(b, "features")))
  {
    var onShelf, features := OnShelfIds(t, Some(On(shelf))), FeaturesAt(t, FeaturesFor(t, shelf));
    ChoosesSame(t, onShelf, a, b);
    ValuesAgreeAlike(t, onShelf, a, b);
    ChoosesSame(t, onShelf, b, a);
    PlacedFeaturesSame(features, ChosenValues(t, onShelf, About(a, "features")), ChosenValues(t, onShelf, About(b, "features")));
  }

  lemma BeyondBest(t: Taxonomy, implied: seq<Id>, a: seq<S.Statement>, b: seq<S.Statement>)
    requires forall s :: s in a <==> s in b
    ensures
      var c := Beyond(implied, StatedFunctions(t, About(a, "functions")));
      var d := Beyond(implied, StatedFunctions(t, About(b, "functions")));
      (c == []) == (d == []) && (c != [] ==> BestProvenance(c) == BestProvenance(d))
  {
    SameBeyond(t, implied, a, b);
    SameBest(Beyond(implied, StatedFunctions(t, About(a, "functions"))), Beyond(implied, StatedFunctions(t, About(b, "functions"))));
  }

  lemma BehindBest(t: Taxonomy, shelf: Id, a: seq<S.Statement>, b: seq<S.Statement>)
    requires UniqueIds(t) && forall s :: s in a <==> s in b
    ensures
      var onShelf, features := OnShelfIds(t, Some(On(shelf))), FeaturesAt(t, FeaturesFor(t, shelf));
      var c := Behind(features, ChosenValues(t, onShelf, About(a, "features")));
      var d := Behind(features, ChosenValues(t, onShelf, About(b, "features")));
      (c == []) == (d == []) && (c != [] ==> BestProvenance(c) == BestProvenance(d))
  {
    var onShelf, features := OnShelfIds(t, Some(On(shelf))), FeaturesAt(t, FeaturesFor(t, shelf));
    SameBehind(t, shelf, a, b);
    SameBest(Behind(features, ChosenValues(t, onShelf, About(a, "features"))),
             Behind(features, ChosenValues(t, onShelf, About(b, "features"))));
  }

  /** A record's place is the same from every list of the same statements, when its best ones agree. */
  lemma PlacedAnyOrder(t: Taxonomy, a: seq<S.Statement>, b: seq<S.Statement>)
    requires UniqueIds(t) && (forall s :: s in a <==> s in b) && Agree(t, a)
    ensures PlaceRecord(t, a) == PlaceRecord(t, b)
  {
    SameShelf(t, a, b);
    if ShelfTakenFrom(t, a).Some? {
      var shelf := ShelfTakenFrom(t, a).value;
      var implied := ImpliedFunctions(t, shelf);
      SameFunctions(t, implied, a, b);
      BeyondBest(t, implied, a, b);
      SameOnShelf(t, shelf, a, b);
      BehindBest(t, shelf, a, b);
    }
  }

  // ---------------------------------------------------------------------- needed

  /** Two of the same slot that nothing beats, read one way and the other: each is kept in its turn. */
  lemma TiesTurn<K(!new)>(
      key: S.Statement -> Option<K>, property: string, statements: seq<S.Statement>, x: S.Statement, y: S.Statement)
    returns (a: seq<S.Statement>, b: seq<S.Statement>)
    requires Unbeaten(S.Better, key, Those(statements, property), x)
    requires Unbeaten(S.Better, key, Those(statements, property), y)
    requires key(x) == key(y) && x != y
    ensures multiset(a) == multiset(b) == multiset(statements)
    ensures x in FirstBy(key, About(a, property)) && y in FirstBy(key, About(b, property))
  {
    var rest := TwoInFront(statements, x, y);
    a, b := [x, y] + rest, [y, x] + rest;
    var others := Filter(IsAbout(property), rest);
    TwoFiltered(IsAbout(property), x, y, rest);
    TwoFiltered(IsAbout(property), y, x, rest);
    SameElements(a, statements);
    S.BetterOrders();
    UnbeatenAlike(S.Better, key, Those(statements, property), [x, y] + others, x);
    UnbeatenAlike(S.Better, key, Those(statements, property), [x, y] + others, y);
    HeadsSwap(S.Better, key, x, y, others);
    var c, d := FirstBy(key, About(a, property)), FirstBy(key, About(b, property));
    var i :| 0 <= i < |c| && c[i] == x;
    assert Swapped(x, y)(c[i], d[i]);
  }

  lemma PlacedOn(t: Taxonomy, statements: seq<S.Statement>)
    requires Valid(t) && ShelfTakenFrom(t, statements).Some?
    ensures PlaceRecord(t, statements).Some?
    ensures PlaceRecord(t, statements).value.fields.shelf == ShelfTakenFrom(t, statements).value
  {
    ShelfTaken(t, About(statements, "shelf"));
    var p := Find(t, ShelfSubject, ById(ShelfTakenFrom(t, statements).value)).value;
    assert ParentFits(t, t.shelves[p.i]);
  }

  lemma ShelfIs(t: Taxonomy, statements: seq<S.Statement>, x: S.Statement)
    requires x in FirstBy(ShelfSlot(t), About(statements, "shelf"))
    ensures ShelfTakenFrom(t, statements) == Said(t, ShelfSubject, x)
  {
    ShelfBy(t, About(statements, "shelf"));
  }

  lemma ShelvesShow(t: Taxonomy, statements: seq<S.Statement>) returns (a: seq<S.Statement>, b: seq<S.Statement>)
    requires Valid(t) && !ShelvesAgree(t, statements)
    ensures multiset(a) == multiset(b) == multiset(statements)
    ensures PlaceRecord(t, a) != PlaceRecord(t, b)
  {
    var x, y :|
      Unbeaten(S.Better, ShelfSlot(t), Those(statements, "shelf"), x)
      && Unbeaten(S.Better, ShelfSlot(t), Those(statements, "shelf"), y)
      && Said(t, ShelfSubject, x) != Said(t, ShelfSubject, y);
    a, b := TiesTurn(ShelfSlot(t), "shelf", statements, x, y);
    ShelfIs(t, a, x);
    ShelfIs(t, b, y);
    PlacedOn(t, a);
    PlacedOn(t, b);
  }

  /** Whether a value is placed, by whether a statement kept names it. */
  lemma PlacedSays(t: Taxonomy, statements: seq<S.Statement>, v: Id)
    requires Valid(t) && ShelfTakenFrom(t, statements).Some?
    ensures PlaceRecord(t, statements).Some?
    ensures
      var onShelf := OnShelfIds(t, Some(On(ShelfTakenFrom(t, statements).value)));
      v in AllValues(PlaceRecord(t, statements).value.fields.features) <==>
      TaxonomyPlacement.Chosen(ChosenValues(t, onShelf, About(statements, "features")), v)
  {
    var shelf := ShelfTakenFrom(t, statements).value;
    var onShelf := OnShelfIds(t, Some(On(shelf)));
    var chosen := ChosenValues(t, onShelf, About(statements, "features"));
    PlacedOn(t, statements);
    ChosenWell(t, onShelf, About(statements, "features"));
    PlacedHas(FeaturesAt(t, FeaturesFor(t, shelf)), chosen, v);
    PlacedValuesAll(t, shelf, chosen, v);
  }

  /** Of a feature that takes one, the value a statement kept names is the only one chosen. */
  lemma OnlyOneChosen(t: Taxonomy, onShelf: seq<Id>, about: seq<S.Statement>, x: S.Statement, v: Id)
    requires UniqueIds(t) && x in FirstBy(ValueSlot(t, onShelf), about)
    requires ValueSlot(t, onShelf)(x).Some? && SlotOf(t, onShelf, v) == ValueSlot(t, onShelf)(x)
    requires ValueSlot(t, onShelf)(x).value.Only?
    ensures TaxonomyPlacement.Chosen(ChosenValues(t, onShelf, about), v) <==> Said(t, ValueSubject, x) == Some(v)
  {
    var kept := FirstBy(ValueSlot(t, onShelf), about);
    ChosenSays(t, onShelf, about);
    FirstByOf(ValueSlot(t, onShelf), about);
    if s :| s in kept && Said(t, ValueSubject, s) == Some(v) {
      assert ValueSlot(t, onShelf)(s) == ValueSlot(t, onShelf)(x);
      var i :| 0 <= i < |kept| && kept[i] == s;
      var j :| 0 <= j < |kept| && kept[j] == x;
      assert i == j;
    }
  }

  lemma ValuesShow(t: Taxonomy, shelf: Id, statements: seq<S.Statement>) returns (a: seq<S.Statement>, b: seq<S.Statement>)
    requires Valid(t) && ShelvesAgree(t, statements) && ShelfTakenFrom(t, statements) == Some(shelf)
    requires !ValuesAgree(t, OnShelfIds(t, Some(On(shelf))), statements)
    ensures multiset(a) == multiset(b) == multiset(statements)
    ensures PlaceRecord(t, a) != PlaceRecord(t, b)
  {
    var onShelf := OnShelfIds(t, Some(On(shelf)));
    var slot := ValueSlot(t, onShelf);
    var x, y :|
      Unbeaten(S.Better, slot, Those(statements, "features"), x)
      && Unbeaten(S.Better, slot, Those(statements, "features"), y)
      && slot(x) == slot(y) && slot(x).value.Only? && Said(t, ValueSubject, x) != Said(t, ValueSubject, y);
    a, b := TiesTurn(slot, "features", statements, x, y);
    SameElements(a, statements);
    SameElements(b, statements);
    SameShelf(t, statements, a);
    SameShelf(t, statements, b);
    var v := Said(t, ValueSubject, x).value;
    PlacedSays(t, a, v);
    PlacedSays(t, b, v);
    OnlyOneChosen(t, onShelf, About(a, "features"), x, v);
    OnlyOneChosen(t, onShelf, About(b, "features"), y, v);
  }

  /**
   * A record's place is the same whatever order its statements are read in exactly when its best
   * statements agree on the shelf, and those of each one-value feature of that shelf on the value.
   * Functions, and features that take many values, are placed the same from every order.
   */
  lemma PlacedInAnyOrder(t: Taxonomy, statements: seq<S.Statement>)
    requires Valid(t)
    ensures
      (forall b :: multiset(b) == multiset(statements) ==> PlaceRecord(t, b) == PlaceRecord(t, statements))
      <==> Agree(t, statements)
  {
    if Agree(t, statements) {
      forall b | multiset(b) == multiset(statements)
        ensures PlaceRecord(t, b) == PlaceRecord(t, statements)
      {
        SameElements(statements, b);
        PlacedAnyOrder(t, statements, b);
      }
    } else {
      var a, b := statements, statements;
      if ShelvesAgree(t, statements) {
        a, b := ValuesShow(t, ShelfTakenFrom(t, statements).value, statements);
      } else {
        a, b := ShelvesShow(t, statements);
      }
      assert PlaceRecord(t, a) != PlaceRecord(t, statements) || PlaceRecord(t, b) != PlaceRecord(t, statements);
    }
  }

  // ---------------------------------------------------------------------- as statements are written

  /** Unbeaten statements of one slot, each its own key, name one item. */
  lemma TextTies<K>(
      t: Taxonomy, subject: Subject, slot: S.Statement -> Option<K>, those: seq<S.Statement>, x: S.Statement, y: S.Statement)
    requires Unbeaten(S.Better, slot, those, x) && Unbeaten(S.Better, slot, those, y) && slot(x) == slot(y)
    requires S.TextIsKey(x) && S.TextIsKey(y) && x.value.Text? && y.value.Text?
    ensures Said(t, subject, x) == Said(t, subject, y)
  {
    Order.TiesShare(x, y);
  }

  /** Statements whose text is their key always agree. */
  lemma TextAgrees(t: Taxonomy, statements: seq<S.Statement>)
    requires forall s :: s in statements ==> S.TextIsKey(s)
    ensures Agree(t, statements)
  {
    forall x, y |
      Unbeaten(S.Better, ShelfSlot(t), Those(statements, "shelf"), x)
      && Unbeaten(S.Better, ShelfSlot(t), Those(statements, "shelf"), y)
      ensures Said(t, ShelfSubject, x) == Said(t, ShelfSubject, y)
    {
      TextTies(t, ShelfSubject, ShelfSlot(t), Those(statements, "shelf"), x, y);
    }
    if ShelfTakenFrom(t, statements).Some? {
      var slot := ValueSlot(t, OnShelfIds(t, Some(On(ShelfTakenFrom(t, statements).value))));
      forall x, y |
        Unbeaten(S.Better, slot, Those(statements, "features"), x)
        && Unbeaten(S.Better, slot, Those(statements, "features"), y)
        && slot(x) == slot(y) && slot(x).value.Only?
        ensures Said(t, ValueSubject, x) == Said(t, ValueSubject, y)
      {
        TextTies(t, ValueSubject, slot, Those(statements, "features"), x, y);
      }
    }
  }

  /**
   * A place never depends on the order of statements as they are written: an answer's parts are keyed by the ID each
   * names (platform/worker/src/taxonomy.ts:179-187), and any other text by itself.
   */
  lemma PlacedAlike(t: Taxonomy, a: seq<S.Statement>, b: seq<S.Statement>)
    requires UniqueIds(t) && (forall s :: s in a ==> S.TextIsKey(s))
    requires forall s :: s in a <==> s in b
    ensures PlaceRecord(t, a) == PlaceRecord(t, b)
  {
    TextAgrees(t, a);
    PlacedAnyOrder(t, a, b);
  }
}
