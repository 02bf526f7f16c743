/**
 A person's answers: what `checkTaxonomyAnswer` lets through merges into a whole answer that is
 sound, and carrying a person's word over later questions and later versions keeps it so.
 */
module TaxonomyAnswers {
  import opened Basics
  import opened Taxonomies
  import opened TaxonomyChanges
  import opened TaxonomyForwarding
  import opened TaxonomyVersions
  import opened TaxonomyDecision
  import opened TaxonomyDeciding

  // ---------------------------------------------------------------------- an answer checked

  /** The value a tick names, of the feature it is under. */
  function TickOf(t: Taxonomy, featureRef: Ref, valueRef: Ref): Option<Id> {
    match Find(t, FeatureSubject, featureRef)
    case None => None
    case Some(p) =>
      match FirstFrom(t.features[p.i].values, valueRef, 0)
      case None => None
      case Some(j) => Some(t.features[p.i].values[j].id)
  }

  predicate Ticks(t: Taxonomy, entry: (Ref, seq<Ref>), value: Id) {
    exists r :: r in entry.1 && TickOf(t, entry.0, r) == Some(value)
  }

  predicate Ticked(t: Taxonomy, given: seq<(Ref, seq<Ref>)>, value: Id) {
    exists k :: 0 <= k < |given| && Ticks(t, given[k], value)
  }

  /** Two entries for one feature that takes one value name the same value. */
  predicate EntriesAgree(t: Taxonomy, a: (Ref, seq<Ref>), b: (Ref, seq<Ref>)) {
    match (Find(t, FeatureSubject, a.0), Find(t, FeatureSubject, b.0))
    case (Some(p), Some(q)) =>
      p == q && t.features[p.i].cardinality == TakesOne ==>
        forall x, y :: x in a.1 && y in b.1 ==> TickOf(t, a.0, x) == TickOf(t, b.0, y)
    case _ => true
  }

  /** A feature that takes one value, named by its ID and by its slug, is given the same value both times. */
  predicate TicksAgree(t: Taxonomy, given: seq<(Ref, seq<Ref>)>) {
    forall k, l :: 0 <= k < |given| && 0 <= l < |given| ==> EntriesAgree(t, given[k], given[l])
  }

  /** What lets an entry's values through: they are its feature's, offered, and may be taken on the shelf. */
  ghost predicate Allowed(t: Taxonomy, offered: seq<FeaturePart>, onShelf: Option<Place>, value: Id) {
    && FeatureIdOf(t, value).Some?
    && Offered(offered, FeatureIdOf(t, value).value).Some?
    && value in Offered(offered, FeatureIdOf(t, value).value).value
    && MayTake(t, onShelf, FeatureIdOf(t, value).value)
  }

  lemma TicksMore(t: Taxonomy, featureRef: Ref, refs: seq<Ref>, v: Id)
    requires refs != []
    ensures
      Ticks(t, (featureRef, refs), v) <==>
        Ticks(t, (featureRef, refs[..|refs| - 1]), v) || TickOf(t, featureRef, refs[|refs| - 1]) == Some(v)
  {
    var front, last := refs[..|refs| - 1], refs[|refs| - 1];
    assert refs == front + [last];
    if Ticks(t, (featureRef, front), v) {
      var r :| r in front && TickOf(t, featureRef, r) == Some(v);
      assert r in refs;
    }
    assert last in refs;
  }

  /** One more value let through. */
  lemma CheckedMore(feature: Feature, offered: seq<Id>, refs: seq<Ref>, mayTake: bool) returns (id: Id)
    requires refs != [] && CheckValues(feature, offered, refs, mayTake).Some?
    ensures CheckValues(feature, offered, refs[..|refs| - 1], mayTake).Some?
    ensures FirstFrom(feature.values, refs[|refs| - 1], 0).Some?
    ensures id == feature.values[FirstFrom(feature.values, refs[|refs| - 1], 0).value].id
    ensures
      CheckValues(feature, offered, refs, mayTake).value
        == Add(CheckValues(feature, offered, refs[..|refs| - 1], mayTake).value, id)
  {
    id := feature.values[FirstFrom(feature.values, refs[|refs| - 1], 0).value].id;
  }

  /** The values of all entries but the last, and the last's, are those of all. */
  lemma TicksAdd(t: Taxonomy, featureRef: Ref, refs: seq<Ref>, before: seq<Id>, id: Id)
    requires refs != [] && TickOf(t, featureRef, refs[|refs| - 1]) == Some(id)
    requires forall v :: v in before <==> Ticks(t, (featureRef, refs[..|refs| - 1]), v)
    ensures forall v :: v in Add(before, id) <==> Ticks(t, (featureRef, refs), v)
  {
    forall v
      ensures v in Add(before, id) <==> Ticks(t, (featureRef, refs), v)
    {
      TicksMore(t, featureRef, refs, v);
    }
  }

  lemma CheckedNext(t: Taxonomy, i: nat, featureRef: Ref, offered: seq<Id>, refs: seq<Ref>, mayTake: bool)
    requires i < |t.features| && Find(t, FeatureSubject, featureRef) == Some(AtFeature(i)) && refs != []
    requires CheckValues(t.features[i], offered, refs, mayTake).Some?
    ensures CheckValues(t.features[i], offered, refs[..|refs| - 1], mayTake).Some?
    ensures TickOf(t, featureRef, refs[|refs| - 1]).Some?
    ensures
      CheckValues(t.features[i], offered, refs, mayTake).value
        == Add(CheckValues(t.features[i], offered, refs[..|refs| - 1], mayTake).value, TickOf(t, featureRef, refs[|refs| - 1]).value)
  {
    var _ := CheckedMore(t.features[i], offered, refs, mayTake);
  }

  lemma {:induction false} CheckedFound(
      t: Taxonomy, i: nat, featureRef: Ref, offered: seq<Id>, refs: seq<Ref>, mayTake: bool, r: Ref)
    requires i < |t.features| && Find(t, FeatureSubject, featureRef) == Some(AtFeature(i))
    requires CheckValues(t.features[i], offered, refs, mayTake).Some? && r in refs
    ensures TickOf(t, featureRef, r).Some?
  {
    CheckedNext(t, i, featureRef, offered, refs, mayTake);
    if r != refs[|refs| - 1] {
      assert refs == refs[..|refs| - 1] + [refs[|refs| - 1]];
      CheckedFound(t, i, featureRef, offered, refs[..|refs| - 1], mayTake, r);
    }
  }

  lemma {:induction false} ValuesAreTicks(t: Taxonomy, i: nat, featureRef: Ref, offered: seq<Id>, refs: seq<Ref>, mayTake: bool)
    requires i < |t.features| && Find(t, FeatureSubject, featureRef) == Some(AtFeature(i))
    requires CheckValues(t.features[i], offered, refs, mayTake).Some?
    ensures forall v :: v in CheckValues(t.features[i], offered, refs, mayTake).value <==> Ticks(t, (featureRef, refs), v)
  {
    if refs != [] {
      var front := refs[..|refs| - 1];
      CheckedNext(t, i, featureRef, offered, refs, mayTake);
      ValuesAreTicks(t, i, featureRef, offered, front, mayTake);
      TicksAdd(t, featureRef, refs, CheckValues(t.features[i], offered, front, mayTake).value,
               TickOf(t, featureRef, refs[|refs| - 1]).value);
    }
  }

  lemma CheckedValues(t: Taxonomy, i: nat, featureRef: Ref, offered: seq<Id>, refs: seq<Ref>, mayTake: bool)
    requires i < |t.features| && Find(t, FeatureSubject, featureRef) == Some(AtFeature(i))
    requires CheckValues(t.features[i], offered, refs, mayTake).Some?
    ensures forall v :: v in CheckValues(t.features[i], offered, refs, mayTake).value <==> Ticks(t, (featureRef, refs), v)
    ensures forall r :: r in refs ==> TickOf(t, featureRef, r).Some?
  {
    ValuesAreTicks(t, i, featureRef, offered, refs, mayTake);
    forall r | r in refs
      ensures TickOf(t, featureRef, r).Some?
    {
      CheckedFound(t, i, featureRef, offered, refs, mayTake, r);
    }
  }

  /** One entry let through: its values are its ticks, each allowed, and one at most for a feature that takes one. */
  ghost predicate EntryFits(t: Taxonomy, offered: seq<FeaturePart>, onShelf: Option<Place>, entry: (Ref, seq<Ref>)) {
    && Find(t, FeatureSubject, entry.0).Some?
    && (forall v :: Ticks(t, entry, v) ==> Allowed(t, offered, onShelf, v))
    && (forall r :: r in entry.1 ==> TickOf(t, entry.0, r).Some?)
    && EntriesAgree(t, entry, entry)
  }

  lemma TickFeature(t: Taxonomy, featureRef: Ref, valueRef: Ref)
    requires UniqueIds(t) && TickOf(t, featureRef, valueRef).Some?
    ensures
      FeatureIdOf(t, TickOf(t, featureRef, valueRef).value)
      == Some(t.features[Find(t, FeatureSubject, featureRef).value.i].item.id)
  {
    var i := Find(t, FeatureSubject, featureRef).value.i;
    FeatureIdAt(t, i, FirstFrom(t.features[i].values, valueRef, 0).value);
  }

  lemma AtMostOne(values: seq<Id>, x: Id, y: Id)
    requires |values| <= 1 && x in values && y in values
    ensures x == y
  {
  }

  lemma CheckedEntry(t: Taxonomy, asked: Parts, entry: (Ref, seq<Ref>), onShelf: Option<Place>)
    requires UniqueIds(t) && CheckFeature(t, asked, entry, onShelf).Some?
    ensures EntryFits(t, asked.features, onShelf, entry)
    ensures forall v :: v in CheckFeature(t, asked, entry, onShelf).value <==> Ticks(t, entry, v)
  {
    var i := Find(t, FeatureSubject, entry.0).value.i;
    var feature := t.features[i];
    var offered := Offered(asked.features, feature.item.id).value;
    var mayTake := MayTake(t, onShelf, feature.item.id);
    CheckedValues(t, i, entry.0, offered, entry.1, mayTake);
    var chosen := CheckValues(feature, offered, entry.1, mayTake).value;
    forall v | Ticks(t, entry, v)
      ensures Allowed(t, asked.features, onShelf, v)
    {
      var r :| r in entry.1 && TickOf(t, entry.0, r) == Some(v);
      TickFeature(t, entry.0, r);
      assert v in chosen;
    }
    if feature.cardinality == TakesOne {
      forall x, y | x in entry.1 && y in entry.1
        ensures TickOf(t, entry.0, x) == TickOf(t, entry.0, y)
      {
        assert Ticks(t, entry, TickOf(t, entry.0, x).value) && Ticks(t, entry, TickOf(t, entry.0, y).value);
        AtMostOne(chosen, TickOf(t, entry.0, x).value, TickOf(t, entry.0, y).value);
      }
    }
  }

  lemma TickedLast(t: Taxonomy, given: seq<(Ref, seq<Ref>)>, v: Id)
    requires given != []
    ensures Ticked(t, given, v) <==> Ticked(t, given[..|given| - 1], v) || Ticks(t, given[|given| - 1], v)
  {
    var front := given[..|given| - 1];
    if Ticked(t, front, v) {
      var k :| 0 <= k < |front| && Ticks(t, front[k], v);
      assert Ticks(t, given[k], v);
    }
    if Ticked(t, given, v) {
      var k :| 0 <= k < |given| && Ticks(t, given[k], v);
      assert k < |front| ==> Ticks(t, front[k], v);
    }
  }

  lemma {:induction false} CheckedEntries(t: Taxonomy, asked: Parts, given: seq<(Ref, seq<Ref>)>, onShelf: Option<Place>, k: nat)
    requires UniqueIds(t) && CheckFeatures(t, asked, given, onShelf).Some? && k < |given|
    ensures EntryFits(t, asked.features, onShelf, given[k])
    decreases |given|
  {
    if k < |given| - 1 {
      CheckedEntries(t, asked, given[..|given| - 1], onShelf, k);
    } else {
      CheckedEntry(t, asked, given[k], onShelf);
    }
  }

  /** An answer let through: its values are the ticks. */
  lemma {:induction false} CheckedTicks(t: Taxonomy, asked: Parts, given: seq<(Ref, seq<Ref>)>, onShelf: Option<Place>, v: Id)
    requires UniqueIds(t) && CheckFeatures(t, asked, given, onShelf).Some?
    ensures v in CheckFeatures(t, asked, given, onShelf).value <==> Ticked(t, given, v)
    decreases |given|
  {
    if given != [] {
      CheckedTicks(t, asked, given[..|given| - 1], onShelf, v);
      CheckedEntry(t, asked, given[|given| - 1], onShelf);
      TickedLast(t, given, v);
    }
  }

  lemma CheckedFeatures(t: Taxonomy, asked: Parts, given: seq<(Ref, seq<Ref>)>, onShelf: Option<Place>)
    requires UniqueIds(t) && CheckFeatures(t, asked, given, onShelf).Some?
    ensures forall k :: 0 <= k < |given| ==> EntryFits(t, asked.features, onShelf, given[k])
    ensures forall v :: v in CheckFeatures(t, asked, given, onShelf).value <==> Ticked(t, given, v)
  {
    forall k | 0 <= k < |given|
      ensures EntryFits(t, asked.features, onShelf, given[k])
    {
      CheckedEntries(t, asked, given, onShelf, k);
    }
    forall v
      ensures v in CheckFeatures(t, asked, given, onShelf).value <==> Ticked(t, given, v)
    {
      CheckedTicks(t, asked, given, onShelf, v);
    }
  }

  /** Every value let through is allowed. */
  lemma CheckedAllowed(t: Taxonomy, asked: Parts, given: seq<(Ref, seq<Ref>)>, onShelf: Option<Place>)
    requires UniqueIds(t) && CheckFeatures(t, asked, given, onShelf).Some?
    ensures forall v :: v in CheckFeatures(t, asked, given, onShelf).value ==> Allowed(t, asked.features, onShelf, v)
  {
    CheckedFeatures(t, asked, given, onShelf);
    forall v | v in CheckFeatures(t, asked, given, onShelf).value
      ensures Allowed(t, asked.features, onShelf, v)
    {
      var k :| 0 <= k < |given| && Ticks(t, given[k], v);
      assert EntryFits(t, asked.features, onShelf, given[k]);
    }
  }

  /**
   * An answer let through gives at most one value for each feature that takes one exactly when the
   * entries that name one such feature agree, as they do when each feature is named once.
   */
  lemma CheckedOnePer(t: Taxonomy, asked: Parts, given: seq<(Ref, seq<Ref>)>, onShelf: Option<Place>)
    requires UniqueIds(t) && CheckFeatures(t, asked, given, onShelf).Some?
    ensures OnePer(t, CheckFeatures(t, asked, given, onShelf).value) <==> TicksAgree(t, given)
  {
    var values := CheckFeatures(t, asked, given, onShelf).value;
    CheckedFeatures(t, asked, given, onShelf);
    forall k | 0 <= k < |given|
      ensures forall r :: r in given[k].1 ==> TickOf(t, given[k].0, r).Some?
    {
      assert EntryFits(t, asked.features, onShelf, given[k]);
    }
    if OnePer(t, values) {
      forall k, l | 0 <= k < |given| && 0 <= l < |given|
        ensures EntriesAgree(t, given[k], given[l])
      {
        EntriesAgreeIf(t, values, given[k], given[l]);
      }
    }
    if TicksAgree(t, given) {
      OnePerIf(t, values, given);
    }
  }

  lemma OnePerIf(t: Taxonomy, values: seq<Id>, given: seq<(Ref, seq<Ref>)>)
    requires UniqueIds(t) && TicksAgree(t, given)
    requires forall v :: v in values ==> Ticked(t, given, v)
    ensures OnePer(t, values)
  {
    forall a, b | a in values && b in values && Compete(t, a, b)
      ensures a == b
    {
      var k :| 0 <= k < |given| && Ticks(t, given[k], a);
      var l :| 0 <= l < |given| && Ticks(t, given[l], b);
      var x :| x in given[k].1 && TickOf(t, given[k].0, x) == Some(a);
      var y :| y in given[l].1 && TickOf(t, given[l].0, y) == Some(b);
      assert EntriesAgree(t, given[k], given[l]);
      SameTickedFeature(t, given[k].0, x, given[l].0, y);
    }
  }

  lemma SameTickedFeature(t: Taxonomy, f: Ref, x: Ref, g: Ref, y: Ref)
    requires UniqueIds(t) && TickOf(t, f, x).Some? && TickOf(t, g, y).Some?
    requires FeatureIdOf(t, TickOf(t, f, x).value) == FeatureIdOf(t, TickOf(t, g, y).value)
    ensures Find(t, FeatureSubject, f) == Find(t, FeatureSubject, g)
    ensures
      var p := Find(t, FeatureSubject, f).value;
      TakesOneValue(t, FeatureIdOf(t, TickOf(t, f, x).value).value) == (t.features[p.i].cardinality == TakesOne)
  {
    TickFeature(t, f, x);
    TickFeature(t, g, y);
    FindAt(t, Find(t, FeatureSubject, f).value);
    FindAt(t, Find(t, FeatureSubject, g).value);
  }

  lemma EntriesAgreeIf(t: Taxonomy, values: seq<Id>, a: (Ref, seq<Ref>), b: (Ref, seq<Ref>))
    requires UniqueIds(t) && OnePer(t, values)
    requires forall v :: Ticks(t, a, v) || Ticks(t, b, v) ==> v in values
    requires forall r :: r in a.1 ==> TickOf(t, a.0, r).Some?
    requires forall r :: r in b.1 ==> TickOf(t, b.0, r).Some?
    ensures EntriesAgree(t, a, b)
  {
    var p, q := Find(t, FeatureSubject, a.0), Find(t, FeatureSubject, b.0);
    if p.Some? && p == q && t.features[p.value.i].cardinality == TakesOne {
      forall x, y | x in a.1 && y in b.1
        ensures TickOf(t, a.0, x) == TickOf(t, b.0, y)
      {
        TickFeature(t, a.0, x);
        TickFeature(t, b.0, y);
        SameTickedFeature(t, a.0, x, b.0, y);
        var v, w := TickOf(t, a.0, x).value, TickOf(t, b.0, y).value;
        assert Ticks(t, a, v) && Ticks(t, b, w);
        assert Compete(t, v, w);
      }
    }
  }

  /** Each feature is named once. */
  predicate NamedOnce(t: Taxonomy, given: seq<(Ref, seq<Ref>)>) {
    forall k, l :: 0 <= k < l < |given| && Find(t, FeatureSubject, given[k].0).Some? ==>
      Find(t, FeatureSubject, given[k].0) != Find(t, FeatureSubject, given[l].0)
  }

  lemma NamedOnceAgrees(t: Taxonomy, asked: Parts, given: seq<(Ref, seq<Ref>)>, onShelf: Option<Place>)
    requires UniqueIds(t) && CheckFeatures(t, asked, given, onShelf).Some? && NamedOnce(t, given)
    ensures TicksAgree(t, given)
  {
    CheckedFeatures(t, asked, given, onShelf);
    forall k, l | 0 <= k < |given| && 0 <= l < |given|
      ensures EntriesAgree(t, given[k], given[l])
    {
      assert EntryFits(t, asked.features, onShelf, given[k]);
      if k < l {
        assert Find(t, FeatureSubject, given[k].0) != Find(t, FeatureSubject, given[l].0);
      } else if l < k {
        assert Find(t, FeatureSubject, given[l].0) != Find(t, FeatureSubject, given[k].0);
      }
    }
  }

  // ---------------------------------------------------------------------- merged with what was settled

  /** What a question's given answer is: within what it asks, one value at most for a feature that takes one. */
  ghost predicate WellGiven(t: Taxonomy, asked: Parts, given: Answer) {
    && (forall fn :: fn in given.functions ==> fn in asked.functions)
    && (forall v :: v in given.values ==> v in AllValues(asked.features))
    && AllKnown(t, given.values) && OnePer(t, given.values)
  }

  /** The functions given are among those asked, and the values, on the final shelf, each under a feature asked. */
  lemma CheckedWell(t: Taxonomy, asked: Parts, given: GivenParts, settledShelf: Option<Place>)
    requires UniqueIds(t) && CheckTaxonomyAnswer(t, asked, given, settledShelf).Some? && TicksAgree(t, given.features)
    ensures
      var answer := CheckTaxonomyAnswer(t, asked, given, settledShelf).value;
      var onShelf := if answer.shelf != None then answer.shelf else settledShelf;
      && WellGiven(t, asked, answer)
      && (forall v :: v in answer.values ==> Allowed(t, asked.features, onShelf, v))
      && (answer.shelf.Some? <==> asked.shelves != [])
      && (answer.shelf.Some? && answer.shelf.value.On? ==> LiveId(t, ShelfSubject, answer.shelf.value.id))
  {
    var shelf := CheckShelf(t, asked, given.shelf).value;
    var onShelf := if shelf != None then shelf else settledShelf;
    CheckedAllowed(t, asked, given.features, onShelf);
    CheckedOnePer(t, asked, given.features, onShelf);
    if shelf.Some? && shelf.value.On? {
      FindAt(t, LiveItem(t, ShelfSubject, given.shelf.value.ref).value);
    }
  }

  /**
   * Deciding and then answering is sound: what a person's checked answer makes of a decision has every
   * value on its shelf, one at most for each feature that takes one, none of their ticks lost, and no
   * function its shelf implies.
   */
  lemma MergedWell(t: Taxonomy, d: PartsDecision, parts: GivenParts)
    requires UniqueIds(t) && WellDecided(t, d.settled.values, d.open.features)
    requires CheckTaxonomyAnswer(t, d.open, parts, d.settled.shelf).Some? && TicksAgree(t, parts.features)
    ensures
      var given := CheckTaxonomyAnswer(t, d.open, parts, d.settled.shelf).value;
      var whole := MergeAnswers(t, d.settled, given);
      && (whole.shelf != None ==> forall v :: v in whole.values ==> Fits(t, whole.shelf, v))
      && OnePer(t, whole.values)
      && (forall fn :: fn in whole.functions ==> fn !in ImpliedBy(t, whole.shelf))
      && (forall v :: v in given.values ==> v in whole.values)
      && (forall fn :: fn in given.functions ==> fn in whole.functions || fn in ImpliedBy(t, whole.shelf))
  {
    CheckedWell(t, d.open, parts, d.settled.shelf);
    var given := CheckTaxonomyAnswer(t, d.open, parts, d.settled.shelf).value;
    var whole := MergeAnswers(t, d.settled, given);
    forall a, b | a in whole.values && b in whole.values && Compete(t, a, b)
      ensures a == b
    {
      if a in given.values && b in d.settled.values {
        SettledNotGiven(t, d, given, b, a);
      } else if b in given.values && a in d.settled.values {
        SettledNotGiven(t, d, given, a, b);
      }
    }
  }

  /** A feature that takes one value isn't both settled and given. */
  lemma SettledNotGiven(t: Taxonomy, d: PartsDecision, given: Answer, settled: Id, ticked: Id)
    requires WellDecided(t, d.settled.values, d.open.features) && settled in d.settled.values
    requires FeatureIdOf(t, ticked).Some? && FeatureIdOf(t, settled) == FeatureIdOf(t, ticked)
    requires Offered(d.open.features, FeatureIdOf(t, ticked).value).Some?
    ensures !Compete(t, settled, ticked)
  {
    var k := PartAt(d.open.features, FeatureIdOf(t, ticked).value).value;
    assert d.open.features[k].feature == FeatureIdOf(t, ticked).value;
  }

  // ---------------------------------------------------------------------- a person's word, carried over

  /** What a finalized answer keeps for the next question. */
  ghost predicate WellKept(t: Taxonomy, final: Final) {
    WellOffered(t, final.asked.features) && WellGiven(t, final.asked, final.given)
  }

  lemma OnePerLater(t: Taxonomy, u: Taxonomy, values: seq<Id>)
    requires Later(t, u) && UniqueIds(u) && AllKnown(t, values) && OnePer(t, values)
    ensures AllKnown(u, values) && OnePer(u, values)
  {
    forall v | v in values
      ensures FeatureIdOf(u, v) == FeatureIdOf(t, v)
      ensures TakesOneValue(u, FeatureIdOf(t, v).value) == TakesOneValue(t, FeatureIdOf(t, v).value)
    {
      FeatureIdLater(t, u, v);
    }
    forall a, b | a in values && b in values && Compete(u, a, b)
      ensures a == b
    {
      assert Compete(t, a, b);
    }
  }

  /** A finalized answer stays well kept in later versions. */
  lemma WellKeptLater(t: Taxonomy, u: Taxonomy, final: Final)
    requires Later(t, u) && UniqueIds(u) && WellKept(t, final)
    ensures WellKept(u, final)
  {
    OnePerLater(t, u, final.given.values);
    forall k | 0 <= k < |final.asked.features|
      ensures PartFits(u, final.asked.features[k])
    {
      var part := final.asked.features[k];
      assert PartFits(t, part);
      forall v | v in part.values
        ensures FeatureIdOf(u, v) == Some(part.feature)
      {
        FeatureIdLater(t, u, v);
      }
    }
  }

  lemma CarriedFrom(t: Taxonomy, asked: seq<Id>, given: seq<Id>, shelf: Option<Place>, yes: bool, now: Id)
    ensures now in CarriedValues(t, asked, given, shelf, yes) <==>
      exists v :: v in asked && CarriedValue(t, given, shelf, yes, v) == Some(now)
  {
    var f := (v: Id) => CarriedValue(t, given, shelf, yes, v);
    MappedFrom(f, asked, now);
    assert forall v :: f(v) == CarriedValue(t, given, shelf, yes, v);
  }

  lemma CarriedFit(t: Taxonomy, asked: seq<Id>, given: seq<Id>, shelf: Option<Place>, yes: bool)
    ensures forall v :: v in CarriedValues(t, asked, given, shelf, yes) ==> Fits(t, shelf, v)
  {
    forall now | now in CarriedValues(t, asked, given, shelf, yes)
      ensures Fits(t, shelf, now)
    {
      CarriedFrom(t, asked, given, shelf, yes, now);
    }
  }

  /** Two values carried over of one feature that takes one were one value given. */
  lemma CarriedTogether(t: Taxonomy, asked: seq<Id>, given: seq<Id>, shelf: Option<Place>, a: Id, b: Id)
    requires Usable(t) && OnePer(t, given) && Compete(t, a, b)
    requires a in CarriedValues(t, asked, given, shelf, true) && b in CarriedValues(t, asked, given, shelf, true)
    ensures a == b
  {
    CarriedFrom(t, asked, given, shelf, true, a);
    CarriedFrom(t, asked, given, shelf, true, b);
    var x :| x in asked && CarriedValue(t, given, shelf, true, x) == Some(a);
    var y :| y in asked && CarriedValue(t, given, shelf, true, y) == Some(b);
    ResolveKeepsFeature(t, x);
    ResolveKeepsFeature(t, y);
    assert Compete(t, x, y);
  }

  /** A person's yes carried over: on the shelf, and one at most for each feature that takes one. */
  lemma CarriedYes(t: Taxonomy, final: Final, shelf: Option<Place>)
    requires Usable(t) && WellKept(t, final)
    ensures
      var yes := CarriedOver(t, Some(final), shelf).yesValues;
      OnePer(t, yes) && forall v :: v in yes ==> Fits(t, shelf, v)
  {
    var asked, given := AllValues(final.asked.features), final.given.values;
    var yes := CarriedOver(t, Some(final), shelf).yesValues;
    CarriedFit(t, asked, given, shelf, true);
    forall a, b | a in yes && b in yes && Compete(t, a, b)
      ensures a == b
    {
      CarriedTogether(t, asked, given, shelf, a, b);
    }
  }

  /** The person's word where this question doesn't ask it again: one at most for a feature, none the question decides whole. */
  ghost predicate WordFits(t: Taxonomy, q: Question, shelf: Option<Place>, word: Carried) {
    && OnePer(t, word.yesValues)
    && (forall v :: v in word.yesValues + word.noValues ==> Fits(t, shelf, v) && !ValueTakenWhole(t, q, v))
    && (forall id :: id in word.yesFunctions + word.noFunctions + word.yesValues + word.noValues ==> !AskedNow(q, id))
  }

  lemma StandingFits(t: Taxonomy, q: Question, shelf: Option<Place>, carried: Carried)
    requires OnePer(t, carried.yesValues)
    requires forall v :: v in carried.yesValues || v in carried.noValues ==> Fits(t, shelf, v)
    ensures WordFits(t, q, shelf, Standing(t, q, carried))
  {
  }

  lemma WordIs(t: Taxonomy, q: Question, previous: Option<Final>, shelf: Option<Place>)
    requires Usable(t) && (previous.Some? ==> WellKept(t, previous.value))
    ensures WordFits(t, q, shelf, Word(t, q, previous, shelf))
  {
    if previous.Some? && previous.value.answer.shelf != Some(NoneOfThese) {
      var final := previous.value;
      CarriedYes(t, final, shelf);
      CarriedFit(t, AllValues(final.asked.features), final.given.values, shelf, false);
      StandingFits(t, q, shelf, CarriedOver(t, previous, shelf));
    }
  }

  // ---------------------------------------------------------------------- an answer made whole

  /** A whole answer: on its shelf, one value at most for a feature that takes one, nothing its shelf implies. */
  ghost predicate Sound(t: Taxonomy, answer: Answer) {
    && OnePer(t, answer.values)
    && (answer.shelf != None ==> forall v :: v in answer.values ==> Fits(t, answer.shelf, v))
    && (forall fn :: fn in answer.functions ==> fn !in ImpliedBy(t, answer.shelf))
  }

  /** A person's word in a whole answer: their yes is in, unless the shelf implies it, and their no is out. */
  ghost predicate Heeds(t: Taxonomy, answer: Answer, word: Carried) {
    && (forall fn :: fn in word.yesFunctions ==> fn in answer.functions || fn in ImpliedBy(t, answer.shelf))
    && (forall v :: v in word.yesValues ==> v in answer.values)
    && (forall fn :: fn in word.noFunctions && fn !in word.yesFunctions ==> fn !in answer.functions)
    && (forall v :: v in word.noValues && v !in word.yesValues ==> v !in answer.values)
  }

  /** What is given now is in the whole answer. */
  ghost predicate Takes(t: Taxonomy, answer: Answer, given: Answer) {
    && (forall fn :: fn in given.functions ==> fn in answer.functions || fn in ImpliedBy(t, answer.shelf))
    && (forall v :: v in given.values ==> v in answer.values)
  }

  lemma WholeSound(t: Taxonomy, q: Question, base: Answer, shelf: Option<Place>, word: Carried)
    requires WellGiven(t, q.asked, q.given) && OnePer(t, base.values) && WordFits(t, q, shelf, word)
    requires shelf != None ==> forall v :: v in q.given.values ==> Fits(t, shelf, v)
    ensures Sound(t, Whole(t, q, base, shelf, word).answer)
  {
    var values := Whole(t, q, base, shelf, word).answer.values;
    forall a, b | a in values && b in values && Compete(t, a, b)
      ensures a == b
    {
      WholePair(t, q, base, shelf, word, a, b);
      WholePair(t, q, base, shelf, word, b, a);
    }
  }

  /** Where two values of one feature that takes one can both come from. */
  lemma WholePair(t: Taxonomy, q: Question, base: Answer, shelf: Option<Place>, word: Carried, a: Id, b: Id)
    requires Compete(t, a, b)
    requires a in q.given.values || a in word.yesValues || KeptValue(t, q, word, shelf, a)
    requires forall v :: v in word.yesValues ==> !ValueTakenWhole(t, q, v)
    ensures a in q.given.values ==> b !in word.yesValues && !KeptValue(t, q, word, shelf, b)
    ensures a in word.yesValues && KeptValue(t, q, word, shelf, b) ==> b in word.yesValues
  {
    if a in q.given.values {
      assert ValueTakenWhole(t, q, b);
    }
    if a in word.yesValues {
      assert TheirsWhole(t, word.yesValues, b);
    }
  }

  /** Where what is in a whole answer comes from. */
  lemma WholeHas(t: Taxonomy, q: Question, base: Answer, shelf: Option<Place>, word: Carried, id: Id)
    ensures
      var answer := Whole(t, q, base, shelf, word).answer;
      && (id in answer.values <==>
            (id in base.values && KeptValue(t, q, word, shelf, id)) || id in q.given.values || id in word.yesValues)
      && (id in answer.functions <==>
            && id !in ImpliedBy(t, shelf)
            && ((id in base.functions && KeptFunction(q, word, id)) || id in q.given.functions || id in word.yesFunctions))
  {
  }

  lemma WholeHeeds(t: Taxonomy, q: Question, base: Answer, shelf: Option<Place>, word: Carried)
    requires WellGiven(t, q.asked, q.given) && WordFits(t, q, shelf, word)
    ensures Heeds(t, Whole(t, q, base, shelf, word).answer, word)
    ensures Takes(t, Whole(t, q, base, shelf, word).answer, q.given)
  {
    var answer := Whole(t, q, base, shelf, word).answer;
    forall id
      ensures id in word.yesValues || id in q.given.values ==> id in answer.values
      ensures id in word.yesFunctions || id in q.given.functions ==> id in answer.functions || id in ImpliedBy(t, shelf)
      ensures id in word.noValues && id !in word.yesValues ==> id !in answer.values
      ensures id in word.noFunctions && id !in word.yesFunctions ==> id !in answer.functions
    {
      WholeHas(t, q, base, shelf, word, id);
      assert id in word.noValues || id in word.noFunctions ==> !AskedNow(q, id) by {
        assert id in word.noValues || id in word.noFunctions ==>
          id in word.yesFunctions + word.noFunctions + word.yesValues + word.noValues;
      }
    }
  }

  /** A value asked as well: the record of what was asked only grows, each value under its feature. */
  lemma AskedAlso(t: Taxonomy, features: seq<FeaturePart>, value: Id)
    requires WellOffered(t, features) && FeatureIdOf(t, value).Some?
    ensures WellOffered(t, AskAlso(features, FeatureIdOf(t, value).value, value))
    ensures forall v :: v in AllValues(features) || v == value ==>
      v in AllValues(AskAlso(features, FeatureIdOf(t, value).value, value))
  {
    var f := FeatureIdOf(t, value).value;
    var more := AskAlso(features, f, value);
    var at := PartAt(features, f);
    var k := if at.Some? then at.value else |features|;
    assert more[k].feature == f && value in more[k].values;
    assert forall l :: 0 <= l < |features| && l != k ==> more[l] == features[l];
    assert at.Some? ==> PartFits(t, features[k]);
    forall l | 0 <= l < |more|
      ensures PartFits(t, more[l])
    {
      assert l != k ==> PartFits(t, features[l]);
    }
    forall v | v in AllValues(features)
      ensures v in AllValues(more)
    {
      var l :| 0 <= l < |features| && v in features[l].values;
      assert v in more[l].values;
    }
  }

  lemma {:induction false} AskedAlsoAll(t: Taxonomy, features: seq<FeaturePart>, values: seq<Id>)
    requires WellOffered(t, features) && AllKnown(t, values)
    ensures WellOffered(t, AskAlsoAll(t, features, values))
    ensures forall v :: v in AllValues(features) || v in values ==> v in AllValues(AskAlsoAll(t, features, values))
  {
    if values != [] {
      var front, last := values[..|values| - 1], values[|values| - 1];
      AskedAlsoAll(t, features, front);
      AskedAlso(t, AskAlsoAll(t, features, front), last);
    }
  }

  /** And nothing else is asked. */
  lemma {:induction false} AskedNoMore(t: Taxonomy, features: seq<FeaturePart>, values: seq<Id>, v: Id)
    requires v in AllValues(AskAlsoAll(t, features, values))
    ensures v in AllValues(features) || v in values
  {
    if values != [] {
      var front, last := values[..|values| - 1], values[|values| - 1];
      var before := AskAlsoAll(t, features, front);
      if FeatureIdOf(t, last).Some? {
        AlsoNoMore(before, FeatureIdOf(t, last).value, last, v);
      }
      if v in AllValues(before) {
        AskedNoMore(t, features, front, v);
      }
    }
  }

  lemma AlsoNoMore(features: seq<FeaturePart>, featureId: Id, value: Id, v: Id)
    requires v in AllValues(AskAlso(features, featureId, value))
    ensures v in AllValues(features) || v == value
  {
    var more := AskAlso(features, featureId, value);
    var k :| 0 <= k < |more| && v in more[k].values;
  }

  lemma WholeKept(t: Taxonomy, q: Question, base: Answer, shelf: Option<Place>, word: Carried)
    requires WellGiven(t, q.asked, q.given) && WellOffered(t, q.asked.features) && WordFits(t, q, shelf, word)
    ensures WellKept(t, Whole(t, q, base, shelf, word))
  {
    var final := Whole(t, q, base, shelf, word);
    AskedAlsoAll(t, q.asked.features, word.yesValues + word.noValues);
    forall a, b | a in final.given.values && b in final.given.values && Compete(t, a, b)
      ensures a == b
    {
      if a in q.given.values && b in word.yesValues {
        assert ValueTakenWhole(t, q, b);
      }
      if b in q.given.values && a in word.yesValues {
        assert ValueTakenWhole(t, q, a);
      }
    }
  }

  /**
   * An answer made whole with the person's earlier word is sound, takes all they give now, heeds their
   * word where this question doesn't ask it again, and keeps what the next question needs.
   */
  lemma MadeWhole(t: Taxonomy, q: Question, previous: Option<Final>, standing: Option<Answer>)
    requires Usable(t) && WellGiven(t, q.asked, q.given) && WellOffered(t, q.asked.features)
    requires q.given.shelf == Some(NoneOfThese) ==> q.given == NONE_ANSWER
    requires previous.Some? ==> WellKept(t, previous.value)
    requires OnePer(t, (if standing != None then standing.value else q.settled).values)
    requires WithCarried(t, q, previous, standing).Some?
    ensures
      var final := WithCarried(t, q, previous, standing).value;
      && WellKept(t, final)
      && Sound(t, final.answer)
      && (q.given.shelf != Some(NoneOfThese) ==>
            && Takes(t, final.answer, q.given)
            && Heeds(t, final.answer, Word(t, q, previous, final.answer.shelf)))
  {
    if q.given.shelf != Some(NoneOfThese) {
      var base := if standing != None then standing.value else q.settled;
      var shelf := FinalShelf(t, q, previous, base).value;
      var word := Word(t, q, previous, shelf);
      WordIs(t, q, previous, shelf);
      WholeSound(t, q, base, shelf, word);
      WholeHeeds(t, q, base, shelf, word);
      WholeKept(t, q, base, shelf, word);
    }
  }
}
