/**
 The decision's functions as the source computes them, in loops that push onto lists
 (platform/core/src/taxonomy-decision.ts): each comes to what TaxonomyDecision says.
 */
module TaxonomyDecisionLoops {
  import opened Basics
  import opened Taxonomies
  import opened TaxonomyForwarding
  import opened TaxonomyDecision
  import S = Survivorship

  lemma FilterTo<T(!new)>(keep: T -> bool, list: seq<T>, k: nat)
    requires k < |list|
    ensures Filter(keep, list[..k + 1]) == Filter(keep, list[..k]) + if keep(list[k]) then [list[k]] else []
  {
    assert list[..k + 1][..k] == list[..k];
    assert Filter(keep, list[..k]) + [] == Filter(keep, list[..k]);
  }

  lemma MappedTo<A, B>(f: A -> Option<B>, list: seq<A>, k: nat)
    requires k < |list|
    ensures Mapped(f, list[..k + 1]) == Mapped(f, list[..k]) + match f(list[k]) case Some(x) => [x] case None => []
  {
    assert list[..k + 1][..k] == list[..k];
    assert Mapped(f, list[..k]) + [] == Mapped(f, list[..k]);
  }

  // ---------------------------------------------------------------------- asked

  method AskFeatures(features: seq<Feature>, decided: set<Id>) returns (asked: seq<FeaturePart>)
    ensures asked == AskedFeatures(features, decided)
  {
    asked := [];
    for k := 0 to |features|
      invariant asked == AskedFeatures(features[..k], decided)
    {
      assert features[..k + 1][..k] == features[..k];
      var open := AskedValues(features[k], decided);
      if |open| > 0 {
        asked := asked + [FeaturePart(features[k].item.id, open)];
      }
    }
    assert features[..|features|] == features;
  }

  // ---------------------------------------------------------------------- accepted

  method AcceptFunctions(implied: seq<Id>, asked: seq<Id>, chances: map<Id, real>, accept: real)
    returns (verdict: FunctionsVerdict)
    ensures verdict == JudgeFunctions(implied, asked, chances, accept)
  {
    var reject := Round(1.0 - accept);
    var settled: seq<Id>, open: seq<Id>, proposed: seq<Id> := [], [], [];
    for k := 0 to |asked|
      invariant FunctionsVerdict(settled, open, proposed) == JudgeFunctions(implied, asked[..k], chances, accept)
    {
      JudgeOneMore(implied, asked, chances, accept, k);
      var fn := asked[k];
      if fn in implied {
        continue;
      }
      var p := Chance(chances, fn);
      if p >= accept {
        settled := settled + [fn];
        proposed := proposed + [fn];
      } else if p > reject {
        open := open + [fn];
        if p >= 0.5 {
          proposed := proposed + [fn];
        }
      }
    }
    assert asked[..|asked|] == asked;
    verdict := FunctionsVerdict(settled, open, proposed);
  }

  lemma FilterSnoc<T(!new)>(keep: T -> bool, list: seq<T>, more: seq<T>)
    requires |more| <= 1
    ensures Filter(keep, list + more) == Filter(keep, list) + if more != [] && keep(more[0]) then more else []
  {
    if more == [] {
      assert list + more == list;
      assert Filter(keep, list) + [] == Filter(keep, list);
    } else {
      assert (list + more)[..|list|] == list && more == [more[0]];
      assert Filter(keep, list) + [] == Filter(keep, list);
    }
  }

  lemma JudgeOneMore(implied: seq<Id>, asked: seq<Id>, chances: map<Id, real>, accept: real, k: nat)
    requires k < |asked|
    ensures
      var before, after := JudgeFunctions(implied, asked[..k], chances, accept), JudgeFunctions(implied, asked[..k + 1], chances, accept);
      var fn := asked[k];
      var judged := Judge(Chance(chances, fn), accept, true);
      after == if fn in implied then before else FunctionsVerdict(
        if judged == Settled then before.settled + [fn] else before.settled,
        if judged == Open then before.open + [fn] else before.open,
        if judged == Settled || (judged == Open && Chance(chances, fn) >= 0.5) then before.proposed + [fn] else before.proposed)
  {
    var beyond := (fn: Id) => fn !in implied;
    var list := Filter(beyond, asked[..k]);
    FilterTo(beyond, asked, k);
    var more := if beyond(asked[k]) then [asked[k]] else [];
    FilterSnoc((fn: Id) => Judge(Chance(chances, fn), accept, true) == Settled, list, more);
    FilterSnoc((fn: Id) => Judge(Chance(chances, fn), accept, true) == Open, list, more);
    FilterSnoc((fn: Id) => Judge(Chance(chances, fn), accept, true) == Settled
                        || (Judge(Chance(chances, fn), accept, true) == Open && Chance(chances, fn) >= 0.5), list, more);
  }

  lemma JudgeOneValueMore(values: seq<Id>, chances: map<Id, real>, accept: real, known: bool, k: nat)
    requires k < |values|
    ensures
      var before := JudgeFeature(TakesMany, values[..k], chances, accept, known);
      var after := JudgeFeature(TakesMany, values[..k + 1], chances, accept, known);
      var value := values[k];
      var judged := Judge(Chance(chances, value), accept, known);
      after == FeatureVerdict(
        if judged == Settled then before.settled + [value] else before.settled,
        if judged == Open then before.open + [value] else before.open,
        if judged == Settled || (judged == Open && Chance(chances, value) >= 0.5) then before.proposed + [value]
        else before.proposed)
  {
    FilterTo((v: Id) => Judge(Chance(chances, v), accept, known) == Settled, values, k);
    FilterTo((v: Id) => Judge(Chance(chances, v), accept, known) == Open, values, k);
    FilterTo((v: Id) => Judge(Chance(chances, v), accept, known) == Settled
                     || (Judge(Chance(chances, v), accept, known) == Open && Chance(chances, v) >= 0.5), values, k);
  }

  method AcceptMany(values: seq<Id>, chances: map<Id, real>, accept: real, known: bool) returns (verdict: FeatureVerdict)
    ensures verdict == JudgeFeature(TakesMany, values, chances, accept, known)
  {
    var reject := Round(1.0 - accept);
    verdict := FeatureVerdict([], [], []);
    for k := 0 to |values|
      invariant verdict == JudgeFeature(TakesMany, values[..k], chances, accept, known)
    {
      JudgeOneValueMore(values, chances, accept, known, k);
      var value := values[k];
      var p := Chance(chances, value);
      if p >= accept && known {
        verdict := verdict.(settled := verdict.settled + [value], proposed := verdict.proposed + [value]);
      } else if p > reject {
        verdict := verdict.(open := verdict.open + [value]);
        if p >= 0.5 {
          verdict := verdict.(proposed := verdict.proposed + [value]);
        }
      }
    }
    assert values[..|values|] == values;
  }

  method AcceptFeatures(
      features: seq<Feature>, asked: seq<FeaturePart>, chances: map<Id, real>, accept: real, known: bool)
    returns (verdict: FeaturesVerdict)
    ensures verdict == JudgeFeatures(features, asked, chances, accept, known)
  {
    verdict := FeaturesVerdict([], [], []);
    for k := 0 to |features|
      invariant verdict == JudgeFeatures(features[..k], asked, chances, accept, known)
    {
      assert features[..k + 1][..k] == features[..k];
      var feature := features[k];
      var values := Offered(asked, feature.item.id);
      if values == None {
        continue;
      }
      var judged: FeatureVerdict;
      if feature.cardinality == TakesOne {
        judged := JudgeFeature(TakesOne, values.value, chances, accept, known);
      } else {
        judged := AcceptMany(values.value, chances, accept, known);
      }
      verdict := FeaturesVerdict(
        verdict.settled + judged.settled,
        if judged.open != [] then verdict.open + [FeaturePart(feature.item.id, judged.open)] else verdict.open,
        verdict.proposed + judged.proposed);
    }
    assert features[..|features|] == features;
  }

  /** `acceptParts` */
  method Accept(t: Taxonomy, asked: Parts, fixedShelf: Option<Id>, probabilities: Probabilities, accept: real)
    returns (d: PartsDecision)
    ensures d == AcceptParts(t, asked, fixedShelf, probabilities, accept)
  {
    var verdict := DecideShelf(t, asked, fixedShelf, probabilities.shelves, accept);
    if verdict.shelf == Some(NoneOfThese) {
      return PartsDecision(NONE_ANSWER, NO_PARTS, NONE_ANSWER, false);
    }
    var functions := AcceptFunctions(ImpliedBy(t, verdict.shelf), asked.functions, probabilities.functions, accept);
    var features := AcceptFeatures(
      FeaturesAt(t, JudgedPlaces(t, verdict)), asked.features, probabilities.values, accept, verdict.shelf != None);
    d := PartsDecision(
      Answer(verdict.shelf, functions.settled, features.settled),
      Parts(verdict.open, functions.open, features.open),
      Answer(ProposedShelf(verdict, probabilities.shelves), functions.proposed, features.proposed),
      verdict.fallback);
  }

  // ---------------------------------------------------------------------- checked

  method CheckOne(t: Taxonomy, asked: Parts, entry: (Ref, seq<Ref>), onShelf: Option<Place>) returns (values: Option<seq<Id>>)
    ensures values == CheckFeature(t, asked, entry, onShelf)
  {
    var found := Find(t, FeatureSubject, entry.0);
    if found == None {
      return None;
    }
    var feature := t.features[found.value.i];
    var offered := Offered(asked.features, feature.item.id);
    if offered == None {
      return None;
    }
    var mayTake := MayTake(t, onShelf, feature.item.id);
    var chosen: seq<Id> := [];
    for k := 0 to |entry.1|
      invariant CheckValues(feature, offered.value, entry.1[..k], mayTake) == Some(chosen)
    {
      assert entry.1[..k + 1][..k] == entry.1[..k];
      var j := FirstFrom(feature.values, entry.1[k], 0);
      if j == None || feature.values[j.value].id !in offered.value || !mayTake {
        RefusedAfter(feature, offered.value, entry.1, mayTake, k + 1);
        return None;
      }
      chosen := Add(chosen, feature.values[j.value].id);
    }
    assert entry.1[..|entry.1|] == entry.1;
    if feature.cardinality == TakesOne && |chosen| > 1 {
      return None;
    }
    values := Some(chosen);
  }

  lemma {:induction false} RefusedAfter(feature: Feature, offered: seq<Id>, refs: seq<Ref>, mayTake: bool, k: nat)
    requires k <= |refs| && CheckValues(feature, offered, refs[..k], mayTake) == None
    ensures CheckValues(feature, offered, refs, mayTake) == None
    decreases |refs|
  {
    if k < |refs| {
      assert refs[..|refs| - 1][..k] == refs[..k];
      RefusedAfter(feature, offered, refs[..|refs| - 1], mayTake, k);
    } else {
      assert refs[..k] == refs;
    }
  }

  lemma {:induction false} RefusedLater(t: Taxonomy, asked: Parts, given: seq<(Ref, seq<Ref>)>, onShelf: Option<Place>, k: nat)
    requires k <= |given| && CheckFeatures(t, asked, given[..k], onShelf) == None
    ensures CheckFeatures(t, asked, given, onShelf) == None
    decreases |given|
  {
    if k < |given| {
      assert given[..|given| - 1][..k] == given[..k];
      RefusedLater(t, asked, given[..|given| - 1], onShelf, k);
    } else {
      assert given[..k] == given;
    }
  }

  lemma {:induction false} FunctionsRefusedLater(t: Taxonomy, asked: Parts, refs: seq<Ref>, k: nat)
    requires k <= |refs| && CheckFunctions(t, asked, refs[..k]) == None
    ensures CheckFunctions(t, asked, refs) == None
    decreases |refs|
  {
    if k < |refs| {
      assert refs[..|refs| - 1][..k] == refs[..k];
      FunctionsRefusedLater(t, asked, refs[..|refs| - 1], k);
    } else {
      assert refs[..k] == refs;
    }
  }

  method FunctionsChecked(t: Taxonomy, asked: Parts, refs: seq<Ref>) returns (functions: Option<seq<Id>>)
    ensures functions == CheckFunctions(t, asked, refs)
  {
    var given: seq<Id> := [];
    for k := 0 to |refs|
      invariant CheckFunctions(t, asked, refs[..k]) == Some(given)
    {
      assert refs[..k + 1][..k] == refs[..k];
      var found := Find(t, FunctionSubject, refs[k]);
      if found == None || At(t, found.value).id !in asked.functions {
        FunctionsRefusedLater(t, asked, refs, k + 1);
        return None;
      }
      given := Add(given, At(t, found.value).id);
    }
    assert refs[..|refs|] == refs;
    functions := Some(given);
  }

  method FeaturesChecked(t: Taxonomy, asked: Parts, given: seq<(Ref, seq<Ref>)>, onShelf: Option<Place>)
      returns (values: Option<seq<Id>>)
    ensures values == CheckFeatures(t, asked, given, onShelf)
  {
    var all: seq<Id> := [];
    for k := 0 to |given|
      invariant CheckFeatures(t, asked, given[..k], onShelf) == Some(all)
    {
      assert given[..k + 1][..k] == given[..k];
      var chosen := CheckOne(t, asked, given[k], onShelf);
      if chosen == None {
        RefusedLater(t, asked, given, onShelf, k + 1);
        return None;
      }
      all := all + chosen.value;
    }
    assert given[..|given|] == given;
    values := Some(all);
  }

  /** `checkTaxonomyAnswer` */
  method Check(t: Taxonomy, asked: Parts, given: GivenParts, settledShelf: Option<Place>) returns (answer: Option<Answer>)
    ensures answer == CheckTaxonomyAnswer(t, asked, given, settledShelf)
  {
    var shelf := CheckShelf(t, asked, given.shelf);
    if shelf == None {
      return None;
    }
    var functions := FunctionsChecked(t, asked, given.functions);
    if functions == None {
      return None;
    }
    var values := FeaturesChecked(t, asked, given.features, if shelf.value != None then shelf.value else settledShelf);
    if values == None {
      return None;
    }
    answer :=
      if shelf.value == Some(NoneOfThese) then Some(NONE_ANSWER)
      else Some(Answer(shelf.value, functions.value, values.value));
  }

  // ---------------------------------------------------------------------- carried over, and standing

  method CarryFunctions(t: Taxonomy, asked: seq<Id>, given: seq<Id>) returns (yes: seq<Id>, no: seq<Id>)
    ensures yes == CarriedFunctions(t, asked, given, true) && no == CarriedFunctions(t, asked, given, false)
  {
    yes, no := [], [];
    for k := 0 to |asked|
      invariant yes == CarriedFunctions(t, asked[..k], given, true)
      invariant no == CarriedFunctions(t, asked[..k], given, false)
    {
      var fn := asked[k];
      MappedTo((fn: Id) => if (fn in given) == true then Resolve(t, FunctionSubject, fn) else None, asked, k);
      MappedTo((fn: Id) => if (fn in given) == false then Resolve(t, FunctionSubject, fn) else None, asked, k);
      var now := ResolveId(t, FunctionSubject, fn);
      if now == None {
        continue;
      }
      if fn in given {
        yes := yes + [now.value];
      } else {
        no := no + [now.value];
      }
    }
    assert asked[..|asked|] == asked;
  }

  method CarryValues(t: Taxonomy, asked: seq<Id>, given: seq<Id>, shelf: Option<Place>) returns (yes: seq<Id>, no: seq<Id>)
    ensures yes == CarriedValues(t, asked, given, shelf, true) && no == CarriedValues(t, asked, given, shelf, false)
  {
    yes, no := [], [];
    for k := 0 to |asked|
      invariant yes == CarriedValues(t, asked[..k], given, shelf, true)
      invariant no == CarriedValues(t, asked[..k], given, shelf, false)
    {
      var value := asked[k];
      MappedTo((v: Id) => CarriedValue(t, given, shelf, true, v), asked, k);
      MappedTo((v: Id) => CarriedValue(t, given, shelf, false, v), asked, k);
      var now := ResolveId(t, ValueSubject, value);
      if now == None || !Fits(t, shelf, now.value) {
        continue;
      }
      if value in given {
        yes := yes + [now.value];
      } else {
        no := no + [now.value];
      }
    }
    assert asked[..|asked|] == asked;
  }

  /** `carriedOver` */
  method Carry(t: Taxonomy, final: Option<Final>, shelf: Option<Place>) returns (carried: Carried)
    ensures carried == CarriedOver(t, final, shelf)
  {
    if final == None {
      return NOTHING_CARRIED;
    }
    var asked, given := final.value.asked, final.value.given;
    var yes, no := CarryFunctions(t, asked.functions, given.functions);
    var yesValues, noValues := CarryValues(t, AllValues(asked.features), given.values, shelf);
    carried := Carried(yes, no, yesValues, noValues);
  }

  /** `standingAnswer` */
  method Stand(t: Taxonomy, statements: seq<S.Statement>) returns (answer: Answer)
    ensures answer == StandingAnswer(t, statements)
  {
    var values := StandValues(t, SaidIds(t, statements, "features", ValueSubject));
    var shelf := ShelfStatement(t, About(statements, "shelf"));
    answer := Answer(
      match shelf case None => None case Some(stated) => Some(On(stated.id)),
      Unique(SaidIds(t, statements, "functions", FunctionSubject)),
      values);
  }

  /** The values that stand: each once, a feature that takes one keeping its first. */
  method StandValues(t: Taxonomy, ids: seq<Id>) returns (values: seq<Id>)
    ensures values == FirstValues(t, ids)
  {
    values := [];
    for k := 0 to |ids|
      invariant values == FirstValues(t, ids[..k])
    {
      assert ids[..k + 1][..k] == ids[..k];
      var value := ids[k];
      var i := FeatureOfValue(t, value);
      if i == None || value in values {
        continue;
      }
      if t.features[i.value].cardinality == TakesOne && TakenIn(t, values, t.features[i.value].item.id) {
        continue;
      }
      values := values + [value];
    }
    assert ids[..|ids|] == ids;
  }
}
