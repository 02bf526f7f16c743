/**
 Survivorship (platform/core/src/survivorship.ts): a record's value for each field, chosen from what
 its pages say, with where it came from. Text is compared by code unit and confidences are exact.
 */
module Survivorship {
  import opened Basics
  import opened Sorting

  datatype Method = Human | Rule | Api | Feed | Jsonld | Microdata | Opengraph | Llm

  /** A stored value: text, a spec, or something of no shape a field takes. */
  datatype Value = Text(text: string) | Spec(name: string, value: string) | Shapeless

  datatype Statement = Statement(
    property: string, value: Value, valueKey: string, how: Method, confidence: real, lastSeen: string,
    sourceUrl: string, position: Option<nat>)

  const MAX_SAFE_INTEGER := 9007199254740991

  function Rank(how: Method): nat {
    match how
    case Human => 7
    case Rule => 6
    case Api => 5
    case Feed => 4
    case Jsonld => 3
    case Microdata => 2
    case Opengraph => 1
    case Llm => 0
  }

  function Place(s: Statement): nat {
    if s.position.Some? then s.position.value else MAX_SAFE_INTEGER
  }

  /** `compareStatements(a, b) < 0`: best first. */
  predicate Better(a: Statement, b: Statement) {
    if Rank(a.how) != Rank(b.how) then Rank(a.how) > Rank(b.how)
    else if a.lastSeen != b.lastSeen then TextLess(b.lastSeen, a.lastSeen)
    else if a.confidence != b.confidence then a.confidence > b.confidence
    else if a.valueKey != b.valueKey then TextLess(a.valueKey, b.valueKey)
    else if a.sourceUrl != b.sourceUrl then TextLess(a.sourceUrl, b.sourceUrl)
    else Place(a) < Place(b)
  }

  /** `inPageOrder(a, b) < 0`: by rank of method, then by position, then by value key. */
  predicate Earlier(a: Statement, b: Statement) {
    if Rank(a.how) != Rank(b.how) then Rank(a.how) > Rank(b.how)
    else if Place(a) != Place(b) then Place(a) < Place(b)
    else TextLess(a.valueKey, b.valueKey)
  }

  lemma TextChain(a: string, b: string, c: string)
    ensures (a == b || !TextLess(b, a)) && (b == c || !TextLess(c, b)) ==>
      !TextLess(c, a) && (a == c ==> a == b == c)
  {
    TextLessTotal(a, b);
    TextLessTotal(b, c);
    TextLessTotal(a, c);
    if TextLess(a, b) && TextLess(b, c) {
      TextLessTrans(a, b, c);
    }
  }

  lemma BetterOnce(a: Statement, b: Statement)
    requires Better(a, b)
    ensures !Better(b, a)
  {
    TextLessTotal(a.lastSeen, b.lastSeen);
    TextLessTotal(a.valueKey, b.valueKey);
    TextLessTotal(a.sourceUrl, b.sourceUrl);
  }

  lemma BetterTrans(a: Statement, b: Statement, c: Statement)
    requires !Better(b, a) && !Better(c, b)
    ensures !Better(c, a)
  {
    if Rank(a.how) == Rank(b.how) == Rank(c.how) {
      TextChain(c.lastSeen, b.lastSeen, a.lastSeen);
      if a.lastSeen == b.lastSeen == c.lastSeen && a.confidence == b.confidence == c.confidence {
        TextChain(a.valueKey, b.valueKey, c.valueKey);
        if a.valueKey == b.valueKey == c.valueKey {
          TextChain(a.sourceUrl, b.sourceUrl, c.sourceUrl);
        }
      }
    }
  }

  /** Statements are ordered best first, and the order of reading them never matters but on a full tie. */
  lemma BetterOrders()
    ensures Orders(Better)
  {
    forall a, b | Better(a, b)
      ensures !Better(b, a)
    {
      BetterOnce(a, b);
    }
    forall a, b, c | !Better(b, a) && !Better(c, b)
      ensures !Better(c, a)
    {
      BetterTrans(a, b, c);
    }
  }

  lemma EarlierOrders()
    ensures Orders(Earlier)
  {
    forall a, b | Earlier(a, b)
      ensures !Earlier(b, a)
    {
      TextLessTotal(a.valueKey, b.valueKey);
    }
    forall a, b, c | !Earlier(b, a) && !Earlier(c, b)
      ensures !Earlier(c, a)
    {
      if Rank(a.how) == Rank(b.how) == Rank(c.how) && Place(a) == Place(b) == Place(c) {
        TextChain(a.valueKey, b.valueKey, c.valueKey);
      }
    }
  }

  // ---------------------------------------------------------------------- one field

  datatype FieldDef = FieldDef(list: bool, specs: bool)

  datatype Provenance = Provenance(sourceUrl: string, fetchedAt: string, how: Method, confidence: real)

  datatype FieldResult = FieldResult(values: seq<Value>, provenance: Provenance)

  /** `fits`: a spec for a field of specs, and text for any other. */
  predicate Shaped(field: FieldDef, value: Value) {
    if field.specs then value.Spec? else value.Text?
  }

  /** Whether a statement is about a field, in the shape it takes. */
  function Mine(name: string, field: FieldDef): Statement -> bool {
    (s: Statement) => s.property == name && Shaped(field, s.value)
  }

  /** Text is its own value key. */
  predicate TextIsKey(s: Statement) {
    s.value.Text? ==> s.valueKey == s.value.text
  }

  /** What parts a spec's label key from its value, in the spec's own key. No label key holds it. */
  const UNIT_SEPARATOR := '\U{1F}'

  /**
   * A statement keyed as `normalizeValue` keys what it keeps (platform/core/src/fields.ts:86-172): text, a
   * choice, a GTIN or an address by itself, and a spec by its label's key and its value.
   */
  predicate AsNormalized(labelKey: string -> string, s: Statement) {
    && TextIsKey(s)
    && (s.value.Spec? ==>
          && UNIT_SEPARATOR !in labelKey(s.value.name)
          && s.valueKey == labelKey(s.value.name) + [UNIT_SEPARATOR] + s.value.value)
  }

  /** A field's statements, best first. */
  function Own(name: string, field: FieldDef, statements: seq<Statement>): seq<Statement> {
    SortBy(Better, Filter(Mine(name, field), statements))
  }

  /** What a statement of a list field is kept by: its spec's label, or its value. */
  function KeyOf(field: FieldDef, labelKey: string -> string, s: Statement): string {
    if field.specs && s.value.Spec? then labelKey(s.value.name) else s.valueKey
  }

  /** The first statement for each key, in the order the keys come. */
  function FirstOfEach(field: FieldDef, labelKey: string -> string, own: seq<Statement>): (chosen: seq<Statement>)
  {
    if own == [] then []
    else
      var chosen, s := FirstOfEach(field, labelKey, own[..|own| - 1]), own[|own| - 1];
      if Keyed(field, labelKey, chosen, KeyOf(field, labelKey, s)) then chosen else chosen + [s]
  }

  predicate Keyed(field: FieldDef, labelKey: string -> string, list: seq<Statement>, key: string) {
    exists k :: 0 <= k < |list| && KeyOf(field, labelKey, list[k]) == key
  }

  function Lowest(list: seq<Statement>): (lowest: real)
    requires list != []
    ensures forall s :: s in list ==> lowest <= s.confidence
    ensures exists s :: s in list && s.confidence == lowest
  {
    var last := list[|list| - 1];
    if |list| == 1 then last.confidence
    else
      assert list == list[..|list| - 1] + [last];
      var before := Lowest(list[..|list| - 1]);
      if last.confidence < before then last.confidence else before
  }

  /** `provenanceOf` */
  function ProvenanceOf(best: Statement, kept: seq<Statement>): Provenance
    requires kept != []
  {
    Provenance(best.sourceUrl, best.lastSeen, best.how, Lowest(kept))
  }

  function ValuesOf(kept: seq<Statement>): (values: seq<Value>)
    ensures |values| == |kept| && forall k :: 0 <= k < |values| ==> values[k] == kept[k].value
  {
    seq(|kept|, k requires 0 <= k < |kept| => kept[k].value)
  }

  /** The statements kept for a list field, in page order. */
  function Kept(field: FieldDef, labelKey: string -> string, own: seq<Statement>): (kept: seq<Statement>)
    ensures own != [] ==> kept != []
  {
    var chosen := FirstOfEach(field, labelKey, own);
    assert own != [] ==> chosen != [] by {
      if own != [] {
        ChosenNotEmpty(field, labelKey, own);
      }
    }
    SortBy(Earlier, chosen)
  }

  lemma {:induction false} ChosenNotEmpty(field: FieldDef, labelKey: string -> string, own: seq<Statement>)
    requires own != []
    ensures FirstOfEach(field, labelKey, own) != []
  {
  }

  function FieldOf(name: string, field: FieldDef, labelKey: string -> string, statements: seq<Statement>): Option<FieldResult> {
    var own := Own(name, field, statements);
    if own == [] then None
    else if !field.list then Some(FieldResult([own[0].value], ProvenanceOf(own[0], [own[0]])))
    else
      var kept := Kept(field, labelKey, own);
      Some(FieldResult(ValuesOf(kept), ProvenanceOf(own[0], kept)))
  }

  // ---------------------------------------------------------------------- a record

  /** Each field's survivors by name; a field without statements is left out. */
  function Survivors(fields: seq<(string, FieldDef)>, labelKey: string -> string, statements: seq<Statement>)
    : seq<(string, FieldResult)>
  {
    if fields == [] then []
    else
      var before, (name, field) := Survivors(fields[..|fields| - 1], labelKey, statements), fields[|fields| - 1];
      match FieldOf(name, field, labelKey, statements)
      case None => before
      case Some(result) => before + [(name, result)]
  }

  /** `survive` */
  method Survive(fields: seq<(string, FieldDef)>, labelKey: string -> string, statements: seq<Statement>)
    returns (results: seq<(string, FieldResult)>)
    ensures results == Survivors(fields, labelKey, statements)
  {
    results := [];
    for i := 0 to |fields|
      invariant results == Survivors(fields[..i], labelKey, statements)
    {
      var (name, field) := fields[i];
      assert fields[..i + 1][..i] == fields[..i];
      var own := Own(name, field, statements);
      if own == [] {
        continue;
      }
      if !field.list {
        results := results + [(name, FieldResult([own[0].value], ProvenanceOf(own[0], [own[0]])))];
        continue;
      }
      var chosen := [];
      for k := 0 to |own|
        invariant chosen == FirstOfEach(field, labelKey, own[..k])
      {
        assert own[..k + 1][..k] == own[..k];
        if !Keyed(field, labelKey, chosen, KeyOf(field, labelKey, own[k])) {
          chosen := chosen + [own[k]];
        }
      }
      assert own[..|own|] == own;
      var kept := SortBy(Earlier, chosen);
      results := results + [(name, FieldResult(ValuesOf(kept), ProvenanceOf(own[0], kept)))];
    }
    assert fields[..|fields|] == fields;
  }

  // ---------------------------------------------------------------------- what survives

  /** A field's statements come best first. */
  lemma OwnBest(name: string, field: FieldDef, statements: seq<Statement>)
    ensures InOrderBy(Better, Own(name, field, statements))
    ensures forall s :: s in Own(name, field, statements) <==>
      s in statements && s.property == name && Shaped(field, s.value)
  {
    BetterOrders();
    var mine := Filter(Mine(name, field), statements);
    SortOrders(Better, mine);
    forall s
      ensures s in Own(name, field, statements) <==> s in mine
    {
      SortHas(Better, mine, s);
    }
  }

  /** Of the statements for one value, or one label, the one kept is none other's worse. */
  lemma {:induction false} FirstIsBest(field: FieldDef, labelKey: string -> string, own: seq<Statement>)
    requires InOrderBy(Better, own)
    ensures
      var chosen := FirstOfEach(field, labelKey, own);
      && (forall s :: s in chosen ==> s in own)
      && (forall i, j :: 0 <= i < j < |chosen| ==>
            KeyOf(field, labelKey, chosen[i]) != KeyOf(field, labelKey, chosen[j]))
      && (forall s :: s in own ==> BestKept(field, labelKey, chosen, s))
  {
    if own != [] {
      var front, last := own[..|own| - 1], own[|own| - 1];
      FirstIsBest(field, labelKey, front);
      var before := FirstOfEach(field, labelKey, front);
      var chosen := FirstOfEach(field, labelKey, own);
      forall s | s in own
        ensures BestKept(field, labelKey, chosen, s)
      {
        if s in front {
          assert BestKept(field, labelKey, before, s);
          var k :| 0 <= k < |before| && KeyOf(field, labelKey, before[k]) == KeyOf(field, labelKey, s) && !Better(s, before[k]);
          assert chosen[k] == before[k];
        } else if chosen == before {
          var k :| 0 <= k < |before| && KeyOf(field, labelKey, before[k]) == KeyOf(field, labelKey, last);
          assert before[k] in front;
          assert !Better(last, chosen[k]);
        } else {
          BetterOrders();
          assert chosen[|before|] == last;
        }
      }
    }
  }

  /** Whether a statement for the same value, or label, is kept that this one isn't better than. */
  ghost predicate BestKept(field: FieldDef, labelKey: string -> string, kept: seq<Statement>, s: Statement) {
    exists k :: 0 <= k < |kept| && KeyOf(field, labelKey, kept[k]) == KeyOf(field, labelKey, s) && !Better(s, kept[k])
  }

  /**
   * What a list field keeps: one statement for each value or label stated, none worse than another for
   * it, in page order.
   */
  lemma KeptIsBest(name: string, field: FieldDef, labelKey: string -> string, statements: seq<Statement>)
    ensures
      var kept := Kept(field, labelKey, Own(name, field, statements));
      && InOrderBy(Earlier, kept)
      && (forall i, j :: 0 <= i < |kept| && 0 <= j < |kept| && i != j ==>
            KeyOf(field, labelKey, kept[i]) != KeyOf(field, labelKey, kept[j]))
      && (forall s :: s in kept ==> s in Own(name, field, statements))
      && (forall s :: s in Own(name, field, statements) ==> BestKept(field, labelKey, kept, s))
  {
    var own := Own(name, field, statements);
    var chosen, kept := FirstOfEach(field, labelKey, own), Kept(field, labelKey, own);
    OwnBest(name, field, statements);
    FirstIsBest(field, labelKey, own);
    EarlierOrders();
    SortOrders(Earlier, chosen);
    SortKeeps(Earlier, chosen);
    KeysStayApart(field, labelKey, chosen, kept);
    SameElements(kept, chosen);
    forall s | s in own
      ensures BestKept(field, labelKey, kept, s)
    {
      BestStays(field, labelKey, chosen, kept, s);
    }
  }

  lemma BestStays(
      field: FieldDef, labelKey: string -> string, chosen: seq<Statement>, kept: seq<Statement>, s: Statement)
    requires BestKept(field, labelKey, chosen, s) && forall x :: x in chosen ==> x in kept
    ensures BestKept(field, labelKey, kept, s)
  {
    var k :| 0 <= k < |chosen| && KeyOf(field, labelKey, chosen[k]) == KeyOf(field, labelKey, s) && !Better(s, chosen[k]);
    assert chosen[k] in chosen && chosen[k] in kept;
    var l :| 0 <= l < |kept| && kept[l] == chosen[k];
  }

  lemma KeysStayApart(field: FieldDef, labelKey: string -> string, a: seq<Statement>, b: seq<Statement>)
    requires multiset(a) == multiset(b)
    requires forall i, j :: 0 <= i < j < |a| ==> KeyOf(field, labelKey, a[i]) != KeyOf(field, labelKey, a[j])
    ensures forall i, j :: 0 <= i < |b| && 0 <= j < |b| && i != j ==>
      KeyOf(field, labelKey, b[i]) != KeyOf(field, labelKey, b[j])
  {
    SameElements(a, b);
    forall i, j | 0 <= i < j < |b|
      ensures KeyOf(field, labelKey, b[i]) != KeyOf(field, labelKey, b[j])
    {
      assert b[i] in a && b[j] in a;
      if b[i] == b[j] {
        TwiceInMultiset(b, i, j);
        OnceInMultiset(field, labelKey, a, b[i]);
      }
    }
  }

  lemma TwiceInMultiset(b: seq<Statement>, i: nat, j: nat)
    requires i < j < |b| && b[i] == b[j]
    ensures multiset(b)[b[i]] >= 2
  {
    assert b == b[..j] + [b[j]] + b[j + 1..];
    assert b[i] in b[..j];
  }

  lemma {:induction false} OnceInMultiset(field: FieldDef, labelKey: string -> string, a: seq<Statement>, s: Statement)
    requires forall i, j :: 0 <= i < j < |a| ==> KeyOf(field, labelKey, a[i]) != KeyOf(field, labelKey, a[j])
    ensures multiset(a)[s] <= 1
  {
    if a != [] {
      var front, last := a[..|a| - 1], a[|a| - 1];
      OnceInMultiset(field, labelKey, front, s);
      assert a == front + [last];
      if s == last {
        assert s !in front;
        assert s !in multiset(front);
      }
    }
  }
}
