/**
 When a record is the same whatever order its statements are read in (platform/core/src/survivorship.ts,
 what the comment on `compareStatements` promises): exactly when statements that tie and that nothing
 beats say the same.
 */
module SurvivorshipOrder {
  import opened Basics
  import opened Sorting
  import opened Choosing
  import opened Survivorship

  /** What a statement competes for under a field: a list's value or label, or the one value there is. */
  function Slot(field: FieldDef, labelKey: string -> string): Statement -> Option<string> {
    (s: Statement) => Some(if field.list then KeyOf(field, labelKey, s) else "")
  }

  /** A statement about a field that none about the same value, or label, is better than. */
  ghost predicate Stands(
      name: string, field: FieldDef, labelKey: string -> string, statements: seq<Statement>, s: Statement)
  {
    Unbeaten(Better, Slot(field, labelKey), Filter(Mine(name, field), statements), s)
  }

  /** Those that stand and compare equal say the same. */
  ghost predicate Settled(name: string, field: FieldDef, labelKey: string -> string, statements: seq<Statement>) {
    forall x, y ::
      Stands(name, field, labelKey, statements, x) && Stands(name, field, labelKey, statements, y) && Tied(Better, x, y) ==>
        x.value == y.value
  }

  /** What the comparison can't tell apart but for the value: all that provenance and the page's order read. */
  lemma TiesShare(x: Statement, y: Statement)
    requires Tied(Better, x, y)
    ensures x.how == y.how && x.lastSeen == y.lastSeen && x.confidence == y.confidence
    ensures x.valueKey == y.valueKey && x.sourceUrl == y.sourceUrl && Place(x) == Place(y)
    ensures Tied(Earlier, x, y)
  {
    TextLessTotal(x.lastSeen, y.lastSeen);
    TextLessTotal(x.valueKey, y.valueKey);
    TextLessTotal(x.sourceUrl, y.sourceUrl);
  }

  // ---------------------------------------------------------------------- a field, by what competes

  lemma {:induction false} FirstOfEachBy(field: FieldDef, labelKey: string -> string, own: seq<Statement>)
    requires field.list
    ensures FirstOfEach(field, labelKey, own) == FirstBy(Slot(field, labelKey), own)
  {
    if own != [] {
      FirstOfEachBy(field, labelKey, own[..|own| - 1]);
      var chosen, s := FirstOfEach(field, labelKey, own[..|own| - 1]), own[|own| - 1];
      var slot := Slot(field, labelKey);
      assert Keyed(field, labelKey, chosen, KeyOf(field, labelKey, s)) <==> Taken(slot, chosen, slot(s)) by {
        if Taken(slot, chosen, slot(s)) {
          var i :| 0 <= i < |chosen| && slot(chosen[i]) == slot(s);
        }
        if i :| 0 <= i < |chosen| && KeyOf(field, labelKey, chosen[i]) == KeyOf(field, labelKey, s) {
          assert slot(chosen[i]) == slot(s);
        }
      }
    }
  }

  lemma {:induction false} OneKept(field: FieldDef, labelKey: string -> string, own: seq<Statement>)
    requires !field.list && own != []
    ensures FirstBy(Slot(field, labelKey), own) == [own[0]]
  {
    if |own| == 1 {
      assert own[..0] == [];
    } else {
      OneKept(field, labelKey, own[..|own| - 1]);
    }
  }

  /** What a field keeps, in page order: the first for each slot. */
  function InSlots(field: FieldDef, labelKey: string -> string, own: seq<Statement>): seq<Statement> {
    SortBy(Earlier, FirstBy(Slot(field, labelKey), own))
  }

  lemma SortOne(s: Statement)
    ensures SortBy(Earlier, [s]) == [s]
  {
    assert [s][..0] == [];
  }

  lemma OneShown(s: Statement)
    ensures ValuesOf([s]) == [s.value]
  {
  }

  lemma FieldOfSlots(name: string, field: FieldDef, labelKey: string -> string, statements: seq<Statement>)
    ensures
      var own := Own(name, field, statements);
      var kept := InSlots(field, labelKey, own);
      && (own != [] ==> kept != [])
      && FieldOf(name, field, labelKey, statements) ==
           if own == [] then None else Some(FieldResult(ValuesOf(kept), ProvenanceOf(own[0], kept)))
  {
    var own := Own(name, field, statements);
    if own != [] {
      if field.list {
        FirstOfEachBy(field, labelKey, own);
      } else {
        OneKept(field, labelKey, own);
        SortOne(own[0]);
        OneShown(own[0]);
      }
    }
  }

  // ---------------------------------------------------------------------- enough

  /** Alike in all a record shows. */
  function Alike(): (Statement, Statement) -> bool {
    (x, y) => Tied(Better, x, y) && x.value == y.value
  }

  lemma AlikeBlind()
    ensures Blind(Earlier, Alike()) && OnlyTies(Better, Alike())
  {
    forall p, q, r, s | Alike()(p, q) && Alike()(r, s)
      ensures Earlier(p, r) == Earlier(q, s)
    {
      TiesShare(p, q);
      TiesShare(r, s);
    }
  }

  lemma KeptStrictly(name: string, field: FieldDef, labelKey: string -> string, statements: seq<Statement>)
    requires Settled(name, field, labelKey, statements)
    ensures Strictly(Better, FirstBy(Slot(field, labelKey), Own(name, field, statements)))
  {
    var mine, slot := Filter(Mine(name, field), statements), Slot(field, labelKey);
    var kept := FirstBy(slot, SortBy(Better, mine));
    BetterOrders();
    FirstSorted(Better, slot, mine);
    forall i, j | 0 <= i < j < |kept|
      ensures Better(kept[i], kept[j])
    {
      var x, y := kept[i], kept[j];
      assert Stands(name, field, labelKey, statements, x) && Stands(name, field, labelKey, statements, y);
      assert slot(x) != slot(y);
      if Tied(Better, x, y) {
        TiesShare(x, y);
      }
    }
  }

  lemma SettledSays(
      name: string, field: FieldDef, labelKey: string -> string, statements: seq<Statement>, x: Statement, y: Statement)
    requires Settled(name, field, labelKey, statements)
    requires Stands(name, field, labelKey, statements, x) && Stands(name, field, labelKey, statements, y)
    requires Tied(Better, x, y)
    ensures x.value == y.value
  {
  }

  lemma KeptStands(
      name: string, field: FieldDef, labelKey: string -> string, a: seq<Statement>, b: seq<Statement>, x: Statement)
    returns (y: Statement)
    requires (forall s :: s in a <==> s in b) && x in FirstBy(Slot(field, labelKey), Own(name, field, a))
    ensures y in FirstBy(Slot(field, labelKey), Own(name, field, b)) && Tied(Better, x, y)
    ensures Stands(name, field, labelKey, a, x) && Stands(name, field, labelKey, a, y)
  {
    BetterOrders();
    y := KeptAlike(Better, Slot(field, labelKey), Filter(Mine(name, field), a), Filter(Mine(name, field), b), x);
  }

  lemma KeptMatches(
      name: string, field: FieldDef, labelKey: string -> string, a: seq<Statement>, b: seq<Statement>, x: Statement)
    requires (forall s :: s in a <==> s in b) && Settled(name, field, labelKey, a)
    requires x in FirstBy(Slot(field, labelKey), Own(name, field, a))
    ensures exists y :: y in FirstBy(Slot(field, labelKey), Own(name, field, b)) && Alike()(x, y) && Alike()(y, x)
  {
    var y := KeptStands(name, field, labelKey, a, b, x);
    SettledSays(name, field, labelKey, a, x, y);
    assert Alike()(x, y) && Alike()(y, x);
  }

  lemma SettledAlike(name: string, field: FieldDef, labelKey: string -> string, a: seq<Statement>, b: seq<Statement>)
    requires (forall s :: s in a <==> s in b) && Settled(name, field, labelKey, a)
    ensures Settled(name, field, labelKey, b)
  {
    forall x
      ensures Stands(name, field, labelKey, a, x) <==> Stands(name, field, labelKey, b, x)
    {
      UnbeatenAlike(Better, Slot(field, labelKey), Filter(Mine(name, field), a), Filter(Mine(name, field), b), x);
    }
  }

  lemma KeptPaired(name: string, field: FieldDef, labelKey: string -> string, a: seq<Statement>, b: seq<Statement>)
    requires (forall s :: s in a <==> s in b) && Settled(name, field, labelKey, a)
    ensures Paired(Alike(), InSlots(field, labelKey, Own(name, field, a)), InSlots(field, labelKey, Own(name, field, b)))
  {
    var slot := Slot(field, labelKey);
    var c, d := FirstBy(slot, Own(name, field, a)), FirstBy(slot, Own(name, field, b));
    SettledAlike(name, field, labelKey, a, b);
    KeptStrictly(name, field, labelKey, a);
    KeptStrictly(name, field, labelKey, b);
    BetterOrders();
    AlikeBlind();
    forall x | x in c
      ensures MatchIn(Alike(), x, d)
    {
      KeptMatches(name, field, labelKey, a, b, x);
    }
    forall y | y in d
      ensures MatchOf(Alike(), c, y)
    {
      KeptMatches(name, field, labelKey, b, a, y);
    }
    MatchedPaired(Better, Alike(), c, d);
    SortPaired(Earlier, Alike(), c, d);
  }

  lemma EmptyTogether<T>(a: seq<T>, b: seq<T>)
    requires forall x :: x in a <==> x in b
    ensures (a == []) == (b == [])
  {
    assert |a| > 0 ==> a[0] in a && a[0] in b;
    assert |b| > 0 ==> b[0] in b && b[0] in a;
  }

  /** The best of each, whatever the order: they tie. */
  lemma BestTied(name: string, field: FieldDef, a: seq<Statement>, b: seq<Statement>)
    requires forall s :: s in a <==> s in b
    ensures (Own(name, field, a) == []) == (Own(name, field, b) == [])
    ensures Own(name, field, a) != [] ==> Tied(Better, Own(name, field, a)[0], Own(name, field, b)[0])
  {
    OwnBest(name, field, a);
    OwnBest(name, field, b);
    var c, d := Own(name, field, a), Own(name, field, b);
    EmptyTogether(c, d);
    if c != [] {
      assert c[0] in d;
      var j :| 0 <= j < |d| && d[j] == c[0];
      assert d[0] in c;
      var i :| 0 <= i < |c| && c[i] == d[0];
      BetterOnceFirst(c, i);
      BetterOnceFirst(d, j);
    }
  }

  lemma BetterOnceFirst(list: seq<Statement>, i: nat)
    requires InOrderBy(Better, list) && i < |list|
    ensures !Better(list[i], list[0])
  {
    BetterOrders();
  }

  lemma LowestLast(list: seq<Statement>)
    requires list != []
    ensures
      var n := |list| - 1;
      Lowest(list) ==
        if n == 0 || list[n].confidence < Lowest(list[..n]) then list[n].confidence else Lowest(list[..n])
  {
  }

  lemma LastsShare(a: seq<Statement>, b: seq<Statement>)
    requires Paired(Alike(), a, b) && a != []
    ensures a[|a| - 1].confidence == b[|b| - 1].confidence
    ensures Paired(Alike(), a[..|a| - 1], b[..|b| - 1])
  {
    assert Alike()(a[|a| - 1], b[|b| - 1]);
    TiesShare(a[|a| - 1], b[|b| - 1]);
  }

  lemma {:induction false} SameLowest(a: seq<Statement>, b: seq<Statement>)
    requires Paired(Alike(), a, b) && a != []
    ensures Lowest(a) == Lowest(b)
    decreases |a|
  {
    LastsShare(a, b);
    LowestLast(a);
    LowestLast(b);
    if |a| > 1 {
      SameLowest(a[..|a| - 1], b[..|b| - 1]);
    }
  }

  lemma SameValues(a: seq<Statement>, b: seq<Statement>)
    requires Paired(Alike(), a, b)
    ensures ValuesOf(a) == ValuesOf(b)
  {
    forall i | 0 <= i < |a|
      ensures a[i].value == b[i].value
    {
      assert Alike()(a[i], b[i]);
    }
  }

  lemma SameProvenance(best: Statement, other: Statement, a: seq<Statement>, b: seq<Statement>)
    requires Tied(Better, best, other) && a != [] && b != [] && Lowest(a) == Lowest(b)
    ensures ProvenanceOf(best, a) == ProvenanceOf(other, b)
  {
    TiesShare(best, other);
  }

  /** A field's survivors are the same from every list of the same statements, when its ties agree. */
  lemma FieldAnyOrder(name: string, field: FieldDef, labelKey: string -> string, a: seq<Statement>, b: seq<Statement>)
    requires (forall s :: s in a <==> s in b) && Settled(name, field, labelKey, a)
    ensures FieldOf(name, field, labelKey, a) == FieldOf(name, field, labelKey, b)
  {
    var c, d := Own(name, field, a), Own(name, field, b);
    FieldOfSlots(name, field, labelKey, a);
    FieldOfSlots(name, field, labelKey, b);
    BestTied(name, field, a, b);
    if c != [] {
      KeptPaired(name, field, labelKey, a, b);
      var kept, others := InSlots(field, labelKey, c), InSlots(field, labelKey, d);
      SameValues(kept, others);
      SameLowest(kept, others);
      SameProvenance(c[0], d[0], kept, others);
    }
  }

  // ---------------------------------------------------------------------- needed

  /** Two that tie and stand but say different things: read one way and the other, the field differs. */
  lemma TiesShow(
      name: string, field: FieldDef, labelKey: string -> string, statements: seq<Statement>, x: Statement, y: Statement)
    returns (a: seq<Statement>, b: seq<Statement>)
    requires Stands(name, field, labelKey, statements, x) && Stands(name, field, labelKey, statements, y)
    requires Tied(Better, x, y) && x.value != y.value
    ensures multiset(a) == multiset(b) == multiset(statements)
    ensures FieldOf(name, field, labelKey, a) != FieldOf(name, field, labelKey, b)
  {
    var rest := TwoInFront(statements, x, y);
    a, b := [x, y] + rest, [y, x] + rest;
    var mine, slot := Mine(name, field), Slot(field, labelKey);
    var others := Filter(mine, rest);
    TwoFiltered(mine, x, y, rest);
    TwoFiltered(mine, y, x, rest);
    SameElements(a, statements);
    BetterOrders();
    EarlierOrders();
    TiesShare(x, y);
    UnbeatenAlike(Better, slot, Filter(mine, statements), [x, y] + others, x);
    UnbeatenAlike(Better, slot, Filter(mine, statements), [x, y] + others, y);
    HeadsSwap(Better, slot, x, y, others);
    var c, d := FirstBy(slot, Own(name, field, a)), FirstBy(slot, Own(name, field, b));
    SwappingBlind(Earlier, x, y);
    SortPaired(Earlier, Swapped(x, y), c, d);
    FieldOfSlots(name, field, labelKey, a);
    FieldOfSlots(name, field, labelKey, b);
    SwapShows(x, y, c, SortBy(Earlier, c), SortBy(Earlier, d));
  }

  lemma SwapShows(x: Statement, y: Statement, chosen: seq<Statement>, a: seq<Statement>, b: seq<Statement>)
    requires x.value != y.value && x in chosen && a == SortBy(Earlier, chosen) && Paired(Swapped(x, y), a, b)
    ensures ValuesOf(a) != ValuesOf(b)
  {
    SortHas(Earlier, chosen, x);
    var i :| 0 <= i < |a| && a[i] == x;
    assert Swapped(x, y)(a[i], b[i]);
    assert ValuesOf(a)[i] == x.value && ValuesOf(b)[i] == y.value;
  }

  /** A field's survivors are the same in every order exactly when its ties agree. */
  lemma FieldInAnyOrder(name: string, field: FieldDef, labelKey: string -> string, statements: seq<Statement>)
    ensures
      (forall b :: multiset(b) == multiset(statements) ==>
                     FieldOf(name, field, labelKey, b) == FieldOf(name, field, labelKey, statements))
      <==> Settled(name, field, labelKey, statements)
  {
    if Settled(name, field, labelKey, statements) {
      forall b | multiset(b) == multiset(statements)
        ensures FieldOf(name, field, labelKey, b) == FieldOf(name, field, labelKey, statements)
      {
        SameElements(statements, b);
        FieldAnyOrder(name, field, labelKey, statements, b);
      }
    } else {
      var x, y :|
        && Stands(name, field, labelKey, statements, x)
        && Stands(name, field, labelKey, statements, y)
        && Tied(Better, x, y) && x.value != y.value;
      var a, b := TiesShow(name, field, labelKey, statements, x, y);
      assert FieldOf(name, field, labelKey, a) != FieldOf(name, field, labelKey, statements)
          || FieldOf(name, field, labelKey, b) != FieldOf(name, field, labelKey, statements);
    }
  }

  // ---------------------------------------------------------------------- a record

  ghost predicate AllSettled(fields: seq<(string, FieldDef)>, labelKey: string -> string, statements: seq<Statement>) {
    forall k :: 0 <= k < |fields| ==> Settled(fields[k].0, fields[k].1, labelKey, statements)
  }

  ghost predicate SameField(
      name: string, field: FieldDef, labelKey: string -> string, a: seq<Statement>, b: seq<Statement>)
  {
    FieldOf(name, field, labelKey, a) == FieldOf(name, field, labelKey, b)
  }

  lemma LeftOutTogether(name: string, field: FieldDef, labelKey: string -> string, a: seq<Statement>, b: seq<Statement>)
    requires forall s :: s in a <==> s in b
    ensures FieldOf(name, field, labelKey, a).Some? == FieldOf(name, field, labelKey, b).Some?
  {
    BestTied(name, field, a, b);
    FieldOfSlots(name, field, labelKey, a);
    FieldOfSlots(name, field, labelKey, b);
  }

  ghost predicate SameFields(
      fields: seq<(string, FieldDef)>, labelKey: string -> string, a: seq<Statement>, b: seq<Statement>)
  {
    forall k :: 0 <= k < |fields| ==> SameField(fields[k].0, fields[k].1, labelKey, a, b)
  }

  lemma SameFieldsLast(fields: seq<(string, FieldDef)>, labelKey: string -> string, a: seq<Statement>, b: seq<Statement>)
    requires fields != []
    ensures
      var n := |fields| - 1;
      SameFields(fields, labelKey, a, b) <==>
      SameFields(fields[..n], labelKey, a, b) && SameField(fields[n].0, fields[n].1, labelKey, a, b)
  {
    var n := |fields| - 1;
    assert forall k :: 0 <= k < n ==> fields[..n][k] == fields[k];
  }

  /** Records are the same exactly when every field is: those left out are the same ones. */
  lemma {:induction false} SameRecord(
      fields: seq<(string, FieldDef)>, labelKey: string -> string, a: seq<Statement>, b: seq<Statement>)
    requires forall s :: s in a <==> s in b
    ensures Survivors(fields, labelKey, a) == Survivors(fields, labelKey, b) <==> SameFields(fields, labelKey, a, b)
  {
    if fields != [] {
      var n := |fields| - 1;
      SameRecord(fields[..n], labelKey, a, b);
      LeftOutTogether(fields[n].0, fields[n].1, labelKey, a, b);
      SameWithLast(fields, labelKey, a, b);
      SameFieldsLast(fields, labelKey, a, b);
    }
  }

  lemma SameWithLast(fields: seq<(string, FieldDef)>, labelKey: string -> string, a: seq<Statement>, b: seq<Statement>)
    requires fields != []
    requires
      var (name, field) := fields[|fields| - 1];
      FieldOf(name, field, labelKey, a).Some? == FieldOf(name, field, labelKey, b).Some?
    ensures
      var (name, field) := fields[|fields| - 1];
      var front := fields[..|fields| - 1];
      Survivors(fields, labelKey, a) == Survivors(fields, labelKey, b) <==>
      && Survivors(front, labelKey, a) == Survivors(front, labelKey, b)
      && FieldOf(name, field, labelKey, a) == FieldOf(name, field, labelKey, b)
  {
    var (name, field) := fields[|fields| - 1];
    if FieldOf(name, field, labelKey, a).Some? {
      var front := fields[..|fields| - 1];
      var c, d := Survivors(front, labelKey, a), Survivors(front, labelKey, b);
      LastTogether(c, (name, FieldOf(name, field, labelKey, a).value), d, (name, FieldOf(name, field, labelKey, b).value));
    }
  }

  lemma LastTogether<T>(a: seq<T>, x: T, b: seq<T>, y: T)
    ensures a + [x] == b + [y] <==> a == b && x == y
  {
    if a + [x] == b + [y] {
      assert (a + [x])[..|a|] == a && (b + [y])[..|b|] == b;
      assert (a + [x])[|a|] == x && (b + [y])[|b|] == y;
    }
  }

  /**
   * A record is the same whatever order its statements are read in exactly when, for each field, the
   * statements that tie and that nothing beats say the same.
   */
  lemma SameInAnyOrder(fields: seq<(string, FieldDef)>, labelKey: string -> string, statements: seq<Statement>)
    ensures
      (forall b :: multiset(b) == multiset(statements) ==>
                     Survivors(fields, labelKey, b) == Survivors(fields, labelKey, statements))
      <==> AllSettled(fields, labelKey, statements)
  {
    if AllSettled(fields, labelKey, statements) {
      forall b | multiset(b) == multiset(statements)
        ensures Survivors(fields, labelKey, b) == Survivors(fields, labelKey, statements)
      {
        SameElements(statements, b);
        forall k | 0 <= k < |fields|
          ensures SameField(fields[k].0, fields[k].1, labelKey, b, statements)
        {
          FieldAnyOrder(fields[k].0, fields[k].1, labelKey, statements, b);
        }
        SameRecord(fields, labelKey, b, statements);
      }
    } else {
      var k :| 0 <= k < |fields| && !Settled(fields[k].0, fields[k].1, labelKey, statements);
      FieldInAnyOrder(fields[k].0, fields[k].1, labelKey, statements);
      var b :| multiset(b) == multiset(statements)
            && FieldOf(fields[k].0, fields[k].1, labelKey, b) != FieldOf(fields[k].0, fields[k].1, labelKey, statements);
      SameElements(statements, b);
      SameRecord(fields, labelKey, b, statements);
    }
  }

  // ---------------------------------------------------------------------- as statements are keyed

  lemma SplitOnce(a: string, x: string, b: string, y: string, c: char)
    requires c !in a && c !in b && a + [c] + x == b + [c] + y
    ensures a == b && x == y
  {
    var whole := a + [c] + x;
    assert whole[|a|] == c && whole[|b|] == c;
    assert whole[..|a|] == a && whole[..|b|] == b;
    assert whole[|a| + 1..] == x && whole[|b| + 1..] == y;
  }

  /** Statements that tie say the same, but for how a spec's label is written. */
  lemma NormalizedTies(labelKey: string -> string, x: Statement, y: Statement)
    requires AsNormalized(labelKey, x) && AsNormalized(labelKey, y) && Tied(Better, x, y)
    ensures x.value.Text? && y.value.Text? ==> x.value == y.value
    ensures x.value.Spec? && y.value.Spec? ==>
      labelKey(x.value.name) == labelKey(y.value.name) && x.value.value == y.value.value
  {
    TiesShare(x, y);
    if x.value.Spec? && y.value.Spec? {
      SplitOnce(labelKey(x.value.name), x.value.value, labelKey(y.value.name), y.value.value, UNIT_SEPARATOR);
    }
  }

  function LabelOf(s: Statement): string {
    if s.value.Spec? then s.value.name else ""
  }

  /** The specs that stand and compare equal write their label alike. */
  ghost predicate LabelsAgree(name: string, field: FieldDef, labelKey: string -> string, statements: seq<Statement>) {
    forall x, y ::
      Stands(name, field, labelKey, statements, x) && Stands(name, field, labelKey, statements, y) && Tied(Better, x, y) ==>
        LabelOf(x) == LabelOf(y)
  }

  lemma StandsShaped(name: string, field: FieldDef, labelKey: string -> string, statements: seq<Statement>, s: Statement)
    requires Stands(name, field, labelKey, statements, s)
    ensures s in statements && Shaped(field, s.value)
  {
  }

  /** Whatever isn't specs is settled; specs are exactly when their labels are written alike. */
  lemma NormalizedSettled(name: string, field: FieldDef, labelKey: string -> string, statements: seq<Statement>)
    requires forall s :: s in statements ==> AsNormalized(labelKey, s)
    ensures Settled(name, field, labelKey, statements) <==> !field.specs || LabelsAgree(name, field, labelKey, statements)
  {
    forall x, y |
      Stands(name, field, labelKey, statements, x) && Stands(name, field, labelKey, statements, y) && Tied(Better, x, y)
      ensures x.value == y.value <==> !field.specs || LabelOf(x) == LabelOf(y)
    {
      StandsShaped(name, field, labelKey, statements, x);
      StandsShaped(name, field, labelKey, statements, y);
      NormalizedTies(labelKey, x, y);
    }
  }

  /**
   * Of statements as they are kept, a record is the same in every order exactly when, in each field of specs, those that
   * tie and that nothing beats write their label alike: how it is written, as in its case, is all they can differ in.
   */
  lemma NormalizedInAnyOrder(fields: seq<(string, FieldDef)>, labelKey: string -> string, statements: seq<Statement>)
    requires forall s :: s in statements ==> AsNormalized(labelKey, s)
    ensures
      (forall b :: multiset(b) == multiset(statements) ==>
                     Survivors(fields, labelKey, b) == Survivors(fields, labelKey, statements))
      <==> forall k :: 0 <= k < |fields| && fields[k].1.specs ==>
             LabelsAgree(fields[k].0, fields[k].1, labelKey, statements)
  {
    SameInAnyOrder(fields, labelKey, statements);
    forall k | 0 <= k < |fields|
      ensures
        Settled(fields[k].0, fields[k].1, labelKey, statements) <==>
        !fields[k].1.specs || LabelsAgree(fields[k].0, fields[k].1, labelKey, statements)
    {
      NormalizedSettled(fields[k].0, fields[k].1, labelKey, statements);
    }
  }

  /** Read in another order, the statements give another record. */
  ghost predicate OrderShows(fields: seq<(string, FieldDef)>, labelKey: string -> string, statements: seq<Statement>) {
    exists c :: multiset(c) == multiset(statements) && Survivors(fields, labelKey, c) != Survivors(fields, labelKey, statements)
  }

  /** Two specs of one slot that tie, written differently, unsettle their field. */
  lemma TieUnsettles(name: string, labelKey: string -> string, a: Statement, b: Statement)
    requires a.property == b.property == name && a.value.Spec? && b.value.Spec? && a.value != b.value && Tied(Better, a, b)
    requires labelKey(a.value.name) == labelKey(b.value.name)
    ensures !Settled(name, FieldDef(true, true), labelKey, [a, b])
  {
    var field := FieldDef(true, true);
    BetterOrders();
    assert Filter(Mine(name, field), [a, b]) == [a, b] by {
      assert [a, b][..1] == [a] && [a][..0] == [];
    }
    assert Stands(name, field, labelKey, [a, b], a) && Stands(name, field, labelKey, [a, b], b);
  }

  lemma TieShows(name: string, labelKey: string -> string, a: Statement, b: Statement)
    requires !Settled(name, FieldDef(true, true), labelKey, [a, b])
    ensures OrderShows([(name, FieldDef(true, true))], labelKey, [a, b])
  {
    var fields := [(name, FieldDef(true, true))];
    assert fields[0] == (name, FieldDef(true, true));
    SameInAnyOrder(fields, labelKey, [a, b]);
  }

  /** A spec of 300 ohms as a page's structured data gives it, under a label. */
  function Impedance(labelled: string): Statement {
    Statement("specs", Spec(labelled, "300"), "impedance" + [UNIT_SEPARATOR] + "300",
              Jsonld, 1.0, "2026", "https://maker.example/a", Some(0))
  }

  lemma ImpedanceNormalized(labelKey: string -> string, labelled: string)
    requires labelKey(labelled) == "impedance"
    ensures AsNormalized(labelKey, Impedance(labelled))
  {
  }

  /**
   * They can: two specs under one key, one label with a capital. They are of two items, as two sources of a dataset
   * may list one address; of one item, the store holds one current statement for each property, method and value key.
   */
  lemma TiesCanDiffer(labelKey: string -> string)
    requires labelKey("Impedance") == "impedance" == labelKey("impedance")
    ensures AsNormalized(labelKey, Impedance("Impedance")) && AsNormalized(labelKey, Impedance("impedance"))
    ensures OrderShows([("specs", FieldDef(true, true))], labelKey, [Impedance("Impedance"), Impedance("impedance")])
  {
    var a, b := Impedance("Impedance"), Impedance("impedance");
    assert a.value.name[0] != b.value.name[0];
    ImpedanceNormalized(labelKey, "Impedance");
    ImpedanceNormalized(labelKey, "impedance");
    TieUnsettles("specs", labelKey, a, b);
    TieShows("specs", labelKey, a, b);
  }
}
