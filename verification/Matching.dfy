/**
 Which records' identifiers and names tell them apart (platform/core/src/identity.ts and matching.ts): identity
 claims, identifiers that disagree, and the names whose entities aren't settled.

 A text value comes with its `textKey`, and similarity with the name it is of. A claim is kept as its parts, not
 as one text.
 */
module Matching {
  import opened Basics

  datatype FieldValue = Text(text: string, key: string) | Spec(specLabel: string, specValue: string)

  /** What a field holds: whether GTINs, and the field that scopes it. */
  datatype Field = Field(gtin: bool, scope: Option<string>)

  datatype RecordType = RecordType(identifiers: seq<string>, keys: seq<seq<string>>, fields: map<string, Field>)

  type Values = map<string, seq<FieldValue>>

  function ValuesOf(values: Values, name: string): seq<FieldValue> {
    if name in values then values[name] else []
  }

  /** `identifierKey` */
  function KeyOf(value: FieldValue): string {
    if value.Text? then value.key else ""
  }

  function FirstKey(values: Values, name: string): string {
    if ValuesOf(values, name) == [] then "" else KeyOf(ValuesOf(values, name)[0])
  }

  // ---------------------------------------------------------------------- claims

  datatype ClaimValue = IdentifierClaim(name: string, scope: Option<string>, key: string) | KeyClaim(index: nat, keys: seq<string>)

  datatype Claim = Claim(value: ClaimValue, rank: nat)

  function ClaimOf(name: string, field: Field, scope: Option<string>, rank: nat, value: FieldValue): Option<Claim> {
    var key := if value.Spec? then "" else if field.gtin then value.text else value.key;
    if key == "" then None else Some(Claim(IdentifierClaim(name, scope, key), rank))
  }

  /** What one kind of identifier claims: nothing where its scope, such as the brand, has no key. */
  function ClaimsOfKind(recordType: RecordType, values: Values, rank: nat): seq<Claim>
    requires rank < |recordType.identifiers|
  {
    var name := recordType.identifiers[rank];
    if name !in recordType.fields then []
    else
      var field := recordType.fields[name];
      var scope := match field.scope case None => None case Some(scoping) => Some(FirstKey(values, scoping));
      if scope == Some("") then []
      else Mapped((value: FieldValue) => ClaimOf(name, field, scope, rank, value), ValuesOf(values, name))
  }

  function IdentifierClaims(recordType: RecordType, values: Values, kinds: nat): seq<Claim>
    requires kinds <= |recordType.identifiers|
  {
    if kinds == 0 then []
    else IdentifierClaims(recordType, values, kinds - 1) + ClaimsOfKind(recordType, values, kinds - 1)
  }

  function KeyClaims(recordType: RecordType, values: Values, count: nat): seq<Claim>
    requires count <= |recordType.keys|
  {
    if count == 0 then []
    else
      var index, fields := count - 1, recordType.keys[count - 1];
      var keys := seq(|fields|, k requires 0 <= k < |fields| => FirstKey(values, fields[k]));
      KeyClaims(recordType, values, index)
      + if "" in keys then [] else [Claim(KeyClaim(index, keys), |recordType.identifiers| + index)]
  }

  /** `identityClaims`: identifiers first, then keys of several fields, such as brand and name. */
  function Claims(recordType: RecordType, values: Values): seq<Claim> {
    IdentifierClaims(recordType, values, |recordType.identifiers|) + KeyClaims(recordType, values, |recordType.keys|)
  }

  /** Whether a claim is on a name, not by an identifier. */
  predicate IsName(recordType: RecordType, claim: Claim) {
    claim.rank >= |recordType.identifiers|
  }

  // ---------------------------------------------------------------------- identifiers that disagree

  /** The identifiers of one kind that a record gives. */
  function Given(recordType: RecordType, values: Values, kind: nat): set<string>
    requires kind < |recordType.identifiers|
  {
    set value | value in ValuesOf(values, recordType.identifiers[kind]) :: KeyOf(value)
  }

  predicate BothGive(recordType: RecordType, a: Values, b: Values, kind: nat)
    requires kind < |recordType.identifiers|
  {
    Given(recordType, a, kind) != {} && Given(recordType, b, kind) != {}
  }

  predicate Share(recordType: RecordType, a: Values, b: Values, kind: nat)
    requires kind < |recordType.identifiers|
  {
    Given(recordType, a, kind) * Given(recordType, b, kind) != {}
  }

  /** Both give identifiers of some kind, and they share none of any kind. */
  predicate Disagree(recordType: RecordType, a: Values, b: Values) {
    && (exists kind :: 0 <= kind < |recordType.identifiers| && BothGive(recordType, a, b, kind))
    && (forall kind :: 0 <= kind < |recordType.identifiers| ==> !Share(recordType, a, b, kind))
  }

  /** `identifiersDisagree` */
  method IdentifiersDisagree(recordType: RecordType, a: Values, b: Values) returns (disagree: bool)
    ensures disagree == Disagree(recordType, a, b)
  {
    disagree := false;
    for kind := 0 to |recordType.identifiers|
      invariant disagree <==> exists k :: 0 <= k < kind && BothGive(recordType, a, b, k)
      invariant forall k :: 0 <= k < kind ==> !Share(recordType, a, b, k)
    {
      var left, right := Given(recordType, a, kind), Given(recordType, b, kind);
      if left != {} && right != {} {
        if left * right != {} {
          assert Share(recordType, a, b, kind);
          return false;
        }
        assert BothGive(recordType, a, b, kind);
        disagree := true;
      }
    }
  }

  lemma DisagreeBothWays(recordType: RecordType, a: Values, b: Values)
    ensures Disagree(recordType, a, b) == Disagree(recordType, b, a)
  {
    if Disagree(recordType, a, b) {
      OtherWay(recordType, a, b);
    }
    if Disagree(recordType, b, a) {
      OtherWay(recordType, b, a);
    }
  }

  lemma OtherWay(recordType: RecordType, a: Values, b: Values)
    requires Disagree(recordType, a, b)
    ensures Disagree(recordType, b, a)
  {
    var kind :| 0 <= kind < |recordType.identifiers| && BothGive(recordType, a, b, kind);
    assert BothGive(recordType, b, a, kind);
    forall k | 0 <= k < |recordType.identifiers|
      ensures !Share(recordType, b, a, k)
    {
      assert Given(recordType, a, k) * Given(recordType, b, k) == Given(recordType, b, k) * Given(recordType, a, k);
      assert !Share(recordType, a, b, k);
    }
  }

  // ---------------------------------------------------------------------- signatures

  type Signature = seq<set<string>>

  /** `identifierSignature`: the identifiers a record gives of each kind, or nothing where it gives none. */
  function SignatureOf(recordType: RecordType, values: Values): Option<Signature> {
    var n := |recordType.identifiers|;
    var kinds := seq(n, kind requires 0 <= kind < n => Given(recordType, values, kind));
    if forall kind :: 0 <= kind < n ==> kinds[kind] == {} then None else Some(kinds)
  }

  lemma SignatureGives(recordType: RecordType, a: Values, b: Values, kind: nat)
    requires kind < |recordType.identifiers|
    requires SignatureOf(recordType, a) == SignatureOf(recordType, b)
    ensures Given(recordType, a, kind) == Given(recordType, b, kind)
  {
    var n := |recordType.identifiers|;
    var left := seq(n, k requires 0 <= k < n => Given(recordType, a, k));
    var right := seq(n, k requires 0 <= k < n => Given(recordType, b, k));
    assert left[kind] == Given(recordType, a, kind) && right[kind] == Given(recordType, b, kind);
  }

  /** The signature is all that disagreeing reads: equal ones disagree with the same records. */
  lemma SameSignature(recordType: RecordType, a: Values, b: Values, c: Values)
    requires SignatureOf(recordType, a) == SignatureOf(recordType, b)
    ensures Disagree(recordType, a, c) == Disagree(recordType, b, c)
  {
    forall kind | 0 <= kind < |recordType.identifiers|
      ensures BothGive(recordType, a, c, kind) == BothGive(recordType, b, c, kind)
      ensures Share(recordType, a, c, kind) == Share(recordType, b, c, kind)
    {
      SignatureGives(recordType, a, b, kind);
    }
  }

  /** Records with one signature, or none, never disagree with each other. */
  lemma AlikeAgree(recordType: RecordType, a: Values, b: Values)
    requires SignatureOf(recordType, a) == SignatureOf(recordType, b)
    ensures !Disagree(recordType, a, b)
  {
    forall kind | 0 <= kind < |recordType.identifiers| && BothGive(recordType, a, b, kind)
      ensures Share(recordType, a, b, kind)
    {
      SignatureGives(recordType, a, b, kind);
    }
  }

  lemma WithoutSignature(recordType: RecordType, a: Values, b: Values)
    requires SignatureOf(recordType, a) == None
    ensures !Disagree(recordType, a, b)
  {
    var n := |recordType.identifiers|;
    var kinds := seq(n, kind requires 0 <= kind < n => Given(recordType, a, kind));
    forall kind | 0 <= kind < n
      ensures !BothGive(recordType, a, b, kind)
    {
      assert kinds[kind] == {};
    }
  }

  // ---------------------------------------------------------------------- names that are contested

  datatype Verdict = Same | Edition | NotSame | Unsure

  /** A page that isn't joined yet. */
  datatype Page = Page(values: Values, verdicts: map<string, Verdict>)

  datatype Entities = Entities(owners: map<ClaimValue, string>, identifiers: map<string, Values>)

  predicate Carries(recordType: RecordType, page: Page, name: ClaimValue) {
    exists claim :: claim in Claims(recordType, page.values) && IsName(recordType, claim) && claim.value == name
  }

  /** Whether a name's owner is still unsure for a page: a person hasn't said. */
  predicate WaitsForOwner(page: Page, entities: Entities, name: ClaimValue) {
    && name in entities.owners
    && entities.owners[name] in page.verdicts
    && page.verdicts[entities.owners[name]] == Unsure
  }

  ghost predicate Waiting(recordType: RecordType, pages: seq<Page>, entities: Entities, name: ClaimValue) {
    exists page :: page in pages && Carries(recordType, page, name) && WaitsForOwner(page, entities, name)
  }

  ghost predicate PagesDisagree(recordType: RecordType, pages: seq<Page>, name: ClaimValue) {
    exists a, b ::
      && a in pages && b in pages
      && Carries(recordType, a, name) && Carries(recordType, b, name)
      && Disagree(recordType, a.values, b.values)
  }

  ghost predicate OwnerDisagrees(recordType: RecordType, pages: seq<Page>, entities: Entities, name: ClaimValue) {
    && name in entities.owners && entities.owners[name] in entities.identifiers
    && exists page ::
         && page in pages && Carries(recordType, page, name)
         && Disagree(recordType, entities.identifiers[entities.owners[name]], page.values)
  }

  /** What contested means: by every pair of pages, and every page beside the name's owner. */
  ghost predicate Contested(recordType: RecordType, pages: seq<Page>, entities: Entities, name: ClaimValue) {
    || Waiting(recordType, pages, entities, name)
    || PagesDisagree(recordType, pages, name)
    || OwnerDisagrees(recordType, pages, entities, name)
  }

  // ---------------------------------------------------------------------- one record for each signature

  type Table = map<ClaimValue, map<Signature, Values>>

  /** Which names are already noted, from which pages. */
  type Noted = set<(Page, ClaimValue)>

  /** A record in the table is that of a page noted under the name. */
  ghost predicate FromPage(recordType: RecordType, table: Table, noted: Noted, name: ClaimValue, signature: Signature)
    requires name in table && signature in table[name]
  {
    exists page ::
      && (page, name) in noted
      && SignatureOf(recordType, page.values) == Some(signature)
      && table[name][signature] == page.values
  }

  ghost predicate FromPages(recordType: RecordType, table: Table, noted: Noted) {
    forall name, signature :: name in table && signature in table[name] ==>
      FromPage(recordType, table, noted, name, signature)
  }

  /** Every noted page's signature is in the table. */
  ghost predicate HasPages(recordType: RecordType, table: Table, noted: Noted) {
    forall page, name :: (page, name) in noted && SignatureOf(recordType, page.values).Some? ==>
      name in table && SignatureOf(recordType, page.values).value in table[name]
  }

  /** The records compared under a name: the table's, and the owner's. */
  function Records(table: Table, entities: Entities, name: ClaimValue): set<Values>
    requires name in table
  {
    table[name].Values
    + if name in entities.owners && entities.owners[name] in entities.identifiers
      then {entities.identifiers[entities.owners[name]]} else {}
  }

  ghost predicate SomeDisagree(recordType: RecordType, records: set<Values>) {
    exists a, b :: a in records && b in records && Disagree(recordType, a, b)
  }

  /** Which pages are noted once every page is. */
  ghost predicate AllNoted(recordType: RecordType, pages: seq<Page>, noted: Noted) {
    forall page, name :: (page, name) in noted <==> page in pages && Carries(recordType, page, name)
  }

  /** The page's record in the table stands for it. */
  lemma Stands(recordType: RecordType, table: Table, noted: Noted, page: Page, name: ClaimValue, other: Values)
      returns (record: Values)
    requires FromPages(recordType, table, noted) && HasPages(recordType, table, noted)
    requires (page, name) in noted && Disagree(recordType, page.values, other)
    ensures name in table && record in table[name].Values && Disagree(recordType, record, other)
  {
    if SignatureOf(recordType, page.values) == None {
      WithoutSignature(recordType, page.values, other);
      record := map[];
    } else {
      var signature := SignatureOf(recordType, page.values).value;
      record := table[name][signature];
      assert FromPage(recordType, table, noted, name, signature);
      var from :| (from, name) in noted
        && SignatureOf(recordType, from.values) == Some(signature) && record == from.values;
      SameSignature(recordType, page.values, record, other);
    }
  }

  /** What pages disagree about, the table's records do. */
  lemma PagesAreFound(
      recordType: RecordType, pages: seq<Page>, entities: Entities, table: Table, noted: Noted, name: ClaimValue)
    requires FromPages(recordType, table, noted) && HasPages(recordType, table, noted)
    requires AllNoted(recordType, pages, noted)
    requires PagesDisagree(recordType, pages, name) || OwnerDisagrees(recordType, pages, entities, name)
    ensures name in table && SomeDisagree(recordType, Records(table, entities, name))
  {
    if PagesDisagree(recordType, pages, name) {
      var a, b :|
        && a in pages && b in pages
        && Carries(recordType, a, name) && Carries(recordType, b, name)
        && Disagree(recordType, a.values, b.values);
      var left := Stands(recordType, table, noted, a, name, b.values);
      DisagreeBothWays(recordType, left, b.values);
      var right := Stands(recordType, table, noted, b, name, left);
      assert left in Records(table, entities, name) && right in Records(table, entities, name);
    } else {
      var theirs := entities.identifiers[entities.owners[name]];
      var page :|
        page in pages && Carries(recordType, page, name) && Disagree(recordType, theirs, page.values);
      DisagreeBothWays(recordType, theirs, page.values);
      var left := Stands(recordType, table, noted, page, name, theirs);
      assert left in Records(table, entities, name) && theirs in Records(table, entities, name);
    }
  }

  /** What the table's records disagree about, pages do. */
  lemma FoundAreOfPages(
      recordType: RecordType, pages: seq<Page>, entities: Entities, table: Table, noted: Noted, name: ClaimValue)
    requires FromPages(recordType, table, noted) && AllNoted(recordType, pages, noted)
    requires name in table && SomeDisagree(recordType, Records(table, entities, name))
    ensures PagesDisagree(recordType, pages, name) || OwnerDisagrees(recordType, pages, entities, name)
  {
    var records := Records(table, entities, name);
    var a, b :| a in records && b in records && Disagree(recordType, a, b);
    DisagreeBothWays(recordType, a, b);
    if a in table[name].Values {
      var left := PageOf(recordType, pages, table, noted, name, a);
      if b in table[name].Values {
        var right := PageOf(recordType, pages, table, noted, name, b);
      }
    } else if b in table[name].Values {
      var right := PageOf(recordType, pages, table, noted, name, b);
    } else {
      AlikeAgree(recordType, a, b);
    }
  }

  lemma PageOf(
      recordType: RecordType, pages: seq<Page>, table: Table, noted: Noted, name: ClaimValue, record: Values)
      returns (page: Page)
    requires FromPages(recordType, table, noted) && AllNoted(recordType, pages, noted)
    requires name in table && record in table[name].Values
    ensures page in pages && Carries(recordType, page, name) && page.values == record
  {
    var signature :| signature in table[name] && table[name][signature] == record;
    assert FromPage(recordType, table, noted, name, signature);
    page :| (page, name) in noted
      && SignatureOf(recordType, page.values) == Some(signature) && table[name][signature] == page.values;
  }

  /** `[...sets.values()]` */
  method ListOf(sets: map<Signature, Values>) returns (list: seq<Values>)
    ensures forall record :: record in list <==> record in sets.Values
  {
    list := [];
    var rest := sets.Keys;
    while rest != {}
      invariant rest <= sets.Keys
      invariant forall record :: record in list <==>
        exists signature :: signature in sets && signature !in rest && sets[signature] == record
    {
      var signature :| signature in rest;
      list := list + [sets[signature]];
      rest := rest - {signature};
    }
  }

  /** `anyDisagree` */
  method AnyDisagree(recordType: RecordType, records: seq<Values>) returns (some: bool)
    ensures some <==> exists a, b :: a in records && b in records && Disagree(recordType, a, b)
  {
    some := false;
    for index := 0 to |records|
      invariant !some
      invariant forall i, j :: 0 <= i < index && i < j < |records| ==> !Disagree(recordType, records[i], records[j])
    {
      for other := index + 1 to |records|
        invariant forall j :: index < j < other ==> !Disagree(recordType, records[index], records[j])
      {
        var disagree := IdentifiersDisagree(recordType, records[index], records[other]);
        if disagree {
          return true;
        }
      }
    }
    forall i, j | 0 <= i < |records| && 0 <= j < |records|
      ensures !Disagree(recordType, records[i], records[j])
    {
      if i > j {
        DisagreeBothWays(recordType, records[i], records[j]);
      } else if i == j {
        AlikeAgree(recordType, records[i], records[j]);
      }
    }
  }

  // ---------------------------------------------------------------------- contestedNames

  /** Noting a page under a name, as its signature's record. */
  function Note(table: Table, name: ClaimValue, signature: Signature, values: Values): Table {
    table[name := (if name in table then table[name] else map[])[signature := values]]
  }

  lemma NoteKeeps(recordType: RecordType, table: Table, noted: Noted, page: Page, name: ClaimValue)
    requires FromPages(recordType, table, noted) && HasPages(recordType, table, noted)
    requires SignatureOf(recordType, page.values).Some?
    ensures
      var more := Note(table, name, SignatureOf(recordType, page.values).value, page.values);
      FromPages(recordType, more, noted + {(page, name)}) && HasPages(recordType, more, noted + {(page, name)})
  {
    var signature := SignatureOf(recordType, page.values).value;
    var more, all := Note(table, name, signature, page.values), noted + {(page, name)};
    forall n, s | n in more && s in more[n]
      ensures FromPage(recordType, more, all, n, s)
    {
      if n == name && s == signature {
        assert (page, name) in all;
      } else {
        assert FromPage(recordType, table, noted, n, s);
        var from :| (from, n) in noted
          && SignatureOf(recordType, from.values) == Some(s) && table[n][s] == from.values;
        assert (from, n) in all;
      }
    }
  }

  lemma NotedKeeps(recordType: RecordType, table: Table, noted: Noted, page: Page, name: ClaimValue)
    requires FromPages(recordType, table, noted) && HasPages(recordType, table, noted)
    requires SignatureOf(recordType, page.values) == None
    ensures FromPages(recordType, table, noted + {(page, name)}) && HasPages(recordType, table, noted + {(page, name)})
  {
    var all := noted + {(page, name)};
    forall n, s | n in table && s in table[n]
      ensures FromPage(recordType, table, all, n, s)
    {
      assert FromPage(recordType, table, noted, n, s);
      var from :| (from, n) in noted
        && SignatureOf(recordType, from.values) == Some(s) && table[n][s] == from.values;
      assert (from, n) in all;
    }
  }

  /** The names that wait for a person, of those noted. */
  ghost predicate WaitingNoted(entities: Entities, noted: Noted, contested: set<ClaimValue>) {
    forall name :: name in contested <==> exists page :: (page, name) in noted && WaitsForOwner(page, entities, name)
  }

  /** Goes through one page's claims. */
  method NotePage(recordType: RecordType, page: Page, entities: Entities, table: Table, contested: set<ClaimValue>,
      ghost noted: Noted)
      returns (more: Table, held: set<ClaimValue>, ghost all: Noted)
    requires FromPages(recordType, table, noted) && HasPages(recordType, table, noted)
    requires WaitingNoted(entities, noted, contested)
    ensures FromPages(recordType, more, all) && HasPages(recordType, more, all)
    ensures WaitingNoted(entities, all, held)
    ensures forall p, name :: (p, name) in all <==> (p, name) in noted || (p == page && Carries(recordType, page, name))
  {
    more, held, all := table, contested, noted;
    var signature := SignatureOf(recordType, page.values);
    var claims := Claims(recordType, page.values);
    for i := 0 to |claims|
      invariant FromPages(recordType, more, all) && HasPages(recordType, more, all)
      invariant WaitingNoted(entities, all, held)
      invariant forall p, name :: (p, name) in all ==> (p, name) in noted || (p == page && Carries(recordType, page, name))
      invariant forall p, name :: (p, name) in noted ==> (p, name) in all
      invariant forall j :: 0 <= j < i && IsName(recordType, claims[j]) ==> (page, claims[j].value) in all
    {
      if !IsName(recordType, claims[i]) {
        continue;
      }
      var name := claims[i].value;
      assert Carries(recordType, page, name);
      ghost var before, were := all, held;
      if WaitsForOwner(page, entities, name) {
        held := held + {name};
      }
      if signature == None {
        NotedKeeps(recordType, more, all, page, name);
      } else {
        NoteKeeps(recordType, more, all, page, name);
        more := Note(more, name, signature.value, page.values);
      }
      all := all + {(page, name)};
      WaitingMore(entities, before, were, page, name);
    }
  }

  lemma WaitingMore(entities: Entities, noted: Noted, contested: set<ClaimValue>, page: Page, name: ClaimValue)
    requires WaitingNoted(entities, noted, contested)
    ensures WaitingNoted(entities, noted + {(page, name)},
      if WaitsForOwner(page, entities, name) then contested + {name} else contested)
  {
    var all := noted + {(page, name)};
    var held := if WaitsForOwner(page, entities, name) then contested + {name} else contested;
    forall other
      ensures other in held <==> exists p :: (p, other) in all && WaitsForOwner(p, entities, other)
    {
      if other in contested {
        var p :| (p, other) in noted && WaitsForOwner(p, entities, other);
        assert (p, other) in all;
      } else if other in held {
        assert (page, name) in all;
      }
    }
  }

  /** `contestedNames`: by one record for each signature, exactly the names that every pair of pages would find. */
  method ContestedNames(recordType: RecordType, pages: seq<Page>, entities: Entities)
      returns (contested: set<ClaimValue>)
    ensures forall name :: name in contested <==> Contested(recordType, pages, entities, name)
  {
    contested := {};
    var given: Table := map[];
    ghost var noted: Noted := {};
    for i := 0 to |pages|
      invariant FromPages(recordType, given, noted) && HasPages(recordType, given, noted)
      invariant WaitingNoted(entities, noted, contested)
      invariant AllNoted(recordType, pages[..i], noted)
    {
      given, contested, noted := NotePage(recordType, pages[i], entities, given, contested, noted);
      assert pages[..i + 1] == pages[..i] + [pages[i]];
    }
    assert pages[..|pages|] == pages;
    ghost var waiting := contested;
    var rest := given.Keys;
    while rest != {}
      invariant rest <= given.Keys
      invariant forall name :: name in contested <==>
        name in waiting || (name in given && name !in rest && SomeDisagree(recordType, Records(given, entities, name)))
    {
      var name :| name in rest;
      rest := rest - {name};
      if name !in contested {
        var records := ListOf(given[name]);
        if name in entities.owners && entities.owners[name] in entities.identifiers {
          records := [entities.identifiers[entities.owners[name]]] + records;
        }
        assert forall record :: record in records <==> record in Records(given, entities, name);
        var disagree := AnyDisagree(recordType, records);
        assert disagree <==> SomeDisagree(recordType, Records(given, entities, name));
        if disagree {
          contested := contested + {name};
        }
      }
    }
    forall name
      ensures name in contested <==> Contested(recordType, pages, entities, name)
    {
      ContestedIsFound(recordType, pages, entities, given, noted, waiting, name);
    }
  }

  lemma ContestedIsFound(
      recordType: RecordType, pages: seq<Page>, entities: Entities, table: Table, noted: Noted,
      waiting: set<ClaimValue>, name: ClaimValue)
    requires FromPages(recordType, table, noted) && HasPages(recordType, table, noted)
    requires AllNoted(recordType, pages, noted) && WaitingNoted(entities, noted, waiting)
    ensures Contested(recordType, pages, entities, name) <==>
      name in waiting || (name in table && SomeDisagree(recordType, Records(table, entities, name)))
  {
    assert name in waiting <==> Waiting(recordType, pages, entities, name) by {
      if name in waiting {
        var page :| (page, name) in noted && WaitsForOwner(page, entities, name);
      }
      if Waiting(recordType, pages, entities, name) {
        var page :| page in pages && Carries(recordType, page, name) && WaitsForOwner(page, entities, name);
        assert (page, name) in noted;
      }
    }
    if PagesDisagree(recordType, pages, name) || OwnerDisagrees(recordType, pages, entities, name) {
      PagesAreFound(recordType, pages, entities, table, noted, name);
    }
    if name in table && SomeDisagree(recordType, Records(table, entities, name)) {
      FoundAreOfPages(recordType, pages, entities, table, noted, name);
    }
  }
}
