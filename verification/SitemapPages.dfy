/**
 The pages a source keeps of a sitemap's entries (platform/core/src/sitemap.ts): each address once, with the latest
 time given for it, and a count of what is left out. How an address parses, and which paths the patterns match, come
 as functions given.
 */
module SitemapPages {
  import opened Basics
  import opened Sorting
  import Sitemap

  type Page = Sitemap.Page

  const MAX_LOC := 2048

  /** An address as it parses; its spelling is without its fragment, its percent escapes in uppercase. */
  datatype Url = Url(https: bool, fetchable: bool, host: string, path: string, spelling: string)

  datatype Choice = Choice(parse: string -> Option<Url>, host: string, included: string -> bool, excluded: string -> bool)

  datatype Outcome = Unusable | Elsewhere | Unmatched | Kept(href: string)

  datatype Left = Left(elsewhere: nat, unusable: nat, unmatched: nat, repeated: nat)

  function OutcomeOf(choice: Choice, loc: string): Outcome {
    match choice.parse(loc)
    case None => Unusable
    case Some(url) =>
      if !url.https || !url.fetchable then Unusable
      else if url.host != choice.host then Elsewhere
      else if !choice.included(url.path) || choice.excluded(url.path) then Unmatched
      else if |url.spelling| > MAX_LOC then Unusable
      else Kept(url.spelling)
  }

  function HrefOf(choice: Choice): Page -> Option<string> {
    (entry: Page) => match OutcomeOf(choice, entry.loc) case Kept(href) => Some(href) case _ => None
  }

  /** The addresses kept, as often as they are given. */
  function Hrefs(choice: Choice, entries: seq<Page>): seq<string> {
    Mapped(HrefOf(choice), entries)
  }

  /** The later of two times, by text; a missing one is the earliest. */
  function Later(a: Option<string>, b: Option<string>): Option<string> {
    if b.Some? && (a == None || TextLess(a.value, b.value)) then b else a
  }

  /** The latest time given for an address. */
  function Latest(choice: Choice, entries: seq<Page>, href: string): Option<string> {
    if entries == [] then None
    else
      var before, last := Latest(choice, entries[..|entries| - 1], href), entries[|entries| - 1];
      if OutcomeOf(choice, last.loc) == Kept(href) then Later(before, last.lastmod) else before
  }

  function Times(choice: Choice, entries: seq<Page>, outcome: Outcome): nat {
    if entries == [] then 0
    else
      Times(choice, entries[..|entries| - 1], outcome)
      + if OutcomeOf(choice, entries[|entries| - 1].loc) == outcome then 1 else 0
  }

  /** What is kept and left once some entries are gone through: addresses in order, their times, the counts. */
  ghost predicate Selected(
      choice: Choice, entries: seq<Page>, order: seq<string>, kept: map<string, Option<string>>, left: Left)
  {
    && order == Unique(Hrefs(choice, entries))
    && (forall href :: href in kept <==> href in order)
    && (forall href :: href in kept ==> kept[href] == Latest(choice, entries, href))
    && left.elsewhere == Times(choice, entries, Elsewhere)
    && left.unusable == Times(choice, entries, Unusable)
    && left.unmatched == Times(choice, entries, Unmatched)
    && |order| + left.elsewhere + left.unusable + left.unmatched + left.repeated == |entries|
  }

  /** `selectPages` */
  method SelectPages(choice: Choice, entries: seq<Page>) returns (pages: seq<Page>, left: Left)
    ensures |pages| == |Unique(Hrefs(choice, entries))|
    ensures forall k :: 0 <= k < |pages| ==>
      pages[k].loc == Unique(Hrefs(choice, entries))[k]
      && pages[k].lastmod == Latest(choice, entries, pages[k].loc)
    ensures left.elsewhere == Times(choice, entries, Elsewhere) && left.unusable == Times(choice, entries, Unusable)
    ensures left.unmatched == Times(choice, entries, Unmatched)
    ensures |pages| + left.elsewhere + left.unusable + left.unmatched + left.repeated == |entries|
  {
    var kept: map<string, Option<string>> := map[];
    var order: seq<string> := [];
    left := Left(0, 0, 0, 0);
    for i := 0 to |entries|
      invariant Selected(choice, entries[..i], order, kept, left)
    {
      var entry := entries[i];
      assert entries[..i + 1] == entries[..i] + [entry];
      match OutcomeOf(choice, entry.loc)
      case Unusable =>
        LeftOut(choice, entries[..i], entry, order, kept, left);
        left := left.(unusable := left.unusable + 1);
      case Elsewhere =>
        LeftOut(choice, entries[..i], entry, order, kept, left);
        left := left.(elsewhere := left.elsewhere + 1);
      case Unmatched =>
        LeftOut(choice, entries[..i], entry, order, kept, left);
        left := left.(unmatched := left.unmatched + 1);
      case Kept(href) =>
        if href !in kept {
          KeptFirst(choice, entries[..i], entry, href, order, kept, left);
          kept, order := kept[href := entry.lastmod], order + [href];
        } else {
          KeptAgain(choice, entries[..i], entry, href, order, kept, left);
          left := left.(repeated := left.repeated + 1);
          if entry.lastmod.Some? && (kept[href] == None || TextLess(kept[href].value, entry.lastmod.value)) {
            kept := kept[href := entry.lastmod];
          }
        }
    }
    assert entries[..|entries|] == entries;
    pages := seq(|order|, k requires 0 <= k < |order| => Sitemap.Page(order[k], kept[order[k]]));
  }

  /** One more entry's count and time. */
  lemma OneMore(choice: Choice, entries: seq<Page>, entry: Page, outcome: Outcome, href: string)
    ensures
      Times(choice, entries + [entry], outcome)
        == Times(choice, entries, outcome) + if OutcomeOf(choice, entry.loc) == outcome then 1 else 0
    ensures
      Latest(choice, entries + [entry], href)
        == if OutcomeOf(choice, entry.loc) == Kept(href) then Later(Latest(choice, entries, href), entry.lastmod)
           else Latest(choice, entries, href)
  {
    assert (entries + [entry])[..|entries|] == entries;
  }

  lemma EachMore(choice: Choice, entries: seq<Page>, entry: Page)
    ensures forall outcome ::
      Times(choice, entries + [entry], outcome)
        == Times(choice, entries, outcome) + if OutcomeOf(choice, entry.loc) == outcome then 1 else 0
    ensures forall href ::
      Latest(choice, entries + [entry], href)
        == if OutcomeOf(choice, entry.loc) == Kept(href) then Later(Latest(choice, entries, href), entry.lastmod)
           else Latest(choice, entries, href)
  {
    forall outcome, href {
      OneMore(choice, entries, entry, outcome, href);
    }
  }

  lemma LeftOut(choice: Choice, entries: seq<Page>, entry: Page, order: seq<string>,
      kept: map<string, Option<string>>, left: Left)
    requires Selected(choice, entries, order, kept, left) && !OutcomeOf(choice, entry.loc).Kept?
    ensures Selected(choice, entries + [entry], order, kept,
      match OutcomeOf(choice, entry.loc)
      case Unusable => left.(unusable := left.unusable + 1)
      case Elsewhere => left.(elsewhere := left.elsewhere + 1)
      case _ => left.(unmatched := left.unmatched + 1))
  {
    EachMore(choice, entries, entry);
    Follows(choice, entries, entry);
  }

  lemma KeptFirst(choice: Choice, entries: seq<Page>, entry: Page, href: string, order: seq<string>,
      kept: map<string, Option<string>>, left: Left)
    requires Selected(choice, entries, order, kept, left)
    requires OutcomeOf(choice, entry.loc) == Kept(href) && href !in kept
    ensures Selected(choice, entries + [entry], order + [href], kept[href := entry.lastmod], left)
  {
    EachMore(choice, entries, entry);
    Follows(choice, entries, entry);
    NotYet(choice, entries, href);
  }

  lemma KeptAgain(choice: Choice, entries: seq<Page>, entry: Page, href: string, order: seq<string>,
      kept: map<string, Option<string>>, left: Left)
    requires Selected(choice, entries, order, kept, left)
    requires OutcomeOf(choice, entry.loc) == Kept(href) && href in kept
    ensures Selected(choice, entries + [entry], order, kept[href := Later(kept[href], entry.lastmod)],
      left.(repeated := left.repeated + 1))
    ensures kept[href := kept[href]] == kept
  {
    EachMore(choice, entries, entry);
    Follows(choice, entries, entry);
  }

  /** One more entry. */
  lemma Follows(choice: Choice, entries: seq<Page>, entry: Page)
    ensures
      Unique(Hrefs(choice, entries + [entry]))
        == match OutcomeOf(choice, entry.loc)
           case Kept(href) =>
             if href in Hrefs(choice, entries) then Unique(Hrefs(choice, entries))
             else Unique(Hrefs(choice, entries)) + [href]
           case _ => Unique(Hrefs(choice, entries))
  {
    assert (entries + [entry])[..|entries|] == entries;
    match OutcomeOf(choice, entry.loc)
    case Kept(href) => UniqueSnoc(Hrefs(choice, entries), href);
    case _ =>
  }

  /** An address no entry has yet has no time. */
  lemma {:induction false} NotYet(choice: Choice, entries: seq<Page>, href: string)
    requires href !in Hrefs(choice, entries)
    ensures Latest(choice, entries, href) == None
  {
    if entries != [] {
      NotYet(choice, entries[..|entries| - 1], href);
    }
  }

  // ---------------------------------------------------------------------- what is kept

  /** The latest time is given by an entry of that address, and no entry of it gives a later one. */
  lemma {:induction false} LatestIs(choice: Choice, entries: seq<Page>, entry: Page, href: string)
    requires entry in entries && OutcomeOf(choice, entry.loc) == Kept(href)
    ensures entry.lastmod.Some? ==>
      Latest(choice, entries, href).Some? && !TextLess(Latest(choice, entries, href).value, entry.lastmod.value)
    ensures Latest(choice, entries, href).Some? ==>
      exists from :: from in entries && OutcomeOf(choice, from.loc) == Kept(href)
        && from.lastmod == Latest(choice, entries, href)
  {
    var front, last := entries[..|entries| - 1], entries[|entries| - 1];
    assert entries == front + [last];
    var before := Latest(choice, front, href);
    if entry in front {
      LatestIs(choice, front, entry, href);
    } else if before.Some? {
      var other := Given(choice, front, href);
      LatestIs(choice, front, other, href);
    }
    if entry.lastmod.Some? {
      TextLessTotal(entry.lastmod.value, entry.lastmod.value);
    }
    if before.Some? && last.lastmod.Some? {
      TextLessTotal(before.value, last.lastmod.value);
      if entry.lastmod.Some? && TextLess(before.value, last.lastmod.value) {
        NotLess(entry.lastmod.value, before.value, last.lastmod.value);
      }
    }
  }

  lemma NotLess(a: string, b: string, c: string)
    requires TextLess(b, c)
    ensures !TextLess(b, a) ==> !TextLess(c, a)
  {
    if TextLess(c, a) {
      TextLessTrans(b, c, a);
    }
  }

  lemma {:induction false} Given(choice: Choice, entries: seq<Page>, href: string) returns (from: Page)
    requires Latest(choice, entries, href).Some?
    ensures from in entries && OutcomeOf(choice, from.loc) == Kept(href)
  {
    var last := entries[|entries| - 1];
    assert entries == entries[..|entries| - 1] + [last];
    if OutcomeOf(choice, last.loc) == Kept(href) {
      from := last;
    } else {
      from := Given(choice, entries[..|entries| - 1], href);
    }
  }

  /** Which addresses are kept, and their times, don't depend on the order of the entries. */
  lemma KeptAnyOrder(choice: Choice, a: seq<Page>, b: seq<Page>, href: string)
    requires forall entry :: entry in a <==> entry in b
    ensures href in Unique(Hrefs(choice, a)) <==> href in Unique(Hrefs(choice, b))
    ensures Latest(choice, a, href) == Latest(choice, b, href)
  {
    MappedFrom(HrefOf(choice), a, href);
    MappedFrom(HrefOf(choice), b, href);
    NoLater(choice, a, b, href);
    NoLater(choice, b, a, href);
    if Latest(choice, a, href).Some? {
      TextLessTotal(Latest(choice, a, href).value, Latest(choice, b, href).value);
    }
  }

  lemma NoLater(choice: Choice, a: seq<Page>, b: seq<Page>, href: string)
    requires forall entry :: entry in a <==> entry in b
    ensures Latest(choice, a, href).Some? ==>
      Latest(choice, b, href).Some? && !TextLess(Latest(choice, b, href).value, Latest(choice, a, href).value)
  {
    if Latest(choice, a, href).Some? {
      var some := Given(choice, a, href);
      LatestIs(choice, a, some, href);
      var from :| from in a && OutcomeOf(choice, from.loc) == Kept(href) && from.lastmod == Latest(choice, a, href);
      LatestIs(choice, b, from, href);
    }
  }
}
