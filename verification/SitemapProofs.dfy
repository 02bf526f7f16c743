/**
 Reading a sitemap's events gives exactly what its tree lists, for every tree within the depth limit; and
 a document that ends before its root closes is never read as a list.
 */
module SitemapProofs {
  import opened Basics
  import opened Sitemap

  lemma {:induction false} RunBoth(reader: Reader, s: State, a: seq<Event>, b: seq<Event>)
    ensures Run(reader, s, a + b) == Run(reader, Run(reader, s, a), b)
    decreases |a|
  {
    if a == [] {
      assert a + b == b;
    } else if !s.stopped {
      assert (a + b)[0] == a[0] && (a + b)[1..] == a[1..] + b;
      RunBoth(reader, Step(reader, s, a[0]), a[1..], b);
    }
  }

  lemma RunOne(reader: Reader, s: State, e: Event)
    ensures Run(reader, s, [e]) == if s.stopped then s else Step(reader, s, e)
  {
    assert [e][1..] == [];
  }

  /** An element's events: it opens, what is in it, it closes, and then the rest. */
  lemma RunElement(reader: Reader, s: State, f: Forest)
    requires f.Element?
    ensures
      var begun := Run(reader, s, [Open(f.prefix, f.local)]);
      var within := Run(reader, begun, Events(f.children));
      var closed := Run(reader, within, [Close]);
      Run(reader, s, Events(f)) == Run(reader, closed, Events(f.rest))
  {
    RunBoth(reader, s, [Open(f.prefix, f.local)] + Events(f.children) + [Close], Events(f.rest));
    RunBoth(reader, s, [Open(f.prefix, f.local)] + Events(f.children), [Close]);
    RunBoth(reader, s, [Open(f.prefix, f.local)], Events(f.children));
  }

  lemma RunText(reader: Reader, s: State, f: Forest)
    requires f.TextNode?
    ensures Run(reader, s, Events(f)) == Run(reader, if s.stopped then s else OnText(s, f.chunk), Events(f.rest))
  {
    RunBoth(reader, s, [Text(f.chunk)], Events(f.rest));
    RunOne(reader, s, Text(f.chunk));
  }

  function WithText(s: State, text: string): State
    requires s.entry.Some? && s.field.Some?
  {
    s.(entry := Some(match s.field.value case Loc => s.entry.value.(loc := text) case Lastmod => s.entry.value.(lastmod := text)))
  }

  function TextOf(s: State): string
    requires s.entry.Some? && s.field.Some?
  {
    match s.field.value case Loc => s.entry.value.loc case Lastmod => s.entry.value.lastmod
  }

  /** Inside a field, text is kept and nothing else happens. */
  lemma {:induction false} InField(reader: Reader, s: State, f: Forest)
    requires !s.stopped && s.depth >= 3 && s.depth + Height(f) <= MAX_DEPTH && s.entry.Some? && s.field.Some?
    ensures Run(reader, s, Events(f)) == WithText(s, KeptText(f, TextOf(s)))
    decreases f
  {
    match f
    case Nothing =>
    case TextNode(chunk, rest) =>
      RunText(reader, s, f);
      InField(reader, OnText(s, chunk), rest);
    case Element(_, _, children, rest) =>
      InField(reader, Deeper(s), children);
      PastElement(reader, s, f);
      InField(reader, WithText(s, KeptText(children, TextOf(s))), rest);
  }

  function Deeper(s: State): State {
    s.(depth := s.depth + 1)
  }

  /** An element inside a field: its text is added to the field's, and it closes where it opened. */
  lemma PastElement(reader: Reader, s: State, f: Forest)
    requires !s.stopped && 3 <= s.depth < MAX_DEPTH && s.entry.Some? && s.field.Some? && f.Element?
    requires Run(reader, Deeper(s), Events(f.children)) == WithText(Deeper(s), KeptText(f.children, TextOf(s)))
    ensures Run(reader, s, Events(f)) == Run(reader, WithText(s, KeptText(f.children, TextOf(s))), Events(f.rest))
  {
    RunElement(reader, s, f);
    RunOne(reader, s, Open(f.prefix, f.local));
    RunOne(reader, WithText(Deeper(s), KeptText(f.children, TextOf(s))), Close);
  }

  /** Outside every field, nothing below the second level changes anything. */
  lemma {:induction false} OutsideFields(reader: Reader, s: State, f: Forest)
    requires !s.stopped && s.depth >= 3 && s.depth + Height(f) <= MAX_DEPTH && s.field == None
    ensures Run(reader, s, Events(f)) == s
    decreases f
  {
    match f
    case Nothing =>
    case TextNode(chunk, rest) =>
      RunText(reader, s, f);
      OutsideFields(reader, s, rest);
    case Element(prefix, local, children, rest) =>
      RunElement(reader, s, f);
      RunOne(reader, s, Open(prefix, local));
      var deeper := s.(depth := s.depth + 1);
      OutsideFields(reader, deeper, children);
      RunOne(reader, deeper, Close);
      OutsideFields(reader, s, rest);
  }

  /** An entry's fields once some of its children have been read. */
  function EntryWith(entry: Entry, f: Forest, prefix: string): Entry {
    var loc, lastmod := FirstField(f, prefix, "loc"), FirstField(f, prefix, "lastmod");
    Entry(
      if !entry.locStarted && loc.Some? then loc.value else entry.loc,
      if !entry.lastmodStarted && lastmod.Some? then lastmod.value else entry.lastmod,
      entry.locStarted || loc.Some?, entry.lastmodStarted || lastmod.Some?)
  }

  /** A field not started has no text. */
  predicate Fresh(entry: Entry) {
    (!entry.locStarted ==> entry.loc == "") && (!entry.lastmodStarted ==> entry.lastmod == "")
  }

  /** An element without the rest. */
  function Alone(f: Forest): Forest
    requires f.Element?
  {
    Element(f.prefix, f.local, f.children, Nothing)
  }

  lemma AloneField(f: Forest, prefix: string, local: string)
    requires f.Element?
    ensures
      FirstField(Alone(f), prefix, local) ==
      if f.prefix == prefix && f.local == local then Some(KeptText(f.children, "")) else None
    ensures
      FirstField(f, prefix, local) ==
      if f.prefix == prefix && f.local == local then Some(KeptText(f.children, "")) else FirstField(f.rest, prefix, local)
  {
    assert FirstField(Nothing, prefix, local) == None;
  }

  lemma EntryThenRest(entry: Entry, f: Forest, prefix: string)
    requires f.Element?
    ensures EntryWith(EntryWith(entry, Alone(f), prefix), f.rest, prefix) == EntryWith(entry, f, prefix)
  {
    AloneField(f, prefix, "loc");
    AloneField(f, prefix, "lastmod");
  }

  lemma OneChild(reader: Reader, s: State, f: Forest)
    requires f.Element? && !s.stopped && s.depth == 2 && 3 + Height(f.children) <= MAX_DEPTH
    requires s.entry.Some? && s.field == None && Fresh(s.entry.value)
    ensures
      var begun := Run(reader, s, [Open(f.prefix, f.local)]);
      var closed := Run(reader, Run(reader, begun, Events(f.children)), [Close]);
      && closed == s.(entry := Some(EntryWith(s.entry.value, Alone(f), s.prefix)))
      && Fresh(closed.entry.value)
  {
    RunOne(reader, s, Open(f.prefix, f.local));
    var begun := OnOpen(s, f.prefix, f.local);
    AloneField(f, s.prefix, "loc");
    AloneField(f, s.prefix, "lastmod");
    assert |"loc"| != |"lastmod"|;
    if begun.field.Some? {
      InField(reader, begun, f.children);
      RunOne(reader, WithText(begun, KeptText(f.children, "")), Close);
    } else {
      OutsideFields(reader, begun, f.children);
      RunOne(reader, begun, Close);
    }
  }

  /** Inside an entry, the first of each field is kept. */
  lemma {:induction false} InEntry(reader: Reader, s: State, f: Forest)
    requires !s.stopped && s.depth == 2 && 2 + Height(f) <= MAX_DEPTH
    requires s.entry.Some? && s.field == None && Fresh(s.entry.value)
    ensures Run(reader, s, Events(f)) == s.(entry := Some(EntryWith(s.entry.value, f, s.prefix)))
    decreases f
  {
    match f
    case Nothing =>
    case TextNode(chunk, rest) =>
      RunText(reader, s, f);
      InEntry(reader, s, rest);
    case Element(prefix, local, children, rest) =>
      RunElement(reader, s, f);
      OneChild(reader, s, f);
      var next := s.(entry := Some(EntryWith(s.entry.value, Alone(f), s.prefix)));
      EntryThenRest(s.entry.value, f, s.prefix);
      InEntry(reader, next, rest);
  }

  /** Outside every entry, nothing at the third level or below changes anything. */
  lemma {:induction false} OutsideEntries(reader: Reader, s: State, f: Forest)
    requires !s.stopped && s.depth >= 2 && s.depth + Height(f) <= MAX_DEPTH && s.entry == None && s.field == None
    ensures Run(reader, s, Events(f)) == s
    decreases f
  {
    match f
    case Nothing =>
    case TextNode(chunk, rest) =>
      RunText(reader, s, f);
      OutsideEntries(reader, s, rest);
    case Element(prefix, local, children, rest) =>
      RunElement(reader, s, f);
      RunOne(reader, s, Open(prefix, local));
      var deeper := s.(depth := s.depth + 1);
      OutsideEntries(reader, deeper, children);
      RunOne(reader, deeper, Close);
      OutsideEntries(reader, s, rest);
  }

  /** What an element of the second level adds. */
  function PagesOf(reader: Reader, f: Forest, s: State): seq<Page>
    requires f.Element?
  {
    if f.prefix == s.prefix && Some(f.local) == s.entryElement then
      match PageIn(reader, f.children, s.prefix) case Some(page) => [page] case None => []
    else []
  }

  lemma OneEntry(reader: Reader, s: State, f: Forest)
    requires f.Element? && !s.stopped && s.depth == 1 && 2 + Height(f.children) <= MAX_DEPTH
    requires s.entry == None && s.field == None && |s.entries| <= MAX_ENTRIES && !s.refused
    ensures
      var begun := Run(reader, s, [Open(f.prefix, f.local)]);
      var closed := Run(reader, Run(reader, begun, Events(f.children)), [Close]);
      if |s.entries| + |PagesOf(reader, f, s)| <= MAX_ENTRIES then closed == s.(entries := s.entries + PagesOf(reader, f, s))
      else Capped(closed, s, s.entries)
  {
    RunOne(reader, s, Open(f.prefix, f.local));
    var begun := OnOpen(s, f.prefix, f.local);
    if begun.entry.Some? {
      InEntry(reader, begun, f.children);
      var within := begun.(entry := Some(EntryWith(NEW_ENTRY, f.children, s.prefix)));
      RunOne(reader, within, Close);
    } else {
      OutsideEntries(reader, begun, f.children);
      RunOne(reader, begun, Close);
    }
    assert s.entries + [] == s.entries;
  }

  /** A reading that stopped at the cap, with these entries. */
  predicate Capped(u: State, s: State, entries: seq<Page>) {
    u.stopped && u.capped && !u.refused && u.root == s.root && u.entries == entries
  }

  lemma StoppedStays(reader: Reader, s: State, events: seq<Event>)
    requires s.stopped
    ensures Run(reader, s, events) == s
  {
  }

  /** Inside the root, every entry is listed, in order, up to the cap. */
  lemma {:induction false} InRoot(reader: Reader, s: State, f: Forest)
    requires !s.stopped && !s.refused && s.depth == 1 && 1 + Height(f) <= MAX_DEPTH
    requires s.entry == None && s.field == None && |s.entries| <= MAX_ENTRIES
    ensures
      var all := s.entries + PagesIn(reader, f, s.prefix, s.entryElement);
      var u := Run(reader, s, Events(f));
      if |all| <= MAX_ENTRIES then u == s.(entries := all) else Capped(u, s, all[..MAX_ENTRIES])
    decreases f
  {
    match f
    case Nothing =>
      assert s.entries + [] == s.entries;
    case TextNode(chunk, rest) =>
      RunText(reader, s, f);
      InRoot(reader, s, rest);
    case Element(prefix, local, children, rest) =>
      RunElement(reader, s, f);
      OneEntry(reader, s, f);
      var more, later := PagesOf(reader, f, s), PagesIn(reader, rest, s.prefix, s.entryElement);
      assert s.entries + PagesIn(reader, f, s.prefix, s.entryElement) == s.entries + more + later;
      if |s.entries| + |more| <= MAX_ENTRIES {
        InRoot(reader, s.(entries := s.entries + more), rest);
      } else {
        assert (s.entries + more + later)[..MAX_ENTRIES] == s.entries;
        var begun := Run(reader, s, [Open(prefix, local)]);
        StoppedStays(reader, Run(reader, Run(reader, begun, Events(children)), [Close]), Events(rest));
      }
  }

  /** After the root, text is nothing and another element is refused. */
  lemma {:induction false} AfterRoot(reader: Reader, s: State, f: Forest)
    requires !s.stopped && s.depth == 0 && s.root.Some? && s.entry == None && s.field == None
    ensures
      var u := Run(reader, s, Events(f));
      if NoElements(f) then u == s else u.refused
    decreases f
  {
    match f
    case Nothing =>
    case TextNode(chunk, rest) =>
      RunText(reader, s, f);
      AfterRoot(reader, s, rest);
    case Element(prefix, local, children, rest) =>
      RunElement(reader, s, f);
      RunOne(reader, s, Open(prefix, local));
      var refused := OnOpen(s, prefix, local);
      StoppedStays(reader, refused, Events(children));
      StoppedStays(reader, refused, [Close]);
      StoppedStays(reader, refused, Events(rest));
  }

  /** The reader lists exactly what the tree does, for every tree within the depth limit. */
  lemma {:induction false} ReadsTheTree(reader: Reader, document: Forest)
    requires Height(document) <= MAX_DEPTH
    ensures Result(Run(reader, START, Events(document))) == TreeRead(reader, document)
    decreases document
  {
    match document
    case Nothing =>
    case TextNode(chunk, rest) =>
      RunText(reader, START, document);
      ReadsTheTree(reader, rest);
    case Element(prefix, local, children, rest) =>
      RunElement(reader, START, document);
      RunOne(reader, START, Open(prefix, local));
      var begun := OnOpen(START, prefix, local);
      InRoot(reader, begun, children);
      var pages := PagesIn(reader, children, prefix, EntryElement(local));
      assert [] + pages == pages;
      RootClosed(reader, begun, pages, Run(reader, begun, Events(children)), rest);
      if EntryElement(local) == None {
        NoPages(reader, children, prefix);
      }
  }

  lemma RootClosed(reader: Reader, begun: State, pages: seq<Page>, within: State, rest: Forest)
    requires !begun.stopped && !begun.refused && !begun.capped && begun.depth == 1 && begun.root.Some?
    requires begun.entry == None && begun.field == None
    requires if |pages| <= MAX_ENTRIES then within == begun.(entries := pages) else Capped(within, begun, pages[..MAX_ENTRIES])
    ensures
      var u := Run(reader, Run(reader, within, [Close]), Events(rest));
      Result(u) ==
        if EntryElement(begun.root.value) == None then Unreadable
        else if |pages| > MAX_ENTRIES then
          Listed(if begun.root.value == "urlset" then Urlset else Index, pages[..MAX_ENTRIES], true)
        else if NoElements(rest) then Listed(if begun.root.value == "urlset" then Urlset else Index, pages, false)
        else Unreadable
  {
    RunOne(reader, within, Close);
    if |pages| <= MAX_ENTRIES {
      AfterRoot(reader, within.(depth := 0), rest);
    } else {
      StoppedStays(reader, within, [Close]);
      StoppedStays(reader, within, Events(rest));
    }
  }

  lemma {:induction false} NoPages(reader: Reader, f: Forest, prefix: string)
    ensures PagesIn(reader, f, prefix, None) == []
    decreases f
  {
    match f
    case Nothing =>
    case TextNode(_, rest) => NoPages(reader, rest, prefix);
    case Element(_, _, _, rest) => NoPages(reader, rest, prefix);
  }

  // ---------------------------------------------------------------------- a document cut off

  function Balance(events: seq<Event>): int {
    if events == [] then 0
    else
      Balance(events[..|events| - 1])
      + match events[|events| - 1] case Open(_, _) => 1 case Text(_) => 0 case Close => -1
  }

  lemma {:induction false} DepthIsBalance(reader: Reader, events: seq<Event>)
    ensures
      var u := Run(reader, START, events);
      (!u.stopped ==> u.depth == Balance(events)) && (u.stopped ==> u.refused || u.capped)
    decreases |events|
  {
    if events != [] {
      var front, last := events[..|events| - 1], events[|events| - 1];
      DepthIsBalance(reader, front);
      RunBoth(reader, START, front, [last]);
      assert events == front + [last];
      RunOne(reader, Run(reader, START, front), last);
    }
  }

  /** A document that ends with an element still open is refused, unless it is past the cap by then. */
  lemma CutOffIsRefused(reader: Reader, events: seq<Event>)
    requires Balance(events) > 0
    ensures
      var read := Result(Run(reader, START, events));
      read == Unreadable || (read.Listed? && read.capped)
  {
    DepthIsBalance(reader, events);
  }
}
