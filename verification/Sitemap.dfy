/**
 Reading a sitemap (platform/core/src/sitemap.ts:56-190): the parser's events drive a small state machine.
 Element names come split into prefix and lowercase local name, and text trimmed and dates read by
 functions given. What it reads is stated on the document's tree.
 */
module Sitemap {
  import opened Basics

  const MAX_ENTRIES := 50000
  const MAX_DEPTH := 64
  const MAX_LOC := 2048

  datatype Event = Open(prefix: string, local: string) | Text(chunk: string) | Close

  datatype Page = Page(loc: string, lastmod: Option<string>)

  datatype Kind = Urlset | Index

  datatype SitemapRead = Unreadable | Listed(kind: Kind, entries: seq<Page>, capped: bool)

  datatype Field = Loc | Lastmod

  /** The entry being read: its fields' text so far, and which of them have started. */
  datatype Entry = Entry(loc: string, lastmod: string, locStarted: bool, lastmodStarted: bool)

  const NEW_ENTRY := Entry("", "", false, false)

  /** How text is trimmed and a date read. */
  datatype Reader = Reader(trim: string -> string, normalize: string -> Option<string>)

  function FieldNamed(local: string): Option<Field> {
    if local == "loc" then Some(Loc) else if local == "lastmod" then Some(Lastmod) else None
  }

  function EntryElement(root: string): Option<string> {
    if root == "urlset" then Some("url") else if root == "sitemapindex" then Some("sitemap") else None
  }

  /** Text added to a field: none past the protocol's limit. */
  function Keep(text: string, chunk: string): string {
    if |text| <= MAX_LOC then text + chunk[..if |chunk| <= MAX_LOC + 1 then |chunk| else MAX_LOC + 1] else text
  }

  function KeepText(entry: Entry, field: Field, chunk: string): Entry {
    match field
    case Loc => entry.(loc := Keep(entry.loc, chunk))
    case Lastmod => entry.(lastmod := Keep(entry.lastmod, chunk))
  }

  predicate Started(entry: Entry, field: Field) {
    match field case Loc => entry.locStarted case Lastmod => entry.lastmodStarted
  }

  function Start(entry: Entry, field: Field): Entry {
    match field case Loc => entry.(locStarted := true) case Lastmod => entry.(lastmodStarted := true)
  }

  /** What an entry comes to: nothing without an address of a length the protocol allows. */
  function Usable(reader: Reader, entry: Entry): Option<Page> {
    var loc := reader.trim(entry.loc);
    if loc != "" && |loc| <= MAX_LOC then Some(Page(loc, reader.normalize(entry.lastmod))) else None
  }

  // ---------------------------------------------------------------------- the state machine

  datatype State = State(
    root: Option<string>, prefix: string, entryElement: Option<string>, depth: int, entries: seq<Page>, capped: bool,
    refused: bool, entry: Option<Entry>, field: Option<Field>, stopped: bool)

  const START := State(None, "", None, 0, [], false, false, None, None, false)

  function OnOpen(s: State, prefix: string, local: string): State {
    var depth := s.depth + 1;
    var ours := prefix == s.prefix;
    if depth > MAX_DEPTH then s.(depth := depth, refused := true, stopped := true)
    else if depth == 1 then
      if s.root != None then s.(depth := depth, refused := true, stopped := true)
      else s.(depth := depth, root := Some(local), prefix := prefix, entryElement := EntryElement(local))
    else if ours && depth == 2 && Some(local) == s.entryElement then s.(depth := depth, entry := Some(NEW_ENTRY))
    else if ours && depth == 3 && s.entry != None && FieldNamed(local) != None then
      var field := FieldNamed(local).value;
      if Started(s.entry.value, field) then s.(depth := depth)
      else s.(depth := depth, entry := Some(Start(s.entry.value, field)), field := Some(field))
    else s.(depth := depth)
  }

  function OnText(s: State, chunk: string): State {
    if s.entry != None && s.field != None then s.(entry := Some(KeepText(s.entry.value, s.field.value, chunk))) else s
  }

  function OnClose(reader: Reader, s: State): State {
    if s.depth == 3 then s.(field := None, depth := s.depth - 1)
    else if s.depth == 2 && s.entry != None then
      match Usable(reader, s.entry.value)
      case None => s.(entry := None, depth := s.depth - 1)
      case Some(page) =>
        if |s.entries| == MAX_ENTRIES then s.(capped := true, stopped := true)
        else s.(entries := s.entries + [page], entry := None, depth := s.depth - 1)
    else s.(depth := s.depth - 1)
  }

  function Step(reader: Reader, s: State, e: Event): State {
    match e
    case Open(prefix, local) => OnOpen(s, prefix, local)
    case Text(chunk) => OnText(s, chunk)
    case Close => OnClose(reader, s)
  }

  /** Events one after another, until one stops the reading. */
  function Run(reader: Reader, s: State, events: seq<Event>): State
    decreases |events|
  {
    if s.stopped || events == [] then s else Run(reader, Step(reader, s, events[0]), events[1..])
  }

  function Result(s: State): SitemapRead {
    if s.refused || (!s.stopped && s.depth > 0) then Unreadable
    else
      match s.root
      case Some("urlset") => Listed(Urlset, s.entries, s.capped)
      case Some("sitemapindex") => Listed(Index, s.entries, s.capped)
      case _ => Unreadable
  }

  /** What `xmlSitemap` shares among the parser's callbacks. */
  class Reading {
    var root: Option<string>
    var prefix: string
    var entryElement: Option<string>
    var depth: int
    var entries: seq<Page>
    var capped: bool
    var refused: bool
    var entry: Option<Entry>
    var field: Option<Field>
    var stopped: bool
    const reader: Reader

    function Value(): State
      reads this
    {
      State(root, prefix, entryElement, depth, entries, capped, refused, entry, field, stopped)
    }

    constructor (reader: Reader)
      ensures Value() == START && this.reader == reader
    {
      root, prefix, entryElement, depth, entries := None, "", None, 0, [];
      capped, refused, entry, field, stopped := false, false, None, None, false;
      this.reader := reader;
    }

    method OpenTag(name: string, local: string)
      modifies this
      ensures Value() == OnOpen(old(Value()), name, local)
    {
      depth := depth + 1;
      if depth > MAX_DEPTH {
        refused, stopped := true, true;
        return;
      }
      var ours := name == prefix;
      if depth == 1 {
        if root != None {
          refused, stopped := true, true;
          return;
        }
        root := Some(local);
        prefix := name;
        entryElement := EntryElement(local);
      } else if ours && depth == 2 && Some(local) == entryElement {
        entry := Some(NEW_ENTRY);
      } else if ours && depth == 3 && entry != None && FieldNamed(local) != None {
        var named := FieldNamed(local).value;
        if !Started(entry.value, named) {
          entry := Some(Start(entry.value, named));
          field := Some(named);
        }
      }
    }

    method TextRead(chunk: string)
      modifies this`entry
      ensures Value() == OnText(old(Value()), chunk)
    {
      if entry != None && field != None {
        entry := Some(KeepText(entry.value, field.value, chunk));
      }
    }

    method CloseTag()
      modifies this
      ensures Value() == OnClose(reader, old(Value()))
    {
      if depth == 3 {
        field := None;
      } else if depth == 2 && entry != None {
        var page := Usable(reader, entry.value);
        if page.Some? {
          if |entries| == MAX_ENTRIES {
            capped, stopped := true, true;
            return;
          }
          entries := entries + [page.value];
        }
        entry := None;
      }
      depth := depth - 1;
    }
  }

  /** `xmlSitemap` */
  method XmlSitemap(reader: Reader, events: seq<Event>) returns (read: SitemapRead)
    ensures read == Result(Run(reader, START, events))
  {
    var reading := new Reading(reader);
    var k := 0;
    while k < |events| && !reading.stopped
      invariant 0 <= k <= |events| && reading.reader == reader
      invariant Run(reader, START, events) == Run(reader, reading.Value(), events[k..])
    {
      assert events[k..][1..] == events[k + 1..];
      match events[k] {
        case Open(prefix, local) => reading.OpenTag(prefix, local);
        case Text(chunk) => reading.TextRead(chunk);
        case Close => reading.CloseTag();
      }
      k := k + 1;
    }
    if reading.refused || (!reading.stopped && reading.depth > 0) {
      return Unreadable;
    }
    read := match reading.root
      case Some("urlset") => Listed(Urlset, reading.entries, reading.capped)
      case Some("sitemapindex") => Listed(Index, reading.entries, reading.capped)
      case _ => Unreadable;
  }

  // ---------------------------------------------------------------------- the document's tree

  /** Nodes side by side: text, or an element and what is in it, and then the rest. */
  datatype Forest =
    | Nothing
    | TextNode(chunk: string, rest: Forest)
    | Element(prefix: string, local: string, children: Forest, rest: Forest)

  /** The events a parser gives for a tree. */
  function Events(f: Forest): seq<Event> {
    match f
    case Nothing => []
    case TextNode(chunk, rest) => [Text(chunk)] + Events(rest)
    case Element(prefix, local, children, rest) => [Open(prefix, local)] + Events(children) + [Close] + Events(rest)
  }

  function Height(f: Forest): nat {
    match f
    case Nothing => 0
    case TextNode(_, rest) => Height(rest)
    case Element(_, _, children, rest) =>
      if Height(children) + 1 > Height(rest) then Height(children) + 1 else Height(rest)
  }

  /** A tree's text, kept as a field's is. */
  function KeptText(f: Forest, text: string): string {
    match f
    case Nothing => text
    case TextNode(chunk, rest) => KeptText(rest, Keep(text, chunk))
    case Element(_, _, children, rest) => KeptText(rest, KeptText(children, text))
  }

  /** The text of the first child element of a name, with the root's prefix. */
  function FirstField(f: Forest, prefix: string, local: string): Option<string> {
    match f
    case Nothing => None
    case TextNode(_, rest) => FirstField(rest, prefix, local)
    case Element(p, name, children, rest) =>
      if p == prefix && name == local then Some(KeptText(children, "")) else FirstField(rest, prefix, local)
  }

  function FieldText(f: Forest, prefix: string, local: string): string {
    match FirstField(f, prefix, local) case Some(text) => text case None => ""
  }

  /** What an entry element lists: its first `loc` and its first `lastmod`. */
  function PageIn(reader: Reader, children: Forest, prefix: string): Option<Page> {
    var loc := reader.trim(FieldText(children, prefix, "loc"));
    if loc != "" && |loc| <= MAX_LOC then Some(Page(loc, reader.normalize(FieldText(children, prefix, "lastmod")))) else None
  }

  /** Every entry element's page, in document order. */
  function PagesIn(reader: Reader, f: Forest, prefix: string, entryElement: Option<string>): seq<Page> {
    match f
    case Nothing => []
    case TextNode(_, rest) => PagesIn(reader, rest, prefix, entryElement)
    case Element(p, local, children, rest) =>
      (if p == prefix && Some(local) == entryElement then
         match PageIn(reader, children, prefix) case Some(page) => [page] case None => []
       else [])
      + PagesIn(reader, rest, prefix, entryElement)
  }

  predicate NoElements(f: Forest) {
    match f
    case Nothing => true
    case TextNode(_, rest) => NoElements(rest)
    case Element(_, _, _, _) => false
  }

  /** What a whole document lists. */
  function TreeRead(reader: Reader, document: Forest): SitemapRead {
    match document
    case Nothing => Unreadable
    case TextNode(_, rest) => TreeRead(reader, rest)
    case Element(prefix, root, children, rest) =>
      var pages := PagesIn(reader, children, prefix, EntryElement(root));
      if EntryElement(root) == None then Unreadable
      else
        var kind := if root == "urlset" then Urlset else Index;
        if |pages| > MAX_ENTRIES then Listed(kind, pages[..MAX_ENTRIES], true)
        else if NoElements(rest) then Listed(kind, pages, false)
        else Unreadable
  }
}
