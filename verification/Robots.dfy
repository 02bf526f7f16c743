/**
 robots.txt (platform/core/src/robots.ts), as RFC 9309 has it: a file's lines grouped by user agent, a
 path matched against a rule's pattern, and the longest matching rule deciding. Lines come with their
 comments cut and their key and value read; patterns and paths come percent-encoded.
 */
module Robots {
  import opened Basics

  // ---------------------------------------------------------------------- patterns

  /**
   * What a pattern means (RFC 9309, section 2.2.3): `*` is any text, a final `$` is the path's end, and
   * anything else is itself, from the path's start.
   */
  predicate Means(pattern: string, path: string)
    decreases |pattern|
  {
    if pattern == "" then true
    else if pattern == "$" then path == ""
    else if pattern[0] == '*' then exists k :: 0 <= k <= |path| && Means(pattern[1..], path[k..])
    else path != "" && path[0] == pattern[0] && Means(pattern[1..], path[1..])
  }

  /** A pattern split at its `*`s: the first piece, those between, and the last if there is a `*`. */
  datatype Compiled = Compiled(anchored: bool, first: string, between: seq<string>, last: Option<string>)

  /** `text.split('*')` */
  function Split(text: string): (pieces: seq<string>)
    ensures pieces != []
  {
    if text == "" then [""]
    else
      var rest := Split(text[1..]);
      if text[0] == '*' then [""] + rest else [[text[0]] + rest[0]] + rest[1..]
  }

  function Body(pattern: string): string {
    if Anchored(pattern) then pattern[..|pattern| - 1] else pattern
  }

  predicate Anchored(pattern: string) {
    pattern != "" && pattern[|pattern| - 1] == '$'
  }

  function Compile(pattern: string): Compiled {
    var pieces := Split(Body(pattern));
    var n := |pieces| - 1;
    if n == 0 then Compiled(Anchored(pattern), pieces[0], [], None)
    else Compiled(Anchored(pattern), pieces[0], pieces[1..n], Some(pieces[n]))
  }

  predicate FoundAt(path: string, part: string, k: nat) {
    k + |part| <= |path| && path[k..k + |part|] == part
  }

  /** `path.indexOf(part, from)` */
  function IndexOf(path: string, part: string, from: nat): (found: Option<nat>)
    ensures found.Some? ==> from <= found.value && FoundAt(path, part, found.value)
    ensures found.Some? ==> forall k :: from <= k < found.value ==> !FoundAt(path, part, k)
    ensures found.None? ==> forall k :: from <= k ==> !FoundAt(path, part, k)
    decreases |path| - from
  {
    if from + |part| > |path| then None
    else if FoundAt(path, part, from) then Some(from)
    else IndexOf(path, part, from + 1)
  }

  // ---------------------------------------------------------------------- pieces

  /** Pieces in a path, with any text between them: from its start, to its end if anchored. */
  ghost predicate PiecesMean(pieces: seq<string>, anchored: bool, path: string)
    requires pieces != []
    decreases |pieces|
  {
    if |pieces| == 1 then if anchored then path == pieces[0] else pieces[0] <= path
    else pieces[0] <= path && exists k :: |pieces[0]| <= k <= |path| && PiecesMean(pieces[1..], anchored, path[k..])
  }

  /** Pieces in a path from some place on. */
  ghost predicate PiecesAfter(pieces: seq<string>, anchored: bool, path: string, from: nat)
    requires pieces != []
  {
    exists k :: from <= k <= |path| && PiecesMean(pieces, anchored, path[k..])
  }

  /** A character before the first piece goes with the path's first. */
  lemma {:induction false} PieceStep(pieces: seq<string>, anchored: bool, path: string, c: char)
    requires pieces != []
    ensures
      var longer := [[c] + pieces[0]] + pieces[1..];
      PiecesMean(longer, anchored, path) <==> path != "" && path[0] == c && PiecesMean(pieces, anchored, path[1..])
  {
    var longer := [[c] + pieces[0]] + pieces[1..];
    assert longer[1..] == pieces[1..];
    if path != "" {
      assert path == [path[0]] + path[1..];
      assert longer[0] <= path <==> path[0] == c && pieces[0] <= path[1..];
      if |pieces| > 1 {
        if k :| |longer[0]| <= k <= |path| && PiecesMean(pieces[1..], anchored, path[k..]) {
          assert path[1..][k - 1..] == path[k..];
        }
        if k :| |pieces[0]| <= k <= |path[1..]| && PiecesMean(pieces[1..], anchored, path[1..][k..]) {
          assert path[1..][k..] == path[k + 1..];
        }
      } else {
        assert path == longer[0] <==> path[0] == c && path[1..] == pieces[0];
      }
    }
  }

  /** A pattern's meaning is its pieces' meaning. */
  lemma {:induction false} MeansPieces(pattern: string, path: string)
    ensures Means(pattern, path) <==> PiecesMean(Split(Body(pattern)), Anchored(pattern), path)
    decreases |pattern|
  {
    if pattern == "" {
    } else if pattern == "$" {
      assert Body(pattern) == "";
    } else {
      var rest := pattern[1..];
      assert Anchored(rest) == Anchored(pattern);
      assert Body(pattern)[1..] == Body(rest) && Body(pattern)[0] == pattern[0];
      var pieces := Split(Body(rest));
      if pattern[0] == '*' {
        forall k | 0 <= k <= |path|
          ensures Means(rest, path[k..]) <==> PiecesMean(pieces, Anchored(pattern), path[k..])
        {
          MeansPieces(rest, path[k..]);
        }
        assert Split(Body(pattern))[1..] == pieces;
      } else {
        PieceStep(pieces, Anchored(pattern), path, pattern[0]);
        if path != "" {
          MeansPieces(rest, path[1..]);
        }
      }
    }
  }

  // ---------------------------------------------------------------------- taking each piece at its earliest

  /** Whether pieces after a `*` are in a path from a position, each taken at its earliest. */
  predicate Greedy(between: seq<string>, last: string, anchored: bool, path: string, position: nat)
    requires position <= |path|
    decreases |between|
  {
    if between == [] then
      if anchored then |last| <= |path| && |path| - |last| >= position && path[|path| - |last|..] == last
      else IndexOf(path, last, position).Some?
    else
      match IndexOf(path, between[0], position)
      case None => false
      case Some(found) => Greedy(between[1..], last, anchored, path, found + |between[0]|)
  }

  predicate MatchesCompiled(c: Compiled, path: string) {
    && c.first <= path
    && match c.last
       case None => !c.anchored || |path| == |c.first|
       case Some(last) => Greedy(c.between, last, c.anchored, path, |c.first|)
  }

  lemma PrefixAt(path: string, part: string, k: nat)
    requires k <= |path|
    ensures part <= path[k..] <==> FoundAt(path, part, k)
  {
    if FoundAt(path, part, k) {
      assert path[k..][..|part|] == part;
    }
    if part <= path[k..] {
      assert path[k..k + |part|] == path[k..][..|part|];
    }
  }

  /** Pieces from a place on are there from any place before it. */
  lemma EarlierIsEnough(pieces: seq<string>, anchored: bool, path: string, earlier: nat, later: nat)
    requires pieces != [] && earlier <= later && PiecesAfter(pieces, anchored, path, later)
    ensures PiecesAfter(pieces, anchored, path, earlier)
  {
  }

  lemma SomePiecesFrom(pieces: seq<string>, anchored: bool, path: string, from: nat) returns (k: nat)
    requires |pieces| > 1 && PiecesAfter(pieces, anchored, path, from)
    ensures from <= k && FoundAt(path, pieces[0], k) && PiecesAfter(pieces[1..], anchored, path, k + |pieces[0]|)
  {
    k :| from <= k <= |path| && PiecesMean(pieces, anchored, path[k..]);
    PrefixAt(path, pieces[0], k);
    var l :| |pieces[0]| <= l <= |path[k..]| && PiecesMean(pieces[1..], anchored, path[k..][l..]);
    assert path[k..][l..] == path[k + l..];
  }

  lemma PiecesFrom(pieces: seq<string>, anchored: bool, path: string, k: nat)
    requires |pieces| > 1 && FoundAt(path, pieces[0], k) && PiecesAfter(pieces[1..], anchored, path, k + |pieces[0]|)
    ensures PiecesMean(pieces, anchored, path[k..])
  {
    PrefixAt(path, pieces[0], k);
    var l :| k + |pieces[0]| <= l <= |path| && PiecesMean(pieces[1..], anchored, path[l..]);
    assert path[k..][l - k..] == path[l..];
  }

  lemma LastPiece(last: string, anchored: bool, path: string, position: nat)
    requires position <= |path|
    ensures Greedy([], last, anchored, path, position) <==> PiecesAfter([last], anchored, path, position)
  {
    forall k | 0 <= k <= |path|
      ensures last <= path[k..] <==> FoundAt(path, last, k)
    {
      PrefixAt(path, last, k);
    }
    if Greedy([], last, anchored, path, position) {
      var k := if anchored then |path| - |last| else IndexOf(path, last, position).value;
      assert PiecesMean([last], anchored, path[k..]);
    }
    if k :| position <= k <= |path| && PiecesMean([last], anchored, path[k..]) {
      if anchored {
        assert k == |path| - |last|;
      } else {
        assert FoundAt(path, last, k);
      }
    }
  }

  /** Taking a piece where it is first found loses nothing: any later choice leaves the others less of the path. */
  lemma EarliestServes(pieces: seq<string>, anchored: bool, path: string, position: nat)
    requires |pieces| > 1
    ensures
      PiecesAfter(pieces, anchored, path, position) <==>
      match IndexOf(path, pieces[0], position)
      case None => false
      case Some(found) => PiecesAfter(pieces[1..], anchored, path, found + |pieces[0]|)
  {
    var found := IndexOf(path, pieces[0], position);
    if PiecesAfter(pieces, anchored, path, position) {
      var k := SomePiecesFrom(pieces, anchored, path, position);
      EarlierIsEnough(pieces[1..], anchored, path, found.value + |pieces[0]|, k + |pieces[0]|);
    }
    if found.Some? && PiecesAfter(pieces[1..], anchored, path, found.value + |pieces[0]|) {
      PiecesFrom(pieces, anchored, path, found.value);
    }
  }

  /** Taking each piece at its earliest place finds the pieces exactly when they are there at all. */
  lemma {:induction false} GreedyIsComplete(between: seq<string>, last: string, anchored: bool, path: string, position: nat)
    requires position <= |path|
    ensures Greedy(between, last, anchored, path, position) <==> PiecesAfter(between + [last], anchored, path, position)
    decreases |between|
  {
    var pieces := between + [last];
    if between == [] {
      LastPiece(last, anchored, path, position);
      assert pieces == [last];
    } else {
      assert pieces[1..] == between[1..] + [last] && pieces[0] == between[0];
      EarliestServes(pieces, anchored, path, position);
      var found := IndexOf(path, between[0], position);
      if found.Some? {
        GreedyIsComplete(between[1..], last, anchored, path, found.value + |between[0]|);
      }
    }
  }

  /** A path matches a pattern, each piece taken at its earliest, exactly when the pattern means it. */
  lemma MatchesMeans(pattern: string, path: string)
    ensures MatchesCompiled(Compile(pattern), path) <==> Means(pattern, path)
  {
    var pieces, anchored, c := Split(Body(pattern)), Anchored(pattern), Compile(pattern);
    var n := |pieces| - 1;
    MeansPieces(pattern, path);
    if n > 0 && c.first <= path {
      GreedyIsComplete(c.between, c.last.value, anchored, path, |c.first|);
      assert pieces[1..] == pieces[1..n] + [pieces[n]];
      assert PiecesMean(pieces, anchored, path) <==> PiecesAfter(pieces[1..], anchored, path, |c.first|);
    }
  }

  /** `matchesCompiled` */
  method Matches(c: Compiled, path: string) returns (matched: bool)
    ensures matched == MatchesCompiled(c, path)
  {
    if !(c.first <= path) {
      return false;
    }
    if c.last == None {
      return !c.anchored || |path| == |c.first|;
    }
    var last := c.last.value;
    var position: nat := |c.first|;
    for k := 0 to |c.between|
      invariant position <= |path|
      invariant MatchesCompiled(c, path) == Greedy(c.between[k..], last, c.anchored, path, position)
    {
      var found := IndexOf(path, c.between[k], position);
      if found == None {
        return false;
      }
      assert c.between[k..][1..] == c.between[k + 1..];
      position := found.value + |c.between[k]|;
    }
    assert c.between[|c.between|..] == [];
    matched := if c.anchored then |last| <= |path| && |path| - |last| >= position && path[|path| - |last|..] == last
               else IndexOf(path, last, position).Some?;
  }

  // ---------------------------------------------------------------------- rules

  datatype Rule = Rule(allow: bool, pattern: string)

  ghost predicate RuleMeans(rule: Rule, path: string) {
    Means(rule.pattern, path)
  }

  /** Whether a rule matches a path and none that matches is longer. */
  ghost predicate Longest(rules: seq<Rule>, path: string, rule: Rule) {
    && rule in rules && RuleMeans(rule, path)
    && forall other :: other in rules && RuleMeans(other, path) ==> |other.pattern| <= |rule.pattern|
  }

  /** The decision (RFC 9309, section 2.2.2): no rule matches, or among the longest that do one allows. */
  ghost predicate Allows(rules: seq<Rule>, path: string) {
    || (forall rule :: rule in rules ==> !RuleMeans(rule, path))
    || (exists rule :: Longest(rules, path, rule) && rule.allow)
  }

  /** The rule that decides among the first of them. */
  ghost predicate Decisive(rules: seq<Rule>, path: string, decisive: Option<Rule>) {
    match decisive
    case None => forall rule :: rule in rules ==> !RuleMeans(rule, path)
    case Some(rule) =>
      && Longest(rules, path, rule)
      && (rule.allow || forall other :: Longest(rules, path, other) ==> !other.allow)
  }

  /** `isAllowed`, for a group's rules and an encoded path. */
  method IsAllowed(rules: Option<seq<Rule>>, isRobotsTxt: bool, path: string) returns (allowed: bool)
    ensures allowed <==> rules == None || isRobotsTxt || Allows(rules.value, path)
  {
    if rules == None || isRobotsTxt {
      return true;
    }
    var list := rules.value;
    var decisive: Option<Rule> := None;
    for k := 0 to |list|
      invariant Decisive(list[..k], path, decisive)
    {
      var rule := list[k];
      assert list[..k + 1] == list[..k] + [rule];
      MatchesMeans(rule.pattern, path);
      var matched := Matches(Compile(rule.pattern), path);
      ghost var before := decisive;
      if matched {
        if || decisive == None
           || |rule.pattern| > |decisive.value.pattern|
           || (|rule.pattern| == |decisive.value.pattern| && rule.allow)
        {
          decisive := Some(rule);
        }
      }
      DecidesNext(list[..k], path, before, rule, decisive);
    }
    assert list[..|list|] == list;
    allowed := decisive == None || decisive.value.allow;
  }

  lemma DecidesNext(rules: seq<Rule>, path: string, decisive: Option<Rule>, rule: Rule, next: Option<Rule>)
    requires Decisive(rules, path, decisive)
    requires next ==
      if RuleMeans(rule, path) && (|| decisive == None
                                   || |rule.pattern| > |decisive.value.pattern|
                                   || (|rule.pattern| == |decisive.value.pattern| && rule.allow))
      then Some(rule) else decisive
    ensures Decisive(rules + [rule], path, next)
  {
    var more := rules + [rule];
    if next.Some? {
      assert Longest(more, path, next.value);
      forall other | Longest(more, path, other) && !next.value.allow
        ensures !other.allow
      {
        assert |other.pattern| == |next.value.pattern|;
        if other in rules && decisive.Some? && |decisive.value.pattern| == |next.value.pattern| {
          assert Longest(rules, path, other);
        }
      }
    }
  }

  /** Rules in any order, and however often, decide alike. */
  lemma AllowsAnyOrder(a: seq<Rule>, b: seq<Rule>, path: string)
    requires forall rule :: rule in a <==> rule in b
    ensures Allows(a, path) == Allows(b, path)
  {
    assert forall rule :: Longest(a, path, rule) <==> Longest(b, path, rule);
  }
}
