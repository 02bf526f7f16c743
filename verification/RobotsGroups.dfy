/**
 A robots.txt's groups (platform/core/src/robots.ts:44-134): lines read one by one into groups, and every
 group for a user agent merged. What the groups come to is stated line by line, with no group in sight.
 */
module RobotsGroups {
  import opened Basics
  import opened Robots

  datatype Signal = Search | AiInput | AiTrain

  datatype Setting = Yes | No

  /** A line of a file: a user agent's product token, a rule, a delay if it is a plain number, or signals it knows. */
  datatype Line =
    | Agent(token: string)
    | RuleLine(allow: bool, pattern: string)
    | DelayLine(seconds: Option<real>)
    | SignalLine(settings: seq<(Signal, Setting)>)
    | OtherLine

  datatype Group = Group(rules: seq<Rule>, delay: Option<real>, signals: map<Signal, Setting>)

  datatype Parsed = Parsed(agents: seq<string>, group: Group)

  const NO_GROUP := Group([], None, map[])

  const MAX_CRAWL_DELAY_SECONDS := 86400.0

  function Capped(seconds: real): real {
    if seconds < MAX_CRAWL_DELAY_SECONDS then seconds else MAX_CRAWL_DELAY_SECONDS
  }

  /** `longerDelay` */
  function LongerDelay(earlier: Option<real>, later: Option<real>): Option<real> {
    if earlier == None then later
    else if later == None then earlier
    else if earlier.value < later.value then later
    else earlier
  }

  /** `mergeSignal`: a no is sticky. */
  function MergeSignal(earlier: Option<Setting>, later: Option<Setting>): Option<Setting> {
    if later == None then earlier
    else if earlier == Some(No) || later == Some(No) then Some(No)
    else Some(Yes)
  }

  function Get(signals: map<Signal, Setting>, signal: Signal): Option<Setting> {
    if signal in signals then Some(signals[signal]) else None
  }

  // ---------------------------------------------------------------------- what the lines mean

  predicate IsRuleLine(line: Line) {
    line.RuleLine? || line.DelayLine? || line.SignalLine?
  }

  /** Whether another group starts between two lines: a rule, and then a user agent. */
  predicate Regrouped(lines: seq<Line>, a: nat, k: nat)
    requires k <= |lines|
  {
    exists b, c :: a < b < c < k && IsRuleLine(lines[b]) && lines[c].Agent?
  }

  /** Whether a line is for a user agent: it names it earlier, and no other group starts in between. */
  predicate Names(lines: seq<Line>, k: nat, token: string)
    requires k <= |lines|
  {
    exists a :: 0 <= a < k && lines[a] == Agent(token) && !Regrouped(lines, a, k)
  }

  /** The rules for a user agent among the first lines, in order; an empty pattern is no rule. */
  function RulesFor(lines: seq<Line>, token: string, n: nat): seq<Rule>
    requires n <= |lines|
  {
    if n == 0 then []
    else
      var line := lines[n - 1];
      RulesFor(lines, token, n - 1)
      + if line.RuleLine? && line.pattern != "" && Names(lines, n - 1, token) then [Rule(line.allow, line.pattern)] else []
  }

  /** The longest delay for a user agent, each at most a day. */
  function DelayFor(lines: seq<Line>, token: string, n: nat): Option<real>
    requires n <= |lines|
  {
    if n == 0 then None
    else
      var line := lines[n - 1];
      if line.DelayLine? && line.seconds.Some? && Names(lines, n - 1, token) then
        LongerDelay(DelayFor(lines, token, n - 1), Some(Capped(line.seconds.value)))
      else DelayFor(lines, token, n - 1)
  }

  function SettingIn(settings: seq<(Signal, Setting)>, signal: Signal, earlier: Option<Setting>): Option<Setting> {
    if settings == [] then earlier
    else
      var (name, setting) := settings[|settings| - 1];
      var before := SettingIn(settings[..|settings| - 1], signal, earlier);
      if name == signal then MergeSignal(before, Some(setting)) else before
  }

  /** What a signal is set to for a user agent. */
  function SignalFor(lines: seq<Line>, token: string, signal: Signal, n: nat): Option<Setting>
    requires n <= |lines|
  {
    if n == 0 then None
    else
      var line := lines[n - 1];
      if line.SignalLine? && Names(lines, n - 1, token) then
        SettingIn(line.settings, signal, SignalFor(lines, token, signal, n - 1))
      else SignalFor(lines, token, signal, n - 1)
  }

  predicate NamedAnywhere(lines: seq<Line>, token: string, n: nat)
    requires n <= |lines|
  {
    exists a :: 0 <= a < n && lines[a] == Agent(token)
  }

  /** A group that says what the lines for a user agent say. */
  ghost predicate SaysFor(lines: seq<Line>, token: string, group: Group) {
    && group.rules == RulesFor(lines, token, |lines|)
    && group.delay == DelayFor(lines, token, |lines|)
    && forall signal :: Get(group.signals, signal) == SignalFor(lines, token, signal, |lines|)
  }

  // ---------------------------------------------------------------------- merging groups

  predicate For(parsed: Parsed, token: string) {
    token in parsed.agents
  }

  predicate NamedIn(groups: seq<Parsed>, token: string) {
    exists g :: 0 <= g < |groups| && For(groups[g], token)
  }

  function MergedRules(groups: seq<Parsed>, token: string): seq<Rule> {
    if groups == [] then []
    else
      var last := groups[|groups| - 1];
      MergedRules(groups[..|groups| - 1], token) + if For(last, token) then last.group.rules else []
  }

  function MergedDelay(groups: seq<Parsed>, token: string): Option<real> {
    if groups == [] then None
    else
      var before, last := MergedDelay(groups[..|groups| - 1], token), groups[|groups| - 1];
      if For(last, token) then LongerDelay(before, last.group.delay) else before
  }

  function MergedSignal(groups: seq<Parsed>, token: string, signal: Signal): Option<Setting> {
    if groups == [] then None
    else
      var before, last := MergedSignal(groups[..|groups| - 1], token, signal), groups[|groups| - 1];
      if For(last, token) then MergeSignal(before, Get(last.group.signals, signal)) else before
  }

  // ---------------------------------------------------------------------- what a line changes

  /** Whether the latest user agent has had no rule yet. */
  predicate Reading(lines: seq<Line>, k: nat)
    requires k <= |lines|
  {
    exists e :: 0 <= e < k && lines[e].Agent? && forall b :: e < b < k ==> !IsRuleLine(lines[b])
  }

  lemma NamedNext(lines: seq<Line>, k: nat, token: string)
    requires k < |lines|
    ensures NamedAnywhere(lines, token, k + 1) <==> NamedAnywhere(lines, token, k) || lines[k] == Agent(token)
  {
  }

  lemma NamedOneMore(groups: seq<Parsed>, last: Parsed, token: string)
    ensures NamedIn(groups + [last], token) <==> NamedIn(groups, token) || For(last, token)
  {
    var more := groups + [last];
    if NamedIn(groups, token) {
      var g :| 0 <= g < |groups| && For(groups[g], token);
      assert For(more[g], token);
    }
    if For(last, token) {
      assert For(more[|groups|], token);
    }
    if NamedIn(more, token) {
      var g :| 0 <= g < |more| && For(more[g], token);
      assert g < |groups| ==> For(groups[g], token);
    }
  }

  /** A user agent joins those before it while they are being read, and otherwise starts a group. */
  lemma AgentNames(lines: seq<Line>, k: nat, token: string)
    requires k < |lines| && lines[k].Agent?
    ensures Names(lines, k + 1, token) <==> lines[k] == Agent(token) || (Reading(lines, k) && Names(lines, k, token))
    ensures Reading(lines, k + 1)
  {
    if lines[k] == Agent(token) {
      assert !Regrouped(lines, k, k + 1);
    }
    if Names(lines, k + 1, token) && lines[k] != Agent(token) {
      var a :| 0 <= a < k + 1 && lines[a] == Agent(token) && !Regrouped(lines, a, k + 1);
      assert !Regrouped(lines, a, k);
      var e := LatestAgent(lines, k, a);
      forall b | e < b < k
        ensures !IsRuleLine(lines[b])
      {
        assert a < b < k < k + 1 && lines[k].Agent?;
      }
    }
    if Reading(lines, k) && Names(lines, k, token) {
      var e :| 0 <= e < k && lines[e].Agent? && forall b :: e < b < k ==> !IsRuleLine(lines[b]);
      var a :| 0 <= a < k && lines[a] == Agent(token) && !Regrouped(lines, a, k);
      forall b | a < b < k
        ensures !IsRuleLine(lines[b])
      {
        assert b < e ==> a < b < e < k && lines[e].Agent?;
      }
      assert !Regrouped(lines, a, k + 1);
    }
  }

  lemma {:induction false} LatestAgent(lines: seq<Line>, k: nat, a: nat) returns (e: nat)
    requires a < k <= |lines| && lines[a].Agent?
    ensures a <= e < k && lines[e].Agent? && forall c :: e < c < k ==> !lines[c].Agent?
  {
    if lines[k - 1].Agent? {
      e := k - 1;
    } else {
      e := LatestAgent(lines, k - 1, a);
    }
  }

  /** Any other line leaves whom the next lines are for. */
  lemma OtherNames(lines: seq<Line>, k: nat, token: string)
    requires k < |lines| && !lines[k].Agent?
    ensures Names(lines, k + 1, token) <==> Names(lines, k, token)
    ensures Reading(lines, k + 1) <==> Reading(lines, k) && !IsRuleLine(lines[k])
  {
    if Names(lines, k, token) {
      var a :| 0 <= a < k && lines[a] == Agent(token) && !Regrouped(lines, a, k);
      assert !Regrouped(lines, a, k + 1);
    }
    if Names(lines, k + 1, token) {
      var a :| 0 <= a < k + 1 && lines[a] == Agent(token) && !Regrouped(lines, a, k + 1);
      assert !Regrouped(lines, a, k);
    }
    StillReading(lines, k);
  }

  lemma StillReading(lines: seq<Line>, k: nat)
    requires k < |lines| && !lines[k].Agent?
    ensures Reading(lines, k + 1) <==> Reading(lines, k) && !IsRuleLine(lines[k])
  {
    if Reading(lines, k) && !IsRuleLine(lines[k]) {
      var e :| 0 <= e < k && lines[e].Agent? && forall b :: e < b < k ==> !IsRuleLine(lines[b]);
      assert forall b :: e < b < k + 1 ==> !IsRuleLine(lines[b]);
    }
    if Reading(lines, k + 1) {
      var e :| 0 <= e < k + 1 && lines[e].Agent? && forall b :: e < b < k + 1 ==> !IsRuleLine(lines[b]);
      assert forall b :: e < b < k ==> !IsRuleLine(lines[b]);
    }
  }

  // ---------------------------------------------------------------------- reading

  /** The groups read so far say for a user agent what the lines so far do. */
  ghost predicate SumsTo(lines: seq<Line>, k: nat, groups: seq<Parsed>, token: string)
    requires k <= |lines|
  {
    && (NamedAnywhere(lines, token, k) <==> NamedIn(groups, token))
    && MergedRules(groups, token) == RulesFor(lines, token, k)
    && MergedDelay(groups, token) == DelayFor(lines, token, k)
    && forall signal :: MergedSignal(groups, token, signal) == SignalFor(lines, token, signal, k)
  }

  /** The last group is for whom the next line is. */
  ghost predicate Leads(lines: seq<Line>, k: nat, groups: seq<Parsed>, token: string)
    requires k <= |lines|
  {
    Names(lines, k, token) <==> groups != [] && For(groups[|groups| - 1], token)
  }

  ghost predicate ReadSoFar(lines: seq<Line>, k: nat, groups: seq<Parsed>, reading: bool)
    requires k <= |lines|
  {
    && reading == Reading(lines, k)
    && (reading ==> groups != [] && groups[|groups| - 1].group == NO_GROUP)
    && (forall token :: Leads(lines, k, groups, token))
    && (forall token :: SumsTo(lines, k, groups, token))
  }

  /** `readRule`: a rule line, read into a group. */
  method ReadRule(group: Group, line: Line) returns (read: Group)
    requires IsRuleLine(line)
    ensures RuleReads(line, group, read)
  {
    read := group;
    match line {
      case RuleLine(allow, pattern) =>
        if pattern != "" {
          read := read.(rules := read.rules + [Rule(allow, pattern)]);
        }
      case DelayLine(seconds) =>
        if seconds.Some? {
          read := read.(delay := LongerDelay(read.delay, Some(Capped(seconds.value))));
        }
      case SignalLine(settings) =>
        var signals := group.signals;
        for k := 0 to |settings|
          invariant forall signal :: Get(signals, signal) == SettingIn(settings[..k], signal, Get(group.signals, signal))
        {
          assert settings[..k + 1][..k] == settings[..k];
          var (name, setting) := settings[k];
          signals := signals[name := MergeSignal(Get(signals, name), Some(setting)).value];
        }
        assert settings[..|settings|] == settings;
        read := read.(signals := signals);
      case _ =>
    }
  }

  lemma {:induction false} SettingAfter(settings: seq<(Signal, Setting)>, signal: Signal, first: Option<Setting>, second: Option<Setting>)
    ensures SettingIn(settings, signal, MergeSignal(first, second)) == MergeSignal(first, SettingIn(settings, signal, second))
  {
    if settings != [] {
      SettingAfter(settings[..|settings| - 1], signal, first, second);
    }
  }

  /** A user agent in a group of no rules yet. */
  function WithAgent(groups: seq<Parsed>, reading: bool, token: string): (more: seq<Parsed>)
    requires reading ==> groups != []
    ensures more != []
  {
    var open := if reading then groups else groups + [Parsed([], NO_GROUP)];
    open[|open| - 1 := open[|open| - 1].(agents := open[|open| - 1].agents + [token])]
  }

  lemma AgentSums(lines: seq<Line>, k: nat, groups: seq<Parsed>, reading: bool, token: string, t: string)
    requires k < |lines| && lines[k] == Agent(token) && SumsTo(lines, k, groups, t)
    requires reading ==> groups != [] && groups[|groups| - 1].group == NO_GROUP
    ensures SumsTo(lines, k + 1, WithAgent(groups, reading, token), t)
  {
    var next := WithAgent(groups, reading, token);
    var front, last := next[..|next| - 1], next[|next| - 1];
    assert next == front + [last];
    NamedNext(lines, k, t);
    NamedOneMore(front, last, t);
    assert last.group == NO_GROUP;
    if reading {
      assert front == groups[..|groups| - 1];
      assert groups == front + [groups[|groups| - 1]];
      NamedOneMore(front, groups[|groups| - 1], t);
    } else {
      assert front == groups;
    }
    assert MergedRules(front, t) + [] == MergedRules(front, t);
    assert RulesFor(lines, t, k) + [] == RulesFor(lines, t, k);
    forall signal
      ensures MergedSignal(next, t, signal) == SignalFor(lines, t, signal, k + 1)
    {
      AgentSignals(lines, k, groups, reading, token, t, signal);
    }
  }

  lemma EmptyLast(front: seq<Parsed>, last: Parsed, t: string, signal: Signal)
    requires last.group == NO_GROUP
    ensures MergedSignal(front + [last], t, signal) == MergedSignal(front, t, signal)
  {
    assert (front + [last])[..|front|] == front;
    assert Get(NO_GROUP.signals, signal) == None;
  }

  lemma AgentSignals(lines: seq<Line>, k: nat, groups: seq<Parsed>, reading: bool, token: string, t: string, signal: Signal)
    requires k < |lines| && lines[k] == Agent(token)
    requires reading ==> groups != [] && groups[|groups| - 1].group == NO_GROUP
    requires MergedSignal(groups, t, signal) == SignalFor(lines, t, signal, k)
    ensures MergedSignal(WithAgent(groups, reading, token), t, signal) == SignalFor(lines, t, signal, k + 1)
  {
    var next := WithAgent(groups, reading, token);
    var front, last := next[..|next| - 1], next[|next| - 1];
    assert next == front + [last];
    EmptyLast(front, last, t, signal);
    if reading {
      assert front == groups[..|groups| - 1];
      assert groups == front + [groups[|groups| - 1]];
      EmptyLast(front, groups[|groups| - 1], t, signal);
    } else {
      assert front == groups;
    }
  }

  /** A user agent's line keeps the groups right. */
  lemma AgentRead(lines: seq<Line>, k: nat, groups: seq<Parsed>, reading: bool, token: string)
    requires k < |lines| && lines[k] == Agent(token) && ReadSoFar(lines, k, groups, reading)
    ensures ReadSoFar(lines, k + 1, WithAgent(groups, reading, token), true)
  {
    var after, next := k + 1, WithAgent(groups, reading, token);
    forall t
      ensures Leads(lines, after, next, t)
      ensures SumsTo(lines, after, next, t)
    {
      assert Leads(lines, k, groups, t) && SumsTo(lines, k, groups, t);
      AgentNames(lines, k, t);
      AgentSums(lines, k, groups, reading, token, t);
    }
    AgentNames(lines, k, token);
  }

  /** A rule line read into a group. */
  ghost predicate RuleReads(line: Line, group: Group, read: Group) {
    && read.rules == group.rules + (if line.RuleLine? && line.pattern != "" then [Rule(line.allow, line.pattern)] else [])
    && read.delay == (if line.DelayLine? && line.seconds.Some? then LongerDelay(group.delay, Some(Capped(line.seconds.value)))
                      else group.delay)
    && forall signal :: Get(read.signals, signal) ==
         if line.SignalLine? then SettingIn(line.settings, signal, Get(group.signals, signal)) else Get(group.signals, signal)
  }

  lemma RuleSignals(
      lines: seq<Line>, k: nat, front: seq<Parsed>, last: Parsed, read: Group, t: string, signal: Signal)
    requires k < |lines| && IsRuleLine(lines[k]) && RuleReads(lines[k], last.group, read)
    requires Names(lines, k, t) <==> For(last, t)
    requires MergedSignal(front + [last], t, signal) == SignalFor(lines, t, signal, k)
    ensures MergedSignal(front + [last.(group := read)], t, signal) == SignalFor(lines, t, signal, k + 1)
  {
    assert (front + [last])[..|front|] == front && (front + [last.(group := read)])[..|front|] == front;
    if lines[k].SignalLine? && For(last, t) {
      SettingAfter(lines[k].settings, signal, MergedSignal(front, t, signal), Get(last.group.signals, signal));
    }
  }

  lemma RuleSums(lines: seq<Line>, k: nat, groups: seq<Parsed>, read: Group, t: string)
    requires k < |lines| && IsRuleLine(lines[k]) && groups != []
    requires Leads(lines, k, groups, t) && SumsTo(lines, k, groups, t) && RuleReads(lines[k], groups[|groups| - 1].group, read)
    ensures SumsTo(lines, k + 1, groups[|groups| - 1 := groups[|groups| - 1].(group := read)], t)
  {
    var line, last := lines[k], groups[|groups| - 1];
    var front, next := groups[..|groups| - 1], groups[|groups| - 1 := last.(group := read)];
    assert next == front + [last.(group := read)] && groups == front + [last];
    NamedNext(lines, k, t);
    NamedOneMore(front, last, t);
    NamedOneMore(front, last.(group := read), t);
    forall signal
      ensures MergedSignal(next, t, signal) == SignalFor(lines, t, signal, k + 1)
    {
      RuleSignals(lines, k, front, last, read, t, signal);
    }
    assert RulesFor(lines, t, k) + [] == RulesFor(lines, t, k);
    assert MergedRules(front, t) + [] == MergedRules(front, t);
  }

  /** A rule line keeps the groups right. */
  lemma RuleRead(lines: seq<Line>, k: nat, groups: seq<Parsed>, reading: bool, read: Group)
    requires k < |lines| && IsRuleLine(lines[k]) && groups != [] && ReadSoFar(lines, k, groups, reading)
    requires RuleReads(lines[k], groups[|groups| - 1].group, read)
    ensures ReadSoFar(lines, k + 1, groups[|groups| - 1 := groups[|groups| - 1].(group := read)], false)
  {
    var next := groups[|groups| - 1 := groups[|groups| - 1].(group := read)];
    var after := k + 1;
    forall t
      ensures Leads(lines, after, next, t)
      ensures SumsTo(lines, after, next, t)
    {
      assert Leads(lines, k, groups, t) && SumsTo(lines, k, groups, t);
      OtherNames(lines, k, t);
      RuleSums(lines, k, groups, read, t);
    }
    OtherNames(lines, k, "");
  }

  lemma OtherSums(lines: seq<Line>, k: nat, groups: seq<Parsed>, t: string)
    requires k < |lines| && !lines[k].Agent? && (IsRuleLine(lines[k]) ==> !Names(lines, k, t)) && SumsTo(lines, k, groups, t)
    ensures SumsTo(lines, k + 1, groups, t)
  {
    NamedNext(lines, k, t);
    assert RulesFor(lines, t, k) + [] == RulesFor(lines, t, k);
  }

  /** A line that belongs to no group leaves them as they are. */
  lemma OtherRead(lines: seq<Line>, k: nat, groups: seq<Parsed>, reading: bool)
    requires k < |lines| && !lines[k].Agent? && (IsRuleLine(lines[k]) ==> groups == []) && ReadSoFar(lines, k, groups, reading)
    ensures ReadSoFar(lines, k + 1, groups, reading)
  {
    var after := k + 1;
    forall t
      ensures Leads(lines, after, groups, t)
      ensures SumsTo(lines, after, groups, t)
    {
      assert Leads(lines, k, groups, t) && SumsTo(lines, k, groups, t);
      OtherNames(lines, k, t);
      OtherSums(lines, k, groups, t);
    }
    OtherNames(lines, k, "");
  }

  method ReadGroups(lines: seq<Line>) returns (groups: seq<Parsed>)
    ensures forall token :: SumsTo(lines, |lines|, groups, token)
  {
    groups := [];
    var readingAgents := false;
    for k := 0 to |lines|
      invariant ReadSoFar(lines, k, groups, readingAgents)
    {
      var line := lines[k];
      if line.Agent? {
        AgentRead(lines, k, groups, readingAgents, line.token);
        if !readingAgents {
          groups := groups + [Parsed([], NO_GROUP)];
          readingAgents := true;
        }
        var current := |groups| - 1;
        groups := groups[current := groups[current].(agents := groups[current].agents + [line.token])];
      } else if groups == [] || !IsRuleLine(line) {
        OtherRead(lines, k, groups, readingAgents);
      } else {
        var current := |groups| - 1;
        var read := ReadRule(groups[current].group, line);
        RuleRead(lines, k, groups, readingAgents, read);
        readingAgents := false;
        groups := groups[current := groups[current].(group := read)];
      }
    }
  }

  /** Every group for a user agent, merged; nothing when there is none. */
  method MergeFor(groups: seq<Parsed>, token: string) returns (merged: Option<Group>)
    ensures merged == None <==> !NamedIn(groups, token)
    ensures merged.Some? ==>
      && merged.value.rules == MergedRules(groups, token)
      && merged.value.delay == MergedDelay(groups, token)
      && forall signal :: Get(merged.value.signals, signal) == MergedSignal(groups, token, signal)
  {
    var chosen := false;
    var rules: seq<Rule>, delay: Option<real>, signals: map<Signal, Setting> := [], None, map[];
    for k := 0 to |groups|
      invariant chosen <==> exists g :: 0 <= g < k && For(groups[g], token)
      invariant rules == MergedRules(groups[..k], token) && delay == MergedDelay(groups[..k], token)
      invariant forall signal :: Get(signals, signal) == MergedSignal(groups[..k], token, signal)
    {
      assert groups[..k + 1][..k] == groups[..k];
      if !For(groups[k], token) {
        continue;
      }
      var group := groups[k].group;
      chosen := true;
      rules := rules + group.rules;
      delay := LongerDelay(delay, group.delay);
      signals := MergeSignals(signals, group.signals);
    }
    assert groups[..|groups|] == groups;
    merged := if chosen then Some(Group(rules, delay, signals)) else None;
  }

  method MergeSignals(earlier: map<Signal, Setting>, later: map<Signal, Setting>) returns (merged: map<Signal, Setting>)
    ensures forall signal :: Get(merged, signal) == MergeSignal(Get(earlier, signal), Get(later, signal))
  {
    merged := earlier;
    var names := [Search, AiInput, AiTrain];
    for k := 0 to 3
      invariant forall signal :: signal in names[..k] ==> Get(merged, signal) == MergeSignal(Get(earlier, signal), Get(later, signal))
      invariant forall signal :: signal !in names[..k] ==> Get(merged, signal) == Get(earlier, signal)
    {
      assert names[..k + 1] == names[..k] + [names[k]];
      if names[k] in later {
        merged := merged[names[k] := MergeSignal(Get(merged, names[k]), Some(later[names[k]])).value];
      }
    }
    assert names[..3] == names;
    forall signal
      ensures signal in names
    {
      match signal
      case Search => assert names[0] == signal;
      case AiInput => assert names[1] == signal;
      case AiTrain => assert names[2] == signal;
    }
  }

  /**
   * `parseRobots`: what the lines say for a product token, or for `*` when none names it, and nothing
   * when neither is named.
   */
  method ParseRobots(lines: seq<Line>, token: string) returns (group: Option<Group>)
    ensures group == None <==> !NamedAnywhere(lines, token, |lines|) && !NamedAnywhere(lines, "*", |lines|)
    ensures group.Some? ==> SaysFor(lines, if NamedAnywhere(lines, token, |lines|) then token else "*", group.value)
  {
    var groups := ReadGroups(lines);
    assert SumsTo(lines, |lines|, groups, token) && SumsTo(lines, |lines|, groups, "*");
    group := MergeFor(groups, token);
    if group == None {
      group := MergeFor(groups, "*");
    }
  }

  // ---------------------------------------------------------------------- in any order

  lemma {:induction false} RulesIn(groups: seq<Parsed>, token: string, rule: Rule)
    ensures rule in MergedRules(groups, token) <==>
      exists parsed :: parsed in groups && For(parsed, token) && rule in parsed.group.rules
  {
    if groups != [] {
      RulesIn(groups[..|groups| - 1], token, rule);
      assert groups == groups[..|groups| - 1] + [groups[|groups| - 1]];
    }
  }

  /** A delay that some group for a user agent gives, and none of them a longer. */
  ghost predicate LongestDelay(groups: seq<Parsed>, token: string, delay: Option<real>) {
    && (forall parsed :: parsed in groups && For(parsed, token) && parsed.group.delay.Some? ==>
          delay.Some? && parsed.group.delay.value <= delay.value)
    && (delay.Some? ==> exists parsed :: parsed in groups && For(parsed, token) && parsed.group.delay == delay)
  }

  lemma {:induction false} DelayIsLongest(groups: seq<Parsed>, token: string)
    ensures LongestDelay(groups, token, MergedDelay(groups, token))
  {
    if groups != [] {
      var front, last := groups[..|groups| - 1], groups[|groups| - 1];
      DelayIsLongest(front, token);
      assert groups == front + [last];
      assert last in groups;
    }
  }

  ghost predicate SomeSays(groups: seq<Parsed>, token: string, signal: Signal, setting: Setting) {
    exists parsed :: parsed in groups && For(parsed, token) && Get(parsed.group.signals, signal) == Some(setting)
  }

  /** A signal is no when some group says no, and otherwise yes when some group says yes. */
  lemma {:induction false} SignalIs(groups: seq<Parsed>, token: string, signal: Signal)
    ensures MergedSignal(groups, token, signal) ==
      if SomeSays(groups, token, signal, No) then Some(No)
      else if SomeSays(groups, token, signal, Yes) then Some(Yes)
      else None
  {
    if groups != [] {
      var front, last := groups[..|groups| - 1], groups[|groups| - 1];
      SignalIs(front, token, signal);
      assert groups == front + [last];
      assert last in groups;
      match Get(last.group.signals, signal) {
        case None =>
        case Some(Yes) =>
        case Some(No) =>
      }
      forall setting
        ensures SomeSays(groups, token, signal, setting) <==>
          SomeSays(front, token, signal, setting) || (For(last, token) && Get(last.group.signals, signal) == Some(setting))
      {
        if SomeSays(groups, token, signal, setting) {
          var parsed :| parsed in groups && For(parsed, token) && Get(parsed.group.signals, signal) == Some(setting);
          assert parsed in front || parsed == last;
        }
      }
    }
  }

  lemma RulesAnyOrder(a: seq<Parsed>, b: seq<Parsed>, token: string, path: string)
    requires forall parsed :: parsed in a <==> parsed in b
    ensures Allows(MergedRules(a, token), path) == Allows(MergedRules(b, token), path)
  {
    forall rule
      ensures rule in MergedRules(a, token) <==> rule in MergedRules(b, token)
    {
      RulesIn(a, token, rule);
      RulesIn(b, token, rule);
    }
    AllowsAnyOrder(MergedRules(a, token), MergedRules(b, token), path);
  }

  lemma SignalAnyOrder(a: seq<Parsed>, b: seq<Parsed>, token: string, signal: Signal)
    requires forall parsed :: parsed in a <==> parsed in b
    ensures MergedSignal(a, token, signal) == MergedSignal(b, token, signal)
  {
    SignalIs(a, token, signal);
    SignalIs(b, token, signal);
    assert forall setting :: SomeSays(a, token, signal, setting) == SomeSays(b, token, signal, setting);
  }

  lemma DelayAnyOrder(a: seq<Parsed>, b: seq<Parsed>, token: string)
    requires forall parsed :: parsed in a <==> parsed in b
    ensures MergedDelay(a, token) == MergedDelay(b, token)
  {
    DelayIsLongest(a, token);
    DelayIsLongest(b, token);
  }

  /** The decision, the delay and the signals are the same for every order of a file's groups. */
  lemma GroupsAnyOrder(a: seq<Parsed>, b: seq<Parsed>, token: string, path: string)
    requires forall parsed :: parsed in a <==> parsed in b
    ensures Allows(MergedRules(a, token), path) == Allows(MergedRules(b, token), path)
    ensures MergedDelay(a, token) == MergedDelay(b, token)
    ensures forall signal :: MergedSignal(a, token, signal) == MergedSignal(b, token, signal)
  {
    RulesAnyOrder(a, b, token, path);
    DelayAnyOrder(a, b, token);
    forall signal
      ensures MergedSignal(a, token, signal) == MergedSignal(b, token, signal)
    {
      SignalAnyOrder(a, b, token, signal);
    }
  }
}
