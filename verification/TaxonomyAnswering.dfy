/**
 Questions and answers over a run: a decider is asked, its answer is accepted in part, a person answers
 the rest under whatever the taxonomy has become, and their word is carried into every later answer
 (platform/worker/src/review.ts:594-664).
 */
module TaxonomyAnswering {
  import opened Basics
  import opened Taxonomies
  import opened TaxonomyChanges
  import opened Ordering
  import opened TaxonomyForwarding
  import opened TaxonomyVersions
  import opened TaxonomyDecision
  import opened TaxonomyDeciding
  import opened TaxonomyAnswers
  import opened TaxonomyExample
  import S = Survivorship

  // ---------------------------------------------------------------------- what the page's statements say

  lemma {:induction false} FirstValuesOnePer(t: Taxonomy, ids: seq<Id>)
    requires UniqueIds(t)
    ensures OnePer(t, FirstValues(t, ids)) && AllKnown(t, FirstValues(t, ids))
    ensures forall v :: v in FirstValues(t, ids) ==> v in ids
  {
    if ids != [] {
      var front, v := ids[..|ids| - 1], ids[|ids| - 1];
      FirstValuesOnePer(t, front);
      assert ids == front + [v];
      if FeatureOfValue(t, v).Some? {
        FindAt(t, AtFeature(FeatureOfValue(t, v).value));
      }
    }
  }

  /** What a page's statements say keeps one value for each feature that takes one. */
  lemma StandingOnePer(t: Taxonomy, statements: seq<S.Statement>)
    requires UniqueIds(t)
    ensures OnePer(t, StandingAnswer(t, statements).values)
  {
    FirstValuesOnePer(t, SaidIds(t, statements, "features", ValueSubject));
  }

  // ---------------------------------------------------------------------- a person's word stands

  /** Whether a person said yes to something that stands for a function now. */
  ghost predicate SaidYes(t: Taxonomy, final: Final, now: Id) {
    exists fn :: fn in final.asked.functions && fn in final.given.functions && Resolve(t, FunctionSubject, fn) == Some(now)
  }

  /** Whether a person said yes to something that stands for a value now. */
  ghost predicate SaidYesToValue(t: Taxonomy, final: Final, now: Id) {
    exists v :: v in AllValues(final.asked.features) && v in final.given.values && Resolve(t, ValueSubject, v) == Some(now)
  }

  lemma FunctionWord(t: Taxonomy, q: Question, final: Final, shelf: Option<Place>, now: Id)
    requires final.answer.shelf != Some(NoneOfThese) && !AskedNow(q, now)
    ensures now in Word(t, q, Some(final), shelf).yesFunctions <==> SaidYes(t, final, now)
    ensures now in Word(t, q, Some(final), shelf).noFunctions <==>
      exists fn :: fn in final.asked.functions && fn !in final.given.functions && Resolve(t, FunctionSubject, fn) == Some(now)
  {
    var asked, given := final.asked.functions, final.given.functions;
    MappedFrom((fn: Id) => if (fn in given) == true then Resolve(t, FunctionSubject, fn) else None, asked, now);
    MappedFrom((fn: Id) => if (fn in given) == false then Resolve(t, FunctionSubject, fn) else None, asked, now);
  }

  lemma ValueWord(t: Taxonomy, q: Question, final: Final, shelf: Option<Place>, now: Id)
    requires final.answer.shelf != Some(NoneOfThese)
    requires Fits(t, shelf, now) && !AskedNow(q, now) && !ValueTakenWhole(t, q, now)
    ensures now in Word(t, q, Some(final), shelf).yesValues <==> SaidYesToValue(t, final, now)
    ensures now in Word(t, q, Some(final), shelf).noValues <==>
      exists v :: v in AllValues(final.asked.features) && v !in final.given.values && Resolve(t, ValueSubject, v) == Some(now)
  {
    var asked, given := AllValues(final.asked.features), final.given.values;
    CarriedFrom(t, asked, given, shelf, true, now);
    CarriedFrom(t, asked, given, shelf, false, now);
  }

  /** A function a person was asked, and isn't asked now: by what it stands for now. */
  ghost predicate FunctionDecided(t: Taxonomy, q: Question, before: Final, fn: Id, now: Id) {
    fn in before.asked.functions && Resolve(t, FunctionSubject, fn) == Some(now) && !AskedNow(q, now)
  }

  /** A value a person was asked, on the shelf now, neither asked now nor of a feature now decided whole. */
  ghost predicate ValueDecided(t: Taxonomy, q: Question, before: Final, shelf: Option<Place>, v: Id, now: Id) {
    && v in AllValues(before.asked.features) && Resolve(t, ValueSubject, v) == Some(now)
    && Fits(t, shelf, now) && !AskedNow(q, now) && !ValueTakenWhole(t, q, now)
  }

  /**
   * A person's earlier word in a whole answer. Each function and value they decided before, as it stands
   * now, is in after a yes, a function unless the shelf implies it, and out when they said yes to nothing
   * that it now is; and what they said of it is kept for the next answer. A value off the page's shelf is neither
   * in nor kept, unless it is asked now.
   */
  ghost predicate Stands(t: Taxonomy, q: Question, before: Final, after: Final) {
    && (forall fn, now :: FunctionDecided(t, q, before, fn, now) ==>
          && (fn in before.given.functions ==> now in after.answer.functions || now in ImpliedBy(t, after.answer.shelf))
          && (!SaidYes(t, before, now) ==> now !in after.answer.functions)
          && now in after.asked.functions && (now in after.given.functions <==> SaidYes(t, before, now)))
    && (forall v, now :: ValueDecided(t, q, before, after.answer.shelf, v, now) ==>
          && (v in before.given.values ==> now in after.answer.values)
          && (!SaidYesToValue(t, before, now) ==> now !in after.answer.values)
          && now in AllValues(after.asked.features) && (now in after.given.values <==> SaidYesToValue(t, before, now)))
    && (forall v :: !Fits(t, after.answer.shelf, v) && !AskedNow(q, v) ==> Forgotten(after, v))
  }

  /** An answer neither has a value nor keeps anything said of it. */
  predicate Forgotten(final: Final, v: Id) {
    v !in final.answer.values && v !in AllValues(final.asked.features) && v !in final.given.values
  }

  /** What a whole answer keeps of a word: all of it was asked, and its yes was given. */
  lemma WordIsKept(t: Taxonomy, q: Question, base: Answer, shelf: Option<Place>, word: Carried, id: Id)
    requires WellGiven(t, q.asked, q.given) && WellOffered(t, q.asked.features) && WordFits(t, q, shelf, word)
    ensures
      var final := Whole(t, q, base, shelf, word);
      && (id in word.yesFunctions || id in word.noFunctions ==>
            id in final.asked.functions && (id in final.given.functions <==> id in word.yesFunctions))
      && (id in word.yesValues || id in word.noValues ==>
            id in AllValues(final.asked.features) && (id in final.given.values <==> id in word.yesValues))
  {
    AskedAlsoAll(t, q.asked.features, word.yesValues + word.noValues);
    assert id in word.yesFunctions + word.noFunctions + word.yesValues + word.noValues ==> !AskedNow(q, id);
  }

  /** Off the shelf only what is asked now is in a whole answer, or kept. */
  lemma WholeForgets(t: Taxonomy, q: Question, base: Answer, shelf: Option<Place>, word: Carried)
    requires WellGiven(t, q.asked, q.given) && WordFits(t, q, shelf, word)
    ensures forall v :: !Fits(t, shelf, v) && !AskedNow(q, v) ==> Forgotten(Whole(t, q, base, shelf, word), v)
  {
    var after := Whole(t, q, base, shelf, word);
    forall v | !Fits(t, shelf, v) && !AskedNow(q, v)
      ensures Forgotten(after, v)
    {
      WholeHas(t, q, base, shelf, word, v);
      if v in AllValues(after.asked.features) {
        AskedNoMore(t, q.asked.features, word.yesValues + word.noValues, v);
      }
    }
  }

  lemma WholeStands(t: Taxonomy, q: Question, before: Final, base: Answer, shelf: Option<Place>)
    requires Usable(t) && WellGiven(t, q.asked, q.given) && WellOffered(t, q.asked.features) && WellKept(t, before)
    requires before.answer.shelf != Some(NoneOfThese)
    ensures Stands(t, q, before, Whole(t, q, base, shelf, Word(t, q, Some(before), shelf)))
  {
    var word := Word(t, q, Some(before), shelf);
    var after := Whole(t, q, base, shelf, word);
    WordIs(t, q, Some(before), shelf);
    WholeHeeds(t, q, base, shelf, word);
    forall fn, now | FunctionDecided(t, q, before, fn, now)
      ensures fn in before.given.functions ==> now in after.answer.functions || now in ImpliedBy(t, shelf)
      ensures !SaidYes(t, before, now) ==> now !in after.answer.functions
      ensures now in after.asked.functions && (now in after.given.functions <==> SaidYes(t, before, now))
    {
      FunctionWord(t, q, before, shelf, now);
      WordIsKept(t, q, base, shelf, word, now);
    }
    WholeForgets(t, q, base, shelf, word);
    forall v, now | ValueDecided(t, q, before, shelf, v, now)
      ensures v in before.given.values ==> now in after.answer.values
      ensures !SaidYesToValue(t, before, now) ==> now !in after.answer.values
      ensures now in AllValues(after.asked.features) && (now in after.given.values <==> SaidYesToValue(t, before, now))
    {
      ValueWord(t, q, before, shelf, now);
      WordIsKept(t, q, base, shelf, word, now);
    }
  }

  /** A person's earlier word stands in the whole answer, whatever the statements or the decider say of it. */
  lemma WordStands(t: Taxonomy, q: Question, before: Final, standing: Option<Answer>)
    requires Usable(t) && WellGiven(t, q.asked, q.given) && WellOffered(t, q.asked.features) && WellKept(t, before)
    requires q.given.shelf != Some(NoneOfThese) && before.answer.shelf != Some(NoneOfThese)
    requires WithCarried(t, q, Some(before), standing).Some?
    ensures Stands(t, q, before, WithCarried(t, q, Some(before), standing).value)
  {
    var base := if standing != None then standing.value else q.settled;
    WholeStands(t, q, before, base, FinalShelf(t, q, Some(before), base).value);
  }

  // ---------------------------------------------------------------------- a run of answers

  /** A question, and a person's answer to it: asked under one version, answered under a later one. */
  datatype Exchange = Exchange(
    askedAt: nat, fixedShelf: Option<Id>, carried: Carried, probabilities: Probabilities, accept: real,
    answeredAt: nat, parts: GivenParts, since: Option<seq<S.Statement>>)

  /** The decision a question was opened with. */
  function Opened(t: Taxonomy, e: Exchange): PartsDecision {
    AcceptParts(t, AskedParts(t, e.fixedShelf, e.carried), e.fixedShelf, e.probabilities, e.accept)
  }

  /** A question brought up to date, with the parts given to it once they are checked, or a refusal. */
  function QuestionNow(t: Taxonomy, made: PartsDecision, e: Exchange): Option<Question> {
    var now := Freshen(t, made);
    match CheckTaxonomyAnswer(t, now.open, e.parts, now.settled.shelf)
    case None => None
    case Some(given) => Some(Question(now.open, now.settled, given))
  }

  /** The whole answer that a person's parts make under a current version, or a refusal. */
  function AnswerNow(t: Taxonomy, made: PartsDecision, e: Exchange, previous: Option<Final>): Option<Final> {
    match QuestionNow(t, made, e)
    case None => None
    case Some(q) =>
      WithCarried(t, q, previous, match e.since case None => None case Some(statements) => Some(StandingAnswer(t, statements)))
  }

  ghost predicate Answers(run: seq<Taxonomy>, e: Exchange, previous: Option<Final>, final: Final) {
    && e.askedAt <= e.answeredAt < |run|
    && TicksAgree(run[e.answeredAt], e.parts.features)
    && AnswerNow(run[e.answeredAt], Opened(run[e.askedAt], e), e, previous) == Some(final)
  }

  /** Answers accepted one after another, each with the one before as the person's word. */
  ghost predicate IsAnswering(run: seq<Taxonomy>, exchanges: seq<Exchange>, finals: seq<Final>) {
    && |finals| == |exchanges|
    && (forall k {:trigger Answers(run, exchanges[k], Before(finals, k), finals[k])} ::
          0 <= k < |finals| ==> Answers(run, exchanges[k], Before(finals, k), finals[k]))
    && (forall k :: 0 < k < |finals| ==> exchanges[k - 1].answeredAt <= exchanges[k].answeredAt)
  }

  function Before(finals: seq<Final>, k: nat): Option<Final>
    requires k <= |finals|
  {
    if k == 0 then None else Some(finals[k - 1])
  }

  /**
   * What a whole answer is: sound under its version and well kept for the next; and unless the page is
   * now on none of the shelves, it takes all that is given now, and the word before stands in it.
   */
  ghost predicate MadeRight(t: Taxonomy, made: PartsDecision, e: Exchange, previous: Option<Final>, final: Final) {
    && Sound(t, final.answer) && WellKept(t, final)
    && QuestionNow(t, made, e).Some?
    && var q := QuestionNow(t, made, e).value;
       if q.given.shelf == Some(NoneOfThese) then final.answer == NONE_ANSWER
       else
         && Takes(t, final.answer, q.given)
         && (previous.Some? && previous.value.answer.shelf != Some(NoneOfThese) ==> Stands(t, q, previous.value, final))
  }

  /** A decision that a question opened with is well decided, then and brought up to date. */
  lemma OpenedWell(t: Taxonomy, u: Taxonomy, e: Exchange)
    requires Usable(t) && Usable(u) && Later(t, u)
    ensures WellDecided(u, Freshen(u, Opened(t, e)).settled.values, Freshen(u, Opened(t, e)).open.features)
  {
    AskedWell(t, e.fixedShelf, e.carried);
    AcceptedWell(t, AskedParts(t, e.fixedShelf, e.carried), e.fixedShelf, e.probabilities, e.accept);
    FreshenWell(t, u, Opened(t, e));
  }

  lemma AnsweredWell(t: Taxonomy, made: PartsDecision, e: Exchange, previous: Option<Final>)
    requires Usable(t) && TicksAgree(t, e.parts.features)
    requires WellDecided(t, Freshen(t, made).settled.values, Freshen(t, made).open.features)
    requires previous.Some? ==> WellKept(t, previous.value)
    requires AnswerNow(t, made, e, previous).Some?
    ensures MadeRight(t, made, e, previous, AnswerNow(t, made, e, previous).value)
  {
    var now := Freshen(t, made);
    CheckedWell(t, now.open, e.parts, now.settled.shelf);
    if e.since.Some? {
      StandingOnePer(t, e.since.value);
    }
    QuestionMade(t, QuestionNow(t, made, e).value, made, e, previous);
  }

  lemma QuestionMade(t: Taxonomy, q: Question, made: PartsDecision, e: Exchange, previous: Option<Final>)
    requires QuestionNow(t, made, e) == Some(q) && AnswerNow(t, made, e, previous).Some?
    requires Usable(t) && WellGiven(t, q.asked, q.given) && WellOffered(t, q.asked.features)
    requires q.given.shelf == Some(NoneOfThese) ==> q.given == NONE_ANSWER
    requires previous.Some? ==> WellKept(t, previous.value)
    requires OnePer(t, (match e.since case None => q.settled case Some(statements) => StandingAnswer(t, statements)).values)
    ensures MadeRight(t, made, e, previous, AnswerNow(t, made, e, previous).value)
  {
    var standing := match e.since case None => None case Some(statements) => Some(StandingAnswer(t, statements));
    MadeWhole(t, q, previous, standing);
    if q.given.shelf != Some(NoneOfThese) && previous.Some? && previous.value.answer.shelf != Some(NoneOfThese) {
      WordStands(t, q, previous.value, standing);
    }
  }

  ghost predicate KeptAt(run: seq<Taxonomy>, e: Exchange, previous: Option<Final>, final: Final) {
    && e.askedAt < |run| && e.answeredAt < |run|
    && MadeRight(run[e.answeredAt], Opened(run[e.askedAt], e), e, previous, final)
  }

  lemma AnsweringStep(
      run: seq<Taxonomy>, batches: seq<seq<Draw>>, e: Exchange, previous: Option<Final>, final: Final, earlier: nat)
    requires IsRun(run, batches) && Answers(run, e, previous, final)
    requires previous.Some? ==> earlier <= e.answeredAt && WellKept(run[earlier], previous.value)
    ensures KeptAt(run, e, previous, final)
  {
    UsableRun(run, batches, e.askedAt, e.answeredAt);
    if previous.Some? {
      UsableRun(run, batches, earlier, e.answeredAt);
      WellKeptLater(run[earlier], run[e.answeredAt], previous.value);
    }
    OpenedWell(run[e.askedAt], run[e.answeredAt], e);
    AnsweredWell(run[e.answeredAt], Opened(run[e.askedAt], e), e, previous);
  }

  ghost predicate KeptFor(run: seq<Taxonomy>, e: Exchange, final: Final) {
    e.answeredAt < |run| && WellKept(run[e.answeredAt], final)
  }

  lemma AnsweringNext(
      run: seq<Taxonomy>, batches: seq<seq<Draw>>, exchanges: seq<Exchange>, finals: seq<Final>, n: nat)
    requires IsRun(run, batches) && IsAnswering(run, exchanges, finals) && n < |finals|
    requires n > 0 ==> KeptFor(run, exchanges[n - 1], finals[n - 1])
    ensures KeptAt(run, exchanges[n], Before(finals, n), finals[n])
  {
    assert Answers(run, exchanges[n], Before(finals, n), finals[n]);
    AnsweringStep(run, batches, exchanges[n], Before(finals, n), finals[n],
                  if n > 0 then exchanges[n - 1].answeredAt else 0);
  }

  lemma {:induction false} AnsweringKept(
      run: seq<Taxonomy>, batches: seq<seq<Draw>>, exchanges: seq<Exchange>, finals: seq<Final>, n: nat)
    requires IsRun(run, batches) && IsAnswering(run, exchanges, finals) && n < |finals|
    ensures KeptFor(run, exchanges[n], finals[n])
  {
    if n > 0 {
      AnsweringKept(run, batches, exchanges, finals, n - 1);
    }
    AnsweringNext(run, batches, exchanges, finals, n);
  }

  /**
   * Over every run of versions and every sequence of a person's answers in it, each whole answer has
   * every value on its shelf, one at most for each feature that takes one, and no function its shelf
   * implies; takes what is given now; has the word before in it, as its items now are; and keeps what was
   * given within what was asked, so the next answer can carry it.
   */
  lemma AnsweringSound(
      run: seq<Taxonomy>, batches: seq<seq<Draw>>, exchanges: seq<Exchange>, finals: seq<Final>, n: nat)
    requires IsRun(run, batches) && IsAnswering(run, exchanges, finals) && n < |finals|
    ensures KeptAt(run, exchanges[n], Before(finals, n), finals[n])
  {
    if n > 0 {
      AnsweringKept(run, batches, exchanges, finals, n - 1);
    }
    AnsweringNext(run, batches, exchanges, finals, n);
  }

  // ---------------------------------------------------------------------- a yes lasts

  /** Whether a person is down as having said yes to a function, or to a value. */
  predicate Yes(final: Final, subject: Subject, id: Id) {
    if subject.FunctionSubject? then id in final.asked.functions && id in final.given.functions
    else id in AllValues(final.asked.features) && id in final.given.values
  }

  /**
   * What an answer leaves of a function or value decided before it: what it now is, not asked, on a page still on some
   * shelf; and for a value, a shelf that has its feature, which the question doesn't decide whole.
   */
  ghost predicate LeftAlone(
      run: seq<Taxonomy>, e: Exchange, before: Final, after: Final, subject: Subject, id: Id, now: Id)
  {
    && e.askedAt < |run| && e.answeredAt < |run|
    && var t := run[e.answeredAt];
    && Resolve(t, subject, id) == Some(now)
    && before.answer.shelf != Some(NoneOfThese)
    && match QuestionNow(t, Opened(run[e.askedAt], e), e)
       case None => false
       case Some(q) =>
         && q.given.shelf != Some(NoneOfThese) && !AskedNow(q, now)
         && (subject.ValueSubject? ==> Fits(t, after.answer.shelf, now) && !ValueTakenWhole(t, q, now))
  }

  /** Whether an answer has a function, or its shelf implies it; or whether it has a value. */
  ghost predicate YesAt(run: seq<Taxonomy>, e: Exchange, final: Final, subject: Subject, id: Id) {
    && e.answeredAt < |run|
    && if subject.FunctionSubject? then
         id in final.answer.functions || id in ImpliedBy(run[e.answeredAt], final.answer.shelf)
       else id in final.answer.values
  }

  lemma YesPassesOn(run: seq<Taxonomy>, e: Exchange, before: Final, after: Final, subject: Subject, id: Id, now: Id)
    requires KeptAt(run, e, Some(before), after) && LeftAlone(run, e, before, after, subject, id, now)
    requires (subject.FunctionSubject? || subject.ValueSubject?) && Yes(before, subject, id)
    ensures Yes(after, subject, now) && YesAt(run, e, after, subject, now)
  {
    var t := run[e.answeredAt];
    var q := QuestionNow(t, Opened(run[e.askedAt], e), e).value;
    if subject.FunctionSubject? {
      assert FunctionDecided(t, q, before, id, now) && SaidYes(t, before, now);
    } else {
      assert ValueDecided(t, q, before, after.answer.shelf, id, now) && SaidYesToValue(t, before, now);
    }
  }

  /** Whether an answer after another leaves a function, or a value, alone. */
  ghost predicate LeftAloneAt(
      run: seq<Taxonomy>, exchanges: seq<Exchange>, finals: seq<Final>, subject: Subject, ids: seq<Id>, k: nat)
  {
    && 0 < k < |finals| && k < |exchanges| && k < |ids|
    && LeftAlone(run, exchanges[k], finals[k - 1], finals[k], subject, ids[k - 1], ids[k])
  }

  /** Whether a yes passes from one answer to the next. */
  ghost predicate PassesYes(
      run: seq<Taxonomy>, exchanges: seq<Exchange>, finals: seq<Final>, subject: Subject, ids: seq<Id>, k: nat)
  {
    && 0 < k < |finals| && k < |exchanges| && k < |ids|
    && (Yes(finals[k - 1], subject, ids[k - 1]) ==>
          Yes(finals[k], subject, ids[k]) && YesAt(run, exchanges[k], finals[k], subject, ids[k]))
  }

  lemma YesPassesTo(
      run: seq<Taxonomy>, batches: seq<seq<Draw>>, exchanges: seq<Exchange>, finals: seq<Final>, subject: Subject,
      ids: seq<Id>, k: nat)
    requires IsRun(run, batches) && IsAnswering(run, exchanges, finals) && (subject.FunctionSubject? || subject.ValueSubject?)
    requires LeftAloneAt(run, exchanges, finals, subject, ids, k)
    ensures PassesYes(run, exchanges, finals, subject, ids, k)
  {
    AnsweringSound(run, batches, exchanges, finals, k);
    if Yes(finals[k - 1], subject, ids[k - 1]) {
      YesPassesOn(run, exchanges[k], finals[k - 1], finals[k], subject, ids[k - 1], ids[k]);
    }
  }

  lemma {:induction false} YesPassesAll(
      run: seq<Taxonomy>, exchanges: seq<Exchange>, finals: seq<Final>, subject: Subject, ids: seq<Id>, m: nat, n: nat)
    requires m <= n < |finals| && n < |ids| && n < |exchanges| && Yes(finals[m], subject, ids[m])
    requires forall k :: m < k <= n ==> PassesYes(run, exchanges, finals, subject, ids, k)
    ensures Yes(finals[n], subject, ids[n])
    ensures m < n ==> YesAt(run, exchanges[n], finals[n], subject, ids[n])
  {
    if m < n {
      YesPassesAll(run, exchanges, finals, subject, ids, m, n - 1);
      assert PassesYes(run, exchanges, finals, subject, ids, n);
    }
  }

  /**
   * A person's yes lasts through any number of later answers that don't ask it, under whatever it is merged into from
   * one to the next. A function is in each whole answer unless the shelf implies it. A value is in each as long as every
   * shelf in between has its feature, and no question decides that whole.
   */
  lemma YesLasts(
      run: seq<Taxonomy>, batches: seq<seq<Draw>>, exchanges: seq<Exchange>, finals: seq<Final>, subject: Subject,
      ids: seq<Id>, m: nat, n: nat)
    requires IsRun(run, batches) && IsAnswering(run, exchanges, finals) && m < n < |finals| && n < |ids|
    requires (subject.FunctionSubject? || subject.ValueSubject?) && Yes(finals[m], subject, ids[m])
    requires forall k :: m < k <= n ==> LeftAloneAt(run, exchanges, finals, subject, ids, k)
    ensures YesAt(run, exchanges[n], finals[n], subject, ids[n])
  {
    forall k | m < k <= n
      ensures PassesYes(run, exchanges, finals, subject, ids, k)
    {
      YesPassesTo(run, batches, exchanges, finals, subject, ids, k);
    }
    YesPassesAll(run, exchanges, finals, subject, ids, m, n);
  }

  /** An answer that doesn't ask a value, on a shelf without its feature. */
  ghost predicate OffShelf(run: seq<Taxonomy>, e: Exchange, before: Final, after: Final, v: Id) {
    && e.askedAt < |run| && e.answeredAt < |run| && before.answer.shelf != Some(NoneOfThese)
    && !Fits(run[e.answeredAt], after.answer.shelf, v)
    && match QuestionNow(run[e.answeredAt], Opened(run[e.askedAt], e), e)
       case None => false
       case Some(q) => q.given.shelf != Some(NoneOfThese) && !AskedNow(q, v)
  }

  /** Off the shelf a yes to a value is lost for good: the answer neither has it nor passes it on. */
  lemma YesIsLost(
      run: seq<Taxonomy>, batches: seq<seq<Draw>>, exchanges: seq<Exchange>, finals: seq<Final>, n: nat, v: Id)
    requires IsRun(run, batches) && IsAnswering(run, exchanges, finals) && 0 < n < |finals|
    requires OffShelf(run, exchanges[n], finals[n - 1], finals[n], v)
    ensures Forgotten(finals[n], v)
  {
    AnsweringSound(run, batches, exchanges, finals, n);
  }

  // ---------------------------------------------------------------------- one feature, named twice

  lemma TwoCompete(t: Taxonomy, x: Id, y: Id)
    requires Compete(t, x, y) && x != y
    ensures !OnePer(t, [x, y])
  {
    assert x in [x, y] && y in [x, y];
  }

  lemma EarpadsFeature(id: Id, j: nat)
    requires j < 2 && id == Earpads().features[0].values[j].id
    ensures FeatureIdOf(Earpads(), id) == Some("ft")
  {
    EarpadsFind(1, None, None, None, []);
    FeatureIdAt(Earpads(), 0, j);
  }

  lemma EarpadsCompete()
    ensures FeatureIdOf(Earpads(), "a") == Some("ft") && FeatureIdOf(Earpads(), "b") == Some("ft")
    ensures Compete(Earpads(), "a", "b")
  {
    EarpadsFeature("a", 0);
    EarpadsFeature("b", 1);
    EarpadsFind(1, None, None, None, []);
  }

  lemma OneValue(feature: Feature, offered: seq<Id>, ref: Ref, j: nat)
    requires FirstFrom(feature.values, ref, 0) == Some(j) && feature.values[j].id in offered
    ensures CheckValues(feature, offered, [ref], true) == Some([feature.values[j].id])
  {
    assert [ref][..0] == [];
    assert CheckValues(feature, offered, [], true) == Some([]);
    assert [] + [feature.values[j].id] == [feature.values[j].id];
  }

  lemma OneTick(t: Taxonomy, asked: Parts, entry: (Ref, seq<Ref>), onShelf: Option<Place>, j: nat)
    requires |t.features| == 1 && j < |t.features[0].values| && |entry.1| == 1
    requires Find(t, FeatureSubject, entry.0) == Some(AtFeature(0))
    requires FirstFrom(t.features[0].values, entry.1[0], 0) == Some(j)
    requires Offered(asked.features, t.features[0].item.id).Some?
    requires t.features[0].values[j].id in Offered(asked.features, t.features[0].item.id).value
    requires MayTake(t, onShelf, t.features[0].item.id)
    ensures CheckFeature(t, asked, entry, onShelf) == Some([t.features[0].values[j].id])
  {
    OneValue(t.features[0], Offered(asked.features, t.features[0].item.id).value, entry.1[0], j);
    assert entry.1 == [entry.1[0]];
  }

  lemma OneMore(
      t: Taxonomy, asked: Parts, front: seq<(Ref, seq<Ref>)>, entry: (Ref, seq<Ref>), onShelf: Option<Place>, xs: seq<Id>, x: Id)
    requires CheckFeatures(t, asked, front, onShelf) == Some(xs) && CheckFeature(t, asked, entry, onShelf) == Some([x])
    ensures CheckFeatures(t, asked, front + [entry], onShelf) == Some(xs + [x])
  {
    assert (front + [entry])[..|front|] == front;
  }

  lemma OneEntry(t: Taxonomy, asked: Parts, entry: (Ref, seq<Ref>), onShelf: Option<Place>, x: Id)
    requires CheckFeature(t, asked, entry, onShelf) == Some([x])
    ensures CheckFeatures(t, asked, [entry], onShelf) == Some([x])
  {
    OneMore(t, asked, [], entry, onShelf, [], x);
    assert [] + [entry] == [entry] && [] + [x] == [x];
  }

  lemma TwoEntries(
      t: Taxonomy, asked: Parts, first: (Ref, seq<Ref>), second: (Ref, seq<Ref>), onShelf: Option<Place>, x: Id, y: Id)
    requires CheckFeature(t, asked, first, onShelf) == Some([x]) && CheckFeature(t, asked, second, onShelf) == Some([y])
    ensures CheckFeatures(t, asked, [first, second], onShelf) == Some([x, y])
  {
    OneEntry(t, asked, first, onShelf, x);
    OneMore(t, asked, [first], second, onShelf, [x], y);
    Together(first, second);
    Together(x, y);
  }

  lemma Together<T>(x: T, y: T)
    ensures [x] + [y] == [x, y]
  {
  }

  /** The earpads' feature is on their shelf. */
  lemma EarpadsOnShelf()
    ensures "ft" in OnShelfIds(Earpads(), Some(On("sh")))
  {
    var t := Earpads();
    FeaturesForAre(t, "sh");
    EarpadsFind(1, None, None, None, []);
    assert OnShelf(t, t.features[0], "sh");
    var places := FeaturesFor(t, "sh");
    var k :| 0 <= k < |places| && places[k] == 0;
    assert OnShelfIds(t, Some(On("sh")))[k] == "ft";
  }

  lemma EarpadsTicks(asked: Parts, onShelf: Option<Place>)
    requires asked.features == [FeaturePart("ft", ["a", "b"])] && MayTake(Earpads(), onShelf, "ft")
    ensures CheckFeature(Earpads(), asked, (ById("ft"), [ById("a")]), onShelf) == Some(["a"])
    ensures CheckFeature(Earpads(), asked, (BySlug("form"), [ById("b")]), onShelf) == Some(["b"])
  {
    var t := Earpads();
    assert Find(t, FeatureSubject, ById("ft")) == Some(AtFeature(0));
    assert Find(t, FeatureSubject, BySlug("form")) == Some(AtFeature(0));
    assert Offered(asked.features, "ft") == Some(["a", "b"]);
    assert FirstFrom(t.features[0].values, ById("a"), 0) == Some(0);
    assert FirstFrom(t.features[0].values, ById("b"), 0) == Some(1);
    OneTick(t, asked, (ById("ft"), [ById("a")]), onShelf, 0);
    OneTick(t, asked, (BySlug("form"), [ById("b")]), onShelf, 1);
  }

  /** The earpads named by ID and by slug. */
  lemma EarpadsTwice(asked: Parts, onShelf: Option<Place>)
    requires asked.features == [FeaturePart("ft", ["a", "b"])] && MayTake(Earpads(), onShelf, "ft")
    ensures
      CheckFeatures(Earpads(), asked, [(ById("ft"), [ById("a")]), (BySlug("form"), [ById("b")])], onShelf)
        == Some(["a", "b"])
  {
    var first, second: (Ref, seq<Ref>) := (ById("ft"), [ById("a")]), (BySlug("form"), [ById("b")]);
    EarpadsTicks(asked, onShelf);
    TwoEntries(Earpads(), asked, first, second, onShelf, "a", "b");
  }

  /**
   * A feature that takes one value, on the settled shelf, named once by its ID and once by its slug: the answer is let
   * through with two of its values, and merged with what was settled it keeps both.
   */
  lemma NamedTwiceEscapes()
    ensures
      var t, shelf := Earpads(), Some(On("sh"));
      var asked := Parts([], [], [FeaturePart("ft", ["a", "b"])]);
      var parts := GivenParts(None, [], [(ById("ft"), [ById("a")]), (BySlug("form"), [ById("b")])]);
      var given := Answer(None, [], ["a", "b"]);
      && Valid(t)
      && CheckTaxonomyAnswer(t, asked, parts, shelf) == Some(given)
      && MergeAnswers(t, Answer(shelf, [], []), given) == Answer(shelf, [], ["a", "b"])
      && Fits(t, shelf, "a") && Fits(t, shelf, "b") && !OnePer(t, ["a", "b"])
  {
    EarpadsValid();
    EarpadsOnShelf();
    EarpadsChecked();
    EarpadsCompete();
    TwoCompete(Earpads(), "a", "b");
    TwoMerged(Earpads(), Some(On("sh")), "a", "b");
  }

  lemma EarpadsChecked()
    ensures
      var parts := GivenParts(None, [], [(ById("ft"), [ById("a")]), (BySlug("form"), [ById("b")])]);
      CheckTaxonomyAnswer(Earpads(), Parts([], [], [FeaturePart("ft", ["a", "b"])]), parts, Some(On("sh")))
        == Some(Answer(None, [], ["a", "b"]))
  {
    EarpadsOnShelf();
    EarpadsTwice(Parts([], [], [FeaturePart("ft", ["a", "b"])]), Some(On("sh")));
  }

  /** Two values given for nothing settled but a shelf are all there is. */
  lemma TwoMerged(t: Taxonomy, shelf: Option<Place>, x: Id, y: Id)
    requires x != y
    ensures MergeAnswers(t, Answer(shelf, [], []), Answer(None, [], [x, y])) == Answer(shelf, [], [x, y])
  {
    assert [x, y][..1] == [x] && [x][..0] == [];
    assert Unique([x]) == [x] && Unique([x, y]) == [x, y];
    assert [] + [x, y] == [x, y];
  }
}
