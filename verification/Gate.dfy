/**
 The politeness each host gets (platform/core/src/gate.ts): reservations and answers as steps of a host's
 state, and what every run of them keeps. Times are in milliseconds. Whether robots.txt allows an address
 comes with the request, and its Crawl-delay with the record.
 */
module Gate {
  import opened Basics

  const HOUR := 3600000.0
  const DAY := 24.0 * HOUR
  const MIN_INTERVAL := 1000.0
  const BACKOFF_BASE := 30000.0
  const BACKOFF_MAX := 600000.0

  /** What a robots.txt answered with: rules, none, or nothing. */
  datatype Status = Rules(delay: Option<real>) | NoRules | Unreachable

  datatype Record = Record(status: Status, fetchedAt: real, challengedAt: Option<real>)

  datatype State = State(robots: Option<Record>, nextAt: real, interval: real, backoffUntil: real, failures: nat)

  const INITIAL := State(None, 0.0, MIN_INTERVAL, 0.0, 0)

  datatype Request = Request(now: real, minInterval: real, maxWait: real, allowed: bool)

  datatype Decision = Deny | LaterBy(retryAfter: real) | Go(wait: real)

  /** An answer: its status, 0 for none, when it came, and a Retry-After's milliseconds, if it has one. */
  datatype Answer = Answer(status: int, now: real, retryAfter: Option<real>)

  function Max(a: real, b: real): real {
    if a < b then b else a
  }

  /** `robotsNeedsRefresh` */
  predicate NeedsRefresh(robots: Option<Record>, now: real) {
    match robots
    case None => true
    case Some(record) =>
      if record.challengedAt.Some? && now - record.challengedAt.value < HOUR then false
      else now - record.fetchedAt >= if record.status == Unreachable then HOUR else DAY
  }

  /** `robotsToKeep`: a challenge doesn't replace what was held. */
  function RobotsToKeep(held: Option<Record>, read: Record): Record {
    if read.challengedAt == None || held == None || held.value.status == Unreachable then read
    else held.value.(challengedAt := read.challengedAt)
  }

  function CrawlDelay(robots: Option<Record>): real {
    if robots.Some? && robots.value.status.Rules? && robots.value.status.delay.Some? then robots.value.status.delay.value else 0.0
  }

  /** `intervalOf` */
  function IntervalOf(robots: Option<Record>, minInterval: real): real {
    Max(Max(MIN_INTERVAL, minInterval), CrawlDelay(robots) * 1000.0)
  }

  function StartOf(s: State, request: Request): real {
    Max(Max(request.now, s.nextAt), s.backoffUntil)
  }

  /** `reserve` */
  function Reserve(s: State, request: Request): (State, Decision) {
    if s.robots == None || s.robots.value.status == Unreachable then (s, Deny)
    else if !request.allowed then (s, Deny)
    else
      var start := StartOf(s, request);
      var wait := start - request.now;
      if wait > request.maxWait then (s, LaterBy(wait))
      else
        var interval := IntervalOf(s.robots, request.minInterval);
        (s.(nextAt := start + interval, interval := interval), Go(wait))
  }

  predicate Strained(answer: Answer) {
    answer.status == 0 || answer.status in {401, 402, 403, 429} || answer.status >= 500
  }

  function Power(n: nat): real {
    if n == 0 then 1.0 else 2.0 * Power(n - 1)
  }

  /** The break after so many strains in a row. */
  function Backoff(strains: nat): real
    requires strains > 0
  {
    var grown := BACKOFF_BASE * Power(strains - 1);
    if grown < BACKOFF_MAX then grown else BACKOFF_MAX
  }

  /** `retryAfterMs`: at most an hour, and never the past. */
  function RetryAfter(ms: Option<real>): Option<real> {
    match ms
    case None => None
    case Some(value) => if value < 0.0 then None else if value < HOUR then Some(value) else Some(HOUR)
  }

  function BreakFor(answer: Answer, strains: nat): real
    requires strains > 0
  {
    Max(Backoff(strains), match RetryAfter(answer.retryAfter) case Some(ms) => ms case None => 0.0)
  }

  /** `recordResponse` */
  function RecordResponse(s: State, answer: Answer): State {
    var paced := s.(nextAt := Max(s.nextAt, answer.now + s.interval));
    if !Strained(answer) then paced.(failures := 0)
    else
      var failures := s.failures + 1;
      paced.(failures := failures, backoffUntil := Max(s.backoffUntil, answer.now + BreakFor(answer, failures)))
  }

  /** `storeRobots`: the read is a request too, so what is next waits an interval after it. */
  function StoreRobots(s: State, record: Record, now: real, minInterval: real): State {
    var robots := Some(RobotsToKeep(s.robots, record));
    s.(robots := robots, nextAt := Max(s.nextAt, now + IntervalOf(robots, minInterval)))
  }

  // ---------------------------------------------------------------------- runs

  datatype Event = Asked(request: Request) | Answered(answer: Answer) | RobotsRead(record: Record, now: real, minInterval: real)

  function Step(s: State, e: Event): State {
    match e
    case Asked(request) => Reserve(s, request).0
    case Answered(answer) => RecordResponse(s, answer)
    case RobotsRead(record, now, minInterval) => StoreRobots(s, record, now, minInterval)
  }

  /** The state after the first events of a run. */
  function After(events: seq<Event>, n: nat): State
    requires n <= |events|
  {
    if n == 0 then INITIAL else Step(After(events, n - 1), events[n - 1])
  }

  /** Whether an event is a request that is let go, and when it starts. */
  predicate Granted(events: seq<Event>, k: nat)
    requires k < |events|
  {
    events[k].Asked? && Reserve(After(events, k), events[k].request).1.Go?
  }

  function Start(events: seq<Event>, k: nat): real
    requires k < |events| && Granted(events, k)
  {
    events[k].request.now + Reserve(After(events, k), events[k].request).1.wait
  }

  /** The interval a grant asks for: a second, the dataset's, and the Crawl-delay in force. */
  function IntervalAt(events: seq<Event>, k: nat): real
    requires k < |events| && events[k].Asked?
  {
    IntervalOf(After(events, k).robots, events[k].request.minInterval)
  }

  /** How many answers in a row, up to a point in a run, were strains. */
  function StrainsInARow(events: seq<Event>, n: nat): nat
    requires n <= |events|
  {
    if n == 0 then 0
    else
      match events[n - 1]
      case Answered(answer) => if Strained(answer) then StrainsInARow(events, n - 1) + 1 else 0
      case _ => StrainsInARow(events, n - 1)
  }

  /** No event brings the next start, or the end of a break, forward. */
  lemma {:induction false} NeverSooner(events: seq<Event>, m: nat, n: nat)
    requires m <= n <= |events|
    ensures After(events, m).nextAt <= After(events, n).nextAt
    ensures After(events, m).backoffUntil <= After(events, n).backoffUntil
    ensures After(events, n).interval >= MIN_INTERVAL
    decreases n
  {
    if n > 0 {
      NeverSooner(events, if m < n then m else n - 1, n - 1);
    }
  }

  lemma {:induction false} FailuresCounted(events: seq<Event>, n: nat)
    requires n <= |events|
    ensures After(events, n).failures == StrainsInARow(events, n)
  {
    if n > 0 {
      FailuresCounted(events, n - 1);
    }
  }

  lemma Reserved(events: seq<Event>, k: nat, l: nat)
    requires k < l < |events| && events[k].Asked?
    ensures Reserve(After(events, k), events[k].request).0.nextAt <= After(events, l).nextAt
  {
    NeverSooner(events, k + 1, l);
  }

  lemma IntervalFloor(robots: Option<Record>, minInterval: real)
    ensures
      && IntervalOf(robots, minInterval) >= MIN_INTERVAL
      && IntervalOf(robots, minInterval) >= minInterval
      && IntervalOf(robots, minInterval) >= CrawlDelay(robots) * 1000.0
  {
  }

  /** A grant once an earlier one's reservation holds starts its interval after it. */
  lemma Spacing(s: State, asked: Request, t: State, later: Request)
    requires Reserve(s, asked).1.Go? && Reserve(t, later).1.Go?
    requires Reserve(s, asked).0.nextAt <= t.nextAt
    ensures
      later.now + Reserve(t, later).1.wait
        >= asked.now + Reserve(s, asked).1.wait + IntervalOf(s.robots, asked.minInterval)
  {
  }

  /**
   * Over every run, a request that is let go starts at least an earlier one's interval after it: never
   * under a second, the dataset's interval, or the Crawl-delay in force then.
   */
  lemma Spaced(events: seq<Event>, k: nat, l: nat)
    requires k < l < |events| && Granted(events, k) && Granted(events, l)
    ensures Start(events, l) >= Start(events, k) + IntervalAt(events, k)
    ensures
      && IntervalAt(events, k) >= MIN_INTERVAL
      && IntervalAt(events, k) >= events[k].request.minInterval
      && IntervalAt(events, k) >= CrawlDelay(After(events, k).robots) * 1000.0
  {
    var s, t := After(events, k), After(events, l);
    IntervalFloor(s.robots, events[k].request.minInterval);
    Reserved(events, k, l);
    Spacing(s, events[k].request, t, events[l].request);
  }

  /** After an answer, the next request waits the last reservation's interval from when it came. */
  lemma PacedByAnswers(events: seq<Event>, k: nat, l: nat)
    requires k < l < |events| && events[k].Answered? && Granted(events, l)
    ensures Start(events, l) >= events[k].answer.now + After(events, k).interval
  {
    NeverSooner(events, k + 1, l);
  }

  /** After a read of robots.txt, the next start waits the interval that the rules then in force ask for. */
  lemma PacedByReads(events: seq<Event>, k: nat, l: nat)
    requires k < l < |events| && events[k].RobotsRead? && Granted(events, l)
    ensures Start(events, l) >= events[k].now + IntervalOf(After(events, k + 1).robots, events[k].minInterval)
  {
    NeverSooner(events, k + 1, l);
  }

  /**
   * After the strain that makes so many in a row, no later request starts before the answer and the break
   * that many strains earn: half a minute, doubling to ten minutes, or the longer one a Retry-After asks for.
   */
  lemma BacksOff(events: seq<Event>, k: nat, l: nat)
    requires k < l < |events| && events[k].Answered? && Strained(events[k].answer) && Granted(events, l)
    ensures
      var strains := StrainsInARow(events, k + 1);
      && strains > 0
      && Start(events, l) >= events[k].answer.now + Backoff(strains)
      && (RetryAfter(events[k].answer.retryAfter).Some? ==>
            Start(events, l) >= events[k].answer.now + RetryAfter(events[k].answer.retryAfter).value)
  {
    FailuresCounted(events, k + 1);
    NeverSooner(events, k + 1, l);
  }

  /** Breaks never shrink as strains go on, and stop growing at ten minutes. */
  lemma {:induction false} BreaksGrow(strains: nat, more: nat)
    requires 0 < strains <= more
    ensures BACKOFF_BASE <= Backoff(strains) <= Backoff(more) <= BACKOFF_MAX
    ensures strains >= 6 ==> Backoff(strains) == BACKOFF_MAX
    decreases more
  {
    PowerGrows(strains - 1, more - 1);
    PowerGrows(0, strains - 1);
    if strains >= 6 {
      PowerGrows(5, strains - 1);
      assert Power(5) == 32.0 by {
        assert Power(1) == 2.0 && Power(2) == 4.0 && Power(3) == 8.0 && Power(4) == 16.0;
      }
    }
  }

  lemma {:induction false} PowerGrows(a: nat, b: nat)
    requires a <= b
    ensures 1.0 <= Power(a) <= Power(b)
    decreases b
  {
    if a < b {
      PowerGrows(a, b - 1);
    } else if a > 0 {
      PowerGrows(a - 1, b - 1);
    }
  }

  /** A run without the requests that were not let go. */
  function LetGo(events: seq<Event>, n: nat): (kept: seq<Event>)
    requires n <= |events|
  {
    if n == 0 then []
    else if events[n - 1].Asked? && !Granted(events, n - 1) then LetGo(events, n - 1)
    else LetGo(events, n - 1) + [events[n - 1]]
  }

  lemma {:induction false} AfterFirst(events: seq<Event>, e: Event, n: nat)
    requires n <= |events|
    ensures After(events + [e], n) == After(events, n)
  {
    if n > 0 {
      AfterFirst(events, e, n - 1);
    }
  }

  /** Requests that are denied, or told to come back later, leave no trace: the host is as it would be without them. */
  lemma {:induction false} RefusalsLeaveNoTrace(events: seq<Event>, n: nat)
    requires n <= |events|
    ensures After(LetGo(events, n), |LetGo(events, n)|) == After(events, n)
  {
    if n > 0 {
      RefusalsLeaveNoTrace(events, n - 1);
      AfterFirst(LetGo(events, n - 1), events[n - 1], |LetGo(events, n - 1)|);
    }
  }

  /** A stretch of a run in which nothing comes but requests that are not let go. */
  predicate NothingLetGo(events: seq<Event>, j: nat, k: nat)
    requires j <= k <= |events|
  {
    forall i :: j <= i < k ==> events[i].Asked? && !Granted(events, i)
  }

  lemma {:induction false} NothingChanges(events: seq<Event>, j: nat, k: nat)
    requires j <= k <= |events| && NothingLetGo(events, j, k)
    ensures After(events, k) == After(events, j)
    decreases k
  {
    if j < k {
      NothingChanges(events, j, k - 1);
    }
  }

  /**
   * The time a request is told to come back at is kept: however many requests are turned away in between, the next one
   * starts at that time, or at once if it comes later; and it is let go exactly when it may be, and will wait that long.
   */
  lemma LaterIsKept(events: seq<Event>, k: nat, l: nat)
    requires k < l < |events| && NothingLetGo(events, k, l) && events[l].Asked? && events[k].request.maxWait >= 0.0
    requires Reserve(After(events, k), events[k].request).1.LaterBy?
    ensures
      var back := events[k].request.now + Reserve(After(events, k), events[k].request).1.retryAfter;
      var request := events[l].request;
      && (Granted(events, l) <==> request.allowed && Max(request.now, back) - request.now <= request.maxWait)
      && (Granted(events, l) ==> Start(events, l) == Max(request.now, back))
  {
    NothingChanges(events, k, l);
    ComesBack(After(events, k), events[k].request, events[l].request);
    GrantedFrom(events, l, After(events, k));
  }

  lemma GrantedFrom(events: seq<Event>, l: nat, s: State)
    requires l < |events| && events[l].Asked? && After(events, l) == s
    ensures Granted(events, l) <==> Reserve(s, events[l].request).1.Go?
    ensures Granted(events, l) ==> Start(events, l) == events[l].request.now + Reserve(s, events[l].request).1.wait
  {
  }

  /** A request told to come back, and the next one that does, of a host as it was. */
  lemma ComesBack(s: State, request: Request, again: Request)
    requires Reserve(s, request).1.LaterBy? && request.maxWait >= 0.0
    ensures
      var back := request.now + Reserve(s, request).1.retryAfter;
      && (Reserve(s, again).1.Go? <==> again.allowed && Max(again.now, back) - again.now <= again.maxWait)
      && (Reserve(s, again).1.Go? ==> again.now + Reserve(s, again).1.wait == Max(again.now, back))
  {
  }

  /** Whether every robots.txt read in a stretch of a run met a challenge. */
  predicate OnlyChallenges(events: seq<Event>, j: nat, k: nat)
    requires j <= k <= |events|
  {
    forall i :: j <= i < k && events[i].RobotsRead? ==> events[i].record.challengedAt.Some?
  }

  /** The latest challenge up to a point: one held at the start of a stretch, or one met in it. */
  function LatestChallenge(events: seq<Event>, j: nat, k: nat): Option<real>
    requires j <= k <= |events| && After(events, j).robots.Some?
  {
    if k == j then After(events, j).robots.value.challengedAt
    else if events[k - 1].RobotsRead? then events[k - 1].record.challengedAt
    else LatestChallenge(events, j, k - 1)
  }

  /**
   * However many challenges a host answers robots.txt with, the rules held stay in force, with their
   * Crawl-delay and their age; and they are read again exactly when they are a day old and the latest
   * challenge is an hour past.
   */
  lemma {:induction false} ChallengesKeepRules(events: seq<Event>, j: nat, k: nat)
    requires j <= k <= |events| && OnlyChallenges(events, j, k)
    requires After(events, j).robots.Some? && After(events, j).robots.value.status != Unreachable
    ensures
      var held, latest := After(events, j).robots.value, LatestChallenge(events, j, k);
      && After(events, k).robots == Some(held.(challengedAt := latest))
      && CrawlDelay(After(events, k).robots) == CrawlDelay(Some(held))
      && forall now :: NeedsRefresh(After(events, k).robots, now) <==>
           now - held.fetchedAt >= DAY && (latest.Some? ==> now - latest.value >= HOUR)
    decreases k
  {
    if j < k {
      ChallengesKeepRules(events, j, k - 1);
    }
  }
}
