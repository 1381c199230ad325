/**
  One discovery run: a state machine over the caller's clock and the server's replies, and what its
  budget bounds over any sequence of calls. Times are nanoseconds.
 */
module Discovery {
  import opened Prelude
  import Glob

  const SECOND: nat := 1_000_000_000

  datatype Budget = Budget(
    maxScans: nat, countHint: nat, maxDuration: nat, maxRequestsPerSec: nat, maxResponseBytes: nat)

  datatype Limit = Time | ScanCount | ResponseSize | Unfinished

  datatype Completeness = Exhausted | BudgetReached(limit: Limit) | Cancelled | Denied(reason: string)

  /** `Panic` is the division by a rate of zero, which a second request runs into. */
  datatype Step =
    | Scan(cursor: nat, pattern: Bytes, count: nat)
    | Wait(duration: nat)
    | Done(completeness: Completeness)
    | Panic

  datatype Run = Run(
    pattern: Bytes, budget: Budget, cursor: nat, scansUsed: nat, keysSeen: nat, bytesSeen: nat,
    matches: seq<Bytes>, started: Option<nat>, lastRequest: Option<nat>, finished: Option<Completeness>)

  function New(mode: Glob.MatchMode, input: Bytes, budget: Budget): Run {
    Run(Glob.ScanPattern(mode, input), budget, 0, 0, 0, 0, [], None, None, None)
  }

  /** `Instant::duration_since`, which is zero when the clock has gone back. */
  function Since(now: nat, then_: nat): nat {
    if now >= then_ then now - then_ else 0
  }

  function Gap(b: Budget): nat
    requires b.maxRequestsPerSec > 0
  {
    SECOND / b.maxRequestsPerSec
  }

  function Finish(s: Run, c: Completeness): (Run, Step) {
    (s.(finished := Some(c)), Done(c))
  }

  /** `next_step` at `now`. */
  function NextStep(s: Run, now: nat): (Run, Step) {
    if s.finished.Some? then (s, Done(s.finished.value))
    else
      var started := if s.started.Some? then s.started.value else now;
      var s1 := s.(started := Some(started));
      if Since(now, started) >= s.budget.maxDuration then Finish(s1, BudgetReached(Time))
      else if s.scansUsed >= s.budget.maxScans then Finish(s1, BudgetReached(ScanCount))
      else if s.bytesSeen >= s.budget.maxResponseBytes then Finish(s1, BudgetReached(ResponseSize))
      else if s.lastRequest.Some? && s.budget.maxRequestsPerSec == 0 then (s1, Panic)
      else if s.lastRequest.Some? && Since(now, s.lastRequest.value) < Gap(s.budget) then
        (s1, Wait(Gap(s.budget) - Since(now, s.lastRequest.value)))
      else
        (s1.(lastRequest := Some(now), scansUsed := s.scansUsed + 1), Scan(s.cursor, s.pattern, s.budget.countHint))
  }

  /** The keys in the order they were first seen. */
  function FirstSeen(seen: seq<Bytes>, keys: seq<Bytes>): seq<Bytes> {
    if keys == [] then seen
    else
      var before := FirstSeen(seen, keys[..|keys| - 1]);
      if keys[|keys| - 1] in before then before else before + [keys[|keys| - 1]]
  }

  function Feed(s: Run, cursor: nat, keys: seq<Bytes>, replyBytes: nat): Run {
    s.(keysSeen := s.keysSeen + |keys|, bytesSeen := s.bytesSeen + replyBytes, matches := FirstSeen(s.matches, keys),
       cursor := cursor, finished := if cursor == 0 then Some(Exhausted) else s.finished)
  }

  function Cancel(s: Run): Run {
    if s.finished.None? then s.(finished := Some(Cancelled)) else s
  }

  function Deny(s: Run, reason: string): Run {
    s.(finished := Some(Denied(reason)))
  }

  function Conclusion(s: Run): Completeness {
    if s.finished.Some? then s.finished.value else BudgetReached(Unfinished)
  }

  // ---------------------------------------------------------------- the run as an object

  class Discovery {
    const pattern: Bytes
    const budget: Budget
    var cursor: nat
    var scansUsed: nat
    var keysSeen: nat
    var bytesSeen: nat
    var matches: seq<Bytes>
    var seen: set<Bytes>
    var started: Option<nat>
    var lastRequest: Option<nat>
    var finished: Option<Completeness>

    constructor (mode: Glob.MatchMode, input: Bytes, budget: Budget)
      ensures State() == New(mode, input, budget) && Valid()
    {
      var p := Glob.BuildScanPattern(mode, input);
      pattern, this.budget := p, budget;
      cursor, scansUsed, keysSeen, bytesSeen := 0, 0, 0, 0;
      matches, seen := [], {};
      started, lastRequest, finished := None, None, None;
    }

    function State(): Run
      reads this
    {
      Run(pattern, budget, cursor, scansUsed, keysSeen, bytesSeen, matches, started, lastRequest, finished)
    }

    /** The hash set holds the matches. */
    ghost predicate Valid()
      reads this
    {
      forall k :: k in seen <==> k in matches
    }

    method Next(now: nat) returns (step: Step)
      requires Valid()
      modifies this
      ensures Valid() && (State(), step) == NextStep(old(State()), now)
    {
      if finished.Some? {
        return Done(finished.value);
      }
      if started.None? {
        started := Some(now);
      }
      if Since(now, started.value) >= budget.maxDuration {
        finished := Some(BudgetReached(Time));
        return Done(BudgetReached(Time));
      }
      if scansUsed >= budget.maxScans {
        finished := Some(BudgetReached(ScanCount));
        return Done(BudgetReached(ScanCount));
      }
      if bytesSeen >= budget.maxResponseBytes {
        finished := Some(BudgetReached(ResponseSize));
        return Done(BudgetReached(ResponseSize));
      }
      if lastRequest.Some? {
        if budget.maxRequestsPerSec == 0 {
          return Panic;
        }
        var minGap := SECOND / budget.maxRequestsPerSec;
        var since := Since(now, lastRequest.value);
        if minGap >= since && minGap - since != 0 {
          return Wait(minGap - since);
        }
      }
      lastRequest := Some(now);
      scansUsed := scansUsed + 1;
      step := Scan(cursor, pattern, budget.countHint);
    }

    method Reply(cursor: nat, keys: seq<Bytes>, replyBytes: nat)
      requires Valid()
      modifies this
      ensures Valid() && State() == Feed(old(State()), cursor, keys, replyBytes)
    {
      ghost var before := matches;
      keysSeen := keysSeen + |keys|;
      bytesSeen := bytesSeen + replyBytes;
      var found, known := matches, seen;
      for k := 0 to |keys|
        invariant found == FirstSeen(before, keys[..k])
        invariant forall x :: x in known <==> x in found
      {
        assert keys[..k + 1][..k] == keys[..k];
        if keys[k] !in known {
          known := known + {keys[k]};
          found := found + [keys[k]];
        }
      }
      assert keys[..|keys|] == keys;
      matches, seen := found, known;
      this.cursor := cursor;
      if cursor == 0 {
        finished := Some(Exhausted);
      }
    }

    method Abandon()
      requires Valid()
      modifies this
      ensures Valid() && State() == Cancel(old(State()))
    {
      if finished.None? {
        finished := Some(Cancelled);
      }
    }

    method Refuse(reason: string)
      requires Valid()
      modifies this
      ensures Valid() && State() == Deny(old(State()), reason)
    {
      finished := Some(Denied(reason));
    }
  }

  // ---------------------------------------------------------------- whole runs

  datatype Event =
    | Ask(now: nat)
    | Answer(cursor: nat, keys: seq<Bytes>, replyBytes: nat)
    | UserCancels
    | ServerDenies(reason: string)

  function Apply(s: Run, e: Event): Run {
    match e
    case Ask(now) => NextStep(s, now).0
    case Answer(cursor, keys, replyBytes) => Feed(s, cursor, keys, replyBytes)
    case UserCancels => Cancel(s)
    case ServerDenies(reason) => Deny(s, reason)
  }

  predicate Begun(s: Run) {
    && s.cursor == 0 && s.scansUsed == 0 && s.keysSeen == 0 && s.bytesSeen == 0 && s.matches == []
    && s.started == None && s.lastRequest == None && s.finished == None
  }

  function After(s: Run, events: seq<Event>): (t: Run)
    ensures t.budget == s.budget && t.pattern == s.pattern
  {
    if events == [] then s else Apply(After(s, events[..|events| - 1]), events[|events| - 1])
  }

  /** When scans were issued, in order. */
  function ScanTimes(s: Run, events: seq<Event>): seq<nat> {
    if events == [] then []
    else
      var n := |events| - 1;
      var before := ScanTimes(s, events[..n]);
      var e := events[n];
      if e.Ask? && NextStep(After(s, events[..n]), e.now).1.Scan? then before + [e.now] else before
  }

  predicate Spaced(times: seq<nat>, gap: nat) {
    forall i :: 0 < i < |times| ==> times[i - 1] + gap <= times[i]
  }

  function Last(times: seq<nat>): Option<nat> {
    if times == [] then None else Some(times[|times| - 1])
  }

  /**
    The scans of a run are counted, and each comes at least the gap after the one before; a rate of zero
    lets one scan through.
   */
  lemma {:induction false} ScansAreSpaced(s: Run, events: seq<Event>)
    requires Begun(s)
    ensures var times, t := ScanTimes(s, events), After(s, events);
            && |times| == t.scansUsed <= s.budget.maxScans
            && Last(times) == t.lastRequest
            && (s.budget.maxRequestsPerSec == 0 ==> |times| <= 1)
            && (s.budget.maxRequestsPerSec > 0 && Gap(s.budget) > 0 ==> Spaced(times, Gap(s.budget)))
    decreases |events|
  {
    hide FirstSeen;
    if events != [] {
      ScansAreSpaced(s, events[..|events| - 1]);
    }
  }

  lemma {:induction false} SpacedApart(times: seq<nat>, gap: nat, i: nat, j: nat)
    requires Spaced(times, gap) && i <= j < |times|
    ensures times[i] + (j - i) * gap <= times[j]
    decreases j
  {
    if i < j {
      SpacedApart(times, gap, i, j - 1);
      OneGapMore(j - i, gap);
    }
  }

  lemma {:induction false} OneGapMore(n: int, gap: nat)
    ensures n * gap == (n - 1) * gap + gap
  {
  }

  lemma {:induction false} Quotient(n: nat, gap: nat, width: nat)
    requires gap > 0 && n * gap <= width
    ensures n <= width / gap
  {
    if n > width / gap {
      Product(width / gap + 1, n, gap);
    }
  }

  lemma {:induction false} Product(a: nat, b: nat, gap: nat)
    requires a <= b
    ensures a * gap <= b * gap
  {
  }

  /**
    The rate, whatever the clock does: any window of `width` nanoseconds holds at most
    `width / gap + 1` consecutive scans.
   */
  lemma {:induction false} RateIsBounded(s: Run, events: seq<Event>, i: nat, j: nat, width: nat)
    requires Begun(s) && s.budget.maxRequestsPerSec > 0 && Gap(s.budget) > 0 && i <= j < |ScanTimes(s, events)|
    requires ScanTimes(s, events)[j] <= ScanTimes(s, events)[i] + width
    ensures j - i + 1 <= width / Gap(s.budget) + 1
  {
    hide ScanTimes;
    ScansAreSpaced(s, events);
    SpacedApart(ScanTimes(s, events), Gap(s.budget), i, j);
    Quotient(j - i, Gap(s.budget), width);
  }

  /** The gap is the longest whole number of nanoseconds of which a second holds as many as the rate says. */
  lemma {:induction false} GapIs(b: Budget)
    requires b.maxRequestsPerSec > 0
    ensures Gap(b) * b.maxRequestsPerSec <= 1_000_000_000 < (Gap(b) + 1) * b.maxRequestsPerSec
  {
    DividedIs(1_000_000_000, b.maxRequestsPerSec);
  }

  lemma {:induction false} DividedIs(n: nat, d: nat)
    requires d > 0
    ensures n / d * d <= n < (n / d + 1) * d
  {
  }

  // ---------------------------------------------------------------- when a scan is issued

  /** The events after which nothing more is asked of the server. */
  predicate Ends(e: Event) {
    e.UserCancels? || e.ServerDenies? || (e.Answer? && e.cursor == 0)
  }

  function BytesFed(events: seq<Event>): nat {
    if events == [] then 0
    else
      var e := events[|events| - 1];
      BytesFed(events[..|events| - 1]) + if e.Answer? then e.replyBytes else 0
  }

  /** The cursor of the last reply. */
  function LastCursor(events: seq<Event>): nat {
    if events == [] then 0
    else
      var e := events[|events| - 1];
      if e.Answer? then e.cursor else LastCursor(events[..|events| - 1])
  }

  function FirstAsk(events: seq<Event>): Option<nat> {
    if events == [] then None
    else
      var before, e := FirstAsk(events[..|events| - 1]), events[|events| - 1];
      if before.None? && e.Ask? then Some(e.now) else before
  }

  /** After these events and at `now` the time is up, the scans are used up or enough bytes have come back. */
  predicate LimitHit(s: Run, events: seq<Event>, now: nat) {
    || (if FirstAsk(events).None? then 0 else Since(now, FirstAsk(events).value)) >= s.budget.maxDuration
    || |ScanTimes(s, events)| >= s.budget.maxScans
    || BytesFed(events) >= s.budget.maxResponseBytes
  }

  /** Some event ended the run, or some request met a limit. */
  predicate Stopped(s: Run, events: seq<Event>) {
    events != []
    && var n := |events| - 1;
       Stopped(s, events[..n]) || Ends(events[n]) || (events[n].Ask? && LimitHit(s, events[..n], events[n].now))
  }

  predicate RateAllows(s: Run, events: seq<Event>, now: nat) {
    var last := Last(ScanTimes(s, events));
    last.Some? ==> s.budget.maxRequestsPerSec > 0 && Since(now, last.value) >= Gap(s.budget)
  }

  /** The state is a function of the events so far. */
  lemma {:induction false} StateFollowsEvents(s: Run, events: seq<Event>)
    requires Begun(s)
    ensures var t := After(s, events);
            && t.bytesSeen == BytesFed(events) && t.cursor == LastCursor(events)
            && t.scansUsed == |ScanTimes(s, events)| && t.lastRequest == Last(ScanTimes(s, events))
            && (t.finished.Some? <==> Stopped(s, events))
            && (!Stopped(s, events) ==> t.started == FirstAsk(events))
    decreases |events|
  {
    hide FirstSeen, Gap;
    if events != [] {
      StateFollowsEvents(s, events[..|events| - 1]);
    }
  }

  lemma {:induction false} NothingEnded(s: Run, events: seq<Event>, k: nat)
    requires !Stopped(s, events) && k < |events|
    ensures !Ends(events[k])
    decreases |events|
  {
    hide LimitHit, Ends;
    if k < |events| - 1 {
      NothingEnded(s, events[..|events| - 1], k);
    }
  }

  /**
    Exactly when a run goes on to the next page, told by its history alone: nothing ended it, no request met
    a limit, none is met now, and the gap is over. The page is the one the last reply pointed to.
   */
  lemma {:induction false} ScansExactlyWhen(s: Run, events: seq<Event>, now: nat)
    requires Begun(s)
    ensures var step := NextStep(After(s, events), now).1;
            && (step.Scan? <==> !Stopped(s, events) && !LimitHit(s, events, now) && RateAllows(s, events, now))
            && (step.Scan? ==> step == Scan(LastCursor(events), s.pattern, s.budget.countHint))
            && (step.Scan? ==> forall k :: 0 <= k < |events| ==> !Ends(events[k]))
            && (step.Scan? ==> BytesFed(events) < s.budget.maxResponseBytes)
  {
    hide FirstSeen, Gap, After, ScanTimes, FirstAsk, Stopped;
    StateFollowsEvents(s, events);
    if !Stopped(s, events) {
      forall k | 0 <= k < |events| ensures !Ends(events[k]) {
        NothingEnded(s, events, k);
      }
    }
  }

  /**
    A run stops only for the limit it names, and a wait is exact: while the clock does not go back, it
    ends when the gap is over, and no second wait follows it.
   */
  lemma {:induction false} StepsHaveTheirReason(s: Run, now: nat)
    requires s.finished.None?
    ensures var (t, step) := NextStep(s, now);
            match step
            case Done(BudgetReached(Time)) => Since(now, t.started.value) >= s.budget.maxDuration
            case Done(BudgetReached(ScanCount)) => s.scansUsed >= s.budget.maxScans
            case Done(BudgetReached(ResponseSize)) => s.bytesSeen >= s.budget.maxResponseBytes
            case Done(_) => false
            case Panic => s.lastRequest.Some? && s.budget.maxRequestsPerSec == 0
            case Wait(d) =>
              && d > 0 && s.lastRequest.Some? && s.budget.maxRequestsPerSec > 0 && t == s.(started := t.started)
              && (now >= s.lastRequest.value ==>
                    now + d == s.lastRequest.value + Gap(s.budget) && !NextStep(t, now + d).1.Wait?)
            case Scan(cursor, pattern, count) =>
              && cursor == s.cursor && pattern == s.pattern && count == s.budget.countHint
              && t.scansUsed == s.scansUsed + 1 && t.lastRequest == Some(now)
  {
  }

  /**
    The other steps, told by the history as well: a run is over when something ended it or a limit is hit, and
    the limit it names is one that is hit; a rate of zero panics where a second scan is due; and a wait is for
    what is missing of the gap.
   */
  lemma {:induction false} StepsExactly(s: Run, events: seq<Event>, now: nat)
    requires Begun(s)
    ensures var step, last := NextStep(After(s, events), now).1, Last(ScanTimes(s, events));
            var over := Stopped(s, events) || LimitHit(s, events, now);
            && (step.Done? <==> over)
            && (step.Panic? <==> !over && last.Some? && s.budget.maxRequestsPerSec == 0)
            && (step.Wait? <==> !over && last.Some? && s.budget.maxRequestsPerSec > 0
                                && Since(now, last.value) < Gap(s.budget))
            && (step.Wait? ==> step.duration == Gap(s.budget) - Since(now, last.value))
            && (step.Done? && !Stopped(s, events) ==>
                  step.completeness.BudgetReached? && NamedLimitHit(s, events, now, step.completeness.limit))
  {
    hide FirstSeen, Gap, After, ScanTimes, FirstAsk, Stopped;
    StateFollowsEvents(s, events);
    if After(s, events).finished.None? {
      StepsHaveTheirReason(After(s, events), now);
    }
  }

  predicate NamedLimitHit(s: Run, events: seq<Event>, now: nat, limit: Limit) {
    match limit
    case Time => (if FirstAsk(events).None? then 0 else Since(now, FirstAsk(events).value)) >= s.budget.maxDuration
    case ScanCount => |ScanTimes(s, events)| >= s.budget.maxScans
    case ResponseSize => BytesFed(events) >= s.budget.maxResponseBytes
    case Unfinished => false
  }

  /**
    A wait is neither too short nor too long: asked again with a clock that has not gone back, the run waits
    on exactly until the time it named, unless it is over by then.
   */
  lemma {:induction false} WaitEndsWithTheGap(s: Run, events: seq<Event>, now: nat, later: nat)
    requires Begun(s) && NextStep(After(s, events), now).1.Wait?
    requires Last(ScanTimes(s, events)).Some? && Last(ScanTimes(s, events)).value <= now <= later
    ensures var asked := events + [Ask(now)];
            var step, again := NextStep(After(s, events), now).1, NextStep(After(s, asked), later).1;
            && (again.Wait? <==> later < now + step.duration && !LimitHit(s, asked, later))
            && (again.Scan? <==> later >= now + step.duration && !LimitHit(s, asked, later))
            && (again.Wait? ==> later + again.duration == now + step.duration)
  {
    hide FirstSeen, Gap, LimitHit;
    var asked := events + [Ask(now)];
    assert asked[..|events|] == events;
    StepsExactly(s, events, now);
    StepsExactly(s, asked, later);
    ScansExactlyWhen(s, asked, later);
  }

  /** The caller's clock does not go back. */
  predicate Monotone(events: seq<Event>) {
    forall i, j :: 0 <= i < j < |events| && events[i].Ask? && events[j].Ask? ==> events[i].now <= events[j].now
  }

  lemma {:induction false} ScansAreWithin(s: Run, events: seq<Event>)
    requires Begun(s) && Monotone(events)
    ensures After(s, events).started.Some? ==> AskedAt(events, After(s, events).started.value)
    ensures AllWithin(ScanTimes(s, events), After(s, events).started, s.budget.maxDuration)
    decreases |events|
  {
    hide FirstSeen;
    if events != [] {
      var n := |events| - 1;
      ScansAreWithin(s, events[..n]);
      StartedOnce(After(s, events[..n]), events[n]);
      var before, e := After(s, events[..n]), events[n];
      if before.started.Some? {
        var i :| 0 <= i < n && events[..n][i].Ask? && events[..n][i].now == before.started.value;
        assert events[i].Ask? && events[i].now == before.started.value;
        assert e.Ask? ==> before.started.value <= e.now;
      }
    }
  }

  predicate AskedAt(events: seq<Event>, now: nat) {
    exists i :: 0 <= i < |events| && events[i].Ask? && events[i].now == now
  }

  predicate AllWithin(times: seq<nat>, started: Option<nat>, duration: nat) {
    forall m :: 0 <= m < |times| ==> started.Some? && started.value <= times[m] < started.value + duration
  }

  lemma {:induction false} StartedOnce(s: Run, e: Event)
    ensures s.started.Some? ==> Apply(s, e).started == s.started
    ensures s.started.None? && Apply(s, e).started.Some? ==> e.Ask? && Apply(s, e).started.value == e.now
    ensures e.Ask? && NextStep(s, e.now).1.Scan? ==>
      Apply(s, e).started.Some? && Since(e.now, Apply(s, e).started.value) < s.budget.maxDuration
  {
  }

  /** Rate and duration together: how many scans a run can issue at all. */
  lemma {:induction false} TotalScansAreBounded(s: Run, events: seq<Event>)
    requires Begun(s) && Monotone(events) && s.budget.maxRequestsPerSec > 0 && Gap(s.budget) > 0
    ensures |ScanTimes(s, events)| <= s.budget.maxScans
    ensures |ScanTimes(s, events)| <= s.budget.maxDuration / Gap(s.budget) + 1
  {
    hide ScanTimes, After;
    ScansAreSpaced(s, events);
    ScansAreWithin(s, events);
    var n := |ScanTimes(s, events)|;
    if n > 0 {
      RateIsBounded(s, events, 0, n - 1, s.budget.maxDuration);
    }
  }

  // ---------------------------------------------------------------- matches

  function AllKeys(events: seq<Event>): seq<Bytes> {
    if events == [] then []
    else
      var before := AllKeys(events[..|events| - 1]);
      var e := events[|events| - 1];
      if e.Answer? then before + e.keys else before
  }

  lemma {:induction false} FirstSeenOfMore(seen: seq<Bytes>, a: seq<Bytes>, b: seq<Bytes>)
    ensures FirstSeen(seen, a + b) == FirstSeen(FirstSeen(seen, a), b)
    decreases |b|
  {
    if b == [] {
      assert a + b == a;
    } else {
      assert (a + b)[..|a + b| - 1] == a + b[..|b| - 1];
      FirstSeenOfMore(seen, a, b[..|b| - 1]);
    }
  }

  lemma {:induction false} MatchesAreFirstSeen(s: Run, events: seq<Event>)
    requires Begun(s)
    ensures After(s, events).matches == FirstSeen([], AllKeys(events))
    decreases |events|
  {
    hide NextStep, FirstSeen;
    if events == [] {
      NothingSeen();
    } else {
      var n := |events| - 1;
      MatchesAreFirstSeen(s, events[..n]);
      var e := events[n];
      if e.Answer? {
        FirstSeenOfMore([], AllKeys(events[..n]), e.keys);
      } else if e.Ask? {
        AskKeepsMatches(After(s, events[..n]), e.now);
      }
    }
  }

  lemma {:induction false} NothingSeen()
    ensures FirstSeen([], []) == []
  {
  }

  lemma {:induction false} AskKeepsMatches(s: Run, now: nat)
    ensures NextStep(s, now).0.matches == s.matches
  {
  }

  /** Where a key comes first. */
  predicate FirstAt(keys: seq<Bytes>, i: nat, k: Bytes) {
    i < |keys| && keys[i] == k && k !in keys[..i]
  }

  /** `ranks` says for each match where it came first, in increasing order. */
  predicate InFirstSeenOrder(matches: seq<Bytes>, keys: seq<Bytes>, ranks: seq<nat>) {
    && |ranks| == |matches|
    && (forall m :: 0 <= m < |ranks| ==> FirstAt(keys, ranks[m], matches[m]))
    && (forall m, n :: 0 <= m < n < |ranks| ==> ranks[m] < ranks[n])
  }

  /** The matches are the keys that were fed, each once, in the order of their first appearance. */
  lemma {:induction false} FirstSeenIsInOrder(keys: seq<Bytes>) returns (ranks: seq<nat>)
    ensures InFirstSeenOrder(FirstSeen([], keys), keys, ranks)
    ensures forall k :: k in FirstSeen([], keys) <==> k in keys
    decreases |keys|
  {
    if keys == [] {
      ranks := [];
    } else {
      var n := |keys| - 1;
      var fewer, last := keys[..n], keys[n];
      ranks := FirstSeenIsInOrder(fewer);
      assert keys == fewer + [last];
      var before := FirstSeen([], fewer);
      forall m | 0 <= m < |ranks| ensures FirstAt(keys, ranks[m], before[m]) {
        assert FirstAt(fewer, ranks[m], before[m]);
        assert keys[..ranks[m]] == fewer[..ranks[m]];
      }
      if last !in before {
        assert FirstAt(keys, n, last);
        forall m | 0 <= m < |ranks| ensures ranks[m] < n {
          assert FirstAt(fewer, ranks[m], before[m]);
        }
        ranks := ranks + [n];
      }
    }
  }

  /** Over any run the matches are exactly the keys the server returned, without duplicates, in first-seen order. */
  lemma {:induction false} MatchesAreExact(s: Run, events: seq<Event>) returns (ranks: seq<nat>)
    requires Begun(s)
    ensures InFirstSeenOrder(After(s, events).matches, AllKeys(events), ranks)
    ensures forall k :: k in After(s, events).matches <==> k in AllKeys(events)
  {
    hide After, AllKeys, FirstSeen, InFirstSeenOrder;
    MatchesAreFirstSeen(s, events);
    ranks := FirstSeenIsInOrder(AllKeys(events));
  }

  // ---------------------------------------------------------------- exhausted

  /** A reply carried cursor 0, and the server did not refuse after it. */
  predicate WalkedToTheEnd(events: seq<Event>) {
    exists i :: 0 <= i < |events| && events[i].Answer? && events[i].cursor == 0
      && forall j :: i < j < |events| ==> !events[j].ServerDenies?
  }

  /**
    A run is conclusive exactly when a reply carried cursor 0 with no refusal behind it: never because of
    an empty page, a budget or a cancellation.
   */
  lemma {:induction false} ExhaustedExactly(s: Run, events: seq<Event>)
    requires Begun(s)
    ensures Conclusion(After(s, events)) == Exhausted <==> WalkedToTheEnd(events)
    ensures After(s, events).finished == Some(Exhausted) <==> WalkedToTheEnd(events)
    decreases |events|
  {
    hide Apply, WalkedToTheEnd;
    if events == [] {
      NothingWalked();
    } else {
      var n := |events| - 1;
      ExhaustedExactly(s, events[..n]);
      ExhaustedStep(After(s, events[..n]), events[n]);
      WalkedMore(events[..n], events[n]);
      assert events[..n] + [events[n]] == events;
    }
  }

  /** What one event does to a conclusive run. */
  lemma {:induction false} ExhaustedStep(s: Run, e: Event)
    ensures Apply(s, e).finished == Some(Exhausted)
       <==> (e.Answer? && e.cursor == 0) || (s.finished == Some(Exhausted) && !e.ServerDenies?)
  {
    hide FirstSeen, Gap;
  }

  lemma {:induction false} NothingWalked()
    ensures !WalkedToTheEnd([])
  {
  }

  lemma {:induction false} WalkedMore(events: seq<Event>, e: Event)
    ensures WalkedToTheEnd(events + [e])
       <==> (e.Answer? && e.cursor == 0) || (WalkedToTheEnd(events) && !e.ServerDenies?)
  {
    var all := events + [e];
    if e.Answer? && e.cursor == 0 {
      assert all[|events|] == e;
    } else if WalkedToTheEnd(events) && !e.ServerDenies? {
      var i :| 0 <= i < |events| && events[i].Answer? && events[i].cursor == 0
        && forall j :: i < j < |events| ==> !events[j].ServerDenies?;
      assert all[i] == events[i];
      assert forall j :: i < j < |events| ==> all[j] == events[j];
    }
    if WalkedToTheEnd(all) && !(e.Answer? && e.cursor == 0) {
      var i :| 0 <= i < |all| && all[i].Answer? && all[i].cursor == 0
        && forall j :: i < j < |all| ==> !all[j].ServerDenies?;
      assert events[i] == all[i];
      assert forall j :: i < j < |events| ==> events[j] == all[j];
      assert all[|events|] == e;
    }
  }
}
