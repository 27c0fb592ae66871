/** One announcer: the loop that announces a torrent until it is cancelled or complete. Durations are
    in nanoseconds. */
module Announcer {
  import opened Numerals

  const SECOND := 1_000_000_000
  const MIN_ANNOUNCE_INTERVAL_SECONDS := 30
  const MAX_ANNOUNCE_INTERVAL_SECONDS := 7 * 24 * 3600

  datatype Event = Started | Regular | Stopped

  /** How one announce ends: no request was made (the query could not be rendered, or there is no
      tracker), the request failed, or the tracker answered. */
  datatype Reply = NoRequest | RequestFailed | Answered(interval: int, minInterval: int)

  /** What the loop meets in one round besides its own state. `cancelled` is its context after the
      announce, `active` whether its hash is still active, `complete` whether the ratio is reached. */
  datatype Round = Round(
    reply: Reply, cancelled: bool, active: bool, complete: bool, backoffMin: int, backoffMax: int)

  /** One announce of the log. `tracker` is the index asked, `delay` the wait that follows, None when
      the loop ends instead. */
  datatype Attempt = Attempt(event: Event, tracker: Option<nat>, ok: bool, delay: Option<int>)

  datatype State = State(event: Event, failures: nat, trackerIndex: nat)

  // ----- Back-off -----

  /** The loop of backoffDelay with `steps` rounds to go. */
  function Doubled(delay: int, steps: nat, maxDelay: int): int
    decreases steps
  {
    if steps == 0 then Min(delay, maxDelay)
    else if delay >= maxDelay / 2 then maxDelay
    else Doubled(delay * 2, steps - 1, maxDelay)
  }

  function Backoff(failures: int, minDelay: int, maxDelay: int): int {
    Doubled(minDelay, if failures < 1 then 0 else failures - 1, maxDelay)
  }

  /** No product leaves int64, however many failures there were. */
  method BackoffDelay(failures: int, minDelay: int, maxDelay: int) returns (delay: int)
    requires 0 <= minDelay <= MAX_INT64 && 0 <= maxDelay <= MAX_INT64
    ensures delay == Backoff(failures, minDelay, maxDelay) && 0 <= delay <= maxDelay
  {
    var f := if failures < 1 then 1 else failures;
    delay := minDelay;
    for i := 1 to f
      invariant 0 <= delay && Int64(delay)
      invariant Backoff(failures, minDelay, maxDelay) == Doubled(delay, f - i, maxDelay)
    {
      if delay >= maxDelay / 2 {
        return maxDelay;
      }
      assert Int64(delay * 2);
      delay := delay * 2;
    }
    if delay > maxDelay {
      delay := maxDelay;
    }
  }

  /** The intended delay after the f-th failure in a row. */
  function Exponential(failures: nat, minDelay: nat, maxDelay: nat): int
    requires failures >= 1
  {
    Min(maxDelay, minDelay * Pow2(failures - 1))
  }

  /** The loop gives the intended delay except where that is one short of the maximum; an even
      maximum, such as any whole number of seconds, rules this out. */
  lemma BackoffIsExponential(failures: nat, minDelay: nat, maxDelay: nat)
    requires failures >= 1
    ensures Backoff(failures, minDelay, maxDelay) == Exponential(failures, minDelay, maxDelay)
            <==> !(failures >= 2 && minDelay * Pow2(failures - 1) == maxDelay - 1)
    ensures maxDelay % SECOND == 0 ==>
              Backoff(failures, minDelay, maxDelay) == Exponential(failures, minDelay, maxDelay)
  {
    DoubledIsExponential(minDelay, failures - 1, maxDelay);
    if failures >= 2 {
      var half := minDelay * Pow2(failures - 2);
      assert minDelay * Pow2(failures - 1) == 2 * half;
    }
  }

  lemma {:induction false} DoubledIsExponential(delay: nat, steps: nat, maxDelay: nat)
    ensures Doubled(delay, steps, maxDelay) ==
            if steps >= 1 && delay * Pow2(steps) == maxDelay - 1 then maxDelay
            else Min(maxDelay, delay * Pow2(steps))
    decreases steps
  {
    if steps == 0 {
      assert Pow2(steps) == 1;
    } else {
      var rest := Pow2(steps - 1);
      assert delay * Pow2(steps) == (delay * 2) * rest;
      assert Pow2(steps) == 2 * rest;
      if delay >= maxDelay / 2 {
        TimesAtLeast(delay * 2, rest);
      } else {
        DoubledIsExponential(delay * 2, steps - 1, maxDelay);
        assert steps == 1 ==> rest == 1;
      }
    }
  }

  lemma TimesAtLeast(a: nat, b: nat)
    requires b >= 1
    ensures a * b >= a
  {
  }

  // ----- The loop -----

  function Clamped(seconds: int): (s: int)
    ensures MIN_ANNOUNCE_INTERVAL_SECONDS <= s <= MAX_ANNOUNCE_INTERVAL_SECONDS
  {
    Max(MIN_ANNOUNCE_INTERVAL_SECONDS, Min(MAX_ANNOUNCE_INTERVAL_SECONDS, seconds))
  }

  function Advance(t: nat, trackers: nat): (next: nat)
    requires trackers > 0
    ensures next < trackers
  {
    (t + 1) % trackers
  }

  lemma SameTracker(t: nat, trackers: nat)
    requires t < trackers
    ensures t % trackers == t
  {
  }

  function Requested(s: State, trackers: nat, reply: Reply): Option<nat> {
    if reply.NoRequest? || trackers == 0 then None else Some(s.trackerIndex % trackers)
  }

  /** One round: the announce it logs, and the state the next round starts from. */
  function OneRound(s: State, trackers: nat, r: Round): (Attempt, State) {
    var tracker := Requested(s, trackers, r.reply);
    if tracker.None? || r.reply.RequestFailed? then
      var index := if tracker.Some? then Advance(s.trackerIndex, trackers) else s.trackerIndex;
      var delay := if r.cancelled then None else Some(Backoff(s.failures + 1, r.backoffMin, r.backoffMax));
      (Attempt(s.event, tracker, false, delay), State(s.event, s.failures + 1, index))
    else
      var seconds := Clamped(Max(r.reply.interval, r.reply.minInterval));
      var delay := if r.cancelled || !r.active || r.complete then None else Some(seconds * SECOND);
      (Attempt(s.event, tracker, true, delay), State(Regular, 0, s.trackerIndex))
  }

  /** The log of a run that starts in `s` and meets `rounds`. */
  function Run(s: State, trackers: nat, rounds: seq<Round>): (log: seq<Attempt>)
    ensures |log| <= |rounds|
    decreases |rounds|
  {
    if rounds == [] then []
    else
      var (attempt, next) := OneRound(s, trackers, rounds[0]);
      if attempt.delay.None? then [attempt] else [attempt] + Run(next, trackers, rounds[1..])
  }

  const INITIAL := State(Started, 0, 0)

  /** The announce has the announcer marked started. */
  predicate Marks(a: Attempt, r: Round) {
    a.ok && a.event == Started && !r.cancelled && r.active
  }

  class Announcer {
    const trackers: nat
    var trackerIndex: nat
    var failures: nat
    var lastInterval: int
    var nextEvent: Event
    var started: bool

    constructor (trackers: nat)
      ensures this.trackers == trackers && trackerIndex == 0 && failures == 0
      ensures lastInterval == 5 * SECOND && nextEvent == Started && !started
    {
      this.trackers := trackers;
      trackerIndex, failures, lastInterval := 0, 0, 5 * SECOND;
      nextEvent, started := Started, false;
    }

    /** announceWithStats: which tracker is asked, and the rotation after a failed request. */
    method Announce(reply: Reply) returns (tracker: Option<nat>, ok: bool)
      modifies this`trackerIndex
      ensures tracker == Requested(State(Started, 0, old(trackerIndex)), trackers, reply)
      ensures ok <==> tracker.Some? && reply.Answered?
      ensures trackerIndex == if tracker.Some? && !ok then Advance(old(trackerIndex), trackers) else old(trackerIndex)
    {
      if reply.NoRequest? || trackers == 0 {
        return None, false;
      }
      tracker := Some(trackerIndex % trackers);
      ok := reply.Answered?;
      if !ok {
        trackerIndex := Advance(trackerIndex, trackers);
      }
    }

    ghost function Now(event: Event): State
      reads this
    {
      State(event, failures, trackerIndex)
    }

    /** The wait after a success: the larger of the two intervals the tracker gave, kept within bounds. */
    method NextInterval(interval: int, minInterval: int) returns (delay: int)
      modifies this`lastInterval
      ensures delay == lastInterval == Clamped(Max(interval, minInterval)) * SECOND
    {
      var seconds := interval;
      if minInterval > seconds {
        seconds := minInterval;
      }
      if seconds > MAX_ANNOUNCE_INTERVAL_SECONDS {
        seconds := MAX_ANNOUNCE_INTERVAL_SECONDS;
      }
      if seconds < MIN_ANNOUNCE_INTERVAL_SECONDS {
        seconds := MIN_ANNOUNCE_INTERVAL_SECONDS;
      }
      lastInterval := seconds * SECOND;
      delay := lastInterval;
    }

    /** The body of the loop: one announce and what follows it. */
    method Body(event: Event, r: Round) returns (attempt: Attempt, next: Event)
      requires 0 <= r.backoffMin <= MAX_INT64 && 0 <= r.backoffMax <= MAX_INT64
      modifies this
      ensures attempt == OneRound(old(Now(event)), trackers, r).0 && attempt.event == event
      ensures attempt.delay.Some? ==> Now(next) == OneRound(old(Now(event)), trackers, r).1
      ensures started <==> old(started) || (attempt.ok && event == Started && !r.cancelled && r.active)
      ensures nextEvent == if attempt.delay.Some? then next else old(nextEvent)
      ensures lastInterval == if attempt.ok && !r.cancelled
                              then Clamped(Max(r.reply.interval, r.reply.minInterval)) * SECOND else old(lastInterval)
    {
      var tracker, ok := Announce(r.reply);
      if !ok {
        if r.cancelled {
          return Attempt(event, tracker, false, None), event;
        }
        failures := failures + 1;
        var delay := BackoffDelay(failures, r.backoffMin, r.backoffMax);
        nextEvent := event;
        return Attempt(event, tracker, false, Some(delay)), event;
      }
      if r.cancelled {
        return Attempt(event, tracker, true, None), event;
      }
      failures := 0;
      var delay := NextInterval(r.reply.interval, r.reply.minInterval);
      if !r.active {
        return Attempt(event, tracker, true, None), event;
      }
      if event == Started {
        started := true;
      }
      if r.complete {
        return Attempt(event, tracker, true, None), event;
      }
      nextEvent := Regular;
      return Attempt(event, tracker, true, Some(delay)), Regular;
    }

    /** The loop; it returns the log of its announces. */
    method Loop(rounds: seq<Round>) returns (log: seq<Attempt>)
      requires failures == 0 && trackerIndex == 0
      requires forall i :: 0 <= i < |rounds| ==>
                 0 <= rounds[i].backoffMin <= MAX_INT64 && 0 <= rounds[i].backoffMax <= MAX_INT64
      modifies this
      ensures log == Run(INITIAL, trackers, rounds)
      ensures started <==> old(started) || exists i :: 0 <= i < |log| && Marks(log[i], rounds[i])
    {
      hide OneRound, Run;
      log := [];
      var event := Started;
      for i := 0 to |rounds|
        invariant log + Run(Now(event), trackers, rounds[i..]) == Run(INITIAL, trackers, rounds)
        invariant |log| == i
        invariant started <==> old(started) || exists k :: 0 <= k < |log| && Marks(log[k], rounds[k])
      {
        RunUnfolds(Now(event), trackers, rounds, i);
        var attempt, next := Body(event, rounds[i]);
        ghost var before := log;
        log := log + [attempt];
        assert log[|before|] == attempt && forall k :: 0 <= k < |before| ==> log[k] == before[k];
        if attempt.delay.None? {
          return;
        }
        event := next;
      }
      RunOfNothing(Now(event), trackers);
    }
  }

  lemma RunUnfolds(s: State, trackers: nat, rounds: seq<Round>, i: nat)
    requires i < |rounds|
    ensures var (attempt, next) := OneRound(s, trackers, rounds[i]);
            Run(s, trackers, rounds[i..]) ==
            if attempt.delay.None? then [attempt] else [attempt] + Run(next, trackers, rounds[i + 1..])
  {
    assert rounds[i..][0] == rounds[i] && rounds[i..][1..] == rounds[i + 1..];
  }

  lemma RunOfNothing(s: State, trackers: nat)
    ensures Run(s, trackers, []) == []
  {
  }

  // ----- What every run keeps -----

  /** The failures in a row that end at position `i` of the log, `before` of them before it began. */
  function Streak(log: seq<Attempt>, i: int, before: nat): nat
    requires -1 <= i < |log|
    decreases i + 1
  {
    if i < 0 then before else if log[i].ok then 0 else 1 + Streak(log, i - 1, before)
  }

  /** An announce before position `i` succeeded. */
  predicate OkBefore(log: seq<Attempt>, i: nat)
    requires i <= |log|
  {
    exists j :: 0 <= j < i && log[j].ok
  }

  lemma OkBeforeShift(attempt: Attempt, tail: seq<Attempt>, i: nat)
    requires i <= |tail|
    ensures OkBefore([attempt] + tail, i + 1) <==> attempt.ok || OkBefore(tail, i)
  {
    var log := [attempt] + tail;
    assert log[0] == attempt;
    if OkBefore(tail, i) {
      var j :| 0 <= j < i && tail[j].ok;
      assert log[j + 1].ok;
    }
  }

  predicate EventsFrom(log: seq<Attempt>, first: Event) {
    forall i :: 0 <= i < |log| ==> log[i].event == if OkBefore(log, i) then Regular else first
  }

  /** `started` is sent until it first succeeds and never after. */
  lemma {:induction false} StartedUntilItSucceeds(s: State, trackers: nat, rounds: seq<Round>)
    ensures EventsFrom(Run(s, trackers, rounds), s.event)
    decreases |rounds|
  {
    hide OkBefore, Backoff;
    var log := Run(s, trackers, rounds);
    if rounds != [] {
      var (attempt, next) := OneRound(s, trackers, rounds[0]);
      NothingBefore(log);
      if attempt.delay.Some? {
        var tail := Run(next, trackers, rounds[1..]);
        StartedUntilItSucceeds(next, trackers, rounds[1..]);
        forall i | 0 < i < |log| ensures log[i].event == if OkBefore(log, i) then Regular else s.event {
          assert log[i] == tail[i - 1];
          OkBeforeShift(attempt, tail, i - 1);
        }
      }
    }
  }

  lemma NothingBefore(log: seq<Attempt>)
    ensures !OkBefore(log, 0)
  {
  }

  /** Every wait: a bounded interval after a success, the back-off of the streak after a failure. */
  lemma {:induction false} DelaysAreBounded(s: State, trackers: nat, rounds: seq<Round>, i: nat)
    requires i < |Run(s, trackers, rounds)|
    ensures var log := Run(s, trackers, rounds);
            log[i].delay.Some? ==>
              if log[i].ok then 30 * SECOND <= log[i].delay.value <= 604800 * SECOND
              else log[i].delay.value ==
                   Backoff(Streak(log, i, s.failures), rounds[i].backoffMin, rounds[i].backoffMax)
    decreases |rounds|
  {
    hide Backoff;
    var log := Run(s, trackers, rounds);
    var (attempt, next) := OneRound(s, trackers, rounds[0]);
    if i > 0 {
      var tail := Run(next, trackers, rounds[1..]);
      assert log == [attempt] + tail;
      DelaysAreBounded(next, trackers, rounds[1..], i - 1);
      StreakShift(attempt, tail, i - 1, s.failures, next.failures);
    } else {
      assert Streak(log, 0, s.failures) == if attempt.ok then 0 else 1 + Streak(log, -1, s.failures);
    }
  }

  /** A wait after a success is the larger interval the tracker gave, 30 seconds if that is shorter and seven
      days if it is longer. */
  lemma {:induction false} WaitIsTheInterval(s: State, trackers: nat, rounds: seq<Round>, i: nat)
    requires i < |Run(s, trackers, rounds)| && Run(s, trackers, rounds)[i].ok
    requires Run(s, trackers, rounds)[i].delay.Some?
    ensures rounds[i].reply.Answered?
    ensures var reply, delay := rounds[i].reply, Run(s, trackers, rounds)[i].delay.value;
            var longer := if reply.interval >= reply.minInterval then reply.interval else reply.minInterval;
            && (30 <= longer <= 604800 ==> delay == longer * 1_000_000_000)
            && (longer < 30 ==> delay == 30_000_000_000)
            && (longer > 604800 ==> delay == 604_800_000_000_000)
    decreases |rounds|
  {
    hide Backoff;
    if i > 0 {
      var (attempt, next) := OneRound(s, trackers, rounds[0]);
      var tail := Run(next, trackers, rounds[1..]);
      assert Run(s, trackers, rounds) == [attempt] + tail;
      WaitIsTheInterval(next, trackers, rounds[1..], i - 1);
    }
  }

  /** What an announce has come to, and exactly when it is the last. */
  predicate EndsRightly(a: Attempt, trackers: nat, r: Round) {
    && (a.ok <==> trackers > 0 && r.reply.Answered?)
    && (a.tracker.Some? <==> trackers > 0 && !r.reply.NoRequest?)
    && (a.delay.None? <==> r.cancelled || (a.ok && (!r.active || r.complete)))
  }

  /** The loop goes on until it is cancelled, its torrent is no longer active, or the ratio is reached at a
      success; a failure alone never ends it. */
  lemma {:induction false} LoopEndsExactly(s: State, trackers: nat, rounds: seq<Round>)
    ensures var log := Run(s, trackers, rounds);
            && (forall i :: 0 <= i < |log| ==> EndsRightly(log[i], trackers, rounds[i]))
            && (forall i :: 0 <= i < |log| - 1 ==> log[i].delay.Some?)
            && (|log| < |rounds| ==> |log| > 0 && log[|log| - 1].delay.None?)
    decreases |rounds|
  {
    hide EndsRightly, Backoff;
    if rounds == [] {
    } else {
      RoundEndsRightly(s, trackers, rounds[0]);
      var (attempt, next) := OneRound(s, trackers, rounds[0]);
      var log, tail := Run(s, trackers, rounds), Run(next, trackers, rounds[1..]);
      LoopEndsExactly(next, trackers, rounds[1..]);
      assert attempt.delay.Some? ==> log == [attempt] + tail;
      assert forall i :: 1 <= i < |rounds| ==> rounds[i] == rounds[1..][i - 1];
    }
  }

  lemma RoundEndsRightly(s: State, trackers: nat, r: Round)
    ensures EndsRightly(OneRound(s, trackers, r).0, trackers, r)
  {
  }

  /** After the f-th failure in a row the loop waits min(max, min * 2^(f-1)), max being whole seconds. */
  lemma FailureWaitsDouble(trackers: nat, rounds: seq<Round>, i: nat)
    requires i < |Run(INITIAL, trackers, rounds)|
    requires 0 <= rounds[i].backoffMin && 0 <= rounds[i].backoffMax && rounds[i].backoffMax % SECOND == 0
    ensures var log := Run(INITIAL, trackers, rounds);
            !log[i].ok && log[i].delay.Some? ==>
              Streak(log, i, 0) >= 1
              && log[i].delay.value == Exponential(Streak(log, i, 0), rounds[i].backoffMin, rounds[i].backoffMax)
  {
    hide Backoff, Exponential;
    var log := Run(INITIAL, trackers, rounds);
    DelaysAreBounded(INITIAL, trackers, rounds, i);
    if !log[i].ok {
      BackoffIsExponential(Streak(log, i, 0), rounds[i].backoffMin, rounds[i].backoffMax);
    }
  }

  lemma {:induction false} StreakShift(attempt: Attempt, tail: seq<Attempt>, i: int, before: nat, next: nat)
    requires -1 <= i < |tail| && next == if attempt.ok then 0 else before + 1
    ensures Streak([attempt] + tail, i + 1, before) == Streak(tail, i, next)
    decreases i + 1
  {
    var log := [attempt] + tail;
    if i >= 0 {
      StreakShift(attempt, tail, i - 1, before, next);
    } else {
      assert Streak(log, 0, before) == if attempt.ok then 0 else 1 + Streak(log, -1, before);
    }
  }

  /** The requests of a log in order: the tracker asked and whether it answered. */
  function Requests(log: seq<Attempt>): seq<(nat, bool)> {
    if log == [] then []
    else
      (if log[0].tracker.Some? then [(log[0].tracker.value, log[0].ok)] else []) + Requests(log[1..])
  }

  predicate Rotates(q: seq<(nat, bool)>, trackers: nat)
    requires trackers > 0
  {
    forall i :: 0 <= i < |q| ==>
      q[i].0 < trackers && (i > 0 ==> q[i].0 == if q[i - 1].1 then q[i - 1].0 else Advance(q[i - 1].0, trackers))
  }

  lemma RequestsOfMore(attempt: Attempt, tail: seq<Attempt>)
    ensures Requests([attempt] + tail) ==
            if attempt.tracker.Some? then [(attempt.tracker.value, attempt.ok)] + Requests(tail) else Requests(tail)
  {
    assert ([attempt] + tail)[1..] == tail;
  }

  lemma {:induction false} RequestsRotate(s: State, trackers: nat, rounds: seq<Round>)
    requires trackers > 0 && s.trackerIndex < trackers
    ensures var q := Requests(Run(s, trackers, rounds));
            Rotates(q, trackers) && (q != [] ==> q[0].0 == s.trackerIndex)
    decreases |rounds|
  {
    hide Advance, Backoff, Requests, Clamped;
    if rounds == [] {
      NoRequests();
    } else {
      SameTracker(s.trackerIndex, trackers);
      var (attempt, next) := OneRound(s, trackers, rounds[0]);
      if attempt.delay.None? {
        NoRequests();
        RequestsOfMore(attempt, []);
        assert [attempt] + [] == [attempt];
      } else {
        RequestsOfMore(attempt, Run(next, trackers, rounds[1..]));
        RequestsRotate(next, trackers, rounds[1..]);
      }
    }
  }

  lemma NoRequests()
    ensures Requests([]) == []
  {
  }

  /** Any `trackers` failed requests in a row ask every tracker of the list. */
  lemma FailedRequestsVisitEveryTracker(trackers: nat, rounds: seq<Round>, from: nat, t: nat) returns (i: nat)
    requires t < trackers
    requires from + trackers <= |Requests(Run(INITIAL, trackers, rounds))|
    requires forall k :: from <= k < from + trackers ==> !Requests(Run(INITIAL, trackers, rounds))[k].1
    ensures from <= i < from + trackers && Requests(Run(INITIAL, trackers, rounds))[i].0 == t
  {
    var q := Requests(Run(INITIAL, trackers, rounds));
    RequestsRotate(INITIAL, trackers, rounds);
    var first := q[from].0;
    var steps := if t >= first then t - first else t + trackers - first;
    RotationAfter(q, trackers, from, steps);
    i := from + steps;
  }

  lemma {:induction false} RotationAfter(q: seq<(nat, bool)>, trackers: nat, from: nat, steps: nat)
    requires trackers > 0 && Rotates(q, trackers) && from + steps < |q| && steps < trackers
    requires forall k :: from <= k < from + steps ==> !q[k].1
    ensures q[from + steps].0 == if q[from].0 + steps < trackers then q[from].0 + steps
                                 else q[from].0 + steps - trackers
  {
    hide Advance;
    if steps == 0 {
    } else {
      RotationAfter(q, trackers, from, steps - 1);
      NextIndex(q[from + steps - 1].0, trackers);
    }
  }

  lemma NextIndex(t: nat, trackers: nat)
    requires t < trackers
    ensures Advance(t, trackers) == if t + 1 < trackers then t + 1 else 0
  {
  }

  // ----- NextAfter -----

  datatype Next = Next(event: Event, done: bool)

  /** NextAfter without its delay. */
  function NextAfter(event: Event, failed: bool): Next {
    if failed then Next(event, false)
    else if event == Stopped then Next(Regular, true)
    else Next(Regular, false)
  }

  /** Over a whole run the loop moves from event to event as NextAfter says, and never to its end: the
      stopped announce is not sent by the loop. */
  lemma LoopFollowsNextAfter(s: State, trackers: nat, rounds: seq<Round>)
    requires s.event != Stopped
    ensures var log := Run(s, trackers, rounds);
            && (forall i :: 0 <= i < |log| ==> log[i].event != Stopped)
            && (forall i :: 0 < i < |log| ==> NextAfter(log[i - 1].event, !log[i - 1].ok) == Next(log[i].event, false))
  {
    hide Run, OkBefore;
    var log := Run(s, trackers, rounds);
    StartedUntilItSucceeds(s, trackers, rounds);
    forall i | 0 < i < |log| ensures NextAfter(log[i - 1].event, !log[i - 1].ok) == Next(log[i].event, false) {
      OkBeforeNext(log, i);
    }
  }

  lemma OkBeforeNext(log: seq<Attempt>, i: nat)
    requires 0 < i < |log|
    ensures OkBefore(log, i) <==> OkBefore(log, i - 1) || log[i - 1].ok
  {
  }
}
