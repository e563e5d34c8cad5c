/** `EmailNotifier`: batches of events and a limit on the emails sent in a minute. */
module EmailLimiter {
  import opened Events
  import opened Sequences

  /** Instants are in nanoseconds. */
  const MINUTE := 60_000_000_000

  datatype Config = Config(enabled: bool, batchSize: nat, maxPerMinute: nat)

  datatype Limiter = Limiter(lastSend: int, sent: nat)

  /** The limiter after `check_rate_limit` has read the clock, and once more if a new minute begins. */
  function Checked(l: Limiter, elapsedAt: int, resetAt: int): Limiter
  {
    if elapsedAt - l.lastSend >= MINUTE then Limiter(resetAt, 0) else l
  }

  predicate Allows(c: Config, l: Limiter)
  {
    l.sent < c.maxPerMinute
  }

  datatype Outcome = Quiet | Sent | RateLimited | Failed

  /** One email: refused if the limit is reached in the minute that has begun, and counted if it goes out. */
  predicate Attempt(c: Config, l: Limiter, elapsedAt: int, resetAt: int, deliverable: bool, o: Outcome, after: Limiter)
  {
    var sent := if elapsedAt - l.lastSend >= 60_000_000_000 then 0 else l.sent;
    && o == (if sent >= c.maxPerMinute then RateLimited else if deliverable then Sent else Failed)
    && after.sent == (if o == Sent then sent + 1 else sent)
    && after.lastSend == (if elapsedAt - l.lastSend >= 60_000_000_000 then resetAt else l.lastSend)
  }

  /** The notifier as one task sees it when no other task uses it. */
  class EmailNotifier {
    const config: Config
    var pending: seq<Event>
    var limiter: Limiter

    constructor (config: Config, now: int)
      ensures this.config == config && pending == [] && limiter == Limiter(now, 0)
    {
      this.config, pending, limiter := config, [], Limiter(now, 0);
    }

    method CheckRateLimit(elapsedAt: int, resetAt: int) returns (ok: bool)
      modifies this`limiter
      ensures limiter == Checked(old(limiter), elapsedAt, resetAt) && ok == Allows(config, limiter)
      ensures elapsedAt - old(limiter).lastSend >= 60_000_000_000 ==>
        limiter == Limiter(resetAt, 0) && (ok <==> config.maxPerMinute >= 1)
      ensures elapsedAt - old(limiter).lastSend < 60_000_000_000 ==>
        limiter == old(limiter) && (ok <==> limiter.sent < config.maxPerMinute)
    {
      if elapsedAt - limiter.lastSend >= MINUTE {
        limiter := limiter.(sent := 0);
        limiter := limiter.(lastSend := resetAt);
      }
      if limiter.sent >= config.maxPerMinute {
        return false;
      }
      return true;
    }

    /** `send_single` or `send_batch`: only an email that could be built and handed over is counted. */
    method Send(elapsedAt: int, resetAt: int, deliverable: bool) returns (outcome: Outcome)
      modifies this`limiter
      ensures Attempt(config, old(limiter), elapsedAt, resetAt, deliverable, outcome, limiter)
    {
      var ok := CheckRateLimit(elapsedAt, resetAt);
      if !ok {
        return RateLimited;
      }
      if !deliverable {
        return Failed;
      }
      limiter := limiter.(sent := limiter.sent + 1);
      return Sent;
    }

    /** `flush`: whatever becomes of the email, its events are no longer pending. */
    method Flush(elapsedAt: int, resetAt: int, deliverable: bool) returns (outcome: Outcome, batch: seq<Event>)
      modifies this
      ensures batch == old(pending) && pending == [] && (outcome == Quiet <==> batch == [])
      ensures outcome == Quiet ==> limiter == old(limiter)
      ensures outcome != Quiet ==>
        Attempt(config, old(limiter), elapsedAt, resetAt, deliverable, outcome, limiter)
    {
      batch := pending;
      pending := [];
      if batch == [] {
        return Quiet, batch;
      }
      outcome := Send(elapsedAt, resetAt, deliverable);
    }

    /** `notify`: a full batch never stays behind. */
    method Notify(event: Event, elapsedAt: int, resetAt: int, deliverable: bool)
      returns (outcome: Outcome, batch: seq<Event>)
      modifies this
      ensures !config.enabled ==> pending == old(pending) && limiter == old(limiter) && outcome == Quiet && batch == []
      ensures config.enabled && config.batchSize > 0 ==>
        && batch + pending == old(pending) + [event] && (batch == [] || pending == [])
        && |pending| < config.batchSize && (batch == [] || |batch| >= config.batchSize)
      ensures config.enabled && config.batchSize == 0 ==>
        pending == old(pending) && batch == [event] && outcome != Quiet
      ensures config.enabled ==> (outcome == Quiet <==> batch == [])
      ensures outcome == Quiet ==> limiter == old(limiter)
      ensures outcome != Quiet ==>
        Attempt(config, old(limiter), elapsedAt, resetAt, deliverable, outcome, limiter)
    {
      if !config.enabled {
        return Quiet, [];
      }
      if config.batchSize > 0 {
        pending := pending + [event];
        var shouldFlush := |pending| >= config.batchSize;
        if shouldFlush {
          outcome, batch := Flush(elapsedAt, resetAt, deliverable);
          assert batch + pending == batch;
        } else {
          outcome, batch := Quiet, [];
          assert batch + pending == pending;
        }
      } else {
        batch := [event];
        outcome := Send(elapsedAt, resetAt, deliverable);
      }
    }
  }

  // ---------------------------------------------------------------- tasks at the same time

  /** Where a task stands; the pending list and the limiter are locked for one step each. */
  datatype Slot = Idle | Flushing | Holding(batch: seq<Event>) | Sending(batch: seq<Event>)

  /**
   `pushed` to `lost` are the history: events made pending, batches drained from the pending list, batches
   taken up by a task, and of these the ones sent and the ones given up.
  */
  datatype State = State(
    limiter: Limiter, pending: seq<Event>, slots: seq<Slot>, pushed: seq<Event>, drained: seq<seq<Event>>,
    taken: seq<seq<Event>>, delivered: seq<seq<Event>>, lost: seq<seq<Event>>)

  datatype Step =
    | Single(k: nat, event: Event)
    | Push(k: nat, event: Event)
    | CallFlush(k: nat)
    | Drain(k: nat)
    | Check(k: nat, elapsedAt: int, resetAt: int)
    | Finish(k: nat)
    | Abort(k: nat)

  predicate Enabled(c: Config, s: State, step: Step)
  {
    step.k < |s.slots| &&
    match step
    case Single(k, _) => c.batchSize == 0 && s.slots[k].Idle?
    case Push(k, _) => c.batchSize > 0 && s.slots[k].Idle?
    case CallFlush(k) => s.slots[k].Idle?
    case Drain(k) => s.slots[k].Flushing?
    case Check(k, elapsedAt, resetAt) => s.slots[k].Holding? && elapsedAt <= resetAt
    case Finish(k) => s.slots[k].Sending?
    case Abort(k) => s.slots[k].Sending?
  }

  function Apply(c: Config, s: State, step: Step): State
    requires Enabled(c, s, step)
  {
    match step
    case Single(k, event) => s.(slots := s.slots[k := Holding([event])], taken := s.taken + [[event]])
    case Push(k, event) =>
      s.(pending := s.pending + [event], pushed := s.pushed + [event],
         slots := s.slots[k := if |s.pending| + 1 >= c.batchSize then Flushing else Idle])
    case CallFlush(k) => s.(slots := s.slots[k := Flushing])
    case Drain(k) =>
      s.(pending := [], drained := s.drained + [s.pending],
         taken := if s.pending == [] then s.taken else s.taken + [s.pending],
         slots := s.slots[k := if s.pending == [] then Idle else Holding(s.pending)])
    case Check(k, elapsedAt, resetAt) =>
      var l := Checked(s.limiter, elapsedAt, resetAt);
      if Allows(c, l) then s.(limiter := l, slots := s.slots[k := Sending(s.slots[k].batch)])
      else s.(limiter := l, slots := s.slots[k := Idle], lost := s.lost + [s.slots[k].batch])
    case Finish(k) =>
      s.(limiter := s.limiter.(sent := s.limiter.sent + 1), slots := s.slots[k := Idle],
         delivered := s.delivered + [s.slots[k].batch])
    case Abort(k) => s.(slots := s.slots[k := Idle], lost := s.lost + [s.slots[k].batch])
  }

  ghost predicate Init(c: Config, s: State)
  {
    && s == State(s.limiter, [], s.slots, [], [], [], [], []) && s.limiter.sent == 0
    && |s.slots| >= 1 && forall k :: 0 <= k < |s.slots| ==> s.slots[k].Idle?
  }

  ghost predicate Next(c: Config, s: State, step: Step, t: State)
  {
    Enabled(c, s, step) && t == Apply(c, s, step)
  }

  ghost predicate Run(c: Config, states: seq<State>, steps: seq<Step>)
  {
    && |states| == |steps| + 1 && Init(c, states[0])
    && forall i :: 0 <= i < |steps| ==> Next(c, states[i], steps[i], states[i + 1])
  }

  /** What one task does for an email is its check and then, if that passes, the email counted or given up. */
  lemma AttemptIsSteps(
    c: Config, s: State, k: nat, elapsedAt: int, resetAt: int, deliverable: bool, o: Outcome, after: Limiter)
    requires Enabled(c, s, Check(k, elapsedAt, resetAt))
    ensures var t := Apply(c, s, Check(k, elapsedAt, resetAt));
      Attempt(c, s.limiter, elapsedAt, resetAt, deliverable, o, after) <==>
        if t.slots[k].Idle? then o == RateLimited && after == t.limiter
        else if deliverable then o == Sent && after == Apply(c, t, Finish(k)).limiter
        else o == Failed && after == Apply(c, t, Abort(k)).limiter
  {
  }

  // ---------------------------------------------------------------- the overshoot

  /** Tasks past the rate check that have not been counted. */
  function InFlight(slots: seq<Slot>): nat
  {
    if slots == [] then 0
    else InFlight(slots[..|slots| - 1]) + if slots[|slots| - 1].Sending? then 1 else 0
  }

  lemma {:induction false} InFlightUpdate(slots: seq<Slot>, k: nat, slot: Slot)
    requires k < |slots|
    ensures InFlight(slots[k := slot]) ==
      InFlight(slots) - (if slots[k].Sending? then 1 else 0) + (if slot.Sending? then 1 else 0)
  {
    var n := |slots| - 1;
    if k == n {
      assert slots[k := slot][..n] == slots[..n];
    } else {
      assert slots[k := slot][..n] == slots[..n][k := slot];
      InFlightUpdate(slots[..n], k, slot);
    }
  }

  lemma {:induction false} InFlightBound(slots: seq<Slot>)
    ensures InFlight(slots) <= |slots|
    ensures (exists k :: 0 <= k < |slots| && !slots[k].Sending?) ==> InFlight(slots) < |slots|
    ensures (forall k :: 0 <= k < |slots| ==> !slots[k].Sending?) ==> InFlight(slots) == 0
  {
    if slots != [] {
      var n := |slots| - 1;
      InFlightBound(slots[..n]);
      if k :| 0 <= k < |slots| && !slots[k].Sending? {
        if k < n { assert slots[..n][k] == slots[k]; }
      }
    }
  }

  /** Emails counted in this minute and tasks that are about to be counted. */
  function Load(s: State): nat
  {
    s.limiter.sent + InFlight(s.slots)
  }

  function Bound(c: Config, s: State): int
  {
    c.maxPerMinute + |s.slots| - 1
  }

  predicate Passes(c: Config, s: State, step: Step)
  {
    step.Check? && Allows(c, Checked(s.limiter, step.elapsedAt, step.resetAt))
  }

  predicate Resets(s: State, step: Step)
  {
    step.Check? && step.elapsedAt - s.limiter.lastSend >= MINUTE
  }

  function One(b: bool): nat { if b then 1 else 0 }

  /** A passed check adds one to the load, an abort takes one off, and only a new minute drops more. */
  lemma LoadStep(c: Config, s: State, step: Step, t: State)
    requires Next(c, s, step, t)
    ensures |t.slots| == |s.slots|
    ensures !Resets(s, step) ==> Load(t) == Load(s) + One(Passes(c, s, step)) - One(step.Abort?)
    ensures Resets(s, step) ==> Load(t) == InFlight(s.slots) + One(Passes(c, s, step))
    ensures Load(s) <= Bound(c, s) ==> Load(t) <= Bound(c, t)
  {
    hide InFlight;
    InFlightUpdate(s.slots, step.k, t.slots[step.k]);
    InFlightBound(s.slots);
    if Passes(c, s, step) {
      assert !s.slots[step.k].Sending?;
    }
  }

  /**
   With P tasks at most P - 1 emails more than configured are sent or under way in a minute.
  */
  lemma {:induction false} LoadIsBounded(c: Config, states: seq<State>, steps: seq<Step>, i: nat)
    requires Run(c, states, steps) && i < |states|
    ensures |states[i].slots| == |states[0].slots| >= 1 && Load(states[i]) <= Bound(c, states[0])
  {
    hide Next;
    if i == 0 {
      InFlightBound(states[0].slots);
    } else {
      LoadIsBounded(c, states, steps, i - 1);
      LoadStep(c, states[i - 1], steps[i - 1], states[i]);
    }
  }

  // ---------------------------------------------------------------- any sixty seconds

  /** Checks passed by the steps from `i` up to `j`. */
  function Passed(c: Config, states: seq<State>, steps: seq<Step>, i: nat, j: nat): nat
    requires i <= j <= |steps| && |states| == |steps| + 1
    decreases j
  {
    if i == j then 0 else Passed(c, states, steps, i, j - 1) + One(Passes(c, states[j - 1], steps[j - 1]))
  }

  function Aborted(steps: seq<Step>, i: nat, j: nat): nat
    requires i <= j <= |steps|
    decreases j
  {
    if i == j then 0 else Aborted(steps, i, j - 1) + One(steps[j - 1].Abort?)
  }

  lemma {:induction false} CountsSplit(c: Config, states: seq<State>, steps: seq<Step>, i: nat, k: nat, j: nat)
    requires i <= k <= j <= |steps| && |states| == |steps| + 1
    ensures Passed(c, states, steps, i, j) == Passed(c, states, steps, i, k) + Passed(c, states, steps, k, j)
    ensures Aborted(steps, i, j) == Aborted(steps, i, k) + Aborted(steps, k, j)
    decreases j
  {
    if k < j {
      CountsSplit(c, states, steps, i, k, j - 1);
    }
  }

  lemma {:induction false} PassedWithinAMinute(c: Config, states: seq<State>, steps: seq<Step>, i: nat, j: nat)
    requires Run(c, states, steps) && i <= j <= |steps|
    requires forall k :: i <= k < j ==> !Resets(states[k], steps[k])
    ensures Passed(c, states, steps, i, j) + Load(states[i]) == Load(states[j]) + Aborted(steps, i, j)
    decreases j
  {
    hide Next, Load, Passes, Resets;
    if i < j {
      PassedWithinAMinute(c, states, steps, i, j - 1);
      LoadStep(c, states[j - 1], steps[j - 1], states[j]);
    }
  }

  /** Clock readings never go back. */
  ghost predicate SteadyClock(steps: seq<Step>)
  {
    && (forall i :: 0 <= i < |steps| && steps[i].Check? ==> steps[i].elapsedAt <= steps[i].resetAt)
    && (forall i, j :: 0 <= i < j < |steps| && steps[i].Check? && steps[j].Check? ==>
          steps[i].resetAt <= steps[j].elapsedAt)
  }

  lemma {:induction false} LastSendIsAtLeast(c: Config, states: seq<State>, steps: seq<Step>, r: nat, k: nat)
    requires Run(c, states, steps) && SteadyClock(steps) && r < k <= |steps| && Resets(states[r], steps[r])
    ensures states[k].limiter.lastSend >= steps[r].resetAt
    decreases k
  {
    if k - 1 > r {
      LastSendIsAtLeast(c, states, steps, r, k - 1);
    }
    assert Next(c, states[k - 1], steps[k - 1], states[k]);
  }

  /**
   In any half-open interval of sixty seconds at most 2 * (max + P - 1) checks pass, besides those whose
   email was given up; for tasks one at a time that is twice the configured number.
  */
  lemma PassedInSixtySeconds(
    c: Config, states: seq<State>, steps: seq<Step>, i: nat, j: nat, from: int)
    requires Run(c, states, steps) && SteadyClock(steps) && i <= j <= |steps|
    requires forall k :: i <= k < j && steps[k].Check? ==>
      from <= steps[k].elapsedAt <= steps[k].resetAt < from + MINUTE
    ensures Passed(c, states, steps, i, j) <= 2 * Bound(c, states[0]) + Aborted(steps, i, j)
    ensures |states[0].slots| == 1 ==> Passed(c, states, steps, i, j) <= 2 * c.maxPerMinute + Aborted(steps, i, j)
  {
    hide Load, Passes, Passed, Aborted, Next;
    LoadIsBounded(c, states, steps, j);
    LoadIsBounded(c, states, steps, 0);
    if r :| i <= r < j && Resets(states[r], steps[r]) {
      forall k | i <= k < j && k != r ensures !Resets(states[k], steps[k]) {
        if Resets(states[k], steps[k]) {
          if k < r {
            LastSendIsAtLeast(c, states, steps, k, r);
          } else {
            LastSendIsAtLeast(c, states, steps, r, k);
          }
        }
      }
      LoadIsBounded(c, states, steps, r);
      PassedWithinAMinute(c, states, steps, i, r);
      PassedWithinAMinute(c, states, steps, r + 1, j);
      PassedByReset(c, states, steps, r);
      CountsSplit(c, states, steps, i, r, j);
      CountsSplit(c, states, steps, r, r + 1, j);
    } else {
      PassedWithinAMinute(c, states, steps, i, j);
    }
  }

  lemma PassedByReset(c: Config, states: seq<State>, steps: seq<Step>, r: nat)
    requires Run(c, states, steps) && r < |steps| && Resets(states[r], steps[r])
    ensures Passed(c, states, steps, r, r + 1) <= Load(states[r + 1]) && Aborted(steps, r, r + 1) == 0
  {
    hide Load;
    LoadStep(c, states[r], steps[r], states[r + 1]);
  }

  // ---------------------------------------------------------------- when a check fails

  /** When the minute counted before step `i` began: at the newest check that found one over, or at the start. */
  function MinuteStart(start: int, steps: seq<Step>, i: nat): int
    requires i <= |steps|
    decreases i, 0
  {
    if i == 0 then start
    else if Begins(start, steps, i - 1) then steps[i - 1].resetAt
    else MinuteStart(start, steps, i - 1)
  }

  /** Step `i` is a check sixty seconds or more after the minute it finds began. */
  predicate Begins(start: int, steps: seq<Step>, i: nat)
    requires i < |steps|
    decreases i, 1
  {
    steps[i].Check? && steps[i].elapsedAt - MinuteStart(start, steps, i) >= 60_000_000_000
  }

  /** Emails counted by the steps from `i` up to `j`. */
  function Finished(steps: seq<Step>, i: nat, j: nat): nat
    requires i <= j <= |steps|
    decreases j
  {
    if i == j then 0 else Finished(steps, i, j - 1) + One(steps[j - 1].Finish?)
  }

  /** Step `r` is the newest before `i` to begin a minute, or there is none and `r` is -1. */
  ghost predicate Newest(start: int, steps: seq<Step>, i: nat, r: int)
    requires i <= |steps|
  {
    -1 <= r < i && (r >= 0 ==> Begins(start, steps, r)) && forall k :: r < k < i ==> !Begins(start, steps, k)
  }

  lemma LimiterStep(c: Config, s: State, step: Step, t: State)
    requires Next(c, s, step, t)
    ensures t.limiter ==
      if step.Check? && step.elapsedAt - s.limiter.lastSend >= 60_000_000_000 then Limiter(step.resetAt, 0)
      else Limiter(s.limiter.lastSend, s.limiter.sent + One(step.Finish?))
  {
  }

  /** The limiter holds when the minute began, and the emails counted since. */
  lemma {:induction false} LimiterIsHistory(c: Config, states: seq<State>, steps: seq<Step>, i: nat) returns (r: int)
    requires Run(c, states, steps) && i < |states|
    ensures var start := states[0].limiter.lastSend;
      && Newest(start, steps, i, r)
      && MinuteStart(start, steps, i) == (if r < 0 then start else steps[r].resetAt)
      && states[i].limiter == Limiter(MinuteStart(start, steps, i), Finished(steps, r + 1, i))
  {
    if i == 0 {
      r := -1;
    } else {
      r := LimiterIsHistory(c, states, steps, i - 1);
      LimiterStep(c, states[i - 1], steps[i - 1], states[i]);
      hide Next;
      if Begins(states[0].limiter.lastSend, steps, i - 1) {
        r := i - 1;
      }
    }
  }

  /**
   Exactly when a check passes, in every run: with a limit of at least one, if sixty seconds have gone by since
   the minute began, or fewer emails than the limit have been counted in it.
  */
  lemma LimitedExactly(c: Config, states: seq<State>, steps: seq<Step>, i: nat) returns (r: int)
    requires Run(c, states, steps) && i < |steps| && steps[i].Check?
    ensures Newest(states[0].limiter.lastSend, steps, i, r)
    ensures var began := if r < 0 then states[0].limiter.lastSend else steps[r].resetAt;
      states[i + 1].slots[steps[i].k].Sending? <==>
        && c.maxPerMinute >= 1
        && (steps[i].elapsedAt - began >= 60_000_000_000 || Finished(steps, r + 1, i) < c.maxPerMinute)
  {
    r := LimiterIsHistory(c, states, steps, i);
    assert Next(c, states[i], steps[i], states[i + 1]);
  }

  /** So a check sixty seconds after the start and after every earlier check passes, whatever was sent. */
  lemma PassesAgain(c: Config, states: seq<State>, steps: seq<Step>, i: nat)
    requires Run(c, states, steps) && i < |steps| && steps[i].Check? && c.maxPerMinute >= 1
    requires steps[i].elapsedAt - states[0].limiter.lastSend >= 60_000_000_000
    requires forall k :: 0 <= k < i && steps[k].Check? ==> steps[i].elapsedAt - steps[k].resetAt >= 60_000_000_000
    ensures states[i + 1].slots[steps[i].k].Sending?
  {
    hide Next;
    var r := LimitedExactly(c, states, steps, i);
  }

  // ---------------------------------------------------------------- events

  function Contents(batch: seq<Event>): seq<Event>
  {
    batch
  }

  /** Drained batches, then what is pending, are the pushed events in order; full batches are being flushed. */
  ghost predicate InOrder(c: Config, s: State)
  {
    && FlatMap(s.drained, Contents) + s.pending == s.pushed
    && (c.batchSize > 0 && |s.pending| >= c.batchSize ==> exists k :: 0 <= k < |s.slots| && s.slots[k].Flushing?)
  }

  lemma InOrderStep(c: Config, s: State, step: Step, t: State)
    requires Next(c, s, step, t) && InOrder(c, s)
    ensures InOrder(c, t)
  {
    hide FlatMap;
    if step.Push? {
      assert FlatMap(s.drained, Contents) + t.pending == FlatMap(s.drained, Contents) + s.pending + [step.event];
      if |t.pending| >= c.batchSize { assert t.slots[step.k].Flushing?; }
    } else if step.Drain? {
      FlatMapSnoc(s.drained, s.pending, Contents);
      assert FlatMap(t.drained, Contents) + [] == FlatMap(t.drained, Contents);
    } else if c.batchSize > 0 && |s.pending| >= c.batchSize {
      var j :| 0 <= j < |s.slots| && s.slots[j].Flushing?;
      assert t.slots[j].Flushing?;
    }
  }

  lemma PushFlushesFull(c: Config, s: State, step: Step, t: State)
    requires Next(c, s, step, t)
    ensures step.Push? ==> (t.slots[step.k].Flushing? <==> |t.pending| >= c.batchSize)
  {
  }

  lemma {:induction false} DrainedInOrder(c: Config, states: seq<State>, steps: seq<Step>, i: nat)
    requires Run(c, states, steps) && i < |states|
    ensures InOrder(c, states[i])
    ensures i > 0 && steps[i - 1].Push? ==>
      (states[i].slots[steps[i - 1].k].Flushing? <==> |states[i].pending| >= c.batchSize)
    ensures c.batchSize > 0 && (forall k :: 0 <= k < |states[i].slots| ==> states[i].slots[k].Idle?) ==>
      |states[i].pending| < c.batchSize
  {
    hide Next;
    if i > 0 {
      DrainedInOrder(c, states, steps, i - 1);
      InOrderStep(c, states[i - 1], steps[i - 1], states[i]);
      PushFlushesFull(c, states[i - 1], steps[i - 1], states[i]);
    }
  }

  function InHand(slot: Slot, batch: seq<Event>): nat
  {
    One(slot == Holding(batch) || slot == Sending(batch))
  }

  /** How many tasks are working on `batch`. */
  function InHands(slots: seq<Slot>, batch: seq<Event>): nat
  {
    if slots == [] then 0 else InHands(slots[..|slots| - 1], batch) + InHand(slots[|slots| - 1], batch)
  }

  lemma {:induction false} InHandsUpdate(slots: seq<Slot>, k: nat, slot: Slot, batch: seq<Event>)
    requires k < |slots|
    ensures InHands(slots[k := slot], batch) == InHands(slots, batch) - InHand(slots[k], batch) + InHand(slot, batch)
  {
    hide InHand;
    var n := |slots| - 1;
    if k == n {
      assert slots[k := slot][..n] == slots[..n];
    } else {
      assert slots[k := slot][..n] == slots[..n][k := slot];
      InHandsUpdate(slots[..n], k, slot, batch);
    }
  }

  function Copies(batches: seq<seq<Event>>, batch: seq<Event>): nat
  {
    if batches == [] then 0 else Copies(batches[..|batches| - 1], batch) + One(batches[|batches| - 1] == batch)
  }

  lemma CopiesSnoc(batches: seq<seq<Event>>, last: seq<Event>, batch: seq<Event>)
    ensures Copies(batches + [last], batch) == Copies(batches, batch) + One(last == batch)
  {
    assert (batches + [last])[..|batches|] == batches;
  }

  /** As often as tasks took up `batch`, it is sent, given up, or still in a task's hands. */
  ghost predicate Accounted(s: State, batch: seq<Event>)
  {
    Copies(s.taken, batch) == Copies(s.delivered, batch) + Copies(s.lost, batch) + InHands(s.slots, batch)
  }

  lemma AccountedStep(c: Config, s: State, step: Step, t: State, batch: seq<Event>)
    requires Next(c, s, step, t) && Accounted(s, batch)
    ensures Accounted(t, batch)
    ensures |t.lost| > |s.lost| <==> step.Abort? || (step.Check? && !Passes(c, s, step))
  {
    hide InHands, Copies;
    var k := step.k;
    InHandsUpdate(s.slots, k, t.slots[k], batch);
    match step
    case Single(_, event) => CopiesSnoc(s.taken, [event], batch);
    case Drain(_) => CopiesSnoc(s.taken, s.pending, batch);
    case Check(_, _, _) => CopiesSnoc(s.lost, s.slots[k].batch, batch);
    case Finish(_) => CopiesSnoc(s.delivered, s.slots[k].batch, batch);
    case Abort(_) => CopiesSnoc(s.lost, s.slots[k].batch, batch);
    case _ =>
  }

  lemma {:induction false} NothingInHands(slots: seq<Slot>, batch: seq<Event>)
    requires forall k :: 0 <= k < |slots| ==> slots[k].Idle?
    ensures InHands(slots, batch) == 0
  {
    if slots != [] {
      NothingInHands(slots[..|slots| - 1], batch);
    }
  }

  /** Nothing else becomes of a batch: it is lost only if its check fails or its email is given up. */
  lemma {:induction false} BatchesAreAccountedFor(
    c: Config, states: seq<State>, steps: seq<Step>, i: nat, batch: seq<Event>)
    requires Run(c, states, steps) && i < |states|
    ensures Accounted(states[i], batch)
    ensures i > 0 ==> (|states[i].lost| > |states[i - 1].lost| <==>
                       steps[i - 1].Abort? || (steps[i - 1].Check? && !Passes(c, states[i - 1], steps[i - 1])))
  {
    hide Next;
    if i == 0 {
      NothingInHands(states[0].slots, batch);
    } else {
      BatchesAreAccountedFor(c, states, steps, i - 1, batch);
      AccountedStep(c, states[i - 1], steps[i - 1], states[i], batch);
    }
  }

  // ---------------------------------------------------------------- the overshoot is real

  ghost predicate LeadsTo(c: Config, states: seq<State>, steps: seq<Step>, s: State)
  {
    Run(c, states, steps) && states[|steps|] == s
  }

  ghost predicate Reachable(c: Config, s: State)
  {
    exists states, steps :: LeadsTo(c, states, steps, s)
  }

  lemma ReachInit(c: Config, s: State)
    requires Init(c, s)
    ensures Reachable(c, s)
  {
    assert LeadsTo(c, [s], [], s);
  }

  lemma ReachNext(c: Config, s: State, step: Step, t: State)
    requires Reachable(c, s) && Next(c, s, step, t)
    ensures Reachable(c, t)
  {
    hide Next;
    var states, steps :| LeadsTo(c, states, steps, s);
    assert LeadsTo(c, states + [t], steps + [step], t);
  }

  /** The task in slot `k` takes up a batch: one event, or as many as make a batch full. */
  lemma {:induction false} TakeUp(c: Config, s: State, k: nat, event: Event) returns (t: State)
    requires Reachable(c, s) && k < |s.slots| && s.slots[k].Idle?
    ensures Reachable(c, t) && |t.slots| == |s.slots| && t.slots == s.slots[k := t.slots[k]]
    ensures t.slots[k].Holding? && t.limiter == s.limiter
    decreases c.batchSize - |s.pending|
  {
    hide Reachable;
    if c.batchSize == 0 {
      t := Apply(c, s, Single(k, event));
      ReachNext(c, s, Single(k, event), t);
    } else {
      var u := Apply(c, s, Push(k, event));
      ReachNext(c, s, Push(k, event), u);
      if u.slots[k].Flushing? {
        t := Apply(c, u, Drain(k));
        ReachNext(c, u, Drain(k), t);
      } else {
        t := TakeUp(c, u, k, event);
      }
    }
  }

  /** The task in slot `k` takes up a batch and passes the check. */
  lemma PassOne(c: Config, s: State, k: nat, event: Event) returns (t: State)
    requires Reachable(c, s) && k < |s.slots| && s.slots[k].Idle?
    requires s.limiter.sent < c.maxPerMinute
    ensures Reachable(c, t) && |t.slots| == |s.slots| && t.slots == s.slots[k := t.slots[k]]
    ensures t.slots[k].Sending? && t.limiter == s.limiter
  {
    hide Reachable;
    var now := s.limiter.lastSend;
    var u := TakeUp(c, s, k, event);
    t := Apply(c, u, Check(k, now, now));
    ReachNext(c, u, Check(k, now, now), t);
  }

  lemma {:induction false} SendSome(c: Config, event: Event, tasks: nat, n: nat) returns (s: State)
    requires n < c.maxPerMinute && tasks >= 1
    ensures Reachable(c, s) && s.limiter.sent == n
    ensures |s.slots| == tasks && forall k :: 0 <= k < tasks ==> s.slots[k].Idle?
  {
    hide Reachable;
    if n == 0 {
      s := State(Limiter(0, 0), [], seq(tasks, k => Idle), [], [], [], [], []);
      ReachInit(c, s);
    } else {
      var before := SendSome(c, event, tasks, n - 1);
      var passed := PassOne(c, before, 0, event);
      s := Apply(c, passed, Finish(0));
      ReachNext(c, passed, Finish(0), s);
    }
  }

  lemma {:induction false} PassMany(c: Config, event: Event, s: State, n: nat) returns (t: State)
    requires Reachable(c, s) && s.limiter.sent < c.maxPerMinute && n <= |s.slots|
    requires forall k :: 0 <= k < |s.slots| ==> s.slots[k].Idle?
    ensures Reachable(c, t) && t.limiter == s.limiter && |t.slots| == |s.slots|
    ensures forall k :: 0 <= k < |s.slots| ==> if k < n then t.slots[k].Sending? else t.slots[k].Idle?
  {
    hide Reachable;
    if n == 0 {
      t := s;
    } else {
      var before := PassMany(c, event, s, n - 1);
      t := PassOne(c, before, n - 1, event);
    }
  }

  lemma {:induction false} AllInFlight(slots: seq<Slot>)
    requires forall k :: 0 <= k < |slots| ==> slots[k].Sending?
    ensures InFlight(slots) == |slots|
  {
    if slots != [] {
      AllInFlight(slots[..|slots| - 1]);
    }
  }

  /** The bound is reached: P tasks can have max + P - 1 emails sent or under way in one minute. */
  lemma BoundIsReached(c: Config, event: Event, tasks: nat) returns (s: State)
    requires c.maxPerMinute >= 1 && tasks >= 1
    ensures Reachable(c, s) && |s.slots| == tasks && Load(s) == c.maxPerMinute + tasks - 1
  {
    hide Reachable;
    var sent := SendSome(c, event, tasks, c.maxPerMinute - 1);
    s := PassMany(c, event, sent, tasks);
    AllInFlight(s.slots);
  }
}
