/**
 * What a client of worker/rate-limiter-do.ts can rely on, stated over the log of its own calls only: which call
 * opened the current window, how many calls were allowed since, and how many are allowed in any time interval.
 */
module RateLimiterHistory {
  import opened Options
  import opened RateLimiter

  function WindowEnd(e: Entry): int
    requires e.Served?
  {
    e.now + e.windowSeconds * 1000
  }

  /** The call that opened the window in force at the end of the log. */
  function Opener(log: seq<Entry>): (o: Option<nat>)
    ensures o.Some? ==> o.value < |log| && log[o.value].Served?
    decreases |log|
  {
    if log == [] then None
    else
      var past, last := log[..|log| - 1], log[|log| - 1];
      match last
      case Cleared(_) => None
      case Served(now, _, _, _) =>
        var o := Opener(past);
        if o.Some? && now <= WindowEnd(past[o.value]) then o else Some(|past|)
      case Malformed(_) => Opener(past)
      case Reported(_, _) => Opener(past)
  }

  predicate Grants(e: Entry) {
    e.Served? && e.reply.allowed
  }

  /** How many calls were allowed at position from or later. */
  function AllowedSince(log: seq<Entry>, from: nat): nat
    decreases |log|
  {
    if |log| <= from then 0
    else AllowedSince(log[..|log| - 1], from) + (if Grants(log[|log| - 1]) then 1 else 0)
  }

  /** The maxRequests of the latest well-formed call, allowed or not. */
  function LatestLimit(log: seq<Entry>): int
    decreases |log|
  {
    if log == [] then 0
    else if log[|log| - 1].Served? then log[|log| - 1].maxRequests
    else LatestLimit(log[..|log| - 1])
  }

  /** The reply and the status report that the log so far calls for. */
  ghost predicate Exact(log: seq<Entry>, e: Entry) {
    var o := Opener(log);
    var open := o.Some? && e.now <= WindowEnd(log[o.value]);
    match e
    case Served(now, m, _, reply) =>
      if open then
        var n := AllowedSince(log, o.value);
        reply == Reply(n < m, m, if n < m then m - n - 1 else 0, WindowEnd(log[o.value])) && reply.remaining >= 0
      else
        reply == Reply(true, m, m - 1, WindowEnd(e)) && reply.remaining >= 0
    case Reported(_, r) =>
      && r.windowExpired == !open
      && (open ==>
            var n, m := AllowedSince(log, o.value), LatestLimit(log);
            r == StatusReport(n, m, WindowEnd(log[o.value]), if n < m then m - n else 0, false))
    case _ => true
  }

  /** Client events in clock order, none before clock. */
  predicate Ordered(clock: int, cs: seq<Event>)
    decreases |cs|
  {
    cs == [] || (
      && !cs[0].Hibernate? && !cs[0].AlarmAt?
      && clock <= cs[0].now
      && Ordered(cs[0].now, cs[1..]))
  }

  lemma {:induction false} ClientEventsAreOrdered(s: State, clock: int, earlier: int, es: seq<Event>)
    requires earlier <= clock && Legal(s, clock, es)
    ensures Ordered(earlier, ClientEvents(es))
    decreases |es|
  {
    if es != [] {
      var e := es[0];
      if e.Hibernate? {
        ClientEventsAreOrdered(Step(s, e), clock, earlier, es[1..]);
      } else if e.AlarmAt? {
        ClientEventsAreOrdered(Step(s, e), e.now, earlier, es[1..]);
      } else {
        ClientEventsAreOrdered(Step(s, e), e.now, e.now, es[1..]);
        var c := if e.ResetAt? then ResetAt(e.now, true) else e;
        assert ClientEvents(es)[0] == c && ClientEvents(es)[1..] == ClientEvents(es[1..]);
      }
    }
  }

  /** The object's fields are a summary of the log. */
  ghost predicate Summarises(mem: Window, log: seq<Entry>) {
    match Opener(log)
    case None => mem == IDLE
    case Some(o) =>
      && mem.resetAt == WindowEnd(log[o]) > 0
      && mem.count == AllowedSince(log, o)
      && mem.limit == LatestLimit(log)
  }

  lemma SummaryStep(s: State, log: seq<Entry>, e: Event)
    requires Summarises(s.mem, log)
    requires !e.Hibernate? && !e.AlarmAt? && e.now >= 0
    ensures |Seen(s, e)| == 1 && Exact(log, Seen(s, e)[0])
    ensures Summarises(Step(s, e).mem, log + Seen(s, e))
  {
    var seen := Seen(s, e)[0];
    var log' := log + [seen];
    assert log'[..|log'| - 1] == log && log'[|log'| - 1] == seen;
    if seen.Served? && Opener(log') == Some(|log|) {
      assert AllowedSince(log', |log|) == 1;
    }
  }

  lemma {:induction false} ClientRunIsExact(s: State, log: seq<Entry>, clock: int, cs: seq<Event>)
    requires Summarises(s.mem, log) && clock >= 0 && Ordered(clock, cs)
    ensures forall i :: |log| <= i < |log + Log(s, cs)| ==> Exact((log + Log(s, cs))[..i], (log + Log(s, cs))[i])
    decreases |cs|
  {
    if cs != [] {
      var e := cs[0];
      SummaryStep(s, log, e);
      var log' := log + Seen(s, e);
      ClientRunIsExact(Step(s, e), log', e.now, cs[1..]);
      var full := log + Log(s, cs);
      assert full == log' + Log(Step(s, e), cs[1..]);
      assert full[..|log|] == log && full[|log|] == Seen(s, e)[0];
    }
  }

  /**
   * Refinement to the history: in every run, whatever the limits and window lengths of the calls, a call is allowed
   * exactly when fewer calls than its own maxRequests were allowed since the current window opened; rejected calls
   * are never counted, and limit, remaining and resetAt are exact. Status reports count the same calls against the
   * latest maxRequests.
   */
  lemma EveryReplyIsExact(es: seq<Event>)
    requires Legal(FRESH, 0, es)
    ensures var log := Log(FRESH, es); forall i :: 0 <= i < |log| ==> Exact(log[..i], log[i])
  {
    HibernationAndAlarmsAreInvisible(es, es);
    ClientEventsAreOrdered(FRESH, 0, 0, es);
    ClientRunIsExact(FRESH, [], 0, ClientEvents(es));
    assert [] + Log(FRESH, ClientEvents(es)) == Log(FRESH, es);
  }

  /** Whether the object has been emptied, by an alarm or a reset, since the last well-formed call. */
  function Emptied(before: bool, es: seq<Event>): bool
    decreases |es|
  {
    if es == [] then before
    else
      var after := match es[0]
        case IncrementAt(_, m, w) => if m > 0 && w > 0 then false else before
        case ResetAt(_, _) => true
        case AlarmAt(_) => true
        case StatusAt(_) => before
        case Hibernate => before;
      Emptied(after, es[1..])
  }

  /** An emptied object is idle; any other one still shows the last window, even after its end. */
  ghost predicate Shows(mem: Window, log: seq<Entry>, emptied: bool) {
    if emptied then mem == IDLE else Opener(log).Some? && Summarises(mem, log)
  }

  ghost predicate OverSince(log: seq<Entry>, clock: int) {
    Opener(log).Some? ==> clock > WindowEnd(log[Opener(log).value])
  }

  lemma ShowsStep(s: State, log: seq<Entry>, emptied: bool, clock: int, e: Event)
    requires Invariant(s) && clock >= 0 && Legal(s, clock, [e])
    requires Shows(s.mem, log, emptied) && (emptied ==> OverSince(log, clock))
    ensures var emptied' := Emptied(emptied, [e]); var log' := log + Seen(s, e);
            && Shows(Step(s, e).mem, log', emptied')
            && (emptied' ==> OverSince(log', if e.Hibernate? then clock else e.now))
  {
    assert Emptied(emptied, [e][1..]) == emptied;
    if e.Hibernate? || e.AlarmAt? {
      assert log + [] == log;
    } else {
      assert (log + Seen(s, e))[..|log|] == log;
      if !emptied {
        SummaryStep(s, log, e);
      } else if e.IncrementAt? && e.maxRequests > 0 && e.windowSeconds > 0 {
        var log' := log + Seen(s, e);
        assert Opener(log') == Some(|log|) && AllowedSince(log', |log|) == 1;
      }
    }
  }

  lemma {:induction false} ShowsThroughout(s: State, log: seq<Entry>, emptied: bool, clock: int, es: seq<Event>)
    requires Invariant(s) && clock >= 0 && Legal(s, clock, es)
    requires Shows(s.mem, log, emptied) && (emptied ==> OverSince(log, clock))
    ensures Shows(Final(s, es).mem, log + Log(s, es), Emptied(emptied, es))
    decreases |es|
  {
    if es == [] {
      assert log + [] == log;
    } else {
      var e := es[0];
      StepKeepsInvariant(s, e);
      ShowsStep(s, log, emptied, clock, e);
      assert [e][1..] == [];
      ShowsThroughout(Step(s, e), log + Seen(s, e), Emptied(emptied, [e]), if e.Hibernate? then clock else e.now, es[1..]);
      assert log + Log(s, es) == log + Seen(s, e) + Log(Step(s, e), es[1..]);
    }
  }

  /**
   * What /status answers at any moment of any run, expired windows included: zeros before the first well-formed call
   * and after an alarm or a reset; otherwise the last window, with the calls allowed in it, the latest maxRequests, the
   * window's end, what is left of the limit, and whether the end has passed.
   */
  lemma StatusIsExact(es: seq<Event>, now: int)
    requires Legal(FRESH, 0, es)
    ensures var report := Report(Final(FRESH, es).mem, now); var log := Log(FRESH, es);
            if Emptied(true, es) then report == StatusReport(0, 0, 0, 0, true)
            else
              && Opener(log).Some?
              && var o := Opener(log).value; var n, m := AllowedSince(log, o), LatestLimit(log);
                 report == StatusReport(n, m, log[o].now + log[o].windowSeconds * 1000, if n < m then m - n else 0,
                                        now > log[o].now + log[o].windowSeconds * 1000)
  {
    ShowsThroughout(FRESH, [], true, 0, es);
    assert [] + Log(FRESH, es) == Log(FRESH, es);
  }

  // ---------------------------------------------------------------- the rate bound

  /** Calls allowed in the closed interval from a to b. */
  function AllowedIn(log: seq<Entry>, a: int, b: int): nat {
    if log == [] then 0
    else (if Grants(log[0]) && a <= log[0].now <= b then 1 else 0) + AllowedIn(log[1..], a, b)
  }

  /** Every call has the same limit and window; nobody resets the counter. */
  predicate Steady(es: seq<Event>, limit: int, windowSeconds: int) {
    forall e <- es :: !e.ResetAt? && (e.IncrementAt? ==> e.maxRequests == limit && e.windowSeconds == windowSeconds)
  }

  /** How many windows of w milliseconds can open in gap milliseconds: the next one opens after the previous ends. */
  function Slots(gap: int, w: nat): nat
    decreases if gap > 0 then gap else 0
  {
    if gap <= 0 then 0 else 1 + Slots(gap - (w + 1), w)
  }

  lemma {:induction false} SlotsMonotone(g: int, h: int, w: nat)
    requires g <= h
    ensures Slots(g, w) <= Slots(h, w)
    decreases if g > 0 then g else 0
  {
    if g > 0 {
      SlotsMonotone(g - (w + 1), h - (w + 1), w);
    }
  }

  lemma {:induction false} SlotsBound(g: int, w: nat, n: nat)
    requires g <= n * (w + 1)
    ensures Slots(g, w) <= n
    decreases n
  {
    if n > 0 && g > 0 {
      assert n * (w + 1) == (n - 1) * (w + 1) + (w + 1);
      SlotsBound(g - (w + 1), w, n - 1);
    }
  }

  /** The calls that can still be allowed at or before b, given the fields and the clock. */
  function Budget(mem: Window, clock: int, limit: int, windowSeconds: nat, b: int): int {
    if Expired(mem, clock)
    then limit * Slots(b - (clock - 1), windowSeconds * 1000)
    else limit - mem.count + limit * Slots(b - mem.resetAt, windowSeconds * 1000)
  }

  lemma {:induction false} NothingAfter(s: State, clock: int, cs: seq<Event>, a: int, b: int)
    requires Ordered(clock, cs) && clock > b
    ensures AllowedIn(Log(s, cs), a, b) == 0
    decreases |cs|
  {
    if cs != [] {
      NothingAfter(Step(s, cs[0]), cs[0].now, cs[1..], a, b);
      LogHead(s, cs, a, b);
    }
  }

  lemma LogHead(s: State, cs: seq<Event>, a: int, b: int)
    requires cs != [] && !cs[0].Hibernate? && !cs[0].AlarmAt?
    ensures AllowedIn(Log(s, cs), a, b) == AllowedIn(Seen(s, cs[0]), a, b) + AllowedIn(Log(Step(s, cs[0]), cs[1..]), a, b)
  {
    assert Log(s, cs)[1..] == Log(Step(s, cs[0]), cs[1..]);
    assert Seen(s, cs[0])[1..] == [];
  }

  ghost predicate CountInRange(mem: Window, limit: int) {
    mem.resetAt >= 0 && (mem.resetAt > 0 ==> 1 <= mem.count <= limit)
  }

  lemma BudgetStep(s: State, clock: int, e: Event, limit: int, windowSeconds: nat, a: int, b: int)
    requires limit > 0 && windowSeconds > 0 && CountInRange(s.mem, limit)
    requires Steady([e], limit, windowSeconds) && !e.Hibernate? && !e.AlarmAt? && 0 <= clock <= e.now <= b
    ensures CountInRange(Step(s, e).mem, limit)
    ensures AllowedIn(Seen(s, e), a, b) + Budget(Step(s, e).mem, e.now, limit, windowSeconds, b)
            <= Budget(s.mem, clock, limit, windowSeconds, b)
  {
    assert e in [e];
    var w := windowSeconds * 1000;
    var floor := if Expired(s.mem, clock) then clock - 1 else s.mem.resetAt;
    if Expired(s.mem, e.now) {
      var next := Slots(b - e.now - w, w);
      SlotsMonotone(b - e.now + 1, b - floor, w);
      assert Slots(b - e.now + 1, w) == 1 + next;
      MulMonotone(limit, 1 + next, Slots(b - floor, w));
      assert limit * (1 + next) == limit + limit * next;
    }
  }

  lemma MulMonotone(x: int, m: int, n: int)
    requires x >= 0 && m <= n
    ensures x * m <= x * n
  {
  }

  lemma BudgetIsNotNegative(mem: Window, clock: int, limit: int, windowSeconds: nat, b: int)
    requires limit > 0 && windowSeconds > 0 && CountInRange(mem, limit)
    ensures Budget(mem, clock, limit, windowSeconds, b) >= 0
  {
    var from := if Expired(mem, clock) then clock - 1 else mem.resetAt;
    MulMonotone(limit, 0, Slots(b - from, windowSeconds * 1000));
  }

  lemma {:induction false} BudgetCoversTheFuture(s: State, clock: int, cs: seq<Event>, limit: int,
                                                 windowSeconds: nat, a: int, b: int)
    requires limit > 0 && windowSeconds > 0 && CountInRange(s.mem, limit)
    requires 0 <= clock && Ordered(clock, cs) && Steady(cs, limit, windowSeconds)
    ensures AllowedIn(Log(s, cs), a, b) <= Budget(s.mem, clock, limit, windowSeconds, b)
    decreases |cs|
  {
    if cs == [] {
      BudgetIsNotNegative(s.mem, clock, limit, windowSeconds, b);
    } else if cs[0].now > b {
      NothingAfter(s, cs[0].now, cs, a, b);
      BudgetIsNotNegative(s.mem, clock, limit, windowSeconds, b);
    } else {
      BudgetStep(s, clock, cs[0], limit, windowSeconds, a, b);
      BudgetCoversTheFuture(Step(s, cs[0]), cs[0].now, cs[1..], limit, windowSeconds, a, b);
      LogHead(s, cs, a, b);
    }
  }

  /**
   * The most calls that can be allowed in a closed interval of gap milliseconds: full windows from its first moment
   * on, or all but one call of a window that ends at its first moment, and full windows after that.
   */
  function Most(limit: nat, windowSeconds: nat, gap: nat): nat
    requires limit > 0
  {
    var fromStart := limit * Slots(gap + 1, windowSeconds * 1000);
    var afterOld := limit - 1 + limit * Slots(gap, windowSeconds * 1000);
    if fromStart > afterOld then fromStart else afterOld
  }

  /** The budget at a call inside the interval is within the maximum. */
  lemma BudgetInInterval(mem: Window, t: int, limit: nat, windowSeconds: nat, a: int, gap: nat)
    requires limit > 0 && windowSeconds > 0 && CountInRange(mem, limit) && a <= t
    ensures Budget(mem, t, limit, windowSeconds, a + gap) <= Most(limit, windowSeconds, gap)
  {
    var w, b := windowSeconds * 1000, a + gap;
    if Expired(mem, t) {
      SlotsMonotone(b - (t - 1), gap + 1, w);
      MulMonotone(limit, Slots(b - (t - 1), w), Slots(gap + 1, w));
    } else {
      SlotsMonotone(b - mem.resetAt, gap, w);
      MulMonotone(limit, Slots(b - mem.resetAt, w), Slots(gap, w));
    }
  }

  lemma {:induction false} ClientRunBound(s: State, clock: int, cs: seq<Event>, limit: int, windowSeconds: nat,
                                          a: int, b: int, bound: nat)
    requires limit > 0 && windowSeconds > 0 && CountInRange(s.mem, limit)
    requires forall mem: Window, t: int {:trigger Budget(mem, t, limit, windowSeconds, b)} ::
               CountInRange(mem, limit) && a <= t ==> Budget(mem, t, limit, windowSeconds, b) <= bound
    requires 0 <= clock && Ordered(clock, cs) && Steady(cs, limit, windowSeconds)
    ensures AllowedIn(Log(s, cs), a, b) <= bound
    decreases |cs|
  {
    if cs != [] {
      var t := cs[0].now;
      if t < a {
        BeforeTheInterval(s, cs[0], limit, windowSeconds, a, b);
        ClientRunBound(Step(s, cs[0]), t, cs[1..], limit, windowSeconds, a, b, bound);
        LogHead(s, cs, a, b);
      } else {
        BudgetCoversTheFuture(s, t, cs, limit, windowSeconds, a, b);
      }
    }
  }

  lemma BeforeTheInterval(s: State, e: Event, limit: int, windowSeconds: nat, a: int, b: int)
    requires limit > 0 && windowSeconds > 0 && CountInRange(s.mem, limit)
    requires Steady([e], limit, windowSeconds) && !e.Hibernate? && !e.AlarmAt? && 0 <= e.now < a
    ensures CountInRange(Step(s, e).mem, limit)
    ensures AllowedIn(Seen(s, e), a, b) == 0
  {
    assert e in [e];
  }

  lemma {:induction false} ClientEventsStaySteady(es: seq<Event>, limit: int, windowSeconds: int)
    requires Steady(es, limit, windowSeconds)
    ensures Steady(ClientEvents(es), limit, windowSeconds)
    decreases |es|
  {
    if es != [] {
      assert es[0] in es;
      ClientEventsStaySteady(es[1..], limit, windowSeconds);
    }
  }

  /**
   * The rate bound over arbitrary intervals: with a fixed limit and window and no reset, a closed interval of any
   * length holds no more than Most allowed calls, in every run with any hibernations and any alarms.
   */
  lemma RateMaximum(es: seq<Event>, limit: nat, windowSeconds: nat, a: int, gap: nat)
    requires limit > 0 && windowSeconds > 0
    requires Legal(FRESH, 0, es) && Steady(es, limit, windowSeconds)
    ensures AllowedIn(Log(FRESH, es), a, a + gap) <= Most(limit, windowSeconds, gap)
  {
    HibernationAndAlarmsAreInvisible(es, es);
    ClientEventsAreOrdered(FRESH, 0, 0, es);
    ClientEventsStaySteady(es, limit, windowSeconds);
    var b, bound := a + gap, Most(limit, windowSeconds, gap);
    forall mem: Window, t: int | CountInRange(mem, limit) && a <= t
      ensures Budget(mem, t, limit, windowSeconds, b) <= bound
    {
      BudgetInInterval(mem, t, limit, windowSeconds, a, gap);
    }
    ClientRunBound(FRESH, 0, ClientEvents(es), limit, windowSeconds, a, b, bound);
  }

  lemma {:induction false} SlotsExact(g: int, w: nat, n: nat)
    requires n >= 1 && (n - 1) * (w + 1) < g <= n * (w + 1)
    ensures Slots(g, w) == n
    decreases n
  {
    if n == 1 {
      assert Slots(g - (w + 1), w) == 0;
    } else {
      assert n * (w + 1) == (n - 1) * (w + 1) + (w + 1) && (n - 1) * (w + 1) == (n - 2) * (w + 1) + (w + 1);
      assert (n - 2) * (w + 1) >= 0;
      SlotsExact(g - (w + 1), w, n - 1);
    }
  }

  /** The maximum for k whole windows: at most (k+1)*limit - 1, and exactly that while k is at most the window's length. */
  lemma MostOfWholeWindows(limit: nat, windowSeconds: nat, k: nat)
    requires limit > 0 && windowSeconds > 0 && k >= 1
    ensures Most(limit, windowSeconds, k * (windowSeconds * 1000)) <= (k + 1) * limit - 1
    ensures k <= windowSeconds * 1000 ==> Most(limit, windowSeconds, k * (windowSeconds * 1000)) == (k + 1) * limit - 1
  {
    var w := windowSeconds * 1000;
    assert k * (w + 1) == k * w + k;
    SlotsBound(k * w, w, k);
    SlotsBound(k * w + 1, w, k);
    MulMonotone(limit, Slots(k * w, w), k);
    MulMonotone(limit, Slots(k * w + 1, w), k);
    assert (k + 1) * limit == limit * k + limit;
    if k <= w {
      assert (k - 1) * (w + 1) == k * w + k - w - 1;
      SlotsExact(k * w, w, k);
    }
  }

  /** In k whole windows no more than (k+1)*limit - 1 calls are allowed. */
  lemma RateBound(es: seq<Event>, limit: int, windowSeconds: nat, a: int, k: nat)
    requires limit > 0 && windowSeconds > 0 && k >= 1
    requires Legal(FRESH, 0, es) && Steady(es, limit, windowSeconds)
    ensures AllowedIn(Log(FRESH, es), a, a + k * (windowSeconds * 1000)) <= (k + 1) * limit - 1
  {
    RateMaximum(es, limit, windowSeconds, a, k * (windowSeconds * 1000));
    MostOfWholeWindows(limit, windowSeconds, k);
  }

  /** n calls at the same moment. */
  function Burst(now: int, n: nat, limit: int, windowSeconds: int): seq<Event> {
    if n == 0 then [] else [IncrementAt(now, limit, windowSeconds)] + Burst(now, n - 1, limit, windowSeconds)
  }

  lemma {:induction false} OrderedIsLegal(s: State, clock: int, cs: seq<Event>)
    requires Ordered(clock, cs)
    ensures Legal(s, clock, cs)
    decreases |cs|
  {
    if cs != [] {
      OrderedIsLegal(Step(s, cs[0]), cs[0].now, cs[1..]);
    }
  }

  lemma {:induction false} BurstIsOrdered(clock: int, now: int, n: nat, rest: seq<Event>, limit: int,
                                          windowSeconds: int)
    requires clock <= now && Ordered(now, rest)
    requires Steady(rest, limit, windowSeconds)
    ensures Ordered(clock, Burst(now, n, limit, windowSeconds) + rest)
    ensures Steady(Burst(now, n, limit, windowSeconds) + rest, limit, windowSeconds)
    decreases n
  {
    var all := Burst(now, n, limit, windowSeconds) + rest;
    if n == 0 {
      assert all == rest;
    } else {
      BurstIsOrdered(now, now, n - 1, rest, limit, windowSeconds);
      assert all[1..] == Burst(now, n - 1, limit, windowSeconds) + rest;
    }
  }

  /** One call that the window has room for, or that opens a window. */
  lemma RoomForOne(s: State, now: int, limit: int, windowSeconds: nat)
    requires windowSeconds > 0 && now >= 0 && limit > 0
    requires !Expired(s.mem, now) ==> s.mem.count < limit
    ensures var e := IncrementAt(now, limit, windowSeconds); var t := Step(s, e);
            && |Seen(s, e)| == 1 && Grants(Seen(s, e)[0]) && Seen(s, e)[0].now == now
            && !Expired(t.mem, now)
            && t.mem.count == (if Expired(s.mem, now) then 1 else s.mem.count + 1)
            && t.mem.resetAt == (if Expired(s.mem, now) then now + windowSeconds * 1000 else s.mem.resetAt)
  {
  }

  lemma {:induction false} BurstIsAllowed(s: State, now: int, n: nat, rest: seq<Event>, limit: int,
                                          windowSeconds: nat, a: int, b: int)
    requires windowSeconds > 0 && 0 <= now && a <= now <= b && limit > 0
    requires !Expired(s.mem, now) && s.mem.count + n <= limit
    ensures var t := Final(s, Burst(now, n, limit, windowSeconds));
            && t.mem.count == s.mem.count + n && t.mem.resetAt == s.mem.resetAt
            && AllowedIn(Log(s, Burst(now, n, limit, windowSeconds) + rest), a, b) == n + AllowedIn(Log(t, rest), a, b)
    decreases n
  {
    var burst := Burst(now, n, limit, windowSeconds);
    if n == 0 {
      assert burst + rest == rest;
    } else {
      BurstHead(s, now, n, rest, limit, windowSeconds, a, b);
      BurstIsAllowed(Step(s, burst[0]), now, n - 1, rest, limit, windowSeconds, a, b);
    }
  }

  /** The first call of a burst, when it is allowed. */
  lemma BurstHead(s: State, now: int, n: nat, rest: seq<Event>, limit: int, windowSeconds: nat, a: int, b: int)
    requires windowSeconds > 0 && 0 <= now && a <= now <= b && limit > 0 && n > 0
    requires !Expired(s.mem, now) ==> s.mem.count < limit
    ensures var e := IncrementAt(now, limit, windowSeconds); var t := Step(s, e);
            var burst, shorter := Burst(now, n, limit, windowSeconds), Burst(now, n - 1, limit, windowSeconds);
            && burst[0] == e && Final(s, burst) == Final(t, shorter)
            && AllowedIn(Log(s, burst + rest), a, b) == 1 + AllowedIn(Log(t, shorter + rest), a, b)
            && !Expired(t.mem, now)
            && t.mem.count == (if Expired(s.mem, now) then 1 else s.mem.count + 1)
            && t.mem.resetAt == (if Expired(s.mem, now) then now + windowSeconds * 1000 else s.mem.resetAt)
  {
    var e := IncrementAt(now, limit, windowSeconds);
    var all, shorter := Burst(now, n, limit, windowSeconds) + rest, Burst(now, n - 1, limit, windowSeconds);
    assert all[0] == e && all[1..] == shorter + rest;
    assert Burst(now, n, limit, windowSeconds)[1..] == shorter;
    RoomForOne(s, now, limit, windowSeconds);
    LogHead(s, all, a, b);
    assert Seen(s, e)[1..] == [];
  }

  /** A burst that fills a fresh window, and what comes after it. */
  lemma FullBurst(s: State, now: int, rest: seq<Event>, limit: nat, windowSeconds: nat, a: int, b: int)
    requires windowSeconds > 0 && 0 <= now && a <= now <= b && limit > 0 && Expired(s.mem, now)
    ensures var burst := Burst(now, limit, limit, windowSeconds); var t := Final(s, burst);
            && t.mem.resetAt == now + windowSeconds * 1000
            && AllowedIn(Log(s, burst + rest), a, b) == limit + AllowedIn(Log(t, rest), a, b)
  {
    BurstHead(s, now, limit, rest, limit, windowSeconds, a, b);
    BurstIsAllowed(Step(s, IncrementAt(now, limit, windowSeconds)), now, limit - 1, rest, limit, windowSeconds, a, b);
  }

  /** Full bursts from now to b, each one millisecond after the window of the one before. */
  function Bursts(now: int, b: int, limit: nat, windowSeconds: nat): seq<Event>
    decreases if now <= b then b - now + 1 else 0
  {
    if now > b then []
    else Burst(now, limit, limit, windowSeconds) + Bursts(now + windowSeconds * 1000 + 1, b, limit, windowSeconds)
  }

  lemma {:induction false} BurstsAreLegal(clock: int, now: int, b: int, limit: nat, windowSeconds: nat)
    requires clock <= now
    ensures Ordered(clock, Bursts(now, b, limit, windowSeconds))
    ensures Steady(Bursts(now, b, limit, windowSeconds), limit, windowSeconds)
    decreases if now <= b then b - now + 1 else 0
  {
    if now <= b {
      var next := now + windowSeconds * 1000 + 1;
      BurstsAreLegal(now, next, b, limit, windowSeconds);
      BurstIsOrdered(clock, now, limit, Bursts(next, b, limit, windowSeconds), limit, windowSeconds);
    }
  }

  /** The first of the bursts. */
  lemma BurstsHead(s: State, now: int, limit: nat, windowSeconds: nat, a: int, b: int)
    requires windowSeconds > 0 && limit > 0 && 0 <= now && a <= now <= b && Expired(s.mem, now)
    ensures var next := now + windowSeconds * 1000 + 1; var t := Final(s, Burst(now, limit, limit, windowSeconds));
            && Expired(t.mem, next)
            && AllowedIn(Log(s, Bursts(now, b, limit, windowSeconds)), a, b)
               == limit + AllowedIn(Log(t, Bursts(next, b, limit, windowSeconds)), a, b)
  {
    var rest := Bursts(now + windowSeconds * 1000 + 1, b, limit, windowSeconds);
    FullBurst(s, now, rest, limit, windowSeconds, a, b);
  }

  lemma SlotsHead(limit: nat, g: int, w: nat)
    requires g > 0
    ensures limit * Slots(g, w) == limit + limit * Slots(g - (w + 1), w)
  {
    var n := Slots(g - (w + 1), w);
    assert limit * (1 + n) == limit + limit * n;
  }

  lemma {:induction false} BurstsAreAllowed(s: State, now: int, limit: nat, windowSeconds: nat, a: int, b: int)
    requires windowSeconds > 0 && limit > 0 && 0 <= now && a <= now && Expired(s.mem, now)
    ensures AllowedIn(Log(s, Bursts(now, b, limit, windowSeconds)), a, b)
            == limit * Slots(b - now + 1, windowSeconds * 1000)
    decreases if now <= b then b - now + 1 else 0
  {
    if now <= b {
      var t := Final(s, Burst(now, limit, limit, windowSeconds));
      BurstsHead(s, now, limit, windowSeconds, a, b);
      BurstsAreAllowed(t, now + windowSeconds * 1000 + 1, limit, windowSeconds, a, b);
      SlotsHead(limit, b - now + 1, windowSeconds * 1000);
    }
  }

  /** One call at time 0, the rest of the limit when its window ends, and full bursts from then on. */
  function AfterOldWindow(b: int, limit: nat, windowSeconds: nat): seq<Event>
    requires limit > 0
  {
    var w := windowSeconds * 1000;
    Burst(0, 1, limit, windowSeconds)
    + (Burst(w, limit - 1, limit, windowSeconds) + Bursts(w + 1, b, limit, windowSeconds))
  }

  lemma AfterOldWindowIsLegal(b: int, limit: nat, windowSeconds: nat)
    requires limit > 0
    ensures Legal(FRESH, 0, AfterOldWindow(b, limit, windowSeconds))
    ensures Steady(AfterOldWindow(b, limit, windowSeconds), limit, windowSeconds)
  {
    var w := windowSeconds * 1000;
    var last := Bursts(w + 1, b, limit, windowSeconds);
    BurstsAreLegal(w, w + 1, b, limit, windowSeconds);
    BurstIsOrdered(0, w, limit - 1, last, limit, windowSeconds);
    BurstIsOrdered(0, 0, 1, Burst(w, limit - 1, limit, windowSeconds) + last, limit, windowSeconds);
    OrderedIsLegal(FRESH, 0, AfterOldWindow(b, limit, windowSeconds));
  }

  /** The rest of a window's limit at its end, then full bursts. */
  lemma RestAndBursts(s: State, w: int, limit: nat, windowSeconds: nat, b: int)
    requires limit > 0 && windowSeconds > 0 && w == windowSeconds * 1000 <= b
    requires s.mem.count == 1 && s.mem.resetAt == w
    ensures AllowedIn(Log(s, Burst(w, limit - 1, limit, windowSeconds) + Bursts(w + 1, b, limit, windowSeconds)), w, b)
            == limit - 1 + limit * Slots(b - w, w)
  {
    var last := Bursts(w + 1, b, limit, windowSeconds);
    BurstIsAllowed(s, w, limit - 1, last, limit, windowSeconds, w, b);
    BurstsAreAllowed(Final(s, Burst(w, limit - 1, limit, windowSeconds)), w + 1, limit, windowSeconds, w, b);
  }

  /** The first call falls before the interval, which starts when the window ends. */
  lemma AfterOldWindowAllows(limit: nat, windowSeconds: nat, b: int)
    requires limit > 0 && windowSeconds > 0 && windowSeconds * 1000 <= b
    ensures var w := windowSeconds * 1000;
            AllowedIn(Log(FRESH, AfterOldWindow(b, limit, windowSeconds)), w, b) == limit - 1 + limit * Slots(b - w, w)
  {
    var w, es := windowSeconds * 1000, AfterOldWindow(b, limit, windowSeconds);
    var first := IncrementAt(0, limit, windowSeconds);
    var rest := Burst(w, limit - 1, limit, windowSeconds) + Bursts(w + 1, b, limit, windowSeconds);
    assert Burst(0, 1, limit, windowSeconds) == [first];
    assert es[0] == first && es[1..] == rest;
    RoomForOne(FRESH, 0, limit, windowSeconds);
    LogHead(FRESH, es, w, b);
    RestAndBursts(Step(FRESH, first), w, limit, windowSeconds, b);
  }

  lemma BurstsReach(limit: nat, windowSeconds: nat, gap: nat) returns (es: seq<Event>)
    requires limit > 0 && windowSeconds > 0
    ensures Legal(FRESH, 0, es) && Steady(es, limit, windowSeconds)
    ensures AllowedIn(Log(FRESH, es), 0, 0 + gap) == limit * Slots(gap + 1, windowSeconds * 1000)
  {
    es := Bursts(0, gap, limit, windowSeconds);
    BurstsAreLegal(0, 0, gap, limit, windowSeconds);
    OrderedIsLegal(FRESH, 0, es);
    BurstsAreAllowed(FRESH, 0, limit, windowSeconds, 0, gap);
  }

  /** The maximum is exact: for every limit, window and interval length, some run reaches it in some interval. */
  lemma RateBoundIsReached(limit: nat, windowSeconds: nat, gap: nat) returns (es: seq<Event>, a: int)
    requires limit > 0 && windowSeconds > 0
    ensures Legal(FRESH, 0, es) && Steady(es, limit, windowSeconds)
    ensures AllowedIn(Log(FRESH, es), a, a + gap) == Most(limit, windowSeconds, gap)
  {
    var w := windowSeconds * 1000;
    if limit * Slots(gap + 1, w) > limit - 1 + limit * Slots(gap, w) {
      es := BurstsReach(limit, windowSeconds, gap);
      a := 0;
    } else {
      es, a := AfterOldWindow(w + gap, limit, windowSeconds), w;
      AfterOldWindowIsLegal(w + gap, limit, windowSeconds);
      AfterOldWindowAllows(limit, windowSeconds, w + gap);
    }
  }
}
