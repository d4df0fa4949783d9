/**
 * worker/rate-limiter-do.ts: the fixed-window rate limiter, one Durable Object per identity.
 *
 * The class RateLimiterDO is the object itself: fields in memory, partial writes to a durable store that
 * outlives it, one pending alarm. Each handler runs to completion before the next event is delivered (the
 * runtime's input gate), the runtime keeps one alarm per object, and the clock never goes back.
 */
module RateLimiter {
  import opened Options

  datatype Key = CountKey | ResetAtKey | LimitKey

  type Entries = map<Key, int>

  /** The three in-memory fields. resetAt == 0 means that no window is active. */
  datatype Window = Window(count: int, resetAt: int, limit: int)

  const IDLE := Window(0, 0, 0)

  datatype Reply = Reply(allowed: bool, limit: int, remaining: int, resetAt: int)

  datatype StatusReport = StatusReport(count: int, limit: int, resetAt: int, remaining: int, windowExpired: bool)

  /** Memory, durable entries and the pending alarm. */
  datatype State = State(mem: Window, entries: Entries, alarm: Option<int>)

  const FRESH := State(IDLE, map[], None)

  function Lookup(entries: Entries, k: Key): int {
    if k in entries then entries[k] else 0
  }

  /** What the constructor reads back when the object wakes up. */
  function Restore(entries: Entries): Window {
    Window(Lookup(entries, CountKey), Lookup(entries, ResetAtKey), Lookup(entries, LimitKey))
  }

  predicate Expired(w: Window, now: int) {
    w.resetAt == 0 || now > w.resetAt
  }

  /** IncrementRequestSchema: both numbers positive. */
  predicate WellFormed(maxRequests: int, windowSeconds: int) {
    maxRequests > 0 && windowSeconds > 0
  }

  /** One /increment handler. */
  function Increment(s: State, now: int, maxRequests: int, windowSeconds: int): (State, Reply) {
    if Expired(s.mem, now) then
      var end := now + windowSeconds * 1000;
      (State(Window(1, end, maxRequests),
             s.entries + map[CountKey := 1, ResetAtKey := end, LimitKey := maxRequests],
             Some(end + 1000)),
       Reply(true, maxRequests, maxRequests - 1, end))
    else
      var limitChanged := s.mem.limit != maxRequests;
      var full := s.mem.count >= maxRequests;
      var count := if full then s.mem.count else s.mem.count + 1;
      (State(Window(count, s.mem.resetAt, maxRequests),
             if limitChanged then s.entries + map[CountKey := count, LimitKey := maxRequests]
             else if full then s.entries
             else s.entries[CountKey := count],
             s.alarm),
       Reply(!full, maxRequests, if full then 0 else maxRequests - count, s.mem.resetAt))
  }

  /** Whether deleteAll() also drops the pending alarm depends on the runtime's compatibility date. */
  function Reset(s: State, dropsAlarm: bool): State {
    State(IDLE, map[], if dropsAlarm then None else s.alarm)
  }

  function FireAlarm(s: State): State {
    Reset(s.(alarm := None), true)
  }

  function Wake(s: State): State {
    s.(mem := Restore(s.entries))
  }

  function Report(w: Window, now: int): StatusReport {
    StatusReport(w.count, w.limit, w.resetAt,
                 if w.limit - w.count > 0 then w.limit - w.count else 0,
                 Expired(w, now))
  }

  // ---------------------------------------------------------------- the object

  /** state.storage: what survives hibernation. */
  class DurableStorage {
    var entries: Entries
    var alarm: Option<int>

    constructor ()
      ensures entries == map[] && alarm == None
    {
      entries, alarm := map[], None;
    }
  }

  class RateLimiterDO {
    var count: int
    var resetAt: int
    var limit: int
    const storage: DurableStorage

    ghost function View(): State
      reads this, storage
    {
      State(Window(count, resetAt, limit), storage.entries, storage.alarm)
    }

    /** Memory is exactly what a wake-up would restore. */
    ghost predicate Valid()
      reads this, storage
    {
      Durable(View())
    }

    /** Wake-up: restore the fields before the first request. */
    constructor (storage: DurableStorage)
      ensures Valid() && this.storage == storage && fresh(this)
      ensures View() == State(Restore(storage.entries), storage.entries, storage.alarm)
    {
      this.storage := storage;
      this.count := if CountKey in storage.entries then storage.entries[CountKey] else 0;
      this.resetAt := if ResetAtKey in storage.entries then storage.entries[ResetAtKey] else 0;
      this.limit := if LimitKey in storage.entries then storage.entries[LimitKey] else 0;
    }

    /** POST /increment; None is the 400 answer to a malformed body. */
    method PostIncrement(now: int, maxRequests: int, windowSeconds: int) returns (reply: Option<Reply>)
      requires Valid()
      modifies this, storage
      ensures Valid()
      ensures reply == None <==> maxRequests <= 0 || windowSeconds <= 0
      ensures !WellFormed(maxRequests, windowSeconds) ==> reply == None && View() == old(View())
      ensures WellFormed(maxRequests, windowSeconds) ==>
                (View(), reply) == (var (s, r) := Increment(old(View()), now, maxRequests, windowSeconds); (s, Some(r)))
    {
      if maxRequests <= 0 || windowSeconds <= 0 {
        return None;
      }
      var windowMs := windowSeconds * 1000;
      if resetAt == 0 || now > resetAt {
        count, resetAt, limit := 1, now + windowMs, maxRequests;
        storage.entries := storage.entries + map[CountKey := count, ResetAtKey := resetAt, LimitKey := limit];
        storage.alarm := Some(resetAt + 1000);
        return Some(Reply(true, maxRequests, maxRequests - 1, resetAt));
      }
      var limitChanged := limit != maxRequests;
      limit := maxRequests;
      if count >= maxRequests {
        if limitChanged {
          storage.entries := storage.entries + map[CountKey := count, LimitKey := limit];
        }
        return Some(Reply(false, maxRequests, 0, resetAt));
      }
      count := count + 1;
      if limitChanged {
        storage.entries := storage.entries + map[CountKey := count, LimitKey := limit];
      } else {
        storage.entries := storage.entries[CountKey := count];
      }
      return Some(Reply(true, maxRequests, maxRequests - count, resetAt));
    }

    /** GET /status. */
    method GetStatus(now: int) returns (report: StatusReport)
      ensures report == Report(View().mem, now)
    {
      var left := limit - count;
      report := StatusReport(count, limit, resetAt, if left > 0 then left else 0, resetAt == 0 || now > resetAt);
    }

    /** POST /reset. */
    method ResetCounter(dropsAlarm: bool)
      modifies this, storage
      ensures Valid() && View() == Reset(old(View()), dropsAlarm)
      ensures count == resetAt == limit == 0 && storage.entries == map[]
      ensures storage.alarm == if dropsAlarm then None else old(storage.alarm)
    {
      count, resetAt, limit := 0, 0, 0;
      storage.entries := map[];
      if dropsAlarm {
        storage.alarm := None;
      }
    }

    /** The runtime clears the pending alarm and calls alarm(). */
    method Alarm()
      modifies this, storage
      ensures Valid() && View() == FireAlarm(old(View()))
      ensures count == resetAt == limit == 0 && storage.entries == map[] && storage.alarm == None
    {
      storage.alarm := None;
      ResetCounter(true);
    }
  }

  // ---------------------------------------------------------------- runs

  /** Everything that can happen to one identity, in the order it happens. */
  datatype Event =
    | IncrementAt(now: int, maxRequests: int, windowSeconds: int)
    | StatusAt(now: int)
    | ResetAt(now: int, dropsAlarm: bool)
    | AlarmAt(now: int)
    | Hibernate

  /** What a client can see of one event. */
  datatype Entry =
    | Served(now: int, maxRequests: int, windowSeconds: int, reply: Reply)
    | Malformed(now: int)
    | Reported(now: int, report: StatusReport)
    | Cleared(now: int)

  function Step(s: State, e: Event): State {
    match e
    case IncrementAt(now, m, w) => if WellFormed(m, w) then Increment(s, now, m, w).0 else s
    case StatusAt(_) => s
    case ResetAt(_, dropsAlarm) => Reset(s, dropsAlarm)
    case AlarmAt(_) => FireAlarm(s)
    case Hibernate => Wake(s)
  }

  /** An expired window's counters are the only thing an alarm changes, so they are masked. */
  function Masked(r: StatusReport): StatusReport {
    if r.windowExpired then StatusReport(0, 0, 0, 0, true) else r
  }

  function Seen(s: State, e: Event): seq<Entry> {
    match e
    case IncrementAt(now, m, w) =>
      if WellFormed(m, w) then [Served(now, m, w, Increment(s, now, m, w).1)] else [Malformed(now)]
    case StatusAt(now) => [Reported(now, Masked(Report(s.mem, now)))]
    case ResetAt(now, _) => [Cleared(now)]
    case AlarmAt(_) => []
    case Hibernate => []
  }

  function Final(s: State, es: seq<Event>): State
    decreases |es|
  {
    if es == [] then s else Final(Step(s, es[0]), es[1..])
  }

  function Log(s: State, es: seq<Event>): seq<Entry>
    decreases |es|
  {
    if es == [] then [] else Seen(s, es[0]) + Log(Step(s, es[0]), es[1..])
  }

  /** The clock never goes back, and an alarm fires no earlier than it was set for. */
  predicate Legal(s: State, clock: int, es: seq<Event>)
    decreases |es|
  {
    es == [] || (
      var e := es[0];
      && (e.Hibernate? || clock <= e.now)
      && (e.AlarmAt? ==> s.alarm.Some? && s.alarm.value <= e.now)
      && Legal(Step(s, e), if e.Hibernate? then clock else e.now, es[1..]))
  }

  /** What the clients did: the run without hibernation and without alarms. */
  function ClientEvents(es: seq<Event>): seq<Event> {
    if es == [] then []
    else if es[0].Hibernate? || es[0].AlarmAt? then ClientEvents(es[1..])
    else [if es[0].ResetAt? then ResetAt(es[0].now, true) else es[0]] + ClientEvents(es[1..])
  }

  ghost predicate Durable(s: State) {
    s.mem == Restore(s.entries)
  }

  /** What holds between events: memory is durable, and an active window has its alarm set. */
  ghost predicate Invariant(s: State) {
    && Durable(s)
    && s.mem.resetAt >= 0
    && (s.mem.resetAt > 0 ==> s.mem.count >= 1 && s.alarm == Some(s.mem.resetAt + 1000))
    && (s.mem.resetAt == 0 ==> s.mem == IDLE)
  }

  lemma StepKeepsInvariant(s: State, e: Event)
    requires Invariant(s) && (e.Hibernate? || e.now >= 0)
    ensures Invariant(Step(s, e))
    ensures e.Hibernate? ==> Step(s, e) == s
  {
    if e.IncrementAt? && WellFormed(e.maxRequests, e.windowSeconds) {
      var s' := Step(s, e);
      assert Lookup(s'.entries, CountKey) == s'.mem.count;
      assert Lookup(s'.entries, LimitKey) == s'.mem.limit;
      assert Lookup(s'.entries, ResetAtKey) == s'.mem.resetAt;
    }
  }

  /** Hibernation loses the memory: what is there afterwards comes from storage alone. */
  lemma WakingReadsStorageOnly(s: State, t: State)
    requires s.entries == t.entries && s.alarm == t.alarm
    ensures Step(s, Hibernate) == Step(t, Hibernate)
    ensures Step(s, Hibernate).entries == s.entries && Step(s, Hibernate).mem == Restore(s.entries)
  {
  }

  /** After any run the fields equal what the constructor would read back from storage. */
  lemma {:induction false} MemoryIsAlwaysRestorable(s: State, clock: int, es: seq<Event>)
    requires Invariant(s) && clock >= 0 && Legal(s, clock, es)
    ensures Durable(Final(s, es)) && Wake(Final(s, es)) == Final(s, es)
    decreases |es|
  {
    if es != [] {
      StepKeepsInvariant(s, es[0]);
      MemoryIsAlwaysRestorable(Step(s, es[0]), if es[0].Hibernate? then clock else es[0].now, es[1..]);
    }
  }

  lemma {:induction false} FinalAppends(s: State, es: seq<Event>, e: Event)
    ensures Final(s, es + [e]) == Step(Final(s, es), e)
    decreases |es|
  {
    if es == [] {
      assert [] + [e] == [e] && [e][1..] == [];
    } else {
      assert (es + [e])[0] == es[0] && (es + [e])[1..] == es[1..] + [e];
      FinalAppends(Step(s, es[0]), es[1..], e);
    }
  }

  /** After the alarm, or a reset, nothing is left: not in memory, not in storage; and the alarm is used up. */
  lemma AlarmsAndResetsClearEverything(es: seq<Event>, now: int, dropsAlarm: bool)
    ensures Final(FRESH, es + [AlarmAt(now)]) == State(Window(0, 0, 0), map[], None)
    ensures var s := Final(FRESH, es + [ResetAt(now, dropsAlarm)]);
            s.mem == Window(0, 0, 0) && s.entries == map[] && (dropsAlarm ==> s.alarm == None)
  {
    FinalAppends(FRESH, es, AlarmAt(now));
    FinalAppends(FRESH, es, ResetAt(now, dropsAlarm));
  }

  /** The state with alarms (s) against the state without (t): equal, or s was cleared after t's window ended. */
  ghost predicate Similar(s: State, t: State, clock: int) {
    s.mem == t.mem || (s.mem == IDLE && t.mem.resetAt != 0 && clock > t.mem.resetAt)
  }

  lemma {:induction false} SimilarRuns(s: State, t: State, clock: int, es: seq<Event>)
    requires Invariant(s) && Invariant(t) && clock >= 0
    requires Similar(s, t, clock) && Legal(s, clock, es)
    ensures Log(s, es) == Log(t, ClientEvents(es))
    decreases |es|
  {
    if es != [] {
      var e, rest := es[0], es[1..];
      var clock' := if e.Hibernate? then clock else e.now;
      var s' := Step(s, e);
      StepKeepsInvariant(s, e);
      if e.Hibernate? || e.AlarmAt? {
        SimilarRuns(s', t, clock', rest);
      } else {
        var c := if e.ResetAt? then ResetAt(e.now, true) else e;
        var t' := Step(t, c);
        StepKeepsInvariant(t, c);
        assert Seen(s, e) == Seen(t, c);
        SimilarRuns(s', t', clock', rest);
        assert ClientEvents(es)[0] == c && ClientEvents(es)[1..] == ClientEvents(rest);
      }
    }
  }

  /**
   * Hibernation and alarms are invisible: two legal runs in which the clients did the same things at the same
   * times give the same replies, wherever the object hibernated and whichever alarms fired in either run.
   */
  lemma HibernationAndAlarmsAreInvisible(es: seq<Event>, fs: seq<Event>)
    requires Legal(FRESH, 0, es) && Legal(FRESH, 0, fs)
    requires ClientEvents(es) == ClientEvents(fs)
    ensures Log(FRESH, es) == Log(FRESH, ClientEvents(es)) == Log(FRESH, fs)
  {
    SimilarRuns(FRESH, FRESH, 0, es);
    SimilarRuns(FRESH, FRESH, 0, fs);
  }
}
