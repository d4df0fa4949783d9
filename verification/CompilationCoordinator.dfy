/**
 * worker/compilation-coordinator.ts: one lock and result slot per cache key, shared by all workers.
 *
 * /complete and /fail test inFlight, then wait for the request body, and only then write, so each of them is two
 * atomic turns with anything in between. /wait polls every 100 ms. The state is held in memory only, so it is lost
 * when the runtime evicts the object. The class below runs those turns on its fields; the system of all clients,
 * pending bodies, waiters and evictions is the state machine in the second half.
 */
module CompilationCoordinator {
  import opened Options

  /** compilationState. */
  datatype Core = Core(inFlight: bool, startedAt: Option<int>, result: Option<string>, error: Option<string>,
                       waiters: int)

  const INITIAL := Core(false, None, None, None, 0)

  /** maxWaitMs; the poll interval is 100 ms. */
  const MAX_WAIT_MS := 30000

  /** What /wait answers; FailureHit is the 500 answer made from the stored error, parsed or not. */
  datatype Answer = ResultHit(body: string) | FailureHit(body: string) | NoResult | Timeout

  datatype Kind = Completes | Fails

  /** The atomic turns of the handlers. */
  datatype Turn =
    | TryAcquire(now: int)
    | CheckInFlight
    | Write(kind: Kind, body: string)
    | WaiterEnters
    | WaiterLeaves

  function Acquired(c: Core, now: int): Core {
    if c.inFlight then c else Core(true, Some(now), None, None, c.waiters)
  }

  function Written(c: Core, kind: Kind, body: string): Core {
    match kind
    case Completes => c.(inFlight := false, result := Some(body), error := None)
    case Fails => c.(inFlight := false, error := Some(body), result := None)
  }

  function After(c: Core, t: Turn): Core {
    match t
    case TryAcquire(now) => Acquired(c, now)
    case CheckInFlight => c
    case Write(kind, body) => Written(c, kind, body)
    case WaiterEnters => c.(waiters := c.waiters + 1)
    case WaiterLeaves => c.(waiters := c.waiters - 1)
  }

  function AfterAll(c: Core, ts: seq<Turn>): Core
    decreases |ts|
  {
    if ts == [] then c else AfterAll(After(c, ts[0]), ts[1..])
  }

  /** Turns take effect one after the other. */
  lemma {:induction false} TurnsTakeEffectInOrder(c: Core, ts: seq<Turn>, t: Turn)
    ensures AfterAll(c, ts + [t]) == After(AfterAll(c, ts), t)
    decreases |ts|
  {
    if ts == [] {
      assert [] + [t] == [t] && [t][1..] == [];
    } else {
      assert (ts + [t])[0] == ts[0] && (ts + [t])[1..] == ts[1..] + [t];
      TurnsTakeEffectInOrder(After(c, ts[0]), ts[1..], t);
    }
  }

  /** An absent or empty body is falsy. */
  predicate Truthy(body: Option<string>) {
    body.Some? && body.value != ""
  }

  /** One pass through the polling loop: None means sleep and try again. */
  function Poll(c: Core, elapsed: int): Option<Answer> {
    if elapsed >= MAX_WAIT_MS then Some(Timeout)
    else if Truthy(c.result) then Some(ResultHit(c.result.value))
    else if Truthy(c.error) then Some(FailureHit(c.error.value))
    else if !c.inFlight then Some(NoResult)
    else None
  }

  /** A check that leads to another sleep saw a round in flight and time left. */
  ghost predicate Sleeps(c: Core, elapsed: int) {
    Poll(c, elapsed) == None && c.inFlight && elapsed < MAX_WAIT_MS
  }

  /** What a waiter finds at its i-th check: c on arrival, with the turns of others(j) run during sleep j. */
  function CoreAtCheck(c: Core, others: nat -> seq<Turn>, i: nat): Core {
    if i == 0 then After(c, WaiterEnters) else AfterAll(CoreAtCheck(c, others, i - 1), others(i - 1))
  }

  /** Each of the first n checks led to another sleep. */
  ghost predicate SleepsThrough(c: Core, started: int, clock: nat -> int, others: nat -> seq<Turn>, n: nat) {
    n == 0 || (SleepsThrough(c, started, clock, others, n - 1)
               && Sleeps(CoreAtCheck(c, others, n - 1), clock(n - 1) - started))
  }

  /** A waiter that slept saw a round in flight, with time left, at every earlier check; so a timeout means just that. */
  lemma {:induction false} SleptWhileInFlight(c: Core, started: int, clock: nat -> int, others: nat -> seq<Turn>, n: nat)
    requires SleepsThrough(c, started, clock, others, n)
    ensures forall i: nat :: i < n ==> CoreAtCheck(c, others, i).inFlight && clock(i) - started < 30000
  {
    if n > 0 {
      SleptWhileInFlight(c, started, clock, others, n - 1);
    }
  }

  class Coordinator {
    var inFlight: bool
    var startedAt: Option<int>
    var result: Option<string>
    var error: Option<string>
    var waiters: int

    ghost function View(): Core
      reads this
    {
      Core(inFlight, startedAt, result, error, waiters)
    }

    constructor ()
      ensures View() == INITIAL
    {
      inFlight, startedAt, result, error, waiters := false, None, None, None, 0;
    }

    /** /acquire: true is 200, false is 409. */
    method HandleAcquire(now: int) returns (acquired: bool)
      modifies this
      ensures acquired == !old(inFlight) && inFlight && waiters == old(waiters)
      ensures acquired ==> startedAt == Some(now) && result == None && error == None
      ensures View() == After(old(View()), TryAcquire(now))
    {
      if inFlight {
        return false;
      }
      inFlight, startedAt, result, error := true, Some(now), None, None;
      return true;
    }

    /** The first turn of /complete and of /fail: false is the 400 answer. */
    method CheckRunning() returns (proceeds: bool)
      ensures proceeds == inFlight
    {
      proceeds := inFlight;
    }

    /** The second turn of /complete. */
    method FinishComplete(body: string)
      modifies this
      ensures View() == After(old(View()), Write(Completes, body))
      ensures !inFlight && result == Some(body) && error == None && waiters == old(waiters)
    {
      inFlight := false;
      result := Some(body);
      error := None;
    }

    /** The second turn of /fail. */
    method FinishFail(body: string)
      modifies this
      ensures View() == After(old(View()), Write(Fails, body))
      ensures !inFlight && result == None && error == Some(body) && waiters == old(waiters)
    {
      inFlight := false;
      error := Some(body);
      result := None;
    }

    /** The turns that other requests take while a waiter sleeps. */
    method Interfere(ts: seq<Turn>)
      modifies this
      ensures View() == AfterAll(old(View()), ts)
    {
      var i := 0;
      while i < |ts|
        invariant 0 <= i <= |ts|
        invariant AfterAll(View(), ts[i..]) == AfterAll(old(View()), ts)
      {
        match ts[i] {
          case TryAcquire(now) => var _ := HandleAcquire(now);
          case CheckInFlight => var _ := CheckRunning();
          case Write(kind, body) => if kind == Completes { FinishComplete(body); } else { FinishFail(body); }
          case WaiterEnters => waiters := waiters + 1;
          case WaiterLeaves => waiters := waiters - 1;
        }
        assert ts[i..][0] == ts[i] && ts[i..][1..] == ts[i + 1..];
        i := i + 1;
      }
    }

    /** The three tests of one pass through the polling loop. */
    method Look() returns (found: Option<Answer>)
      ensures found == Poll(View(), 0)
    {
      if result.Some? && result.value != "" {
        return Some(ResultHit(result.value));
      }
      if error.Some? && error.value != "" {
        return Some(FailureHit(error.value));
      }
      return if !inFlight then Some(NoResult) else None;
    }

    /**
     * /wait, with clock(i) the time at its i-th check (a sleep takes at least 100 ms) and others(i) what happens during
     * its i-th sleep. It sleeps at most 300 times whatever the others do, every check before the answer saw a round in
     * flight, and on every exit the waiter is uncounted and nothing else is touched.
     */
    method HandleWait(started: int, clock: nat -> int, others: nat -> seq<Turn>) returns (answer: Answer, sleeps: nat)
      requires forall i: nat :: clock(i) >= started + i * 100
      modifies this
      ensures sleeps <= 300
      ensures answer == Timeout <==> clock(sleeps) - started >= 30000
      ensures Poll(CoreAtCheck(old(View()), others, sleeps), clock(sleeps) - started) == Some(answer)
      ensures SleepsThrough(old(View()), started, clock, others, sleeps)
      ensures View() == After(CoreAtCheck(old(View()), others, sleeps), WaiterLeaves)
    {
      ghost var c := View();
      waiters := waiters + 1;
      sleeps := 0;
      while clock(sleeps) - started < MAX_WAIT_MS
        invariant clock(sleeps) - started >= sleeps * 100
        invariant sleeps <= 300
        invariant View() == CoreAtCheck(c, others, sleeps)
        invariant SleepsThrough(c, started, clock, others, sleeps)
        decreases 300 - sleeps
      {
        var found := Look();
        if found.Some? {
          answer := found.value;
          waiters := waiters - 1;
          return;
        }
        Interfere(others(sleeps));
        sleeps := sleeps + 1;
      }
      answer := Timeout;
      waiters := waiters - 1;
    }
  }

  // ---------------------------------------------------------------- the system of all requests

  datatype Settlement = Settlement(client: nat, kind: Kind)

  datatype Waiter = Waiter(started: int, polls: nat)

  /**
   * The object together with the requests it has open: bodies not yet received (settling), active /wait requests
   * (waiting), and the clients that were granted the lock and whose own settlement has not been written (holders).
   */
  datatype System = System(core: Core, settling: map<nat, Settlement>, waiting: map<nat, Waiter>, holders: set<nat>)

  const START := System(INITIAL, map[], map[], {})

  datatype Step =
    | Acquire(client: nat, now: int)
    | BeginSettling(request: nat, client: nat, kind: Kind)
    | FinishSettling(request: nat, body: string)
    | LoseBody(request: nat)
    | EnterWait(waiter: nat, started: int, now: int)
    | PollAgain(waiter: nat, now: int)
    | Evict

  /**
   * Request identities are fresh, a body arrives once, and a sleep lasts at least its interval. The object may be
   * evicted at any time: after inactivity, or with the requests it has open, which then get no answer from it.
   */
  predicate Enabled(sys: System, step: Step) {
    match step
    case Acquire(_, _) => true
    case BeginSettling(r, _, _) => r !in sys.settling
    case FinishSettling(r, _) => r in sys.settling
    case LoseBody(r) => r in sys.settling
    case EnterWait(w, started, now) => w !in sys.waiting && started <= now
    case PollAgain(w, now) =>
      w in sys.waiting && now - sys.waiting[w].started >= sys.waiting[w].polls * 100
    case Evict => true
  }

  /** A waiter's check: it leaves with an answer or sleeps again. */
  function Checked(sys: System, w: nat, waiter: Waiter, now: int): System {
    if Poll(sys.core, now - waiter.started).Some?
    then sys.(core := After(sys.core, WaiterLeaves), waiting := sys.waiting - {w})
    else sys.(waiting := sys.waiting[w := waiter.(polls := waiter.polls + 1)])
  }

  function Next(sys: System, step: Step): System
    requires Enabled(sys, step)
  {
    match step
    case Acquire(client, now) =>
      System(After(sys.core, TryAcquire(now)), sys.settling, sys.waiting,
             if sys.core.inFlight then sys.holders else sys.holders + {client})
    case BeginSettling(r, client, kind) =>
      if sys.core.inFlight then sys.(settling := sys.settling[r := Settlement(client, kind)]) else sys
    case FinishSettling(r, body) =>
      System(After(sys.core, Write(sys.settling[r].kind, body)), sys.settling - {r}, sys.waiting,
             sys.holders - {sys.settling[r].client})
    case LoseBody(r) => sys.(settling := sys.settling - {r})
    case EnterWait(w, started, now) =>
      Checked(sys.(core := After(sys.core, WaiterEnters)), w, Waiter(started, 0), now)
    case PollAgain(w, now) => Checked(sys, w, sys.waiting[w], now)
    case Evict => System(INITIAL, map[], map[], sys.holders)
  }

  predicate Run(sys: System, steps: seq<Step>)
    decreases |steps|
  {
    steps == [] || (Enabled(sys, steps[0]) && Run(Next(sys, steps[0]), steps[1..]))
  }

  function End(sys: System, steps: seq<Step>): System
    requires Run(sys, steps)
    decreases |steps|
  {
    if steps == [] then sys else End(Next(sys, steps[0]), steps[1..])
  }

  // ---------------------------------------------------------------- with no client discipline

  /** What happened to the lock: rounds granted, completed and failed, and everything forgotten. */
  datatype Effect = Granted(now: int) | Completed(body: string) | Failed(body: string) | Forgotten

  function EffectOf(sys: System, step: Step): seq<Effect>
    requires Enabled(sys, step)
  {
    match step
    case Acquire(_, now) => if sys.core.inFlight then [] else [Granted(now)]
    case FinishSettling(r, body) => if sys.settling[r].kind == Completes then [Completed(body)] else [Failed(body)]
    case Evict => [Forgotten]
    case _ => []
  }

  function Effects(sys: System, steps: seq<Step>): seq<Effect>
    requires Run(sys, steps)
    decreases |steps|
  {
    if steps == [] then [] else EffectOf(sys, steps[0]) + Effects(Next(sys, steps[0]), steps[1..])
  }

  /** The time of the last grant that the object remembers. */
  function LastGrant(effects: seq<Effect>): Option<int>
    decreases |effects|
  {
    if effects == [] then None
    else match effects[|effects| - 1]
      case Granted(now) => Some(now)
      case Forgotten => None
      case _ => LastGrant(effects[..|effects| - 1])
  }

  /** The effects since the last eviction. */
  function Remembered(effects: seq<Effect>): seq<Effect>
    decreases |effects|
  {
    if effects == [] || effects[|effects| - 1].Forgotten? then []
    else Remembered(effects[..|effects| - 1]) + [effects[|effects| - 1]]
  }

  /** The fields, as the history of effects determines them. */
  ghost predicate Reflects(c: Core, effects: seq<Effect>) {
    && c.startedAt == LastGrant(effects)
    && if effects == [] then !c.inFlight && c.result == None && c.error == None
       else match effects[|effects| - 1]
         case Granted(_) => c.inFlight && c.result == None && c.error == None
         case Completed(body) => !c.inFlight && c.result == Some(body) && c.error == None
         case Failed(body) => !c.inFlight && c.result == None && c.error == Some(body)
         case Forgotten => !c.inFlight && c.result == None && c.error == None
  }

  lemma StepReflects(sys: System, past: seq<Effect>, step: Step)
    requires Enabled(sys, step) && Reflects(sys.core, past)
    ensures Reflects(Next(sys, step).core, past + EffectOf(sys, step))
  {
    var past' := past + EffectOf(sys, step);
    if EffectOf(sys, step) == [] {
      assert past' == past;
    } else {
      assert past'[..|past'| - 1] == past;
    }
  }

  lemma {:induction false} RunReflects(sys: System, past: seq<Effect>, steps: seq<Step>)
    requires Run(sys, steps) && Reflects(sys.core, past)
    ensures Reflects(End(sys, steps).core, past + Effects(sys, steps))
    decreases |steps|
  {
    if steps == [] {
      assert past + [] == past;
    } else {
      var sys', past' := Next(sys, steps[0]), past + EffectOf(sys, steps[0]);
      assert Reflects(sys'.core, past') by { StepReflects(sys, past, steps[0]); }
      RunReflects(sys', past', steps[1..]);
      assert past + Effects(sys, steps) == past' + Effects(sys', steps[1..]);
    }
  }

  lemma {:induction false} RunCountsWaiters(sys: System, steps: seq<Step>)
    requires Run(sys, steps) && sys.core.waiters == |sys.waiting|
    ensures End(sys, steps).core.waiters == |End(sys, steps).waiting|
    decreases |steps|
  {
    if steps != [] {
      WaitersCounted(sys, steps[0]);
      RunCountsWaiters(Next(sys, steps[0]), steps[1..]);
    }
  }

  lemma RemovalSize<K, V>(m: map<K, V>, k: K)
    ensures |m - {k}| == if k in m then |m| - 1 else |m|
  {
    assert (m - {k}).Keys == m.Keys - {k};
    assert |(m - {k}).Keys| == |m - {k}| && |m.Keys| == |m|;
  }

  lemma UpdateSize<K, V>(m: map<K, V>, k: K, v: V)
    ensures |m[k := v]| == if k in m then |m| else |m| + 1
  {
    assert m[k := v].Keys == m.Keys + {k};
    assert |m[k := v].Keys| == |m[k := v]| && |m.Keys| == |m|;
  }

  lemma CheckedCount(sys: System, w: nat, waiter: Waiter, now: int)
    requires sys.core.waiters == |sys.waiting - {w}| + 1
    ensures Checked(sys, w, waiter, now).core.waiters == |Checked(sys, w, waiter, now).waiting|
  {
    RemovalSize(sys.waiting, w);
    UpdateSize(sys.waiting, w, waiter.(polls := waiter.polls + 1));
  }

  lemma WaitersCounted(sys: System, step: Step)
    requires Enabled(sys, step) && sys.core.waiters == |sys.waiting|
    ensures Next(sys, step).core.waiters == |Next(sys, step).waiting|
  {
    match step {
      case EnterWait(w, started, now) =>
        RemovalSize(sys.waiting, w);
        CheckedCount(sys.(core := After(sys.core, WaiterEnters)), w, Waiter(started, 0), now);
      case PollAgain(w, now) =>
        RemovalSize(sys.waiting, w);
        CheckedCount(sys, w, sys.waiting[w], now);
      case _ =>
    }
  }

  /**
   * Under every interleaving, with evictions anywhere and no discipline at all, the fields are determined by the last
   * effect: while a round is in flight neither result nor error is stored, the two are never stored together, and
   * waiters is the number of /wait requests still active.
   */
  lemma FieldsReflectHistory(steps: seq<Step>)
    requires Run(START, steps)
    ensures var sys := End(START, steps);
            && Reflects(sys.core, Effects(START, steps))
            && (sys.core.inFlight ==> sys.core.result == None && sys.core.error == None)
            && !(sys.core.result.Some? && sys.core.error.Some?)
            && sys.core.waiters == |sys.waiting|
  {
    RunReflects(START, [], steps);
    RunCountsWaiters(START, steps);
    assert [] + Effects(START, steps) == Effects(START, steps);
  }

  /**
   * What a waiter is told at any point of any run: a result is the body of the latest completion with no grant, no
   * failure and no eviction since, and it is not empty; a failure likewise; a waiter sleeps or times out only on a
   * round in flight or on the clock; and "no result" means exactly that nothing has happened since the start or the
   * last eviction, or that the last body was empty.
   */
  lemma AnswersAreTruthful(steps: seq<Step>, elapsed: int)
    requires Run(START, steps)
    ensures var sys := End(START, steps); var effects := Effects(START, steps); var answer := Poll(sys.core, elapsed);
            var last := if effects == [] then None else Some(effects[|effects| - 1]);
            && (answer == Some(Timeout) <==> elapsed >= 30000)
            && (elapsed < 30000 ==>
                  && (forall body :: answer == Some(ResultHit(body)) <==> last == Some(Completed(body)) && body != "")
                  && (forall body :: answer == Some(FailureHit(body)) <==> last == Some(Failed(body)) && body != "")
                  && (answer == None <==> last.Some? && last.value.Granted?)
                  && (answer == Some(NoResult) <==>
                        last in {None, Some(Forgotten), Some(Completed("")), Some(Failed(""))}))
  {
    FieldsReflectHistory(steps);
  }

  /** What the object remembers starts with a grant; with nothing remembered, nothing is in flight or settling. */
  ghost predicate RoundsAreGranted(sys: System, past: seq<Effect>) {
    if Remembered(past) == [] then !sys.core.inFlight && sys.settling == map[] else Remembered(past)[0].Granted?
  }

  lemma GrantsComeFirst(sys: System, past: seq<Effect>, step: Step)
    requires Enabled(sys, step) && RoundsAreGranted(sys, past)
    ensures RoundsAreGranted(Next(sys, step), past + EffectOf(sys, step))
  {
    var past' := past + EffectOf(sys, step);
    if EffectOf(sys, step) == [] {
      assert past' == past;
    } else {
      assert past'[..|past'| - 1] == past;
    }
  }

  lemma {:induction false} RoundsStayGranted(sys: System, past: seq<Effect>, steps: seq<Step>)
    requires Run(sys, steps) && RoundsAreGranted(sys, past)
    ensures RoundsAreGranted(End(sys, steps), past + Effects(sys, steps))
    decreases |steps|
  {
    if steps == [] {
      assert past + [] == past;
    } else {
      var sys', past' := Next(sys, steps[0]), past + EffectOf(sys, steps[0]);
      GrantsComeFirst(sys, past, steps[0]);
      RoundsStayGranted(sys', past', steps[1..]);
      assert past + Effects(sys, steps) == past' + Effects(sys', steps[1..]);
    }
  }

  /** Everything remembered happened, and the last effect is remembered unless it is an eviction. */
  lemma {:induction false} RememberedHappened(effects: seq<Effect>)
    ensures forall effect <- Remembered(effects) :: effect in effects
    ensures Remembered(effects) != [] ==> Remembered(effects)[|Remembered(effects)| - 1] == effects[|effects| - 1]
    decreases |effects|
  {
    if effects != [] && !effects[|effects| - 1].Forgotten? {
      RememberedHappened(effects[..|effects| - 1]);
    }
  }

  /** With non-empty bodies, "no result" is answered exactly when no round has been granted since the last eviction. */
  lemma NoResultMeansNeverAcquired(steps: seq<Step>, elapsed: int)
    requires Run(START, steps) && elapsed < 30000
    requires forall step <- steps :: step.FinishSettling? ==> step.body != ""
    ensures Poll(End(START, steps).core, elapsed) == Some(NoResult)
            <==> forall effect <- Remembered(Effects(START, steps)) :: !effect.Granted?
  {
    var effects := Effects(START, steps);
    var remembered := Remembered(effects);
    AnswersAreTruthful(steps, elapsed);
    BodiesComeFromRequests(START, steps);
    RoundsStayGranted(START, [], steps);
    assert [] + effects == effects;
    RememberedHappened(effects);
    if remembered != [] {
      assert remembered[0] in remembered;
      assert effects[|effects| - 1] in effects;
    }
  }

  lemma {:induction false} BodiesComeFromRequests(sys: System, steps: seq<Step>)
    requires Run(sys, steps)
    requires forall step <- steps :: step.FinishSettling? ==> step.body != ""
    ensures forall effect <- Effects(sys, steps) :: effect != Completed("") && effect != Failed("")
    decreases |steps|
  {
    if steps != [] {
      assert steps[0] in steps;
      BodiesComeFromRequests(Next(sys, steps[0]), steps[1..]);
    }
  }

  /** An empty body hides a completed round: the waiter of a finished compilation is told that there is no result. */
  lemma EmptyBodyHidesTheResult()
    ensures var steps := [Acquire(1, 0), BeginSettling(0, 1, Completes), FinishSettling(0, "")];
            Run(START, steps)
            && Poll(End(START, steps).core, 0) == Some(NoResult)
            && Effects(START, steps) == [Granted(0), Completed("")]
  {
    var steps := [Acquire(1, 0), BeginSettling(0, 1, Completes), FinishSettling(0, "")];
    var s1 := Next(START, steps[0]);
    var s2 := Next(s1, steps[1]);
    var s3 := Next(s2, steps[2]);
    assert steps[1..] == [steps[1], steps[2]] && steps[1..][1..] == [steps[2]] && steps[1..][1..][1..] == [];
    assert End(s3, []) == s3 && End(s2, [steps[2]]) == s3;
    assert Effects(s2, [steps[2]]) == [Completed("")];
  }

  /** No waiter makes more than 300 polls before its last check, however the others interleave. */
  ghost predicate PollsBounded(sys: System) {
    forall w <- sys.waiting :: sys.waiting[w].polls <= 300
  }

  /** A waiter that sleeps again has made one more poll, and only its answer ends it. */
  lemma SleepingCountsAPoll(sys: System, w: nat, now: int)
    requires Enabled(sys, PollAgain(w, now))
    ensures var t := Next(sys, PollAgain(w, now));
            if Poll(sys.core, now - sys.waiting[w].started) == None
            then w in t.waiting && t.waiting[w].polls == sys.waiting[w].polls + 1
                 && t.waiting[w].started == sys.waiting[w].started && t.core == sys.core
            else w !in t.waiting && t.core == sys.core.(waiters := sys.core.waiters - 1)
  {
  }

  /** A request whose body never arrives ends without any effect on the lock. */
  lemma LostBodyChangesNothing(sys: System, r: nat)
    requires Enabled(sys, LoseBody(r))
    ensures var t := Next(sys, LoseBody(r));
            r !in t.settling && t.settling == sys.settling - {r} && t == sys.(settling := t.settling)
  {
  }

  lemma {:induction false} WaitersPollAtMost300Times(sys: System, steps: seq<Step>)
    requires Run(sys, steps) && PollsBounded(sys)
    ensures PollsBounded(End(sys, steps))
    decreases |steps|
  {
    if steps != [] {
      WaitersPollAtMost300Times(Next(sys, steps[0]), steps[1..]);
    }
  }

  // ---------------------------------------------------------------- mutual exclusion

  /** Mutual exclusion: no two clients hold the lock. */
  ghost predicate AtMostOneHolder(sys: System) {
    forall c <- sys.holders, d <- sys.holders :: c == d
  }

  ghost predicate AlwaysAtMostOne(sys: System, steps: seq<Step>)
    requires Run(sys, steps)
    decreases |steps|
  {
    AtMostOneHolder(sys) && (steps != [] ==> AlwaysAtMostOne(Next(sys, steps[0]), steps[1..]))
  }

  /** A grant while another client still holds the lock. */
  predicate GrantsOverHolder(sys: System, step: Step) {
    step.Acquire? && !sys.core.inFlight && sys.holders - {step.client} != {}
  }

  predicate NeverGrantsOver(sys: System, steps: seq<Step>)
    requires Run(sys, steps)
    decreases |steps|
  {
    steps == [] || (!GrantsOverHolder(sys, steps[0]) && NeverGrantsOver(Next(sys, steps[0]), steps[1..]))
  }

  lemma OneStepExcludes(sys: System, step: Step)
    requires Enabled(sys, step) && AtMostOneHolder(sys)
    ensures AtMostOneHolder(Next(sys, step)) <==> !GrantsOverHolder(sys, step)
  {
    if GrantsOverHolder(sys, step) {
      var holder :| holder in sys.holders - {step.client};
      assert holder in Next(sys, step).holders && step.client in Next(sys, step).holders;
    }
  }

  /** Two clients come to hold the lock in a run if and only if some acquire is granted while a holder remains. */
  lemma {:induction false} ExclusionFailsExactlyByGrant(sys: System, steps: seq<Step>)
    requires Run(sys, steps) && AtMostOneHolder(sys)
    ensures AlwaysAtMostOne(sys, steps) <==> NeverGrantsOver(sys, steps)
    decreases |steps|
  {
    if steps != [] {
      OneStepExcludes(sys, steps[0]);
      if AtMostOneHolder(Next(sys, steps[0])) {
        ExclusionFailsExactlyByGrant(Next(sys, steps[0]), steps[1..]);
      }
    }
  }

  /** At most one client holds the lock, and no acquire, whoever sends it next, could add a second one. */
  ghost predicate Guarded(sys: System) {
    && AtMostOneHolder(sys)
    && forall c: nat, now: int :: AtMostOneHolder(Next(sys, Acquire(c, now)))
  }

  ghost predicate AlwaysGuarded(sys: System, steps: seq<Step>)
    requires Run(sys, steps)
    decreases |steps|
  {
    Guarded(sys) && (steps != [] ==> AlwaysGuarded(Next(sys, steps[0]), steps[1..]))
  }

  /** A client that is not the only holder settles, or the object is evicted while a client holds the lock. */
  predicate Breaches(sys: System, step: Step)
    requires Enabled(sys, step)
  {
    match step
    case FinishSettling(r, _) => sys.holders - {sys.settling[r].client} != {}
    case Evict => sys.holders != {}
    case _ => false
  }

  predicate NeverBreached(sys: System, steps: seq<Step>)
    requires Run(sys, steps)
    decreases |steps|
  {
    steps == [] || (!Breaches(sys, steps[0]) && NeverBreached(Next(sys, steps[0]), steps[1..]))
  }

  lemma NatOutside(s: set<nat>) returns (n: nat)
    ensures n !in s
  {
    n := 0;
    var rest := s;
    while n in rest
      invariant forall m <- s :: m < n || m in rest
      decreases rest
    {
      rest := rest - {n};
      n := n + 1;
    }
  }

  /** Guarded means that the flag is up while there is a holder. */
  lemma GuardedExactly(sys: System)
    ensures Guarded(sys) <==> AtMostOneHolder(sys) && (sys.core.inFlight || sys.holders == {})
  {
    if AtMostOneHolder(sys) && !sys.core.inFlight && sys.holders != {} {
      var c := NatOutside(sys.holders);
      OneStepExcludes(sys, Acquire(c, 0));
      assert sys.holders - {c} == sys.holders;
      assert !AtMostOneHolder(Next(sys, Acquire(c, 0)));
    }
  }

  lemma StepStaysGuarded(sys: System, step: Step)
    requires Enabled(sys, step) && Guarded(sys)
    ensures Guarded(Next(sys, step)) <==> !Breaches(sys, step)
  {
    GuardedExactly(sys);
    GuardedExactly(Next(sys, step));
  }

  /**
   * The exact causes: at every point of a run at most one client holds the lock and nobody's acquire could change
   * that, if and only if nobody settles another client's round and no eviction happens while the lock is held.
   */
  lemma {:induction false} ExclusionIsLostExactlyByBreach(sys: System, steps: seq<Step>)
    requires Run(sys, steps) && Guarded(sys)
    ensures AlwaysGuarded(sys, steps) <==> NeverBreached(sys, steps)
    decreases |steps|
  {
    if steps != [] {
      StepStaysGuarded(sys, steps[0]);
      if Guarded(Next(sys, steps[0])) {
        ExclusionIsLostExactlyByBreach(Next(sys, steps[0]), steps[1..]);
      }
    }
  }

  /** What a breach leads to: those who still hold the lock cannot settle, and the next acquire of another is granted. */
  lemma BreachLetsAnotherIn(sys: System, step: Step, c: nat, now: int)
    requires Enabled(sys, step) && Breaches(sys, step) && c !in sys.holders
    ensures var t := Next(sys, step);
            && (forall h <- t.holders, r, kind :: r !in t.settling ==> Next(t, BeginSettling(r, h, kind)) == t)
            && GrantsOverHolder(t, Acquire(c, now))
            && !AtMostOneHolder(Next(t, Acquire(c, now)))
  {
    var t := Next(sys, step);
    var h :| h in t.holders && h != c;
    assert {h, c} <= Next(t, Acquire(c, now)).holders;
  }

  /** Client discipline: only a holder settles, and never while a settlement of its own is still open. */
  predicate Disciplined(sys: System, step: Step) {
    step.BeginSettling? ==>
      && step.client in sys.holders
      && forall r <- sys.settling :: sys.settling[r].client != step.client
  }

  predicate DisciplinedRun(sys: System, steps: seq<Step>)
    requires Run(sys, steps)
    decreases |steps|
  {
    steps == [] || (Disciplined(sys, steps[0]) && DisciplinedRun(Next(sys, steps[0]), steps[1..]))
  }

  /** Every open settlement belongs to a holder, one each. */
  ghost predicate OwnSettlements(sys: System) {
    && (forall r <- sys.settling :: sys.settling[r].client in sys.holders)
    && (forall r <- sys.settling, q <- sys.settling :: sys.settling[r].client == sys.settling[q].client ==> r == q)
  }

  /** What a step does for a disciplined client: it is not refused, and it ends its own round. */
  ghost predicate Served(sys: System, step: Step)
    requires Enabled(sys, step)
  {
    && (step.BeginSettling? ==> step.request in Next(sys, step).settling)
    && (step.FinishSettling? ==> sys.holders == {sys.settling[step.request].client} && Next(sys, step).holders == {}
                                 && sys.core.inFlight && !Next(sys, step).core.inFlight)
  }

  ghost predicate AlwaysServed(sys: System, steps: seq<Step>)
    requires Run(sys, steps)
    decreases |steps|
  {
    steps == [] || (Served(sys, steps[0]) && AlwaysServed(Next(sys, steps[0]), steps[1..]))
  }

  /** The object is only ever evicted while nobody holds the lock. */
  predicate EvictedOnlyIdle(sys: System, steps: seq<Step>)
    requires Run(sys, steps)
    decreases |steps|
  {
    steps == [] || ((steps[0].Evict? ==> sys.holders == {}) && EvictedOnlyIdle(Next(sys, steps[0]), steps[1..]))
  }

  lemma {:induction false} DisciplinedFrom(sys: System, steps: seq<Step>)
    requires Run(sys, steps) && Guarded(sys) && OwnSettlements(sys) && DisciplinedRun(sys, steps)
    ensures AlwaysGuarded(sys, steps) <==> EvictedOnlyIdle(sys, steps)
    ensures EvictedOnlyIdle(sys, steps) ==> AlwaysAtMostOne(sys, steps) && AlwaysServed(sys, steps)
    decreases |steps|
  {
    if steps != [] {
      var step, sys' := steps[0], Next(sys, steps[0]);
      StepStaysGuarded(sys, step);
      DisciplinedStep(sys, step);
      if Guarded(sys') {
        DisciplinedFrom(sys', steps[1..]);
      }
    }
  }

  lemma DisciplinedStep(sys: System, step: Step)
    requires Enabled(sys, step) && Guarded(sys) && OwnSettlements(sys) && Disciplined(sys, step)
    ensures OwnSettlements(Next(sys, step)) && Served(sys, step)
    ensures Breaches(sys, step) <==> step.Evict? && sys.holders != {}
  {
    GuardedExactly(sys);
    if step.FinishSettling? {
      var c := sys.settling[step.request].client;
      assert sys.holders == {c};
      assert Next(sys, step).settling.Keys == {};
    }
  }

  /**
   * Mutual exclusion: if only lock holders settle, one settlement at a time, then under every interleaving of the
   * two-turn handlers the lock is guarded throughout if and only if no eviction happens while it is held; and then
   * at most one client holds it, no settlement is refused, and each ends its own round.
   */
  lemma MutualExclusion(steps: seq<Step>)
    requires Run(START, steps) && DisciplinedRun(START, steps)
    ensures AlwaysGuarded(START, steps) <==> EvictedOnlyIdle(START, steps)
    ensures EvictedOnlyIdle(START, steps) ==> AlwaysAtMostOne(START, steps) && AlwaysServed(START, steps)
  {
    GuardedExactly(START);
    DisciplinedFrom(START, steps);
  }

  /** One more step at the end of a run. */
  lemma {:induction false} RunExtends(sys: System, steps: seq<Step>, step: Step)
    requires Run(sys, steps) && Enabled(End(sys, steps), step)
    ensures Run(sys, steps + [step]) && End(sys, steps + [step]) == Next(End(sys, steps), step)
    decreases |steps|
  {
    var more := steps + [step];
    if steps == [] {
      assert more == [step] && more[1..] == [];
    } else {
      assert more[0] == steps[0] && more[1..] == steps[1..] + [step];
      RunExtends(Next(sys, steps[0]), steps[1..], step);
    }
  }

  /** Client 1 has two settlements past their check, and client 2 holds the lock. */
  lemma TwoPendingSettlements() returns (steps: seq<Step>)
    ensures Run(START, steps)
    ensures var sys := End(START, steps);
            sys.core.inFlight && sys.holders == {2} && 1 in sys.settling && sys.settling[1] == Settlement(1, Completes)
  {
    steps := [];
    RunExtends(START, steps, Acquire(1, 0));
    steps := steps + [Acquire(1, 0)];
    RunExtends(START, steps, BeginSettling(0, 1, Completes));
    steps := steps + [BeginSettling(0, 1, Completes)];
    RunExtends(START, steps, BeginSettling(1, 1, Completes));
    steps := steps + [BeginSettling(1, 1, Completes)];
    RunExtends(START, steps, FinishSettling(0, "a"));
    steps := steps + [FinishSettling(0, "a")];
    RunExtends(START, steps, Acquire(2, 5));
    steps := steps + [Acquire(2, 5)];
  }

  /** Without the discipline it fails: two settlements by one client, both past their check, let two clients in. */
  lemma DoubleCompletionBreaksExclusion() returns (steps: seq<Step>)
    ensures Run(START, steps) && End(START, steps).holders == {2, 3}
  {
    steps := TwoPendingSettlements();
    RunExtends(START, steps, FinishSettling(1, "b"));
    steps := steps + [FinishSettling(1, "b")];
    RunExtends(START, steps, Acquire(3, 6));
    steps := steps + [Acquire(3, 6)];
  }

  /**
   * The discipline is easy to miss: a client whose /complete was carried out, but whose answer was lost, sends /fail
   * as well. If another client was granted the lock meanwhile, that ends the other's round, and a third comes in.
   */
  lemma LostAnswerBreaksExclusion() returns (steps: seq<Step>)
    ensures Run(START, steps) && End(START, steps).holders == {2, 3}
    ensures forall step <- steps :: step.BeginSettling? ==> step.client == 1
  {
    steps := [];
    RunExtends(START, steps, Acquire(1, 0));
    steps := steps + [Acquire(1, 0)];
    RunExtends(START, steps, BeginSettling(0, 1, Completes));
    steps := steps + [BeginSettling(0, 1, Completes)];
    RunExtends(START, steps, FinishSettling(0, "a"));
    steps := steps + [FinishSettling(0, "a")];
    RunExtends(START, steps, Acquire(2, 5));
    steps := steps + [Acquire(2, 5)];
    RunExtends(START, steps, BeginSettling(1, 1, Fails));
    steps := steps + [BeginSettling(1, 1, Fails)];
    RunExtends(START, steps, FinishSettling(1, "b"));
    steps := steps + [FinishSettling(1, "b")];
    RunExtends(START, steps, Acquire(3, 6));
    steps := steps + [Acquire(3, 6)];
  }
}
