/**
 * worker/websocket.ts: the compilation sessions of one WebSocket connection.
 *
 * A compile handler awaits the compiler while other messages, cancellations, removal timers and the close event are
 * handled, and it keeps its session object even after the table forgot it. Timers remove by session id, whichever
 * session uses that id when they fire. What the compiler does, and when timers fire, is left open.
 */
module WebSocketSessions {
  import opened Options

  const MAX_CONCURRENT_COMPILATIONS := 3

  datatype Status = Running | Completed | Failed | Cancelled

  /** How an awaited compile ends; Breaks is an exception between the status update and the completion message. */
  datatype Settlement = Resolves | Rejects | Breaks

  datatype Kind = SaysStarted | SaysComplete | SaysError | SaysCancelled

  datatype Code = DuplicateSession | TooManyCompilations | SessionNotFound | InvalidSessionState

  /** A message about a session, told apart by its position in order of creation, or a refusal of a request. */
  datatype Outgoing = About(session: nat, kind: Kind) | Refusal(sessionId: string, code: Code)

  datatype Session = Session(name: string, status: Status)

  /**
   * Every session ever created, in order; the table state.sessions, by position in that order; the sessions whose
   * compile has not settled; the removal timers still pending, by the session that set them; all messages sent.
   */
  datatype State = State(sessions: seq<Session>, table: map<string, nat>, unsettled: set<nat>,
                         timers: multiset<nat>, outbox: seq<Outgoing>)

  const OPENED := State([], map[], {}, multiset{}, [])

  ghost predicate WellFormed(s: State) {
    && (forall id <- s.table :: s.table[id] < |s.sessions| && s.sessions[s.table[id]].name == id)
    && (forall n <- s.unsettled :: n < |s.sessions|)
    && (forall n <- s.timers :: n < |s.sessions|)
  }

  /** The sessions that the admission test counts. */
  ghost function RunningIds(s: State): set<string>
    requires WellFormed(s)
  {
    set id <- s.table | s.sessions[s.table[id]].status == Running
  }

  function Send(s: State, message: Outgoing): State {
    s.(outbox := s.outbox + [message])
  }

  function WithStatus(s: State, n: nat, status: Status): State
    requires n < |s.sessions|
  {
    s.(sessions := s.sessions[n := s.sessions[n].(status := status)])
  }

  ghost function Compile(s: State, id: string): State
    requires WellFormed(s)
  {
    if id in s.table then Send(s, Refusal(id, DuplicateSession))
    else if |RunningIds(s)| >= MAX_CONCURRENT_COMPILATIONS then Send(s, Refusal(id, TooManyCompilations))
    else Admitted(s, id)
  }

  function Admitted(s: State, id: string): State {
    var n := |s.sessions|;
    Send(s.(sessions := s.sessions + [Session(id, Running)], table := s.table[id := n], unsettled := s.unsettled + {n}),
         About(n, SaysStarted))
  }

  /** The rest of the compile handler, once the compiler is done with session n. */
  function Settle(s: State, n: nat, how: Settlement): State
    requires n < |s.sessions|
  {
    var done := s.(unsettled := s.unsettled - {n});
    if how != Rejects && s.sessions[n].status == Cancelled then done
    else if how == Resolves then Ended(done, n, Completed, SaysComplete)
    else Ended(done, n, Failed, SaysError)
  }

  /** A new status, a message about it and a removal timer. */
  function Ended(s: State, n: nat, status: Status, kind: Kind): State
    requires n < |s.sessions|
  {
    Send(WithStatus(s, n, status).(timers := s.timers + multiset{n}), About(n, kind))
  }

  function Cancel(s: State, id: string): State
    requires id in s.table ==> s.table[id] < |s.sessions|
  {
    if id !in s.table then Send(s, Refusal(id, SessionNotFound))
    else if s.sessions[s.table[id]].status != Running then Send(s, Refusal(id, InvalidSessionState))
    else Ended(s, s.table[id], Cancelled, SaysCancelled)
  }

  /** The removal timer set by session n fires. */
  function Expire(s: State, n: nat): State
    requires n < |s.sessions|
  {
    s.(table := s.table - {s.sessions[n].name}, timers := s.timers - multiset{n})
  }

  function Close(s: State): State {
    s.(table := map[])
  }

  // ---------------------------------------------------------------- the connection

  class CompilationSession {
    const sessionId: string
    var status: Status
    ghost const serial: nat

    constructor (sessionId: string, ghost serial: nat)
      ensures this.sessionId == sessionId && this.serial == serial && status == Running
    {
      this.sessionId, this.serial, this.status := sessionId, serial, Running;
    }
  }

  /** WebSocketConnectionState, with the handlers of the connection; model is its abstract state. */
  class Connection {
    var sessions: map<string, CompilationSession>
    ghost var created: seq<CompilationSession>
    ghost var model: State

    ghost predicate Valid()
      reads this, created
    {
      && WellFormed(model)
      && |created| == |model.sessions|
      && (forall i :: 0 <= i < |created| ==>
            created[i].serial == i && model.sessions[i] == Session(created[i].sessionId, created[i].status))
      && sessions.Keys == model.table.Keys
      && (forall id <- model.table :: sessions[id] == created[model.table[id]])
    }

    constructor ()
      ensures Valid() && model == OPENED
    {
      sessions, created, model := map[], [], OPENED;
    }

    /** The sessions whose status is running, as the admission test filters them. */
    method CountRunning() returns (count: nat)
      requires Valid()
      ensures count == |RunningIds(model)|
    {
      var running := set id <- sessions | sessions[id].status == Running;
      assert running == RunningIds(model);
      count := |running|;
    }

    /** handleCompileRequest up to the await; None means the request was refused. */
    method HandleCompile(sessionId: string) returns (started: Option<CompilationSession>)
      requires Valid()
      modifies this
      ensures Valid() && model == Compile(old(model), sessionId)
      ensures started.Some? ==> fresh(started.value) && created == old(created) + [started.value]
      ensures started.None? ==> created == old(created) && sessions == old(sessions)
      ensures sessionId in old(sessions) ==>
                started == None && model.outbox == old(model.outbox) + [Refusal(sessionId, DuplicateSession)]
      ensures sessionId !in old(sessions) && old(|RunningIds(model)|) >= 3 ==>
                started == None && model.outbox == old(model.outbox) + [Refusal(sessionId, TooManyCompilations)]
      ensures sessionId !in old(sessions) && old(|RunningIds(model)|) < 3 ==>
                && started.Some? && sessions == old(sessions)[sessionId := started.value]
                && model.outbox == old(model.outbox) + [About(|old(created)|, SaysStarted)]
    {
      if sessionId in sessions {
        model := Send(model, Refusal(sessionId, DuplicateSession));
        return None;
      }
      var runningCount := CountRunning();
      if runningCount >= MAX_CONCURRENT_COMPILATIONS {
        model := Send(model, Refusal(sessionId, TooManyCompilations));
        return None;
      }
      var session := Register(sessionId);
      return Some(session);
    }

    /** The session that an admitted request creates and stores. */
    method Register(sessionId: string) returns (session: CompilationSession)
      requires Valid() && sessionId !in sessions
      modifies this
      ensures Valid() && model == Admitted(old(model), sessionId)
      ensures fresh(session) && created == old(created) + [session]
      ensures sessions == old(sessions)[sessionId := session]
    {
      session := new CompilationSession(sessionId, |created|);
      sessions := sessions[sessionId := session];
      created := created + [session];
      model := Admitted(model, sessionId);
    }

    /** handleCompileRequest after the await, with its catch block. */
    method FinishCompile(session: CompilationSession, how: Settlement)
      requires Valid() && session in created && session.serial in model.unsettled
      modifies this, session
      ensures Valid() && created == old(created) && model == Settle(old(model), session.serial, how)
    {
      ghost var n := session.serial;
      model := model.(unsettled := model.unsettled - {n});
      if how != Rejects {
        if session.status == Cancelled {
          return;
        }
        session.status := Completed;
        if how == Resolves {
          model := Ended(model, n, Completed, SaysComplete);
          return;
        }
      }
      session.status := Failed;
      model := Ended(model, n, Failed, SaysError);
    }

    method HandleCancel(sessionId: string)
      requires Valid()
      modifies this, created
      ensures Valid() && created == old(created) && model == Cancel(old(model), sessionId)
    {
      if sessionId !in sessions {
        model := Send(model, Refusal(sessionId, SessionNotFound));
        return;
      }
      var session := sessions[sessionId];
      assert session == created[model.table[sessionId]];
      if session.status != Running {
        model := Send(model, Refusal(sessionId, InvalidSessionState));
        return;
      }
      session.status := Cancelled;
      model := Ended(model, session.serial, Cancelled, SaysCancelled);
    }

    /** A setTimeout callback: it deletes the id that its session had. */
    method RemoveAfterDelay(session: CompilationSession)
      requires Valid() && session in created && session.serial in model.timers
      modifies this
      ensures Valid() && created == old(created) && model == Expire(old(model), session.serial)
    {
      sessions := sessions - {session.sessionId};
      model := Expire(model, session.serial);
    }

    method HandleClose()
      requires Valid()
      modifies this
      ensures Valid() && created == old(created) && model == Close(old(model))
    {
      sessions := map[];
      model := Close(model);
    }
  }

  // ---------------------------------------------------------------- runs

  datatype Event =
    | CompileMessage(id: string)
    | CompileSettles(session: nat, how: Settlement)
    | CancelMessage(id: string)
    | TimerFires(session: nat)
    | ConnectionCloses

  predicate Enabled(s: State, e: Event) {
    match e
    case CompileSettles(n, _) => n in s.unsettled
    case TimerFires(n) => n in s.timers
    case _ => true
  }

  ghost function Next(s: State, e: Event): State
    requires WellFormed(s) && Enabled(s, e)
  {
    match e
    case CompileMessage(id) => Compile(s, id)
    case CompileSettles(n, how) => Settle(s, n, how)
    case CancelMessage(id) => Cancel(s, id)
    case TimerFires(n) => Expire(s, n)
    case ConnectionCloses => Close(s)
  }

  /** What the client was told about session n, in order. */
  function Told(outbox: seq<Outgoing>, n: nat): seq<Kind>
    decreases |outbox|
  {
    if outbox == [] then []
    else
      var last := outbox[|outbox| - 1];
      Told(outbox[..|outbox| - 1], n) + (if last.About? && last.session == n then [last.kind] else [])
  }

  /** The only conversations there are, with the status that goes with each. */
  ghost predicate Conversation(status: Status, settled: bool, told: seq<Kind>) {
    match status
    case Running => !settled && told == [SaysStarted]
    case Completed => settled && told == [SaysStarted, SaysComplete]
    case Cancelled => told == [SaysStarted, SaysCancelled]
    case Failed => settled && (told == [SaysStarted, SaysError] || told == [SaysStarted, SaysCancelled, SaysError])
  }

  ghost predicate Talked(s: State, n: nat)
    requires n < |s.sessions|
  {
    Conversation(s.sessions[n].status, n !in s.unsettled, Told(s.outbox, n))
  }

  ghost predicate Invariant(s: State) {
    && WellFormed(s)
    && |RunningIds(s)| <= 3
    && (forall n: nat {:trigger Talked(s, n)} :: n < |s.sessions| ==> Talked(s, n))
    && (forall m <- s.outbox :: m.About? ==> m.session < |s.sessions|)
  }

  /** Sessions keep their id, and one that has left running never runs again. */
  ghost predicate Later(s: State, t: State) {
    && |s.sessions| <= |t.sessions|
    && forall n :: 0 <= n < |s.sessions| ==>
         && t.sessions[n].name == s.sessions[n].name
         && (s.sessions[n].status != Running ==> t.sessions[n].status != Running)
  }

  lemma SubsetSize<T>(a: set<T>, b: set<T>)
    requires a <= b
    ensures |a| <= |b|
  {
    assert b == a + (b - a);
  }

  lemma ToldAppends(outbox: seq<Outgoing>, message: Outgoing, n: nat)
    ensures Told(outbox + [message], n)
            == Told(outbox, n) + (if message.About? && message.session == n then [message.kind] else [])
  {
    assert (outbox + [message])[..|outbox + [message]| - 1] == outbox;
  }

  lemma {:induction false} NothingToldAboutOthers(outbox: seq<Outgoing>, n: nat)
    requires forall m <- outbox :: m.About? ==> m.session != n
    ensures Told(outbox, n) == []
    decreases |outbox|
  {
    if outbox != [] {
      assert outbox[|outbox| - 1] in outbox;
      NothingToldAboutOthers(outbox[..|outbox| - 1], n);
    }
  }

  /** A refusal changes nothing but the outbox. */
  lemma RefusalStep(s: State, id: string, code: Code)
    requires Invariant(s)
    ensures Invariant(Send(s, Refusal(id, code))) && Later(s, Send(s, Refusal(id, code)))
  {
    var t := Send(s, Refusal(id, code));
    assert RunningIds(t) == RunningIds(s);
    forall n: nat | n < |t.sessions|
      ensures Talked(t, n)
    {
      ToldAppends(s.outbox, Refusal(id, code), n);
      assert Talked(s, n);
    }
  }

  lemma AdmittedTalk(s: State, id: string, n: nat)
    requires Invariant(s) && n <= |s.sessions|
    ensures Talked(Admitted(s, id), n)
  {
    var k := |s.sessions|;
    ToldAppends(s.outbox, About(k, SaysStarted), n);
    if n < k {
      assert Talked(s, n);
    } else {
      NothingToldAboutOthers(s.outbox, n);
    }
  }

  lemma AdmittedStep(s: State, id: string)
    requires Invariant(s) && id !in s.table && |RunningIds(s)| < MAX_CONCURRENT_COMPILATIONS
    ensures Invariant(Admitted(s, id)) && Later(s, Admitted(s, id))
  {
    var t := Admitted(s, id);
    assert RunningIds(t) == RunningIds(s) + {id};
    forall n: nat | n < |t.sessions|
      ensures Talked(t, n)
    {
      AdmittedTalk(s, id, n);
    }
  }

  lemma EndedTalk(s: State, k: nat, status: Status, kind: Kind, n: nat)
    requires k < |s.sessions| && n < |s.sessions|
    requires if n == k then Conversation(status, k !in s.unsettled, Told(s.outbox, k) + [kind]) else Talked(s, n)
    ensures Talked(Ended(s, k, status, kind), n)
  {
    ToldAppends(s.outbox, About(k, kind), n);
  }

  /** Ending session k, whether or not its compile settles at the same time. */
  lemma EndedStep(s: State, k: nat, status: Status, kind: Kind, settles: bool)
    requires Invariant(s) && k < |s.sessions| && status != Running
    requires var told := Told(s.outbox, k) + [kind]; Conversation(status, settles || k !in s.unsettled, told)
    ensures var t := Ended(if settles then s.(unsettled := s.unsettled - {k}) else s, k, status, kind);
            Invariant(t) && Later(s, t)
  {
    var u := if settles then s.(unsettled := s.unsettled - {k}) else s;
    var t := Ended(u, k, status, kind);
    SubsetSize(RunningIds(t), RunningIds(s));
    forall n: nat | n < |t.sessions|
      ensures Talked(t, n)
    {
      assert Talked(s, n);
      EndedTalk(u, k, status, kind, n);
    }
  }

  lemma SettleStep(s: State, n: nat, how: Settlement)
    requires Invariant(s) && n in s.unsettled
    ensures Invariant(Settle(s, n, how)) && Later(s, Settle(s, n, how))
  {
    assert Talked(s, n);
    if how != Rejects && s.sessions[n].status == Cancelled {
      var t := Settle(s, n, how);
      assert RunningIds(t) == RunningIds(s);
      forall k: nat | k < |t.sessions|
        ensures Talked(t, k)
      {
        assert Talked(s, k);
      }
    } else if how == Resolves {
      EndedStep(s, n, Completed, SaysComplete, true);
    } else {
      EndedStep(s, n, Failed, SaysError, true);
    }
  }

  lemma ShrinkStep(s: State, t: State)
    requires Invariant(s) && t == s.(table := t.table, timers := t.timers)
    requires t.table.Keys <= s.table.Keys && (forall id <- t.table :: t.table[id] == s.table[id]) && t.timers <= s.timers
    ensures Invariant(t) && Later(s, t)
  {
    SubsetSize(RunningIds(t), RunningIds(s));
    forall n: nat | n < |t.sessions|
      ensures Talked(t, n)
    {
      assert Talked(s, n);
    }
  }

  lemma StepKeepsInvariant(s: State, e: Event)
    requires Invariant(s) && Enabled(s, e)
    ensures Invariant(Next(s, e)) && Later(s, Next(s, e))
  {
    match e {
      case CompileMessage(id) =>
        if id in s.table {
          RefusalStep(s, id, DuplicateSession);
        } else if |RunningIds(s)| >= MAX_CONCURRENT_COMPILATIONS {
          RefusalStep(s, id, TooManyCompilations);
        } else {
          AdmittedStep(s, id);
        }
      case CompileSettles(n, how) => SettleStep(s, n, how);
      case CancelMessage(id) =>
        if id !in s.table {
          RefusalStep(s, id, SessionNotFound);
        } else if s.sessions[s.table[id]].status != Running {
          RefusalStep(s, id, InvalidSessionState);
        } else {
          assert Talked(s, s.table[id]);
          EndedStep(s, s.table[id], Cancelled, SaysCancelled, false);
        }
      case TimerFires(n) => ShrinkStep(s, Expire(s, n));
      case ConnectionCloses => ShrinkStep(s, Close(s));
    }
  }

  /** states lists a run from an opened connection: each state follows from the one before by an enabled event. */
  ghost predicate IsRun(states: seq<State>, events: seq<Event>) {
    && |states| == |events| + 1
    && states[0] == OPENED
    && forall i {:trigger events[i]} :: 0 <= i < |events| ==> IsStep(states[i], events[i], states[i + 1])
  }

  ghost predicate IsStep(s: State, e: Event, t: State) {
    WellFormed(s) && Enabled(s, e) && t == Next(s, e)
  }

  lemma {:induction false} RunKeepsInvariant(states: seq<State>, events: seq<Event>, i: nat)
    requires IsRun(states, events) && i < |states|
    ensures Invariant(states[i])
  {
    if i > 0 {
      RunKeepsInvariant(states, events, i - 1);
      assert IsStep(states[i - 1], events[i - 1], states[i - 1 + 1]);
      StepKeepsInvariant(states[i - 1], events[i - 1]);
    } else {
      assert RunningIds(OPENED) == {};
    }
  }

  lemma LaterIsTransitive(s: State, t: State, u: State)
    requires Later(s, t) && Later(t, u)
    ensures Later(s, u)
  {
  }

  lemma RunStepGoesForward(states: seq<State>, events: seq<Event>, i: nat)
    requires IsRun(states, events) && i < |events|
    ensures Later(states[i], states[i + 1])
  {
    RunKeepsInvariant(states, events, i);
    assert IsStep(states[i], events[i], states[i + 1]);
    StepKeepsInvariant(states[i], events[i]);
  }

  lemma {:induction false} RunOnlyGoesForward(states: seq<State>, events: seq<Event>, i: nat, j: nat)
    requires IsRun(states, events) && i <= j < |states|
    ensures Later(states[i], states[j])
    decreases j
  {
    if i < j {
      RunOnlyGoesForward(states, events, i, j - 1);
      RunStepGoesForward(states, events, j - 1);
      LaterIsTransitive(states[i], states[j - 1], states[j]);
    }
  }

  /**
   * For every interleaving of messages, settlements, timers and close: at most 3 sessions in the table are running; a
   * session that has left running never returns to it; and what the client is told about a session is started, then
   * one of complete, error, cancelled, or cancelled followed by error. So complete and cancelled exclude each other.
   */
  lemma SessionsAreAdmittedAndExclusive(states: seq<State>, events: seq<Event>, i: nat, j: nat, n: nat)
    requires IsRun(states, events) && i <= j < |states| && n < |states[i].sessions|
    ensures WellFormed(states[j]) && |RunningIds(states[j])| <= 3
    ensures n < |states[j].sessions|
            && (states[i].sessions[n].status != Running ==> states[j].sessions[n].status != Running)
    ensures var told := Told(states[j].outbox, n);
            && (told == [SaysStarted] || told == [SaysStarted, SaysComplete] || told == [SaysStarted, SaysError]
                || told == [SaysStarted, SaysCancelled] || told == [SaysStarted, SaysCancelled, SaysError])
            && !(SaysComplete in told && SaysCancelled in told)
            && (n !in states[j].unsettled ==> told != [SaysStarted])
  {
    RunKeepsInvariant(states, events, j);
    RunOnlyGoesForward(states, events, i, j);
    assert Talked(states[j], n);
  }

  /**
   * Requests are answered exactly: in every reachable state a compile is refused as a duplicate if its id is in the
   * table, else as too many if exactly three sessions there are running, and is started otherwise; a cancellation is
   * refused if the id is not in the table, or if its session is not running, and carried out otherwise.
   */
  lemma RequestsAreAnsweredExactly(states: seq<State>, events: seq<Event>, i: nat, id: string)
    requires IsRun(states, events) && i < |states|
    ensures var s := states[i];
            && WellFormed(s) && |RunningIds(s)| <= 3
            && Compile(s, id).outbox == s.outbox + [
                 if id in s.table then Refusal(id, DuplicateSession)
                 else if |RunningIds(s)| == 3 then Refusal(id, TooManyCompilations)
                 else About(|s.sessions|, SaysStarted)]
            && (Compile(s, id).sessions == s.sessions <==> id in s.table || |RunningIds(s)| == 3)
            && (id !in s.table && |RunningIds(s)| < 3 ==>
                  && Compile(s, id).sessions == s.sessions + [Session(id, Running)]
                  && Compile(s, id).table == s.table[id := |s.sessions|])
            && Cancel(s, id).outbox == s.outbox + [
                 if id !in s.table then Refusal(id, SessionNotFound)
                 else if s.sessions[s.table[id]].status != Running then Refusal(id, InvalidSessionState)
                 else About(s.table[id], SaysCancelled)]
            && (Cancel(s, id).sessions == s.sessions <==> id !in s.table || s.sessions[s.table[id]].status != Running)
  {
    RunKeepsInvariant(states, events, i);
    var s := states[i];
    if id in s.table && s.sessions[s.table[id]].status == Running {
      assert Cancel(s, id).sessions[s.table[id]].status == Cancelled;
    }
  }

  /**
   * Settlements are exact: a running session is completed if the compile resolves and nothing breaks on the way to the
   * message, and fails otherwise; a cancelled one fails if the compile rejects, and is left as it is otherwise.
   */
  lemma SettlementIsExact(s: State, n: nat, how: Settlement)
    requires n < |s.sessions|
    ensures var t, was := Settle(s, n, how), s.sessions[n].status;
            && t.unsettled == s.unsettled - {n} && t.table == s.table && |t.sessions| == |s.sessions|
            && (was == Cancelled && how != Rejects ==>
                  t.sessions == s.sessions && t.outbox == s.outbox && t.timers == s.timers)
            && (was == Running && how == Resolves ==>
                  t.sessions[n].status == Completed && t.outbox == s.outbox + [About(n, SaysComplete)])
            && ((was == Running && how != Resolves) || (was == Cancelled && how == Rejects) ==>
                  t.sessions[n].status == Failed && t.outbox == s.outbox + [About(n, SaysError)])
            && (t.sessions != s.sessions ==> t.timers == s.timers + multiset{n})
            && forall k :: 0 <= k < |s.sessions| && k != n ==> t.sessions[k] == s.sessions[k]
  {
  }

  /** With three sessions running, the fourth compile is refused. */
  lemma FourthIsRefused()
    ensures WellFormed(THREE_RUNNING) && RunningIds(THREE_RUNNING) == {"a", "b", "c"}
    ensures Compile(THREE_RUNNING, "d") == THREE_RUNNING.(outbox := THREE_RUNNING.outbox + [Refusal("d", TooManyCompilations)])
  {
    ThreeRun();
    assert |{"a", "b", "c"}| == 3;
  }

  lemma ThreeRun()
    ensures WellFormed(THREE_RUNNING) && RunningIds(THREE_RUNNING) == {"a", "b", "c"} && "d" !in THREE_RUNNING.table
  {
    assert THREE_RUNNING.table == map["a" := 0, "b" := 1, "c" := 2];
    assert THREE_RUNNING.sessions == [Session("a", Running), Session("b", Running), Session("c", Running)];
  }

  /** A session in the table that has ended still has its removal timer pending. */
  ghost predicate EndedWillBeRemoved(s: State)
    requires WellFormed(s)
  {
    forall id <- s.table :: s.sessions[s.table[id]].status != Running ==> s.table[id] in s.timers
  }

  lemma EndedStaysDue(s: State, n: nat, status: Status, kind: Kind)
    requires WellFormed(s) && n < |s.sessions| && EndedWillBeRemoved(s)
    ensures WellFormed(Ended(s, n, status, kind)) && EndedWillBeRemoved(Ended(s, n, status, kind))
  {
    var t := Ended(s, n, status, kind);
    forall id | id in t.table && t.sessions[t.table[id]].status != Running
      ensures t.table[id] in t.timers
    {
      if t.table[id] != n {
        assert s.sessions[s.table[id]].status != Running;
      }
    }
  }

  lemma SettlingStaysDue(s: State, n: nat, how: Settlement)
    requires WellFormed(s) && n in s.unsettled && EndedWillBeRemoved(s)
    ensures WellFormed(Settle(s, n, how)) && EndedWillBeRemoved(Settle(s, n, how))
  {
    var done := s.(unsettled := s.unsettled - {n});
    EndedStaysDue(done, n, Completed, SaysComplete);
    EndedStaysDue(done, n, Failed, SaysError);
  }

  lemma ExpiryStaysDue(s: State, n: nat)
    requires WellFormed(s) && n in s.timers && EndedWillBeRemoved(s)
    ensures WellFormed(Expire(s, n)) && EndedWillBeRemoved(Expire(s, n))
  {
    forall id | id in Expire(s, n).table && s.sessions[s.table[id]].status != Running
      ensures s.table[id] in Expire(s, n).timers
    {
      assert s.sessions[s.table[id]].name == id != s.sessions[n].name;
    }
  }

  lemma AdmissionStaysDue(s: State, id: string)
    requires WellFormed(s) && EndedWillBeRemoved(s)
    ensures WellFormed(Admitted(s, id)) && EndedWillBeRemoved(Admitted(s, id))
  {
  }

  lemma RemovalStaysDue(s: State, e: Event)
    requires WellFormed(s) && Enabled(s, e) && EndedWillBeRemoved(s)
    ensures WellFormed(Next(s, e)) && EndedWillBeRemoved(Next(s, e))
  {
    match e {
      case CompileMessage(id) => AdmissionStaysDue(s, id);
      case CompileSettles(n, how) => SettlingStaysDue(s, n, how);
      case CancelMessage(id) =>
        if id in s.table {
          EndedStaysDue(s, s.table[id], Cancelled, SaysCancelled);
        }
      case TimerFires(n) => ExpiryStaysDue(s, n);
      case ConnectionCloses =>
    }
  }

  /**
   * No entry stays for ever: in every reachable state each session in the table is running or has its removal timer
   * pending, and a timer that fires takes the session out.
   */
  lemma EndedSessionsAreRemoved(states: seq<State>, events: seq<Event>, i: nat)
    requires IsRun(states, events) && i < |states|
    ensures WellFormed(states[i])
    ensures forall id <- states[i].table :: var n := states[i].table[id];
              states[i].sessions[n].status == Running || (n in states[i].timers && id !in Expire(states[i], n).table)
  {
    DueThroughout(states, events, i);
  }

  lemma {:induction false} DueThroughout(states: seq<State>, events: seq<Event>, i: nat)
    requires IsRun(states, events) && i < |states|
    ensures WellFormed(states[i]) && EndedWillBeRemoved(states[i])
  {
    if i > 0 {
      DueThroughout(states, events, i - 1);
      assert IsStep(states[i - 1], events[i - 1], states[i - 1 + 1]);
      RemovalStaysDue(states[i - 1], events[i - 1]);
    }
  }

  /** How often the timers of session n have fired. */
  function Fired(events: seq<Event>, n: nat): nat
    decreases |events|
  {
    if events == [] then 0
    else Fired(events[..|events| - 1], n) + (if events[|events| - 1] == TimerFires(n) then 1 else 0)
  }

  lemma FiredStep(events: seq<Event>, i: nat, n: nat)
    requires i < |events|
    ensures Fired(events[..i + 1], n) == Fired(events[..i], n) + (if events[i] == TimerFires(n) then 1 else 0)
  {
    assert events[..i + 1][..i] == events[..i];
  }

  /** Only sessions that exist have timers, and no session is ever forgotten. */
  lemma OnlyExistingFire(s: State, e: Event, n: nat)
    requires Invariant(s) && Enabled(s, e) && |Next(s, e).sessions| <= n
    ensures |s.sessions| <= n && e != TimerFires(n)
  {
    StepKeepsInvariant(s, e);
  }

  lemma {:induction false} NothingFiresBeforeTheStart(states: seq<State>, events: seq<Event>, i: nat, n: nat)
    requires IsRun(states, events) && i < |states| && |states[i].sessions| <= n
    ensures Fired(events[..i], n) == 0
  {
    if i > 0 {
      RunKeepsInvariant(states, events, i - 1);
      assert IsStep(states[i - 1], events[i - 1], states[i - 1 + 1]);
      OnlyExistingFire(states[i - 1], events[i - 1], n);
      NothingFiresBeforeTheStart(states, events, i - 1, n);
      FiredStep(events, i - 1, n);
    }
  }

  /** How many messages told about session n are not matched by a pending timer. */
  function Unmatched(s: State, n: nat): int {
    |Told(s.outbox, n)| - s.timers[n]
  }

  lemma SendingMatches(s: State, m: Outgoing, n: nat)
    ensures Unmatched(Send(s, m), n) == Unmatched(s, n) + (if m.About? && m.session == n then 1 else 0)
  {
    ToldAppends(s.outbox, m, n);
  }

  lemma EndingMatches(s: State, k: nat, status: Status, kind: Kind, n: nat)
    requires k < |s.sessions|
    ensures Unmatched(Ended(s, k, status, kind), n) == Unmatched(s, n)
  {
    ToldAppends(s.outbox, About(k, kind), n);
  }

  lemma SettlingMatches(s: State, k: nat, how: Settlement, n: nat)
    requires k < |s.sessions|
    ensures Unmatched(Settle(s, k, how), n) == Unmatched(s, n)
  {
    var done := s.(unsettled := s.unsettled - {k});
    EndingMatches(done, k, Completed, SaysComplete, n);
    EndingMatches(done, k, Failed, SaysError, n);
  }

  /** A step gives a session a timer exactly when it tells the client that the session has ended, and a timer fires once. */
  lemma TimerStep(s: State, e: Event, n: nat)
    requires WellFormed(s) && Enabled(s, e) && n < |s.sessions|
    ensures Unmatched(Next(s, e), n) == Unmatched(s, n) + (if e == TimerFires(n) then 1 else 0)
  {
    match e {
      case CompileMessage(id) =>
        SendingMatches(s, Refusal(id, DuplicateSession), n);
        SendingMatches(s, Refusal(id, TooManyCompilations), n);
        ToldAppends(s.outbox, About(|s.sessions|, SaysStarted), n);
      case CompileSettles(k, how) => SettlingMatches(s, k, how, n);
      case CancelMessage(id) =>
        SendingMatches(s, Refusal(id, SessionNotFound), n);
        SendingMatches(s, Refusal(id, InvalidSessionState), n);
        if id in s.table {
          EndingMatches(s, s.table[id], Cancelled, SaysCancelled, n);
        }
      case TimerFires(k) =>
      case ConnectionCloses =>
    }
  }

  /**
   * Timers are conserved: at any point of any run, the pending timers of a session and those that have fired are
   * together as many as the messages that told its end; so each end sets one timer, each timer fires once, and no
   * session ever has more than two.
   */
  lemma {:induction false} TimersAreConserved(states: seq<State>, events: seq<Event>, i: nat, n: nat)
    requires IsRun(states, events) && i < |states| && n < |states[i].sessions|
    ensures states[i].timers[n] + Fired(events[..i], n) == |Told(states[i].outbox, n)| - 1 <= 2
  {
    RunKeepsInvariant(states, events, i);
    assert Talked(states[i], n);
    if i > 0 {
      var s := states[i - 1];
      RunKeepsInvariant(states, events, i - 1);
      FiredStep(events, i - 1, n);
      assert IsStep(s, events[i - 1], states[i - 1 + 1]);
      if n < |s.sessions| {
        TimersAreConserved(states, events, i - 1, n);
        TimerStep(s, events[i - 1], n);
      } else {
        NothingFiresBeforeTheStart(states, events, i - 1, n);
        NewSessionHasNoTimer(s, events[i - 1], n);
      }
    }
  }

  lemma NewSessionHasNoTimer(s: State, e: Event, n: nat)
    requires Invariant(s) && Enabled(s, e) && |s.sessions| <= n < |Next(s, e).sessions|
    ensures Next(s, e).timers[n] == 0 && Told(Next(s, e).outbox, n) == [SaysStarted] && e.CompileMessage?
  {
    ToldAppends(s.outbox, About(n, SaysStarted), n);
    NothingToldAboutOthers(s.outbox, n);
  }

  // ---------------------------------------------------------------- running sessions that the table has lost

  predicate Runs(s: State, n: nat)
    requires n < |s.sessions|
  {
    s.sessions[n].status == Running
  }

  /** A running session is the one that the table has under its id. */
  ghost predicate Listed(s: State, n: nat)
    requires n < |s.sessions|
  {
    Runs(s, n) ==> s.sessions[n].name in s.table && s.table[s.sessions[n].name] == n
  }

  /** The running sessions that no message can reach any more. */
  ghost function Orphans(s: State): set<nat> {
    set n: nat | n < |s.sessions| && !Listed(s, n)
  }

  ghost predicate NoneRunsUnder(s: State, id: string) {
    forall n: nat {:trigger Runs(s, n)} :: n < |s.sessions| && s.sessions[n].name == id ==> !Runs(s, n)
  }

  /**
   * No running session is orphaned, and none can be by what is pending: not by a removal timer that fires next, and
   * not by the timer that an unsettled compile sets when it fails next.
   */
  ghost predicate SafeFromPending(s: State)
    requires WellFormed(s)
  {
    && Orphans(s) == {}
    && (forall n <- s.timers :: Orphans(Expire(s, n)) == {})
    && (forall n <- s.unsettled :: Orphans(Expire(Settle(s, n, Rejects), n)) == {})
  }

  /** Nothing runs under the id of a pending timer or of a cancelled session that may still fail. */
  ghost predicate PendingIdsAreIdle(s: State)
    requires WellFormed(s)
  {
    && (forall n <- s.timers :: NoneRunsUnder(s, s.sessions[n].name))
    && (forall n <- s.unsettled :: s.sessions[n].status == Cancelled ==> NoneRunsUnder(s, s.sessions[n].name))
  }

  lemma NoOrphans(s: State)
    ensures Orphans(s) == {} <==> forall n: nat {:trigger Listed(s, n)} :: n < |s.sessions| ==> Listed(s, n)
  {
    if Orphans(s) == {} {
      forall n: nat | n < |s.sessions|
        ensures Listed(s, n)
      {
        assert n !in Orphans(s);
      }
    }
  }

  /** A timer orphans somebody exactly when something runs under its id. */
  lemma ExpiryOrphansExactly(s: State, n: nat)
    requires n < |s.sessions| && Orphans(s) == {}
    ensures Orphans(Expire(s, n)) == {} <==> NoneRunsUnder(s, s.sessions[n].name)
  {
    var t := Expire(s, n);
    NoOrphans(s);
    NoOrphans(t);
    forall k: nat | k < |s.sessions|
      ensures Listed(t, k) <==> !(Runs(s, k) && s.sessions[k].name == s.sessions[n].name)
    {
      assert Listed(s, k);
    }
    assert NoneRunsUnder(s, s.sessions[n].name) <==> forall k: nat {:trigger Listed(t, k)} :: k < |s.sessions| ==> Listed(t, k);
  }

  /** The session that an unsettled compile belongs to is running or cancelled; its failure sets a timer. */
  lemma FailureOrphansExactly(s: State, n: nat)
    requires Invariant(s) && n in s.unsettled && Orphans(s) == {}
    ensures Orphans(Expire(Settle(s, n, Rejects), n)) == {}
            <==> (s.sessions[n].status == Cancelled ==> NoneRunsUnder(s, s.sessions[n].name))
  {
    var t := Settle(s, n, Rejects);
    assert Talked(s, n);
    NoOrphans(s);
    NoOrphans(t);
    forall k: nat | k < |s.sessions|
      ensures Listed(t, k) && (Runs(t, k) <==> Runs(s, k) && k != n)
    {
      assert Listed(s, k);
    }
    ExpiryOrphansExactly(t, n);
    var id := s.sessions[n].name;
    if Runs(s, n) {
      assert Listed(s, n);
      forall k: nat | k < |t.sessions| && t.sessions[k].name == id
        ensures !Runs(t, k)
      {
        assert Listed(s, k);
      }
    } else {
      assert forall k: nat :: k < |s.sessions| ==> (Runs(t, k) <==> Runs(s, k));
    }
  }

  lemma TimersOrphanExactly(s: State)
    requires WellFormed(s) && Orphans(s) == {}
    ensures (forall n <- s.timers :: Orphans(Expire(s, n)) == {})
            <==> forall n <- s.timers :: NoneRunsUnder(s, s.sessions[n].name)
  {
    forall n | n in s.timers
      ensures Orphans(Expire(s, n)) == {} <==> NoneRunsUnder(s, s.sessions[n].name)
    {
      ExpiryOrphansExactly(s, n);
    }
  }

  lemma FailuresOrphanExactly(s: State)
    requires Invariant(s) && Orphans(s) == {}
    ensures (forall n <- s.unsettled :: Orphans(Expire(Settle(s, n, Rejects), n)) == {})
            <==> forall n <- s.unsettled :: s.sessions[n].status == Cancelled ==> NoneRunsUnder(s, s.sessions[n].name)
  {
    forall n | n in s.unsettled
      ensures Orphans(Expire(Settle(s, n, Rejects), n)) == {}
              <==> (s.sessions[n].status == Cancelled ==> NoneRunsUnder(s, s.sessions[n].name))
    {
      FailureOrphansExactly(s, n);
    }
  }

  lemma SafeFromPendingExactly(s: State)
    requires Invariant(s)
    ensures SafeFromPending(s) <==> Orphans(s) == {} && PendingIdsAreIdle(s)
  {
    if Orphans(s) == {} {
      TimersOrphanExactly(s);
      FailuresOrphanExactly(s);
    }
  }

  /** The compile message is not refused. */
  ghost predicate Admits(s: State, e: Event)
    requires WellFormed(s)
  {
    e.CompileMessage? && e.id !in s.table && |RunningIds(s)| < MAX_CONCURRENT_COMPILATIONS
  }

  /** Neither a pending timer nor an unsettled compile belongs to a session of that id. */
  ghost predicate IdIsFree(s: State, id: string)
    requires WellFormed(s)
  {
    && (forall n <- s.timers :: s.sessions[n].name != id)
    && (forall n <- s.unsettled :: s.sessions[n].name != id)
  }

  /** An admission under an id that something pending belongs to. */
  ghost predicate ReusesPending(s: State, e: Event)
    requires WellFormed(s)
  {
    Admits(s, e) && !IdIsFree(s, e.id)
  }

  /** A session sets its removal timer only when it leaves running. */
  ghost predicate TimersAreDue(s: State)
    requires WellFormed(s)
  {
    forall n <- s.timers :: !Runs(s, n)
  }

  lemma AdmittedKeepsListed(s: State, id: string)
    requires WellFormed(s) && id !in s.table
    ensures var t := Admitted(s, id); WellFormed(t) && Orphans(t) <= Orphans(s) && (TimersAreDue(s) ==> TimersAreDue(t))
  {
    var t := Admitted(s, id);
    forall n: nat | n < |t.sessions| && !Listed(t, n)
      ensures n < |s.sessions| && !Listed(s, n)
    {
    }
  }

  /** A step that leaves the table alone and starts no session. */
  lemma SameTableKeepsListed(s: State, t: State)
    requires WellFormed(s) && t.table == s.table && |t.sessions| == |s.sessions|
    requires forall n: nat {:trigger Runs(t, n)} :: n < |s.sessions| ==>
               t.sessions[n].name == s.sessions[n].name && (Runs(t, n) ==> Runs(s, n))
    requires forall n <- t.timers :: n < |t.sessions| && (n in s.timers || !Runs(t, n))
    ensures Orphans(t) <= Orphans(s)
    ensures WellFormed(t) && TimersAreDue(s) ==> TimersAreDue(t)
  {
    forall n: nat | n < |t.sessions| && !Listed(t, n)
      ensures !Listed(s, n)
    {
    }
  }

  lemma EndedKeepsListed(s: State, n: nat, status: Status, kind: Kind)
    requires WellFormed(s) && n < |s.sessions| && status != Running
    ensures var t := Ended(s, n, status, kind);
            WellFormed(t) && Orphans(t) <= Orphans(s) && (TimersAreDue(s) ==> TimersAreDue(t))
  {
    SameTableKeepsListed(s, Ended(s, n, status, kind));
  }

  lemma SettlingKeepsListed(s: State, n: nat, how: Settlement)
    requires WellFormed(s) && n in s.unsettled
    ensures var t := Settle(s, n, how); WellFormed(t) && Orphans(t) <= Orphans(s) && (TimersAreDue(s) ==> TimersAreDue(t))
  {
    var done := s.(unsettled := s.unsettled - {n});
    SameTableKeepsListed(s, done);
    EndedKeepsListed(done, n, Completed, SaysComplete);
    EndedKeepsListed(done, n, Failed, SaysError);
  }

  lemma AdmissionIsSafeExactly(s: State, id: string)
    requires Invariant(s) && Orphans(s) == {} && PendingIdsAreIdle(s) && id !in s.table
    ensures var t := Admitted(s, id); WellFormed(t) && Orphans(t) == {} && (PendingIdsAreIdle(t) <==> IdIsFree(s, id))
  {
    AdmittedKeepsListed(s, id);
    UnsettledUnderUnusedId(s, id);
    forall n: nat | n < |s.sessions|
      ensures NoneRunsUnder(Admitted(s, id), s.sessions[n].name)
              <==> NoneRunsUnder(s, s.sessions[n].name) && s.sessions[n].name != id
    {
      RunsUnderAfterAdmission(s, id, s.sessions[n].name);
    }
    PendingAfterAdmission(s, id);
  }

  lemma UnsettledUnderUnusedId(s: State, id: string)
    requires Invariant(s) && Orphans(s) == {} && id !in s.table
    ensures forall n <- s.unsettled :: s.sessions[n].name == id ==> s.sessions[n].status == Cancelled
  {
    NoOrphans(s);
    forall n | n in s.unsettled
      ensures s.sessions[n].name == id ==> s.sessions[n].status == Cancelled
    {
      assert Talked(s, n) && Listed(s, n);
    }
  }

  lemma PendingAfterAdmission(s: State, id: string)
    requires WellFormed(s) && PendingIdsAreIdle(s) && WellFormed(Admitted(s, id))
    requires forall n <- s.unsettled :: s.sessions[n].name == id ==> s.sessions[n].status == Cancelled
    requires forall n: nat :: n < |s.sessions| ==>
               (NoneRunsUnder(Admitted(s, id), s.sessions[n].name)
                <==> NoneRunsUnder(s, s.sessions[n].name) && s.sessions[n].name != id)
    ensures PendingIdsAreIdle(Admitted(s, id)) <==> IdIsFree(s, id)
  {
  }

  lemma RunsUnderAfterAdmission(s: State, id: string, name: string)
    ensures NoneRunsUnder(Admitted(s, id), name) <==> NoneRunsUnder(s, name) && name != id
  {
    var t, k := Admitted(s, id), |s.sessions|;
    assert Runs(t, k);
    forall n: nat | n < k
      ensures Runs(t, n) <==> Runs(s, n)
    {
    }
  }

  lemma EndingIsSafe(s: State, n: nat, status: Status, kind: Kind)
    requires WellFormed(s) && Orphans(s) == {} && PendingIdsAreIdle(s)
    requires n < |s.sessions| && status != Running && (status == Cancelled ==> Runs(s, n))
    requires s.sessions[n].status == Cancelled ==> NoneRunsUnder(s, s.sessions[n].name)
    requires s.sessions[n].status in {Running, Cancelled}
    ensures var t := Ended(s, n, status, kind); WellFormed(t) && Orphans(t) == {} && PendingIdsAreIdle(t)
  {
    var t, id := Ended(s, n, status, kind), s.sessions[n].name;
    EndedKeepsListed(s, n, status, kind);
    NoOrphans(s);
    assert forall k: nat :: k < |s.sessions| ==> (Runs(t, k) ==> Runs(s, k) && k != n);
    forall k: nat | k < |t.sessions| && t.sessions[k].name == id
      ensures !Runs(t, k)
    {
      assert Listed(s, k) && Listed(s, n);
    }
    assert NoneRunsUnder(t, id);
    forall name: string | NoneRunsUnder(s, name)
      ensures NoneRunsUnder(t, name)
    {
    }
  }

  lemma SettlingIsSafe(s: State, n: nat, how: Settlement)
    requires Invariant(s) && Orphans(s) == {} && PendingIdsAreIdle(s) && n in s.unsettled
    ensures var t := Settle(s, n, how); WellFormed(t) && Orphans(t) == {} && PendingIdsAreIdle(t)
  {
    assert Talked(s, n);
    var done := s.(unsettled := s.unsettled - {n});
    SameTable(s, done);
    assert forall k: nat :: k < |s.sessions| ==> (Runs(done, k) <==> Runs(s, k));
    forall name: string
      ensures NoneRunsUnder(done, name) <==> NoneRunsUnder(s, name)
    {
    }
    if how == Rejects || s.sessions[n].status == Running {
      EndingIsSafe(done, n, if how == Resolves then Completed else Failed, if how == Resolves then SaysComplete else SaysError);
    }
  }

  lemma SameSessionsSafe(s: State, t: State)
    requires WellFormed(s) && WellFormed(t) && t.sessions == s.sessions && t.unsettled == s.unsettled
    requires t.timers <= s.timers && PendingIdsAreIdle(s)
    ensures PendingIdsAreIdle(t)
  {
    forall name: string
      ensures NoneRunsUnder(t, name) <==> NoneRunsUnder(s, name)
    {
      assert forall n: nat :: n < |s.sessions| ==> (Runs(t, n) <==> Runs(s, n));
    }
  }

  /** The only step, short of closing, that endangers a running session is an admission under a pending id. */
  lemma StepIsSafeExactly(s: State, e: Event)
    requires Invariant(s) && Enabled(s, e) && !e.ConnectionCloses?
    requires Orphans(s) == {} && PendingIdsAreIdle(s)
    ensures WellFormed(Next(s, e))
    ensures Orphans(Next(s, e)) == {} && PendingIdsAreIdle(Next(s, e)) <==> !ReusesPending(s, e)
  {
    var t := Next(s, e);
    StepKeepsInvariant(s, e);
    match e {
      case CompileMessage(id) =>
        if Admits(s, e) {
          AdmissionIsSafeExactly(s, id);
        } else {
          SameTable(s, t);
          SameSessionsSafe(s, t);
        }
      case CompileSettles(n, how) => SettlingIsSafe(s, n, how);
      case CancelMessage(id) =>
        if id in s.table && Runs(s, s.table[id]) {
          EndingIsSafe(s, s.table[id], Cancelled, SaysCancelled);
        } else {
          SameTable(s, t);
          SameSessionsSafe(s, t);
        }
      case TimerFires(n) =>
        ExpiryOrphansExactly(s, n);
        SameSessionsSafe(s, t);
    }
  }

  lemma SameTable(s: State, t: State)
    requires t.sessions == s.sessions && t.table == s.table
    ensures Orphans(t) == Orphans(s)
  {
    assert forall n: nat :: n < |s.sessions| ==> (Listed(t, n) <==> Listed(s, n));
  }

  /** Messages and settlements orphan nobody, even under reused ids; and no event makes a timer premature. */
  lemma OthersKeepListed(s: State, e: Event)
    requires Invariant(s) && Enabled(s, e) && TimersAreDue(s)
    ensures WellFormed(Next(s, e)) && TimersAreDue(Next(s, e))
    ensures !e.TimerFires? && !e.ConnectionCloses? ==> Orphans(Next(s, e)) <= Orphans(s)
  {
    StepKeepsInvariant(s, e);
    match e {
      case CompileMessage(id) =>
        if Admits(s, e) {
          AdmittedKeepsListed(s, id);
        } else {
          SameTableKeepsListed(s, Next(s, e));
        }
      case CompileSettles(n, how) => SettlingKeepsListed(s, n, how);
      case CancelMessage(id) =>
        if id in s.table && Runs(s, s.table[id]) {
          EndedKeepsListed(s, s.table[id], Cancelled, SaysCancelled);
        } else {
          SameTableKeepsListed(s, Next(s, e));
        }
      case TimerFires(n) =>
      case ConnectionCloses =>
    }
  }

  ghost predicate StaysOpen(events: seq<Event>) {
    forall e <- events :: !e.ConnectionCloses?
  }

  ghost predicate AlwaysSafe(states: seq<State>) {
    forall i :: 0 <= i < |states| ==> WellFormed(states[i]) && SafeFromPending(states[i])
  }

  ghost predicate NeverReusesPending(states: seq<State>, events: seq<Event>)
    requires |states| > |events|
  {
    forall i :: 0 <= i < |events| ==> WellFormed(states[i]) && !ReusesPending(states[i], events[i])
  }

  lemma {:induction false} RunIsSafe(states: seq<State>, events: seq<Event>, j: nat)
    requires IsRun(states, events) && j < |states| && StaysOpen(events)
    requires forall i: nat :: i < j ==> WellFormed(states[i]) && !ReusesPending(states[i], events[i])
    ensures Invariant(states[j]) && Orphans(states[j]) == {} && PendingIdsAreIdle(states[j])
  {
    RunKeepsInvariant(states, events, j);
    if j > 0 {
      RunIsSafe(states, events, j - 1);
      assert IsStep(states[j - 1], events[j - 1], states[j - 1 + 1]);
      assert events[j - 1] in events;
      StepIsSafeExactly(states[j - 1], events[j - 1]);
    } else {
      assert Orphans(OPENED) == {};
    }
  }

  /**
   * The exact condition, over whole runs until the connection closes: no running session is ever orphaned, nor could
   * be by anything pending, if and only if no compile is admitted under an id that a pending removal timer or an
   * unsettled compile belongs to.
   */
  lemma OrphansComeExactlyFromReuse(states: seq<State>, events: seq<Event>)
    requires IsRun(states, events) && StaysOpen(events)
    ensures forall i :: 0 <= i < |states| ==> WellFormed(states[i])
    ensures AlwaysSafe(states) <==> NeverReusesPending(states, events)
  {
    forall i | 0 <= i < |states|
      ensures Invariant(states[i]) && (SafeFromPending(states[i]) <==> Orphans(states[i]) == {} && PendingIdsAreIdle(states[i]))
    {
      RunKeepsInvariant(states, events, i);
      SafeFromPendingExactly(states[i]);
    }
    if NeverReusesPending(states, events) {
      forall i | 0 <= i < |states|
        ensures SafeFromPending(states[i])
      {
        RunIsSafe(states, events, i);
      }
    }
    if AlwaysSafe(states) {
      forall i | 0 <= i < |events|
        ensures WellFormed(states[i]) && !ReusesPending(states[i], events[i])
      {
        assert IsStep(states[i], events[i], states[i + 1]);
        assert events[i] in events && SafeFromPending(states[i]) && SafeFromPending(states[i + 1]);
        StepIsSafeExactly(states[i], events[i]);
      }
    }
  }

  /** Every session has an id of its own: the client never reused one. */
  predicate FreshIds(s: State) {
    forall m, n :: 0 <= m < n < |s.sessions| ==> s.sessions[m].name != s.sessions[n].name
  }

  lemma FreshIdsReuseNothing(states: seq<State>, events: seq<Event>, i: nat, j: nat)
    requires IsRun(states, events) && i < j < |states| && FreshIds(states[j])
    ensures WellFormed(states[i]) && !ReusesPending(states[i], events[i])
  {
    var s := states[i];
    RunKeepsInvariant(states, events, i);
    RunOnlyGoesForward(states, events, i, j);
    RunOnlyGoesForward(states, events, i + 1, j);
    assert IsStep(states[i], events[i], states[i + 1]);
    if Admits(s, events[i]) {
      assert states[i + 1].sessions[|s.sessions|].name == events[i].id;
      forall n: nat | n < |s.sessions|
        ensures s.sessions[n].name != events[i].id
      {
      }
    }
  }

  /**
   * A client that never reuses an id is safe until it closes: every running session stays in the table under its id,
   * and cancelling it works.
   */
  lemma FreshIdsKeepEverySession(states: seq<State>, events: seq<Event>, j: nat, n: nat)
    requires IsRun(states, events) && j < |states| && StaysOpen(events) && FreshIds(states[j])
    requires n < |states[j].sessions| && Runs(states[j], n)
    ensures var s := states[j]; var id := s.sessions[n].name;
            && WellFormed(s) && SafeFromPending(s)
            && id in s.table && s.table[id] == n
            && Cancel(s, id) == Ended(s, n, Cancelled, SaysCancelled)
  {
    forall i: nat | i < j
      ensures WellFormed(states[i]) && !ReusesPending(states[i], events[i])
    {
      FreshIdsReuseNothing(states, events, i, j);
    }
    RunIsSafe(states, events, j);
    SafeFromPendingExactly(states[j]);
    NoOrphans(states[j]);
    assert Listed(states[j], n);
  }

  // ---------------------------------------------------------------- work that the limit does not count

  /** Cancelled sessions whose compile has not settled yet. */
  ghost function StillCancelling(s: State): set<nat>
    requires WellFormed(s)
  {
    set n <- s.unsettled | s.sessions[n].status == Cancelled
  }

  /** The sessions behind the ids that the admission test counts. */
  ghost function ListedRunning(s: State): set<nat>
    requires WellFormed(s)
  {
    set id <- RunningIds(s) :: s.table[id]
  }

  lemma {:induction false} ImageSize(ids: set<string>, table: map<string, nat>)
    requires ids <= table.Keys && forall x <- ids, y <- ids :: table[x] == table[y] ==> x == y
    ensures |set id <- ids :: table[id]| == |ids|
    decreases |ids|
  {
    var image := set id <- ids :: table[id];
    if ids != {} {
      var x :| x in ids;
      var rest := ids - {x};
      ImageSize(rest, table);
      assert image == (set id <- rest :: table[id]) + {table[x]};
      assert table[x] !in (set id <- rest :: table[id]);
    } else {
      assert image == {};
    }
  }

  /** How many compiles are unfinished: what the limit counts, what was orphaned, and what is still being cancelled. */
  ghost function Unfinished(s: State): nat
    requires WellFormed(s)
  {
    |RunningIds(s)| + |Orphans(s)| + |StillCancelling(s)|
  }

  lemma UnsettledOnes(s: State)
    requires Invariant(s)
    ensures s.unsettled == (set n: nat | n < |s.sessions| && Runs(s, n)) + StillCancelling(s)
  {
    forall n: nat | n < |s.sessions|
      ensures n in s.unsettled <==> Runs(s, n) || n in StillCancelling(s)
    {
      assert Talked(s, n);
    }
  }

  lemma RunningOnes(s: State)
    requires WellFormed(s)
    ensures (set n: nat | n < |s.sessions| && Runs(s, n)) == ListedRunning(s) + Orphans(s)
    ensures ListedRunning(s) !! Orphans(s) && |ListedRunning(s)| == |RunningIds(s)|
  {
    forall n: nat | n < |s.sessions| && Runs(s, n) && Listed(s, n)
      ensures n in ListedRunning(s)
    {
      assert s.sessions[n].name in RunningIds(s);
    }
    ImageSize(RunningIds(s), s.table);
  }

  lemma WorkIsAccounted(s: State)
    requires Invariant(s)
    ensures s.unsettled == ListedRunning(s) + Orphans(s) + StillCancelling(s)
    ensures ListedRunning(s) !! Orphans(s) !! StillCancelling(s)
    ensures |s.unsettled| == Unfinished(s)
  {
    UnsettledOnes(s);
    RunningOnes(s);
    var running := set n: nat | n < |s.sessions| && Runs(s, n);
    assert running !! StillCancelling(s);
    assert |s.unsettled| == |running| + |StillCancelling(s)|;
  }

  /**
   * In every reachable state, with any reuse of ids and any close: the unfinished compiles are the at most three that
   * the limit counts, the orphans, and those still being cancelled, each counted once.
   */
  lemma UnfinishedWorkIsBounded(states: seq<State>, events: seq<Event>, i: nat)
    requires IsRun(states, events) && i < |states|
    ensures WellFormed(states[i]) && |states[i].unsettled| == Unfinished(states[i])
            && |states[i].unsettled| <= 3 + |Orphans(states[i])| + |StillCancelling(states[i])|
  {
    RunKeepsInvariant(states, events, i);
    WorkIsAccounted(states[i]);
  }

  /** With fresh ids and an open connection only cancellations exceed the limit, and at most three sessions run at all. */
  lemma FreshIdsBoundTheWork(states: seq<State>, events: seq<Event>, j: nat)
    requires IsRun(states, events) && j < |states| && StaysOpen(events) && FreshIds(states[j])
    ensures var s := states[j];
            && WellFormed(s)
            && |set n: nat | n < |s.sessions| && Runs(s, n)| == |RunningIds(s)| <= 3
            && |s.unsettled| == |RunningIds(s)| + |StillCancelling(s)|
  {
    forall i: nat | i < j
      ensures WellFormed(states[i]) && !ReusesPending(states[i], events[i])
    {
      FreshIdsReuseNothing(states, events, i, j);
    }
    RunIsSafe(states, events, j);
    WorkIsAccounted(states[j]);
    RunningOnes(states[j]);
  }

  /** An admission is the only step that starts a compile. */
  lemma StepStartsWork(s: State, e: Event)
    requires WellFormed(s) && Enabled(s, e)
    ensures Admits(s, e) ==> |Next(s, e).unsettled| == |s.unsettled| + 1
    ensures !Admits(s, e) ==> |Next(s, e).unsettled| <= |s.unsettled|
  {
    var t := Next(s, e);
    if Admits(s, e) {
      assert t.unsettled == s.unsettled + {|s.sessions|};
    } else {
      assert t.unsettled <= s.unsettled;
      SubsetSize(t.unsettled, s.unsettled);
    }
  }

  /** Whether three compiles at most are unfinished after an admission can be counted before it. */
  ghost predicate AdmitsWithinLimit(s: State, e: Event)
    requires WellFormed(s)
  {
    Admits(s, e) ==> Unfinished(s) < 3
  }

  /**
   * The exact condition, over every run: at most three compiles are ever unfinished at once if and only if each
   * admission finds fewer than three running, orphaned or still being cancelled.
   */
  lemma LimitHoldsExactly(states: seq<State>, events: seq<Event>)
    requires IsRun(states, events)
    ensures forall i :: 0 <= i < |states| ==> WellFormed(states[i])
    ensures (forall i :: 0 <= i < |states| ==> |states[i].unsettled| <= 3)
            <==> (forall i :: 0 <= i < |events| ==> AdmitsWithinLimit(states[i], events[i]))
  {
    forall i | 0 <= i < |states|
      ensures WellFormed(states[i]) && |states[i].unsettled| == Unfinished(states[i])
    {
      UnfinishedWorkIsBounded(states, events, i);
    }
    forall i | 0 <= i < |events|
      ensures Admits(states[i], events[i]) ==> |states[i + 1].unsettled| == |states[i].unsettled| + 1
      ensures !Admits(states[i], events[i]) ==> |states[i + 1].unsettled| <= |states[i].unsettled|
    {
      assert IsStep(states[i], events[i], states[i + 1]);
      StepStartsWork(states[i], events[i]);
    }
    if forall i :: 0 <= i < |events| ==> AdmitsWithinLimit(states[i], events[i]) {
      forall i | 0 <= i < |states|
        ensures |states[i].unsettled| <= 3
      {
        LimitHoldsUpTo(states, events, i);
      }
    }
  }

  lemma {:induction false} LimitHoldsUpTo(states: seq<State>, events: seq<Event>, j: nat)
    requires IsRun(states, events) && j < |states|
    requires forall i: nat :: i < |states| ==> WellFormed(states[i])
    requires forall i: nat :: i < j ==> AdmitsWithinLimit(states[i], events[i])
    ensures |states[j].unsettled| <= 3
  {
    if j > 0 {
      LimitHoldsUpTo(states, events, j - 1);
      UnfinishedWorkIsBounded(states, events, j - 1);
      assert IsStep(states[j - 1], events[j - 1], states[j - 1 + 1]);
      StepStartsWork(states[j - 1], events[j - 1]);
    }
  }

  /** Closing stops nothing: what ran is orphaned, the count starts again at none, and any id is admitted at once. */
  lemma CloseForgetsTheWork(s: State, id: string)
    requires Invariant(s)
    ensures var t := Close(s);
            && WellFormed(t) && t.unsettled == s.unsettled && RunningIds(t) == {}
            && t.table == map[] && t.sessions == s.sessions && t.timers == s.timers && t.outbox == s.outbox
            && Orphans(t) == (set n: nat | n < |s.sessions| && Runs(s, n))
            && Compile(t, id) == Admitted(t, id)
            && |Compile(t, id).unsettled| == |s.unsettled| + 1
  {
    var t := Close(s);
    assert RunningIds(t) == {};
    forall n: nat | n < |t.sessions|
      ensures !Listed(t, n) <==> Runs(s, n)
    {
    }
    assert Compile(t, id).unsettled == s.unsettled + {|s.sessions|};
  }

  /** One more step of a run, for building concrete runs. */
  lemma Extend(states: seq<State>, events: seq<Event>, e: Event) returns (states': seq<State>, events': seq<Event>)
    requires IsRun(states, events)
    requires WellFormed(states[|states| - 1]) && Enabled(states[|states| - 1], e)
    ensures states' == states + [Next(states[|states| - 1], e)] && events' == events + [e]
    ensures IsRun(states', events') && WellFormed(Next(states[|states| - 1], e))
  {
    var t := Next(states[|states| - 1], e);
    states', events' := states + [t], events + [e];
    RunKeepsInvariant(states, events, |states| - 1);
    StepKeepsInvariant(states[|states| - 1], e);
    forall i | 0 <= i < |events'|
      ensures IsStep(states'[i], events'[i], states'[i + 1])
    {
      if i < |events| {
        assert IsStep(states[i], events[i], states[i + 1]);
      }
    }
  }

  /** The same, when the next state is known. */
  lemma ExtendTo(states: seq<State>, events: seq<Event>, e: Event, t: State)
    returns (states': seq<State>, events': seq<Event>)
    requires IsRun(states, events)
    requires WellFormed(states[|states| - 1]) && Enabled(states[|states| - 1], e) && t == Next(states[|states| - 1], e)
    ensures IsRun(states', events') && states'[|states'| - 1] == t && WellFormed(t)
  {
    states', events' := Extend(states, events, e);
  }

  lemma AtMostTwo(s: State, x: string, y: string)
    requires WellFormed(s) && RunningIds(s) <= {x, y}
    ensures |RunningIds(s)| < MAX_CONCURRENT_COMPILATIONS
  {
    SubsetSize(RunningIds(s), {x, y});
  }

  const THREE_RUNNING := Admitted(Admitted(Admitted(OPENED, "a"), "b"), "c")

  lemma ThreeCompiles() returns (states: seq<State>, events: seq<Event>)
    ensures IsRun(states, events) && states[|states| - 1] == THREE_RUNNING && WellFormed(THREE_RUNNING)
  {
    var s1 := Admitted(OPENED, "a");
    var s2 := Admitted(s1, "b");
    AtMostTwo(OPENED, "a", "b");
    states, events := ExtendTo([OPENED], [], CompileMessage("a"), s1);
    AtMostTwo(s1, "a", "b");
    states, events := ExtendTo(states, events, CompileMessage("b"), s2);
    AtMostTwo(s2, "a", "b");
    states, events := ExtendTo(states, events, CompileMessage("c"), Admitted(s2, "c"));
  }

  const ONE_CANCELLED := Ended(THREE_RUNNING, 0, Cancelled, SaysCancelled)

  lemma OneIsCancelled()
    ensures Cancel(THREE_RUNNING, "a") == ONE_CANCELLED && ONE_CANCELLED.unsettled == {0, 1, 2}
    ensures |ONE_CANCELLED.sessions| == 3 && "d" !in ONE_CANCELLED.table
    ensures WellFormed(ONE_CANCELLED) ==> RunningIds(ONE_CANCELLED) <= {"b", "c"}
  {
    assert THREE_RUNNING.table == map["a" := 0, "b" := 1, "c" := 2];
    assert THREE_RUNNING.sessions == [Session("a", Running), Session("b", Running), Session("c", Running)];
  }

  /** The limit counts the table, not the work: after a cancellation a fourth compile runs beside three others. */
  lemma FourCompilesAtOnce() returns (states: seq<State>, events: seq<Event>)
    ensures IsRun(states, events) && states[|states| - 1].unsettled == {0, 1, 2, 3}
  {
    states, events := ThreeCompiles();
    OneIsCancelled();
    states, events := FourthCompile(states, events, THREE_RUNNING, ONE_CANCELLED);
  }

  lemma FourthCompile(states: seq<State>, events: seq<Event>, s: State, t: State)
    returns (states': seq<State>, events': seq<Event>)
    requires IsRun(states, events) && states[|states| - 1] == s
    requires WellFormed(s) && t == Cancel(s, "a") && t.unsettled == {0, 1, 2} && |t.sessions| == 3 && "d" !in t.table
    requires WellFormed(t) ==> RunningIds(t) <= {"b", "c"}
    ensures IsRun(states', events') && states'[|states'| - 1].unsettled == {0, 1, 2, 3}
  {
    states', events' := ExtendTo(states, events, CancelMessage("a"), t);
    AtMostTwo(t, "b", "c");
    states', events' := ExtendTo(states', events', CompileMessage("d"), Admitted(t, "d"));
  }

  /** One session that was cancelled and then failed, with both of its timers pending. */
  const TWICE_ENDED := Settle(Ended(Admitted(OPENED, "a"), 0, Cancelled, SaysCancelled), 0, Rejects)

  lemma CancelledThenFailed() returns (states: seq<State>, events: seq<Event>)
    ensures IsRun(states, events) && states[|states| - 1] == TWICE_ENDED && WellFormed(TWICE_ENDED)
  {
    var s1 := Admitted(OPENED, "a");
    var s2 := Ended(s1, 0, Cancelled, SaysCancelled);
    AtMostTwo(OPENED, "a", "a");
    states, events := ExtendTo([OPENED], [], CompileMessage("a"), s1);
    states, events := ExtendTo(states, events, CancelMessage("a"), s2);
    states, events := ExtendTo(states, events, CompileSettles(0, Rejects), TWICE_ENDED);
  }

  /**
   * A stale timer orphans a running session: cancel, let the compile fail too, and reuse the id after the first of
   * the two timers; the second one then removes the new session, which can no longer be cancelled.
   */
  lemma StaleTimerOrphansASession() returns (states: seq<State>, events: seq<Event>)
    ensures IsRun(states, events)
    ensures var s := states[|states| - 1];
            && s.sessions == [Session("a", Failed), Session("a", Running)]
            && s.table == map[]
            && Cancel(s, "a") == Send(s, Refusal("a", SessionNotFound))
  {
    states, events := CancelledThenFailed();
    assert TWICE_ENDED.timers == multiset{0, 0} && TWICE_ENDED.sessions == [Session("a", Failed)];
    var s4 := Expire(TWICE_ENDED, 0);
    states, events := ExtendTo(states, events, TimerFires(0), s4);
    AtMostTwo(s4, "a", "a");
    var s5 := Admitted(s4, "a");
    states, events := ExtendTo(states, events, CompileMessage("a"), s5);
    states, events := ExtendTo(states, events, TimerFires(0), Expire(s5, 0));
  }
}
