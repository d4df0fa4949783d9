/**
 * worker/ws-hibernation-do.ts: presence records of hibernatable WebSocket sessions, kept in durable storage only.
 *
 * The object has no fields besides its storage, so hibernating and waking change nothing by construction. Handlers
 * run one at a time between events (the runtime's input gate); /disconnect may name any tag at all.
 */
module Presence {
  import opened Options

  datatype SessionMeta = SessionMeta(tag: string, connectedAt: int, lastActivity: int, userId: Option<string>)

  type Entries = map<string, SessionMeta>

  function SessionKey(tag: string): string {
    "session:" + tag
  }

  datatype Event =
    | Accepted(tag: string, connectedAt: int, now: int, userId: Option<string>)
    | Messaged(tag: string, now: int)
    | Disconnected(tag: string, now: int)
    | Closed(tag: string, now: int)
    | Errored(tag: string, now: int)

  function Put(entries: Entries, e: Event): Entries {
    var key := SessionKey(e.tag);
    match e
    case Accepted(tag, at, now, userId) => entries[key := SessionMeta(tag, at, now, userId)]
    case Messaged(_, now) => if key in entries then entries[key := entries[key].(lastActivity := now)] else entries
    case _ => entries - {key}
  }

  /** The storage after a history of events. */
  function StoredAfter(history: seq<Event>): Entries
    decreases |history|
  {
    if history == [] then map[] else Put(StoredAfter(history[..|history| - 1]), history[|history| - 1])
  }

  class WsHibernation {
    var storage: Entries

    constructor ()
      ensures storage == StoredAfter([])
    {
      storage := map[];
    }

    /** GET /ws with a freshly generated tag; the two times are the two reads of the clock. */
    method Accept(tag: string, connectedAt: int, now: int, userId: Option<string>)
      modifies this
      ensures storage == Put(old(storage), Accepted(tag, connectedAt, now, userId))
    {
      storage := storage[SessionKey(tag) := SessionMeta(tag, connectedAt, now, userId)];
    }

    method UpdateLastActivity(tag: string, now: int)
      modifies this
      ensures storage == Put(old(storage), Messaged(tag, now))
    {
      var key := SessionKey(tag);
      if key in storage {
        storage := storage[key := storage[key].(lastActivity := now)];
      }
    }

    /** POST /disconnect, webSocketClose and webSocketError all end here. */
    method Remove(tag: string, now: int)
      modifies this
      ensures storage == Put(old(storage), Disconnected(tag, now)) == Put(old(storage), Closed(tag, now))
              == Put(old(storage), Errored(tag, now))
    {
      storage := storage - {SessionKey(tag)};
    }

    /** loadAllSessions, given the keys that storage.list returns. */
    method LoadAllSessions(keys: seq<string>) returns (results: seq<SessionMeta>)
      requires forall k :: k in keys <==> k in storage
      requires forall i, j :: 0 <= i < j < |keys| ==> keys[i] != keys[j]
      ensures |results| == |keys| == |storage|
      ensures forall i :: 0 <= i < |results| ==> results[i] == storage[keys[i]]
    {
      results := [];
      var i := 0;
      while i < |keys|
        invariant 0 <= i <= |keys| && |results| == i
        invariant forall j :: 0 <= j < i ==> results[j] == storage[keys[j]]
      {
        results := results + [storage[keys[i]]];
        i := i + 1;
      }
      DistinctKeysCount(keys, storage);
    }
  }

  lemma {:induction false} DistinctKeysCount(keys: seq<string>, entries: Entries)
    requires forall k :: k in keys <==> k in entries
    requires forall i, j :: 0 <= i < j < |keys| ==> keys[i] != keys[j]
    ensures |keys| == |entries|
  {
    if keys != [] {
      var rest := entries - {keys[0]};
      forall k
        ensures k in keys[1..] <==> k in rest
      {
        if k in rest {
          assert k in keys;
        }
      }
      DistinctKeysCount(keys[1..], rest);
      assert rest.Keys == entries.Keys - {keys[0]};
      assert |rest.Keys| == |rest| && |entries.Keys| == |entries|;
    } else {
      assert entries.Keys == {};
      assert |entries.Keys| == |entries|;
    }
  }

  // ---------------------------------------------------------------- presence equals history

  /** Tags are generated fresh for every connection. */
  predicate FreshTags(history: seq<Event>) {
    forall i, j :: 0 <= i < j < |history| && history[i].Accepted? && history[j].Accepted? ==> history[i].tag != history[j].tag
  }

  predicate Removes(e: Event, tag: string) {
    e.tag == tag && (e.Disconnected? || e.Closed? || e.Errored?)
  }

  /** The tag was accepted at position i and not removed since. */
  ghost predicate ConnectedAt(history: seq<Event>, tag: string, i: nat) {
    && i < |history| && history[i].Accepted? && history[i].tag == tag
    && forall j :: i < j < |history| ==> !Removes(history[j], tag)
  }

  /** The time of the last message from the tag after position i, or else of its acceptance there. */
  function LastSeen(history: seq<Event>, tag: string, i: nat): int
    requires i < |history|
    decreases |history|
  {
    var last := history[|history| - 1];
    if |history| == i + 1 || (last.Messaged? && last.tag == tag) then last.now
    else LastSeen(history[..|history| - 1], tag, i)
  }

  ghost predicate RecordFits(history: seq<Event>, tag: string, i: nat, meta: SessionMeta)
    requires i < |history| && history[i].Accepted?
  {
    meta == SessionMeta(tag, history[i].connectedAt, LastSeen(history, tag, i), history[i].userId)
  }

  lemma {:induction false} StorageFollowsHistory(history: seq<Event>, tag: string)
    requires FreshTags(history)
    ensures SessionKey(tag) in StoredAfter(history) <==> exists i :: ConnectedAt(history, tag, i)
    ensures forall i :: ConnectedAt(history, tag, i) ==> RecordFits(history, tag, i, StoredAfter(history)[SessionKey(tag)])
    decreases |history|
  {
    if history != [] {
      var past, last := history[..|history| - 1], history[|history| - 1];
      StorageFollowsHistory(past, tag);
      assert SessionKey(last.tag)[8..] == last.tag && SessionKey(tag)[8..] == tag;
      forall i: nat | i < |past|
        ensures ConnectedAt(history, tag, i) <==> ConnectedAt(past, tag, i) && !Removes(last, tag)
      {
        if ConnectedAt(history, tag, i) {
          assert forall j :: i < j < |past| ==> history[j] == past[j];
        }
      }
      assert ConnectedAt(history, tag, |past|) <==> last.Accepted? && last.tag == tag;
    }
  }

  /**
   * Presence equals history: in every run with fresh tags the stored sessions are exactly those accepted and not yet
   * closed, errored or disconnected; each record keeps its tag, connectedAt and userId, and its lastActivity is the
   * time of its last message. So a message that arrives after the removal brings nothing back.
   */
  lemma PresenceEqualsHistory(history: seq<Event>)
    requires FreshTags(history)
    ensures forall tag :: SessionKey(tag) in StoredAfter(history) <==> exists i :: ConnectedAt(history, tag, i)
    ensures forall tag, i :: ConnectedAt(history, tag, i) ==>
                               RecordFits(history, tag, i, StoredAfter(history)[SessionKey(tag)])
  {
    forall tag: string
      ensures SessionKey(tag) in StoredAfter(history) <==> exists i :: ConnectedAt(history, tag, i)
      ensures forall i :: ConnectedAt(history, tag, i) ==> RecordFits(history, tag, i, StoredAfter(history)[SessionKey(tag)])
    {
      StorageFollowsHistory(history, tag);
    }
  }

  /** A removed session is never seen again, whatever arrives for it later. */
  lemma {:induction false} RemovedForGood(history: seq<Event>, later: seq<Event>, tag: string, i: nat)
    requires FreshTags(history + later) && i < |history| && history[i].Accepted? && history[i].tag == tag
    requires SessionKey(tag) !in StoredAfter(history)
    ensures SessionKey(tag) !in StoredAfter(history + later)
    decreases |later|
  {
    if later == [] {
      assert history + later == history;
    } else {
      var all, init, last := history + later, later[..|later| - 1], later[|later| - 1];
      assert all[..|all| - 1] == history + init && all[|all| - 1] == last;
      RemovedForGood(history, init, tag, i);
      assert all[i] == history[i];
      assert SessionKey(last.tag)[8..] == last.tag && SessionKey(tag)[8..] == tag;
    }
  }

  predicate ClockMovesForward(history: seq<Event>) {
    && (forall i, j :: 0 <= i < j < |history| ==> history[i].now <= history[j].now)
    && (forall e <- history :: e.Accepted? ==> e.connectedAt <= e.now)
  }

  /** Under a nondecreasing clock no session was active before it connected. */
  lemma {:induction false} ActivityFollowsConnection(history: seq<Event>, key: string)
    requires ClockMovesForward(history) && key in StoredAfter(history)
    ensures StoredAfter(history)[key].connectedAt <= StoredAfter(history)[key].lastActivity <= history[|history| - 1].now
    decreases |history|
  {
    var past, last := history[..|history| - 1], history[|history| - 1];
    assert last in history;
    if key in StoredAfter(past) {
      assert history[|past| - 1].now <= last.now;
      ActivityFollowsConnection(past, key);
    }
  }

  /** Everything stored is found by a listing with the session prefix, under its own tag. */
  lemma {:induction false} StoredUnderItsTag(history: seq<Event>, key: string)
    requires key in StoredAfter(history)
    ensures key == "session:" + StoredAfter(history)[key].tag && "session:" <= key
    decreases |history|
  {
    if key in StoredAfter(history[..|history| - 1]) {
      StoredUnderItsTag(history[..|history| - 1], key);
    }
  }
}
