/**
 * scripts/upload-cloudflare-schema.ts: replacing an API Shield schema without a moment in which validation is off.
 *
 * Every API call may be refused, or take effect and still report an error; either way the script stops there. The
 * object ApiShield records every state the zone goes through. The hash is any function of the text.
 */
module SchemaUpload {
  import opened Options

  /** created_at is absent when it does not parse: comparing NaN is always false. */
  datatype Schema = Schema(id: nat, source: Option<string>, enabled: bool, createdAt: Option<int>)

  type Zone = seq<Schema>

  datatype Fate = Succeeds | Refused | Unacknowledged

  ghost predicate UniqueIds(zone: Zone) {
    forall i, j :: 0 <= i < j < |zone| ==> zone[i].id != zone[j].id
  }

  predicate Validating(zone: Zone) {
    exists s <- zone :: s.enabled
  }

  function WithEnabled(zone: Zone, id: nat): Zone {
    if zone == [] then []
    else [if zone[0].id == id then zone[0].(enabled := true) else zone[0]] + WithEnabled(zone[1..], id)
  }

  function Without(zone: Zone, id: nat): Zone {
    if zone == [] then []
    else if zone[0].id == id then Without(zone[1..], id)
    else [zone[0]] + Without(zone[1..], id)
  }

  function EnabledCount(zone: Zone): nat {
    if zone == [] then 0 else (if zone[0].enabled then 1 else 0) + EnabledCount(zone[1..])
  }

  function Ids(zone: Zone): set<nat> {
    set s <- zone :: s.id
  }

  // ---------------------------------------------------------------- choosing schemas

  /** existingSchemas.find(s => s.validation_enabled === true && s.schema_id !== other). */
  function FindEnabled(zone: Zone, other: Option<nat>): (found: Option<Schema>)
    ensures found.Some? ==> found.value in zone && found.value.enabled && Some(found.value.id) != other
    ensures found.None? ==> forall s <- zone :: s.enabled ==> Some(s.id) == other
  {
    if zone == [] then None
    else if zone[0].enabled && Some(zone[0].id) != other then Some(zone[0])
    else FindEnabled(zone[1..], other)
  }

  predicate CreatedLater(s: Schema, t: Schema) {
    s.createdAt.Some? && t.createdAt.Some? && s.createdAt.value > t.createdAt.value
  }

  /** The reduce over created_at, continued from latest. */
  function MostRecent(zone: Zone, latest: Option<Schema>): (found: Option<Schema>)
    ensures found.Some? ==> found.value in zone || found == latest
    ensures found.None? <==> zone == [] && latest == None
    decreases |zone|
  {
    if zone == [] then latest
    else MostRecent(zone[1..], if latest == None || CreatedLater(zone[0], latest.value) then Some(zone[0]) else latest)
  }

  /** With readable dates, no schema is newer than the chosen one. */
  lemma {:induction false} MostRecentIsNewest(zone: Zone, latest: Option<Schema>)
    requires forall s <- zone :: s.createdAt.Some?
    requires latest.Some? ==> latest.value.createdAt.Some?
    requires zone != [] || latest.Some?
    ensures var found := MostRecent(zone, latest).value;
            && found.createdAt.Some?
            && (forall s <- zone :: !CreatedLater(s, found))
            && (latest.Some? ==> !CreatedLater(latest.value, found))
    decreases |zone|
  {
    if zone != [] {
      assert zone[0] in zone;
      MostRecentIsNewest(zone[1..], if latest == None || CreatedLater(zone[0], latest.value) then Some(zone[0]) else latest);
    }
  }

  /** The enabled schema that is found is the first one that is not the other. */
  lemma {:induction false} FindEnabledIsFirst(zone: Zone, other: Option<nat>, i: nat)
    requires i < |zone| && zone[i].enabled && Some(zone[i].id) != other
    requires forall j :: 0 <= j < i ==> !zone[j].enabled || Some(zone[j].id) == other
    ensures FindEnabled(zone, other) == Some(zone[i])
  {
    if i > 0 {
      forall j | 0 <= j < i - 1
        ensures !zone[1..][j].enabled || Some(zone[1..][j].id) == other
      {
        assert zone[1..][j] == zone[j + 1];
      }
      FindEnabledIsFirst(zone[1..], other, i - 1);
    }
  }

  /** The first of the newest wins: with readable dates, every earlier schema is older. Unreadable later dates never win. */
  lemma {:induction false} MostRecentIsFirstNewest(zone: Zone, latest: Schema, i: nat)
    requires i < |zone| && latest.createdAt.Some? && zone[i].createdAt.Some?
    requires latest.createdAt.value < zone[i].createdAt.value
    requires forall j :: 0 <= j < i && zone[j].createdAt.Some? ==> zone[j].createdAt.value < zone[i].createdAt.value
    requires forall j :: i < j < |zone| && zone[j].createdAt.Some? ==> zone[j].createdAt.value <= zone[i].createdAt.value
    ensures MostRecent(zone, Some(latest)) == Some(zone[i])
    decreases |zone|
  {
    if i == 0 {
      NothingNewer(zone[1..], zone[0]);
    } else {
      forall j | 0 <= j < |zone[1..]|
        ensures zone[1..][j] == zone[j + 1]
      {
      }
      MostRecentIsFirstNewest(zone[1..], if CreatedLater(zone[0], latest) then zone[0] else latest, i - 1);
    }
  }

  /** A schema that none is newer than stays; so does one whose own date is unreadable. */
  lemma {:induction false} NothingNewer(zone: Zone, latest: Schema)
    requires forall s <- zone :: s.createdAt.Some? && latest.createdAt.Some? ==> s.createdAt.value <= latest.createdAt.value
    ensures MostRecent(zone, Some(latest)) == Some(latest)
    decreases |zone|
  {
    if zone != [] {
      assert zone[0] in zone;
      assert forall s <- zone[1..] :: s in zone;
      NothingNewer(zone[1..], latest);
    }
  }

  /** The schema to delete: the enabled one, else the most recent one. */
  function Previous(zone: Zone): Option<Schema> {
    match FindEnabled(zone, None)
    case Some(s) => Some(s)
    case None => MostRecent(zone, None)
  }

  /** An absent or empty source is not compared. */
  predicate HashesLike(s: Schema, localHash: string, hash: string -> string) {
    s.source.Some? && s.source.value != "" && hash(s.source.value) == localHash
  }

  /** The schema that the skip-if-unchanged mode compares equal, if any. */
  function Unchanged(zone: Zone, localHash: string, hash: string -> string): (found: Option<Schema>)
    ensures found.Some? ==> found.value in zone && HashesLike(found.value, localHash, hash)
  {
    if zone == [] then None
    else if HashesLike(zone[0], localHash, hash) then Some(zone[0])
    else Unchanged(zone[1..], localHash, hash)
  }

  /** It is the first schema with a non-empty source that hashes like the local one; without any, there is none. */
  lemma {:induction false} UnchangedIsFirst(zone: Zone, localHash: string, hash: string -> string, i: nat)
    requires i <= |zone|
    requires forall j :: 0 <= j < i ==>
               zone[j].source.None? || zone[j].source.value == "" || hash(zone[j].source.value) != localHash
    requires i < |zone| ==> zone[i].source.Some? && zone[i].source.value != "" && hash(zone[i].source.value) == localHash
    ensures Unchanged(zone, localHash, hash) == if i < |zone| then Some(zone[i]) else None
  {
    if i > 0 {
      forall j | 0 <= j < i - 1
        ensures !HashesLike(zone[1..][j], localHash, hash)
      {
        assert zone[1..][j] == zone[j + 1];
      }
      assert !HashesLike(zone[0], localHash, hash);
      UnchangedIsFirst(zone[1..], localHash, hash, i - 1);
    }
  }

  lemma {:induction false} UnchangedMissesNone(zone: Zone, localHash: string, hash: string -> string)
    ensures Unchanged(zone, localHash, hash) == None
            <==> forall s <- zone :: s.source.None? || s.source.value == "" || hash(s.source.value) != localHash
  {
    if zone != [] {
      UnchangedMissesNone(zone[1..], localHash, hash);
      assert forall s :: s in zone <==> s == zone[0] || s in zone[1..];
    }
  }

  /** The loop of the skip-if-unchanged mode. */
  method FindUnchanged(zone: Zone, localHash: string, hash: string -> string) returns (found: Option<Schema>)
    ensures found == Unchanged(zone, localHash, hash)
  {
    var i := 0;
    while i < |zone|
      invariant 0 <= i <= |zone|
      invariant Unchanged(zone, localHash, hash) == Unchanged(zone[i..], localHash, hash)
    {
      if HashesLike(zone[i], localHash, hash) {
        return Some(zone[i]);
      }
      i := i + 1;
    }
    return None;
  }

  // ---------------------------------------------------------------- the API

  class ApiShield {
    var zone: Zone
    ghost var trail: seq<Zone>

    constructor (zone: Zone)
      ensures this.zone == zone && trail == [zone]
    {
      this.zone, trail := zone, [zone];
    }

    /** POST: a new schema, not enabled. */
    method Upload(id: nat, content: string, createdAt: Option<int>, fate: Fate) returns (ok: bool)
      modifies this
      ensures ok == (fate == Succeeds)
      ensures zone == if fate == Refused then old(zone) else old(zone) + [Schema(id, Some(content), false, createdAt)]
      ensures trail == old(trail) + [zone]
    {
      if fate != Refused {
        zone := zone + [Schema(id, Some(content), false, createdAt)];
      }
      trail := trail + [zone];
      ok := fate == Succeeds;
    }

    /** PATCH validation_enabled: true. */
    method Enable(id: nat, fate: Fate) returns (ok: bool)
      modifies this
      ensures ok == (fate == Succeeds)
      ensures zone == if fate == Refused then old(zone) else WithEnabled(old(zone), id)
      ensures trail == old(trail) + [zone]
    {
      if fate != Refused {
        zone := WithEnabled(zone, id);
      }
      trail := trail + [zone];
      ok := fate == Succeeds;
    }

    method Delete(id: nat, fate: Fate) returns (ok: bool)
      modifies this
      ensures ok == (fate == Succeeds)
      ensures zone == if fate == Refused then old(zone) else Without(old(zone), id)
      ensures trail == old(trail) + [zone]
    {
      if fate != Refused {
        zone := Without(zone, id);
      }
      trail := trail + [zone];
      ok := fate == Succeeds;
    }
  }

  // ---------------------------------------------------------------- facts about zones

  lemma {:induction false} EnablingValidates(zone: Zone, id: nat)
    ensures Validating(zone) ==> Validating(WithEnabled(zone, id))
    ensures id in Ids(zone) ==> exists s <- WithEnabled(zone, id) :: s.enabled && s.id == id
    ensures Ids(WithEnabled(zone, id)) == Ids(zone)
  {
    if zone != [] {
      var after, rest := WithEnabled(zone, id), zone[1..];
      EnablingValidates(rest, id);
      assert after[0] in after && zone[0] in zone;
      assert forall s :: s in WithEnabled(rest, id) ==> s in after;
      assert forall s :: s in zone <==> s == zone[0] || s in rest;
      assert Ids(zone) == {zone[0].id} + Ids(rest);
      assert Ids(after) == {after[0].id} + Ids(WithEnabled(rest, id));
    }
  }

  lemma {:induction false} DeletingKeepsOthers(zone: Zone, id: nat)
    ensures forall s :: s in Without(zone, id) <==> s in zone && s.id != id
    ensures Ids(Without(zone, id)) == Ids(zone) - {id}
  {
    if zone != [] {
      DeletingKeepsOthers(zone[1..], id);
      assert forall s :: s in zone <==> s == zone[0] || s in zone[1..];
      assert forall s :: s in Without(zone, id) <==> s in zone && s.id != id;
    }
  }

  lemma {:induction false} CountAppends(zone: Zone, s: Schema)
    ensures EnabledCount(zone + [s]) == EnabledCount(zone) + (if s.enabled then 1 else 0)
  {
    if zone == [] {
      assert zone + [s] == [s] && [s][1..] == [];
    } else {
      assert (zone + [s])[1..] == zone[1..] + [s];
      CountAppends(zone[1..], s);
    }
  }

  lemma {:induction false} CountAfterEnabling(zone: Zone, s: Schema)
    requires UniqueIds(zone) && s in zone && !s.enabled
    ensures EnabledCount(WithEnabled(zone, s.id)) == EnabledCount(zone) + 1
  {
    var rest := zone[1..];
    if zone[0] == s {
      AbsentIdChangesNothing(rest, s.id);
    } else {
      assert zone[0].id != s.id;
      CountAfterEnabling(rest, s);
    }
  }

  lemma {:induction false} AbsentIdChangesNothing(zone: Zone, id: nat)
    requires forall s <- zone :: s.id != id
    ensures WithEnabled(zone, id) == zone && Without(zone, id) == zone
  {
    if zone != [] {
      assert zone[0] in zone;
      AbsentIdChangesNothing(zone[1..], id);
    }
  }

  lemma {:induction false} CountAfterDeleting(zone: Zone, s: Schema)
    requires UniqueIds(zone) && s in zone
    ensures EnabledCount(Without(zone, s.id)) == EnabledCount(zone) - (if s.enabled then 1 else 0)
  {
    var rest := zone[1..];
    if zone[0] == s {
      AbsentIdChangesNothing(rest, s.id);
    } else {
      assert zone[0].id != s.id;
      CountAfterDeleting(rest, s);
    }
  }

  lemma {:induction false} EnablingKeepsIds(zone: Zone, id: nat)
    requires UniqueIds(zone)
    ensures |WithEnabled(zone, id)| == |zone| && UniqueIds(WithEnabled(zone, id))
    ensures forall i :: 0 <= i < |zone| ==> WithEnabled(zone, id)[i].id == zone[i].id
    ensures forall i :: 0 <= i < |zone| && zone[i].id != id ==> WithEnabled(zone, id)[i] == zone[i]
  {
    if zone != [] {
      EnablingKeepsIds(zone[1..], id);
    }
  }

  lemma {:induction false} CountIsZeroOrValidating(zone: Zone)
    ensures EnabledCount(zone) == 0 <==> !Validating(zone)
  {
    if zone != [] {
      CountIsZeroOrValidating(zone[1..]);
      assert zone[0] in zone;
      assert forall s :: s in zone <==> s == zone[0] || s in zone[1..];
    }
  }

  /** Nothing is lost or changed but the schema of the given id, which is gone, and the target, which is enforced. */
  ghost predicate OnlyReplaces(before: Zone, after: Zone, target: Schema, gone: Option<nat>) {
    && target.enabled && target in after
    && (forall s <- before :: s.id != target.id && Some(s.id) != gone ==> s in after)
    && (forall s <- after :: s == target || (s in before && s.id != target.id && Some(s.id) != gone))
  }

  /** What an upload removes: the first enforced schema; else, of any schemas, one that with readable dates is newest. */
  ghost predicate RightOneGone(before: Zone, gone: Option<nat>) {
    if exists s <- before :: s.enabled then
      exists i :: 0 <= i < |before| && before[i].enabled && gone == Some(before[i].id)
                  && forall j :: 0 <= j < i ==> !before[j].enabled
    else if before == [] then gone == None
    else
      exists s <- before :: gone == Some(s.id)
                            && ((forall t <- before :: t.createdAt.Some?) ==>
                                  s.createdAt.Some? && forall t <- before :: t.createdAt.value <= s.createdAt.value)
  }

  ghost predicate UploadReplaced(before: Zone, after: Zone, uploaded: Schema) {
    exists gone :: RightOneGone(before, gone) && OnlyReplaces(before, after, uploaded, gone)
  }

  /** What enforcing the unchanged schema removes: the first other enforced one, if any. */
  ghost predicate ReEnablingReplaced(before: Zone, after: Zone, matched: Schema) {
    if exists s <- before :: s.enabled && s.id != matched.id then
      exists i :: 0 <= i < |before| && before[i].enabled && before[i].id != matched.id
                  && (forall j :: 0 <= j < i ==> !before[j].enabled || before[j].id == matched.id)
                  && OnlyReplaces(before, after, matched.(enabled := true), Some(before[i].id))
    else OnlyReplaces(before, after, matched.(enabled := true), None)
  }

  lemma EnablingMembers(zone: Zone, target: Schema)
    requires UniqueIds(zone) && target in zone
    ensures forall s :: s in WithEnabled(zone, target.id)
                        <==> s == target.(enabled := true) || (s in zone && s.id != target.id)
  {
    EnablingKeepsIds(zone, target.id);
    TargetIsEnabled(zone, target);
    var after := WithEnabled(zone, target.id);
    forall s | s in after
      ensures s == target.(enabled := true) || (s in zone && s.id != target.id)
    {
      var i :| 0 <= i < |after| && after[i] == s;
      if zone[i].id == target.id {
        var j :| 0 <= j < |after| && after[j] == target.(enabled := true);
      }
    }
    forall s | s in zone && s.id != target.id
      ensures s in after
    {
      var i :| 0 <= i < |zone| && zone[i] == s;
      assert after[i] == s;
    }
  }

  lemma ReplacingMembers(zone: Zone, target: Schema, previous: Option<Schema>)
    requires UniqueIds(zone) && target in zone && (previous.Some? ==> previous.value.id != target.id)
    ensures OnlyReplaces(zone, Replaced(zone, target.id, previous), target.(enabled := true),
                         if previous.Some? then Some(previous.value.id) else None)
  {
    EnablingMembers(zone, target);
    if previous.Some? {
      DeletingKeepsOthers(WithEnabled(zone, target.id), previous.value.id);
    }
  }

  lemma {:induction false} FirstEnabled(zone: Zone, other: Option<nat>) returns (i: nat)
    requires FindEnabled(zone, other).Some?
    ensures i < |zone| && zone[i].enabled && Some(zone[i].id) != other && FindEnabled(zone, other) == Some(zone[i])
    ensures forall j :: 0 <= j < i ==> !zone[j].enabled || Some(zone[j].id) == other
  {
    if zone[0].enabled && Some(zone[0].id) != other {
      i := 0;
    } else {
      i := FirstEnabled(zone[1..], other);
      forall j | 0 <= j < i + 1
        ensures !zone[j].enabled || Some(zone[j].id) == other
      {
        if j > 0 {
          assert zone[1..][j - 1] == zone[j];
        }
      }
      i := i + 1;
    }
  }

  lemma PreviousIsRight(zone: Zone)
    ensures RightOneGone(zone, if Previous(zone).Some? then Some(Previous(zone).value.id) else None)
  {
    if FindEnabled(zone, None).Some? {
      var i := FirstEnabled(zone, None);
      assert zone[i] in zone;
    } else if zone != [] {
      var s := MostRecent(zone, None).value;
      assert s in zone;
      if forall t <- zone :: t.createdAt.Some? {
        MostRecentIsNewest(zone, None);
      }
    }
  }

  /** The zone after an upload, without saying how it was chosen what to delete. */
  lemma UploadReplacesTheRightOne(zone: Zone, uploaded: Schema)
    requires UniqueIds(zone) && uploaded.id !in Ids(zone)
    ensures UploadReplaced(zone, Replaced(zone + [uploaded], uploaded.id, Previous(zone)), uploaded.(enabled := true))
  {
    var after := Replaced(zone + [uploaded], uploaded.id, Previous(zone));
    var gone := if Previous(zone).Some? then Some(Previous(zone).value.id) else None;
    assert forall s <- zone :: s.id in Ids(zone);
    assert Previous(zone).Some? ==> Previous(zone).value in zone;
    PreviousIsRight(zone);
    ReplacingMembers(zone + [uploaded], uploaded, Previous(zone));
    assert OnlyReplaces(zone, after, uploaded.(enabled := true), gone);
  }

  lemma ReEnablingReplacesTheRightOne(zone: Zone, matched: Schema)
    requires UniqueIds(zone) && matched in zone
    ensures ReEnablingReplaced(zone, Replaced(zone, matched.id, FindEnabled(zone, Some(matched.id))), matched)
  {
    ReplacingMembers(zone, matched, FindEnabled(zone, Some(matched.id)));
    if FindEnabled(zone, Some(matched.id)).Some? {
      var i := FirstEnabled(zone, Some(matched.id));
      assert zone[i] in zone;
    }
  }

  // ---------------------------------------------------------------- the script

  datatype Exit = Failed | DryRun | UpToDate | ReEnabled | Uploaded

  /** If some schema was enforced at first, then some schema is enforced in every state of the trail. */
  ghost predicate NoGap(start: Zone, trail: seq<Zone>) {
    Validating(start) ==> forall i :: 0 <= i < |trail| ==> Validating(trail[i])
  }

  ghost predicate AtMostOneDeleted(start: Zone, end: Zone) {
    forall a <- Ids(start), b <- Ids(start) :: a !in Ids(end) && b !in Ids(end) ==> a == b
  }

  /** The zone when the script succeeds: the uploaded or matched schema enabled, the one it replaces removed. */
  function Replaced(zone: Zone, id: nat, previous: Option<Schema>): Zone {
    var enabled := WithEnabled(zone, id);
    if previous.Some? && previous.value.id != id then Without(enabled, previous.value.id) else enabled
  }

  /** The states that replacing goes through, in order: id enforced, then previous gone. */
  function Stages(zone: Zone, id: nat, previous: Option<Schema>): seq<Zone> {
    [WithEnabled(zone, id), Replaced(zone, id, previous)]
  }

  /** Enable id, then delete previous: the common end of both paths. */
  method EnableAndReplace(api: ApiShield, id: nat, previous: Option<Schema>, enableFate: Fate, deleteFate: Fate)
    returns (ok: bool)
    requires id in Ids(api.zone)
    requires previous.Some? ==> previous.value in api.zone
    modifies api
    ensures ok ==> api.zone == Replaced(old(api.zone), id, previous)
    ensures !ok ==> api.zone == old(api.zone) || api.zone in Stages(old(api.zone), id, previous)
    ensures old(api.trail) <= api.trail && NoGap(old(api.zone), api.trail[|old(api.trail)|..])
    ensures Ids(old(api.zone)) - Ids(api.zone) <= (if previous.Some? then {previous.value.id} else {})
    ensures ok ==> Validating(api.zone)
    ensures enableFate == deleteFate == Succeeds ==> ok
  {
    EnablingValidates(api.zone, id);
    ghost var enabled := WithEnabled(api.zone, id);
    ok := api.Enable(id, enableFate);
    if ok && previous.Some? && previous.value.id != id {
      DeletingKeepsOthers(enabled, previous.value.id);
      ok := api.Delete(previous.value.id, deleteFate);
    }
  }

  lemma OneGone(start: Zone, end: Zone, gone: Option<Schema>)
    requires Ids(start) - Ids(end) <= if gone.Some? then {gone.value.id} else {}
    ensures AtMostOneDeleted(start, end)
  {
    forall a, b | a in Ids(start) && b in Ids(start) && a !in Ids(end) && b !in Ids(end)
      ensures a == b
    {
      assert a in Ids(start) - Ids(end) && b in Ids(start) - Ids(end);
    }
  }

  /**
   * main. listed is false when listing the schemas fails. At no point, whatever call fails, is validation off if it
   * was on at the start; at most one schema is ever deleted; a failure before the upload or a dry run changes
   * nothing; any other failure leaves one of the stages on the way; and on success the zone is exactly the old one
   * with the local schema enforced and its predecessor gone.
   */
  method ReplaceSchema(api: ApiShield, content: string, hash: string -> string, dryRun: bool,
                       skipIfUnchanged: bool, listed: bool, newId: nat, newDate: Option<int>,
                       uploadFate: Fate, enableFate: Fate, deleteFate: Fate)
    returns (exit: Exit)
    requires api.trail == [api.zone] && newId !in Ids(api.zone)
    modifies api
    ensures NoGap(old(api.zone), api.trail)
    ensures AtMostOneDeleted(old(api.zone), api.zone)
    ensures exit == DryRun || exit == UpToDate || !listed ==> api.zone == old(api.zone) && api.trail == [api.zone]
    ensures dryRun ==> api.trail == [old(api.zone)]
    ensures exit == UpToDate ==> exists s <- api.zone :: s.enabled && s.source.Some? && hash(s.source.value) == hash(content)
    ensures exit == ReEnabled ==>
              var matched := Unchanged(old(api.zone), hash(content), hash);
              && matched.Some? && !matched.value.enabled
              && api.zone == Replaced(old(api.zone), matched.value.id, FindEnabled(old(api.zone), Some(matched.value.id)))
    ensures exit == Uploaded ==>
              api.zone == Replaced(old(api.zone) + [Schema(newId, Some(content), false, newDate)], newId, Previous(old(api.zone)))
    ensures exit == ReEnabled || exit == Uploaded ==> Validating(api.zone)
    ensures !listed ==> exit == Failed
    ensures var matched := if skipIfUnchanged then Unchanged(old(api.zone), hash(content), hash) else None;
            var upToDate := matched.Some? && matched.value.enabled;
            && (listed && upToDate ==> exit == UpToDate)
            && (listed && !upToDate && dryRun ==> exit == DryRun)
            && (listed && !upToDate && !dryRun ==> exit == Failed || exit == if matched.Some? then ReEnabled else Uploaded)
    ensures listed && uploadFate == enableFate == deleteFate == Succeeds ==> exit != Failed
    ensures listed && !dryRun && uploadFate != Succeeds
            && (skipIfUnchanged ==> Unchanged(old(api.zone), hash(content), hash) == None) ==>
              exit == Failed && api.trail == [old(api.zone), api.zone]
    ensures exit == Failed && api.zone != old(api.zone) ==>
              var matched := if skipIfUnchanged then Unchanged(old(api.zone), hash(content), hash) else None;
              var uploaded := old(api.zone) + [Schema(newId, Some(content), false, newDate)];
              if matched.Some? then
                api.zone in Stages(old(api.zone), matched.value.id, FindEnabled(old(api.zone), Some(matched.value.id)))
              else
                api.zone == uploaded || api.zone in Stages(uploaded, newId, Previous(old(api.zone)))
  {
    if !listed {
      return Failed;
    }
    var existing := api.zone;
    if skipIfUnchanged {
      var matched := FindUnchanged(existing, hash(content), hash);
      if matched.Some? {
        if matched.value.enabled {
          return UpToDate;
        }
        if dryRun {
          return DryRun;
        }
        var active := FindEnabled(existing, Some(matched.value.id));
        var ok := EnableAndReplace(api, matched.value.id, active, enableFate, deleteFate);
        OneGone(existing, api.zone, active);
        return if ok then ReEnabled else Failed;
      }
    }
    var previous := Previous(existing);
    if dryRun {
      return DryRun;
    }
    var ok := api.Upload(newId, content, newDate, uploadFate);
    if !ok {
      return Failed;
    }
    ok := EnableAndReplace(api, newId, previous, enableFate, deleteFate);
    OneGone(existing, api.zone, previous);
    return if ok then Uploaded else Failed;
  }

  /** How many schemas are enforced once one is enforced in place of another. */
  function AfterReplacement(count: nat): nat {
    if count == 0 then 1 else count
  }

  /**
   * A successful upload enforces the new schema and leaves as many enforced schemas as before, or one if there were
   * none: from exactly one it ends with exactly one.
   */
  lemma UploadKeepsCount(zone: Zone, newId: nat, content: string, newDate: Option<int>)
    requires UniqueIds(zone) && newId !in Ids(zone)
    ensures var after := Replaced(zone + [Schema(newId, Some(content), false, newDate)], newId, Previous(zone));
            EnabledCount(after) == AfterReplacement(EnabledCount(zone)) && Schema(newId, Some(content), true, newDate) in after
  {
    var uploaded := Schema(newId, Some(content), false, newDate);
    assert forall s <- zone :: s.id in Ids(zone);
    CountIsZeroOrValidating(zone);
    CountAppends(zone, uploaded);
    ReplacingCounts(zone + [uploaded], uploaded, Previous(zone));
  }

  /** The same for an unchanged schema that is enforced again without an upload. */
  lemma ReEnablingKeepsCount(zone: Zone, matched: Schema)
    requires UniqueIds(zone) && matched in zone && !matched.enabled
    ensures var after := Replaced(zone, matched.id, FindEnabled(zone, Some(matched.id)));
            EnabledCount(after) == AfterReplacement(EnabledCount(zone)) && matched.(enabled := true) in after
  {
    CountIsZeroOrValidating(zone);
    SameIdSameSchema(zone, matched);
    ReplacingCounts(zone, matched, FindEnabled(zone, Some(matched.id)));
  }

  lemma SameIdSameSchema(zone: Zone, s: Schema)
    requires UniqueIds(zone) && s in zone
    ensures forall t <- zone :: t.id == s.id ==> t == s
  {
  }

  lemma ReplacingCounts(zone: Zone, target: Schema, previous: Option<Schema>)
    requires UniqueIds(zone) && target in zone && !target.enabled
    requires previous.Some? ==> previous.value in zone && previous.value.id != target.id
    ensures var after := Replaced(zone, target.id, previous);
            && EnabledCount(after) == EnabledCount(zone) + 1 - (if previous.Some? && previous.value.enabled then 1 else 0)
            && target.(enabled := true) in after
  {
    var enabled := WithEnabled(zone, target.id);
    CountAfterEnabling(zone, target);
    EnablingKeepsIds(zone, target.id);
    TargetIsEnabled(zone, target);
    if previous.Some? {
      var i :| 0 <= i < |zone| && zone[i] == previous.value;
      assert enabled[i] == previous.value && previous.value in enabled;
      CountAfterDeleting(enabled, previous.value);
      DeletingKeepsOthers(enabled, previous.value.id);
    }
  }

  lemma {:induction false} TargetIsEnabled(zone: Zone, target: Schema)
    requires target in zone
    ensures target.(enabled := true) in WithEnabled(zone, target.id)
  {
    if zone[0] != target {
      TargetIsEnabled(zone[1..], target);
    }
  }
}
