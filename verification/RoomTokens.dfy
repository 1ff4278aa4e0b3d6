/**
 The LiveKit token service: which publish and subscribe rights a room token carries. It reads the
 same store as the policy service, on its own.
 */
module RoomTokens {
  import opened Text
  import opened MemoryStore
  import opened Policy

  datatype Grant = Granted(canPublish: bool, canSubscribe: bool) | PermissionRequired

  const PRIVILEGED_SCOPES: seq<string> := ["media", DEFAULT_SCOPE, "relay.admin"]

  predicate HasPrivilegedAccess(env: Env, d: Data, subject: string) {
    exists i :: 0 <= i < |PRIVILEGED_SCOPES| &&
      var record := Newest(StandingAnswers(d, Aliases(env.keys, subject), PRIVILEGED_SCOPES[i]), StandingTime);
      record.Some? && IsPrivileged(record.value.standing)
  }

  function RoomGrants(env: Env, d: Data, subject: string, roomId: string): Grant {
    if SameKey(env.keys, subject, env.operator) || HasPrivilegedAccess(env, d, subject) then Granted(true, true)
    else
      match Permission(env, d, subject, roomId)
      case Some(permission) => Granted(permission.canPublish, permission.canSubscribe)
      case None =>
        if env.roomDefaults.Some? && env.roomDefaults.value(roomId).ok
        then Granted(env.roomDefaults.value(roomId).canPublish, env.roomDefaults.value(roomId).canSubscribe)
        else PermissionRequired
  }

  class TokenService {
    const store: Store
    const env: Env

    constructor (store: Store, env: Env)
      ensures this.store == store && this.env == env
    {
      this.store := store;
      this.env := env;
    }

    /** The loop of `latestStandingRecord`. */
    method FoldStandings(aliases: seq<string>, scope: string) returns (latest: Option<StandingRecord>)
      ensures latest == Newest(StandingAnswers(store.Contents(), aliases, scope), StandingTime)
    {
      ghost var answers := StandingAnswers(store.Contents(), aliases, scope);
      latest := None;
      for i := 0 to |aliases|
        invariant latest == Newest(answers[..i], StandingTime)
      {
        var record := store.LatestStanding(aliases[i], scope);
        assert answers[..i + 1][..i] == answers[..i];
        if record.None? {
          continue;
        }
        if latest.None? || record.value.createdAt > latest.value.createdAt {
          latest := record;
        }
      }
      assert answers[..|aliases|] == answers;
    }

    method LatestStandingRecord(subject: string, scope: string) returns (latest: Option<StandingRecord>)
      ensures latest == Newest(StandingAnswers(store.Contents(), Aliases(env.keys, subject), scope), StandingTime)
    {
      latest := FoldStandings(Aliases(env.keys, subject), scope);
    }

    /** The loop of `latestRoomPermission`. */
    method FoldPermissions(aliases: seq<string>, roomId: string) returns (latest: Option<RoomPermission>)
      ensures latest == Newest(PermissionAnswers(store.Contents(), aliases, roomId), PermissionTime)
    {
      ghost var answers := PermissionAnswers(store.Contents(), aliases, roomId);
      latest := None;
      for i := 0 to |aliases|
        invariant latest == Newest(answers[..i], PermissionTime)
      {
        var record := store.LatestRoomPermission(aliases[i], roomId);
        assert answers[..i + 1][..i] == answers[..i];
        if record.None? {
          continue;
        }
        if latest.None? || record.value.createdAt > latest.value.createdAt {
          latest := record;
        }
      }
      assert answers[..|aliases|] == answers;
    }

    method LatestRoomPermission(subject: string, roomId: string) returns (latest: Option<RoomPermission>)
      ensures latest == Permission(env, store.Contents(), subject, roomId)
    {
      latest := FoldPermissions(Aliases(env.keys, subject), roomId);
    }

    method HasPrivilegedRoomAccess(subject: string) returns (privileged: bool)
      ensures privileged == HasPrivilegedAccess(env, store.Contents(), subject)
    {
      for i := 0 to |PRIVILEGED_SCOPES|
        invariant forall k :: 0 <= k < i ==>
          var answers := StandingAnswers(store.Contents(), Aliases(env.keys, subject), PRIVILEGED_SCOPES[k]);
          var record := Newest(answers, StandingTime);
          !(record.Some? && IsPrivileged(record.value.standing))
      {
        var record := LatestStandingRecord(subject, PRIVILEGED_SCOPES[i]);
        if record.None? {
          continue;
        }
        if record.value.standing == "owner" || record.value.standing == "moderator" {
          return true;
        }
      }
      return false;
    }

    method ComputeRoomGrants(subject: string, roomId: string) returns (grant: Grant)
      ensures grant == RoomGrants(env, store.Contents(), subject, roomId)
    {
      if SameKey(env.keys, subject, env.operator) {
        return Granted(true, true);
      }
      var privileged := HasPrivilegedRoomAccess(subject);
      if privileged {
        return Granted(true, true);
      }
      var permission := LatestRoomPermission(subject, roomId);
      if permission.None? {
        if env.roomDefaults.Some? {
          var defaults := env.roomDefaults.value(roomId);
          if defaults.ok {
            return Granted(defaults.canPublish, defaults.canSubscribe);
          }
        }
        return PermissionRequired;
      }
      return Granted(permission.value.canPublish, permission.value.canSubscribe);
    }
  }
}
