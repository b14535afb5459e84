/** The write handlers of routes/api/v1/cruises.js and
    routes/api/v1/lowerings.js over the collections they change: POST,
    PATCH and PATCH .../permissions.  A collection is the sequence of its
    records in store order; the handlers change it by `insertOne`,
    `updateOne` and `updateMany`, step by step as the routes await them. */
module Store {
  import opened Wrappers
  import opened Json
  import opened Filter
  import opened AccessControl
  import opened Visibility
  import opened Listings
  import opened Records

  /** Every member of an optional id list is the id of a user. */
  predicate UsersKnown(ids: Option<seq<string>>, userIds: seq<string>) {
    ids.None? || forall i :: 0 <= i < |ids.value| ==> ids.value[i] in userIds
  }

  function OptStrs(ids: Option<seq<string>>): Option<seq<Json>> {
    if ids.Some? then Some(Strs(ids.value)) else None
  }

  /** The lowerings the permission route updates: those inside the
      cruise's stored window, or none when the cruise has no readable
      dates. */
  function LoweringsPermitted(recs: seq<Fields>, cruise: Fields, env: Env,
                              add: Option<seq<string>>, remove: Option<seq<string>>): Result<seq<Fields>>
  {
    var start := env.time(Get(cruise, "start_ts"));
    var stop := env.time(Get(cruise, "stop_ts"));
    if start.Some? && stop.Some? then
      ApplyMany(recs, LoweringsWithin(start.value, stop.value), env,
                PermissionOps("lowering_access_list", OptStrs(add), OptStrs(remove)))
    else Ok(recs)
  }

  lemma UpdatedPrefix(s: seq<Fields>, i: nat, x: Fields)
    requires i < |s|
    ensures s[i := x][..i + 1] == s[..i] + [x]
  {
  }

  class Database {
    var cruises: seq<Fields>
    var lowerings: seq<Fields>
    /** The users' ids as text (`_id.toString()`). */
    var userIds: seq<string>

    constructor (cruises0: seq<Fields>, lowerings0: seq<Fields>, userIds0: seq<string>)
      ensures cruises == cruises0 && lowerings == lowerings0 && userIds == userIds0
    {
      cruises := cruises0;
      lowerings := lowerings0;
      userIds := userIds0;
    }

    /** The collection of an entity type. */
    function Collection(entityType: string): seq<Fields>
      reads this
    {
      if entityType == "cruise" then cruises else lowerings
    }

    /** Replaces the collection of an entity type. */
    method Store(entityType: string, recs: seq<Fields>)
      modifies this
      ensures Collection(entityType) == recs
      ensures entityType == "cruise" ==> lowerings == old(lowerings)
      ensures entityType != "cruise" ==> cruises == old(cruises)
      ensures userIds == old(userIds)
    {
      if entityType == "cruise" {
        cruises := recs;
      } else {
        lowerings := recs;
      }
    }

    /** `updateMany(q, { op: { f: ... } })` on the lowerings, record by
        record in store order. */
    method UpdateMany(q: Query, env: Env, f: string, u: Update) returns (r: Result<()>)
      modifies this
      ensures cruises == old(cruises) && userIds == old(userIds)
      ensures r.Ok? <==> ApplyAll(old(lowerings), q, env, f, u).Ok?
      ensures r.Ok? ==> lowerings == ApplyAll(old(lowerings), q, env, f, u).value
      ensures r.Err? ==> r.error == ServerUnavailable
    {
      var i := 0;
      while i < |lowerings|
        invariant 0 <= i <= |lowerings| == |old(lowerings)|
        invariant forall j :: i <= j < |lowerings| ==> lowerings[j] == old(lowerings)[j]
        invariant ApplyAll(old(lowerings)[..i], q, env, f, u) == Ok(lowerings[..i])
        invariant cruises == old(cruises) && userIds == old(userIds)
      {
        var step := Step(lowerings[i], q, env, f, u);
        if step.Err? {
          ApplyAllStops(old(lowerings), q, env, f, u, i);
          return Err(step.error);
        }
        ApplyAllPrefix(old(lowerings), q, env, f, u, i, lowerings[..i]);
        UpdatedPrefix(lowerings, i, step.value);
        lowerings := lowerings[i := step.value];
        i := i + 1;
      }
      assert old(lowerings)[..i] == old(lowerings);
      assert lowerings[..i] == lowerings;
      r := Ok(());
    }

    /** Several `updateMany` calls in a row, each awaited; the first
        failure is answered with 503. */
    method UpdateManyInTurn(q: Query, env: Env, ops: seq<Op>) returns (r: Result<()>)
      modifies this
      ensures cruises == old(cruises) && userIds == old(userIds)
      ensures r.Ok? <==> ApplyMany(old(lowerings), q, env, ops).Ok?
      ensures r.Ok? ==> lowerings == ApplyMany(old(lowerings), q, env, ops).value
      ensures r == Ok(()) || r == Err(ServerUnavailable)
    {
      var i := 0;
      while i < |ops|
        invariant 0 <= i <= |ops|
        invariant ApplyMany(old(lowerings), q, env, ops) == ApplyMany(lowerings, q, env, ops[i..])
        invariant cruises == old(cruises) && userIds == old(userIds)
      {
        assert ops[i..][1..] == ops[i + 1..];
        r := UpdateMany(q, env, ops[i].field, ops[i].u);
        if r.Err? {
          return;
        }
        i := i + 1;
      }
      r := Ok(());
    }

    /** POST: the record of `CreateSpec` appended to its collection, and its
        id returned; otherwise the handler's answer and no change. */
    method Create(entityType: string, payload: Fields, freshId: string, useAccessControl: bool, env: Env)
      returns (r: Result<Json>)
      requires KnownEntity(entityType)
      modifies this
      ensures var spec := CreateSpec(entityType, payload, old(Collection(entityType)), freshId, useAccessControl, env);
        match spec
        case Err(e) => r == Err(e) && Collection(entityType) == old(Collection(entityType))
        case Ok(rec) => r == Ok(Get(rec, "_id")) && Collection(entityType) == old(Collection(entityType)) + [rec]
      ensures entityType == "cruise" ==> lowerings == old(lowerings)
      ensures entityType != "cruise" ==> cruises == old(cruises)
      ensures userIds == old(userIds)
    {
      var existing := Collection(entityType);
      var converted := WithObjectId(payload);
      if converted.Err? {
        return Err(converted.error);
      }
      var rec := converted.value;
      if entityType == "cruise" && Truthy(Get(payload, "id")) && IdTaken(existing, Get(rec, "_id")) {
        return Err(BadRequest);
      }
      if TimeGe(Get(rec, "start_ts"), Get(rec, "stop_ts"), env) {
        return Err(BadRequest);
      }
      if Get(rec, HiddenField(entityType)) == Undefined {
        rec := Put(rec, HiddenField(entityType), Bool(false));
      }
      var list := Get(rec, AccessListField(entityType));
      if !Truthy(list) && useAccessControl {
        rec := Put(rec, AccessListField(entityType), Arr([]));
      } else if NonEmptyList(list) {
        return Err(ServerUnavailable);
      }
      if Get(rec, "_id") == Undefined {
        rec := Put(rec, "_id", Oid(freshId));
      }
      if IdTaken(existing, Get(rec, "_id")) {
        return Err(ServerUnavailable);
      }
      Store(entityType, existing + [rec]);
      r := Ok(Get(rec, "_id"));
    }

    /** PATCH /{id}: the record of `PatchSpec` stored in place of the one
        found, then, for a cruise, the cascade to its lowerings.  As written
        the cascade compares the payload with the record just updated from
        it, so the lowerings never change. */
    method Patch(entityType: string, id: Json, payload: Fields, creds: Credentials, useAccessControl: bool, env: Env)
      returns (r: Result<()>)
      requires KnownEntity(entityType)
      requires UniqueKeys(payload)
      requires Get(payload, HiddenField(entityType)) == Undefined || Get(payload, HiddenField(entityType)).Bool?
      modifies this
      ensures var k := FindById(old(Collection(entityType)), id);
        var spec := PatchSpec(entityType, if k >= 0 then Some(old(Collection(entityType))[k]) else None,
                              payload, creds, useAccessControl, env);
        match spec
        case Err(e) => r == Err(e) && Collection(entityType) == old(Collection(entityType))
        case Ok(rec) => r == Ok(()) && 0 <= k && Collection(entityType) == old(Collection(entityType))[k := rec]
      ensures lowerings == old(lowerings) || entityType == "lowering"
      ensures cruises == old(cruises) || entityType == "cruise"
      ensures userIds == old(userIds)
    {
      var recs := Collection(entityType);
      var k := FindById(recs, id);
      var fetched := FetchOne(if k >= 0 then Some(recs[k]) else None,
                              if entityType == "cruise" then NotFound else BadRequest,
                              entityType, creds, useAccessControl);
      if fetched.Err? {
        return Err(fetched.error);
      }
      var stored := fetched.value;
      if PatchDatesRejected(payload, stored, env) {
        return Err(BadRequest);
      }
      if NonEmptyList(Get(payload, AccessListField(entityType))) {
        return Err(ServerUnavailable);
      }
      var updated := SetAll(stored, FilesCleared(entityType, payload));
      Store(entityType, recs[k := updated]);
      if entityType == "cruise" {
        assert HiddenField(entityType) == "cruise_hidden";
        r := CruiseCascade(k, stored, payload, env);
      } else {
        r := Ok(());
      }
    }

    /** The cascade of the cruise PATCH, run after the cruise at k has been
        updated from `payload`: it re-reads the cruise, and sends the
        lowerings of the window the changes it finds against that record. */
    method CruiseCascade(k: nat, stored: Fields, payload: Fields, env: Env) returns (r: Result<()>)
      requires k < |cruises| && cruises[k] == SetAll(stored, FilesCleared("cruise", payload))
      requires UniqueKeys(payload)
      requires Get(payload, "cruise_hidden") == Undefined || Get(payload, "cruise_hidden").Bool?
      modifies this
      ensures r == Ok(())
      ensures cruises == old(cruises) && lowerings == old(lowerings) && userIds == old(userIds)
    {
      r := Ok(());
      if Get(payload, "cruise_hidden") != Undefined || Truthy(Get(payload, "cruise_access_list")) {
        var result := cruises[k];
        var start := if Truthy(Get(payload, "start_ts")) then Get(payload, "start_ts") else Get(result, "start_ts");
        var stop := if Truthy(Get(payload, "stop_ts")) then Get(payload, "stop_ts") else Get(result, "stop_ts");
        if env.time(start).Some? && env.time(stop).Some? {
          var c := CascadeAgainst(payload, result);
          CascadeAsWrittenIsEmpty(stored, payload);
          assert CascadeOps(c) == [];
          r := UpdateManyInTurn(LoweringsWithin(env.time(start).value, env.time(stop).value), env, CascadeOps(c));
        }
      }
    }

    /** PATCH /{id}/permissions: 404 for a missing record, 400 when `add` or
        `remove` names someone who is not a user, then the pull and push on
        the record and, for a cruise, on the lowerings inside its window as
        fetched before the update. */
    method Permissions(entityType: string, id: Json, add: Option<seq<string>>, remove: Option<seq<string>>, env: Env)
      returns (r: Result<()>)
      requires KnownEntity(entityType)
      modifies this
      ensures userIds == old(userIds)
      ensures var k := FindById(old(Collection(entityType)), id);
        k == -1 ==> r == Err(NotFound) && Collection(entityType) == old(Collection(entityType))
      ensures var k := FindById(old(Collection(entityType)), id);
        k >= 0 && !(UsersKnown(add, userIds) && UsersKnown(remove, userIds)) ==>
          r == Err(BadRequest) && Collection(entityType) == old(Collection(entityType))
      ensures var k := FindById(old(Collection(entityType)), id);
        var field := AccessListField(entityType);
        k >= 0 && UsersKnown(add, userIds) && UsersKnown(remove, userIds) ==>
          match PullThenPush(old(Collection(entityType))[k], field, OptStrs(add), OptStrs(remove))
          case Err(e) => r == Err(ServerUnavailable)
          case Ok(rec) =>
            (Collection(entityType) == old(Collection(entityType))[k := rec] &&
             (entityType == "cruise" ==>
                (r.Ok? <==> LoweringsPermitted(old(lowerings), old(cruises)[k], env, add, remove).Ok?) &&
                (r.Ok? ==> lowerings == LoweringsPermitted(old(lowerings), old(cruises)[k], env, add, remove).value)))
      ensures entityType == "lowering" ==> cruises == old(cruises) && (r.Ok? ==> r == Ok(()))
      ensures entityType == "cruise" && r.Err? ==> r.error in {NotFound, BadRequest, ServerUnavailable}
    {
      var recs := Collection(entityType);
      var k := FindById(recs, id);
      if k == -1 {
        return Err(NotFound);
      }
      var cruise := recs[k];
      if !(UsersKnown(add, userIds) && UsersKnown(remove, userIds)) {
        return Err(BadRequest);
      }
      var field := AccessListField(entityType);
      var rec := cruise;
      if remove.Some? {
        var pulled := ApplyUpdate(rec, field, Pull(Strs(remove.value)));
        if pulled.Err? {
          return Err(ServerUnavailable);
        }
        rec := pulled.value;
        Store(entityType, recs[k := rec]);
      }
      if add.Some? {
        var pushed := ApplyUpdate(rec, field, Push(Strs(add.value)));
        if pushed.Err? {
          return Err(ServerUnavailable);
        }
        rec := pushed.value;
        Store(entityType, recs[k := rec]);
      }
      r := Ok(());
      if entityType == "cruise" {
        var start := env.time(Get(cruise, "start_ts"));
        var stop := env.time(Get(cruise, "stop_ts"));
        if start.Some? && stop.Some? {
          r := UpdateManyInTurn(LoweringsWithin(start.value, stop.value), env,
                                PermissionOps("lowering_access_list", OptStrs(add), OptStrs(remove)));
        }
      }
    }
  }
}
