/** What the write routes of routes/api/v1/cruises.js and
    routes/api/v1/lowerings.js decide before they touch the store: the
    record POST inserts, the date and access-list tests of POST and PATCH,
    the `$set` of PATCH, and the list updates (`$pull`, `$push`, `$set`) the
    permission routes and the PATCH cascade send, on one record and on many.
    The two route files repeat the same code with the entity name changed;
    where they differ the entity type decides. */
module Records {
  import opened Wrappers
  import opened Json
  import opened Filter
  import opened AccessControl
  import opened Visibility
  import opened Listings
  import opened MetaExport

  // ---- Dates ----

  /** `a >= b` between two values the handler holds as Dates.  A value that
      is no Date (a lowering without a stop time) or an Invalid Date
      compares false, as NaN does. */
  predicate TimeGe(a: Json, b: Json, env: Env) {
    a.Date? && b.Date? && env.time(a).Some? && env.time(b).Some? &&
    env.time(a).value >= env.time(b).value
  }

  // ---- record ids ----

  predicate IdTaken(recs: seq<Fields>, id: Json) {
    exists i :: 0 <= i < |recs| && Get(recs[i], "_id") == id
  }

  /** `findOne({ _id: id })`: the position of the first record with that
      id, or -1. */
  function FindById(recs: seq<Fields>, id: Json): (k: int)
    ensures -1 <= k < |recs|
    ensures k == -1 <==> !IdTaken(recs, id)
    ensures k >= 0 ==> Get(recs[k], "_id") == id
    ensures forall j :: 0 <= j < k ==> Get(recs[j], "_id") != id
    decreases |recs|
  {
    if |recs| == 0 then -1
    else if Get(recs[0], "_id") == id then 0
    else
      var k := FindById(recs[1..], id);
      assert forall j :: 0 < j < |recs| ==> recs[1..][j - 1] == recs[j];
      assert IdTaken(recs, id) ==> IdTaken(recs[1..], id) by {
        if IdTaken(recs, id) {
          var i :| 0 <= i < |recs| && Get(recs[i], "_id") == id;
          assert recs[1..][i - 1] == recs[i];
        }
      }
      if k == -1 then -1 else k + 1
  }

  // ---- POST ----

  /** `cruise._id = new ObjectID(payload.id); delete cruise.id` when the
      payload carries an id (the text stands for the ObjectId's hex); an id
      that is no string is refused with 400. */
  function WithObjectId(payload: Fields): Result<Fields> {
    var id := Get(payload, "id");
    if !Truthy(id) then Ok(payload)
    else if id.Str? then Ok(Delete(Put(payload, "_id", Oid(id.s)), "id"))
    else Err(BadRequest)
  }

  /** `list && list.length > 0`: only an array or a string has a length. */
  predicate NonEmptyList(v: Json) {
    (v.Arr? && |v.items| > 0) || (v.Str? && |v.s| > 0)
  }

  /** The access-list validation of POST and PATCH as written.  It calls
      `toArray()` on the users collection object, which has no such method:
      for any non-empty list the call raises a TypeError inside the `try`,
      and the handler answers 503. */
  function CheckListAsWritten(list: Json): (r: Result<()>)
    ensures r.Err? <==> NonEmptyList(list)
    ensures r.Err? ==> r.error == ServerUnavailable
  {
    if NonEmptyList(list) then Err(ServerUnavailable) else Ok(())
  }

  /** The same validation as evidently intended, and as the permission
      routes do it: read the users, compare the listed ids with their ids as
      text, and answer 400 when one is unknown.  A string list has no
      `reduce`, which raises. */
  function CheckList(list: Json, userIds: seq<string>): Result<()> {
    if !NonEmptyList(list) then Ok(())
    else if !list.Arr? then Err(ServerUnavailable)
    else if forall i :: 0 <= i < |list.items| ==> list.items[i] in Strs(userIds) then Ok(())
    else Err(BadRequest)
  }

  /** The record POST hands to `insertOne`, or the answer it gives instead:
      the id is converted (and, for a cruise, refused when taken), start
      must come before stop, the hidden flag defaults to false and, under
      access control, a missing list to []. */
  function Drafted(entityType: string, payload: Fields, existing: seq<Fields>, useAccessControl: bool, env: Env)
    : (r: Result<Fields>)
    ensures r.Err? ==> r.error == BadRequest || r.error == ServerUnavailable
    ensures WithObjectId(payload).Err? ==> r == Err(BadRequest)
  {
    match WithObjectId(payload)
    case Err(e) => Err(e)
    case Ok(rec) =>
      if entityType == "cruise" && Truthy(Get(payload, "id")) && IdTaken(existing, Get(rec, "_id")) then
        Err(BadRequest)
      else if TimeGe(Get(rec, "start_ts"), Get(rec, "stop_ts"), env) then Err(BadRequest)
      else
        var withHidden := if Get(rec, HiddenField(entityType)) == Undefined
                          then Put(rec, HiddenField(entityType), Bool(false)) else rec;
        var list := Get(withHidden, AccessListField(entityType));
        if !Truthy(list) && useAccessControl then Ok(Put(withHidden, AccessListField(entityType), Arr([])))
        else
          match CheckListAsWritten(list)
          case Err(e) => Err(e)
          case Ok(_) => Ok(withHidden)
  }

  /** `insertOne`: a record without `_id` gets the id the driver generates;
      an id already in the collection breaks the unique index, and the
      handler answers 503. */
  function Inserted(rec: Fields, existing: seq<Fields>, freshId: string): (r: Result<Fields>)
    ensures r.Ok? ==> !IdTaken(existing, Get(r.value, "_id"))
  {
    var withId := if Get(rec, "_id") == Undefined then Put(rec, "_id", Oid(freshId)) else rec;
    if IdTaken(existing, Get(withId, "_id")) then Err(ServerUnavailable) else Ok(withId)
  }

  /** The record POST adds to the collection, or the answer it gives. */
  function CreateSpec(entityType: string, payload: Fields, existing: seq<Fields>, freshId: string,
                      useAccessControl: bool, env: Env): (r: Result<Fields>)
    ensures r.Ok? ==> !IdTaken(existing, Get(r.value, "_id"))
    ensures r.Err? ==> r.error == BadRequest || r.error == ServerUnavailable
  {
    match Drafted(entityType, payload, existing, useAccessControl, env)
    case Err(e) => Err(e)
    case Ok(rec) => Inserted(rec, existing, freshId)
  }

  lemma IdFieldsDiffer(entityType: string, k: string)
    requires KnownEntity(entityType)
    requires k == "start_ts" || k == "stop_ts" || k == HiddenField(entityType) || k == AccessListField(entityType)
    ensures k != "id" && k != "_id"
  {
    assert |HiddenField(entityType)| > 3 && |AccessListField(entityType)| > 3;
  }

  /** The id conversion leaves every other field alone. */
  lemma WithObjectIdGet(payload: Fields, k: string)
    requires WithObjectId(payload).Ok? && k != "id" && k != "_id"
    ensures Get(WithObjectId(payload).value, k) == Get(payload, k)
  {
    var id := Get(payload, "id");
    if Truthy(id) {
      GetPut(payload, "_id", Oid(id.s), k);
      GetDelete(Put(payload, "_id", Oid(id.s)), "id", k);
    }
  }

  /** A start that is not before the stop is refused with 400, whatever
      else the payload holds. */
  lemma CreateRejectsUnordered(entityType: string, payload: Fields, existing: seq<Fields>, freshId: string,
                               useAccessControl: bool, env: Env)
    requires KnownEntity(entityType)
    requires TimeGe(Get(payload, "start_ts"), Get(payload, "stop_ts"), env)
    ensures CreateSpec(entityType, payload, existing, freshId, useAccessControl, env) == Err(BadRequest)
  {
    if WithObjectId(payload).Ok? {
      IdFieldsDiffer(entityType, "start_ts");
      IdFieldsDiffer(entityType, "stop_ts");
      WithObjectIdGet(payload, "start_ts");
      WithObjectIdGet(payload, "stop_ts");
    }
  }

  /** A lowering created without a stop time never fails the date test. */
  lemma CreateWithoutStop(payload: Fields, existing: seq<Fields>, freshId: string, useAccessControl: bool, env: Env)
    requires !Has(payload, "stop_ts")
    ensures Drafted("lowering", payload, existing, useAccessControl, env) ==
      match WithObjectId(payload)
      case Err(e) => Err(e)
      case Ok(rec) =>
        var withHidden := if Get(rec, "lowering_hidden") == Undefined
                          then Put(rec, "lowering_hidden", Bool(false)) else rec;
        var list := Get(withHidden, "lowering_access_list");
        if !Truthy(list) && useAccessControl then Ok(Put(withHidden, "lowering_access_list", Arr([])))
        else
          match CheckListAsWritten(list)
          case Err(e) => Err(e)
          case Ok(_) => Ok(withHidden)
  {
    assert HiddenField("lowering") == "lowering_hidden";
    assert AccessListField("lowering") == "lowering_access_list";
    if WithObjectId(payload).Ok? {
      IdFieldsDiffer("lowering", "stop_ts");
      WithObjectIdGet(payload, "stop_ts");
    }
  }

  /** The hidden flag of a created record: false unless the payload set one. */
  lemma CreateHiddenDefault(entityType: string, payload: Fields, existing: seq<Fields>, freshId: string,
                            useAccessControl: bool, env: Env)
    requires KnownEntity(entityType)
    requires CreateSpec(entityType, payload, existing, freshId, useAccessControl, env).Ok?
    ensures Get(CreateSpec(entityType, payload, existing, freshId, useAccessControl, env).value, HiddenField(entityType)) ==
      if Get(payload, HiddenField(entityType)) == Undefined then Bool(false) else Get(payload, HiddenField(entityType))
  {
    var hf := HiddenField(entityType);
    var lf := AccessListField(entityType);
    var rec := WithObjectId(payload).value;
    IdFieldsDiffer(entityType, hf);
    WithObjectIdGet(payload, hf);
    var withHidden := if Get(rec, hf) == Undefined then Put(rec, hf, Bool(false)) else rec;
    GetPut(rec, hf, Bool(false), hf);
    assert hf != lf by { assert |hf| != |lf|; }
    GetPut(withHidden, lf, Arr([]), hf);
    var drafted := Drafted(entityType, payload, existing, useAccessControl, env).value;
    GetPut(drafted, "_id", Oid(freshId), hf);
  }

  /** The access list of a created record: [] under access control when
      the payload had none, the payload's list otherwise; a non-empty list
      never gets this far. */
  lemma CreateListDefault(entityType: string, payload: Fields, existing: seq<Fields>, freshId: string,
                          useAccessControl: bool, env: Env)
    requires KnownEntity(entityType)
    requires CreateSpec(entityType, payload, existing, freshId, useAccessControl, env).Ok?
    ensures Get(CreateSpec(entityType, payload, existing, freshId, useAccessControl, env).value, AccessListField(entityType)) ==
      if !Truthy(Get(payload, AccessListField(entityType))) && useAccessControl then Arr([])
      else Get(payload, AccessListField(entityType))
    ensures !NonEmptyList(Get(payload, AccessListField(entityType)))
  {
    var hf := HiddenField(entityType);
    var lf := AccessListField(entityType);
    var rec := WithObjectId(payload).value;
    IdFieldsDiffer(entityType, lf);
    WithObjectIdGet(payload, lf);
    assert hf != lf by { assert |hf| != |lf|; }
    GetPut(rec, hf, Bool(false), lf);
    var withHidden := if Get(rec, hf) == Undefined then Put(rec, hf, Bool(false)) else rec;
    GetPut(withHidden, lf, Arr([]), lf);
    var drafted := Drafted(entityType, payload, existing, useAccessControl, env).value;
    GetPut(drafted, "_id", Oid(freshId), lf);
  }

  /** The created record's id is the payload's, or the generated one, and
      is new to the collection. */
  lemma CreateId(entityType: string, payload: Fields, existing: seq<Fields>, freshId: string,
                 useAccessControl: bool, env: Env)
    requires KnownEntity(entityType)
    requires CreateSpec(entityType, payload, existing, freshId, useAccessControl, env).Ok?
    ensures var rec := CreateSpec(entityType, payload, existing, freshId, useAccessControl, env).value;
      Get(rec, "_id") == (if Truthy(Get(payload, "id")) then Oid(Get(payload, "id").s)
                          else if Get(payload, "_id") != Undefined then Get(payload, "_id")
                          else Oid(freshId)) &&
      !IdTaken(existing, Get(rec, "_id"))
  {
    var hf := HiddenField(entityType);
    var lf := AccessListField(entityType);
    var id := Get(payload, "id");
    if Truthy(id) {
      GetPut(payload, "_id", Oid(id.s), "_id");
      GetDelete(Put(payload, "_id", Oid(id.s)), "id", "_id");
    }
    var rec := WithObjectId(payload).value;
    IdFieldsDiffer(entityType, hf);
    IdFieldsDiffer(entityType, lf);
    GetPut(rec, hf, Bool(false), "_id");
    var withHidden := if Get(rec, hf) == Undefined then Put(rec, hf, Bool(false)) else rec;
    GetPut(withHidden, lf, Arr([]), "_id");
    var drafted := Drafted(entityType, payload, existing, useAccessControl, env).value;
    GetPut(drafted, "_id", Oid(freshId), "_id");
  }

  /** As written, a create with a non-empty access list never succeeds,
      whichever users it names. */
  lemma CreateListUnavailable(entityType: string, payload: Fields, existing: seq<Fields>, freshId: string,
                              useAccessControl: bool, env: Env)
    requires KnownEntity(entityType)
    requires NonEmptyList(Get(payload, AccessListField(entityType)))
    ensures CreateSpec(entityType, payload, existing, freshId, useAccessControl, env).Err?
  {
    if CreateSpec(entityType, payload, existing, freshId, useAccessControl, env).Ok? {
      CreateListDefault(entityType, payload, existing, freshId, useAccessControl, env);
      assert false;
    }
  }

  /** The list check as written refuses a list naming one existing user;
      the intended check accepts it. */
  lemma ListCheckFinding(user: string, userIds: seq<string>)
    requires user in userIds
    ensures CheckListAsWritten(Arr([Str(user)])) == Err(ServerUnavailable)
    ensures CheckList(Arr([Str(user)]), userIds) == Ok(())
  {
    var i :| 0 <= i < |userIds| && userIds[i] == user;
    assert Strs(userIds)[i] == Str(user);
  }

  /** The intended check on an array: accepted iff every entry is the id of
      a user, refused with 400 otherwise. */
  lemma CheckListMeaning(items: seq<Json>, userIds: seq<string>)
    ensures CheckList(Arr(items), userIds) == Ok(()) <==>
      forall i :: 0 <= i < |items| ==> items[i].Str? && items[i].s in userIds
    ensures CheckList(Arr(items), userIds).Err? ==> CheckList(Arr(items), userIds) == Err(BadRequest)
  {
    forall i | 0 <= i < |items| ensures items[i] in Strs(userIds) <==> items[i].Str? && items[i].s in userIds {
      if items[i] in Strs(userIds) {
        var j :| 0 <= j < |userIds| && Strs(userIds)[j] == items[i];
      }
      if items[i].Str? && items[i].s in userIds {
        var j :| 0 <= j < |userIds| && userIds[j] == items[i].s;
        assert Strs(userIds)[j] == items[i];
      }
    }
  }

  // ---- PATCH ----

  /** The date test of PATCH as written, on the payload and the stored
      record: 400 when the new start is not before the new stop, or not
      before the stored stop, or the stored start is not before the new
      stop. */
  predicate PatchDatesRejected(payload: Fields, stored: Fields, env: Env) {
    var start := Get(payload, "start_ts");
    var stop := Get(payload, "stop_ts");
    (Truthy(start) && Truthy(stop) && TimeGe(start, stop, env)) ||
    (Truthy(start) && TimeGe(start, Get(stored, "stop_ts"), env)) ||
    (Truthy(stop) && TimeGe(Get(stored, "start_ts"), stop, env))
  }

  /** The test as evidently intended: the window the record has after the
      update must be ordered, a date the payload leaves out keeping its
      stored value. */
  predicate MergedDatesRejected(payload: Fields, stored: Fields, env: Env) {
    var start := if Truthy(Get(payload, "start_ts")) then Get(payload, "start_ts") else Get(stored, "start_ts");
    var stop := if Truthy(Get(payload, "stop_ts")) then Get(payload, "stop_ts") else Get(stored, "stop_ts");
    TimeGe(start, stop, env)
  }

  /** As written, moving a window stored as [0, 10] to [20, 30] is refused:
      the new start is compared with the old stop. */
  lemma PatchRejectsMovedWindow()
    ensures var env := Env(d => if d == Date("0") then Some(0) else if d == Date("10") then Some(10)
                               else if d == Date("20") then Some(20) else if d == Date("30") then Some(30)
                               else None,
                           (p, s) => false);
      var stored := [Member("start_ts", Date("0")), Member("stop_ts", Date("10"))];
      var payload := [Member("start_ts", Date("20")), Member("stop_ts", Date("30"))];
      PatchDatesRejected(payload, stored, env) && !MergedDatesRejected(payload, stored, env)
  {
    var env := Env(d => if d == Date("0") then Some(0) else if d == Date("10") then Some(10)
                        else if d == Date("20") then Some(20) else if d == Date("30") then Some(30)
                        else None,
                   (p, s) => false);
    var payload := [Member("start_ts", Date("20")), Member("stop_ts", Date("30"))];
    assert Get(payload, "start_ts") == Date("20");
    assert Get(payload, "stop_ts") == Date("30");
  }

  /** What the intended test refuses in a payload that moves a date, the
      written one refuses too. */
  lemma MergedImpliesAsWritten(payload: Fields, stored: Fields, env: Env)
    requires Truthy(Get(payload, "start_ts")) || Truthy(Get(payload, "stop_ts"))
    requires MergedDatesRejected(payload, stored, env)
    ensures PatchDatesRejected(payload, stored, env)
  {
  }

  /** The two tests agree on a payload that moves one date only. */
  lemma OneDateAgrees(payload: Fields, stored: Fields, env: Env)
    requires Truthy(Get(payload, "start_ts")) != Truthy(Get(payload, "stop_ts"))
    ensures PatchDatesRejected(payload, stored, env) <==> MergedDatesRejected(payload, stored, env)
  {
  }

  /** `$set: payload`: every payload member assigned onto the record, in
      order. */
  function SetAll(rec: Fields, payload: Fields): Fields
    decreases |payload|
  {
    if |payload| == 0 then rec
    else SetAll(Put(rec, payload[0].key, payload[0].value), payload[1..])
  }

  /** After `$set`, a field holds the payload's value when the payload has
      one, the stored value otherwise. */
  lemma {:induction false} SetAllGet(rec: Fields, payload: Fields, k: string)
    requires UniqueKeys(payload)
    ensures Get(SetAll(rec, payload), k) == if Has(payload, k) then Get(payload, k) else Get(rec, k)
    decreases |payload|
  {
    if |payload| > 0 {
      var rest := payload[1..];
      assert UniqueKeys(rest) by {
        forall i, j | 0 <= i < j < |rest| ensures rest[i].key != rest[j].key {
          assert rest[i] == payload[i + 1] && rest[j] == payload[j + 1];
        }
      }
      SetAllGet(Put(rec, payload[0].key, payload[0].value), rest, k);
      GetPut(rec, payload[0].key, payload[0].value, k);
      assert Has(payload, k) <==> payload[0].key == k || Has(rest, k) by {
        if Has(payload, k) && payload[0].key != k {
          var i :| 0 <= i < |payload| && payload[i].key == k;
          assert rest[i - 1] == payload[i];
        }
        if Has(rest, k) {
          var i :| 0 <= i < |rest| && rest[i].key == k;
          assert payload[i + 1] == rest[i];
        }
      }
      if payload[0].key == k {
        assert !Has(rest, k) by {
          forall i | 0 <= i < |rest| ensures rest[i].key != k {
            assert rest[i] == payload[i + 1];
          }
        }
      }
    }
  }

  /** With dates in the payload given as Dates, the intended test refuses
      exactly the updates that leave the stored record with a start not
      before its stop. */
  lemma MergedIsStoredWindow(payload: Fields, stored: Fields, env: Env)
    requires UniqueKeys(payload)
    requires Has(payload, "start_ts") ==> Get(payload, "start_ts").Date?
    requires Has(payload, "stop_ts") ==> Get(payload, "stop_ts").Date?
    ensures MergedDatesRejected(payload, stored, env) <==>
      TimeGe(Get(SetAll(stored, payload), "start_ts"), Get(SetAll(stored, payload), "stop_ts"), env)
  {
    SetAllGet(stored, payload, "start_ts");
    SetAllGet(stored, payload, "stop_ts");
  }

  /** After moving the uploaded files, the cruise route deletes
      `cruise_additional_meta.cruise_files` from the payload; the lowering
      route deletes a top-level `lowering_files` instead. */
  function FilesCleared(entityType: string, payload: Fields): Fields {
    var meta := Get(payload, MetaField(entityType));
    if Truthy(meta) && meta.Obj? && Truthy(Get(meta.members, FilesField(entityType))) then
      if entityType == "cruise" then Put(payload, MetaField(entityType), Obj(Delete(meta.members, FilesField(entityType))))
      else Delete(payload, FilesField(entityType))
    else payload
  }

  /** The cruise route stores the meta object without its file list; the
      lowering route stores it as sent, file list included. */
  lemma FilesClearedMeta(entityType: string, payload: Fields)
    requires KnownEntity(entityType)
    requires Get(payload, MetaField(entityType)).Obj?
    ensures entityType == "cruise" ==>
      Get(FilesCleared(entityType, payload), MetaField(entityType)).Obj? &&
      !Truthy(Get(Get(FilesCleared(entityType, payload), MetaField(entityType)).members, FilesField(entityType)))
    ensures entityType == "lowering" ==>
      Get(FilesCleared(entityType, payload), MetaField(entityType)) == Get(payload, MetaField(entityType))
  {
    var meta := Get(payload, MetaField(entityType));
    assert MetaField(entityType) != FilesField(entityType) by {
      assert |MetaField(entityType)| != |FilesField(entityType)|;
    }
    GetPut(payload, MetaField(entityType), Obj(Delete(meta.members, FilesField(entityType))), MetaField(entityType));
    GetDelete(meta.members, FilesField(entityType), FilesField(entityType));
    GetDelete(payload, FilesField(entityType), MetaField(entityType));
  }

  /** Clearing the files touches only the meta object and the file list. */
  lemma FilesClearedGet(entityType: string, payload: Fields, k: string)
    requires k != MetaField(entityType) && k != FilesField(entityType)
    ensures Get(FilesCleared(entityType, payload), k) == Get(payload, k)
  {
    var meta := Get(payload, MetaField(entityType));
    if meta.Obj? {
      GetPut(payload, MetaField(entityType), Obj(Delete(meta.members, FilesField(entityType))), k);
    }
    GetDelete(payload, FilesField(entityType), k);
  }

  /** The record PATCH stores, or the answer it gives: the fetch and its
      denial test, the date test, the access-list check, then `$set`.  A
      missing cruise is 404, a missing lowering 400. */
  function PatchSpec(entityType: string, stored: Option<Fields>, payload: Fields, creds: Credentials,
                     useAccessControl: bool, env: Env): (r: Result<Fields>)
    ensures stored.None? ==> r == Err(if entityType == "cruise" then NotFound else BadRequest)
    ensures r.Ok? ==> stored.Some? && RecordDenied(stored.value, entityType, creds, useAccessControl) == Ok(false)
    ensures r.Err? ==> r.error in {NotFound, BadRequest, Unauthorized, ServerUnavailable}
  {
    match FetchOne(stored, if entityType == "cruise" then NotFound else BadRequest, entityType, creds, useAccessControl)
    case Err(e) => Err(e)
    case Ok(rec) =>
      if PatchDatesRejected(payload, rec, env) then Err(BadRequest)
      else
        match CheckListAsWritten(Get(payload, AccessListField(entityType)))
        case Err(e) => Err(e)
        case Ok(_) => Ok(SetAll(rec, FilesCleared(entityType, payload)))
  }

  /** A PATCH that passes its tests stores the payload's fields over the
      record's and keeps the rest. */
  lemma PatchStores(entityType: string, stored: Option<Fields>, payload: Fields, creds: Credentials,
                    useAccessControl: bool, env: Env, k: string)
    requires UniqueKeys(payload)
    requires PatchSpec(entityType, stored, payload, creds, useAccessControl, env).Ok?
    requires k != MetaField(entityType) && k != FilesField(entityType)
    ensures stored.Some?
    ensures Get(PatchSpec(entityType, stored, payload, creds, useAccessControl, env).value, k) ==
      if Has(payload, k) then Get(payload, k) else Get(stored.value, k)
  {
    var cleared := FilesCleared(entityType, payload);
    FilesClearedUnique(entityType, payload);
    SetAllGet(stored.value, cleared, k);
    FilesClearedGet(entityType, payload, k);
    FilesClearedHas(entityType, payload, k);
  }

  lemma FilesClearedUnique(entityType: string, payload: Fields)
    requires UniqueKeys(payload)
    ensures UniqueKeys(FilesCleared(entityType, payload))
  {
    var meta := Get(payload, MetaField(entityType));
    if meta.Obj? {
      UniqueKeysPut(payload, MetaField(entityType), Obj(Delete(meta.members, FilesField(entityType))));
    }
    UniqueKeysDelete(payload, FilesField(entityType));
  }

  lemma FilesClearedHas(entityType: string, payload: Fields, k: string)
    requires k != MetaField(entityType) && k != FilesField(entityType)
    ensures Has(FilesCleared(entityType, payload), k) <==> Has(payload, k)
  {
    var meta := Get(payload, MetaField(entityType));
    if meta.Obj? {
      HasPut(payload, MetaField(entityType), Obj(Delete(meta.members, FilesField(entityType))), k);
    }
    HasDelete(payload, FilesField(entityType), k);
  }

  /** A PATCH whose dates the written test refuses answers 400 once the
      record is found and the caller may edit it. */
  lemma PatchRefusesDates(entityType: string, stored: Fields, payload: Fields, creds: Credentials,
                          useAccessControl: bool, env: Env)
    requires RecordDenied(stored, entityType, creds, useAccessControl) == Ok(false)
    requires PatchDatesRejected(payload, stored, env)
    ensures PatchSpec(entityType, Some(stored), payload, creds, useAccessControl, env) == Err(BadRequest)
  {
  }

  // ---- updates of stored lists ----

  /** The updates the routes send: `$pull: { f: { $in: xs } }`,
      `$push: { f: { $each: xs } }` and `$set: { f: v }`. */
  datatype Update = Pull(xs: seq<Json>) | Push(xs: seq<Json>) | Assign(v: Json)

  /** `items.filter(x => !xs.includes(x))`, which is also what `$pull` with
      `$in` leaves. */
  function Minus(items: seq<Json>, xs: seq<Json>): (r: seq<Json>)
    ensures |r| <= |items|
    ensures forall x :: x in r <==> x in items && x !in xs
    decreases |items|
  {
    if |items| == 0 then []
    else
      var rest := Minus(items[..|items| - 1], xs);
      var last := items[|items| - 1];
      assert items == items[..|items| - 1] + [last];
      if last in xs then rest else rest + [last]
  }

  /** A list has nothing the same list lacks. */
  lemma MinusSelf(items: seq<Json>)
    ensures Minus(items, items) == []
  {
    if Minus(items, items) != [] {
      assert Minus(items, items)[0] in Minus(items, items);
    }
  }

  /** One update on one record.  `$pull` on a missing field does nothing,
      `$push` creates the array, and either on a value that is no array is
      a write error, which the handlers answer with 503. */
  function ApplyUpdate(rec: Fields, f: string, u: Update): (r: Result<Fields>)
    ensures u.Assign? ==> r == Ok(Put(rec, f, u.v))
  {
    var v := Get(rec, f);
    match u
    case Assign(x) => Ok(Put(rec, f, x))
    case Pull(xs) =>
      if v == Undefined then Ok(rec)
      else if v.Arr? then Ok(Put(rec, f, Arr(Minus(v.items, xs))))
      else Err(ServerUnavailable)
    case Push(xs) =>
      if v == Undefined then Ok(Put(rec, f, Arr(xs)))
      else if v.Arr? then Ok(Put(rec, f, Arr(v.items + xs)))
      else Err(ServerUnavailable)
  }

  /** The list a field holds, [] when it is missing. */
  function ListOf(v: Json): seq<Json> {
    if v.Arr? then v.items else []
  }

  /** A successful update changes field f only; a list update fails
      exactly on a present value that is no array. */
  lemma ApplyUpdateFields(rec: Fields, f: string, u: Update, k: string)
    ensures !u.Assign? ==> (ApplyUpdate(rec, f, u).Err? <==> Get(rec, f) != Undefined && !Get(rec, f).Arr?)
    ensures ApplyUpdate(rec, f, u).Ok? && k != f ==> Get(ApplyUpdate(rec, f, u).value, k) == Get(rec, k)
  {
    var v := Get(rec, f);
    match u
    case Assign(x) => GetPut(rec, f, x, k);
    case Pull(xs) => GetPut(rec, f, Arr(Minus(ListOf(v), xs)), k);
    case Push(xs) =>
      GetPut(rec, f, Arr(ListOf(v) + xs), k);
      GetPut(rec, f, Arr(xs), k);
  }

  /** What a successful pull or push leaves in the list: the stored
      entries not pulled, in order, or the stored entries followed by the
      pushed ones. */
  lemma ApplyUpdateList(rec: Fields, f: string, u: Update)
    requires !u.Assign? && ApplyUpdate(rec, f, u).Ok?
    ensures u.Pull? && Get(rec, f) == Undefined ==> ApplyUpdate(rec, f, u).value == rec
    ensures u.Pull? && Get(rec, f).Arr? ==> Get(ApplyUpdate(rec, f, u).value, f) == Arr(Minus(Get(rec, f).items, u.xs))
    ensures u.Push? ==> Get(ApplyUpdate(rec, f, u).value, f) == Arr(ListOf(Get(rec, f)) + u.xs)
  {
    var v := Get(rec, f);
    GetPut(rec, f, Arr(Minus(ListOf(v), u.xs)), f);
    GetPut(rec, f, Arr(ListOf(v) + u.xs), f);
    GetPut(rec, f, Arr(u.xs), f);
  }

  /** The permission update of one record: pull the removed members, then
      push the added ones; a part the payload leaves out is skipped. */
  function PullThenPush(rec: Fields, f: string, add: Option<seq<Json>>, remove: Option<seq<Json>>): (r: Result<Fields>)
    ensures add.None? && remove.None? ==> r == Ok(rec)
    ensures r.Err? ==> r.error == ServerUnavailable
  {
    var pulled := if remove.Some? then ApplyUpdate(rec, f, Pull(remove.value)) else Ok(rec);
    match pulled
    case Err(e) => Err(e)
    case Ok(r) => if add.Some? then ApplyUpdate(r, f, Push(add.value)) else Ok(r)
  }

  /** After the permission update, the list holds the stored members that
      were not removed, in order, followed by every added one: a member both
      removed and added is kept, an added member already present appears
      twice. */
  lemma PullThenPushList(rec: Fields, f: string, add: seq<Json>, remove: seq<Json>)
    requires Get(rec, f) == Undefined || Get(rec, f).Arr?
    ensures PullThenPush(rec, f, Some(add), Some(remove)).Ok?
    ensures Get(PullThenPush(rec, f, Some(add), Some(remove)).value, f) == Arr(Minus(ListOf(Get(rec, f)), remove) + add)
    ensures forall x :: x in ListOf(Get(PullThenPush(rec, f, Some(add), Some(remove)).value, f)) <==>
      (x in ListOf(Get(rec, f)) && x !in remove) || x in add
  {
    ApplyUpdateList(rec, f, Pull(remove));
    var pulled := ApplyUpdate(rec, f, Pull(remove)).value;
    ApplyUpdateFields(pulled, f, Push(add), f);
    ApplyUpdateList(pulled, f, Push(add));
    if Get(rec, f) == Undefined {
      assert Minus([], remove) == [];
    }
  }

  /** One record of an `updateMany`: an update when it matches the
      filter, unchanged otherwise. */
  function Step(rec: Fields, q: Query, env: Env, f: string, u: Update): Result<Fields> {
    if Matches(q, rec, env) then ApplyUpdate(rec, f, u) else Ok(rec)
  }

  /** `updateMany(q, u)` over a collection: every record stepped, or the
      write error of a record that could not be updated. */
  function ApplyAll(recs: seq<Fields>, q: Query, env: Env, f: string, u: Update): (r: Result<seq<Fields>>)
    decreases |recs|
  {
    if |recs| == 0 then Ok([])
    else
      match ApplyAll(recs[..|recs| - 1], q, env, f, u)
      case Err(e) => Err(e)
      case Ok(done) =>
        match Step(recs[|recs| - 1], q, env, f, u)
        case Err(e) => Err(e)
        case Ok(x) => Ok(done + [x])
  }

  /** A successful `updateMany` steps every record in place. */
  lemma {:induction false} ApplyAllEach(recs: seq<Fields>, q: Query, env: Env, f: string, u: Update, i: nat)
    requires ApplyAll(recs, q, env, f, u).Ok? && i < |recs|
    ensures |ApplyAll(recs, q, env, f, u).value| == |recs|
    ensures Ok(ApplyAll(recs, q, env, f, u).value[i]) == Step(recs[i], q, env, f, u)
    decreases |recs|
  {
    var init := recs[..|recs| - 1];
    if i < |recs| - 1 {
      ApplyAllEach(init, q, env, f, u, i);
    } else if |recs| > 1 {
      ApplyAllEach(init, q, env, f, u, 0);
    }
  }

  /** `updateMany` fails exactly when some record it must update cannot be
      updated. */
  lemma {:induction false} ApplyAllFails(recs: seq<Fields>, q: Query, env: Env, f: string, u: Update)
    ensures ApplyAll(recs, q, env, f, u).Err? <==> exists i :: 0 <= i < |recs| && Step(recs[i], q, env, f, u).Err?
    decreases |recs|
  {
    if |recs| > 0 {
      var init := recs[..|recs| - 1];
      ApplyAllFails(init, q, env, f, u);
      assert forall i :: 0 <= i < |init| ==> init[i] == recs[i];
      if exists i :: 0 <= i < |recs| && Step(recs[i], q, env, f, u).Err? {
        var i :| 0 <= i < |recs| && Step(recs[i], q, env, f, u).Err?;
        if i < |init| {
          assert Step(init[i], q, env, f, u).Err?;
        }
      }
    }
  }

  /** A collection that fails nowhere is stepped record by record, so an
      update of the first i records extends to i + 1. */
  lemma ApplyAllPrefix(recs: seq<Fields>, q: Query, env: Env, f: string, u: Update, i: nat, done: seq<Fields>)
    requires i < |recs| && ApplyAll(recs[..i], q, env, f, u) == Ok(done)
    requires Step(recs[i], q, env, f, u).Ok?
    ensures ApplyAll(recs[..i + 1], q, env, f, u) == Ok(done + [Step(recs[i], q, env, f, u).value])
  {
    assert recs[..i + 1][..i] == recs[..i];
  }

  /** A record whose step fails makes the whole update fail. */
  lemma ApplyAllStops(recs: seq<Fields>, q: Query, env: Env, f: string, u: Update, i: nat)
    requires i < |recs| && Step(recs[i], q, env, f, u).Err?
    ensures ApplyAll(recs, q, env, f, u).Err?
  {
    ApplyAllFails(recs, q, env, f, u);
  }

  /** `{ start_ts: { $gte: start }, stop_ts: { $lt: stop } }`: the lowerings
      of a cruise. */
  function LoweringsWithin(start: int, stop: int): Query {
    Query([Entry("start_ts", Range(Some(Bound(start, false)), None)),
           Entry("stop_ts", Range(None, Some(Bound(stop, true))))])
  }

  /** A lowering is selected iff it starts at or after the cruise start and
      stops before the cruise stop. */
  lemma LoweringsWithinMeaning(start: int, stop: int, rec: Fields, env: Env)
    ensures Matches(LoweringsWithin(start, stop), rec, env) <==>
      env.time(Get(rec, "start_ts")).Some? && env.time(Get(rec, "start_ts")).value >= start &&
      env.time(Get(rec, "stop_ts")).Some? && env.time(Get(rec, "stop_ts")).value < stop
  {
    var q := LoweringsWithin(start, stop);
    assert q.entries[0].key == "start_ts" && q.entries[1].key == "stop_ts";
  }

  // ---- the PATCH cascade ----

  /** `a !== b` for a payload value a and a value b read back from the
      store: an array or object read back is a new object, so the two are
      never the same reference. */
  predicate StrictlyDiffers(a: Json, b: Json) {
    a.Arr? || a.Obj? || a != b
  }

  /** What the cruise PATCH cascade sends to the lowerings of the cruise:
      the hidden flag when it differs from `result`, and the members to
      remove and to add, computed against `result`. */
  datatype Cascade = Cascade(hidden: Option<Json>, remove: seq<Json>, add: seq<Json>)

  /** The cascade computed against the record `result`.  The handler
      passes the record read back after the update. */
  function CascadeAgainst(payload: Fields, result: Fields): (r: Cascade)
    ensures r.hidden.Some? ==> r.hidden.value == Get(payload, "cruise_hidden") != Undefined
    ensures !Get(payload, "cruise_access_list").Arr? ==> r.remove == [] && r.add == []
    ensures forall x :: x in r.remove ==>
      x in ListOf(Get(result, "cruise_access_list")) && x !in ListOf(Get(payload, "cruise_access_list"))
    ensures forall x :: x in r.add ==>
      x in ListOf(Get(payload, "cruise_access_list")) && x !in ListOf(Get(result, "cruise_access_list"))
  {
    var hidden := Get(payload, "cruise_hidden");
    var list := Get(payload, "cruise_access_list");
    var stored := Get(result, "cruise_access_list");
    Cascade(
      if hidden != Undefined && StrictlyDiffers(hidden, Get(result, "cruise_hidden")) then Some(hidden) else None,
      if list.Arr? && stored.Arr? then Minus(stored.items, list.items) else [],
      if list.Arr? && stored.Arr? then Minus(list.items, stored.items) else [])
  }

  /** As written, the cascade compares the payload with the record just
      updated from it, so it never sends anything. */
  lemma CascadeAsWrittenIsEmpty(stored: Fields, payload: Fields)
    requires UniqueKeys(payload)
    requires Get(payload, "cruise_hidden") == Undefined || Get(payload, "cruise_hidden").Bool?
    ensures CascadeAgainst(payload, SetAll(stored, FilesCleared("cruise", payload))) == Cascade(None, [], [])
  {
    var updated := SetAll(stored, FilesCleared("cruise", payload));
    if Get(payload, "cruise_hidden") != Undefined {
      UpdatedHoldsPayload(stored, payload, "cruise_hidden");
    }
    var list := Get(payload, "cruise_access_list");
    if list.Arr? {
      UpdatedHoldsPayload(stored, payload, "cruise_access_list");
      MinusSelf(list.items);
    }
  }

  /** A field the cruise PATCH sets, other than the meta object, holds the
      payload's value in the updated record. */
  lemma UpdatedHoldsPayload(stored: Fields, payload: Fields, k: string)
    requires UniqueKeys(payload)
    requires k == "cruise_hidden" || k == "cruise_access_list"
    requires Get(payload, k) != Undefined
    ensures Get(SetAll(stored, FilesCleared("cruise", payload)), k) == Get(payload, k)
  {
    var cleared := FilesCleared("cruise", payload);
    FilesClearedUnique("cruise", payload);
    assert k != MetaField("cruise") && k != FilesField("cruise") by {
      assert |k| < |MetaField("cruise")| && |k| != |FilesField("cruise")|;
    }
    FilesClearedGet("cruise", payload, k);
    FilesClearedHas("cruise", payload, k);
    SetAllGet(stored, cleared, k);
  }

  /** As evidently intended, against the record as it was before the
      update: pulling `remove` and then pushing `add` turns a lowering list
      holding the cruise's old members into one holding its new members. */
  lemma CascadeIntended(before: Fields, payload: Fields, lowering: Fields)
    requires Get(payload, "cruise_access_list").Arr? && Get(before, "cruise_access_list").Arr?
    requires Get(lowering, "lowering_access_list").Arr?
    requires forall x :: x in Get(lowering, "lowering_access_list").items <==> x in Get(before, "cruise_access_list").items
    ensures PullThenPush(lowering, "lowering_access_list", Some(CascadeAgainst(payload, before).add),
                         Some(CascadeAgainst(payload, before).remove)).Ok?
    ensures var c := CascadeAgainst(payload, before);
      forall x :: x in ListOf(Get(PullThenPush(lowering, "lowering_access_list", Some(c.add), Some(c.remove)).value,
                                  "lowering_access_list")) <==>
        x in Get(payload, "cruise_access_list").items
  {
    var c := CascadeAgainst(payload, before);
    PullThenPushList(lowering, "lowering_access_list", c.add, c.remove);
  }

  // ---- several updates in a row ----

  /** One `updateMany` the handlers send: the field and the update. */
  datatype Op = Op(field: string, u: Update)

  /** The updates sent one after the other, each over the whole result of
      the one before; the first write error ends the sequence. */
  function ApplyMany(recs: seq<Fields>, q: Query, env: Env, ops: seq<Op>): Result<seq<Fields>>
    decreases |ops|
  {
    if |ops| == 0 then Ok(recs)
    else
      match ApplyAll(recs, q, env, ops[0].field, ops[0].u)
      case Err(e) => Err(e)
      case Ok(next) => ApplyMany(next, q, env, ops[1..])
  }

  /** The permission routes: `$pull` when `remove` is given, then `$push`
      when `add` is given. */
  function PermissionOps(f: string, add: Option<seq<Json>>, remove: Option<seq<Json>>): seq<Op> {
    (if remove.Some? then [Op(f, Pull(remove.value))] else []) +
    (if add.Some? then [Op(f, Push(add.value))] else [])
  }

  /** The PATCH cascade: `$set` of the hidden flag when it changed, then
      `$pull` and `$push` when there is anything to remove or add. */
  function CascadeOps(c: Cascade): seq<Op> {
    (if c.hidden.Some? then [Op("lowering_hidden", Assign(c.hidden.value))] else []) +
    (if |c.remove| > 0 then [Op("lowering_access_list", Pull(c.remove))] else []) +
    (if |c.add| > 0 then [Op("lowering_access_list", Push(c.add))] else [])
  }

  /** An update of a field the lowering window does not read keeps a
      lowering in or out of the window. */
  lemma WithinStable(start: int, stop: int, rec: Fields, f: string, u: Update, env: Env)
    requires f != "start_ts" && f != "stop_ts"
    requires ApplyUpdate(rec, f, u).Ok?
    ensures Matches(LoweringsWithin(start, stop), ApplyUpdate(rec, f, u).value, env) <==>
      Matches(LoweringsWithin(start, stop), rec, env)
  {
    LoweringsWithinMeaning(start, stop, rec, env);
    LoweringsWithinMeaning(start, stop, ApplyUpdate(rec, f, u).value, env);
    ApplyUpdateFields(rec, f, u, "start_ts");
    ApplyUpdateFields(rec, f, u, "stop_ts");
  }

  /** The permission updates of `updateMany` over the lowerings of a
      window: each lowering in the window gets the record update of the
      permission route, the others are left alone. */
  lemma PermitLowerings(recs: seq<Fields>, start: int, stop: int, env: Env, f: string,
                        add: Option<seq<Json>>, remove: Option<seq<Json>>, i: nat)
    requires f != "start_ts" && f != "stop_ts"
    requires ApplyMany(recs, LoweringsWithin(start, stop), env, PermissionOps(f, add, remove)).Ok?
    requires i < |recs|
    ensures var out := ApplyMany(recs, LoweringsWithin(start, stop), env, PermissionOps(f, add, remove)).value;
      |out| == |recs| &&
      if Matches(LoweringsWithin(start, stop), recs[i], env)
      then PullThenPush(recs[i], f, add, remove) == Ok(out[i])
      else out[i] == recs[i]
  {
    var q := LoweringsWithin(start, stop);
    if remove.Some? && add.Some? {
      ApplyManyTwo(recs, q, env, Op(f, Pull(remove.value)), Op(f, Push(add.value)));
      var mid := ApplyAll(recs, q, env, f, Pull(remove.value)).value;
      ApplyAllEach(recs, q, env, f, Pull(remove.value), i);
      ApplyAllEach(mid, q, env, f, Push(add.value), i);
      if Matches(q, recs[i], env) {
        WithinStable(start, stop, recs[i], f, Pull(remove.value), env);
      }
    } else if remove.Some? {
      ApplyManyOne(recs, q, env, Op(f, Pull(remove.value)));
      ApplyAllEach(recs, q, env, f, Pull(remove.value), i);
    } else if add.Some? {
      ApplyManyOne(recs, q, env, Op(f, Push(add.value)));
      ApplyAllEach(recs, q, env, f, Push(add.value), i);
    }
  }

  lemma ApplyManyOne(recs: seq<Fields>, q: Query, env: Env, op: Op)
    ensures ApplyMany(recs, q, env, [op]) == ApplyAll(recs, q, env, op.field, op.u)
  {
    assert [op][1..] == [];
  }

  lemma ApplyManyTwo(recs: seq<Fields>, q: Query, env: Env, a: Op, b: Op)
    ensures ApplyMany(recs, q, env, [a, b]) ==
      match ApplyAll(recs, q, env, a.field, a.u)
      case Err(e) => Err(e)
      case Ok(mid) => ApplyAll(mid, q, env, b.field, b.u)
  {
    assert [a, b][1..] == [b];
    if ApplyAll(recs, q, env, a.field, a.u).Ok? {
      ApplyManyOne(ApplyAll(recs, q, env, a.field, a.u).value, q, env, b);
    }
  }
}
