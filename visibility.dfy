/** The visibility rules the cruise and lowering routes implement inline
    instead of calling lib/access_control.js.  The two route files repeat the
    same code with `cruise_*` or `lowering_*` field names, so each rule is
    stated once over the entity type.  These handlers test
    `credentials.scope.includes('admin')` directly; they do not ask for an id
    first as getAuthzFlags does.  Every one of these routes declares a
    route scope, so hapi refuses a token without a scope before they run. */
module Visibility {
  import opened Wrappers
  import opened Json
  import opened Filter
  import opened AccessControl

  /** `credentials.scope.includes('admin')` in the listing and parent-filter
      handlers, which a token without a scope never reaches. */
  predicate ScopeAdmin(creds: Credentials) { creds.scope.Some? && "admin" in creds.scope.value }

  /** `credentials.scope.includes('admin')` as the single-record handlers
      evaluate it, first in their test: a TypeError without a scope, kept as
      written although the route scope keeps such a token out. */
  function AdminInScope(creds: Credentials): (r: Result<bool>)
    ensures r.Err? <==> creds.scope.None?
    ensures r.Err? ==> r.error == TypeError
    ensures r.Ok? ==> r.value == ("admin" in creds.scope.value)
  {
    match creds.scope
    case None => Err(TypeError)
    case Some(roles) => Ok("admin" in roles)
  }

  /** `query[k]` as a JavaScript value: undefined when the key is unset. */
  function ValueOf(q: Query, k: string): (v: Json)
    ensures Lookup(q, k).None? ==> v == Undefined
  {
    match Lookup(q, k)
    case Some(Equals(v)) => v
    case _ => Undefined
  }

  /** `{ $or: [{ <entity>_hidden: false }, { <entity>_access_list: id }] }`. */
  function AclFilter(entityType: string, id: Json): Query {
    Query([Entry("$or", AnyOf([NotHidden(entityType), Listed(entityType, id)]))])
  }

  // ---- single-record GET, bump and PATCH ----

  /** The denial test of the single-record handlers; Ok(true) means the
      caller is refused.  `typeof list !== 'undefined'` lets a null list
      through to `includes`, which then raises, and the scope test comes
      first, so a token without a scope raises for every record. */
  function RecordDenied(rec: Fields, entityType: string, creds: Credentials, useAccessControl: bool): (r: Result<bool>)
    ensures creds.scope.None? ==> r == Err(TypeError)
    ensures r.Err? ==> r.error == TypeError
    ensures r == Ok(true) ==> !ScopeAdmin(creds) && Truthy(Get(rec, HiddenField(entityType))) && useAccessControl
  {
    match AdminInScope(creds)
    case Err(e) => Err(e)
    case Ok(admin) =>
      if admin || !Truthy(Get(rec, HiddenField(entityType))) || !useAccessControl then Ok(false)
      else
        var list := Get(rec, AccessListField(entityType));
        if list == Undefined then Ok(false)
        else
          match Includes(list, IdValue(creds))
          case Err(e) => Err(e)
          case Ok(onList) => Ok(!onList)
  }

  /** The handler around the test: a missing record gives `missing` (404 in
      GET and bump and cruise PATCH, 400 in lowering PATCH), a refusal 401,
      and an exception inside the `try` 503. */
  function FetchOne(found: Option<Fields>, missing: Error, entityType: string, creds: Credentials,
                    useAccessControl: bool): (r: Result<Fields>)
    ensures found.None? ==> r == Err(missing)
    ensures found.Some? && RecordDenied(found.value, entityType, creds, useAccessControl) == Ok(false) ==>
      r == Ok(found.value)
    ensures found.Some? && RecordDenied(found.value, entityType, creds, useAccessControl) == Ok(true) ==>
      r == Err(Unauthorized)
    ensures found.Some? && RecordDenied(found.value, entityType, creds, useAccessControl).Err? ==>
      r == Err(ServerUnavailable)
  {
    match found
    case None => Err(missing)
    case Some(rec) =>
      match RecordDenied(rec, entityType, creds, useAccessControl)
      case Err(_) => Err(ServerUnavailable)
      case Ok(true) => Err(Unauthorized)
      case Ok(false) => Ok(rec)
  }

  /** With a missing list or an array: a TypeError without a scope;
      otherwise refused iff the caller is no administrator, the record is
      hidden, access control is on, the list is present and the id is not
      in it. */
  lemma DeniedIff(rec: Fields, entityType: string, creds: Credentials, useAccessControl: bool)
    requires Get(rec, AccessListField(entityType)) == Undefined || Get(rec, AccessListField(entityType)).Arr?
    ensures creds.scope.None? ==> RecordDenied(rec, entityType, creds, useAccessControl) == Err(TypeError)
    ensures creds.scope.Some? ==> RecordDenied(rec, entityType, creds, useAccessControl) == Ok(
      !ScopeAdmin(creds) && Truthy(Get(rec, HiddenField(entityType))) && useAccessControl &&
      Get(rec, AccessListField(entityType)).Arr? &&
      IdValue(creds) !in Get(rec, AccessListField(entityType)).items)
  {
  }

  /** A stored null list reaches `includes` and the handler answers 503. */
  lemma NullListUnavailable(rec: Fields, entityType: string, creds: Credentials)
    requires !ScopeAdmin(creds) && Truthy(Get(rec, HiddenField(entityType)))
    requires Get(rec, AccessListField(entityType)) == Null
    ensures FetchOne(Some(rec), NotFound, entityType, creds, true) == Err(ServerUnavailable)
  {
  }

  /** With access control off, a hidden record goes to any caller, although
      checkEntityAccess refuses it to an authenticated non-administrator. */
  lemma HiddenServedWithoutAcl(rec: Fields, entityType: string, creds: Credentials, missing: Error)
    requires Get(rec, HiddenField(entityType)) == Bool(true)
    requires Get(rec, AccessListField(entityType)).Arr? || !Truthy(Get(rec, AccessListField(entityType)))
    requires GetAuthzFlags(Some(creds)) == Ok(AuthzFlags(true, false))
    ensures FetchOne(Some(rec), missing, entityType, creds, false) == Ok(rec)
    ensures CheckEntityAccess(rec, entityType, Some(creds), false) == Ok(false)
  {
  }

  /** With access control on, a hidden record without an access list goes to
      any caller, although checkEntityAccess treats the list as empty. */
  lemma HiddenServedWithoutList(rec: Fields, entityType: string, creds: Credentials, missing: Error)
    requires Get(rec, HiddenField(entityType)) == Bool(true)
    requires Get(rec, AccessListField(entityType)) == Undefined
    requires GetAuthzFlags(Some(creds)) == Ok(AuthzFlags(true, false))
    ensures FetchOne(Some(rec), missing, entityType, creds, true) == Ok(rec)
    ensures CheckEntityAccess(rec, entityType, Some(creds), true) == Ok(false)
  {
  }

  /** Where the list is an array, access control is on and the caller has an
      id, the inline test raises exactly when checkEntityAccess does and
      otherwise refuses exactly what checkEntityAccess refuses. */
  lemma DeniedAgreesWithCheck(rec: Fields, entityType: string, creds: Credentials)
    requires Get(rec, AccessListField(entityType)).Arr?
    requires IsAuthenticated(Some(creds))
    ensures RecordDenied(rec, entityType, creds, true).Err? <==>
      CheckEntityAccess(rec, entityType, Some(creds), true).Err?
    ensures RecordDenied(rec, entityType, creds, true).Ok? ==>
      RecordDenied(rec, entityType, creds, true) == Ok(CheckEntityAccess(rec, entityType, Some(creds), true) != Ok(true))
  {
  }

  // ---- GET /cruises and GET /lowerings: the hidden and access-list part ----

  /** The hidden and access-list entries of a listing filter: an
      administrator's `hidden` parameter as asked, or nothing; for anyone else
      hidden == false, wrapped in `$or` with the access list under access
      control. */
  function HiddenPart(entityType: string, hidden: Option<bool>, creds: Credentials, useAccessControl: bool): Query
  {
    if ScopeAdmin(creds) then
      (if hidden.Some? then Query([Entry(HiddenField(entityType), Equals(Bool(hidden.value)))]) else Query([]))
    else if useAccessControl then AclFilter(entityType, IdValue(creds))
    else NotHidden(entityType)
  }

  /** With no `hidden` parameter and a caller that has an id and a scope, the
      listing routes build the filter initializeQuery would. */
  lemma HiddenPartIsInitializeQuery(entityType: string, creds: Credentials, useAccessControl: bool)
    requires IsAuthenticated(Some(creds)) && creds.scope.Some?
    ensures InitializeQuery(Some(creds), entityType, useAccessControl) == Ok(HiddenPart(entityType, None, creds, useAccessControl))
  {
    InitializeQueryShapes(Some(creds), entityType, useAccessControl);
  }

  /** Builds the hidden and access-control entries of a listing filter,
      field by field as the handler does; a non-administrator asking for
      hidden records is refused. */
  method ListingHiddenFilter(entityType: string, hidden: Option<bool>, creds: Credentials, useAccessControl: bool)
    returns (r: Result<Query>)
    ensures r == if !ScopeAdmin(creds) && hidden == Some(true) then Err(Unauthorized)
                 else Ok(HiddenPart(entityType, hidden, creds, useAccessControl))
    ensures hidden.None? && IsAuthenticated(Some(creds)) && creds.scope.Some? ==>
      r == InitializeQuery(Some(creds), entityType, useAccessControl)
  {
    var hiddenField := HiddenField(entityType);
    FieldsAreNotOperators(entityType);
    var query := Query([]);
    if hidden.Some? {
      if ScopeAdmin(creds) {
        query := Set(query, hiddenField, Equals(Bool(hidden.value)));
      } else if hidden.value {
        return Err(Unauthorized);
      } else {
        query := Set(query, hiddenField, Equals(Bool(false)));
      }
    } else if !ScopeAdmin(creds) {
      query := Set(query, hiddenField, Equals(Bool(false)));
    }
    if useAccessControl && !ScopeAdmin(creds) {
      assert query == NotHidden(entityType) && ValueOf(query, hiddenField) == Bool(false);
      var alternatives := AnyOf([Query([Entry(hiddenField, Equals(ValueOf(query, hiddenField)))]),
                                 Listed(entityType, IdValue(creds))]);
      HasKeyCons(query.entries[0], [], "$or");
      SetNew(query, "$or", alternatives);
      query := Set(query, "$or", alternatives);
      var orOnly := Query([Entry("$or", alternatives)]);
      HasKeyCons(orOnly.entries[0], [], hiddenField);
      UnsetAbsent(orOnly, hiddenField);
      assert query.entries == [Entry(hiddenField, Equals(Bool(false)))] + orOnly.entries;
      query := Unset(query, hiddenField);
    }
    if hidden.None? && IsAuthenticated(Some(creds)) && creds.scope.Some? {
      HiddenPartIsInitializeQuery(entityType, creds, useAccessControl);
    }
    return Ok(query);
  }

  /** The listing is stricter than the single-record handler: with access
      control off, a non-administrator's listing leaves out a hidden record
      that GET /<entity>s/{id} returns. */
  lemma ListingHidesWhatFetchServes(rec: Fields, entityType: string, creds: Credentials, env: Env)
    requires Get(rec, HiddenField(entityType)) == Bool(true)
    requires !ScopeAdmin(creds)
    ensures !Matches(NotHidden(entityType), rec, env)
    ensures creds.scope.Some? ==> FetchOne(Some(rec), NotFound, entityType, creds, false) == Ok(rec)
  {
    MatchesOne(Entry(HiddenField(entityType), Equals(Bool(false))), rec, env);
  }

  // ---- cruises bylowering / byevent and lowerings byevent ----

  /** `{ $and: [{ start_ts: { $lte: from } }, { stop_ts: { $gte: until } }] }`:
      the parent's window must contain [from, until]. */
  function Covering(from: int, until: int): seq<Query> {
    [Query([Entry("start_ts", Range(None, Some(Bound(from, false))))]),
     Query([Entry("stop_ts", Range(Some(Bound(until, false)), None))])]
  }

  /** The filter these handlers send to findOne.  The `$or` reads
      `query.<entity>_hidden` before anything assigned it, so its first
      alternative is `{ <entity>_hidden: undefined }`. */
  function ParentFilterAsWritten(entityType: string, creds: Credentials, useAccessControl: bool,
                                 from: int, until: int): Query
  {
    if useAccessControl && !ScopeAdmin(creds) then
      Query([Entry("$or", AnyOf([Query([Entry(HiddenField(entityType), Equals(Undefined))]),
                                 Listed(entityType, IdValue(creds))])),
             Entry("$and", AllOf(Covering(from, until)))])
    else if !ScopeAdmin(creds) then
      Query([Entry(HiddenField(entityType), Equals(Bool(false))), Entry("$and", AllOf(Covering(from, until)))])
    else
      Query([Entry("$and", AllOf(Covering(from, until)))])
  }

  /** Builds the parent filter step by step, as the handlers do. */
  method ParentQuery(entityType: string, creds: Credentials, useAccessControl: bool, from: int, until: int)
    returns (q: Query)
    ensures q == ParentFilterAsWritten(entityType, creds, useAccessControl, from, until)
  {
    var hiddenField := HiddenField(entityType);
    FieldsAreNotOperators(entityType);
    q := Query([]);
    if useAccessControl && !ScopeAdmin(creds) {
      q := Set(q, "$or", AnyOf([Query([Entry(hiddenField, Equals(ValueOf(q, hiddenField)))]),
                                Listed(entityType, IdValue(creds))]));
    } else if !ScopeAdmin(creds) {
      q := Set(q, hiddenField, Equals(Bool(false)));
    }
    assert |q.entries| <= 1 && (|q.entries| == 1 ==> q.entries[0].key != "$and");
    if |q.entries| == 1 {
      HasKeyCons(q.entries[0], [], "$and");
    }
    SetNew(q, "$and", AllOf(Covering(from, until)));
    q := Set(q, "$and", AllOf(Covering(from, until)));
  }

  /** The `$or` as evidently intended: `{ <entity>_hidden: false }` first. */
  function ParentFilter(entityType: string, creds: Credentials, useAccessControl: bool,
                        from: int, until: int): Query
  {
    if useAccessControl && !ScopeAdmin(creds) then
      Query([Entry("$or", AnyOf([NotHidden(entityType), Listed(entityType, IdValue(creds))])),
             Entry("$and", AllOf(Covering(from, until)))])
    else if !ScopeAdmin(creds) then
      Query([Entry(HiddenField(entityType), Equals(Bool(false))), Entry("$and", AllOf(Covering(from, until)))])
    else
      Query([Entry("$and", AllOf(Covering(from, until)))])
  }

  lemma MatchesTwo(a: Entry, b: Entry, rec: Fields, env: Env)
    ensures Matches(Query([a, b]), rec, env) <==> EntryMatches(a, rec, env) && EntryMatches(b, rec, env)
  {
    assert Query([a, b]).entries[0] == a && Query([a, b]).entries[1] == b;
  }

  lemma OrOfTwo(x: Query, y: Query, rec: Fields, env: Env)
    ensures EntryMatches(Entry("$or", AnyOf([x, y])), rec, env) <==> Matches(x, rec, env) || Matches(y, rec, env)
  {
    assert [x, y][0] == x && [x, y][1] == y;
  }

  /** As written, a non-administrator under access control does not find a
      parent whose hidden flag is false unless the caller is on its list. */
  lemma ParentMissesVisible(rec: Fields, entityType: string, creds: Credentials, from: int, until: int, env: Env)
    requires GetAuthzFlags(Some(creds)) == Ok(AuthzFlags(true, false))
    requires Get(rec, HiddenField(entityType)) == Bool(false)
    requires Get(rec, AccessListField(entityType)) == Arr([])
    ensures !Matches(ParentFilterAsWritten(entityType, creds, true, from, until), rec, env)
    ensures CheckEntityAccess(rec, entityType, Some(creds), true) == Ok(true)
  {
    var hiddenEntry := Entry(HiddenField(entityType), Equals(Undefined));
    var listEntry := Entry(AccessListField(entityType), Equals(IdValue(creds)));
    var orEntry := Entry("$or", AnyOf([Query([hiddenEntry]), Query([listEntry])]));
    MatchesTwo(orEntry, Entry("$and", AllOf(Covering(from, until))), rec, env);
    OrOfTwo(Query([hiddenEntry]), Query([listEntry]), rec, env);
    MatchesOne(hiddenEntry, rec, env);
    MatchesOne(listEntry, rec, env);
  }

  /** With the intended `$or`, the parent filter is initializeQuery's filter
      plus the covering window, for every record. */
  lemma {:induction false} ParentFilterIsInitializeQuery(rec: Fields, entityType: string, creds: Credentials,
                                                         useAccessControl: bool, from: int, until: int, env: Env)
    requires IsAuthenticated(Some(creds)) && creds.scope.Some?
    ensures InitializeQuery(Some(creds), entityType, useAccessControl).Ok?
    ensures Matches(ParentFilter(entityType, creds, useAccessControl, from, until), rec, env) <==>
      Matches(InitializeQuery(Some(creds), entityType, useAccessControl).value, rec, env) &&
      EntryMatches(Entry("$and", AllOf(Covering(from, until))), rec, env)
  {
    InitializeQueryShapes(Some(creds), entityType, useAccessControl);
    var window := Entry("$and", AllOf(Covering(from, until)));
    if useAccessControl && !ScopeAdmin(creds) {
      var orEntry := Entry("$or", AnyOf([NotHidden(entityType), Listed(entityType, IdValue(creds))]));
      MatchesTwo(orEntry, window, rec, env);
      MatchesOne(orEntry, rec, env);
    } else if !ScopeAdmin(creds) {
      var hiddenEntry := Entry(HiddenField(entityType), Equals(Bool(false)));
      MatchesTwo(hiddenEntry, window, rec, env);
      MatchesOne(hiddenEntry, rec, env);
    } else {
      MatchesOne(window, rec, env);
    }
  }
}
