/** The shared visibility rule of lib/access_control.js: who counts as
    authenticated and as an administrator, the store filter a listing starts
    from, and the check applied to one fetched record.  `useAccessControl`,
    a deployment constant in the server, is a parameter here. */
module AccessControl {
  import opened Wrappers
  import opened Text
  import opened Json
  import opened Filter

  /** `request.auth.credentials` as the JWT strategy decodes it; a token
      signed without roles carries no `scope` member. */
  datatype Credentials = Credentials(id: Option<string>, scope: Option<seq<string>>)

  /** `credentials.id` as a JavaScript value. */
  function IdValue(c: Credentials): (v: Json)
    ensures c.id.None? <==> v == Undefined
    ensures c.id.Some? ==> v == Str(c.id.value)
  {
    match c.id
    case Some(s) => Str(s)
    case None => Undefined
  }

  datatype AuthzFlags = AuthzFlags(isAuthenticated: bool, isAdmin: bool)

  /** `!!credentials?.id`: the caller carries a non-empty id. */
  predicate IsAuthenticated(creds: Option<Credentials>) {
    creds.Some? && creds.value.id.Some? && creds.value.id.value != ""
  }

  /** `!!credentials?.id` and, for an authenticated caller only,
      `credentials.scope.includes('admin')`, which raises a TypeError when the
      token has no scope. */
  function GetAuthzFlags(creds: Option<Credentials>): (r: Result<AuthzFlags>)
    ensures r.Err? <==> IsAuthenticated(creds) && creds.value.scope.None?
    ensures r.Err? ==> r.error == TypeError
    ensures r.Ok? ==> r.value.isAuthenticated == IsAuthenticated(creds)
    ensures r.Ok? ==> (r.value.isAdmin <==>
      IsAuthenticated(creds) && creds.value.scope.Some? && "admin" in creds.value.scope.value)
  {
    if !IsAuthenticated(creds) then Ok(AuthzFlags(false, false))
    else
      match creds.value.scope
      case None => Err(TypeError)
      case Some(roles) => Ok(AuthzFlags(true, "admin" in roles))
  }

  /** A caller without an id is no administrator, whatever its scope says,
      and its flags never raise. */
  lemma NoIdNoAdmin(creds: Option<Credentials>)
    requires creds.None? || creds.value.id.None? || creds.value.id.value == ""
    ensures GetAuthzFlags(creds) == Ok(AuthzFlags(false, false))
  {
  }

  /** The two entity types the visibility rule is applied to. */
  predicate KnownEntity(entityType: string) { entityType == "cruise" || entityType == "lowering" }

  function HiddenField(entityType: string): string { entityType + "_hidden" }

  function AccessListField(entityType: string): string { entityType + "_access_list" }

  /** Field names never collide with the `$or` / `$and` operator keys. */
  lemma FieldsAreNotOperators(entityType: string)
    ensures HiddenField(entityType) != "$or" && HiddenField(entityType) != "$and"
    ensures AccessListField(entityType) != "$or" && AccessListField(entityType) != "$and"
  {
    assert |HiddenField(entityType)| >= 7 && |AccessListField(entityType)| >= 12;
  }

  /** The filter `{ <entity>_hidden: false }`. */
  function NotHidden(entityType: string): Query {
    Query([Entry(HiddenField(entityType), Equals(Bool(false)))])
  }

  /** The filter `{ <entity>_access_list: id }`. */
  function Listed(entityType: string, id: Json): Query {
    Query([Entry(AccessListField(entityType), Equals(id))])
  }

  /** initializeQuery: the listing filter for the caller, or the TypeError
      getAuthzFlags raises. */
  function InitializeQuery(creds: Option<Credentials>, entityType: string, useAccessControl: bool): (r: Result<Query>)
    ensures r.Err? <==> GetAuthzFlags(creds).Err?
    ensures r.Err? ==> r.error == TypeError
    ensures GetAuthzFlags(creds) == Ok(AuthzFlags(false, false)) ==> r == Ok(NotHidden(entityType))
  {
    match GetAuthzFlags(creds)
    case Err(e) => Err(e)
    case Ok(flags) =>
      var hiddenField := HiddenField(entityType);
      var query := NotHidden(entityType);
      if flags.isAdmin then
        Ok(Unset(query, hiddenField))
      else if useAccessControl && flags.isAuthenticated then
        Ok(Set(Unset(query, hiddenField), "$or",
               AnyOf([NotHidden(entityType), Listed(entityType, IdValue(creds.value))])))
      else
        Ok(query)
  }

  /** The three shapes the listing filter takes, and the error. */
  lemma InitializeQueryShapes(creds: Option<Credentials>, entityType: string, useAccessControl: bool)
    ensures GetAuthzFlags(creds).Err? ==> InitializeQuery(creds, entityType, useAccessControl) == Err(TypeError)
    ensures GetAuthzFlags(creds) == Ok(AuthzFlags(true, true)) ==>
      InitializeQuery(creds, entityType, useAccessControl) == Ok(Query([]))
    ensures GetAuthzFlags(creds) == Ok(AuthzFlags(true, false)) && useAccessControl ==>
      InitializeQuery(creds, entityType, useAccessControl) ==
        Ok(Query([Entry("$or", AnyOf([NotHidden(entityType), Listed(entityType, Str(creds.value.id.value))]))]))
    ensures GetAuthzFlags(creds).Ok? && !GetAuthzFlags(creds).value.isAdmin &&
            !(useAccessControl && GetAuthzFlags(creds).value.isAuthenticated) ==>
      InitializeQuery(creds, entityType, useAccessControl) == Ok(NotHidden(entityType))
  {
    var q := NotHidden(entityType);
    assert Unset(Query(q.entries[1..]), HiddenField(entityType)) == Query([]);
  }

  /** An administrator's filter has neither a hidden constraint nor `$or`. */
  lemma AdminQueryUnconstrained(creds: Option<Credentials>, entityType: string, useAccessControl: bool)
    requires GetAuthzFlags(creds) == Ok(AuthzFlags(true, true))
    ensures InitializeQuery(creds, entityType, useAccessControl).Ok?
    ensures Lookup(InitializeQuery(creds, entityType, useAccessControl).value, HiddenField(entityType)).None?
    ensures Lookup(InitializeQuery(creds, entityType, useAccessControl).value, "$or").None?
    ensures forall rec, env :: Matches(InitializeQuery(creds, entityType, useAccessControl).value, rec, env)
  {
    InitializeQueryShapes(creds, entityType, useAccessControl);
  }

  // ---- checkEntityAccess ----

  /** `x || []`. */
  function OrEmpty(v: Json): (r: Json)
    ensures Truthy(v) ==> r == v
    ensures !Truthy(v) ==> r == Arr([])
  {
    if Truthy(v) then v else Arr([])
  }

  /** `list.includes(x)` for a primitive x: membership on an array, a
      substring test (after String(x)) on a string, a TypeError on any other
      value, which has no `includes` method. */
  function Includes(list: Json, x: Json): (r: Result<bool>)
    ensures r.Ok? <==> list.Arr? || list.Str?
    ensures list.Arr? ==> r == Ok(x in list.items)
    ensures list.Str? ==> r == Ok(Contains(list.s, ToText(x)))
    ensures r.Err? ==> r.error == TypeError
  {
    match list
    case Arr(items) => Ok(x in items)
    case Str(s) => Ok(Contains(s, ToText(x)))
    case _ => Err(TypeError)
  }

  /** checkEntityAccess: may the caller see this fetched record?  The
      flags are computed first, so a scope-less token raises for any record;
      the `includes` call raises for an access list that is neither an
      array nor a string; either error leaves the function. */
  function CheckEntityAccess(entity: Fields, entityType: string, creds: Option<Credentials>,
                             useAccessControl: bool): (r: Result<bool>)
    ensures GetAuthzFlags(creds).Err? ==> r == Err(TypeError)
    ensures r.Err? ==> r.error == TypeError
    ensures GetAuthzFlags(creds).Ok? && !Truthy(Get(entity, HiddenField(entityType))) ==> r == Ok(true)
    ensures r == Ok(true) && Truthy(Get(entity, HiddenField(entityType))) ==>
      GetAuthzFlags(creds).value.isAdmin || useAccessControl
  {
    match GetAuthzFlags(creds)
    case Err(e) => Err(e)
    case Ok(flags) =>
      if !Truthy(Get(entity, HiddenField(entityType))) || flags.isAdmin then Ok(true)
      else if !flags.isAuthenticated then Ok(false)
      else
        match Includes(OrEmpty(Get(entity, AccessListField(entityType))), IdValue(creds.value))
        case Err(e) => Err(e)
        case Ok(onList) => Ok(useAccessControl && onList)
  }

  /** A signed-in caller whose token has no scope makes both the check and
      the listing filter raise, whatever the record. */
  lemma ScopelessRaises(entity: Fields, entityType: string, creds: Credentials, useAccessControl: bool)
    requires IsAuthenticated(Some(creds)) && creds.scope.None?
    ensures CheckEntityAccess(entity, entityType, Some(creds), useAccessControl) == Err(TypeError)
    ensures InitializeQuery(Some(creds), entityType, useAccessControl) == Err(TypeError)
  {
  }

  /** A record that is not hidden, or an administrator, always passes. */
  lemma VisibleOrAdminPasses(entity: Fields, entityType: string, creds: Option<Credentials>, useAccessControl: bool)
    requires GetAuthzFlags(creds).Ok?
    requires !Truthy(Get(entity, HiddenField(entityType))) || GetAuthzFlags(creds).value.isAdmin
    ensures CheckEntityAccess(entity, entityType, creds, useAccessControl) == Ok(true)
  {
  }

  /** An unauthenticated caller never passes for a hidden record. */
  lemma UnauthenticatedHiddenFails(entity: Fields, entityType: string, creds: Option<Credentials>, useAccessControl: bool)
    requires Truthy(Get(entity, HiddenField(entityType)))
    requires !IsAuthenticated(creds)
    ensures CheckEntityAccess(entity, entityType, creds, useAccessControl) == Ok(false)
  {
  }

  /** A hidden record and an authenticated non-administrator: the record
      passes iff access control is on and the id is on the access list, a
      missing or otherwise falsy list counting as empty. */
  lemma HiddenPassesIffListed(entity: Fields, entityType: string, creds: Option<Credentials>, useAccessControl: bool)
    requires Truthy(Get(entity, HiddenField(entityType)))
    requires GetAuthzFlags(creds) == Ok(AuthzFlags(true, false))
    requires Get(entity, AccessListField(entityType)).Arr? || !Truthy(Get(entity, AccessListField(entityType)))
    ensures CheckEntityAccess(entity, entityType, creds, useAccessControl).Ok?
    ensures CheckEntityAccess(entity, entityType, creds, useAccessControl) == Ok(true) <==>
      useAccessControl && Get(entity, AccessListField(entityType)).Arr? &&
      Str(creds.value.id.value) in Get(entity, AccessListField(entityType)).items
  {
  }

  /** An access list that is truthy but neither an array nor a string makes
      the check raise a TypeError for a hidden record and a non-administrator. */
  lemma MalformedListRaises(entity: Fields, entityType: string, creds: Option<Credentials>, useAccessControl: bool)
    requires Truthy(Get(entity, HiddenField(entityType)))
    requires GetAuthzFlags(creds) == Ok(AuthzFlags(true, false))
    requires Truthy(Get(entity, AccessListField(entityType)))
    requires !Get(entity, AccessListField(entityType)).Arr? && !Get(entity, AccessListField(entityType)).Str?
    ensures CheckEntityAccess(entity, entityType, creds, useAccessControl) == Err(TypeError)
  {
  }

  // ---- the filter and the check agree on well-formed records ----

  lemma OrMatches(entityType: string, id: Json, rec: Fields, env: Env)
    ensures Matches(Query([Entry("$or", AnyOf([NotHidden(entityType), Listed(entityType, id)]))]), rec, env) <==>
      ValueMatches(Get(rec, HiddenField(entityType)), Bool(false)) ||
      ValueMatches(Get(rec, AccessListField(entityType)), id)
  {
    var alts := [NotHidden(entityType), Listed(entityType, id)];
    MatchesOne(Entry("$or", AnyOf(alts)), rec, env);
    MatchesOne(Entry(HiddenField(entityType), Equals(Bool(false))), rec, env);
    MatchesOne(Entry(AccessListField(entityType), Equals(id)), rec, env);
    assert alts[0] == NotHidden(entityType) && alts[1] == Listed(entityType, id);
  }

  /** When the hidden field holds a boolean and the access list is an array
      or falsy, initializeQuery raises exactly when checkEntityAccess does,
      and otherwise a record matches its filter exactly when
      checkEntityAccess lets the caller see it. */
  lemma {:induction false} QueryAgreesWithCheck(entity: Fields, entityType: string, creds: Option<Credentials>,
                                                useAccessControl: bool, env: Env)
    requires Get(entity, HiddenField(entityType)).Bool?
    requires Get(entity, AccessListField(entityType)).Arr? || !Truthy(Get(entity, AccessListField(entityType)))
    ensures InitializeQuery(creds, entityType, useAccessControl).Err? <==>
      CheckEntityAccess(entity, entityType, creds, useAccessControl).Err?
    ensures InitializeQuery(creds, entityType, useAccessControl).Ok? ==>
      (Matches(InitializeQuery(creds, entityType, useAccessControl).value, entity, env) <==>
       CheckEntityAccess(entity, entityType, creds, useAccessControl) == Ok(true))
  {
    InitializeQueryShapes(creds, entityType, useAccessControl);
    var list := Get(entity, AccessListField(entityType));
    match GetAuthzFlags(creds)
    case Err(_) =>
    case Ok(flags) =>
      if flags.isAdmin {
      } else if useAccessControl && flags.isAuthenticated {
        var id := Str(creds.value.id.value);
        OrMatches(entityType, id, entity, env);
        assert ValueMatches(list, id) <==> list.Arr? && id in list.items;
      } else {
        MatchesOne(Entry(HiddenField(entityType), Equals(Bool(false))), entity, env);
      }
  }

  /** Where the two disagree: a record without the hidden field (and without
      an access list) is left out of a non-administrator's listing but passes
      the check. */
  lemma MissingHiddenDiverges(entity: Fields, entityType: string, creds: Option<Credentials>,
                              useAccessControl: bool, env: Env)
    requires Get(entity, HiddenField(entityType)) == Undefined
    requires Get(entity, AccessListField(entityType)) == Undefined
    requires GetAuthzFlags(creds).Ok? && !GetAuthzFlags(creds).value.isAdmin
    ensures InitializeQuery(creds, entityType, useAccessControl).Ok?
    ensures !Matches(InitializeQuery(creds, entityType, useAccessControl).value, entity, env)
    ensures CheckEntityAccess(entity, entityType, creds, useAccessControl) == Ok(true)
  {
    InitializeQueryShapes(creds, entityType, useAccessControl);
    if useAccessControl && IsAuthenticated(creds) {
      OrMatches(entityType, Str(creds.value.id.value), entity, env);
    } else {
      MatchesOne(Entry(HiddenField(entityType), Equals(Bool(false))), entity, env);
    }
  }

  /** And an access list stored as a string passes the check by substring
      while the filter asks for equality. */
  lemma StringListDiverges(entity: Fields, entityType: string, creds: Option<Credentials>, env: Env)
    requires Get(entity, HiddenField(entityType)) == Bool(true)
    requires GetAuthzFlags(creds) == Ok(AuthzFlags(true, false))
    requires Get(entity, AccessListField(entityType)) == Str("x" + creds.value.id.value)
    ensures InitializeQuery(creds, entityType, true).Ok?
    ensures !Matches(InitializeQuery(creds, entityType, true).value, entity, env)
    ensures CheckEntityAccess(entity, entityType, creds, true) == Ok(true)
  {
    var id := creds.value.id.value;
    InitializeQueryShapes(creds, entityType, true);
    OrMatches(entityType, Str(id), entity, env);
    var s := "x" + id;
    assert s[1..] == id;
    assert Contains(s, ToText(Str(id)));
    assert Str(s) != Str(id) by { assert |s| != |id|; }
  }
}
