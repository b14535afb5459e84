/** The filters of GET /cruises, GET /lowerings and GET
    /lowerings/bycruise/{id}, built entry by entry as the handlers build
    their `query` objects. */
module Listings {
  import opened Wrappers
  import opened Json
  import opened Filter
  import opened AccessControl
  import opened Visibility
  import opened TimeWindow

  /** A `<entity>_tags` parameter: one tag, or an array of them. */
  datatype Tags = OneTag(tag: string) | AnyTag(tags: seq<string>)

  /** The query parameters the listings read.  A string parameter that is
      the empty string is falsy and counts as not given. */
  datatype ListingParams = ListingParams(
    hidden: Option<bool>,
    id: Option<string>,
    location: Option<string>,
    tags: Option<Tags>,
    startTS: Option<int>,
    stopTS: Option<int>)

  predicate Given(s: Option<string>) { s.Some? && s.value != "" }

  /** `if (request.query.x_tags)`: an array is truthy, one tag when non-empty. */
  predicate TagsGiven(t: Option<Tags>) { t.Some? && (t.value.AnyTag? || t.value.tag != "") }

  function Strs(ss: seq<string>): (r: seq<Json>)
    ensures |r| == |ss|
    ensures forall i :: 0 <= i < |ss| ==> r[i] == Str(ss[i])
  {
    if |ss| == 0 then [] else [Str(ss[0])] + Strs(ss[1..])
  }

  /** `{ $in: tags }` for an array, the tag itself otherwise. */
  function TagClause(t: Tags): Clause {
    match t
    case OneTag(s) => Equals(Str(s))
    case AnyTag(ts) => OneOf(Strs(ts))
  }

  function Optional(cond: bool, e: Entry): seq<Entry> {
    if cond then [e] else []
  }

  /** `start_ts: { $lt: stop }, stop_ts: { $gt: start }`. */
  function Overlapping(start: int, stop: int): seq<Entry> {
    [Entry("start_ts", Range(None, Some(Bound(stop, true)))),
     Entry("stop_ts", Range(Some(Bound(start, true)), None))]
  }

  function LocationEntry(entityType: string, p: ListingParams): seq<Entry> {
    Optional(Given(p.location), Entry(entityType + "_location", Equals(Str(p.location.GetOr("")))))
  }

  function TagEntry(entityType: string, p: ListingParams): seq<Entry> {
    Optional(TagsGiven(p.tags), Entry(entityType + "_tags", TagClause(p.tags.GetOr(AnyTag([])))))
  }

  /** When either time is given, the records overlapping the requested
      interval, which runs from the epoch to `now` by default. */
  function TimeEntries(p: ListingParams, now: int): seq<Entry> {
    if p.startTS.Some? || p.stopTS.Some? then Overlapping(p.startTS.GetOr(0), p.stopTS.GetOr(now)) else []
  }

  /** The entries GET /cruises and GET /lowerings add after the hidden part:
      the id alone when it is given, otherwise location, tags and times. */
  function ListingEntries(entityType: string, p: ListingParams, now: int): seq<Entry> {
    if Given(p.id) then [Entry(entityType + "_id", Equals(Str(p.id.value)))]
    else LocationEntry(entityType, p) + TagEntry(entityType, p) + TimeEntries(p, now)
  }

  /** The hidden part sets only the hidden field or `$or`. */
  lemma HiddenPartKeys(entityType: string, hidden: Option<bool>, creds: Credentials, useAccessControl: bool)
    ensures KeysWithin(HiddenPart(entityType, hidden, creds, useAccessControl), {HiddenField(entityType), "$or"})
  {
  }

  /** The field names of one listing differ from each other. */
  lemma ListingKeysDistinct(entityType: string)
    requires KnownEntity(entityType)
    ensures entityType + "_id" !in {HiddenField(entityType), "$or"}
    ensures entityType + "_location" !in {HiddenField(entityType), "$or"}
    ensures entityType + "_tags" !in {HiddenField(entityType), "$or", entityType + "_location"}
    ensures "start_ts" !in {HiddenField(entityType), "$or", entityType + "_location", entityType + "_tags"}
    ensures "stop_ts" !in {HiddenField(entityType), "$or", entityType + "_location", entityType + "_tags", "start_ts"}
  {
    if entityType == "cruise" {
      assert HiddenField(entityType) == "cruise_hidden";
      assert entityType + "_id" == "cruise_id";
      assert entityType + "_location" == "cruise_location";
      assert entityType + "_tags" == "cruise_tags";
    } else {
      assert HiddenField(entityType) == "lowering_hidden";
      assert entityType + "_id" == "lowering_id";
      assert entityType + "_location" == "lowering_location";
      assert entityType + "_tags" == "lowering_tags";
    }
  }

  /** The time entries, computed as the handler does. */
  method AddOverlap(q: Query, p: ListingParams, now: int, ghost keys: set<string>) returns (r: Query)
    requires KeysWithin(q, keys) && "start_ts" !in keys && "stop_ts" !in keys
    ensures r.entries == q.entries + TimeEntries(p, now)
  {
    r := q;
    if p.startTS.Some? || p.stopTS.Some? {
      var startTS := 0;
      var stopTS := now;
      if p.startTS.Some? {
        startTS := p.startTS.value;
      }
      if p.stopTS.Some? {
        stopTS := p.stopTS.value;
      }
      r := Assign(r, "start_ts", Range(None, Some(Bound(stopTS, true))), keys);
      r := Assign(r, "stop_ts", Range(Some(Bound(startTS, true)), None), keys + {"start_ts"});
    }
  }

  /** The location, tag and time entries, appended in the handler's order. */
  method AddListingFilters(entityType: string, q: Query, p: ListingParams, now: int) returns (r: Query)
    requires KnownEntity(entityType)
    requires KeysWithin(q, {HiddenField(entityType), "$or"})
    ensures r.entries == q.entries + (LocationEntry(entityType, p) + TagEntry(entityType, p) + TimeEntries(p, now))
  {
    ListingKeysDistinct(entityType);
    ghost var keys := {HiddenField(entityType), "$or"};
    r := q;
    if Given(p.location) {
      r := Assign(r, entityType + "_location", Equals(Str(p.location.value)), keys);
    }
    keys := keys + {entityType + "_location"};
    assert KeysWithin(r, keys);
    ghost var atTags := r.entries;
    if TagsGiven(p.tags) {
      r := Assign(r, entityType + "_tags", TagClause(p.tags.value), keys);
    }
    keys := keys + {entityType + "_tags"};
    assert KeysWithin(r, keys);
    ghost var atTimes := r.entries;
    r := AddOverlap(r, p, now, keys);
    assert atTags == q.entries + LocationEntry(entityType, p);
    assert atTimes == atTags + TagEntry(entityType, p);
    AppendThree(q.entries, LocationEntry(entityType, p), TagEntry(entityType, p), TimeEntries(p, now));
  }

  lemma AppendThree<T>(a: seq<T>, b: seq<T>, c: seq<T>, d: seq<T>)
    ensures a + b + c + d == a + (b + c + d)
  {
  }

  /** GET /cruises (with `metaFilter` true when a PI or vessel parameter is
      given) and GET /lowerings (which has neither).  Without a `cruise_id`,
      the PI and vessel filters assign into `query.cruise_additional_meta`,
      which was never created; the TypeError escapes the handler. */
  method ListingQuery(entityType: string, p: ListingParams, metaFilter: bool, creds: Credentials,
                      useAccessControl: bool, now: int) returns (r: Result<Query>)
    requires KnownEntity(entityType)
    ensures !ScopeAdmin(creds) && p.hidden == Some(true) ==> r == Err(Unauthorized)
    ensures !(!ScopeAdmin(creds) && p.hidden == Some(true)) && !Given(p.id) && metaFilter ==> r == Err(TypeError)
    ensures !(!ScopeAdmin(creds) && p.hidden == Some(true)) && !(!Given(p.id) && metaFilter) ==>
      r == Ok(Query(HiddenPart(entityType, p.hidden, creds, useAccessControl).entries + ListingEntries(entityType, p, now)))
  {
    var hiddenPart := ListingHiddenFilter(entityType, p.hidden, creds, useAccessControl);
    if hiddenPart.Err? {
      return hiddenPart;
    }
    var query := hiddenPart.value;
    HiddenPartKeys(entityType, p.hidden, creds, useAccessControl);
    ListingKeysDistinct(entityType);
    if Given(p.id) {
      query := Assign(query, entityType + "_id", Equals(Str(p.id.value)), {HiddenField(entityType), "$or"});
    } else {
      if metaFilter {
        return Err(TypeError);
      }
      query := AddListingFilters(entityType, query, p, now);
    }
    return Ok(query);
  }

  /** Given an id, the listing filters on nothing else. */
  lemma IdExcludesOtherFilters(entityType: string, p: ListingParams, now: int)
    requires Given(p.id)
    ensures ListingEntries(entityType, p, now) == [Entry(entityType + "_id", Equals(Str(p.id.value)))]
  {
  }

  /** The time entries keep exactly the records whose interval overlaps the
      requested one: starting before its stop and stopping after its start. */
  lemma OverlappingMatches(start: int, stop: int, rec: Fields, env: Env)
    ensures Matches(Query(Overlapping(start, stop)), rec, env) <==>
      env.time(Get(rec, "start_ts")).Some? && env.time(Get(rec, "start_ts")).value < stop &&
      env.time(Get(rec, "stop_ts")).Some? && env.time(Get(rec, "stop_ts")).value > start
  {
    var es := Overlapping(start, stop);
    assert Matches(Query(es), rec, env) <==> EntryMatches(es[0], rec, env) && EntryMatches(es[1], rec, env);
  }

  /** A listed record satisfies the hidden part of the filter, and the time
      part when times were requested. */
  lemma {:induction false} ListingMatches(entityType: string, p: ListingParams, creds: Credentials,
                                          useAccessControl: bool, now: int, rec: Fields, env: Env)
    requires !Given(p.id) && (p.startTS.Some? || p.stopTS.Some?)
    ensures Matches(Query(HiddenPart(entityType, p.hidden, creds, useAccessControl).entries
                          + ListingEntries(entityType, p, now)), rec, env) ==>
      Matches(HiddenPart(entityType, p.hidden, creds, useAccessControl), rec, env) &&
      env.time(Get(rec, "start_ts")).Some? && env.time(Get(rec, "start_ts")).value < p.stopTS.GetOr(now) &&
      env.time(Get(rec, "stop_ts")).Some? && env.time(Get(rec, "stop_ts")).value > p.startTS.GetOr(0)
  {
    var hp := HiddenPart(entityType, p.hidden, creds, useAccessControl);
    var loc := LocationEntry(entityType, p);
    var tags := TagEntry(entityType, p);
    var times := Overlapping(p.startTS.GetOr(0), p.stopTS.GetOr(now));
    assert ListingEntries(entityType, p, now) == loc + tags + times;
    assert hp.entries + (loc + tags + times) == (hp.entries + (loc + tags)) + times;
    MatchesAppend(hp.entries + (loc + tags), times, rec, env);
    MatchesAppend(hp.entries, loc + tags, rec, env);
    assert Query(hp.entries) == hp;
    OverlappingMatches(p.startTS.GetOr(0), p.stopTS.GetOr(now), rec, env);
  }

  // ---- GET /lowerings/bycruise/{id} ----

  /** The hidden part of the bycruise filter.  The `hidden` parameter is the
      only source of a hidden constraint; without it a non-administrator gets
      none when access control is off, and under access control the `$or`
      reads the unassigned `query.lowering_hidden`, which is undefined. */
  function ByCruiseHiddenPart(hidden: Option<bool>, creds: Credentials, useAccessControl: bool): Query
  {
    if ScopeAdmin(creds) then
      (if hidden.Some? then Query([Entry("lowering_hidden", Equals(Bool(hidden.value)))]) else Query([]))
    else if useAccessControl then
      Query([Entry("$or", AnyOf([Query([Entry("lowering_hidden", Equals(if hidden.Some? then Bool(false) else Undefined))]),
                                 Listed("lowering", IdValue(creds))]))])
    else if hidden.Some? then NotHidden("lowering")
    else Query([])
  }

  function IdEntry(p: ListingParams): seq<Entry> {
    Optional(Given(p.id), Entry("lowering_id", Equals(Str(p.id.GetOr("")))))
  }

  /** `start_ts >= ` the clamped start and `stop_ts <= ` the clamped stop. */
  function ClampedEntries(p: ListingParams, cruiseStart: int, cruiseStop: int): seq<Entry> {
    [Entry("start_ts", Range(Some(Bound(ClampStart(p.startTS, cruiseStart, cruiseStop), false)), None)),
     Entry("stop_ts", Range(None, Some(Bound(ClampStop(p.stopTS, cruiseStart, cruiseStop), false))))]
  }

  /** The entries after the hidden part: id, location and tags as given (the
      id is not exclusive here), then the clamped times. */
  function ByCruiseEntries(p: ListingParams, cruiseStart: int, cruiseStop: int): seq<Entry> {
    IdEntry(p) + LocationEntry("lowering", p) + TagEntry("lowering", p) + ClampedEntries(p, cruiseStart, cruiseStop)
  }

  /** The hidden part of the bycruise filter, built as the handler builds it. */
  method ByCruiseHidden(hidden: Option<bool>, creds: Credentials, useAccessControl: bool) returns (r: Result<Query>)
    ensures r == if !ScopeAdmin(creds) && hidden == Some(true) then Err(Unauthorized)
                 else Ok(ByCruiseHiddenPart(hidden, creds, useAccessControl))
  {
    var query := Query([]);
    if hidden.Some? {
      if ScopeAdmin(creds) {
        query := Set(query, "lowering_hidden", Equals(Bool(hidden.value)));
      } else if hidden.value {
        return Err(Unauthorized);
      } else {
        query := Set(query, "lowering_hidden", Equals(Bool(false)));
      }
    }
    if useAccessControl && !ScopeAdmin(creds) {
      var alternatives := AnyOf([Query([Entry("lowering_hidden", Equals(ValueOf(query, "lowering_hidden")))]),
                                 Listed("lowering", IdValue(creds))]);
      var orOnly := Query([Entry("$or", alternatives)]);
      HasKeyCons(orOnly.entries[0], [], "lowering_hidden");
      UnsetAbsent(orOnly, "lowering_hidden");
      if hidden.Some? {
        HasKeyCons(query.entries[0], [], "$or");
        SetNew(query, "$or", alternatives);
        assert Set(query, "$or", alternatives).entries == [query.entries[0]] + orOnly.entries;
      }
      query := Set(query, "$or", alternatives);
      query := Unset(query, "lowering_hidden");
      assert query == orOnly;
    }
    assert HiddenField("lowering") == "lowering_hidden";
    return Ok(query);
  }

  lemma ByCruiseHiddenKeys(hidden: Option<bool>, creds: Credentials, useAccessControl: bool)
    ensures KeysWithin(ByCruiseHiddenPart(hidden, creds, useAccessControl), {"lowering_hidden", "$or"})
  {
    assert HiddenField("lowering") == "lowering_hidden";
  }

  /** The clamped time entries, computed as the handler does. */
  method AddClampedTimes(q: Query, p: ListingParams, cruiseStart: int, cruiseStop: int, ghost keys: set<string>)
    returns (r: Query)
    requires KeysWithin(q, keys) && "start_ts" !in keys && "stop_ts" !in keys
    ensures r.entries == q.entries + ClampedEntries(p, cruiseStart, cruiseStop)
  {
    var startTS := cruiseStart;
    if p.startTS.Some? {
      var requested := p.startTS.value;
      startTS := if requested >= cruiseStart && requested <= cruiseStop then requested else cruiseStart;
    }
    r := Assign(q, "start_ts", Range(Some(Bound(startTS, false)), None), keys);
    var stopTS := cruiseStop;
    if p.stopTS.Some? {
      var requested := p.stopTS.value;
      stopTS := if requested >= cruiseStart && requested <= cruiseStop then requested else cruiseStop;
    }
    r := Assign(r, "stop_ts", Range(None, Some(Bound(stopTS, false))), keys + {"start_ts"});
  }

  /** The bycruise id, location and tag filters, in the handler's order. */
  method AddByCruiseFilters(q: Query, p: ListingParams, ghost keys: set<string>) returns (r: Query)
    requires KeysWithin(q, keys)
    requires "lowering_id" !in keys && "lowering_location" !in keys && "lowering_tags" !in keys
    ensures r.entries == q.entries + IdEntry(p) + LocationEntry("lowering", p) + TagEntry("lowering", p)
    ensures KeysWithin(r, keys + {"lowering_id", "lowering_location", "lowering_tags"})
  {
    assert "lowering" + "_location" == "lowering_location" && "lowering" + "_tags" == "lowering_tags";
    r := q;
    ghost var ks := keys;
    if Given(p.id) {
      r := Assign(r, "lowering_id", Equals(Str(p.id.value)), ks);
    }
    ks := ks + {"lowering_id"};
    assert KeysWithin(r, ks);
    ghost var atLocation := r.entries;
    if Given(p.location) {
      r := Assign(r, "lowering_location", Equals(Str(p.location.value)), ks);
    }
    ks := ks + {"lowering_location"};
    assert KeysWithin(r, ks);
    ghost var atTags := r.entries;
    if TagsGiven(p.tags) {
      r := Assign(r, "lowering_tags", TagClause(p.tags.value), ks);
    }
    ks := ks + {"lowering_tags"};
    assert atLocation == q.entries + IdEntry(p);
    assert atTags == atLocation + LocationEntry("lowering", p);
  }

  method ByCruiseQuery(p: ListingParams, creds: Credentials, useAccessControl: bool,
                       cruiseStart: int, cruiseStop: int) returns (r: Result<Query>)
    ensures r == if !ScopeAdmin(creds) && p.hidden == Some(true) then Err(Unauthorized)
                 else Ok(Query(ByCruiseHiddenPart(p.hidden, creds, useAccessControl).entries
                               + ByCruiseEntries(p, cruiseStart, cruiseStop)))
  {
    var hiddenPart := ByCruiseHidden(p.hidden, creds, useAccessControl);
    if hiddenPart.Err? {
      return hiddenPart;
    }
    var query := hiddenPart.value;
    ghost var keys := {"lowering_hidden", "$or"};
    ByCruiseHiddenKeys(p.hidden, creds, useAccessControl);
    query := AddByCruiseFilters(query, p, keys);
    query := AddClampedTimes(query, p, cruiseStart, cruiseStop, keys + {"lowering_id", "lowering_location", "lowering_tags"});
    ghost var base := hiddenPart.value.entries;
    AppendThree(base, IdEntry(p) + LocationEntry("lowering", p), TagEntry("lowering", p), ClampedEntries(p, cruiseStart, cruiseStop));
    assert query.entries == base + ByCruiseEntries(p, cruiseStart, cruiseStop);
    return Ok(query);
  }

  /** The bycruise time entries keep exactly the lowerings that start no
      earlier than the clamped start and stop no later than the clamped
      stop, so inside the cruise's window when that window is proper. */
  lemma ByCruiseWindow(p: ListingParams, cruiseStart: int, cruiseStop: int, rec: Fields, env: Env)
    requires cruiseStart <= cruiseStop
    ensures Matches(Query(ByCruiseEntries(p, cruiseStart, cruiseStop)), rec, env) ==>
      env.time(Get(rec, "start_ts")).Some? && env.time(Get(rec, "stop_ts")).Some? &&
      ClampStart(p.startTS, cruiseStart, cruiseStop) <= env.time(Get(rec, "start_ts")).value &&
      env.time(Get(rec, "stop_ts")).value <= ClampStop(p.stopTS, cruiseStart, cruiseStop) &&
      cruiseStart <= env.time(Get(rec, "start_ts")).value && env.time(Get(rec, "stop_ts")).value <= cruiseStop
  {
    var front := IdEntry(p) + LocationEntry("lowering", p) + TagEntry("lowering", p);
    var times := ClampedEntries(p, cruiseStart, cruiseStop);
    MatchesAppend(front, times, rec, env);
    ClampWithin(p.startTS, p.stopTS, cruiseStart, cruiseStop);
    if Matches(Query(times), rec, env) {
      assert EntryMatches(times[0], rec, env) && EntryMatches(times[1], rec, env);
    }
  }

  /** As written: without a `hidden` parameter and with access control off,
      a non-administrator's bycruise filter has no hidden constraint, so a
      hidden lowering is listed; GET /lowerings leaves it out. */
  lemma ByCruiseListsHidden(creds: Credentials, rec: Fields, env: Env)
    requires !ScopeAdmin(creds)
    requires Get(rec, "lowering_hidden") == Bool(true)
    ensures Matches(ByCruiseHiddenPart(None, creds, false), rec, env)
    ensures !Matches(HiddenPart("lowering", None, creds, false), rec, env)
  {
    assert HiddenField("lowering") == "lowering_hidden";
    MatchesOne(Entry("lowering_hidden", Equals(Bool(false))), rec, env);
  }

  /** The bycruise hidden part as evidently intended: the one GET /lowerings
      builds, with hidden == false for non-administrators by default. */
  function ByCruiseHiddenPartIntended(hidden: Option<bool>, creds: Credentials, useAccessControl: bool): Query
  {
    HiddenPart("lowering", hidden, creds, useAccessControl)
  }

  /** With it, a non-administrator's bycruise filter admits a lowering only
      when it is not hidden or, under access control, lists the caller. */
  lemma ByCruiseIntendedHides(hidden: Option<bool>, creds: Credentials, useAccessControl: bool, rec: Fields, env: Env)
    requires !ScopeAdmin(creds)
    ensures Matches(ByCruiseHiddenPartIntended(hidden, creds, useAccessControl), rec, env) <==>
      ValueMatches(Get(rec, "lowering_hidden"), Bool(false)) ||
      (useAccessControl && ValueMatches(Get(rec, "lowering_access_list"), IdValue(creds)))
  {
    assert HiddenField("lowering") == "lowering_hidden";
    assert AccessListField("lowering") == "lowering_access_list";
    if useAccessControl {
      OrMatches("lowering", IdValue(creds), rec, env);
    } else {
      MatchesOne(Entry("lowering_hidden", Equals(Bool(false))), rec, env);
    }
  }
}
