/** GET /event_exports/bycruise/{id} and GET /event_exports/bylowering/{id}:
    the access check on the parent cruise or lowering, the event filter
    built from the query parameters and the parent's time window, the
    datasource post-filter, and the renaming of `_id` to `id`. */
module EventExports {
  import opened Wrappers
  import opened Text
  import opened Json
  import opened Filter
  import opened AccessControl
  import opened Visibility
  import opened TimeWindow

  // ---- the parent's access check ----

  /** The access check both export handlers run on the parent record they
      fetched (None when `findOne` found nothing).  Authentication is
      optional on these routes.  Only a truthy hidden flag triggers a check;
      no credentials or credentials without a scope are refused; the access
      list is consulted only for a non-administrator under access control,
      and a failing `includes` there is not caught. */
  function ExportParent(found: Option<Fields>, entityType: string, creds: Option<Credentials>,
                        useAccessControl: bool): (r: Result<Fields>)
    ensures found.None? ==> r == Err(NotFound)
    ensures r.Ok? ==> found == Some(r.value)
    ensures r.Err? ==> r.error in {NotFound, Unauthorized, TypeError}
  {
    if found.None? then Err(NotFound)
    else
      var parent := found.value;
      if !Truthy(Get(parent, HiddenField(entityType))) then Ok(parent)
      else if creds.None? || creds.value.scope.None? then Err(Unauthorized)
      else if "admin" in creds.value.scope.value || !useAccessControl then Ok(parent)
      else
        match Includes(OrEmpty(Get(parent, AccessListField(entityType))), IdValue(creds.value))
        case Err(e) => Err(e)
        case Ok(onList) => if onList then Ok(parent) else Err(Unauthorized)
  }

  /** A parent that is not hidden is served to anyone, signed in or not. */
  lemma VisibleParentServed(parent: Fields, entityType: string, creds: Option<Credentials>, useAccessControl: bool)
    requires !Truthy(Get(parent, HiddenField(entityType)))
    ensures ExportParent(Some(parent), entityType, creds, useAccessControl) == Ok(parent)
  {
  }

  /** A hidden parent and no credentials, or credentials without a scope:
      unauthorized, whatever the id and the access list. */
  lemma HiddenParentNeedsCredentials(parent: Fields, entityType: string, creds: Option<Credentials>,
                                     useAccessControl: bool)
    requires Truthy(Get(parent, HiddenField(entityType)))
    requires creds.None? || creds.value.scope.None?
    ensures ExportParent(Some(parent), entityType, creds, useAccessControl) == Err(Unauthorized)
  {
  }

  /** An administrator is never rejected. */
  lemma AdminParentServed(parent: Fields, entityType: string, creds: Credentials, useAccessControl: bool)
    requires ScopeAdmin(creds)
    ensures ExportParent(Some(parent), entityType, Some(creds), useAccessControl) == Ok(parent)
  {
  }

  /** A hidden parent and a caller whose scope lacks `admin`: rejected
      exactly when access control is on and the caller's id is not on the
      access list, a missing or otherwise falsy list counting as empty. */
  lemma HiddenParentIffListed(parent: Fields, entityType: string, creds: Credentials, useAccessControl: bool)
    requires Truthy(Get(parent, HiddenField(entityType)))
    requires creds.scope.Some? && "admin" !in creds.scope.value
    requires Get(parent, AccessListField(entityType)).Arr? || !Truthy(Get(parent, AccessListField(entityType)))
    ensures ExportParent(Some(parent), entityType, Some(creds), useAccessControl) ==
      if useAccessControl && !(Get(parent, AccessListField(entityType)).Arr? &&
                               IdValue(creds) in Get(parent, AccessListField(entityType)).items)
      then Err(Unauthorized) else Ok(parent)
  {
  }

  /** Where the export check and checkEntityAccess part: with access control
      off, a signed-in non-administrator gets the events of a hidden parent
      that checkEntityAccess would refuse. */
  lemma ExportServesHiddenWithoutAcl(parent: Fields, entityType: string, creds: Credentials)
    requires Truthy(Get(parent, HiddenField(entityType)))
    requires GetAuthzFlags(Some(creds)) == Ok(AuthzFlags(true, false))
    requires Get(parent, AccessListField(entityType)).Arr? || !Truthy(Get(parent, AccessListField(entityType)))
    ensures ExportParent(Some(parent), entityType, Some(creds), false) == Ok(parent)
    ensures CheckEntityAccess(parent, entityType, Some(creds), false) == Ok(false)
  {
  }

  /** Under access control, and for a caller with an id, the export check
      passes exactly when checkEntityAccess does if the token has a scope;
      without one, checkEntityAccess raises while the export check serves
      exactly the parents that are not hidden. */
  lemma ExportAgreesWithCheckUnderAcl(parent: Fields, entityType: string, creds: Credentials)
    requires IsAuthenticated(Some(creds))
    requires Get(parent, AccessListField(entityType)).Arr? || !Truthy(Get(parent, AccessListField(entityType)))
    ensures creds.scope.Some? ==> (ExportParent(Some(parent), entityType, Some(creds), true).Ok? <==>
      CheckEntityAccess(parent, entityType, Some(creds), true) == Ok(true))
    ensures creds.scope.None? ==> CheckEntityAccess(parent, entityType, Some(creds), true) == Err(TypeError)
    ensures creds.scope.None? ==> (ExportParent(Some(parent), entityType, Some(creds), true).Ok? <==>
      !Truthy(Get(parent, HiddenField(entityType))))
  {
  }

  // ---- _buildEventsQuery ----

  /** A query parameter given as one string or as an array of strings. */
  datatype Terms = One(term: string) | Many(terms: seq<string>)

  /** The parameters the event filter reads; the two times are already
      parsed to milliseconds. */
  datatype ExportParams = ExportParams(
    author: Option<Terms>,
    value: Option<Terms>,
    freetext: Option<string>,
    startTS: Option<int>,
    stopTS: Option<int>)

  /** `if (request.query.x)`: an array is truthy, a string when non-empty. */
  predicate Present(t: Option<Terms>) {
    t.Some? && (t.value.Many? || t.value.term != "")
  }

  predicate Negated(v: string) { StartsWith(v, "!") }

  function Patterns(ss: seq<string>): (ps: seq<Pattern>)
    ensures |ps| == |ss|
    ensures forall i :: 0 <= i < |ss| ==> ps[i] == Pattern(ss[i])
  {
    if |ss| == 0 then [] else [Pattern(ss[0])] + Patterns(ss[1..])
  }

  /** `{ $in: [/a/i, ...] }` for an array of authors, `/a/i` for one. */
  function AuthorClause(t: Terms): Clause {
    match t
    case Many(ts) => LikeAny(Some(Patterns(ts)), None)
    case One(s) => Like(Pattern(s))
  }

  /** The include list: the terms without a leading `!`, in order. */
  function IncludeTerms(vs: seq<string>): seq<Pattern>
    decreases |vs|
  {
    if |vs| == 0 then []
    else
      var last := vs[|vs| - 1];
      IncludeTerms(vs[..|vs| - 1]) + (if Negated(last) then [] else [Pattern(last)])
  }

  /** The exclude list: the terms with a leading `!`, stripped of it, in order. */
  function ExcludeTerms(vs: seq<string>): seq<Pattern>
    decreases |vs|
  {
    if |vs| == 0 then []
    else
      var last := vs[|vs| - 1];
      ExcludeTerms(vs[..|vs| - 1]) + (if Negated(last) then [Pattern(last[1..])] else [])
  }

  /** `{ $in, $nin }`, `{ $in }` or `{ $nin }` from the two lists. */
  function ValueListClause(ins: seq<Pattern>, nins: seq<Pattern>): Clause {
    if |ins| > 0 && |nins| > 0 then LikeAny(Some(ins), Some(nins))
    else if |ins| > 0 then LikeAny(Some(ins), None)
    else LikeAny(None, Some(nins))
  }

  /** The look-ahead pattern a single `!rest` value is turned into. */
  function NotContaining(rest: string): string { "^(?!.*" + rest + ")" }

  /** The text a single value compiles: `^(?!.*rest)` after a leading `!`,
      the value itself otherwise. */
  function SingleText(v: string): string {
    if Negated(v) then NotContaining(v[1..]) else v
  }

  /** The text an array term compiles: the term stripped of a leading `!`. */
  function TermText(v: string): string {
    if Negated(v) then v[1..] else v
  }

  /** A single value: `/^(?!.*rest)/i` after a leading `!`, `/value/i` otherwise. */
  function SingleValueClause(v: string): Clause {
    Like(Pattern(SingleText(v)))
  }

  function ValueClause(t: Terms): Clause {
    match t
    case Many(vs) => ValueListClause(IncludeTerms(vs), ExcludeTerms(vs))
    case One(v) => SingleValueClause(v)
  }

  /** `ts: { $gte: start, $lte: stop }` with the requested times clamped to
      the parent's window. */
  function TsClause(p: ExportParams, start: int, stop: int): Clause {
    Range(Some(Bound(ClampStart(p.startTS, start, stop), false)),
          Some(Bound(ClampStop(p.stopTS, start, stop), false)))
  }

  function AuthorEntry(p: ExportParams): seq<Entry> {
    if Present(p.author) then [Entry("event_author", AuthorClause(p.author.value))] else []
  }

  function ValueEntry(p: ExportParams): seq<Entry> {
    if Present(p.value) then [Entry("event_value", ValueClause(p.value.value))] else []
  }

  function FreetextEntry(p: ExportParams): seq<Entry> {
    if p.freetext.Some? && p.freetext.value != "" then [Entry("event_free_text", Like(Pattern(p.freetext.value)))]
    else []
  }

  /** Every text of a list compiles. */
  predicate AllCompile(ss: seq<string>, compiles: string -> bool) {
    forall i :: 0 <= i < |ss| ==> compiles(ss[i])
  }

  /** The texts the author parameter hands to `new RegExp`. */
  function AuthorTexts(t: Terms): seq<string> {
    match t
    case Many(ts) => ts
    case One(s) => [s]
  }

  /** The texts the value parameter hands to `new RegExp`. */
  function ValueTexts(t: Terms): (ts: seq<string>)
    ensures t.Many? ==> |ts| == |t.terms| && forall i :: 0 <= i < |t.terms| ==> ts[i] == TermText(t.terms[i])
  {
    match t
    case Many(vs) => seq(|vs|, i requires 0 <= i < |vs| => TermText(vs[i]))
    case One(v) => [SingleText(v)]
  }

  /** Every text the handler compiles, in the order it compiles them:
      authors, values, then the free text. */
  function FilterTexts(p: ExportParams): seq<string> {
    GivenAuthorTexts(p) + GivenValueTexts(p) + GivenFreeTexts(p)
  }

  function GivenAuthorTexts(p: ExportParams): seq<string> {
    if Present(p.author) then AuthorTexts(p.author.value) else []
  }

  function GivenValueTexts(p: ExportParams): seq<string> {
    if Present(p.value) then ValueTexts(p.value.value) else []
  }

  function GivenFreeTexts(p: ExportParams): seq<string> {
    if p.freetext.Some? && p.freetext.value != "" then [p.freetext.value] else []
  }

  /** The whole event filter for a parent window [start, stop]. */
  function EventsQuery(p: ExportParams, start: int, stop: int): Query {
    Query(AuthorEntry(p) + ValueEntry(p) + FreetextEntry(p) + [Entry("ts", TsClause(p, start, stop))])
  }

  lemma IncludeStep(vs: seq<string>, i: nat)
    requires i < |vs|
    ensures IncludeTerms(vs[..i + 1]) == IncludeTerms(vs[..i]) + (if Negated(vs[i]) then [] else [Pattern(vs[i])])
    ensures ExcludeTerms(vs[..i + 1]) == ExcludeTerms(vs[..i]) + (if Negated(vs[i]) then [Pattern(vs[i][1..])] else [])
  {
    assert vs[..i + 1][..i] == vs[..i];
  }

  /** The for-of loop that sorts the array terms into the two lists,
      compiling each term as it goes; the first term that does not compile
      raises a SyntaxError. */
  method SplitTerms(vs: seq<string>, compiles: string -> bool) returns (r: Result<(seq<Pattern>, seq<Pattern>)>)
    ensures r.Ok? <==> forall i :: 0 <= i < |vs| ==> compiles(TermText(vs[i]))
    ensures r.Ok? ==> r.value == (IncludeTerms(vs), ExcludeTerms(vs))
    ensures r.Err? ==> r.error == SyntaxError
  {
    var inList: seq<Pattern> := [];
    var ninList: seq<Pattern> := [];
    for i := 0 to |vs|
      invariant inList == IncludeTerms(vs[..i]) && ninList == ExcludeTerms(vs[..i])
      invariant forall k :: 0 <= k < i ==> compiles(TermText(vs[k]))
    {
      IncludeStep(vs, i);
      var value := vs[i];
      if StartsWith(value, "!") {
        if !compiles(value[1..]) {
          return Err(SyntaxError);
        }
        ninList := ninList + [Pattern(value[1..])];
      } else {
        if !compiles(value) {
          return Err(SyntaxError);
        }
        inList := inList + [Pattern(value)];
      }
    }
    assert vs[..|vs|] == vs;
    return Ok((inList, ninList));
  }

  /** The value clause, built as the handler builds it: a SyntaxError as
      soon as one of the value's texts does not compile. */
  method BuildValueClause(t: Terms, compiles: string -> bool) returns (r: Result<Clause>)
    ensures r.Ok? <==> AllCompile(ValueTexts(t), compiles)
    ensures r.Ok? ==> r.value == ValueClause(t)
    ensures r.Err? ==> r.error == SyntaxError
  {
    match t
    case Many(vs) =>
      var split := SplitTerms(vs, compiles);
      if split.Err? {
        return Err(split.error);
      }
      var (inList, ninList) := split.value;
      if |inList| > 0 && |ninList| > 0 {
        r := Ok(LikeAny(Some(inList), Some(ninList)));
      } else if |inList| > 0 {
        r := Ok(LikeAny(Some(inList), None));
      } else {
        r := Ok(LikeAny(None, Some(ninList)));
      }
    case One(v) =>
      var text := if StartsWith(v, "!") then "^(?!.*" + v[1..] + ")" else v;
      assert ValueTexts(t) == [text];
      if !compiles(text) {
        assert !compiles(ValueTexts(t)[0]);
        return Err(SyntaxError);
      }
      r := Ok(Like(Pattern(text)));
  }

  /** The author clause: `$in` of the compiled authors for an array, the
      compiled author otherwise; a SyntaxError when one does not compile. */
  method BuildAuthorClause(t: Terms, compiles: string -> bool) returns (r: Result<Clause>)
    ensures r.Ok? <==> AllCompile(AuthorTexts(t), compiles)
    ensures r.Ok? ==> r.value == AuthorClause(t)
    ensures r.Err? ==> r.error == SyntaxError
  {
    match t
    case Many(terms) =>
      if exists i :: 0 <= i < |terms| && !compiles(terms[i]) {
        return Err(SyntaxError);
      }
      r := Ok(LikeAny(Some(Patterns(terms)), None));
    case One(term) =>
      if !compiles(term) {
        assert !compiles(AuthorTexts(t)[0]);
        return Err(SyntaxError);
      }
      r := Ok(Like(Pattern(term)));
  }

  /** The author, value and free-text entries, in the handler's order; a
      SyntaxError as soon as one of their texts does not compile. */
  method BuildFieldFilters(p: ExportParams, compiles: string -> bool) returns (r: Result<Query>)
    ensures r.Ok? <==> AllCompile(FilterTexts(p), compiles)
    ensures r.Ok? ==> r.value.entries == AuthorEntry(p) + ValueEntry(p) + FreetextEntry(p)
    ensures r.Ok? ==> KeysWithin(r.value, {"event_author", "event_value", "event_free_text"})
    ensures r.Err? ==> r.error == SyntaxError
  {
    AllCompileConcat(GivenAuthorTexts(p), GivenValueTexts(p), GivenFreeTexts(p), compiles);
    var q := Query([]);
    ghost var keys: set<string> := {};
    if Present(p.author) {
      var authorClause := BuildAuthorClause(p.author.value, compiles);
      if authorClause.Err? {
        return Err(authorClause.error);
      }
      q := Assign(q, "event_author", authorClause.value, keys);
    }
    keys := keys + {"event_author"};
    assert KeysWithin(q, keys);
    ghost var atValue := q.entries;
    if Present(p.value) {
      var valueClause := BuildValueClause(p.value.value, compiles);
      if valueClause.Err? {
        return Err(valueClause.error);
      }
      q := Assign(q, "event_value", valueClause.value, keys);
    }
    keys := keys + {"event_value"};
    assert KeysWithin(q, keys);
    ghost var atFreetext := q.entries;
    if p.freetext.Some? && p.freetext.value != "" {
      if !compiles(p.freetext.value) {
        assert !compiles(GivenFreeTexts(p)[0]);
        return Err(SyntaxError);
      }
      q := Assign(q, "event_free_text", Like(Pattern(p.freetext.value)), keys);
    }
    keys := keys + {"event_free_text"};
    assert atValue == AuthorEntry(p);
    assert atFreetext == atValue + ValueEntry(p);
    return Ok(q);
  }

  /** _buildEventsQuery.  The parent's `start_ts` and `stop_ts` may be
      missing (a lowering need not have a stop); the defaults are the epoch
      and the time of the request. */
  method BuildEventsQuery(p: ExportParams, parentStart: Option<int>, parentStop: Option<int>, now: int,
                          compiles: string -> bool)
    returns (r: Result<Query>)
    ensures r.Ok? <==> QueryCompiles(EventsQuery(p, parentStart.GetOr(0), parentStop.GetOr(now)), compiles)
    ensures r.Ok? ==> r.value == EventsQuery(p, parentStart.GetOr(0), parentStop.GetOr(now))
    ensures r.Err? ==> r.error == SyntaxError
  {
    var start := 0;
    if parentStart.Some? {
      start := parentStart.value;
    }
    var stop := now;
    if parentStop.Some? {
      stop := parentStop.value;
    }
    FilterTextsCompile(p, start, stop, compiles);
    var fields := BuildFieldFilters(p, compiles);
    if fields.Err? {
      return Err(fields.error);
    }
    var q := fields.value;
    ghost var keys := {"event_author", "event_value", "event_free_text"};
    var startTS := start;
    if p.startTS.Some? {
      var requested := p.startTS.value;
      startTS := if requested >= start && requested <= stop then requested else start;
    }
    var ts := Range(Some(Bound(startTS, false)), None);
    var stopTS := stop;
    if p.stopTS.Some? {
      var requested := p.stopTS.value;
      stopTS := if requested >= start && requested <= stop then requested else stop;
    }
    ts := ts.(upper := Some(Bound(stopTS, false)));
    q := Assign(q, "ts", ts, keys);
    return Ok(q);
  }

  // ---- what the event filter means ----

  /** Every array term lands in exactly one list: a `!` term, stripped, in
      the exclude list, any other term in the include list. */
  lemma {:induction false} TermsCount(vs: seq<string>)
    ensures |IncludeTerms(vs)| + |ExcludeTerms(vs)| == |vs|
    decreases |vs|
  {
    if |vs| > 0 {
      TermsCount(vs[..|vs| - 1]);
    }
  }

  lemma {:induction false} IncludeComplete(vs: seq<string>)
    ensures forall i :: 0 <= i < |vs| && !Negated(vs[i]) ==> Pattern(vs[i]) in IncludeTerms(vs)
    decreases |vs|
  {
    if |vs| > 0 {
      var init := vs[..|vs| - 1];
      IncludeComplete(init);
      assert forall i :: 0 <= i < |init| ==> init[i] == vs[i];
    }
  }

  lemma {:induction false} ExcludeComplete(vs: seq<string>)
    ensures forall i :: 0 <= i < |vs| && Negated(vs[i]) ==> Pattern(vs[i][1..]) in ExcludeTerms(vs)
    decreases |vs|
  {
    if |vs| > 0 {
      var init := vs[..|vs| - 1];
      ExcludeComplete(init);
      assert forall i :: 0 <= i < |init| ==> init[i] == vs[i];
    }
  }

  /** Nothing but the terms' patterns enters the two lists. */
  lemma {:induction false} IncludeSound(vs: seq<string>)
    ensures forall x :: x in IncludeTerms(vs) ==> exists i :: 0 <= i < |vs| && !Negated(vs[i]) && x == Pattern(vs[i])
    decreases |vs|
  {
    if |vs| > 0 {
      var init := vs[..|vs| - 1];
      IncludeSound(init);
      assert forall i :: 0 <= i < |init| ==> init[i] == vs[i];
    }
  }

  lemma {:induction false} ExcludeSound(vs: seq<string>)
    ensures forall x :: x in ExcludeTerms(vs) ==> exists i :: 0 <= i < |vs| && Negated(vs[i]) && x == Pattern(vs[i][1..])
    decreases |vs|
  {
    if |vs| > 0 {
      var init := vs[..|vs| - 1];
      ExcludeSound(init);
      assert forall i :: 0 <= i < |init| ==> init[i] == vs[i];
    }
  }

  /** `$in` is present iff some term has no `!`; `$nin` is present iff some
      term has one or none lacks it. */
  lemma ValueListShape(vs: seq<string>)
    ensures ValueListClause(IncludeTerms(vs), ExcludeTerms(vs)).ins.Some? <==>
      exists i :: 0 <= i < |vs| && !Negated(vs[i])
    ensures ValueListClause(IncludeTerms(vs), ExcludeTerms(vs)).nins.Some? <==>
      (exists i :: 0 <= i < |vs| && Negated(vs[i])) || (forall i :: 0 <= i < |vs| ==> Negated(vs[i]))
  {
    IncludeComplete(vs);
    IncludeSound(vs);
    ExcludeComplete(vs);
    var ins := IncludeTerms(vs);
    var nins := ExcludeTerms(vs);
    if |ins| > 0 {
      assert ins[0] in ins;
    }
    if |nins| > 0 {
      assert nins[0] in nins;
    }
  }

  /** Some include pattern finds the value iff a term without `!` does. */
  lemma IncludeHit(vs: seq<string>, x: Json, env: Env)
    ensures (exists j :: 0 <= j < |IncludeTerms(vs)| && Searched(x, IncludeTerms(vs)[j], env)) <==>
      exists i :: 0 <= i < |vs| && !Negated(vs[i]) && Searched(x, Pattern(vs[i]), env)
  {
    IncludeComplete(vs);
    IncludeSound(vs);
    var ins := IncludeTerms(vs);
    forall j | 0 <= j < |ins| && Searched(x, ins[j], env)
      ensures exists i :: 0 <= i < |vs| && !Negated(vs[i]) && Searched(x, Pattern(vs[i]), env)
    {
      assert ins[j] in ins;
      var i :| 0 <= i < |vs| && !Negated(vs[i]) && ins[j] == Pattern(vs[i]);
      assert Searched(x, Pattern(vs[i]), env);
    }
    forall i | 0 <= i < |vs| && !Negated(vs[i]) && Searched(x, Pattern(vs[i]), env)
      ensures exists j :: 0 <= j < |ins| && Searched(x, ins[j], env)
    {
      assert Pattern(vs[i]) in ins;
      var j :| 0 <= j < |ins| && ins[j] == Pattern(vs[i]);
      assert Searched(x, ins[j], env);
    }
  }

  /** No exclude pattern finds the value iff no `!` term's remainder does. */
  lemma ExcludeMiss(vs: seq<string>, x: Json, env: Env)
    ensures (forall j :: 0 <= j < |ExcludeTerms(vs)| ==> !Searched(x, ExcludeTerms(vs)[j], env)) <==>
      forall i :: 0 <= i < |vs| && Negated(vs[i]) ==> !Searched(x, Pattern(vs[i][1..]), env)
  {
    ExcludeComplete(vs);
    ExcludeSound(vs);
    var nins := ExcludeTerms(vs);
    if forall j :: 0 <= j < |nins| ==> !Searched(x, nins[j], env) {
      forall i | 0 <= i < |vs| && Negated(vs[i]) ensures !Searched(x, Pattern(vs[i][1..]), env) {
        assert Pattern(vs[i][1..]) in nins;
        var j :| 0 <= j < |nins| && nins[j] == Pattern(vs[i][1..]);
      }
    } else {
      var j :| 0 <= j < |nins| && Searched(x, nins[j], env);
      assert nins[j] in nins;
      var i :| 0 <= i < |vs| && Negated(vs[i]) && nins[j] == Pattern(vs[i][1..]);
      assert Searched(x, Pattern(vs[i][1..]), env);
    }
  }

  /** An event matches an array `value` filter iff its value matches some
      include term (when there is one) and no exclude term. */
  lemma ValueListMeaning(vs: seq<string>, x: Json, env: Env)
    ensures FieldMatches(x, ValueClause(Many(vs)), env) <==>
      ((forall i :: 0 <= i < |vs| ==> Negated(vs[i])) ||
       (exists i :: 0 <= i < |vs| && !Negated(vs[i]) && Searched(x, Pattern(vs[i]), env))) &&
      (forall i :: 0 <= i < |vs| && Negated(vs[i]) ==> !Searched(x, Pattern(vs[i][1..]), env))
  {
    ValueListShape(vs);
    IncludeHit(vs, x, env);
    ExcludeMiss(vs, x, env);
    if forall i :: 0 <= i < |vs| ==> Negated(vs[i]) {
      assert !exists i :: 0 <= i < |vs| && !Negated(vs[i]);
    }
  }

  /** A single `value` matches a string value that the search of the value
      finds, or, after a leading `!`, that the search of the look-ahead
      pattern `^(?!.*rest)` finds; the remainder sits inside that pattern
      as written, unbracketed. */
  lemma SingleValueMeaning(v: string, x: Json, env: Env)
    ensures FieldMatches(x, ValueClause(One(v)), env) <==>
      x.Str? && env.search(if Negated(v) then "^(?!.*" + v[1..] + ")" else v, x.s)
    ensures Negated(v) ==> ValueClause(One(v)) == Like(Pattern("^(?!.*" + v[1..] + ")"))
    ensures !Negated(v) ==> ValueClause(One(v)) == Like(Pattern(v))
  {
  }

  // ---- which parameters raise a SyntaxError ----

  lemma AllCompileConcat(a: seq<string>, b: seq<string>, c: seq<string>, compiles: string -> bool)
    ensures AllCompile(a + b + c, compiles) <==> AllCompile(a, compiles) && AllCompile(b, compiles) && AllCompile(c, compiles)
  {
    var abc := a + b + c;
    if AllCompile(a, compiles) && AllCompile(b, compiles) && AllCompile(c, compiles) {
      forall i | 0 <= i < |abc| ensures compiles(abc[i]) {
        if i < |a| {
          assert abc[i] == a[i];
        } else if i < |a| + |b| {
          assert abc[i] == b[i - |a|];
        } else {
          assert abc[i] == c[i - |a| - |b|];
        }
      }
    }
    if AllCompile(abc, compiles) {
      forall i | 0 <= i < |a| ensures compiles(a[i]) { assert abc[i] == a[i]; }
      forall i | 0 <= i < |b| ensures compiles(b[i]) { assert abc[|a| + i] == b[i]; }
      forall i | 0 <= i < |c| ensures compiles(c[i]) { assert abc[|a| + |b| + i] == c[i]; }
    }
  }

  lemma QueryCompilesOne(e: Entry, compiles: string -> bool)
    ensures QueryCompiles(Query([e]), compiles) <==> ClauseCompiles(e.clause, compiles)
  {
    assert [e][0] == e;
  }

  lemma QueryCompilesConcat(a: seq<Entry>, b: seq<Entry>, compiles: string -> bool)
    ensures QueryCompiles(Query(a + b), compiles) <==> QueryCompiles(Query(a), compiles) && QueryCompiles(Query(b), compiles)
  {
    var ab := a + b;
    if QueryCompiles(Query(a), compiles) && QueryCompiles(Query(b), compiles) {
      forall i | 0 <= i < |ab| ensures ClauseCompiles(ab[i].clause, compiles) {
        if i < |a| {
          assert ab[i] == a[i];
        } else {
          assert ab[i] == b[i - |a|];
        }
      }
    }
    if QueryCompiles(Query(ab), compiles) {
      forall i | 0 <= i < |a| ensures ClauseCompiles(a[i].clause, compiles) { assert ab[i] == a[i]; }
      forall i | 0 <= i < |b| ensures ClauseCompiles(b[i].clause, compiles) { assert ab[|a| + i] == b[i]; }
    }
  }

  /** The two lists' patterns compile exactly when every array term does,
      stripped of its `!`. */
  lemma SplitCompiles(vs: seq<string>, compiles: string -> bool)
    ensures PatternsCompile(IncludeTerms(vs), compiles) && PatternsCompile(ExcludeTerms(vs), compiles) <==>
      forall i :: 0 <= i < |vs| ==> compiles(TermText(vs[i]))
  {
    IncludeComplete(vs);
    IncludeSound(vs);
    ExcludeComplete(vs);
    ExcludeSound(vs);
    var ins := IncludeTerms(vs);
    var nins := ExcludeTerms(vs);
    if PatternsCompile(ins, compiles) && PatternsCompile(nins, compiles) {
      forall i | 0 <= i < |vs| ensures compiles(TermText(vs[i])) {
        if Negated(vs[i]) {
          assert Pattern(vs[i][1..]) in nins;
          var j :| 0 <= j < |nins| && nins[j] == Pattern(vs[i][1..]);
        } else {
          assert Pattern(vs[i]) in ins;
          var j :| 0 <= j < |ins| && ins[j] == Pattern(vs[i]);
        }
      }
    }
    if forall i :: 0 <= i < |vs| ==> compiles(TermText(vs[i])) {
      forall j | 0 <= j < |ins| ensures compiles(ins[j].text) {
        assert ins[j] in ins;
        var i :| 0 <= i < |vs| && !Negated(vs[i]) && ins[j] == Pattern(vs[i]);
        assert TermText(vs[i]) == vs[i];
      }
      forall j | 0 <= j < |nins| ensures compiles(nins[j].text) {
        assert nins[j] in nins;
        var i :| 0 <= i < |vs| && Negated(vs[i]) && nins[j] == Pattern(vs[i][1..]);
        assert TermText(vs[i]) == vs[i][1..];
      }
    }
  }

  /** The value clause's patterns compile exactly when the value's texts do. */
  lemma ValueCompilesIff(t: Terms, compiles: string -> bool)
    ensures ClauseCompiles(ValueClause(t), compiles) <==> AllCompile(ValueTexts(t), compiles)
  {
    if t.Many? {
      SplitCompiles(t.terms, compiles);
    } else {
      assert ValueTexts(t) == [SingleText(t.term)];
      assert AllCompile(ValueTexts(t), compiles) <==> compiles(ValueTexts(t)[0]);
    }
  }

  /** The event filter raises a SyntaxError exactly when one of the texts
      the handler compiles is not a valid pattern: the filter's patterns are
      the authors, the values (stripped of `!` in an array, inside the
      look-ahead for a single value) and the free text. */
  lemma FilterTextsCompile(p: ExportParams, start: int, stop: int, compiles: string -> bool)
    ensures AllCompile(FilterTexts(p), compiles) <==> QueryCompiles(EventsQuery(p, start, stop), compiles)
  {
    AllCompileConcat(GivenAuthorTexts(p), GivenValueTexts(p), GivenFreeTexts(p), compiles);
    var ts := [Entry("ts", TsClause(p, start, stop))];
    QueryCompilesConcat(AuthorEntry(p), ValueEntry(p), compiles);
    QueryCompilesConcat(AuthorEntry(p) + ValueEntry(p), FreetextEntry(p), compiles);
    QueryCompilesConcat(AuthorEntry(p) + ValueEntry(p) + FreetextEntry(p), ts, compiles);
    QueryCompilesOne(ts[0], compiles);
    AuthorEntryCompiles(p, compiles);
    ValueEntryCompiles(p, compiles);
    FreetextEntryCompiles(p, compiles);
  }

  lemma AuthorEntryCompiles(p: ExportParams, compiles: string -> bool)
    ensures QueryCompiles(Query(AuthorEntry(p)), compiles) <==> AllCompile(GivenAuthorTexts(p), compiles)
  {
    if Present(p.author) {
      QueryCompilesOne(Entry("event_author", AuthorClause(p.author.value)), compiles);
      if p.author.value.Many? {
        var terms := p.author.value.terms;
        assert PatternsCompile(Patterns(terms), compiles) <==> AllCompile(terms, compiles);
      } else {
        assert AllCompile(GivenAuthorTexts(p), compiles) <==> compiles(GivenAuthorTexts(p)[0]);
      }
    }
  }

  lemma ValueEntryCompiles(p: ExportParams, compiles: string -> bool)
    ensures QueryCompiles(Query(ValueEntry(p)), compiles) <==> AllCompile(GivenValueTexts(p), compiles)
  {
    if Present(p.value) {
      ValueCompilesIff(p.value.value, compiles);
      QueryCompilesOne(Entry("event_value", ValueClause(p.value.value)), compiles);
    }
  }

  lemma FreetextEntryCompiles(p: ExportParams, compiles: string -> bool)
    ensures QueryCompiles(Query(FreetextEntry(p)), compiles) <==> AllCompile(GivenFreeTexts(p), compiles)
  {
    if p.freetext.Some? && p.freetext.value != "" {
      QueryCompilesOne(Entry("event_free_text", Like(Pattern(p.freetext.value))), compiles);
      assert AllCompile(GivenFreeTexts(p), compiles) <==> compiles(GivenFreeTexts(p)[0]);
    }
  }

  /** Every event the filter keeps lies inside the clamped bounds, and so
      inside the parent's window when that window is proper. */
  lemma EventsInsideWindow(p: ExportParams, start: int, stop: int, rec: Fields, env: Env)
    requires start <= stop
    ensures Matches(EventsQuery(p, start, stop), rec, env) ==>
      env.time(Get(rec, "ts")).Some? &&
      ClampStart(p.startTS, start, stop) <= env.time(Get(rec, "ts")).value <= ClampStop(p.stopTS, start, stop) &&
      start <= env.time(Get(rec, "ts")).value <= stop
  {
    var front := AuthorEntry(p) + ValueEntry(p) + FreetextEntry(p);
    var ts := [Entry("ts", TsClause(p, start, stop))];
    MatchesAppend(front, ts, rec, env);
    MatchesOne(ts[0], rec, env);
    ClampWithin(p.startTS, p.stopTS, start, stop);
  }

  /** The filter's last entry is the `ts` range, `$gte` and `$lte`; each
      bound is the requested time exactly when that time lies inside the
      parent's window, and the window's own bound otherwise. */
  lemma RequestedBoundsUsed(p: ExportParams, start: int, stop: int)
    requires start <= stop
    ensures var q := EventsQuery(p, start, stop);
      |q.entries| > 0 && q.entries[|q.entries| - 1] == Entry("ts", TsClause(p, start, stop))
    ensures TsClause(p, start, stop).lower.Some? && !TsClause(p, start, stop).lower.value.strict
    ensures TsClause(p, start, stop).upper.Some? && !TsClause(p, start, stop).upper.value.strict
    ensures p.startTS.Some? ==>
      (TsClause(p, start, stop).lower.value.t == p.startTS.value <==> start <= p.startTS.value <= stop)
    ensures p.stopTS.Some? ==>
      (TsClause(p, start, stop).upper.value.t == p.stopTS.value <==> start <= p.stopTS.value <= stop)
    ensures !(p.startTS.Some? && start <= p.startTS.value <= stop) ==> TsClause(p, start, stop).lower.value.t == start
    ensures !(p.stopTS.Some? && start <= p.stopTS.value <= stop) ==> TsClause(p, start, stop).upper.value.t == stop
  {
  }

  // ---- the datasource post-filter ----

  /** `new Set(aux_data_results.map(a => String(a.event_id)))`. */
  function AuxEventIds(aux: seq<Fields>): set<string> {
    set i | 0 <= i < |aux| :: ToText(Get(aux[i], "event_id"))
  }

  predicate IdInSet(event: Fields, ids: set<string>) {
    ToText(Get(event, "_id")) in ids
  }

  /** `results.filter(e => ids.has(String(e._id)))`. */
  function KeepListed(events: seq<Fields>, ids: set<string>): (r: seq<Fields>)
    ensures |r| <= |events|
    ensures forall e :: e in r <==> e in events && IdInSet(e, ids)
  {
    if |events| == 0 then []
    else
      var rest := KeepListed(events[1..], ids);
      assert forall e :: e in events <==> e == events[0] || e in events[1..];
      (if IdInSet(events[0], ids) then [events[0]] else []) + rest
  }

  /** Filtering commutes with concatenation, so the kept events stay in
      their original order. */
  lemma {:induction false} KeepListedAppend(a: seq<Fields>, b: seq<Fields>, ids: set<string>)
    ensures KeepListed(a + b, ids) == KeepListed(a, ids) + KeepListed(b, ids)
    decreases |a|
  {
    if |a| > 0 {
      assert (a + b)[1..] == a[1..] + b;
      KeepListedAppend(a[1..], b, ids);
    } else {
      assert a + b == b;
    }
  }

  /** When every event is listed, none is dropped. */
  lemma {:induction false} KeepListedAll(events: seq<Fields>, ids: set<string>)
    requires forall i :: 0 <= i < |events| ==> IdInSet(events[i], ids)
    ensures KeepListed(events, ids) == events
    decreases |events|
  {
    if |events| > 0 {
      assert forall i :: 0 <= i < |events[1..]| ==> events[1..][i] == events[i + 1];
      KeepListedAll(events[1..], ids);
    }
  }

  // ---- _renameAndClearFields ----

  lemma GetFrom(fs: Fields, k: string)
    ensures Get(fs, k) == Undefined || exists i :: 0 <= i < |fs| && fs[i].value == Get(fs, k)
  {
    if |fs| > 0 && fs[0].key != k {
      GetFrom(fs[1..], k);
      if Get(fs, k) != Undefined {
        var i :| 0 <= i < |fs[1..]| && fs[1..][i].value == Get(fs, k);
        assert fs[i + 1].value == Get(fs, k);
      }
    }
  }

  /** The value of a member is smaller than the object holding it. */
  lemma GetSmaller(fs: Fields, k: string)
    ensures Get(fs, k) == Undefined || Get(fs, k) < Obj(fs)
  {
    GetFrom(fs, k);
    if Get(fs, k) != Undefined {
      var i :| 0 <= i < |fs| && fs[i].value == Get(fs, k);
      assert fs[i] in fs;
    }
  }

  /** The record with `id` set to the old `_id` and `_id` and `event_id`
      deleted, before recursing into `aux_data`. */
  function Cleared(doc: Fields): Fields {
    Delete(Delete(Put(doc, "id", Get(doc, "_id")), "_id"), "event_id")
  }

  /** What _renameAndClearFields leaves of a record, recursively. */
  function Renamed(doc: Fields): Fields
    decreases Obj(doc), 1
  {
    var aux := Get(doc, "aux_data");
    GetSmaller(doc, "aux_data");
    if aux.Arr? && |aux.items| > 0 then Put(Cleared(doc), "aux_data", Arr(RenamedItems(aux.items, aux)))
    else Cleared(doc)
  }

  /** Each object of an `aux_data` array, renamed; the array is always
      objects as the `$lookup` stage produces it, other items are kept. */
  function RenamedItems(items: seq<Json>, ghost parent: Json): (r: seq<Json>)
    requires forall i :: 0 <= i < |items| ==> items[i] < parent
    ensures |r| == |items|
    decreases parent, 0, |items|
  {
    if |items| == 0 then []
    else
      [if items[0].Obj? then Obj(Renamed(items[0].members)) else items[0]]
      + RenamedItems(items[1..], parent)
  }

  lemma {:induction false} RenamedItemsAt(items: seq<Json>, parent: Json, i: nat)
    requires forall j :: 0 <= j < |items| ==> items[j] < parent
    requires i < |items|
    ensures RenamedItems(items, parent)[i] == if items[i].Obj? then Obj(Renamed(items[i].members)) else items[i]
    decreases |items|
  {
    if i > 0 {
      RenamedItemsAt(items[1..], parent, i - 1);
    }
  }

  /** _renameAndClearFields on one record, recursing into its `aux_data`. */
  method RenameAndClearFields(doc: Fields) returns (r: Fields)
    ensures r == Renamed(doc)
    decreases Obj(doc)
  {
    r := Put(doc, "id", Get(doc, "_id"));
    r := Delete(r, "_id");
    r := Delete(r, "event_id");
    var aux := Get(doc, "aux_data");
    GetSmaller(doc, "aux_data");
    if aux.Arr? && |aux.items| > 0 {
      var items := aux.items;
      var renamed: seq<Json> := [];
      for j := 0 to |items|
        invariant |renamed| == j
        invariant forall i :: 0 <= i < j ==> renamed[i] == RenamedItems(items, aux)[i]
      {
        RenamedItemsAt(items, aux, j);
        var item := items[j];
        if item.Obj? {
          assert item < aux;
          var doneItem := RenameAndClearFields(item.members);
          renamed := renamed + [Obj(doneItem)];
        } else {
          renamed := renamed + [item];
        }
      }
      assert renamed == RenamedItems(items, aux);
      r := Put(r, "aux_data", Arr(renamed));
    }
  }

  lemma ClearedFields(doc: Fields)
    ensures forall k :: Get(Cleared(doc), k) ==
                        if k == "_id" || k == "event_id" then Undefined
                        else if k == "id" then Get(doc, "_id") else Get(doc, k)
    ensures !Has(Cleared(doc), "_id") && !Has(Cleared(doc), "event_id")
  {
    var put := Put(doc, "id", Get(doc, "_id"));
    var d1 := Delete(put, "_id");
    forall k ensures Get(Cleared(doc), k) ==
      if k == "_id" || k == "event_id" then Undefined else if k == "id" then Get(doc, "_id") else Get(doc, k)
    {
      GetPut(doc, "id", Get(doc, "_id"), k);
      GetDelete(put, "_id", k);
      GetDelete(d1, "event_id", k);
    }
    KeysDelete(d1, "event_id", "_id");
    HasKeys(Cleared(doc), "_id");
    HasKeys(d1, "_id");
  }

  /** After _renameAndClearFields: `id` holds what `_id` held, neither `_id`
      nor `event_id` is left, and every other field but `aux_data` is as it
      was. */
  lemma RenamedFields(doc: Fields)
    ensures Get(Renamed(doc), "id") == Get(doc, "_id")
    ensures !Has(Renamed(doc), "_id") && !Has(Renamed(doc), "event_id")
    ensures forall k :: k != "id" && k != "_id" && k != "event_id" && k != "aux_data" ==>
      Get(Renamed(doc), k) == Get(doc, k)
  {
    ClearedFields(doc);
    var c := Cleared(doc);
    var aux := Get(doc, "aux_data");
    GetSmaller(doc, "aux_data");
    if aux.Arr? && |aux.items| > 0 {
      var items := RenamedItems(aux.items, aux);
      forall k ensures Get(Renamed(doc), k) == if k == "aux_data" then Arr(items) else Get(c, k) {
        GetPut(c, "aux_data", Arr(items), k);
      }
      HasPut(c, "aux_data", Arr(items), "_id");
      HasPut(c, "aux_data", Arr(items), "event_id");
    }
  }

  /** Every object of a non-empty `aux_data` array is renamed in turn, in place. */
  lemma RenamedAux(doc: Fields)
    requires Get(doc, "aux_data").Arr? && |Get(doc, "aux_data").items| > 0
    ensures Get(Renamed(doc), "aux_data").Arr?
    ensures |Get(Renamed(doc), "aux_data").items| == |Get(doc, "aux_data").items|
    ensures forall i :: 0 <= i < |Get(doc, "aux_data").items| && Get(doc, "aux_data").items[i].Obj? ==>
      Get(Renamed(doc), "aux_data").items[i] == Obj(Renamed(Get(doc, "aux_data").items[i].members))
  {
    var aux := Get(doc, "aux_data");
    GetSmaller(doc, "aux_data");
    var items := RenamedItems(aux.items, aux);
    GetPut(Cleared(doc), "aux_data", Arr(items), "aux_data");
    forall i | 0 <= i < |aux.items| && aux.items[i].Obj?
      ensures items[i] == Obj(Renamed(aux.items[i].members))
    {
      RenamedItemsAt(aux.items, aux, i);
    }
  }

  // ---- the handlers' tail ----

  /** After the events were fetched: no events is a 404; otherwise the
      datasource filter (when a datasource was asked for, with the ids of
      the matching aux-data records) and the renaming of every event.  The
      filter runs after the emptiness test, so it can leave an empty 200. */
  method ExportEvents(results: seq<Fields>, datasourceIds: Option<set<string>>) returns (r: Result<seq<Fields>>)
    ensures |results| == 0 ==> r == Err(NotFound)
    ensures |results| > 0 ==>
      r.Ok? &&
      (var kept := if datasourceIds.Some? then KeepListed(results, datasourceIds.value) else results;
       |r.value| == |kept| && forall i :: 0 <= i < |kept| ==> r.value[i] == Renamed(kept[i]))
  {
    if |results| == 0 {
      return Err(NotFound);
    }
    var kept := results;
    if datasourceIds.Some? {
      kept := KeepListed(results, datasourceIds.value);
    }
    var out: seq<Fields> := [];
    for i := 0 to |kept|
      invariant |out| == i
      invariant forall j :: 0 <= j < i ==> out[j] == Renamed(kept[j])
    {
      var doc := RenameAndClearFields(kept[i]);
      out := out + [doc];
    }
    return Ok(out);
  }
}
