/** MongoDB find filters as the route handlers build them, and what it means
    for a stored record to match one.  A filter is an ordered object whose
    keys are field names or `$or` / `$and`; a time bound is carried as the
    integer milliseconds of the Date the handler put in the filter. */
module Filter {
  import opened Wrappers
  import opened Json

  /** `new RegExp(text, 'i')`. */
  datatype Pattern = Pattern(text: string)

  /** One side of a range: `$gte`/`$lte` (strict == false) or `$gt`/`$lt`. */
  datatype Bound = Bound(t: int, strict: bool)

  datatype Clause =
    | Equals(value: Json)                              // field: value
    | AnyOf(alts: seq<Query>)                          // $or: [ ... ]
    | AllOf(parts: seq<Query>)                         // $and: [ ... ]
    | Range(lower: Option<Bound>, upper: Option<Bound>) // field: { $gte / $gt, $lte / $lt }
    | OneOf(values: seq<Json>)                         // field: { $in: values }
    | Like(p: Pattern)                                 // field: /p/i
    | LikeAny(ins: Option<seq<Pattern>>, nins: Option<seq<Pattern>>)  // field: { $in: [/p/i], $nin: [/p/i] }

  datatype Entry = Entry(key: string, clause: Clause)

  datatype Query = Query(entries: seq<Entry>)

  /** What the store does that the model does not: read a stored Date as
      milliseconds, and run a case-insensitive regular expression search. */
  datatype Env = Env(time: Json -> Option<int>, search: (string, string) -> bool)

  // ---- queries as ordered objects ----

  predicate HasKey(q: Query, k: string) {
    exists i :: 0 <= i < |q.entries| && q.entries[i].key == k
  }

  /** `query[k]`, or None when unset. */
  function Lookup(q: Query, k: string): (r: Option<Clause>)
    ensures r.None? <==> !HasKey(q, k)
    decreases |q.entries|
  {
    if |q.entries| == 0 then None
    else if q.entries[0].key == k then Some(q.entries[0].clause)
    else
      var r := Lookup(Query(q.entries[1..]), k);
      assert HasKey(q, k) <==> HasKey(Query(q.entries[1..]), k) by {
        if HasKey(q, k) {
          var i :| 0 <= i < |q.entries| && q.entries[i].key == k;
          assert q.entries[1..][i - 1] == q.entries[i];
        }
        if HasKey(Query(q.entries[1..]), k) {
          var i :| 0 <= i < |q.entries[1..]| && q.entries[1..][i].key == k;
          assert q.entries[i + 1] == q.entries[1..][i];
        }
      }
      r
  }

  /** `query[k] = c`: an existing key keeps its place, a new one goes last. */
  function Set(q: Query, k: string, c: Clause): (r: Query)
    ensures Lookup(r, k) == Some(c)
    ensures forall k2 :: k2 != k ==> Lookup(r, k2) == Lookup(q, k2)
    decreases |q.entries|
  {
    if |q.entries| == 0 then Query([Entry(k, c)])
    else if q.entries[0].key == k then Query([Entry(k, c)] + q.entries[1..])
    else
      var t := Set(Query(q.entries[1..]), k, c);
      var r := Query([q.entries[0]] + t.entries);
      assert Query(r.entries[1..]) == t;
      r
  }

  /** `delete query[k]`. */
  function Unset(q: Query, k: string): (r: Query)
    ensures Lookup(r, k) == None
    ensures forall k2 :: k2 != k ==> Lookup(r, k2) == Lookup(q, k2)
    decreases |q.entries|
  {
    if |q.entries| == 0 then q
    else
      var t := Unset(Query(q.entries[1..]), k);
      if q.entries[0].key == k then t
      else
        var r := Query([q.entries[0]] + t.entries);
        assert Query(r.entries[1..]) == t;
        r
  }

  lemma HasKeyCons(e: Entry, rest: seq<Entry>, k: string)
    ensures HasKey(Query([e] + rest), k) <==> e.key == k || HasKey(Query(rest), k)
  {
    var q := Query([e] + rest);
    assert q.entries[0] == e;
    if e.key == k {
      assert q.entries[0].key == k;
    }
    if HasKey(Query(rest), k) {
      var i :| 0 <= i < |rest| && rest[i].key == k;
      assert q.entries[i + 1] == rest[i];
      assert q.entries[i + 1].key == k;
    }
    if HasKey(q, k) && e.key != k {
      var i :| 0 <= i < |q.entries| && q.entries[i].key == k;
      assert i > 0;
      assert rest[i - 1] == q.entries[i];
      assert rest[i - 1].key == k;
    }
  }

  /** Setting a key the query does not have appends it. */
  lemma {:induction false} SetNew(q: Query, k: string, c: Clause)
    requires !HasKey(q, k)
    ensures Set(q, k, c) == Query(q.entries + [Entry(k, c)])
    decreases |q.entries|
  {
    if |q.entries| > 0 {
      var rest := q.entries[1..];
      assert q.entries == [q.entries[0]] + rest;
      HasKeyCons(q.entries[0], rest, k);
      SetNew(Query(rest), k, c);
      assert q.entries + [Entry(k, c)] == [q.entries[0]] + (rest + [Entry(k, c)]);
    }
  }

  /** Deleting a key the query does not have changes nothing. */
  lemma {:induction false} UnsetAbsent(q: Query, k: string)
    requires !HasKey(q, k)
    ensures Unset(q, k) == q
    decreases |q.entries|
  {
    if |q.entries| > 0 {
      var rest := q.entries[1..];
      assert q.entries == [q.entries[0]] + rest;
      HasKeyCons(q.entries[0], rest, k);
      UnsetAbsent(Query(rest), k);
    }
  }

  /** Setting a key outside the known key set appends it. */
  lemma SetFresh(q: Query, k: string, c: Clause, keys: set<string>)
    requires forall i :: 0 <= i < |q.entries| ==> q.entries[i].key in keys
    requires k !in keys
    ensures Set(q, k, c) == Query(q.entries + [Entry(k, c)])
  {
    SetNew(q, k, c);
  }

  predicate KeysWithin(q: Query, keys: set<string>) {
    forall i :: 0 <= i < |q.entries| ==> q.entries[i].key in keys
  }

  /** `query[k] = c` for a key not set yet: the entry goes last. */
  method Assign(q: Query, k: string, c: Clause, ghost keys: set<string>) returns (r: Query)
    requires KeysWithin(q, keys) && k !in keys
    ensures r.entries == q.entries + [Entry(k, c)]
    ensures KeysWithin(r, keys + {k})
  {
    SetFresh(q, k, c, keys);
    r := Set(q, k, c);
    assert forall i :: 0 <= i < |q.entries| ==> r.entries[i] == q.entries[i];
  }

  // ---- matching a stored record ----

  /** `{ field: v }` against the stored value x: equality, or membership
      when x is an array; a null or undefined v (the driver sends undefined
      as null) matches a null or missing field. */
  predicate ValueMatches(x: Json, v: Json) {
    if v == Null || v == Undefined then
      x == Null || x == Undefined || (x.Arr? && Null in x.items)
    else
      x == v || (x.Arr? && v in x.items)
  }

  predicate Above(t: int, b: Bound) {
    if b.strict then t > b.t else t >= b.t
  }

  predicate Below(t: int, b: Bound) {
    if b.strict then t < b.t else t <= b.t
  }

  predicate Searched(x: Json, p: Pattern, env: Env) {
    x.Str? && env.search(p.text, x.s)
  }

  /** A clause other than `$or` / `$and` against the value of its field. */
  predicate FieldMatches(x: Json, c: Clause, env: Env) {
    match c
    case Equals(v) => ValueMatches(x, v)
    case Range(lo, hi) =>
      env.time(x).Some? &&
      (lo.None? || Above(env.time(x).value, lo.value)) &&
      (hi.None? || Below(env.time(x).value, hi.value))
    case OneOf(vs) => exists i :: 0 <= i < |vs| && ValueMatches(x, vs[i])
    case Like(p) => Searched(x, p, env)
    case LikeAny(ins, nins) =>
      (ins.None? || exists i :: 0 <= i < |ins.value| && Searched(x, ins.value[i], env)) &&
      (nins.None? || forall i :: 0 <= i < |nins.value| ==> !Searched(x, nins.value[i], env))
    case AnyOf(_) => false
    case AllOf(_) => false
  }

  predicate EntryMatches(e: Entry, rec: Fields, env: Env)
    decreases e, 0
  {
    match e.clause
    case AnyOf(alts) => exists j :: 0 <= j < |alts| && Matches(alts[j], rec, env)
    case AllOf(parts) => forall j :: 0 <= j < |parts| ==> Matches(parts[j], rec, env)
    case _ => FieldMatches(Get(rec, e.key), e.clause, env)
  }

  /** The record matches when every entry of the filter does. */
  predicate Matches(q: Query, rec: Fields, env: Env)
    decreases q, 1
  {
    forall i :: 0 <= i < |q.entries| ==> EntryMatches(q.entries[i], rec, env)
  }

  // ---- building the regular expressions ----

  /** Every `new RegExp(text, 'i')` the filter holds compiles; `compiles`
      says which pattern texts are valid regular expressions (an invalid
      one makes the constructor raise a SyntaxError). */
  predicate QueryCompiles(q: Query, compiles: string -> bool)
    decreases q, 1
  {
    forall i :: 0 <= i < |q.entries| ==> ClauseCompiles(q.entries[i].clause, compiles)
  }

  predicate PatternsCompile(ps: seq<Pattern>, compiles: string -> bool) {
    forall i :: 0 <= i < |ps| ==> compiles(ps[i].text)
  }

  predicate ClauseCompiles(c: Clause, compiles: string -> bool)
    decreases c, 0
  {
    match c
    case Like(p) => compiles(p.text)
    case LikeAny(ins, nins) =>
      (ins.None? || PatternsCompile(ins.value, compiles)) && (nins.None? || PatternsCompile(nins.value, compiles))
    case AnyOf(alts) => forall j :: 0 <= j < |alts| ==> QueryCompiles(alts[j], compiles)
    case AllOf(parts) => forall j :: 0 <= j < |parts| ==> QueryCompiles(parts[j], compiles)
    case _ => true
  }

  /** `collection.find(q)` before sorting and paging: the matching records in
      store order. */
  function Find(store: seq<Fields>, q: Query, env: Env): (r: seq<Fields>)
    ensures |r| <= |store|
    ensures forall x :: x in r ==> x in store && Matches(q, x, env)
    ensures forall x :: x in store && Matches(q, x, env) ==> x in r
  {
    if |store| == 0 then []
    else
      var rest := Find(store[1..], q, env);
      assert forall x :: x in store[1..] ==> x in store;
      if Matches(q, store[0], env) then [store[0]] + rest else rest
  }

  // ---- laws used by the route models ----

  lemma MatchesAppend(a: seq<Entry>, b: seq<Entry>, rec: Fields, env: Env)
    ensures Matches(Query(a + b), rec, env) <==> Matches(Query(a), rec, env) && Matches(Query(b), rec, env)
  {
    var q := Query(a + b);
    if Matches(Query(a), rec, env) && Matches(Query(b), rec, env) {
      forall i | 0 <= i < |q.entries| ensures EntryMatches(q.entries[i], rec, env) {
        if i >= |a| {
          assert q.entries[i] == b[i - |a|];
        } else {
          assert q.entries[i] == a[i];
        }
      }
    }
    if Matches(q, rec, env) {
      forall i | 0 <= i < |b| ensures EntryMatches(b[i], rec, env) {
        assert q.entries[|a| + i] == b[i];
      }
      forall i | 0 <= i < |a| ensures EntryMatches(a[i], rec, env) {
        assert q.entries[i] == a[i];
      }
    }
  }

  lemma MatchesOne(e: Entry, rec: Fields, env: Env)
    ensures Matches(Query([e]), rec, env) <==> EntryMatches(e, rec, env)
  {
    assert Query([e]).entries[0] == e;
  }
}
