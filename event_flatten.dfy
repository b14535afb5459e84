/** flattenEventJSON of routes/api/v1/json_util.js: every event record is
    copied, its timestamp turned into ISO text, its options and aux-data
    fields written onto the copy as flat members, and the copies are also
    grouped by event value. */
module EventFlatten {
  import opened Wrappers
  import opened Seqs
  import opened Text
  import opened Json

  datatype EventOption = EventOption(name: string, value: Json)

  datatype AuxField = AuxField(name: string, value: Json, uom: Json)

  /** One entry of an event's aux_data: a data source and its data_array. */
  datatype AuxGroup = AuxGroup(source: string, data: seq<AuxField>)

  /** An event record.  `fields` holds every member other than
      event_options and aux_data, in their original order; those two are
      kept apart because the flattening deletes both. */
  datatype Event = Event(fields: Fields, options: seq<EventOption>, auxData: seq<AuxGroup>)

  ghost predicate WellFormed(e: Event) {
    UniqueKeys(e.fields) && !Has(e.fields, "event_options") && !Has(e.fields, "aux_data")
  }

  datatype Flattened = Flattened(events: seq<Fields>, byType: map<string, seq<Fields>>)

  /** The per-name duplicate counter of one aux group (`colDict` entries). */
  datatype Counter = Counter(count: nat, position: nat)

  // ---- the specification of one flattened row ----

  /** The members written in order, each with `obj[key] = value`. */
  function ApplyAll(fs: Fields, ws: seq<Member>): Fields
  {
    if |ws| == 0 then fs
    else Put(ApplyAll(fs, ws[..|ws| - 1]), ws[|ws| - 1].key, ws[|ws| - 1].value)
  }

  function Names(data: seq<AuxField>): (ns: seq<string>)
    ensures |ns| == |data|
    ensures forall i :: 0 <= i < |data| ==> ns[i] == data[i].name
  {
    seq(|data|, i requires 0 <= i < |data| => data[i].name)
  }

  /** The column label of the i-th field of a group: `<source>.<name>`, then
      `_<k>` when the name occurs more than once in the group (k counts the
      occurrences so far, from 1), then ` (<uom>)` when the uom is truthy. */
  function AuxLabel(source: string, data: seq<AuxField>, i: nat): string
    requires i < |data|
  {
    var name := data[i].name;
    var plain := source + "." + name;
    var numbered :=
      if Count(Names(data), name) > 1 then plain + "_" + NatToDecimal(Count(Names(data[..i]), name) + 1) else plain;
    if Truthy(data[i].uom) then numbered + " (" + ToText(data[i].uom) + ")" else numbered
  }

  /** ` (<uom>)` for a truthy uom, nothing otherwise. */
  function UnitText(uom: Json): (u: string)
    ensures |u| > 0 ==> u[0] == ' '
  {
    if Truthy(uom) then " (" + ToText(uom) + ")" else ""
  }

  /** The members the labelling pass writes for the first j fields of a group. */
  function AuxWritesUpTo(source: string, data: seq<AuxField>, j: nat): (ws: seq<Member>)
    requires j <= |data|
    ensures |ws| == j
  {
    if j == 0 then []
    else AuxWritesUpTo(source, data, j - 1) + [Member(AuxLabel(source, data, j - 1), data[j - 1].value)]
  }

  lemma {:induction false} AuxWritesUpToAt(source: string, data: seq<AuxField>, j: nat, k: nat)
    requires k < j <= |data|
    ensures AuxWritesUpTo(source, data, j)[k] == Member(AuxLabel(source, data, k), data[k].value)
  {
    if k < j - 1 {
      AuxWritesUpToAt(source, data, j - 1, k);
    }
  }

  function AuxWrites(g: AuxGroup): (ws: seq<Member>)
    ensures |ws| == |g.data|
  {
    AuxWritesUpTo(g.source, g.data, |g.data|)
  }

  function AuxWritesAll(gs: seq<AuxGroup>): seq<Member>
  {
    if |gs| == 0 then [] else AuxWritesAll(gs[..|gs| - 1]) + AuxWrites(gs[|gs| - 1])
  }

  function OptionKey(name: string): string { "event_option." + name }

  function OptionWrites(os: seq<EventOption>): (ws: seq<Member>)
    ensures |ws| == |os|
  {
    seq(|os|, i requires 0 <= i < |os| => Member(OptionKey(os[i].name), os[i].value))
  }

  function EventWrites(e: Event): seq<Member>
  {
    OptionWrites(e.options) + AuxWritesAll(e.auxData)
  }

  /** `new Date(v).toISOString()` for a value that is not a Date (a string
      to parse, a number of milliseconds, null, a boolean): the ISO text, or
      None where it raises a RangeError.  Date parsing and calendar
      arithmetic are not modelled, so the conversion is a parameter. */
  type DateConversion = Json -> Option<string>

  /** `new Date(ts).toISOString()`: a Date gives its own ISO text, a
      missing timestamp is an invalid date, any other value goes through
      the conversion. */
  function IsoText(v: Json, toIso: DateConversion): (r: Option<string>)
    ensures v.Date? ==> r == Some(v.iso)
    ensures v == Undefined ==> r == None
    ensures !v.Date? && v != Undefined ==> r == toIso(v)
  {
    match v
    case Date(iso) => Some(iso)
    case Undefined => None
    case _ => toIso(v)
  }

  /** The flattened copy of one event. */
  function FlattenSpec(e: Event, toIso: DateConversion): Result<Fields>
  {
    match IsoText(Get(e.fields, "ts"), toIso)
    case None => Err(RangeError)
    case Some(iso) => Ok(ApplyAll(Put(e.fields, "ts", Str(iso)), EventWrites(e)))
  }

  /** The key an event is grouped under: JavaScript converts `event.event_value` to a property name. */
  function GroupKey(fs: Fields): string { ToText(Get(fs, "event_value")) }

  /** The rows grouped under v, in their order. */
  function Group(rows: seq<Fields>, v: string): seq<Fields>
  {
    if |rows| == 0 then []
    else Group(rows[..|rows| - 1], v) + (if GroupKey(rows[|rows| - 1]) == v then [rows[|rows| - 1]] else [])
  }

  // ---- the imperative flattening ----

  lemma CountPrefixStep(s: seq<string>, j: nat, x: string)
    requires j < |s|
    ensures Count(s[..j + 1], x) == Count(s[..j], x) + (if s[j] == x then 1 else 0)
  {
    assert s[..j + 1][..j] == s[..j];
  }

  lemma ApplyAllAppend(fs: Fields, ws: seq<Member>, w: Member)
    ensures ApplyAll(fs, ws + [w]) == Put(ApplyAll(fs, ws), w.key, w.value)
  {
    assert (ws + [w])[..|ws|] == ws;
  }

  /** colDict once the counting pass has seen the first i names. */
  ghost function CountedUpTo(names: seq<string>, i: nat): map<string, Counter>
    requires i <= |names|
  {
    map n | n in names[..i] :: Counter(Count(names[..i], n), 1)
  }

  lemma CountedStep(names: seq<string>, i: nat)
    requires i < |names|
    ensures CountedUpTo(names, i + 1) ==
      var d := CountedUpTo(names, i);
      var n := names[i];
      if n in d then d[n := Counter(d[n].count + 1, d[n].position)] else d[n := Counter(1, 1)]
  {
    var n := names[i];
    assert names[..i + 1] == names[..i] + [n];
    forall m ensures Count(names[..i + 1], m) == Count(names[..i], m) + (if n == m then 1 else 0) {
      CountPrefixStep(names, i, m);
    }
    CountPositive(names[..i], n);
  }

  /** The counting pass of one aux group: `colDict[name]` is created with
      count 1 at the first occurrence and incremented at every later one. */
  method CountNames(g: AuxGroup) returns (colDict: map<string, Counter>)
    ensures forall n :: n in colDict <==> n in Names(g.data)
    ensures forall n :: n in colDict ==> colDict[n] == Counter(Count(Names(g.data), n), 1)
  {
    var names := Names(g.data);
    colDict := map[];
    var i := 0;
    while i < |g.data|
      invariant 0 <= i <= |g.data|
      invariant colDict == CountedUpTo(names, i)
    {
      CountedStep(names, i);
      var n := g.data[i].name;
      if n in colDict {
        colDict := colDict[n := Counter(colDict[n].count + 1, colDict[n].position)];
      } else {
        colDict := colDict[n := Counter(1, 1)];
      }
      i := i + 1;
    }
    assert names[..|g.data|] == names;
  }

  /** colDict once the labelling pass has labelled the first j fields: the
      position of a repeated name is one more than its occurrences so far. */
  ghost function LabelledUpTo(names: seq<string>, j: nat): map<string, Counter>
    requires j <= |names|
  {
    map n | n in names :: Counter(Count(names, n), 1 + (if Count(names, n) > 1 then Count(names[..j], n) else 0))
  }

  lemma LabelledStart(names: seq<string>, colDict: map<string, Counter>)
    requires forall n :: n in colDict <==> n in names
    requires forall n :: n in colDict ==> colDict[n] == Counter(Count(names, n), 1)
    ensures colDict == LabelledUpTo(names, 0)
  {
  }

  /** The next counter state, as the labelling pass computes it from names[j]. */
  ghost function NextCounters(names: seq<string>, j: nat): map<string, Counter>
    requires j < |names|
  {
    var d := LabelledUpTo(names, j);
    var c := Counter(Count(names, names[j]), 1 + (if Count(names, names[j]) > 1 then Count(names[..j], names[j]) else 0));
    if c.count > 1 then d[names[j] := c.(position := c.position + 1)] else d
  }

  lemma LabelledNextAt(names: seq<string>, j: nat, m: string)
    requires j < |names| && m in names
    ensures LabelledUpTo(names, j + 1)[m] == NextCounters(names, j)[m]
  {
    CountPrefixStep(names, j, m);
  }

  lemma LabelledKeys(names: seq<string>, j: nat, m: string)
    requires j < |names|
    ensures m in LabelledUpTo(names, j + 1) <==> m in names
    ensures m in NextCounters(names, j) <==> m in names
  {
  }

  lemma LabelledNext(names: seq<string>, j: nat)
    requires j < |names|
    ensures LabelledUpTo(names, j + 1) == NextCounters(names, j)
  {
    var d' := LabelledUpTo(names, j + 1);
    var e := NextCounters(names, j);
    forall m | m in names ensures d'[m] == e[m] {
      LabelledNextAt(names, j, m);
    }
    forall m ensures m in d' <==> m in e {
      LabelledKeys(names, j, m);
    }
    assert d'.Keys == e.Keys;
  }

  lemma LabelledStep(names: seq<string>, j: nat)
    requires j < |names|
    ensures names[j] in LabelledUpTo(names, j)
    ensures
      var c := LabelledUpTo(names, j)[names[j]];
      c.count == Count(names, names[j])
      && c.position == 1 + (if c.count > 1 then Count(names[..j], names[j]) else 0)
      && LabelledUpTo(names, j + 1) == NextCounters(names, j)
  {
    LabelledNext(names, j);
  }


  /** The label the labelling pass builds from the counter of the field's name. */
  lemma LabelAt(g: AuxGroup, j: nat, c: Counter)
    requires j < |g.data|
    requires c.count == Count(Names(g.data), g.data[j].name)
    requires c.position == 1 + (if c.count > 1 then Count(Names(g.data)[..j], g.data[j].name) else 0)
    ensures AuxLabel(g.source, g.data, j) ==
      var plain := g.source + "." + g.data[j].name;
      var numbered := if c.count > 1 then plain + "_" + NatToDecimal(c.position) else plain;
      if Truthy(g.data[j].uom) then numbered + " (" + ToText(g.data[j].uom) + ")" else numbered
  {
    assert Names(g.data[..j]) == Names(g.data)[..j];
  }

  /** The label of field j (the body of the labelling pass before the
      write): the name's position counter moves on when the name repeats. */
  method LabelField(g: AuxGroup, j: nat, colDict: map<string, Counter>)
    returns (colLabel: string, colDict': map<string, Counter>)
    requires j < |g.data|
    requires colDict == LabelledUpTo(Names(g.data), j)
    ensures colLabel == AuxLabel(g.source, g.data, j)
    ensures colDict' == LabelledUpTo(Names(g.data), j + 1)
  {
    var f := g.data[j];
    LabelledStep(Names(g.data), j);
    var c := colDict[f.name];
    LabelAt(g, j, c);
    colDict' := colDict;
    colLabel := g.source + "." + f.name;
    if c.count > 1 {
      var position := c.position;
      colDict' := colDict[f.name := c.(position := position + 1)];
      colLabel := colLabel + "_" + NatToDecimal(position);
    }
    if Truthy(f.uom) {
      colLabel := colLabel + " (" + ToText(f.uom) + ")";
    }
  }

  /** One `copiedEvent.aux_data.forEach` step: the counting pass over
      data_array, then the labelling pass, which writes every field. */
  method AddAuxGroup(fields: Fields, g: AuxGroup) returns (r: Fields)
    ensures r == ApplyAll(fields, AuxWrites(g))
  {
    var colDict := CountNames(g);
    LabelledStart(Names(g.data), colDict);
    r := fields;
    var j := 0;
    while j < |g.data|
      invariant 0 <= j <= |g.data|
      invariant colDict == LabelledUpTo(Names(g.data), j)
      invariant r == ApplyAll(fields, AuxWritesUpTo(g.source, g.data, j))
    {
      var colLabel;
      colLabel, colDict := LabelField(g, j, colDict);
      WriteStep(fields, g, j, colLabel);
      r := Put(r, colLabel, g.data[j].value);
      j := j + 1;
    }
  }

  lemma WriteStep(fields: Fields, g: AuxGroup, j: nat, colLabel: string)
    requires j < |g.data|
    requires colLabel == AuxLabel(g.source, g.data, j)
    ensures Put(ApplyAll(fields, AuxWritesUpTo(g.source, g.data, j)), colLabel, g.data[j].value)
      == ApplyAll(fields, AuxWritesUpTo(g.source, g.data, j + 1))
  {
    ApplyAllAppend(fields, AuxWritesUpTo(g.source, g.data, j), Member(colLabel, g.data[j].value));
  }

  lemma {:induction false} ApplyAllConcat(fs: Fields, a: seq<Member>, b: seq<Member>)
    ensures ApplyAll(fs, a + b) == ApplyAll(ApplyAll(fs, a), b)
  {
    if |b| == 0 {
      assert a + b == a;
    } else {
      assert (a + b)[..|a + b| - 1] == a + b[..|b| - 1];
      ApplyAllConcat(fs, a, b[..|b| - 1]);
    }
  }

  /** The body of the `json.map` callback, after the grouping. */
  method FlattenEvent(e: Event, toIso: DateConversion) returns (r: Result<Fields>)
    ensures r == FlattenSpec(e, toIso)
  {
    var iso := IsoText(Get(e.fields, "ts"), toIso);
    if iso.None? {
      return Err(RangeError);
    }
    var base := Put(e.fields, "ts", Str(iso.value));
    var row := base;
    var opts := OptionWrites(e.options);
    for i := 0 to |e.options|
      invariant row == ApplyAll(base, opts[..i])
    {
      assert opts[..i + 1] == opts[..i] + [opts[i]];
      assert opts[..i + 1][..i] == opts[..i];
      row := Put(row, OptionKey(e.options[i].name), e.options[i].value);
    }
    assert opts[..|e.options|] == opts;
    var afterOptions := row;
    for k := 0 to |e.auxData|
      invariant row == ApplyAll(afterOptions, AuxWritesAll(e.auxData[..k]))
    {
      assert e.auxData[..k + 1][..k] == e.auxData[..k];
      row := AddAuxGroup(row, e.auxData[k]);
      ApplyAllConcat(afterOptions, AuxWritesAll(e.auxData[..k]), AuxWrites(e.auxData[k]));
    }
    assert e.auxData[..|e.auxData|] == e.auxData;
    ApplyAllConcat(base, opts, AuxWritesAll(e.auxData));
    return Ok(row);
  }

  /** eventsByType after the rows have been added in order: a row is
      appended to the group of its key, which is created on first use. */
  function GroupIndex(rows: seq<Fields>): map<string, seq<Fields>>
  {
    if |rows| == 0 then map[]
    else
      var m := GroupIndex(rows[..|rows| - 1]);
      var row := rows[|rows| - 1];
      var key := GroupKey(row);
      m[key := (if key in m then m[key] else []) + [row]]
  }

  /** Appending a row to its group, or starting the group with it, keeps
      eventsByType in step with the rows. */
  lemma GroupIndexAppend(rows: seq<Fields>, row: Fields, byType: map<string, seq<Fields>>, key: string)
    requires byType == GroupIndex(rows) && key == GroupKey(row)
    ensures GroupIndex(rows + [row]) ==
      if key !in byType then byType[key := [row]] else byType[key := byType[key] + [row]]
  {
    assert (rows + [row])[..|rows|] == rows;
    assert [] + [row] == [row];
  }

  /** flattenEventJSON: one row per event, and the rows grouped by event value. */
  method FlattenEventJson(events: seq<Event>, toIso: DateConversion) returns (r: Result<Flattened>)
    ensures r.Ok? <==> forall i :: 0 <= i < |events| ==> FlattenSpec(events[i], toIso).Ok?
    ensures r.Err? ==> exists i :: 0 <= i < |events| && FlattenSpec(events[i], toIso) == Err(r.error)
    ensures r.Ok? ==> |r.value.events| == |events|
    ensures r.Ok? ==> forall i :: 0 <= i < |events| ==> r.value.events[i] == FlattenSpec(events[i], toIso).value
    ensures r.Ok? ==> r.value.byType == GroupIndex(r.value.events)
  {
    var rows: seq<Fields> := [];
    var byType: map<string, seq<Fields>> := map[];
    for i := 0 to |events|
      invariant |rows| == i
      invariant forall k {:trigger FlattenSpec(events[k], toIso)} :: 0 <= k < i ==> FlattenSpec(events[k], toIso).Ok? && rows[k] == FlattenSpec(events[k], toIso).value
      invariant byType == GroupIndex(rows)
    {
      var row := FlattenEvent(events[i], toIso);
      if row.Err? {
        assert FlattenSpec(events[i], toIso) == Err(row.error);
        return Err(row.error);
      }
      var key := GroupKey(events[i].fields);
      GroupKeyPreserved(events[i], toIso);
      GroupIndexAppend(rows, row.value, byType, key);
      if key !in byType {
        byType := byType[key := [row.value]];
      } else {
        byType := byType[key := byType[key] + [row.value]];
      }
      rows := rows + [row.value];
    }
    return Ok(Flattened(rows, byType));
  }

  /** There is a group for v exactly when some row has event_value v. */
  lemma {:induction false} GroupIndexKeys(rows: seq<Fields>, v: string)
    ensures v in GroupIndex(rows) <==> exists k :: 0 <= k < |rows| && GroupKey(rows[k]) == v
  {
    if |rows| > 0 {
      var p := rows[..|rows| - 1];
      GroupIndexKeys(p, v);
      if exists k :: 0 <= k < |p| && GroupKey(p[k]) == v {
        var k :| 0 <= k < |p| && GroupKey(p[k]) == v;
        assert rows[k] == p[k];
      }
      if exists k :: 0 <= k < |rows| - 1 && GroupKey(rows[k]) == v {
        var k :| 0 <= k < |rows| - 1 && GroupKey(rows[k]) == v;
        assert p[k] == rows[k];
      }
    }
  }

  /** A group holds exactly the rows whose event_value is its key, in input
      order; a value without a group has no rows. */
  lemma {:induction false} GroupIndexValues(rows: seq<Fields>, v: string)
    ensures v in GroupIndex(rows) ==> GroupIndex(rows)[v] == Group(rows, v)
    ensures v !in GroupIndex(rows) ==> Group(rows, v) == []
  {
    if |rows| > 0 {
      var p := rows[..|rows| - 1];
      GroupIndexValues(p, v);
      if GroupKey(rows[|rows| - 1]) != v {
        assert Group(rows, v) == Group(p, v) + [] == Group(p, v);
      }
    }
  }

  /** The whole grouping: the groups, and what each one holds. */
  lemma GroupIndexGroups(rows: seq<Fields>, v: string)
    ensures v in GroupIndex(rows) <==> exists k :: 0 <= k < |rows| && GroupKey(rows[k]) == v
    ensures v in GroupIndex(rows) ==> GroupIndex(rows)[v] == Group(rows, v)
    ensures v !in GroupIndex(rows) ==> Group(rows, v) == []
  {
    GroupIndexKeys(rows, v);
    GroupIndexValues(rows, v);
  }

  // ---- what the flattening writes ----

  predicate HasDot(s: string) { '.' in s }

  lemma WriteKeysHaveDots(e: Event)
    ensures forall k :: 0 <= k < |EventWrites(e)| ==> HasDot(EventWrites(e)[k].key)
  {
    var os := OptionWrites(e.options);
    forall k | 0 <= k < |os| ensures HasDot(os[k].key) {
      assert OptionKey(e.options[k].name)[12] == '.';
    }
    AuxKeysHaveDots(e.auxData);
  }

  lemma {:induction false} AuxKeysHaveDots(gs: seq<AuxGroup>)
    ensures forall k :: 0 <= k < |AuxWritesAll(gs)| ==> HasDot(AuxWritesAll(gs)[k].key)
  {
    if |gs| > 0 {
      AuxKeysHaveDots(gs[..|gs| - 1]);
      var g := gs[|gs| - 1];
      var ws := AuxWrites(g);
      forall k | 0 <= k < |ws| ensures HasDot(ws[k].key) {
        AuxWritesUpToAt(g.source, g.data, |g.data|, k);
        assert AuxLabel(g.source, g.data, k)[|g.source|] == '.';
      }
    }
  }

  /** A key no write mentions keeps its value. */
  lemma {:induction false} GetApplyAllUntouched(fs: Fields, ws: seq<Member>, key: string)
    requires forall k :: 0 <= k < |ws| ==> ws[k].key != key
    ensures Get(ApplyAll(fs, ws), key) == Get(fs, key)
  {
    if |ws| > 0 {
      GetApplyAllUntouched(fs, ws[..|ws| - 1], key);
      GetPut(ApplyAll(fs, ws[..|ws| - 1]), ws[|ws| - 1].key, ws[|ws| - 1].value, key);
    }
  }

  /** The last write of a key decides its value. */
  lemma {:induction false} GetApplyAllLast(fs: Fields, ws: seq<Member>, i: nat)
    requires i < |ws|
    requires forall k :: i < k < |ws| ==> ws[k].key != ws[i].key
    ensures Get(ApplyAll(fs, ws), ws[i].key) == ws[i].value
  {
    var p := ws[..|ws| - 1];
    GetPut(ApplyAll(fs, p), ws[|ws| - 1].key, ws[|ws| - 1].value, ws[i].key);
    if i < |ws| - 1 {
      GetApplyAllLast(fs, p, i);
    }
  }

  /** Written keys are added once each, keeping the existing ones. */
  lemma {:induction false} KeysApplyAll(fs: Fields, ws: seq<Member>, key: string)
    ensures key in Keys(ApplyAll(fs, ws)) <==> key in Keys(fs) || exists k :: 0 <= k < |ws| && ws[k].key == key
  {
    if |ws| > 0 {
      var p := ws[..|ws| - 1];
      var w := ws[|ws| - 1];
      KeysApplyAll(fs, p, key);
      assert ApplyAll(fs, ws) == Put(ApplyAll(fs, p), w.key, w.value);
      KeysPut(ApplyAll(fs, p), w.key, w.value);
      HasKeys(ApplyAll(fs, p), w.key);
      if exists k :: 0 <= k < |ws| && ws[k].key == key {
        var k :| 0 <= k < |ws| && ws[k].key == key;
        if k < |ws| - 1 { assert p[k] == ws[k]; }
      }
      if exists k :: 0 <= k < |p| && p[k].key == key {
        var k :| 0 <= k < |p| && p[k].key == key;
        assert ws[k] == p[k];
      }
    }
  }

  lemma {:induction false} UniqueKeysApplyAll(fs: Fields, ws: seq<Member>)
    requires UniqueKeys(fs)
    ensures UniqueKeys(ApplyAll(fs, ws))
  {
    if |ws| > 0 {
      UniqueKeysApplyAll(fs, ws[..|ws| - 1]);
      UniqueKeysPut(ApplyAll(fs, ws[..|ws| - 1]), ws[|ws| - 1].key, ws[|ws| - 1].value);
    }
  }

  /** The flattened row keeps the event's event_value, so the row is
      grouped under the same key as the event it came from. */
  lemma GroupKeyPreserved(e: Event, toIso: DateConversion)
    requires FlattenSpec(e, toIso).Ok?
    ensures GroupKey(FlattenSpec(e, toIso).value) == GroupKey(e.fields)
  {
    WriteKeysHaveDots(e);
    var iso := IsoText(Get(e.fields, "ts"), toIso).value;
    GetApplyAllUntouched(Put(e.fields, "ts", Str(iso)), EventWrites(e), "event_value");
    GetPut(e.fields, "ts", Str(iso), "event_value");
  }

  lemma ConcatKeys(os: seq<Member>, ax: seq<Member>, key: string)
    ensures (exists k :: 0 <= k < |os + ax| && (os + ax)[k].key == key) <==>
      (exists k :: 0 <= k < |os| && os[k].key == key) || (exists k :: 0 <= k < |ax| && ax[k].key == key)
  {
    var ws := os + ax;
    if exists k :: 0 <= k < |ws| && ws[k].key == key {
      var k :| 0 <= k < |ws| && ws[k].key == key;
      if k < |os| { assert os[k] == ws[k]; } else { assert ax[k - |os|] == ws[k]; }
    }
    if exists k :: 0 <= k < |os| && os[k].key == key {
      var k :| 0 <= k < |os| && os[k].key == key;
      assert ws[k] == os[k];
    }
    if exists k :: 0 <= k < |ax| && ax[k].key == key {
      var k :| 0 <= k < |ax| && ax[k].key == key;
      assert ws[|os| + k] == ax[k];
      assert ws[|os| + k].key == key;
    }
  }

  lemma OptionWriteKeys(os: seq<EventOption>, key: string)
    ensures (exists k :: 0 <= k < |OptionWrites(os)| && OptionWrites(os)[k].key == key) <==>
      (exists i :: 0 <= i < |os| && key == OptionKey(os[i].name))
  {
    var ws := OptionWrites(os);
    if exists i :: 0 <= i < |os| && key == OptionKey(os[i].name) {
      var i :| 0 <= i < |os| && key == OptionKey(os[i].name);
      assert ws[i].key == key;
    }
  }

  lemma WriteKeysSplit(e: Event, key: string)
    ensures (exists k :: 0 <= k < |EventWrites(e)| && EventWrites(e)[k].key == key) <==>
      (exists i :: 0 <= i < |e.options| && key == OptionKey(e.options[i].name))
      || (exists k :: 0 <= k < |AuxWritesAll(e.auxData)| && key == AuxWritesAll(e.auxData)[k].key)
  {
    assert EventWrites(e) == OptionWrites(e.options) + AuxWritesAll(e.auxData);
    ConcatKeys(OptionWrites(e.options), AuxWritesAll(e.auxData), key);
    OptionWriteKeys(e.options, key);
  }

  /** The keys of a flattened row: the event's own members, one
      `event_option.<name>` per option and one label per aux field. */
  lemma FlattenKeys(e: Event, toIso: DateConversion, key: string)
    requires FlattenSpec(e, toIso).Ok?
    ensures key in Keys(FlattenSpec(e, toIso).value) <==>
      key in Keys(e.fields)
      || (exists i :: 0 <= i < |e.options| && key == OptionKey(e.options[i].name))
      || (exists k :: 0 <= k < |AuxWritesAll(e.auxData)| && key == AuxWritesAll(e.auxData)[k].key)
  {
    var iso := IsoText(Get(e.fields, "ts"), toIso).value;
    KeysApplyAll(Put(e.fields, "ts", Str(iso)), EventWrites(e), key);
    KeysPut(e.fields, "ts", Str(iso));
    assert Has(e.fields, "ts");
    WriteKeysSplit(e, key);
  }

  /** A flattened row has no event_options or aux_data member, and no key twice. */
  lemma FlattenDropsNested(e: Event, toIso: DateConversion)
    requires WellFormed(e)
    requires FlattenSpec(e, toIso).Ok?
    ensures "event_options" !in Keys(FlattenSpec(e, toIso).value)
    ensures "aux_data" !in Keys(FlattenSpec(e, toIso).value)
    ensures UniqueKeys(FlattenSpec(e, toIso).value)
  {
    var iso := IsoText(Get(e.fields, "ts"), toIso).value;
    var base := Put(e.fields, "ts", Str(iso));
    var ws := EventWrites(e);
    WriteKeysHaveDots(e);
    assert !HasDot("event_options") && !HasDot("aux_data");
    KeysApplyAll(base, ws, "event_options");
    KeysApplyAll(base, ws, "aux_data");
    KeysPut(e.fields, "ts", Str(iso));
    assert Has(e.fields, "ts");
    HasKeys(e.fields, "event_options");
    HasKeys(e.fields, "aux_data");
    UniqueKeysPut(e.fields, "ts", Str(iso));
    UniqueKeysApplyAll(base, ws);
  }

  /** An option's value is what the row holds under `event_option.<name>`
      when it is the last option of that name and no aux colLabel repeats the key. */
  lemma FlattenOptionValue(e: Event, toIso: DateConversion, i: nat)
    requires FlattenSpec(e, toIso).Ok?
    requires i < |e.options|
    requires forall j :: i < j < |e.options| ==> e.options[j].name != e.options[i].name
    requires forall k :: 0 <= k < |AuxWritesAll(e.auxData)| ==> AuxWritesAll(e.auxData)[k].key != OptionKey(e.options[i].name)
    ensures Get(FlattenSpec(e, toIso).value, OptionKey(e.options[i].name)) == e.options[i].value
  {
    var iso := IsoText(Get(e.fields, "ts"), toIso).value;
    var os := OptionWrites(e.options);
    var ax := AuxWritesAll(e.auxData);
    var ws := EventWrites(e);
    forall k | i < k < |ws| ensures ws[k].key != ws[i].key {
      if k < |os| {
        assert ws[k] == os[k];
        assert OptionKey(e.options[k].name)[13..] == e.options[k].name;
        assert OptionKey(e.options[i].name)[13..] == e.options[i].name;
      } else {
        assert ws[k] == ax[k - |os|];
      }
    }
    assert ws[i] == os[i];
    GetApplyAllLast(Put(e.fields, "ts", Str(iso)), ws, i);
  }

  /** The event's timestamp ends up as its ISO text. */
  lemma FlattenTimestamp(e: Event, toIso: DateConversion)
    requires FlattenSpec(e, toIso).Ok?
    ensures Get(FlattenSpec(e, toIso).value, "ts") == Str(IsoText(Get(e.fields, "ts"), toIso).value)
  {
    var iso := IsoText(Get(e.fields, "ts"), toIso).value;
    WriteKeysHaveDots(e);
    assert !HasDot("ts");
    GetApplyAllUntouched(Put(e.fields, "ts", Str(iso)), EventWrites(e), "ts");
    GetPut(e.fields, "ts", Str(iso), "ts");
  }

  /** Flattening an event fails exactly when its timestamp does not
      convert, and then with a RangeError; a stored Date always converts. */
  lemma TimestampDecides(e: Event, toIso: DateConversion)
    ensures FlattenSpec(e, toIso).Err? <==> IsoText(Get(e.fields, "ts"), toIso).None?
    ensures FlattenSpec(e, toIso).Err? ==> FlattenSpec(e, toIso).error == RangeError
    ensures Get(e.fields, "ts").Date? ==> FlattenSpec(e, toIso).Ok?
  {
  }

  // ---- aux labels ----

  lemma {:induction false} CountPrefixGrows(s: seq<string>, i: nat, j: nat)
    requires i < j <= |s|
    ensures Count(s[..j], s[i]) >= Count(s[..i], s[i]) + 1
  {
    if j == i + 1 {
      assert s[..j] == s[..i] + [s[i]];
      CountAppend(s[..i], [s[i]], s[i]);
    } else {
      CountPrefixGrows(s, i, j - 1);
      assert s[..j] == s[..j - 1] + [s[j - 1]];
      CountAppend(s[..j - 1], [s[j - 1]], s[i]);
    }
  }

  /** The length of the leading run of digits. */
  function DigitRun(s: string): nat
  {
    if |s| == 0 || !IsDigit(s[0]) then 0 else 1 + DigitRun(s[1..])
  }

  lemma {:induction false} DigitRunConcat(a: string, x: string)
    requires forall i :: 0 <= i < |a| ==> IsDigit(a[i])
    requires |x| > 0 ==> !IsDigit(x[0])
    ensures DigitRun(a + x) == |a|
  {
    if |a| > 0 {
      assert (a + x)[1..] == a[1..] + x;
      DigitRunConcat(a[1..], x);
    } else {
      assert a + x == x;
    }
  }

  /** Digits followed by text that does not start with a digit can be split back apart. */
  lemma DigitsPrefix(a: string, x: string, b: string, y: string)
    requires (forall i :: 0 <= i < |a| ==> IsDigit(a[i])) && (forall i :: 0 <= i < |b| ==> IsDigit(b[i]))
    requires |x| > 0 ==> !IsDigit(x[0])
    requires |y| > 0 ==> !IsDigit(y[0])
    requires a + x == b + y
    ensures a == b
  {
    DigitRunConcat(a, x);
    DigitRunConcat(b, y);
    assert a == (a + x)[..|a|] == (b + y)[..|b|] == b;
  }

  /** Different occurrence numbers give different labels, whatever units follow. */
  lemma SuffixDistinct(head: string, ki: nat, ui: string, kj: nat, uj: string)
    requires ki != kj
    requires |ui| > 0 ==> ui[0] == ' '
    requires |uj| > 0 ==> uj[0] == ' '
    ensures head + (NatToDecimal(ki) + ui) != head + (NatToDecimal(kj) + uj)
  {
    var di, dj := NatToDecimal(ki), NatToDecimal(kj);
    DigitRunConcat(di, ui);
    DigitRunConcat(dj, uj);
    assert (di + ui)[..|di|] == di;
    assert (dj + uj)[..|dj|] == dj;
    ParseNatToDecimal(ki);
    ParseNatToDecimal(kj);
    assert (head + (di + ui))[|head|..] == di + ui;
    assert (head + (dj + uj))[|head|..] == dj + uj;
  }

  lemma RepeatedCount(ns: seq<string>, i: nat, j: nat)
    requires i < j < |ns| && ns[i] == ns[j]
    ensures Count(ns, ns[i]) > 1
    ensures Count(ns[..j], ns[i]) > Count(ns[..i], ns[i])
  {
    var n := ns[i];
    assert ns == ns[..j] + ns[j..];
    CountAppend(ns[..j], ns[j..], n);
    CountPrefixGrows(ns, i, j);
    assert ns[j..][0] == n;
    CountPositive(ns[j..], n);
  }

  lemma NamesPrefix(data: seq<AuxField>, i: nat)
    requires i <= |data|
    ensures Names(data[..i]) == Names(data)[..i]
  {
  }

  lemma Assoc(a: string, b: string, c: string)
    ensures a + b + c == a + (b + c)
  {
  }

  /** A field whose name occurs more than once in its group is labelled
      with its occurrence number: one more than the fields of that name
      before it. */
  lemma AuxLabelRepeated(source: string, data: seq<AuxField>, i: nat)
    requires i < |data|
    requires Count(Names(data), data[i].name) > 1
    ensures AuxLabel(source, data, i) ==
      (source + "." + data[i].name + "_") + (NatToDecimal(Count(Names(data)[..i], data[i].name) + 1) + UnitText(data[i].uom))
    ensures AuxLabel(source, data, i) == source + "." + data[i].name + "_" +
      NatToDecimal(Count(Names(data[..i]), data[i].name) + 1) + UnitText(data[i].uom)
  {
    NamesPrefix(data, i);
    var head := source + "." + data[i].name + "_";
    var d := NatToDecimal(Count(Names(data)[..i], data[i].name) + 1);
    Assoc(head, d, UnitText(data[i].uom));
  }

  /** The first of several fields with one name is labelled `_1`. */
  lemma FirstRepeatedLabel(source: string, data: seq<AuxField>, i: nat)
    requires i < |data|
    requires Count(Names(data), data[i].name) > 1
    requires Count(Names(data[..i]), data[i].name) == 0
    ensures StartsWith(AuxLabel(source, data, i), source + "." + data[i].name + "_1")
  {
    NamesPrefix(data, i);
    AuxLabelRepeated(source, data, i);
    assert NatToDecimal(1) == "1";
    var head := source + "." + data[i].name + "_";
    var u := UnitText(data[i].uom);
    Assoc(head, "1", u);
    assert (head + "1" + u)[..|head + "1"|] == head + "1";
  }

  /** When a name repeats inside a group, every occurrence gets its own
      label (no aux value overwrites another): the k-th occurrence is
      labelled `_k`, so the first one is `_1`. */
  lemma RepeatedNameLabels(source: string, data: seq<AuxField>, i: nat, j: nat)
    requires i < j < |data|
    requires data[i].name == data[j].name
    ensures AuxLabel(source, data, i) != AuxLabel(source, data, j)
    ensures AuxLabel(source, data, i) == source + "." + data[i].name + "_" +
      NatToDecimal(Count(Names(data[..i]), data[i].name) + 1) + UnitText(data[i].uom)
    ensures AuxLabel(source, data, j) == source + "." + data[j].name + "_" +
      NatToDecimal(Count(Names(data[..j]), data[j].name) + 1) + UnitText(data[j].uom)
    ensures Count(Names(data[..i]), data[i].name) == 0 ==>
      StartsWith(AuxLabel(source, data, i), source + "." + data[i].name + "_1")
  {
    RepeatedCount(Names(data), i, j);
    RepeatedLabelsDiffer(source, data, i, j);
    AuxLabelRepeated(source, data, i);
    AuxLabelRepeated(source, data, j);
    if Count(Names(data[..i]), data[i].name) == 0 {
      FirstRepeatedLabel(source, data, i);
    }
  }

  lemma RepeatedLabelsDiffer(source: string, data: seq<AuxField>, i: nat, j: nat)
    requires i < j < |data|
    requires data[i].name == data[j].name
    ensures AuxLabel(source, data, i) != AuxLabel(source, data, j)
  {
    var ns := Names(data);
    var n := data[i].name;
    RepeatedCount(ns, i, j);
    AuxLabelRepeated(source, data, i);
    AuxLabelRepeated(source, data, j);
    SuffixDistinct(source + "." + n + "_", Count(ns[..i], n) + 1, UnitText(data[i].uom),
                   Count(ns[..j], n) + 1, UnitText(data[j].uom));
  }


  lemma {:induction false} AuxWritesAllConcat(a: seq<AuxGroup>, b: seq<AuxGroup>)
    ensures AuxWritesAll(a + b) == AuxWritesAll(a) + AuxWritesAll(b)
    decreases |b|
  {
    if |b| == 0 {
      assert a + b == a;
    } else {
      var front, last := b[..|b| - 1], b[|b| - 1];
      assert (a + b)[..|a + b| - 1] == a + front;
      assert (a + b)[|a + b| - 1] == last;
      AuxWritesAllConcat(a, front);
      var wa, wf, wl := AuxWritesAll(a), AuxWritesAll(front), AuxWrites(last);
      calc {
        AuxWritesAll(a + b);
        AuxWritesAll(a + front) + wl;
        (wa + wf) + wl;
        { assert (wa + wf) + wl == wa + (wf + wl); }
        wa + (wf + wl);
        wa + AuxWritesAll(b);
      }
    }
  }

  /** Counting starts afresh in every aux group: the members an event writes
      for the j-th field of a group carry the label and value computed from
      that group alone, whatever groups come before or after it. */
  lemma LabelsPerGroup(e: Event, before: seq<AuxGroup>, g: AuxGroup, after: seq<AuxGroup>, j: nat)
    requires e.auxData == before + [g] + after
    requires j < |g.data|
    ensures |e.options| + |AuxWritesAll(before)| + j < |EventWrites(e)|
    ensures EventWrites(e)[|e.options| + |AuxWritesAll(before)| + j] ==
      Member(AuxLabel(g.source, g.data, j), g.data[j].value)
  {
    GroupWritesAt(before, g, after, j);
    var w := AuxWritesAll(e.auxData);
    assert EventWrites(e) == OptionWrites(e.options) + w;
    assert EventWrites(e)[|e.options| + |AuxWritesAll(before)| + j] == w[|AuxWritesAll(before)| + j];
  }

  lemma GroupWritesAt(before: seq<AuxGroup>, g: AuxGroup, after: seq<AuxGroup>, j: nat)
    requires j < |g.data|
    ensures |AuxWritesAll(before)| + j < |AuxWritesAll(before + [g] + after)|
    ensures AuxWritesAll(before + [g] + after)[|AuxWritesAll(before)| + j] ==
      Member(AuxLabel(g.source, g.data, j), g.data[j].value)
  {
    AuxWritesAllConcat(before + [g], after);
    AuxWritesAllConcat(before, [g]);
    assert [g][..0] == [];
    assert AuxWritesAll([g]) == AuxWrites(g);
    AuxWritesUpToAt(g.source, g.data, |g.data|, j);
  }

  // ---- the unit-test example ----

  /** The event of the first unit test, in this model's terms. */
  function TestEvent(): Event
  {
    Event([Member("ts", Str("2023-10-14T10:10:10.000Z")),
           Member("id", Str("5d27973bd1848b7eb56fa85d")),
           Member("event_free_text", Str("Some \"event\" text"))],
          [EventOption("option1", Str("value1"))],
          [])
  }

  lemma TestEventFlattens(toIso: DateConversion)
    requires toIso(Str("2023-10-14T10:10:10.000Z")) == Some("2023-10-14T10:10:10.000Z")
    ensures FlattenSpec(TestEvent(), toIso).Ok?
    ensures FlattenSpec(TestEvent(), toIso).value ==
      [Member("ts", Str("2023-10-14T10:10:10.000Z")),
       Member("id", Str("5d27973bd1848b7eb56fa85d")),
       Member("event_free_text", Str("Some \"event\" text")),
       Member("event_option.option1", Str("value1"))]
  {
    var e := TestEvent();
    var base := Put(e.fields, "ts", Str("2023-10-14T10:10:10.000Z"));
    assert base == e.fields;
    assert AuxWritesAll(e.auxData) == [];
    assert |OptionWrites(e.options)| == 1;
    assert OptionWrites(e.options)[0] == Member("event_option.option1", Str("value1"));
    assert OptionWrites(e.options) == [Member("event_option.option1", Str("value1"))];
    assert EventWrites(e) == [Member("event_option.option1", Str("value1"))];
    assert !Has(base, "event_option.option1") by {
      HasKeys(base, "event_option.option1");
      assert Keys(base) == ["ts", "id", "event_free_text"];
    }
  }
}
