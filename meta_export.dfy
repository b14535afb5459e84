/** The CSV form of cruise and lowering records (_flattenJSON and
    _buildCSVHeaders, the same code in routes/api/v1/cruises.js and
    routes/api/v1/lowerings.js with the entity name changed), and the
    `_id` renaming both files apply before a record leaves the server. */
module MetaExport {
  import opened Wrappers
  import opened Seqs
  import opened Text
  import opened Json
  import opened AccessControl
  import opened CsvExport

  function MetaField(entityType: string): string { entityType + "_additional_meta" }

  function FilesField(entityType: string): string { entityType + "_files" }

  function TagsField(entityType: string): string { entityType + "_tags" }

  // ---- _renameAndClearFields ----

  /** `doc.id = doc._id; delete doc._id`, and without access control the
      access list is dropped too. */
  method RenameAndClearFields(entityType: string, doc: Fields, useAccessControl: bool) returns (r: Fields)
    requires KnownEntity(entityType)
    ensures Get(r, "id") == Get(doc, "_id")
    ensures !Has(r, "_id")
    ensures !useAccessControl ==> !Has(r, AccessListField(entityType))
    ensures useAccessControl ==> Get(r, AccessListField(entityType)) == Get(doc, AccessListField(entityType))
    ensures forall k :: k != "id" && k != "_id" && k != AccessListField(entityType) ==> Get(r, k) == Get(doc, k)
  {
    AccessListNotId(entityType);
    var renamed := Put(doc, "id", Get(doc, "_id"));
    r := Delete(renamed, "_id");
    forall k ensures Get(r, k) == if k == "_id" then Undefined else if k == "id" then Get(doc, "_id") else Get(doc, k) {
      GetPut(doc, "id", Get(doc, "_id"), k);
      GetDelete(renamed, "_id", k);
    }
    if !useAccessControl {
      var before := r;
      r := Delete(r, AccessListField(entityType));
      forall k ensures Get(r, k) == if k == AccessListField(entityType) then Undefined else Get(before, k) {
        GetDelete(before, AccessListField(entityType), k);
      }
      HasDelete(before, AccessListField(entityType), "_id");
    }
  }

  lemma AccessListNotId(entityType: string)
    requires KnownEntity(entityType)
    ensures AccessListField(entityType) != "id" && AccessListField(entityType) != "_id"
  {
    assert |AccessListField(entityType)| > 3;
  }

  // ---- _flattenJSON ----

  /** A lifted meta value: an array is joined with ','. */
  function LiftValue(v: Json): Json {
    if v.Arr? then Str(JoinValues(v.items, ",", v)) else v
  }

  /** The copy after `copied[key] = meta[key]` (joined when an array) for
      each of `keys` in turn. */
  function Lifted(copied: Fields, meta: Fields, keys: seq<string>): Fields
    decreases |keys|
  {
    if |keys| == 0 then copied
    else
      var key := keys[|keys| - 1];
      Put(Lifted(copied, meta, keys[..|keys| - 1]), key, LiftValue(Get(meta, key)))
  }

  /** The four fields deleted after lifting. */
  function Stripped(entityType: string, fs: Fields): Fields {
    Delete(Delete(Delete(Delete(fs, MetaField(entityType)), HiddenField(entityType)),
                  AccessListField(entityType)), FilesField(entityType))
  }

  /** `date.toISOString()`, a TypeError on anything but a Date. */
  function IsoOf(v: Json): Result<Json> {
    if v.Date? then Ok(Str(v.iso)) else Err(TypeError)
  }

  /** `id.id.toString('hex')`, a TypeError on anything but an ObjectId. */
  function HexOf(v: Json): Result<Json> {
    if v.Oid? then Ok(Str(v.hex)) else Err(TypeError)
  }

  /** `tags.join(',')`, a TypeError on anything but an array. */
  function JoinedTags(v: Json): Result<Json> {
    if v.Arr? then Ok(Str(JoinValues(v.items, ",", v))) else Err(TypeError)
  }

  /** `Object.keys(meta)`: a TypeError for undefined and null; a value that
      is not an object (the schema allows objects only) has no keys here. */
  function MetaKeys(meta: Json): Result<Fields> {
    if meta == Undefined || meta == Null then Err(TypeError)
    else if meta.Obj? then Ok(meta.members)
    else Ok([])
  }

  /** What _flattenJSON makes of one record: lift the meta keys, delete
      the four internal fields, then convert the times, the id and the tags
      in that order, stopping at the first value of the wrong type. */
  function FlattenSpec(entityType: string, rec: Fields): (r: Result<Fields>)
    ensures r.Err? ==> r.error == TypeError
    ensures Get(rec, MetaField(entityType)) == Undefined ==> r == Err(TypeError)
  {
    match Prepared(entityType, rec)
    case Err(e) => Err(e)
    case Ok(s) => ConvertStart(entityType, s)
  }

  /** The copy with the meta keys lifted and the internal fields deleted. */
  function Prepared(entityType: string, rec: Fields): Result<Fields> {
    match MetaKeys(Get(rec, MetaField(entityType)))
    case Err(e) => Err(e)
    case Ok(meta) => Ok(Stripped(entityType, Lifted(rec, meta, Keys(meta))))
  }

  function ConvertStart(entityType: string, s: Fields): Result<Fields> {
    match IsoOf(Get(s, "start_ts"))
    case Err(e) => Err(e)
    case Ok(start) => ConvertStop(entityType, Put(s, "start_ts", start))
  }

  function ConvertStop(entityType: string, s: Fields): Result<Fields> {
    match IsoOf(Get(s, "stop_ts"))
    case Err(e) => Err(e)
    case Ok(stop) => ConvertId(entityType, Put(s, "stop_ts", stop))
  }

  function ConvertId(entityType: string, s: Fields): Result<Fields> {
    match HexOf(Get(s, "id"))
    case Err(e) => Err(e)
    case Ok(id) => ConvertTags(entityType, Put(s, "id", id))
  }

  function ConvertTags(entityType: string, s: Fields): Result<Fields> {
    match JoinedTags(Get(s, TagsField(entityType)))
    case Err(e) => Err(e)
    case Ok(tags) => Ok(Put(s, TagsField(entityType), tags))
  }

  lemma LiftedStep(copied: Fields, meta: Fields, keys: seq<string>, i: nat)
    requires i < |keys|
    ensures Lifted(copied, meta, keys[..i + 1]) ==
      Put(Lifted(copied, meta, keys[..i]), keys[i], LiftValue(Get(meta, keys[i])))
  {
    assert keys[..i + 1][..i] == keys[..i];
  }

  /** The deep copy of one record, flattened step by step. */
  method FlattenRecord(entityType: string, rec: Fields) returns (r: Result<Fields>)
    ensures r == FlattenSpec(entityType, rec)
  {
    var metaKeys := MetaKeys(Get(rec, MetaField(entityType)));
    if metaKeys.Err? {
      return Err(TypeError);
    }
    var meta := metaKeys.value;
    var keys := Keys(meta);
    var copied := rec;
    for i := 0 to |keys|
      invariant copied == Lifted(rec, meta, keys[..i])
    {
      LiftedStep(rec, meta, keys, i);
      var value := Get(meta, keys[i]);
      copied := Put(copied, keys[i], value);
      if value.Arr? {
        copied := Put(copied, keys[i], Str(JoinValues(value.items, ",", value)));
        PutTwice(Lifted(rec, meta, keys[..i]), keys[i], value, Str(JoinValues(value.items, ",", value)));
      }
    }
    assert keys[..|keys|] == keys;
    copied := Delete(copied, MetaField(entityType));
    copied := Delete(copied, HiddenField(entityType));
    copied := Delete(copied, AccessListField(entityType));
    copied := Delete(copied, FilesField(entityType));
    var start := IsoOf(Get(copied, "start_ts"));
    if start.Err? {
      return Err(TypeError);
    }
    copied := Put(copied, "start_ts", start.value);
    var stop := IsoOf(Get(copied, "stop_ts"));
    if stop.Err? {
      return Err(TypeError);
    }
    copied := Put(copied, "stop_ts", stop.value);
    var id := HexOf(Get(copied, "id"));
    if id.Err? {
      return Err(TypeError);
    }
    copied := Put(copied, "id", id.value);
    var tags := JoinedTags(Get(copied, TagsField(entityType)));
    if tags.Err? {
      return Err(TypeError);
    }
    copied := Put(copied, TagsField(entityType), tags.value);
    return Ok(copied);
  }

  /** Assigning a key twice leaves the second value. */
  lemma {:induction false} PutTwice(fs: Fields, k: string, v: Json, w: Json)
    ensures Put(Put(fs, k, v), k, w) == Put(fs, k, w)
    decreases |fs|
  {
    if |fs| > 0 && fs[0].key != k {
      PutTwice(fs[1..], k, v, w);
      assert Put(fs, k, v)[1..] == Put(fs[1..], k, v);
    }
  }

  /** _flattenJSON over a list of records: the rows in order, or the
      TypeError of the first record that cannot be converted. */
  function FlattenAll(entityType: string, recs: seq<Fields>): Result<seq<Fields>>
    decreases |recs|
  {
    if |recs| == 0 then Ok([])
    else
      match FlattenAll(entityType, recs[..|recs| - 1])
      case Err(e) => Err(e)
      case Ok(rows) =>
        match FlattenSpec(entityType, recs[|recs| - 1])
        case Err(e) => Err(e)
        case Ok(row) => Ok(rows + [row])
  }

  method FlattenJson(entityType: string, recs: seq<Fields>) returns (r: Result<seq<Fields>>)
    ensures r == FlattenAll(entityType, recs)
  {
    var rows: seq<Fields> := [];
    for i := 0 to |recs|
      invariant FlattenAll(entityType, recs[..i]) == Ok(rows)
    {
      var row := FlattenRecord(entityType, recs[i]);
      FlattenAllSnoc(entityType, recs, i, rows);
      if row.Err? {
        FlattenAllStopsAt(entityType, recs, i + 1);
        return Err(TypeError);
      }
      rows := rows + [row.value];
    }
    assert recs[..|recs|] == recs;
    return Ok(rows);
  }

  lemma FlattenAllSnoc(entityType: string, recs: seq<Fields>, i: nat, rows: seq<Fields>)
    requires i < |recs| && FlattenAll(entityType, recs[..i]) == Ok(rows)
    ensures FlattenSpec(entityType, recs[i]).Err? ==> FlattenAll(entityType, recs[..i + 1]).Err?
    ensures FlattenSpec(entityType, recs[i]).Ok? ==>
      FlattenAll(entityType, recs[..i + 1]) == Ok(rows + [FlattenSpec(entityType, recs[i]).value])
  {
    assert recs[..i + 1][..i] == recs[..i];
  }

  lemma {:induction false} FlattenAllStopsAt(entityType: string, recs: seq<Fields>, n: nat)
    requires 0 < n <= |recs| && FlattenAll(entityType, recs[..n]).Err?
    ensures FlattenAll(entityType, recs) == Err(TypeError)
    decreases |recs|
  {
    if n < |recs| {
      assert recs[..|recs| - 1][..n] == recs[..n];
      FlattenAllStopsAt(entityType, recs[..|recs| - 1], n);
    } else {
      assert recs[..n] == recs;
      FlattenAllErr(entityType, recs);
    }
  }

  /** The only error the flattening raises is a TypeError. */
  lemma {:induction false} FlattenAllErr(entityType: string, recs: seq<Fields>)
    ensures FlattenAll(entityType, recs).Err? ==> FlattenAll(entityType, recs).error == TypeError
    decreases |recs|
  {
    if |recs| > 0 {
      FlattenAllErr(entityType, recs[..|recs| - 1]);
    }
  }

  /** The list flattens exactly when every record does. */
  lemma FlattenAllOk(entityType: string, recs: seq<Fields>)
    ensures FlattenAll(entityType, recs).Ok? <==> forall i :: 0 <= i < |recs| ==> FlattenSpec(entityType, recs[i]).Ok?
  {
    if FlattenAll(entityType, recs).Ok? {
      forall i | 0 <= i < |recs| ensures FlattenSpec(entityType, recs[i]).Ok? {
        FlattenAllRow(entityType, recs, i);
      }
    } else if forall i :: 0 <= i < |recs| ==> FlattenSpec(entityType, recs[i]).Ok? {
      FlattenAllWhenAll(entityType, recs);
    }
  }

  lemma {:induction false} FlattenAllWhenAll(entityType: string, recs: seq<Fields>)
    requires forall i :: 0 <= i < |recs| ==> FlattenSpec(entityType, recs[i]).Ok?
    ensures FlattenAll(entityType, recs).Ok?
    decreases |recs|
  {
    if |recs| > 0 {
      var init := recs[..|recs| - 1];
      assert forall i :: 0 <= i < |init| ==> init[i] == recs[i];
      FlattenAllWhenAll(entityType, init);
      assert FlattenSpec(entityType, recs[|recs| - 1]).Ok?;
    }
  }

  /** Row i of a flattened list is record i flattened. */
  lemma {:induction false} FlattenAllRow(entityType: string, recs: seq<Fields>, i: nat)
    requires FlattenAll(entityType, recs).Ok? && i < |recs|
    ensures |FlattenAll(entityType, recs).value| == |recs|
    ensures Ok(FlattenAll(entityType, recs).value[i]) == FlattenSpec(entityType, recs[i])
    decreases |recs|
  {
    var init := recs[..|recs| - 1];
    var rows := FlattenAll(entityType, init).value;
    if i < |recs| - 1 {
      FlattenAllRow(entityType, init, i);
    } else if |recs| > 1 {
      FlattenAllRow(entityType, init, 0);
    }
  }

  // ---- what a flattened record holds ----

  lemma {:induction false} LiftedGet(copied: Fields, meta: Fields, keys: seq<string>, k: string)
    ensures Get(Lifted(copied, meta, keys), k) == if k in keys then LiftValue(Get(meta, k)) else Get(copied, k)
    decreases |keys|
  {
    if |keys| > 0 {
      var init := keys[..|keys| - 1];
      var last := keys[|keys| - 1];
      LiftedGet(copied, meta, init, k);
      GetPut(Lifted(copied, meta, init), last, LiftValue(Get(meta, last)), k);
      assert keys == init + [last];
      assert k in keys <==> k in init || k == last;
    }
  }

  lemma TagsNamesDistinct(entityType: string)
    requires KnownEntity(entityType)
    ensures TagsDistinct(entityType)
  {
    assert |TagsField(entityType)| > 8;
  }

  /** The names a flattened record is built from differ from each other:
      they have different lengths. */
  lemma FieldNamesDistinct(entityType: string)
    requires KnownEntity(entityType)
    ensures forall k :: Internal(entityType, k) ==> !Converted(entityType, k)
    ensures TagsDistinct(entityType)
  {
    var n := |entityType|;
    assert n == 6 || n == 8;
    assert |MetaField(entityType)| == n + 16 && |HiddenField(entityType)| == n + 7;
    assert |AccessListField(entityType)| == n + 12 && |FilesField(entityType)| == n + 6;
    assert |TagsField(entityType)| == n + 5;
  }

  predicate Internal(entityType: string, k: string) {
    k == MetaField(entityType) || k == HiddenField(entityType) ||
    k == AccessListField(entityType) || k == FilesField(entityType)
  }

  predicate Converted(entityType: string, k: string) {
    k == "start_ts" || k == "stop_ts" || k == "id" || k == TagsField(entityType)
  }

  lemma StrippedGet(entityType: string, fs: Fields, k: string)
    ensures Get(Stripped(entityType, fs), k) == if Internal(entityType, k) then Undefined else Get(fs, k)
  {
    var d1 := Delete(fs, MetaField(entityType));
    var d2 := Delete(d1, HiddenField(entityType));
    var d3 := Delete(d2, AccessListField(entityType));
    GetDelete(fs, MetaField(entityType), k);
    GetDelete(d1, HiddenField(entityType), k);
    GetDelete(d2, AccessListField(entityType), k);
    GetDelete(d3, FilesField(entityType), k);
  }

  lemma StrippedHas(entityType: string, fs: Fields, k: string)
    requires Internal(entityType, k)
    ensures !Has(Stripped(entityType, fs), k)
  {
    var d1 := Delete(fs, MetaField(entityType));
    var d2 := Delete(d1, HiddenField(entityType));
    var d3 := Delete(d2, AccessListField(entityType));
    HasDelete(d1, HiddenField(entityType), k);
    HasDelete(d2, AccessListField(entityType), k);
    HasDelete(d3, FilesField(entityType), k);
  }

  predicate TagsDistinct(entityType: string) {
    TagsField(entityType) != "start_ts" && TagsField(entityType) != "stop_ts" && TagsField(entityType) != "id"
  }

  /** The tags conversion succeeds on an array and assigns the tags field
      only. */
  lemma TagsStage(entityType: string, s: Fields, k: string)
    ensures ConvertTags(entityType, s).Ok? <==> Get(s, TagsField(entityType)).Arr?
    ensures ConvertTags(entityType, s).Ok? ==>
      Get(ConvertTags(entityType, s).value, k) ==
        if k == TagsField(entityType) then JoinedTags(Get(s, k)).value else Get(s, k)
    ensures ConvertTags(entityType, s).Ok? ==>
      (Has(ConvertTags(entityType, s).value, k) <==> Has(s, k) || k == TagsField(entityType))
  {
    var tags := JoinedTags(Get(s, TagsField(entityType)));
    if tags.Ok? {
      GetPut(s, TagsField(entityType), tags.value, k);
      HasPut(s, TagsField(entityType), tags.value, k);
    }
  }

  lemma IdStage(entityType: string, s: Fields, k: string)
    requires TagsDistinct(entityType)
    ensures ConvertId(entityType, s).Ok? <==> Get(s, "id").Oid? && Get(s, TagsField(entityType)).Arr?
    ensures ConvertId(entityType, s).Ok? ==>
      Get(ConvertId(entityType, s).value, k) ==
        if k == "id" then HexOf(Get(s, k)).value
        else if k == TagsField(entityType) then JoinedTags(Get(s, k)).value
        else Get(s, k)
    ensures ConvertId(entityType, s).Ok? ==>
      (Has(ConvertId(entityType, s).value, k) <==> Has(s, k) || k == "id" || k == TagsField(entityType))
  {
    var id := HexOf(Get(s, "id"));
    if id.Ok? {
      GetPut(s, "id", id.value, TagsField(entityType));
      GetPut(s, "id", id.value, k);
      HasPut(s, "id", id.value, k);
      TagsStage(entityType, Put(s, "id", id.value), k);
    }
  }

  lemma StopStage(entityType: string, s: Fields, k: string)
    requires TagsDistinct(entityType)
    ensures ConvertStop(entityType, s).Ok? <==>
      Get(s, "stop_ts").Date? && Get(s, "id").Oid? && Get(s, TagsField(entityType)).Arr?
    ensures ConvertStop(entityType, s).Ok? ==>
      Get(ConvertStop(entityType, s).value, k) ==
        if k == "stop_ts" then IsoOf(Get(s, k)).value
        else if k == "id" then HexOf(Get(s, k)).value
        else if k == TagsField(entityType) then JoinedTags(Get(s, k)).value
        else Get(s, k)
    ensures ConvertStop(entityType, s).Ok? ==>
      (Has(ConvertStop(entityType, s).value, k) <==>
        Has(s, k) || k == "stop_ts" || k == "id" || k == TagsField(entityType))
  {
    var stop := IsoOf(Get(s, "stop_ts"));
    if stop.Ok? {
      GetPut(s, "stop_ts", stop.value, "id");
      GetPut(s, "stop_ts", stop.value, TagsField(entityType));
      GetPut(s, "stop_ts", stop.value, k);
      HasPut(s, "stop_ts", stop.value, k);
      IdStage(entityType, Put(s, "stop_ts", stop.value), k);
    }
  }

  /** After the deletions: the conversions succeed exactly when the times
      are Dates, the id an ObjectId and the tags an array, and they assign
      those four fields only. */
  lemma StartStage(entityType: string, s: Fields, k: string)
    requires TagsDistinct(entityType)
    ensures ConvertStart(entityType, s).Ok? <==>
      Get(s, "start_ts").Date? && Get(s, "stop_ts").Date? && Get(s, "id").Oid? && Get(s, TagsField(entityType)).Arr?
    ensures ConvertStart(entityType, s).Ok? ==>
      Get(ConvertStart(entityType, s).value, k) ==
        if k == "start_ts" then IsoOf(Get(s, k)).value
        else if k == "stop_ts" then IsoOf(Get(s, k)).value
        else if k == "id" then HexOf(Get(s, k)).value
        else if k == TagsField(entityType) then JoinedTags(Get(s, k)).value
        else Get(s, k)
    ensures ConvertStart(entityType, s).Ok? ==>
      (Has(ConvertStart(entityType, s).value, k) <==> Has(s, k) || Converted(entityType, k))
  {
    var start := IsoOf(Get(s, "start_ts"));
    if start.Ok? {
      GetPut(s, "start_ts", start.value, "stop_ts");
      GetPut(s, "start_ts", start.value, "id");
      GetPut(s, "start_ts", start.value, TagsField(entityType));
      GetPut(s, "start_ts", start.value, k);
      HasPut(s, "start_ts", start.value, k);
      StopStage(entityType, Put(s, "start_ts", start.value), k);
    }
  }

  /** A successful flattening reads every field of the stripped copy back,
      converted where it is one of the four converted fields. */
  lemma FlattenParts(entityType: string, rec: Fields, k: string)
    requires KnownEntity(entityType)
    requires FlattenSpec(entityType, rec).Ok?
    ensures var s := Prepared(entityType, rec).value;
      Get(s, "start_ts").Date? && Get(s, "stop_ts").Date? && Get(s, "id").Oid? && Get(s, TagsField(entityType)).Arr?
    ensures var s := Prepared(entityType, rec).value;
      Get(FlattenSpec(entityType, rec).value, k) ==
        if k == "start_ts" then IsoOf(Get(s, "start_ts")).value
        else if k == "stop_ts" then IsoOf(Get(s, "stop_ts")).value
        else if k == "id" then HexOf(Get(s, "id")).value
        else if k == TagsField(entityType) then JoinedTags(Get(s, TagsField(entityType))).value
        else Get(s, k)
  {
    TagsNamesDistinct(entityType);
    StartStage(entityType, Prepared(entityType, rec).value, k);
  }

  /** No flattened record holds the meta object, the hidden flag, the access
      list or the file list, even when a meta key carried one of those names
      back to the top level: the deletions come after the lifting. */
  lemma FlattenDropsInternal(entityType: string, rec: Fields, k: string)
    requires KnownEntity(entityType)
    requires FlattenSpec(entityType, rec).Ok?
    requires Internal(entityType, k)
    ensures !Has(FlattenSpec(entityType, rec).value, k)
  {
    TagsNamesDistinct(entityType);
    var meta := MetaKeys(Get(rec, MetaField(entityType))).value;
    StrippedHas(entityType, Lifted(rec, meta, Keys(meta)), k);
    StartStage(entityType, Prepared(entityType, rec).value, k);
  }

  /** Every meta key other than the internal and converted names is lifted
      to the top level, an array joined with ','. */
  lemma FlattenLiftsMeta(entityType: string, rec: Fields, k: string)
    requires KnownEntity(entityType)
    requires FlattenSpec(entityType, rec).Ok?
    requires Get(rec, MetaField(entityType)).Obj? && Has(Get(rec, MetaField(entityType)).members, k)
    requires !Internal(entityType, k) && !Converted(entityType, k)
    ensures Get(FlattenSpec(entityType, rec).value, k) == LiftValue(Get(Get(rec, MetaField(entityType)).members, k))
  {
    var meta := Get(rec, MetaField(entityType)).members;
    FlattenParts(entityType, rec, k);
    StrippedGet(entityType, Lifted(rec, meta, Keys(meta)), k);
    LiftedGet(rec, meta, Keys(meta), k);
    HasKeys(meta, k);
  }

  /** A field that no meta key shadows keeps its value, apart from the
      internal ones, which go, and the converted ones. */
  lemma FlattenKeepsOthers(entityType: string, rec: Fields, k: string)
    requires KnownEntity(entityType)
    requires FlattenSpec(entityType, rec).Ok?
    requires !Has(MetaKeys(Get(rec, MetaField(entityType))).value, k)
    requires !Internal(entityType, k) && !Converted(entityType, k)
    ensures Get(FlattenSpec(entityType, rec).value, k) == Get(rec, k)
  {
    var meta := MetaKeys(Get(rec, MetaField(entityType))).value;
    FlattenParts(entityType, rec, k);
    StrippedGet(entityType, Lifted(rec, meta, Keys(meta)), k);
    LiftedGet(rec, meta, Keys(meta), k);
    HasKeys(meta, k);
  }

  /** A converted field no meta key shadows reaches the conversions as
      stored. */
  lemma PreparedConverted(entityType: string, rec: Fields, k: string)
    requires KnownEntity(entityType)
    requires MetaKeys(Get(rec, MetaField(entityType))).Ok?
    requires Converted(entityType, k) && !Has(MetaKeys(Get(rec, MetaField(entityType))).value, k)
    ensures Prepared(entityType, rec).Ok? && Get(Prepared(entityType, rec).value, k) == Get(rec, k)
  {
    FieldNamesDistinct(entityType);
    var meta := MetaKeys(Get(rec, MetaField(entityType))).value;
    StrippedGet(entityType, Lifted(rec, meta, Keys(meta)), k);
    LiftedGet(rec, meta, Keys(meta), k);
    HasKeys(meta, k);
  }

  /** Without meta keys shadowing them, the record flattens exactly when its
      meta object is present, its times are Dates, its id an ObjectId and
      its tags an array; then the times are ISO text, the id hex and the
      tags joined with ','. */
  lemma FlattenConversions(entityType: string, rec: Fields)
    requires KnownEntity(entityType)
    requires MetaKeys(Get(rec, MetaField(entityType))).Ok?
    requires forall k :: Converted(entityType, k) ==> !Has(MetaKeys(Get(rec, MetaField(entityType))).value, k)
    ensures FlattenSpec(entityType, rec).Ok? <==>
      Get(rec, "start_ts").Date? && Get(rec, "stop_ts").Date? && Get(rec, "id").Oid? &&
      Get(rec, TagsField(entityType)).Arr?
    ensures FlattenSpec(entityType, rec).Ok? ==>
      Get(FlattenSpec(entityType, rec).value, "start_ts") == Str(Get(rec, "start_ts").iso) &&
      Get(FlattenSpec(entityType, rec).value, "stop_ts") == Str(Get(rec, "stop_ts").iso) &&
      Get(FlattenSpec(entityType, rec).value, "id") == Str(Get(rec, "id").hex) &&
      Get(FlattenSpec(entityType, rec).value, TagsField(entityType)) ==
        Str(JoinValues(Get(rec, TagsField(entityType)).items, ",", Get(rec, TagsField(entityType))))
  {
    TagsNamesDistinct(entityType);
    var s := Prepared(entityType, rec).value;
    PreparedConverted(entityType, rec, "start_ts");
    PreparedConverted(entityType, rec, "stop_ts");
    PreparedConverted(entityType, rec, "id");
    PreparedConverted(entityType, rec, TagsField(entityType));
    StartStage(entityType, s, "start_ts");
    StartStage(entityType, s, "stop_ts");
    StartStage(entityType, s, "id");
    StartStage(entityType, s, TagsField(entityType));
  }

  // ---- _buildCSVHeaders ----

  /** The six columns every cruise or lowering CSV starts with. */
  function FixedHeaders(entityType: string): seq<string> {
    ["id", entityType + "_id", "start_ts", "stop_ts", entityType + "_location", entityType + "_tags"]
  }

  /** The reduce: `headers.concat(keys).filter(first occurrence)` per row. */
  function ReduceHeaders(headers: seq<string>, rows: seq<Fields>): seq<string>
    decreases |rows|
  {
    if |rows| == 0 then headers
    else ReduceHeaders(Dedup(headers + Keys(rows[0])), rows[1..])
  }

  /** `headers.slice(0, 6).concat(headers.slice(6).sort())`. */
  function BuildCSVHeaders(entityType: string, rows: seq<Fields>): seq<string> {
    var headers := ReduceHeaders(FixedHeaders(entityType), rows);
    if |headers| <= 6 then headers else headers[..6] + SortStrings(headers[6..])
  }

  lemma {:induction false} DedupOfNoDup(s: seq<string>)
    requires NoDup(s)
    ensures Dedup(s) == s
    decreases |s|
  {
    if |s| > 0 {
      var init := s[..|s| - 1];
      assert NoDup(init) by {
        forall i, j | 0 <= i < j < |init| ensures init[i] != init[j] {
          assert init[i] == s[i] && init[j] == s[j];
        }
      }
      DedupOfNoDup(init);
      assert s[|s| - 1] !in init by {
        forall i | 0 <= i < |init| ensures init[i] != s[|s| - 1] {
          assert init[i] == s[i];
        }
      }
      assert s == init + [s[|s| - 1]];
    }
  }

  /** Deduplicating in two steps is deduplicating once. */
  lemma {:induction false} DedupAppend(a: seq<string>, b: seq<string>)
    ensures Dedup(Dedup(a) + b) == Dedup(a + b)
    decreases |b|
  {
    if |b| == 0 {
      DedupElements(a);
      DedupOfNoDup(Dedup(a));
      assert Dedup(a) + b == Dedup(a) && a + b == a;
    } else {
      var init := b[..|b| - 1];
      var y := b[|b| - 1];
      DedupAppend(a, init);
      assert Dedup(a) + b == (Dedup(a) + init) + [y];
      assert a + b == (a + init) + [y];
      DedupSnoc(Dedup(a) + init, y);
      DedupSnoc(a + init, y);
      DedupElements(a);
      assert y in Dedup(a) + init <==> y in a + init;
    }
  }

  lemma {:induction false} AllKeysCons(rows: seq<Fields>)
    requires |rows| > 0
    ensures AllKeys(rows) == Keys(rows[0]) + AllKeys(rows[1..])
    decreases |rows|
  {
    if |rows| > 1 {
      var init := rows[..|rows| - 1];
      AllKeysCons(init);
      assert init[1..] == rows[1..][..|rows| - 2];
      assert rows[1..][|rows| - 2] == rows[|rows| - 1];
    } else {
      assert AllKeys(rows[..0]) == [];
      assert rows[1..] == [];
    }
  }

  /** The reduce is the first-seen union of the start list and all keys. */
  lemma {:induction false} ReduceIsDedup(headers: seq<string>, rows: seq<Fields>)
    ensures ReduceHeaders(Dedup(headers), rows) == Dedup(headers + AllKeys(rows))
    decreases |rows|
  {
    if |rows| == 0 {
      assert headers + AllKeys(rows) == headers;
    } else {
      DedupAppend(headers, Keys(rows[0]));
      ReduceIsDedup(headers + Keys(rows[0]), rows[1..]);
      AllKeysAfter(headers, rows);
    }
  }

  lemma AllKeysAfter(headers: seq<string>, rows: seq<Fields>)
    requires |rows| > 0
    ensures (headers + Keys(rows[0])) + AllKeys(rows[1..]) == headers + AllKeys(rows)
  {
    AllKeysCons(rows);
  }

  lemma {:induction false} DedupPrefix(a: seq<string>, b: seq<string>)
    requires NoDup(a)
    ensures |Dedup(a + b)| >= |a| && Dedup(a + b)[..|a|] == a
    decreases |b|
  {
    if |b| == 0 {
      DedupOfNoDup(a);
      assert a + b == a;
    } else {
      var init := b[..|b| - 1];
      DedupPrefix(a, init);
      assert a + b == (a + init) + [b[|b| - 1]];
      DedupSnoc(a + init, b[|b| - 1]);
    }
  }

  /** The six names have six different lengths. */
  lemma NoDupFixed(entityType: string)
    requires KnownEntity(entityType)
    ensures NoDup(FixedHeaders(entityType))
  {
    var f := FixedHeaders(entityType);
    var n := |entityType|;
    assert n == 6 || n == 8;
    assert |f[0]| == 2 && |f[1]| == n + 3 && |f[2]| == 8;
    assert |f[3]| == 7 && |f[4]| == n + 9 && |f[5]| == n + 5;
  }

  lemma {:induction false} NoDupAtMostOnce(s: seq<string>, x: string)
    requires NoDup(s)
    ensures multiset(s)[x] <= 1
    decreases |s|
  {
    if |s| > 0 {
      var init := s[..|s| - 1];
      assert s == init + [s[|s| - 1]];
      assert NoDup(init) by {
        forall i, j | 0 <= i < j < |init| ensures init[i] != init[j] {
          assert init[i] == s[i] && init[j] == s[j];
        }
      }
      NoDupAtMostOnce(init, x);
      if s[|s| - 1] == x {
        assert x !in init by {
          forall i | 0 <= i < |init| ensures init[i] != x {
            assert init[i] == s[i];
          }
        }
      }
    }
  }

  lemma TwiceCounted(b: seq<string>, i: nat, j: nat)
    requires i < j < |b| && b[i] == b[j]
    ensures multiset(b)[b[i]] >= 2
  {
    assert b == b[..j] + [b[j]] + b[j + 1..];
    assert b[i] == b[..j][i];
    assert multiset(b) == multiset(b[..j]) + multiset{b[j]} + multiset(b[j + 1..]);
  }

  /** A permutation of a duplicate-free list is duplicate-free. */
  lemma NoDupPermutation(a: seq<string>, b: seq<string>)
    requires NoDup(a) && multiset(a) == multiset(b)
    ensures NoDup(b)
  {
    forall i, j | 0 <= i < j < |b| ensures b[i] != b[j] {
      if b[i] == b[j] {
        TwiceCounted(b, i, j);
        NoDupAtMostOnce(a, b[i]);
        assert false;
      }
    }
  }

  /** The reduce keeps the six fixed columns first and adds every other key
      once. */
  lemma ReducedHeaders(entityType: string, rows: seq<Fields>, x: string)
    requires KnownEntity(entityType)
    ensures |ReduceHeaders(FixedHeaders(entityType), rows)| >= 6
    ensures ReduceHeaders(FixedHeaders(entityType), rows)[..6] == FixedHeaders(entityType)
    ensures NoDup(ReduceHeaders(FixedHeaders(entityType), rows))
    ensures x in ReduceHeaders(FixedHeaders(entityType), rows) <==>
      x in FixedHeaders(entityType) || exists r :: 0 <= r < |rows| && Has(rows[r], x)
  {
    var fixed := FixedHeaders(entityType);
    NoDupFixed(entityType);
    DedupOfNoDup(fixed);
    ReduceIsDedup(fixed, rows);
    DedupPrefix(fixed, AllKeys(rows));
    DedupElements(fixed + AllKeys(rows));
    AllKeysHas(rows, x);
  }

  /** The part of a duplicate-free list after its first n elements is
      duplicate-free and shares nothing with them. */
  lemma NoDupSuffix(h: seq<string>, n: nat)
    requires NoDup(h) && n <= |h|
    ensures NoDup(h[n..])
    ensures forall y :: y in h[n..] ==> y !in h[..n]
  {
    var rest := h[n..];
    forall i, j | 0 <= i < j < |rest| ensures rest[i] != rest[j] {
      assert rest[i] == h[i + n] && rest[j] == h[j + n];
    }
    forall y | y in rest ensures y !in h[..n] {
      var i :| 0 <= i < |rest| && rest[i] == y;
      assert h[i + n] == y;
      forall k | 0 <= k < n ensures h[..n][k] != y {
        assert h[..n][k] == h[k];
      }
    }
  }

  /** Sorting the tail of a duplicate-free list keeps it duplicate-free and
      keeps its elements. */
  lemma SortTail(head: seq<string>, rest: seq<string>, x: string)
    requires NoDup(head) && NoDup(rest)
    requires forall y :: y in rest ==> y !in head
    ensures Sorted(SortStrings(rest))
    ensures NoDup(head + SortStrings(rest))
    ensures x in SortStrings(rest) <==> x in rest
  {
    SortStringsCorrect(rest);
    NoDupPermutation(rest, SortStrings(rest));
    assert x in SortStrings(rest) <==> x in rest by {
      assert x in multiset(SortStrings(rest)) <==> x in multiset(rest);
    }
    forall y | y in head ensures y !in SortStrings(rest) {
      assert y in multiset(SortStrings(rest)) <==> y in multiset(rest);
    }
    NoDupConcat(head, SortStrings(rest));
  }

  /** The CSV columns: the fixed six first, then every other key of every
      row exactly once, sorted. */
  lemma CSVHeadersShape(entityType: string, rows: seq<Fields>, x: string)
    requires KnownEntity(entityType)
    ensures |BuildCSVHeaders(entityType, rows)| >= 6
    ensures BuildCSVHeaders(entityType, rows)[..6] == FixedHeaders(entityType)
    ensures Sorted(BuildCSVHeaders(entityType, rows)[6..])
    ensures NoDup(BuildCSVHeaders(entityType, rows))
    ensures x in BuildCSVHeaders(entityType, rows)[6..] <==>
      x !in FixedHeaders(entityType) && exists r :: 0 <= r < |rows| && Has(rows[r], x)
  {
    var fixed := FixedHeaders(entityType);
    var headers := ReduceHeaders(fixed, rows);
    ReducedHeaders(entityType, rows, x);
    NoDupSuffix(headers, 6);
    var rest := headers[6..];
    assert headers == fixed + rest;
    NoDupFixed(entityType);
    SortTail(fixed, rest, x);
    var out := BuildCSVHeaders(entityType, rows);
    assert out == fixed + SortStrings(rest);
    assert out[..6] == fixed && out[6..] == SortStrings(rest);
    assert x in headers <==> x in fixed || x in rest;
  }
}
