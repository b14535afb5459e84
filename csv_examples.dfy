/** The unit tests of getHeaders and convertToCSV
    (test/routes.api.v1.json_util.test.js) restated about the model. */
module CsvExamples {
  import opened Seqs
  import opened Text
  import opened Json
  import opened CsvExport

  /** Two rows with the members key1 and key2, in that order, holding the
      given values: the shape of the convertToCSV unit test. */
  function TwoRows(a: Json, b: Json, c: Json, d: Json): seq<Fields>
  {
    [[Member("key1", a), Member("key2", b)],
     [Member("key1", c), Member("key2", d)]]
  }

  lemma AllKeysPair(a: Fields, b: Fields)
    ensures AllKeys([a, b]) == Keys(a) + Keys(b)
  {
    assert [a, b][..1] == [a];
    assert [a][..0] == [];
    assert AllKeys([a]) == [] + Keys(a) == Keys(a);
  }

  lemma DedupPair(x: string, y: string)
    requires x != y
    ensures Dedup([x, y]) == [x, y]
  {
    DedupSnoc([], x);
    assert [] + [x] == [x];
    DedupSnoc([x], y);
    assert [x] + [y] == [x, y];
  }

  lemma DedupOverlap(x: string, y: string, z: string)
    requires x != y && x != z && y != z
    ensures Dedup([x, y] + [y, z]) == [x, y, z]
  {
    DedupPair(x, y);
    DedupSnoc([x, y], y);
    assert [x, y] + [y] == [x, y, y];
    DedupSnoc([x, y, y], z);
    assert [x, y, y] + [z] == [x, y] + [y, z];
    assert [x, y] + [z] == [x, y, z];
  }

  lemma DedupRepeat(x: string, y: string)
    requires x != y
    ensures Dedup([x, y] + [x, y]) == [x, y]
  {
    DedupPair(x, y);
    DedupSnoc([x, y], x);
    DedupSnoc([x, y] + [x], y);
    assert [x, y] + [x] + [y] == [x, y] + [x, y];
  }

  /** The headers of the getHeaders unit test. */
  lemma GetHeadersExample()
    ensures Dedup(AllKeys([[Member("key1", Str("value1")), Member("key2", Str("value2"))],
                           [Member("key2", Str("value3")), Member("key3", Str("value4"))]]))
      == ["key1", "key2", "key3"]
  {
    var a := [Member("key1", Str("value1")), Member("key2", Str("value2"))];
    var b := [Member("key2", Str("value3")), Member("key3", Str("value4"))];
    AllKeysPair(a, b);
    assert Keys(a) == ["key1", "key2"];
    assert Keys(b) == ["key2", "key3"];
    KeysDiffer();
    DedupOverlap("key1", "key2", "key3");
  }

  lemma KeysDiffer()
    ensures "key1" != "key2" && "key1" != "key3" && "key2" != "key3"
  {
    assert "key1"[3] == '1' && "key2"[3] == '2' && "key3"[3] == '3';
  }

  lemma NoPrefixMatches(hs: seq<string>, ps: seq<string>)
    requires forall i, j :: 0 <= i < |hs| && 0 <= j < |ps| ==> !StartsWith(hs[i], ps[j])
    ensures OrderSpec(hs, ps) == hs
    decreases |ps|
  {
    if |ps| > 0 {
      NoMatchEmpty(hs, ps[0]);
      assert WithoutPrefix(hs, ps[0]) == hs by {
        WithoutAll(hs, ps[0]);
      }
      NoPrefixMatches(hs, ps[1..]);
    }
  }

  lemma {:induction false} WithoutAll(hs: seq<string>, p: string)
    requires forall i :: 0 <= i < |hs| ==> !StartsWith(hs[i], p)
    ensures WithoutPrefix(hs, p) == hs
  {
    if |hs| > 0 {
      assert forall i :: 0 <= i < |hs[1..]| ==> hs[1..][i] == hs[i + 1];
      WithoutAll(hs[1..], p);
      assert hs == [hs[0]] + hs[1..];
    }
  }

  lemma ExampleHeaders(a: Json, b: Json, c: Json, d: Json)
    ensures Dedup(AllKeys(TwoRows(a, b, c, d))) == ["key1", "key2"]
  {
    var rows := TwoRows(a, b, c, d);
    AllKeysPair(rows[0], rows[1]);
    assert Keys(rows[0]) == ["key1", "key2"] && Keys(rows[1]) == ["key1", "key2"];
    KeysDiffer();
    DedupRepeat("key1", "key2");
  }

  lemma ExampleOrder()
    ensures OrderSpec(["key1", "key2"], PrefixOrderingRealtime) == ["key1", "key2"]
  {
    var hs := ["key1", "key2"];
    var order := PrefixOrderingRealtime;
    forall i, j | 0 <= i < |hs| && 0 <= j < |order| ensures !StartsWith(hs[i], order[j]) {
      assert hs[i][0] == 'k';
      assert order[j][0] != 'k';
    }
    NoPrefixMatches(hs, order);
  }

  lemma ExampleDrop()
    ensures DropAll(["key1", "key2"], NavPrefixes(false)) == ["key1", "key2"]
  {
    var hs := ["key1", "key2"];
    var navs := NavPrefixes(false);
    NavPrefixesLike(false);
    DropNone(hs, navs, |navs|);
    assert navs[..|navs|] == navs;
  }

  lemma ConvertExampleColumns(a: Json, b: Json, c: Json, d: Json)
    ensures Columns(TwoRows(a, b, c, d), false) == ["key1", "key2"]
  {
    var hs := ["key1", "key2"];
    ExampleHeaders(a, b, c, d);
    ExampleOrder();
    assert IndexOf(hs, "id") == -1;
    ExampleDrop();
  }

  /** A string value with no character JSON.stringify escapes. */
  ghost predicate Plain(s: string) {
    forall i :: 0 <= i < |s| ==> s[i] as int >= 0x20 && s[i] != '"' && s[i] != '\\'
  }

  function Quoted(s: string): string { "\"" + s + "\"" }

  lemma PlainCell(s: string)
    requires Plain(s) && |s| > 0
    ensures Cell(Str(s)) == Quoted(s)
  {
    EscapePlain(s);
  }

  /** One row of the convertToCSV unit test, as its CSV line. */
  lemma ExampleLine(row: Fields, a: string, b: string)
    requires Plain(a) && Plain(b) && |a| > 0 && |b| > 0
    requires row == [Member("key1", Str(a)), Member("key2", Str(b))]
    ensures Join(Project(row, ["key1", "key2"]), ",") == Quoted(a) + "," + Quoted(b)
  {
    var cols := ["key1", "key2"];
    KeysDiffer();
    assert Get(row, "key1") == Str(a);
    assert Get(row[1..], "key2") == Str(b);
    PlainCell(a);
    PlainCell(b);
    var p := Project(row, cols);
    assert p == [p[0], p[1]];
    JoinPair(p[0], p[1], ",");
  }

  lemma ExampleBody(a: string, b: string, c: string, d: string)
    requires Plain(a) && Plain(b) && Plain(c) && Plain(d)
    requires |a| > 0 && |b| > 0 && |c| > 0 && |d| > 0
    ensures Lines(Body(TwoRows(Str(a), Str(b), Str(c), Str(d)), ["key1", "key2"]))
      == [Quoted(a) + "," + Quoted(b), Quoted(c) + "," + Quoted(d)]
  {
    var rows := TwoRows(Str(a), Str(b), Str(c), Str(d));
    ExampleLine(rows[0], a, b);
    ExampleLine(rows[1], c, d);
  }

  /** The text of a two-row export, from its header line and row lines. */
  lemma RenderTwo(rows: seq<Fields>, cols: seq<string>, h: string, l0: string, l1: string)
    requires Columns(rows, false) == cols
    requires Join(HeaderLine(cols), ",") == h
    requires Lines(Body(rows, cols)) == [l0, l1]
    ensures RenderCsv(rows, false) == h + "\n" + l0 + "\n" + l1
  {
    assert [h] + [l0, l1] == [h, l0, l1];
    JoinTriple(h, l0, l1, "\n");
  }

  lemma ExampleHeaderLine()
    ensures Join(HeaderLine(["key1", "key2"]), ",") == "key1,key2"
  {
    var cols := ["key1", "key2"];
    assert HeaderLine(cols) == cols;
    JoinPair("key1", "key2", ",");
  }

  /** The convertToCSV unit test for any plain string values: the header line
      names both keys and each row's values come out quoted. */
  lemma ConvertTwoRows(a: string, b: string, c: string, d: string)
    requires Plain(a) && Plain(b) && Plain(c) && Plain(d)
    requires |a| > 0 && |b| > 0 && |c| > 0 && |d| > 0
    ensures RenderCsv(TwoRows(Str(a), Str(b), Str(c), Str(d)), false)
      == "key1,key2" + "\n" + (Quoted(a) + "," + Quoted(b)) + "\n" + (Quoted(c) + "," + Quoted(d))
  {
    ConvertExampleColumns(Str(a), Str(b), Str(c), Str(d));
    ExampleHeaderLine();
    ExampleBody(a, b, c, d);
    RenderTwo(TwoRows(Str(a), Str(b), Str(c), Str(d)), ["key1", "key2"], "key1,key2",
      Quoted(a) + "," + Quoted(b), Quoted(c) + "," + Quoted(d));
  }

  /** The exact text the convertToCSV unit test expects. */
  lemma ConvertExample()
    ensures RenderCsv(TwoRows(Str("value1"), Str("value2"), Str("value3"), Str("value4")), false)
      == "key1,key2" + "\n" + "\"value1\",\"value2\"" + "\n" + "\"value3\",\"value4\""
  {
    PlainValues();
    ConvertTwoRows("value1", "value2", "value3", "value4");
    ExampleText();
  }

  lemma PlainValues()
    ensures Plain("value1") && Plain("value2") && Plain("value3") && Plain("value4")
  {
  }

  lemma ExampleRowText(a: string, b: string)
    requires a == "value1" || a == "value3"
    requires b == "value2" || b == "value4"
    ensures Quoted(a) + "," + Quoted(b) == "\"" + a + "\",\"" + b + "\""
  {
  }

  lemma ExampleText()
    ensures "key1,key2" + "\n" + (Quoted("value1") + "," + Quoted("value2")) + "\n"
      + (Quoted("value3") + "," + Quoted("value4"))
      == "key1,key2" + "\n" + "\"value1\",\"value2\"" + "\n" + "\"value3\",\"value4\""
  {
    ExampleRowText("value1", "value2");
    ExampleRowText("value3", "value4");
  }

  lemma {:induction false} DropNone(hs: seq<string>, navs: seq<string>, j: nat)
    requires j <= |navs|
    requires forall i, k :: 0 <= i < |hs| && 0 <= k < |navs| ==> !StartsWith(hs[i], navs[k])
    ensures DropAll(hs, navs[..j]) == hs
  {
    if j > 0 {
      DropNone(hs, navs, j - 1);
      assert navs[..j][..j - 1] == navs[..j - 1];
    }
  }
}
