/** getHeaders, orderHeaders and convertToCSV of routes/api/v1/json_util.js:
    the column list of an event export is the first-seen union of the keys
    of the flattened rows, reordered by a list of preferred prefixes, and
    the CSV text is that header line followed by one JSON-quoted line per
    row, after three special cases on the columns. */
module CsvExport {
  import opened Wrappers
  import opened Seqs
  import opened Text
  import opened Json

  // ---- getHeaders ----

  /** Every key of every row, row by row, each row's keys in their order. */
  function AllKeys(rows: seq<Fields>): seq<string>
  {
    if |rows| == 0 then []
    else AllKeys(rows[..|rows| - 1]) + Keys(rows[|rows| - 1])
  }

  lemma {:induction false} AllKeysHas(rows: seq<Fields>, x: string)
    ensures x in AllKeys(rows) <==> exists r :: 0 <= r < |rows| && Has(rows[r], x)
  {
    if |rows| > 0 {
      var p := rows[..|rows| - 1];
      AllKeysHas(p, x);
      HasKeys(rows[|rows| - 1], x);
      if exists r :: 0 <= r < |rows| && Has(rows[r], x) {
        var r :| 0 <= r < |rows| && Has(rows[r], x);
        if r < |rows| - 1 {
          assert p[r] == rows[r];
        }
      }
      if exists r :: 0 <= r < |p| && Has(p[r], x) {
        var r :| 0 <= r < |p| && Has(p[r], x);
        assert rows[r] == p[r];
      }
    }
  }

  lemma DedupSnoc(s: seq<string>, x: string)
    ensures Dedup(s + [x]) == if x in s then Dedup(s) else Dedup(s) + [x]
  {
    assert (s + [x])[..|s|] == s;
    DedupElements(s);
  }

  /** Adds the keys of one row to the Set of headers seen so far. */
  method AddKeys(headers: seq<string>, seen: set<string>, ghost before: seq<string>, ks: seq<string>)
    returns (headers': seq<string>, seen': set<string>)
    requires headers == Dedup(before)
    requires forall x :: x in seen <==> x in headers
    ensures headers' == Dedup(before + ks)
    ensures forall x :: x in seen' <==> x in headers'
  {
    headers', seen' := headers, seen;
    assert before + ks[..0] == before;
    for j := 0 to |ks|
      invariant headers' == Dedup(before + ks[..j])
      invariant forall x :: x in seen' <==> x in headers'
    {
      DedupSnoc(before + ks[..j], ks[j]);
      assert (before + ks[..j]) + [ks[j]] == before + ks[..j + 1];
      if ks[j] !in seen' {
        headers' := headers' + [ks[j]];
        seen' := seen' + {ks[j]};
      }
    }
    assert ks[..|ks|] == ks;
  }

  lemma AllKeysPrefix(rows: seq<Fields>, i: nat)
    requires i < |rows|
    ensures AllKeys(rows[..i + 1]) == AllKeys(rows[..i]) + Keys(rows[i])
  {
    assert rows[..i + 1][..i] == rows[..i];
  }

  /** The headers of a list of flat rows, collected in a Set in first-seen
      order. */
  method GetHeaders(rows: seq<Fields>) returns (headers: seq<string>)
    ensures headers == Dedup(AllKeys(rows))
  {
    headers := [];
    var seen: set<string> := {};
    for i := 0 to |rows|
      invariant headers == Dedup(AllKeys(rows[..i]))
      invariant forall x :: x in seen <==> x in headers
    {
      headers, seen := AddKeys(headers, seen, AllKeys(rows[..i]), Keys(rows[i]));
      AllKeysPrefix(rows, i);
    }
    assert rows[..|rows|] == rows;
  }

  /** The headers hold every key of every row, each exactly once. */
  lemma HeadersExact(rows: seq<Fields>, x: string)
    ensures x in Dedup(AllKeys(rows)) <==> exists r :: 0 <= r < |rows| && Has(rows[r], x)
    ensures NoDup(Dedup(AllKeys(rows)))
  {
    DedupElements(AllKeys(rows));
    AllKeysHas(rows, x);
  }

  // ---- orderHeaders ----

  /** `headers.filter(h => h.startsWith(prefix))`. */
  function WithPrefix(hs: seq<string>, p: string): (r: seq<string>)
    ensures forall x :: x in r <==> x in hs && StartsWith(x, p)
  {
    if |hs| == 0 then []
    else (if StartsWith(hs[0], p) then [hs[0]] else []) + WithPrefix(hs[1..], p)
  }

  /** `headers.filter(h => !h.startsWith(prefix))`. */
  function WithoutPrefix(hs: seq<string>, p: string): (r: seq<string>)
    ensures forall x :: x in r <==> x in hs && !StartsWith(x, p)
  {
    if |hs| == 0 then []
    else (if StartsWith(hs[0], p) then [] else [hs[0]]) + WithoutPrefix(hs[1..], p)
  }

  /** What orderHeaders computes: the headers starting with the first
      prefix, then the rest ordered by the remaining prefixes; headers that
      match no prefix come last. */
  function OrderSpec(hs: seq<string>, ps: seq<string>): seq<string>
    decreases |ps|
  {
    if |ps| == 0 then hs
    else WithPrefix(hs, ps[0]) + OrderSpec(WithoutPrefix(hs, ps[0]), ps[1..])
  }

  method OrderHeaders(headers: seq<string>, prefixOrder: seq<string>) returns (ordered: seq<string>)
    ensures ordered == OrderSpec(headers, prefixOrder)
  {
    ordered := [];
    var rest := headers;
    for i := 0 to |prefixOrder|
      invariant ordered + OrderSpec(rest, prefixOrder[i..]) == OrderSpec(headers, prefixOrder)
    {
      var prefix := prefixOrder[i];
      assert prefixOrder[i..][1..] == prefixOrder[i + 1..];
      var prefixHeaders := WithPrefix(rest, prefix);
      ordered := ordered + prefixHeaders;
      rest := WithoutPrefix(rest, prefix);
    }
    ordered := ordered + rest;
  }

  lemma {:induction false} FilterMultiset(hs: seq<string>, p: string)
    ensures multiset(WithPrefix(hs, p)) + multiset(WithoutPrefix(hs, p)) == multiset(hs)
  {
    if |hs| > 0 {
      FilterMultiset(hs[1..], p);
      assert hs == [hs[0]] + hs[1..];
    }
  }

  /** orderHeaders returns a permutation of its input. */
  lemma {:induction false} OrderPermutation(hs: seq<string>, ps: seq<string>)
    ensures multiset(OrderSpec(hs, ps)) == multiset(hs)
    decreases |ps|
  {
    if |ps| > 0 {
      OrderPermutation(WithoutPrefix(hs, ps[0]), ps[1..]);
      FilterMultiset(hs, ps[0]);
    }
  }

  lemma NoDupConcat(a: seq<string>, b: seq<string>)
    requires NoDup(a) && NoDup(b)
    requires forall x :: x in a ==> x !in b
    ensures NoDup(a + b)
  {
    forall i, j | 0 <= i < j < |a + b| ensures (a + b)[i] != (a + b)[j] {
      if j >= |a| {
        assert (a + b)[j] == b[j - |a|];
        if i < |a| {
          assert (a + b)[i] in a;
        } else {
          assert (a + b)[i] == b[i - |a|];
        }
      }
    }
  }

  lemma {:induction false} FilterNoDup(hs: seq<string>, p: string)
    requires NoDup(hs)
    ensures NoDup(WithPrefix(hs, p)) && NoDup(WithoutPrefix(hs, p))
  {
    if |hs| > 0 {
      FilterNoDup(hs[1..], p);
      assert hs[0] !in hs[1..] by {
        forall k | 0 <= k < |hs[1..]| ensures hs[1..][k] != hs[0] {
          assert hs[1..][k] == hs[k + 1];
        }
      }
      NoDupConcat(if StartsWith(hs[0], p) then [hs[0]] else [], WithPrefix(hs[1..], p));
      NoDupConcat(if StartsWith(hs[0], p) then [] else [hs[0]], WithoutPrefix(hs[1..], p));
    }
  }

  /** Reordering keeps headers distinct. */
  lemma {:induction false} OrderNoDup(hs: seq<string>, ps: seq<string>)
    requires NoDup(hs)
    ensures NoDup(OrderSpec(hs, ps))
    decreases |ps|
  {
    if |ps| > 0 {
      var out := WithoutPrefix(hs, ps[0]);
      FilterNoDup(hs, ps[0]);
      OrderNoDup(out, ps[1..]);
      OrderPermutation(out, ps[1..]);
      forall x | x in WithPrefix(hs, ps[0]) ensures x !in OrderSpec(out, ps[1..]) {
        assert x in multiset(OrderSpec(out, ps[1..])) <==> x in multiset(out);
      }
      NoDupConcat(WithPrefix(hs, ps[0]), OrderSpec(out, ps[1..]));
    }
  }

  // ---- an independent description of the order ----

  /** The index of the first prefix h starts with, or |ps| when none. */
  function Rank(h: string, ps: seq<string>): (k: nat)
    ensures k <= |ps|
    ensures k < |ps| ==> StartsWith(h, ps[k])
    ensures forall i :: 0 <= i < k ==> !StartsWith(h, ps[i])
  {
    if |ps| == 0 then 0
    else if StartsWith(h, ps[0]) then 0
    else 1 + Rank(h, ps[1..])
  }

  /** The headers of rank k, in their original order. */
  function WithRank(hs: seq<string>, ps: seq<string>, k: nat): (r: seq<string>)
    ensures forall x :: x in r <==> x in hs && Rank(x, ps) == k
  {
    if |hs| == 0 then []
    else (if Rank(hs[0], ps) == k then [hs[0]] else []) + WithRank(hs[1..], ps, k)
  }

  /** The groups of rank k, k + 1, ..., |ps|, one after another. */
  function GroupsFrom(hs: seq<string>, ps: seq<string>, k: nat): seq<string>
    decreases |ps| + 1 - k
  {
    if k > |ps| then [] else WithRank(hs, ps, k) + GroupsFrom(hs, ps, k + 1)
  }

  lemma {:induction false} WithRankFirst(hs: seq<string>, ps: seq<string>)
    requires |ps| > 0
    ensures WithRank(hs, ps, 0) == WithPrefix(hs, ps[0])
  {
    if |hs| > 0 {
      WithRankFirst(hs[1..], ps);
    }
  }

  lemma {:induction false} WithRankLater(hs: seq<string>, ps: seq<string>, k: nat)
    requires |ps| > 0 && k >= 1
    ensures WithRank(hs, ps, k) == WithRank(WithoutPrefix(hs, ps[0]), ps[1..], k - 1)
  {
    if |hs| > 0 {
      var t := hs[1..];
      var w := WithoutPrefix(t, ps[0]);
      WithRankLater(t, ps, k);
      if StartsWith(hs[0], ps[0]) {
        assert Rank(hs[0], ps) == 0;
        assert WithRank(hs, ps, k) == [] + WithRank(t, ps, k) == WithRank(t, ps, k);
        assert WithoutPrefix(hs, ps[0]) == [] + w == w;
      } else {
        assert Rank(hs[0], ps) == 1 + Rank(hs[0], ps[1..]);
        assert WithoutPrefix(hs, ps[0]) == [hs[0]] + w;
        assert ([hs[0]] + w)[0] == hs[0] && ([hs[0]] + w)[1..] == w;
      }
    }
  }

  lemma {:induction false} WithRankNone(hs: seq<string>)
    ensures WithRank(hs, [], 0) == hs
  {
    if |hs| > 0 {
      WithRankNone(hs[1..]);
      assert hs == [hs[0]] + hs[1..];
    }
  }

  lemma {:induction false} GroupsFromLater(hs: seq<string>, ps: seq<string>, k: nat)
    requires |ps| > 0 && k >= 1
    ensures GroupsFrom(hs, ps, k) == GroupsFrom(WithoutPrefix(hs, ps[0]), ps[1..], k - 1)
    decreases |ps| + 1 - k
  {
    var w := WithoutPrefix(hs, ps[0]);
    if k <= |ps| {
      WithRankLater(hs, ps, k);
      GroupsFromLater(hs, ps, k + 1);
      assert GroupsFrom(hs, ps, k) == WithRank(hs, ps, k) + GroupsFrom(hs, ps, k + 1);
      assert GroupsFrom(w, ps[1..], k - 1) == WithRank(w, ps[1..], k - 1) + GroupsFrom(w, ps[1..], k);
    } else {
      assert GroupsFrom(w, ps[1..], k - 1) == [];
    }
  }

  /** orderHeaders lists the headers group by group: first those whose
      first matching prefix is the first prefix, then the second, and so
      on, with unmatched headers last, keeping the input order inside each
      group. */
  lemma {:induction false} OrderGrouped(hs: seq<string>, ps: seq<string>)
    ensures OrderSpec(hs, ps) == GroupsFrom(hs, ps, 0)
    decreases |ps|
  {
    if |ps| == 0 {
      WithRankNone(hs);
      assert GroupsFrom(hs, ps, 1) == [];
    } else {
      WithRankFirst(hs, ps);
      GroupsFromLater(hs, ps, 1);
      OrderGrouped(WithoutPrefix(hs, ps[0]), ps[1..]);
    }
  }

  // ---- convertToCSV ----

  const PrefixOrderingRealtime: seq<string> := [
    "ts",
    "vehicleRealtimeNavData.latitude (ddeg)",
    "vehicleRealtimeNavData.longitude (ddeg)",
    "event",
    "vehicleRealtime",
    "vehicleReNav",
    "id"
  ]

  const PrefixOrderingRenav: seq<string> := [
    "ts",
    "vehicleReNavData.latitude (ddeg)",
    "vehicleReNavData.longitude (ddeg)",
    "event",
    "vehicleReNav",
    "vehicleRealtime",
    "id"
  ]

  function PrefixOrdering(useRenav: bool): seq<string>
  {
    if useRenav then PrefixOrderingRenav else PrefixOrderingRealtime
  }

  /** The navigation source whose position columns are left out. */
  function ExcludePrefix(useRenav: bool): string
  {
    if useRenav then "vehicleRealtimeNavData." else "vehicleReNavData."
  }

  const NavProperties: seq<string> := ["latitude", "longitude", "heading", "depth", "altitude"]

  function NavPrefixes(useRenav: bool): seq<string>
  {
    seq(|NavProperties|, i requires 0 <= i < |NavProperties| => ExcludePrefix(useRenav) + NavProperties[i])
  }

  /** `headers.findIndex(h => h.startsWith(p))`. */
  function FindPrefix(hs: seq<string>, p: string): (k: int)
    ensures -1 <= k < |hs|
    ensures k == -1 <==> forall i :: 0 <= i < |hs| ==> !StartsWith(hs[i], p)
    ensures k != -1 ==> StartsWith(hs[k], p) && forall i :: 0 <= i < k ==> !StartsWith(hs[i], p)
  {
    if |hs| == 0 then -1
    else if StartsWith(hs[0], p) then 0
    else
      var k := FindPrefix(hs[1..], p);
      if k == -1 then -1 else k + 1
  }

  /** `JSON.stringify(value || '')`: a falsy or missing value becomes the
      empty string literal.  A cell never holds a raw line break. */
  function Cell(v: Json): (c: string)
    ensures NoNewline(c)
  {
    var w := if Truthy(v) then v else Str("");
    StringifyNoNewline(w);
    StringifyIn(w)
  }

  /** The header text of a column: `ts` is shown as `Date/Time (UTC)`. */
  function Ren(h: string): string
  {
    if h == "ts" then "Date/Time (UTC)" else h
  }

  function MoveIdToEnd(cols: seq<string>): seq<string>
  {
    var k := IndexOf(cols, "id");
    if k == -1 then cols else MoveToEnd(cols, k)
  }

  /** Removes the first column starting with p, if there is one. */
  function DropFirst(cols: seq<string>, p: string): seq<string>
  {
    var k := FindPrefix(cols, p);
    if k == -1 then cols else RemoveAt(cols, k)
  }

  function DropAll(cols: seq<string>, ps: seq<string>): seq<string>
  {
    if |ps| == 0 then cols
    else DropFirst(DropAll(cols, ps[..|ps| - 1]), ps[|ps| - 1])
  }

  /** The columns kept from headers hs: reordered, `id` last, and the
      first column of every prefix in navs removed. */
  function Shown(hs: seq<string>, order: seq<string>, navs: seq<string>): seq<string>
  {
    DropAll(MoveIdToEnd(OrderSpec(hs, order)), navs)
  }

  /** The keys shown as columns of the export, in column order. */
  function Columns(rows: seq<Fields>, useRenav: bool): seq<string>
  {
    Shown(Dedup(AllKeys(rows)), PrefixOrdering(useRenav), NavPrefixes(useRenav))
  }

  function HeaderLine(cols: seq<string>): seq<string>
  {
    seq(|cols|, i requires 0 <= i < |cols| => Ren(cols[i]))
  }

  /** The cells of one row under the given columns. */
  function Project(row: Fields, cols: seq<string>): seq<string>
  {
    seq(|cols|, i requires 0 <= i < |cols| => Cell(Get(row, cols[i])))
  }

  function Body(rows: seq<Fields>, cols: seq<string>): seq<seq<string>>
  {
    seq(|rows|, r requires 0 <= r < |rows| => Project(rows[r], cols))
  }

  /** String(row) for every row: its cells joined by commas. */
  function Lines(cells: seq<seq<string>>): seq<string>
  {
    seq(|cells|, r requires 0 <= r < |cells| => Join(cells[r], ","))
  }

  /** The CSV text: the header line, then one line per row. */
  function RenderCsv(rows: seq<Fields>, useRenav: bool): string
  {
    var cols := Columns(rows, useRenav);
    Join([Join(HeaderLine(cols), ",")] + Lines(Body(rows, cols)), "\n")
  }

  /** `rows.forEach(row => row.push(row.splice(k, 1)[0]))`. */
  method MoveColumnToEnd(cells: seq<seq<string>>, k: nat) returns (out: seq<seq<string>>)
    requires forall r :: 0 <= r < |cells| ==> k < |cells[r]|
    ensures |out| == |cells|
    ensures forall r :: 0 <= r < |cells| ==> out[r] == MoveToEnd(cells[r], k)
  {
    out := cells;
    for r := 0 to |cells|
      invariant |out| == |cells|
      invariant forall q :: 0 <= q < r ==> out[q] == MoveToEnd(cells[q], k)
      invariant forall q :: r <= q < |cells| ==> out[q] == cells[q]
    {
      out := out[r := MoveToEnd(out[r], k)];
    }
  }

  /** `rows.forEach(row => row.splice(k, 1))`. */
  method DropColumn(cells: seq<seq<string>>, k: nat) returns (out: seq<seq<string>>)
    requires forall r :: 0 <= r < |cells| ==> k < |cells[r]|
    ensures |out| == |cells|
    ensures forall r :: 0 <= r < |cells| ==> out[r] == RemoveAt(cells[r], k)
  {
    out := cells;
    for r := 0 to |cells|
      invariant |out| == |cells|
      invariant forall q :: 0 <= q < r ==> out[q] == RemoveAt(cells[q], k)
      invariant forall q :: r <= q < |cells| ==> out[q] == cells[q]
    {
      out := out[r := RemoveAt(out[r], k)];
    }
  }

  /** Renaming the one `ts` header, as the code does, is renaming every
      `ts` when headers are distinct. */
  lemma RenameTs(cols: seq<string>)
    requires NoDup(cols)
    ensures var k := IndexOf(cols, "ts");
      (if k == -1 then cols else cols[k := "Date/Time (UTC)"]) == HeaderLine(cols)
  {
  }

  lemma IndexOfRenamed(cols: seq<string>)
    ensures IndexOf(HeaderLine(cols), "id") == IndexOf(cols, "id")
  {
    var h := HeaderLine(cols);
    var k := IndexOf(cols, "id");
    if k != -1 {
      assert h[k] == "id";
    } else {
      assert "id" !in h;
    }
  }

  lemma FindPrefixRenamed(cols: seq<string>, p: string)
    requires |p| > 2 && p[0] == 'v'
    ensures FindPrefix(HeaderLine(cols), p) == FindPrefix(cols, p)
  {
    var h := HeaderLine(cols);
    forall i | 0 <= i < |cols| ensures StartsWith(h[i], p) <==> StartsWith(cols[i], p) {
      if cols[i] == "ts" {
        assert h[i][0] == 'D';
      }
    }
  }

  lemma HeaderLineMove(cols: seq<string>, k: nat)
    requires k < |cols|
    ensures HeaderLine(MoveToEnd(cols, k)) == MoveToEnd(HeaderLine(cols), k)
  {
  }

  lemma HeaderLineRemove(cols: seq<string>, k: nat)
    requires k < |cols|
    ensures HeaderLine(RemoveAt(cols, k)) == RemoveAt(HeaderLine(cols), k)
  {
  }

  lemma BodyMove(rows: seq<Fields>, cols: seq<string>, k: nat)
    requires k < |cols|
    ensures forall r :: 0 <= r < |rows| ==> Body(rows, MoveToEnd(cols, k))[r] == MoveToEnd(Body(rows, cols)[r], k)
  {
    forall r | 0 <= r < |rows| ensures Project(rows[r], MoveToEnd(cols, k)) == MoveToEnd(Project(rows[r], cols), k) {
    }
  }

  lemma BodyRemove(rows: seq<Fields>, cols: seq<string>, k: nat)
    requires k < |cols|
    ensures forall r :: 0 <= r < |rows| ==> Body(rows, RemoveAt(cols, k))[r] == RemoveAt(Body(rows, cols)[r], k)
  {
    forall r | 0 <= r < |rows| ensures Project(rows[r], RemoveAt(cols, k)) == RemoveAt(Project(rows[r], cols), k) {
    }
  }

  lemma NavPrefixShape(useRenav: bool, i: nat)
    requires i < |NavPrefixes(useRenav)|
    ensures |NavPrefixes(useRenav)[i]| > 2 && NavPrefixes(useRenav)[i][0] == 'v'
  {
    var ep := ExcludePrefix(useRenav);
    assert ep[0] == 'v';
    assert NavPrefixes(useRenav)[i] == ep + NavProperties[i];
    assert (ep + NavProperties[i])[0] == ep[0];
  }

  /** Special case 2 on the header line and the rows together. */
  method MoveIdColumn(headers: seq<string>, cells: seq<seq<string>>, ghost rows: seq<Fields>, ghost cols: seq<string>)
    returns (headers': seq<string>, cells': seq<seq<string>>, ghost cols': seq<string>)
    requires headers == HeaderLine(cols) && cells == Body(rows, cols)
    ensures cols' == MoveIdToEnd(cols)
    ensures headers' == HeaderLine(cols') && cells' == Body(rows, cols')
  {
    headers', cells', cols' := headers, cells, cols;
    var idIndex := IndexOf(headers, "id");
    IndexOfRenamed(cols);
    if idIndex != -1 {
      headers' := MoveToEnd(headers, idIndex);
      cells' := MoveColumnToEnd(cells, idIndex);
      HeaderLineMove(cols, idIndex);
      BodyMove(rows, cols, idIndex);
      cols' := MoveToEnd(cols, idIndex);
    }
  }

  /** One step of special case 3: the first column starting with p leaves
      the header line and every row. */
  method DropPrefixColumn(headers: seq<string>, cells: seq<seq<string>>, p: string,
                          ghost rows: seq<Fields>, ghost cols: seq<string>)
    returns (headers': seq<string>, cells': seq<seq<string>>, ghost cols': seq<string>)
    requires |p| > 2 && p[0] == 'v'
    requires headers == HeaderLine(cols) && cells == Body(rows, cols)
    ensures cols' == DropFirst(cols, p)
    ensures headers' == HeaderLine(cols') && cells' == Body(rows, cols')
  {
    headers', cells', cols' := headers, cells, cols;
    var colIndex := FindPrefix(headers, p);
    FindPrefixRenamed(cols, p);
    if colIndex != -1 {
      headers' := RemoveAt(headers, colIndex);
      cells' := DropColumn(cells, colIndex);
      HeaderLineRemove(cols, colIndex);
      BodyRemove(rows, cols, colIndex);
      cols' := RemoveAt(cols, colIndex);
    }
  }

  /** `rows = events.map(e => headers.map(h => JSON.stringify(e[h] || '')))`:
      one line of cells per row, one cell per header.  A cell never holds a
      line break, a string value reads back from its cell, and a falsy or
      missing value is the empty string literal. */
  method QuoteCells(rows: seq<Fields>, headers: seq<string>) returns (cells: seq<seq<string>>)
    ensures cells == Body(rows, headers)
    ensures |cells| == |rows| && forall r :: 0 <= r < |rows| ==> |cells[r]| == |headers|
    ensures forall r, c :: 0 <= r < |rows| && 0 <= c < |headers| ==> NoNewline(cells[r][c])
    ensures forall r, c :: 0 <= r < |rows| && 0 <= c < |headers| && Get(rows[r], headers[c]).Str? ==>
      Unquote(cells[r][c]) == Some(Get(rows[r], headers[c]).s)
    ensures forall r, c :: 0 <= r < |rows| && 0 <= c < |headers| && !Truthy(Get(rows[r], headers[c])) ==>
      cells[r][c] == "\"\""
  {
    cells := seq(|rows|, r requires 0 <= r < |rows| =>
      seq(|headers|, c requires 0 <= c < |headers| => Cell(Get(rows[r], headers[c]))));
    forall r, c | 0 <= r < |rows| && 0 <= c < |headers|
      ensures Get(rows[r], headers[c]).Str? ==> Unquote(cells[r][c]) == Some(Get(rows[r], headers[c]).s)
      ensures !Truthy(Get(rows[r], headers[c])) ==> cells[r][c] == "\"\""
    {
      CellMeaning(Get(rows[r], headers[c]));
    }
  }

  /** A string reads back from its cell; a falsy value is the empty literal. */
  lemma CellMeaning(v: Json)
    ensures v.Str? ==> Unquote(Cell(v)) == Some(v.s)
    ensures !Truthy(v) ==> Cell(v) == "\"\""
  {
    if v.Str? {
      UnquoteQuote(v.s);
    }
    assert Escape("") == "";
  }

  /** Special case 1: `ts` is shown as `Date/Time (UTC)`. */
  method RenameTsHeader(headers: seq<string>) returns (headers': seq<string>)
    requires NoDup(headers)
    ensures headers' == HeaderLine(headers)
  {
    headers' := headers;
    var tsIndex := IndexOf(headers, "ts");
    if tsIndex != -1 {
      headers' := headers[tsIndex := "Date/Time (UTC)"];
    }
    RenameTs(headers);
  }

  /** Special case 3: for each position property, the first column of the
      other navigation source leaves the header line and every row. */
  method DropNavColumns(headers: seq<string>, cells: seq<seq<string>>, useRenav: bool,
                        ghost rows: seq<Fields>, ghost cols: seq<string>)
    returns (headers': seq<string>, cells': seq<seq<string>>, ghost cols': seq<string>)
    requires headers == HeaderLine(cols) && cells == Body(rows, cols)
    ensures cols' == DropAll(cols, NavPrefixes(useRenav))
    ensures headers' == HeaderLine(cols') && cells' == Body(rows, cols')
  {
    headers', cells', cols' := headers, cells, cols;
    var prefixes := NavPrefixes(useRenav);
    for i := 0 to |prefixes|
      invariant cols' == DropAll(cols, prefixes[..i])
      invariant headers' == HeaderLine(cols') && cells' == Body(rows, cols')
    {
      NavPrefixShape(useRenav, i);
      headers', cells', cols' := DropPrefixColumn(headers', cells', prefixes[i], rows, cols');
      assert prefixes[..i + 1][..i] == prefixes[..i];
    }
    assert prefixes[..|prefixes|] == prefixes;
  }

  /** The export: headers collected and ordered, cells quoted, then `ts`
      renamed, `id` moved last and the other navigation source's position
      columns spliced out of the headers and of every row. */
  method ConvertToCsv(rows: seq<Fields>, useRenav: bool) returns (csv: string)
    ensures csv == RenderCsv(rows, useRenav)
  {
    var unordered := GetHeaders(rows);
    var headers := OrderHeaders(unordered, PrefixOrdering(useRenav));
    HeadersExact(rows, "");
    OrderNoDup(unordered, PrefixOrdering(useRenav));
    ghost var cols := headers;
    var cells := QuoteCells(rows, headers);
    headers := RenameTsHeader(headers);
    headers, cells, cols := MoveIdColumn(headers, cells, rows, cols);
    headers, cells, cols := DropNavColumns(headers, cells, useRenav, rows, cols);
    csv := Join([Join(headers, ",")] + Lines(cells), "\n");
  }

  // ---- what the export promises ----

  lemma MoveToEndHas(s: seq<string>, k: nat, x: string)
    requires k < |s| && x in s
    ensures x in MoveToEnd(s, k)
  {
    var m := MoveToEnd(s, k);
    var j :| 0 <= j < |s| && s[j] == x;
    if j < k {
      assert m[j] == x;
    } else if j > k {
      assert m[j - 1] == x;
    }
  }

  lemma MoveToEndSub(s: seq<string>, k: nat, x: string)
    requires k < |s|
    ensures x in MoveToEnd(s, k) ==> x in s
  {
    var m := MoveToEnd(s, k);
    if x in m {
      var i :| 0 <= i < |m| && m[i] == x;
      if i < |m| - 1 {
        assert s[if i < k then i else i + 1] == x;
      }
    }
  }

  lemma MoveToEndNoDup(s: seq<string>, k: nat)
    requires k < |s| && NoDup(s)
    ensures NoDup(MoveToEnd(s, k))
  {
    var m := MoveToEnd(s, k);
    forall i, j | 0 <= i < j < |m| ensures m[i] != m[j] {
      var pi := if i < k then i else i + 1;
      var pj := if j == |m| - 1 then k else if j < k then j else j + 1;
      assert m[i] == s[pi] && m[j] == s[pj];
    }
  }

  /** The headers before the position columns are dropped hold exactly
      the headers, `id` moved last. */
  lemma MovedHas(hs: seq<string>, order: seq<string>, x: string)
    ensures x in MoveIdToEnd(OrderSpec(hs, order)) <==> x in hs
  {
    var ord := OrderSpec(hs, order);
    OrderPermutation(hs, order);
    assert x in ord <==> x in multiset(ord);
    var k := IndexOf(ord, "id");
    if k != -1 {
      MoveToEndSub(ord, k, x);
      if x in ord {
        MoveToEndHas(ord, k, x);
      }
    }
  }

  lemma DropFirstKeepsLast(d: seq<string>, p: string)
    requires |d| > 0 && !StartsWith(d[|d| - 1], p)
    ensures |DropFirst(d, p)| > 0 && DropFirst(d, p)[|DropFirst(d, p)| - 1] == d[|d| - 1]
  {
    var k := FindPrefix(d, p);
    if k != -1 {
      assert k != |d| - 1;
      var r := RemoveAt(d, k);
      assert r[|r| - 1] == d[|d| - 1];
    }
  }

  lemma {:induction false} DropAllKeepsLast(cols: seq<string>, ps: seq<string>)
    requires |cols| > 0
    requires forall i :: 0 <= i < |ps| ==> !StartsWith(cols[|cols| - 1], ps[i])
    ensures |DropAll(cols, ps)| > 0 && DropAll(cols, ps)[|DropAll(cols, ps)| - 1] == cols[|cols| - 1]
  {
    if |ps| > 0 {
      DropAllKeepsLast(cols, ps[..|ps| - 1]);
      DropFirstKeepsLast(DropAll(cols, ps[..|ps| - 1]), ps[|ps| - 1]);
    }
  }

  lemma DropFirstKeeps(d: seq<string>, p: string, x: string)
    requires x in d && !StartsWith(x, p)
    ensures x in DropFirst(d, p)
  {
    var k := FindPrefix(d, p);
    if k != -1 {
      var j :| 0 <= j < |d| && d[j] == x;
      if j < k {
        assert RemoveAt(d, k)[j] == x;
      } else {
        assert RemoveAt(d, k)[j - 1] == x;
      }
    }
  }

  lemma {:induction false} DropAllKeeps(cols: seq<string>, ps: seq<string>, x: string)
    requires x in cols
    requires forall i :: 0 <= i < |ps| ==> !StartsWith(x, ps[i])
    ensures x in DropAll(cols, ps)
  {
    if |ps| > 0 {
      DropAllKeeps(cols, ps[..|ps| - 1], x);
      DropFirstKeeps(DropAll(cols, ps[..|ps| - 1]), ps[|ps| - 1], x);
    }
  }

  lemma DropFirstSub(d: seq<string>, p: string, x: string)
    requires NoDup(d)
    ensures x in DropFirst(d, p) ==> x in d
    ensures NoDup(DropFirst(d, p))
  {
    var k := FindPrefix(d, p);
    if k != -1 {
      var r := RemoveAt(d, k);
      forall i, j | 0 <= i < j < |r| ensures r[i] != r[j] {
        assert r[i] == d[if i < k then i else i + 1];
        assert r[j] == d[if j < k then j else j + 1];
      }
      if x in r {
        var i :| 0 <= i < |r| && r[i] == x;
        assert d[if i < k then i else i + 1] == x;
      }
    }
  }

  lemma {:induction false} DropAllSub(cols: seq<string>, ps: seq<string>, x: string)
    requires NoDup(cols)
    ensures x in DropAll(cols, ps) ==> x in cols
    ensures NoDup(DropAll(cols, ps))
  {
    if |ps| > 0 {
      DropAllSub(cols, ps[..|ps| - 1], x);
      DropFirstSub(DropAll(cols, ps[..|ps| - 1]), ps[|ps| - 1], x);
    }
  }

  /** Prefixes of a navigation source: long enough and starting with `v`,
      so that neither `id`, `ts` nor `Date/Time (UTC)` starts with one. */
  ghost predicate NavLike(navs: seq<string>) {
    forall i :: 0 <= i < |navs| ==> |navs[i]| > 2 && navs[i][0] == 'v'
  }

  lemma NavPrefixesLike(useRenav: bool)
    ensures NavLike(NavPrefixes(useRenav))
  {
    forall i | 0 <= i < |NavPrefixes(useRenav)| ensures |NavPrefixes(useRenav)[i]| > 2 && NavPrefixes(useRenav)[i][0] == 'v' {
      NavPrefixShape(useRenav, i);
    }
  }

  lemma ShownIdLast(hs: seq<string>, order: seq<string>, navs: seq<string>)
    requires "id" in hs && NavLike(navs)
    ensures var cols := Shown(hs, order, navs); |cols| > 0 && cols[|cols| - 1] == "id"
  {
    var ord := OrderSpec(hs, order);
    IdOrdered(hs, order);
    MovedIdLast(ord);
    IdNotNav(navs);
    DropAllKeepsLast(MoveIdToEnd(ord), navs);
  }

  lemma IdOrdered(hs: seq<string>, order: seq<string>)
    requires "id" in hs
    ensures "id" in multiset(OrderSpec(hs, order))
  {
    OrderPermutation(hs, order);
  }

  lemma IdNotNav(navs: seq<string>)
    requires NavLike(navs)
    ensures forall i :: 0 <= i < |navs| ==> !StartsWith("id", navs[i])
  {
    forall i | 0 <= i < |navs| ensures !StartsWith("id", navs[i]) {
      assert navs[i][0] == 'v';
    }
  }

  lemma MovedIdLast(cols: seq<string>)
    requires "id" in multiset(cols)
    ensures |MoveIdToEnd(cols)| > 0 && MoveIdToEnd(cols)[|MoveIdToEnd(cols)| - 1] == "id"
  {
    assert "id" in cols;
    var k := IndexOf(cols, "id");
    assert MoveIdToEnd(cols) == MoveToEnd(cols, k);
  }

  lemma ShownKeeps(hs: seq<string>, order: seq<string>, navs: seq<string>, x: string)
    requires x in hs
    requires forall i :: 0 <= i < |navs| ==> !StartsWith(x, navs[i])
    ensures x in Shown(hs, order, navs)
  {
    MovedHas(hs, order, x);
    DropAllKeeps(MoveIdToEnd(OrderSpec(hs, order)), navs, x);
  }

  lemma ShownSub(hs: seq<string>, order: seq<string>, navs: seq<string>, x: string)
    requires NoDup(hs)
    ensures NoDup(Shown(hs, order, navs))
    ensures x in Shown(hs, order, navs) ==> x in hs
  {
    var ord := OrderSpec(hs, order);
    OrderNoDup(hs, order);
    var k := IndexOf(ord, "id");
    if k != -1 {
      MoveToEndNoDup(ord, k);
    }
    MovedHas(hs, order, x);
    DropAllSub(MoveIdToEnd(ord), navs, x);
  }

  lemma ColumnAt(rows: seq<Fields>, cols: seq<string>, c: nat)
    requires c < |cols|
    ensures HeaderLine(cols)[c] == Ren(cols[c])
    ensures forall r :: 0 <= r < |rows| ==> Body(rows, cols)[r][c] == Cell(Get(rows[r], cols[c]))
  {
  }

  /** A shown key has exactly one column, headed by its displayed name, and
      every row's cell in that column is the quoted value of that key in
      that row; every row is as wide as the header line. */
  lemma ColumnCells(rows: seq<Fields>, useRenav: bool, x: string)
    requires x in Columns(rows, useRenav)
    ensures var cols := Columns(rows, useRenav);
      exists c :: 0 <= c < |cols| && cols[c] == x && HeaderLine(cols)[c] == Ren(x) &&
        (forall d :: 0 <= d < |cols| && cols[d] == x ==> d == c) &&
        forall r :: 0 <= r < |rows| ==> Body(rows, cols)[r][c] == Cell(Get(rows[r], x))
    ensures var cols := Columns(rows, useRenav);
      forall r :: 0 <= r < |rows| ==> |Body(rows, cols)[r]| == |HeaderLine(cols)|
  {
    ColumnsDistinct(rows, useRenav, x);
    ColumnOf(rows, Columns(rows, useRenav), x);
  }

  lemma ColumnOf(rows: seq<Fields>, cols: seq<string>, x: string)
    requires NoDup(cols) && x in cols
    ensures exists c ::
      0 <= c < |cols| && cols[c] == x && HeaderLine(cols)[c] == Ren(x) &&
      (forall d :: 0 <= d < |cols| && cols[d] == x ==> d == c) &&
      forall r :: 0 <= r < |rows| ==> Body(rows, cols)[r][c] == Cell(Get(rows[r], x))
    ensures forall r :: 0 <= r < |rows| ==> |Body(rows, cols)[r]| == |HeaderLine(cols)|
  {
    var c :| 0 <= c < |cols| && cols[c] == x;
    ColumnAt(rows, cols, c);
  }

  lemma IdLastColumn(rows: seq<Fields>, useRenav: bool)
    requires "id" in Dedup(AllKeys(rows))
    ensures var cols := Columns(rows, useRenav); |cols| > 0 && cols[|cols| - 1] == "id"
  {
    var hs, order, navs := Dedup(AllKeys(rows)), PrefixOrdering(useRenav), NavPrefixes(useRenav);
    NavPrefixesLike(useRenav);
    ShownIdLast(hs, order, navs);
    assert Columns(rows, useRenav) == Shown(hs, order, navs);
  }

  /** `id`, when some row has it, is the last header and the last cell of
      every row. */
  lemma IdLast(rows: seq<Fields>, useRenav: bool)
    requires exists r :: 0 <= r < |rows| && Has(rows[r], "id")
    ensures var cols := Columns(rows, useRenav);
      |cols| > 0 && cols[|cols| - 1] == "id" && HeaderLine(cols)[|cols| - 1] == "id" &&
      forall r :: 0 <= r < |rows| ==> Body(rows, cols)[r][|cols| - 1] == Cell(Get(rows[r], "id"))
  {
    HeadersExact(rows, "id");
    IdLastColumn(rows, useRenav);
    var cols := Columns(rows, useRenav);
    ColumnAt(rows, cols, |cols| - 1);
  }

  lemma StartsWithConcat(x: string, a: string, b: string)
    requires StartsWith(x, a + b)
    ensures StartsWith(x, a)
  {
    assert (a + b)[..|a|] == a;
    assert x[..|a|] == x[..|a + b|][..|a|];
  }

  /** A key outside the left-out navigation source is never lost: it is a
      column of the export. */
  lemma ColumnKept(rows: seq<Fields>, useRenav: bool, x: string)
    requires exists r :: 0 <= r < |rows| && Has(rows[r], x)
    requires !StartsWith(x, ExcludePrefix(useRenav))
    ensures x in Columns(rows, useRenav)
  {
    var hs, order, navs := Dedup(AllKeys(rows)), PrefixOrdering(useRenav), NavPrefixes(useRenav);
    HeadersExact(rows, x);
    forall i | 0 <= i < |navs| ensures !StartsWith(x, navs[i]) {
      if StartsWith(x, navs[i]) {
        StartsWithConcat(x, ExcludePrefix(useRenav), NavProperties[i]);
      }
    }
    ShownKeeps(hs, order, navs, x);
    assert Columns(rows, useRenav) == Shown(hs, order, navs);
  }

  lemma NoTsHeader(cols: seq<string>)
    ensures "ts" !in HeaderLine(cols)
  {
  }

  lemma TsShown(rows: seq<Fields>, cols: seq<string>)
    requires "ts" in cols
    ensures "ts" !in HeaderLine(cols) &&
      exists c :: 0 <= c < |cols| && HeaderLine(cols)[c] == "Date/Time (UTC)" &&
        forall r :: 0 <= r < |rows| ==> Body(rows, cols)[r][c] == Cell(Get(rows[r], "ts"))
  {
    var c :| 0 <= c < |cols| && cols[c] == "ts";
    ColumnAt(rows, cols, c);
    NoTsHeader(cols);
  }

  lemma TsNotExcluded(useRenav: bool)
    ensures !StartsWith("ts", ExcludePrefix(useRenav))
  {
  }

  /** `ts`, when present, is shown as `Date/Time (UTC)` over unchanged cell
      data, and no header reads `ts`. */
  lemma TsColumn(rows: seq<Fields>, useRenav: bool)
    requires exists r :: 0 <= r < |rows| && Has(rows[r], "ts")
    ensures var cols := Columns(rows, useRenav);
      "ts" !in HeaderLine(cols) &&
      exists c :: 0 <= c < |cols| && HeaderLine(cols)[c] == "Date/Time (UTC)" &&
        forall r :: 0 <= r < |rows| ==> Body(rows, cols)[r][c] == Cell(Get(rows[r], "ts"))
  {
    TsNotExcluded(useRenav);
    ColumnKept(rows, useRenav, "ts");
    TsShown(rows, Columns(rows, useRenav));
  }

  /** Each column is a key of some row, and no column appears twice. */
  lemma ColumnsDistinct(rows: seq<Fields>, useRenav: bool, x: string)
    ensures NoDup(Columns(rows, useRenav))
    ensures x in Columns(rows, useRenav) ==> exists r :: 0 <= r < |rows| && Has(rows[r], x)
  {
    HeadersExact(rows, x);
    ShownSub(Dedup(AllKeys(rows)), PrefixOrdering(useRenav), NavPrefixes(useRenav), x);
  }

  // ---- only the first column of each position property is dropped ----

  lemma {:induction false} WithPrefixConcat(a: seq<string>, b: seq<string>, p: string)
    ensures WithPrefix(a + b, p) == WithPrefix(a, p) + WithPrefix(b, p)
  {
    if |a| == 0 {
      assert a + b == b;
    } else {
      assert (a + b)[0] == a[0] && (a + b)[1..] == a[1..] + b;
      WithPrefixConcat(a[1..], b, p);
    }
  }

  lemma RemoveAtCount(s: seq<string>, k: nat, p: string)
    requires k < |s|
    ensures |WithPrefix(RemoveAt(s, k), p)| == |WithPrefix(s, p)| - (if StartsWith(s[k], p) then 1 else 0)
  {
    assert s == s[..k] + ([s[k]] + s[k + 1..]);
    WithPrefixConcat(s[..k], [s[k]] + s[k + 1..], p);
    WithPrefixConcat([s[k]], s[k + 1..], p);
    WithPrefixConcat(s[..k], s[k + 1..], p);
    assert [s[k]][1..] == [];
  }

  lemma {:induction false} NoMatchEmpty(s: seq<string>, p: string)
    requires forall i :: 0 <= i < |s| ==> !StartsWith(s[i], p)
    ensures WithPrefix(s, p) == []
  {
    if |s| > 0 {
      assert forall i :: 0 <= i < |s[1..]| ==> s[1..][i] == s[i + 1];
      NoMatchEmpty(s[1..], p);
    }
  }

  /** Neither string is a prefix of the other. */
  predicate Exclusive(p: string, q: string) {
    !StartsWith(p, q) && !StartsWith(q, p)
  }

  lemma BothPrefixes(x: string, p: string, q: string)
    requires StartsWith(x, p) && StartsWith(x, q)
    ensures !Exclusive(p, q)
  {
    if |q| <= |p| {
      assert p[..|q|] == x[..|p|][..|q|];
    } else {
      assert q[..|p|] == x[..|q|][..|p|];
    }
  }

  /** How many columns starting with a prefix are left after one pass that
      may drop one of them. */
  function AfterDrop(n: nat, dropped: bool): nat
  {
    if dropped && n > 0 then n - 1 else n
  }

  lemma DropFirstCount(s: seq<string>, q: string, p: string)
    requires p == q || Exclusive(p, q)
    ensures |WithPrefix(DropFirst(s, q), p)| == AfterDrop(|WithPrefix(s, p)|, p == q)
  {
    var k := FindPrefix(s, q);
    if k != -1 {
      RemoveAtCount(s, k, p);
      if p != q && StartsWith(s[k], p) {
        BothPrefixes(s[k], p, q);
      }
    } else if p == q {
      NoMatchEmpty(s, p);
    }
  }

  lemma NoDupLast(ps: seq<string>)
    requires NoDup(ps) && |ps| > 0
    ensures ps[|ps| - 1] !in ps[..|ps| - 1]
    ensures NoDup(ps[..|ps| - 1])
  {
    var t := ps[..|ps| - 1];
    forall i | 0 <= i < |t| ensures t[i] != ps[|ps| - 1] {
      assert t[i] == ps[i];
    }
  }

  lemma InSnoc(ps: seq<string>, p: string)
    requires |ps| > 0
    ensures p in ps <==> p in ps[..|ps| - 1] || p == ps[|ps| - 1]
  {
    assert ps == ps[..|ps| - 1] + [ps[|ps| - 1]];
  }

  lemma {:induction false} DropAllCount(s: seq<string>, ps: seq<string>, p: string)
    requires NoDup(ps)
    requires forall i :: 0 <= i < |ps| ==> ps[i] == p || Exclusive(p, ps[i])
    ensures |WithPrefix(DropAll(s, ps), p)| == AfterDrop(|WithPrefix(s, p)|, p in ps)
  {
    if |ps| > 0 {
      var init := ps[..|ps| - 1];
      var q := ps[|ps| - 1];
      NoDupLast(ps);
      assert forall i :: 0 <= i < |init| ==> init[i] == ps[i];
      DropAllCount(s, init, p);
      var d := DropAll(s, init);
      assert DropAll(s, ps) == DropFirst(d, q);
      DropFirstCount(d, q, p);
      InSnoc(ps, p);
    }
  }

  lemma {:induction false} FilterCount(hs: seq<string>, q: string, p: string)
    ensures |WithPrefix(WithPrefix(hs, q), p)| + |WithPrefix(WithoutPrefix(hs, q), p)| == |WithPrefix(hs, p)|
  {
    if |hs| > 0 {
      FilterCount(hs[1..], q, p);
      var h := [hs[0]];
      assert h[1..] == [];
      WithPrefixConcat(if StartsWith(hs[0], q) then h else [], WithPrefix(hs[1..], q), p);
      WithPrefixConcat(if StartsWith(hs[0], q) then [] else h, WithoutPrefix(hs[1..], q), p);
    }
  }

  lemma {:induction false} OrderCount(hs: seq<string>, order: seq<string>, p: string)
    ensures |WithPrefix(OrderSpec(hs, order), p)| == |WithPrefix(hs, p)|
    decreases |order|
  {
    if |order| > 0 {
      OrderCount(WithoutPrefix(hs, order[0]), order[1..], p);
      WithPrefixConcat(WithPrefix(hs, order[0]), OrderSpec(WithoutPrefix(hs, order[0]), order[1..]), p);
      FilterCount(hs, order[0], p);
    }
  }

  lemma MoveIdCount(s: seq<string>, p: string)
    ensures |WithPrefix(MoveIdToEnd(s), p)| == |WithPrefix(s, p)|
  {
    var k := IndexOf(s, "id");
    if k != -1 {
      RemoveAtCount(s, k, p);
      WithPrefixConcat(RemoveAt(s, k), [s[k]], p);
      assert [s[k]][1..] == [];
    }
  }

  lemma DiffersAt(a: string, b: string, k: nat)
    requires k < |a| && k < |b| && a[k] != b[k]
    ensures Exclusive(a, b)
  {
    if |b| <= |a| {
      assert a[..|b|][k] == a[k];
    }
    if |a| <= |b| {
      assert b[..|a|][k] == b[k];
    }
  }

  lemma NavPrefixesExclusive(useRenav: bool, i: nat, j: nat)
    requires i < |NavProperties| && j < |NavProperties| && i != j
    ensures Exclusive(NavPrefixes(useRenav)[i], NavPrefixes(useRenav)[j])
  {
    var ep := ExcludePrefix(useRenav);
    var a, b := NavProperties[i], NavProperties[j];
    var k := if {i, j} == {0, 1} then 1 else 0;
    assert a[k] != b[k];
    assert (ep + a)[|ep| + k] == a[k] && (ep + b)[|ep| + k] == b[k];
    DiffersAt(ep + a, ep + b, |ep| + k);
  }

  /** For each position property, exactly one column of the left-out
      navigation source is dropped when there is one: the export has one
      column starting with that prefix fewer than the headers had. */
  lemma NavDroppedOnce(rows: seq<Fields>, useRenav: bool, i: nat)
    requires i < |NavProperties|
    ensures var p := NavPrefixes(useRenav)[i];
      var n := |WithPrefix(Dedup(AllKeys(rows)), p)|;
      |WithPrefix(Columns(rows, useRenav), p)| == if n > 0 then n - 1 else 0
  {
    var hs, order, navs := Dedup(AllKeys(rows)), PrefixOrdering(useRenav), NavPrefixes(useRenav);
    var p := navs[i];
    forall j | 0 <= j < |navs| && j != i ensures Exclusive(p, navs[j]) {
      NavPrefixesExclusive(useRenav, i, j);
    }
    assert NoDup(navs) by {
      forall a, b | 0 <= a < b < |navs| ensures navs[a] != navs[b] {
        NavPrefixesExclusive(useRenav, a, b);
        assert StartsWith(navs[a], navs[a]);
      }
    }
    OrderCount(hs, order, p);
    MoveIdCount(OrderSpec(hs, order), p);
    DropAllCount(MoveIdToEnd(OrderSpec(hs, order)), navs, p);
    assert Columns(rows, useRenav) == Shown(hs, order, navs);
  }

  // ---- the line structure of the CSV text ----

  lemma {:induction false} JoinNoNewline(parts: seq<string>)
    requires forall i :: 0 <= i < |parts| ==> NoNewline(parts[i])
    ensures NoNewline(Join(parts, ","))
  {
    if |parts| > 1 {
      JoinNoNewline(parts[1..]);
      NoNewlineConcat(parts[0], ",");
      NoNewlineConcat(parts[0] + ",", Join(parts[1..], ","));
    }
  }

  lemma KeyNoNewline(rows: seq<Fields>, x: string)
    requires forall r, i :: 0 <= r < |rows| && 0 <= i < |rows[r]| ==> NoNewline(rows[r][i].key)
    requires exists r :: 0 <= r < |rows| && Has(rows[r], x)
    ensures NoNewline(x)
  {
    var r :| 0 <= r < |rows| && Has(rows[r], x);
    var i :| 0 <= i < |rows[r]| && rows[r][i].key == x;
  }

  lemma HeaderLineNoNewline(cols: seq<string>)
    requires forall c :: 0 <= c < |cols| ==> NoNewline(cols[c])
    ensures NoNewline(Join(HeaderLine(cols), ","))
  {
    var head := HeaderLine(cols);
    forall c | 0 <= c < |cols| ensures NoNewline(head[c]) {
      assert NoNewline("Date/Time (UTC)");
    }
    JoinNoNewline(head);
  }

  lemma HeaderNoNewline(rows: seq<Fields>, useRenav: bool)
    requires forall r, i :: 0 <= r < |rows| && 0 <= i < |rows[r]| ==> NoNewline(rows[r][i].key)
    ensures NoNewline(Join(HeaderLine(Columns(rows, useRenav)), ","))
  {
    var cols := Columns(rows, useRenav);
    forall c | 0 <= c < |cols| ensures NoNewline(cols[c]) {
      ColumnsDistinct(rows, useRenav, cols[c]);
      KeyNoNewline(rows, cols[c]);
    }
    HeaderLineNoNewline(cols);
  }

  lemma BodyNoNewline(rows: seq<Fields>, cols: seq<string>)
    ensures forall r :: 0 <= r < |rows| ==> NoNewline(Lines(Body(rows, cols))[r])
  {
    forall r | 0 <= r < |rows| ensures NoNewline(Lines(Body(rows, cols))[r]) {
      JoinNoNewline(Project(rows[r], cols));
    }
  }

  /** When no key holds a line break, splitting the CSV text at line breaks
      gives back the header line and then exactly one line per row. */
  lemma CsvLines(rows: seq<Fields>, useRenav: bool)
    requires forall r, i :: 0 <= r < |rows| && 0 <= i < |rows[r]| ==> NoNewline(rows[r][i].key)
    ensures var cols := Columns(rows, useRenav);
      var lines := Split(RenderCsv(rows, useRenav), '\n');
      lines == [Join(HeaderLine(cols), ",")] + Lines(Body(rows, cols)) && |lines| == |rows| + 1
  {
    var cols := Columns(rows, useRenav);
    HeaderNoNewline(rows, useRenav);
    BodyNoNewline(rows, cols);
    var parts := [Join(HeaderLine(cols), ",")] + Lines(Body(rows, cols));
    forall k | 0 <= k < |parts| ensures '\n' !in parts[k] {
      assert NoNewline(parts[k]);
    }
    SplitJoin(parts, '\n');
  }
}
