/** JavaScript values as the server handles them: records read from
    MongoDB, with objects as ordered member lists (JavaScript objects keep
    string keys in insertion order), and the conversions the export code
    applies to them: truthiness, String(), Array.join and JSON.stringify. */
module Json {
  import opened Wrappers
  import opened Text

  datatype Json =
    | Undefined                   // a missing member or `undefined`
    | Null
    | Bool(b: bool)
    | Num(n: int)
    | Str(s: string)
    | Date(iso: string)           // a Date, carried as its toISOString() text
    | Oid(hex: string)            // a MongoDB ObjectId, carried as its hex text
    | Arr(items: seq<Json>)
    | Obj(members: seq<Member>)

  datatype Member = Member(key: string, value: Json)

  type Fields = seq<Member>

  // ---- objects as ordered member lists ----

  function Keys(fs: Fields): (ks: seq<string>)
    ensures |ks| == |fs|
    ensures forall i :: 0 <= i < |fs| ==> ks[i] == fs[i].key
  {
    if |fs| == 0 then [] else [fs[0].key] + Keys(fs[1..])
  }

  predicate Has(fs: Fields, k: string) {
    exists i :: 0 <= i < |fs| && fs[i].key == k
  }

  ghost predicate UniqueKeys(fs: Fields) {
    forall i, j :: 0 <= i < j < |fs| ==> fs[i].key != fs[j].key
  }

  /** `obj[k]`: the value of the first member named k, or undefined. */
  function Get(fs: Fields, k: string): (v: Json)
    ensures !Has(fs, k) ==> v == Undefined
  {
    if |fs| == 0 then Undefined
    else if fs[0].key == k then fs[0].value
    else Get(fs[1..], k)
  }

  /** `obj[k] = v`: an existing member keeps its place, a new one goes last. */
  function Put(fs: Fields, k: string, v: Json): (r: Fields)
    ensures Has(fs, k) ==> |r| == |fs|
    ensures !Has(fs, k) ==> r == fs + [Member(k, v)]
  {
    if |fs| == 0 then [Member(k, v)]
    else if fs[0].key == k then [Member(k, v)] + fs[1..]
    else
      assert Has(fs, k) <==> Has(fs[1..], k) by {
        if Has(fs, k) { var i :| 0 <= i < |fs| && fs[i].key == k; assert fs[1..][i - 1] == fs[i]; }
        if Has(fs[1..], k) { var i :| 0 <= i < |fs[1..]| && fs[1..][i].key == k; assert fs[i + 1] == fs[1..][i]; }
      }
      [fs[0]] + Put(fs[1..], k, v)
  }

  /** `delete obj[k]`. */
  function Delete(fs: Fields, k: string): (r: Fields)
    ensures !Has(r, k)
    ensures |r| <= |fs|
  {
    if |fs| == 0 then []
    else if fs[0].key == k then Delete(fs[1..], k)
    else [fs[0]] + Delete(fs[1..], k)
  }

  lemma {:induction false} GetPut(fs: Fields, k: string, v: Json, k2: string)
    ensures Get(Put(fs, k, v), k2) == if k2 == k then v else Get(fs, k2)
  {
    if |fs| > 0 && fs[0].key != k {
      GetPut(fs[1..], k, v, k2);
    }
  }

  lemma {:induction false} KeysPut(fs: Fields, k: string, v: Json)
    ensures Has(fs, k) ==> Keys(Put(fs, k, v)) == Keys(fs)
    ensures !Has(fs, k) ==> Keys(Put(fs, k, v)) == Keys(fs) + [k]
  {
    if |fs| > 0 && fs[0].key != k {
      var t := Put(fs[1..], k, v);
      KeysPut(fs[1..], k, v);
      assert Has(fs, k) ==> Has(fs[1..], k) by {
        if Has(fs, k) { var i :| 0 <= i < |fs| && fs[i].key == k; assert fs[1..][i - 1] == fs[i]; }
      }
      assert Keys(Put(fs, k, v)) == [fs[0].key] + Keys(t) by {
        assert Put(fs, k, v) == [fs[0]] + t;
        assert ([fs[0]] + t)[1..] == t;
      }
      assert Keys(fs) == [fs[0].key] + Keys(fs[1..]);
    } else if |fs| > 0 {
      assert Has(fs, k);
      assert Put(fs, k, v)[1..] == fs[1..];
    }
  }

  lemma {:induction false} GetDelete(fs: Fields, k: string, k2: string)
    ensures Get(Delete(fs, k), k2) == if k2 == k then Undefined else Get(fs, k2)
  {
    if |fs| > 0 {
      GetDelete(fs[1..], k, k2);
    }
  }

  lemma HasKeys(fs: Fields, k: string)
    ensures Has(fs, k) <==> k in Keys(fs)
  {
    if Has(fs, k) {
      var i :| 0 <= i < |fs| && fs[i].key == k;
      assert Keys(fs)[i] == k;
    }
  }
  lemma HasPut(fs: Fields, k: string, v: Json, k2: string)
    ensures Has(Put(fs, k, v), k2) <==> k2 == k || Has(fs, k2)
  {
    KeysPut(fs, k, v);
    HasKeys(fs, k2);
    HasKeys(Put(fs, k, v), k2);
    HasKeys(fs, k);
  }

  /** Deleting one key leaves every other key where it is, present or not. */
  lemma HasDelete(fs: Fields, k: string, k2: string)
    ensures Has(Delete(fs, k), k2) <==> k2 != k && Has(fs, k2)
  {
    KeysDelete(fs, k, k2);
    HasKeys(fs, k2);
    HasKeys(Delete(fs, k), k2);
  }


  lemma {:induction false} KeysDelete(fs: Fields, k: string, k2: string)
    ensures k2 in Keys(Delete(fs, k)) <==> k2 != k && k2 in Keys(fs)
  {
    if |fs| > 0 {
      KeysDelete(fs[1..], k, k2);
      assert Keys(fs) == [fs[0].key] + Keys(fs[1..]);
      if fs[0].key != k {
        assert Keys(Delete(fs, k)) == [fs[0].key] + Keys(Delete(fs[1..], k));
      }
    }
  }

  lemma {:induction false} UniqueKeysPut(fs: Fields, k: string, v: Json)
    requires UniqueKeys(fs)
    ensures UniqueKeys(Put(fs, k, v))
  {
    KeysPut(fs, k, v);
    var r := Put(fs, k, v);
    forall i, j | 0 <= i < j < |r| ensures r[i].key != r[j].key {
      assert Keys(r)[i] == r[i].key && Keys(r)[j] == r[j].key;
      if !Has(fs, k) && j == |fs| {
        HasKeys(fs, k);
        assert Keys(fs)[i] == fs[i].key;
      }
    }
  }

  lemma {:induction false} UniqueKeysDelete(fs: Fields, k: string)
    requires UniqueKeys(fs)
    ensures UniqueKeys(Delete(fs, k))
  {
    if |fs| > 0 {
      UniqueKeysDelete(fs[1..], k);
      if fs[0].key != k {
        var d := Delete(fs[1..], k);
        forall j | 0 <= j < |d| ensures d[j].key != fs[0].key {
          assert Keys(d)[j] == d[j].key;
          KeysDelete(fs[1..], k, fs[0].key);
        }
      }
    }
  }

  // ---- truthiness and String() ----

  /** JavaScript truthiness; NaN and -0 do not arise for integers. */
  predicate Truthy(v: Json) {
    match v
    case Undefined => false
    case Null => false
    case Bool(b) => b
    case Num(n) => n != 0
    case Str(s) => |s| > 0
    case _ => true
  }

  /** String(v).  A Date is carried as its ISO text, an ObjectId as its hex. */
  function ToText(v: Json): string
    decreases v, 1
  {
    match v
    case Undefined => "undefined"
    case Null => "null"
    case Bool(b) => if b then "true" else "false"
    case Num(n) => IntToDecimal(n)
    case Str(s) => s
    case Date(iso) => iso
    case Oid(hex) => hex
    case Arr(items) => JoinValues(items, ",", v)
    case Obj(_) => "[object Object]"
  }

  /** Array.prototype.join(sep) on values: null and undefined become empty. */
  function JoinValues(items: seq<Json>, sep: string, ghost parent: Json): string
    requires forall i :: 0 <= i < |items| ==> items[i] < parent
    decreases parent, 0, |items|
  {
    if |items| == 0 then ""
    else
      var first := if items[0] == Undefined || items[0] == Null then "" else ToText(items[0]);
      if |items| == 1 then first
      else first + sep + JoinValues(items[1..], sep, parent)
  }

  /** Joining an array of strings is the string join of their texts. */
  lemma {:induction false} JoinValuesStrings(ss: seq<string>, sep: string, parent: Json)
    requires forall i :: 0 <= i < |ss| ==> Str(ss[i]) < parent
    ensures JoinValues(seq(|ss|, i requires 0 <= i < |ss| => Str(ss[i])), sep, parent) == Join(ss, sep)
  {
    var items := seq(|ss|, i requires 0 <= i < |ss| => Str(ss[i]));
    if |ss| > 1 {
      JoinValuesStrings(ss[1..], sep, parent);
      assert items[1..] == seq(|ss[1..]|, i requires 0 <= i < |ss[1..]| => Str(ss[1..][i]));
    }
  }

  // ---- JSON.stringify ----

  function HexChar(d: nat): (c: char)
    requires d < 16
  {
    if d < 10 then ('0' as int + d) as char else ('a' as int + d - 10) as char
  }

  function HexValue(c: char): int
  {
    if '0' <= c <= '9' then c as int - '0' as int
    else if 'a' <= c <= 'f' then c as int - 'a' as int + 10
    else if 'A' <= c <= 'F' then c as int - 'A' as int + 10
    else -1
  }

  /** How JSON.stringify writes one character of a string (section 7 of
      RFC 8259, with ECMAScript's choice of short escapes and lower-case
      hexadecimal digits). */
  function EscapeChar(c: char): (e: string)
    ensures |e| >= 1
  {
    if c == '"' then "\\\""
    else if c == '\\' then "\\\\"
    else if c as int == 0x08 then "\\b"
    else if c as int == 0x0C then "\\f"
    else if c == '\n' then "\\n"
    else if c == '\r' then "\\r"
    else if c == '\t' then "\\t"
    else if c as int < 0x20 then "\\u00" + [HexChar(c as int / 16), HexChar(c as int % 16)]
    else [c]
  }

  function Escape(s: string): string
  {
    if |s| == 0 then "" else EscapeChar(s[0]) + Escape(s[1..])
  }

  /** A string with no quote, backslash or control character is written
      as it is. */
  lemma {:induction false} EscapePlain(s: string)
    requires forall i :: 0 <= i < |s| ==> s[i] as int >= 0x20 && s[i] != '"' && s[i] != '\\'
    ensures Escape(s) == s
  {
    if |s| > 0 {
      EscapePlain(s[1..]);
      assert s == [s[0]] + s[1..];
    }
  }

  /** JSON.stringify of a string. */
  function Quote(s: string): string
  {
    "\"" + Escape(s) + "\""
  }

  function Cons(c: char, r: Option<string>): Option<string>
  {
    match r
    case Some(t) => Some([c] + t)
    case None => None
  }

  /** Reads the body of a JSON string literal (JSON.parse's side). */
  function Unescape(e: string): Option<string>
    decreases |e|
  {
    if |e| == 0 then Some("")
    else if e[0] == '\\' then
      if |e| < 2 then None
      else if e[1] == '"' then Cons('"', Unescape(e[2..]))
      else if e[1] == '\\' then Cons('\\', Unescape(e[2..]))
      else if e[1] == '/' then Cons('/', Unescape(e[2..]))
      else if e[1] == 'b' then Cons(0x08 as char, Unescape(e[2..]))
      else if e[1] == 'f' then Cons(0x0C as char, Unescape(e[2..]))
      else if e[1] == 'n' then Cons('\n', Unescape(e[2..]))
      else if e[1] == 'r' then Cons('\r', Unescape(e[2..]))
      else if e[1] == 't' then Cons('\t', Unescape(e[2..]))
      else if e[1] == 'u' && |e| >= 6
        && HexValue(e[2]) >= 0 && HexValue(e[3]) >= 0 && HexValue(e[4]) >= 0 && HexValue(e[5]) >= 0 then
        var code := ((HexValue(e[2]) * 16 + HexValue(e[3])) * 16 + HexValue(e[4])) * 16 + HexValue(e[5]);
        // a lone surrogate is no character of its own
        if 0xD800 <= code < 0xE000 then None
        else Cons(code as char, Unescape(e[6..]))
      else None
    else if e[0] == '"' || e[0] as int < 0x20 then None
    else Cons(e[0], Unescape(e[1..]))
  }

  function Unquote(t: string): Option<string>
  {
    if |t| >= 2 && t[0] == '"' && t[|t| - 1] == '"' then Unescape(t[1..|t| - 1]) else None
  }

  lemma UnescapeChar(c: char, rest: string)
    ensures Unescape(EscapeChar(c) + rest) == Cons(c, Unescape(rest))
  {
    var e := EscapeChar(c) + rest;
    if c as int < 0x20 && c as int !in {0x08, 0x0C, 0x0A, 0x0D, 0x09} {
      var h1, h2 := HexChar(c as int / 16), HexChar(c as int % 16);
      assert EscapeChar(c) == "\\u00" + [h1, h2];
      assert e[2] == '0' && e[3] == '0' && e[4] == h1 && e[5] == h2;
      assert e[2..6] == "00" + [h1, h2];
      assert e[6..] == rest;
    } else if |EscapeChar(c)| == 2 {
      assert e[2..] == rest;
    } else {
      assert e[1..] == rest;
    }
  }

  lemma {:induction false} UnescapeEscape(s: string)
    ensures Unescape(Escape(s)) == Some(s)
  {
    if |s| > 0 {
      UnescapeEscape(s[1..]);
      UnescapeChar(s[0], Escape(s[1..]));
      assert s == [s[0]] + s[1..];
    }
  }

  /** JSON.stringify of a string can be read back: the quoting loses nothing. */
  lemma UnquoteQuote(s: string)
    ensures Unquote(Quote(s)) == Some(s)
  {
    var t := Quote(s);
    assert t[1..|t| - 1] == Escape(s);
    UnescapeEscape(s);
  }

  /** JSON.stringify(v) inside an array or object, where undefined is
      written as null (ECMAScript SerializeJSONArray). */
  function StringifyIn(v: Json): string
    decreases v, 1
  {
    match v
    case Undefined => "null"
    case Null => "null"
    case Bool(b) => if b then "true" else "false"
    case Num(n) => IntToDecimal(n)
    case Str(s) => Quote(s)
    case Date(iso) => Quote(iso)
    case Oid(hex) => Quote(hex)
    case Arr(items) => "[" + StringifyItems(items, v) + "]"
    case Obj(ms) => "{" + StringifyMembers(ms, v) + "}"
  }

  function StringifyItems(items: seq<Json>, ghost parent: Json): string
    requires forall i :: 0 <= i < |items| ==> items[i] < parent
    decreases parent, 0, |items|
  {
    if |items| == 0 then ""
    else if |items| == 1 then StringifyIn(items[0])
    else StringifyIn(items[0]) + "," + StringifyItems(items[1..], parent)
  }

  /** Members whose value is undefined are skipped. */
  function StringifyMembers(ms: seq<Member>, ghost parent: Json): string
    requires forall i :: 0 <= i < |ms| ==> ms[i].value < parent
    decreases parent, 0, |ms|
  {
    if |ms| == 0 then ""
    else
      var rest := StringifyMembers(ms[1..], parent);
      if ms[0].value == Undefined then rest
      else
        var here := Quote(ms[0].key) + ":" + StringifyIn(ms[0].value);
        if rest == "" then here else here + "," + rest
  }

  /** JSON.stringify(v) at top level: undefined has no JSON text. */
  function Stringify(v: Json): (r: Option<string>)
    ensures v == Undefined <==> r == None
    ensures v != Undefined ==> r == Some(StringifyIn(v))
  {
    if v == Undefined then None else Some(StringifyIn(v))
  }

  // ---- JSON text has no raw line breaks ----

  ghost predicate NoNewline(s: string) {
    forall i :: 0 <= i < |s| ==> s[i] != '\n'
  }

  lemma NoNewlineConcat(a: string, b: string)
    requires NoNewline(a) && NoNewline(b)
    ensures NoNewline(a + b)
  {
    forall i | 0 <= i < |a + b| ensures (a + b)[i] != '\n' {
      if i >= |a| { assert (a + b)[i] == b[i - |a|]; }
    }
  }

  lemma {:induction false} EscapeNoNewline(s: string)
    ensures NoNewline(Escape(s))
  {
    if |s| > 0 {
      EscapeNoNewline(s[1..]);
      NoNewlineConcat(EscapeChar(s[0]), Escape(s[1..]));
    }
  }

  lemma QuoteNoNewline(s: string)
    ensures NoNewline(Quote(s))
  {
    EscapeNoNewline(s);
    NoNewlineConcat("\"", Escape(s));
    NoNewlineConcat("\"" + Escape(s), "\"");
  }

  lemma DecimalNoNewline(n: int)
    ensures NoNewline(IntToDecimal(n))
  {
    var d := NatToDecimal(if n >= 0 then n else -n);
    assert forall i :: 0 <= i < |d| ==> IsDigit(d[i]);
    if n < 0 {
      NoNewlineConcat("-", d);
    }
  }

  /** JSON.stringify never emits a raw line break, whatever the value: line
      breaks inside strings come out escaped. */
  lemma {:induction false} StringifyNoNewline(v: Json)
    ensures NoNewline(StringifyIn(v))
    decreases v, 1
  {
    match v
    case Num(n) => DecimalNoNewline(n);
    case Str(s) => QuoteNoNewline(s);
    case Date(iso) => QuoteNoNewline(iso);
    case Oid(hex) => QuoteNoNewline(hex);
    case Arr(items) =>
      ItemsNoNewline(items, v);
      NoNewlineConcat("[", StringifyItems(items, v));
      NoNewlineConcat("[" + StringifyItems(items, v), "]");
    case Obj(ms) =>
      MembersNoNewline(ms, v);
      NoNewlineConcat("{", StringifyMembers(ms, v));
      NoNewlineConcat("{" + StringifyMembers(ms, v), "}");
    case _ =>
  }

  lemma {:induction false} ItemsNoNewline(items: seq<Json>, parent: Json)
    requires forall i :: 0 <= i < |items| ==> items[i] < parent
    ensures NoNewline(StringifyItems(items, parent))
    decreases parent, 0, |items|
  {
    if |items| > 0 {
      StringifyNoNewline(items[0]);
      if |items| > 1 {
        ItemsNoNewline(items[1..], parent);
        NoNewlineConcat(StringifyIn(items[0]), ",");
        NoNewlineConcat(StringifyIn(items[0]) + ",", StringifyItems(items[1..], parent));
      }
    }
  }

  lemma {:induction false} MembersNoNewline(ms: seq<Member>, parent: Json)
    requires forall i :: 0 <= i < |ms| ==> ms[i].value < parent
    ensures NoNewline(StringifyMembers(ms, parent))
    decreases parent, 0, |ms|
  {
    if |ms| > 0 {
      MembersNoNewline(ms[1..], parent);
      if ms[0].value != Undefined {
        var rest := StringifyMembers(ms[1..], parent);
        StringifyNoNewline(ms[0].value);
        QuoteNoNewline(ms[0].key);
        NoNewlineConcat(Quote(ms[0].key), ":");
        NoNewlineConcat(Quote(ms[0].key) + ":", StringifyIn(ms[0].value));
        var here := Quote(ms[0].key) + ":" + StringifyIn(ms[0].value);
        NoNewlineConcat(here, ",");
        NoNewlineConcat(here + ",", rest);
      }
    }
  }
}
