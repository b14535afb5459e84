/** `randomString` and `randomAsciiString` of lib/utils.js.  The random
    bytes `Crypto.randomBytes(length)` returns are passed in. */
module Utils {
  import opened Wrappers

  newtype byte = x: int | 0 <= x < 256

  /** `bytes[0] + ... + bytes[n - 1]`. */
  function Sum(bytes: seq<byte>): (s: nat)
    ensures s <= 255 * |bytes|
  {
    if |bytes| == 0 then 0 else Sum(bytes[..|bytes| - 1]) + bytes[|bytes| - 1] as int
  }

  /** The characters `randomString` picks: the i-th is the character of
      `chars` at the running byte sum up to i, wrapped around `chars`. */
  function Picks(chars: string, bytes: seq<byte>): (r: string)
    requires |chars| > 0
    ensures |r| == |bytes|
  {
    if |bytes| == 0 then []
    else Picks(chars, bytes[..|bytes| - 1]) + [chars[Sum(bytes) % |chars|]]
  }

  /** `randomString(length, chars)`: an error when `chars` is empty or longer
      than 256 characters, the picked characters otherwise. */
  method RandomString(length: nat, chars: string, bytes: seq<byte>) returns (r: Result<string>)
    requires |bytes| == length
    ensures |chars| == 0 ==> r == Err(CharsUndefined)
    ensures |chars| > 256 ==> r == Err(CharsTooLong)
    ensures 0 < |chars| <= 256 ==> r == Ok(Picks(chars, bytes))
  {
    if |chars| == 0 {
      return Err(CharsUndefined);
    }
    if |chars| > 256 {
      return Err(CharsTooLong);
    }
    var result := [];
    var cursor := 0;
    for i := 0 to length
      invariant cursor == Sum(bytes[..i])
      invariant result == Picks(chars, bytes[..i])
    {
      assert bytes[..i + 1][..i] == bytes[..i];
      cursor := cursor + bytes[i] as int;
      result := result + [chars[cursor % |chars|]];
    }
    assert bytes[..length] == bytes;
    r := Ok(result);
  }

  /** Every picked character comes from `chars`. */
  lemma {:induction false} PicksFromAlphabet(chars: string, bytes: seq<byte>)
    requires |chars| > 0
    ensures forall i :: 0 <= i < |bytes| ==> Picks(chars, bytes)[i] in chars
    decreases |bytes|
  {
    if |bytes| > 0 {
      PicksFromAlphabet(chars, bytes[..|bytes| - 1]);
    }
  }

  /** The i-th character is `chars[(bytes[0] + ... + bytes[i]) % |chars|]`. */
  lemma {:induction false} PicksAt(chars: string, bytes: seq<byte>, i: nat)
    requires |chars| > 0 && i < |bytes|
    ensures Picks(chars, bytes)[i] == chars[Sum(bytes[..i + 1]) % |chars|]
    decreases |bytes|
  {
    if i < |bytes| - 1 {
      var init := bytes[..|bytes| - 1];
      PicksAt(chars, init, i);
      assert init[..i + 1] == bytes[..i + 1];
    } else {
      assert bytes[..i + 1] == bytes;
    }
  }

  /** The first n characters depend on the first n bytes only. */
  lemma {:induction false} PicksPrefix(chars: string, bytes: seq<byte>, n: nat)
    requires |chars| > 0 && n <= |bytes|
    ensures Picks(chars, bytes)[..n] == Picks(chars, bytes[..n])
    decreases |bytes|
  {
    if n < |bytes| {
      var init := bytes[..|bytes| - 1];
      PicksPrefix(chars, init, n);
      assert init[..n] == bytes[..n];
      assert Picks(chars, bytes)[..n] == Picks(chars, init)[..n];
    } else {
      assert bytes[..n] == bytes;
    }
  }

  const Lower: string := "abcdefghijklmnopqrstuvwxyz"
  const Upper: string := "ABCDEFGHIJKLMNOPQRSTUVWXYZ"
  const Digits: string := "0123456789"

  /** The alphabet of `randomAsciiString`. */
  const Alphanumeric: string := Lower + Upper + Digits

  predicate IsAlphanumeric(c: char) {
    ('a' <= c <= 'z') || ('A' <= c <= 'Z') || ('0' <= c <= '9')
  }

  lemma AlphanumericChars()
    ensures |Alphanumeric| == 62
    ensures forall i :: 0 <= i < |Alphanumeric| ==> IsAlphanumeric(Alphanumeric[i])
  {
    assert forall i :: 0 <= i < 26 ==> 'a' <= Lower[i] <= 'z';
    assert forall i :: 0 <= i < 26 ==> 'A' <= Upper[i] <= 'Z';
    assert forall i :: 0 <= i < 10 ==> '0' <= Digits[i] <= '9';
    forall i | 0 <= i < |Alphanumeric| ensures IsAlphanumeric(Alphanumeric[i]) {
      if i < 26 {
        assert Alphanumeric[i] == Lower[i];
      } else if i < 52 {
        assert Alphanumeric[i] == Upper[i - 26];
      } else {
        assert Alphanumeric[i] == Digits[i - 52];
      }
    }
  }

  /** `randomAsciiString(length)`: `length` letters and digits. */
  method RandomAsciiString(length: nat, bytes: seq<byte>) returns (s: string)
    requires |bytes| == length
    ensures s == Picks(Alphanumeric, bytes)
    ensures |s| == length
    ensures forall i :: 0 <= i < |s| ==> IsAlphanumeric(s[i])
  {
    AlphanumericChars();
    var r := RandomString(length, Alphanumeric, bytes);
    s := r.value;
    PicksFromAlphabet(Alphanumeric, bytes);
    forall i | 0 <= i < |s| ensures IsAlphanumeric(s[i]) {
      var j :| 0 <= j < |Alphanumeric| && Alphanumeric[j] == s[i];
    }
  }
}
