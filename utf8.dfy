/**
 * UTF-8 as `String::from_utf8` checks it: the bytes of a style sheet are
 * accepted only if they are the UTF-8 encoding of some string of Unicode
 * scalar values (no overlong forms, no surrogates, nothing above U+10FFFF).
 */
module Utf8 {
  import opened Results

  type byte = x: int | 0 <= x < 256

  /** The one to four bytes that encode `c`. */
  function EncodeChar(c: char): (bs: seq<byte>)
    ensures 1 <= |bs| <= 4
  {
    var n := c as int;
    if n < 0x80 then [n]
    else if n < 0x800 then [0xC0 + n / 64, 0x80 + n % 64]
    else if n < 0x10000 then [0xE0 + n / 4096, 0x80 + (n / 64) % 64, 0x80 + n % 64]
    else [0xF0 + n / 262144, 0x80 + (n / 4096) % 64, 0x80 + (n / 64) % 64, 0x80 + n % 64]
  }

  function Encode(s: string): seq<byte>
  {
    if s == [] then [] else EncodeChar(s[0]) + Encode(s[1..])
  }

  predicate IsContinuation(b: byte)
  {
    0x80 <= b < 0xC0
  }

  /** The six payload bits of a continuation byte. */
  function Low(b: byte): int
  {
    b as int - 0x80
  }

  /** The character at the front of `bs` and the number of bytes it takes, if they are well formed. */
  function DecodeChar(bs: seq<byte>): (r: Option<(char, nat)>)
    requires bs != []
    ensures r.Some? ==> 1 <= r.value.1 <= |bs| && r.value.1 <= 4
  {
    var b0: int := bs[0];
    if b0 < 0x80 then Some((b0 as char, 1))
    else if b0 < 0xC2 then None
    else if b0 < 0xE0 then
      if |bs| < 2 || !IsContinuation(bs[1]) then None
      else Some((((b0 - 0xC0) * 64 + Low(bs[1])) as char, 2))
    else if b0 < 0xF0 then
      if |bs| < 3 || !IsContinuation(bs[1]) || !IsContinuation(bs[2]) then None
      else
        var n := (b0 - 0xE0) * 4096 + Low(bs[1]) * 64 + Low(bs[2]);
        if n < 0x800 || 0xD800 <= n < 0xE000 then None else Some((n as char, 3))
    else if b0 < 0xF5 then
      if |bs| < 4 || !IsContinuation(bs[1]) || !IsContinuation(bs[2]) || !IsContinuation(bs[3]) then None
      else
        var n := (b0 - 0xF0) * 262144 + Low(bs[1]) * 4096 + Low(bs[2]) * 64 + Low(bs[3]);
        if n < 0x10000 || 0x110000 <= n then None else Some((n as char, 4))
    else None
  }

  /** `String::from_utf8`: the decoded string, or None when the bytes are not valid UTF-8. */
  function Decode(bs: seq<byte>): Option<string>
    decreases |bs|
  {
    if bs == [] then Some([])
    else match DecodeChar(bs)
      case None => None
      case Some((c, k)) =>
        match Decode(bs[k..])
        case None => None
        case Some(s) => Some([c] + s)
  }

  // Base-64 digit arithmetic behind the multi-byte forms.

  lemma DigitsOf(n: int)
    requires 0 <= n
    ensures n == (n / 262144) * 262144 + ((n / 4096) % 64) * 4096 + ((n / 64) % 64) * 64 + n % 64
    ensures n / 4096 == (n / 262144) * 64 + (n / 4096) % 64
  {
    var q1 := n / 64;
    var q2 := q1 / 64;
    assert n == q1 * 64 + n % 64;
    assert q1 == q2 * 64 + q1 % 64;
    assert q2 == n / 4096;
    assert q2 == (q2 / 64) * 64 + q2 % 64;
    assert q2 / 64 == n / 262144;
  }

  lemma FromDigits(a: int, b: int, d: int, e: int)
    requires 0 <= a && 0 <= b < 64 && 0 <= d < 64 && 0 <= e < 64
    ensures var n := a * 262144 + b * 4096 + d * 64 + e;
      n / 262144 == a && (n / 4096) % 64 == b && (n / 64) % 64 == d && n % 64 == e &&
      n / 4096 == a * 64 + b && n / 64 == a * 4096 + b * 64 + d
  {
    var n := a * 262144 + b * 4096 + d * 64 + e;
    assert n / 64 == a * 4096 + b * 64 + d;
    assert n / 4096 == a * 64 + b;
  }

  lemma DecodeEncodedChar(c: char, rest: seq<byte>)
    ensures DecodeChar(EncodeChar(c) + rest) == Some((c, |EncodeChar(c)|))
  {
    var n := c as int;
    var bs := EncodeChar(c) + rest;
    DigitsOf(n);
    if n < 0x80 {
    } else if n < 0x800 {
      assert (bs[0] as int - 0xC0) * 64 + Low(bs[1]) == n;
    } else if n < 0x10000 {
      assert (bs[0] as int - 0xE0) * 4096 + Low(bs[1]) * 64 + Low(bs[2]) == n;
    } else {
      assert (bs[0] as int - 0xF0) * 262144 + Low(bs[1]) * 4096 + Low(bs[2]) * 64 + Low(bs[3]) == n;
    }
  }

  lemma EncodeDecodedChar(bs: seq<byte>)
    requires bs != [] && DecodeChar(bs).Some?
    ensures EncodeChar(DecodeChar(bs).value.0) == bs[..DecodeChar(bs).value.1]
  {
    var c := DecodeChar(bs).value.0;
    var n := c as int;
    var b0: int := bs[0];
    if b0 < 0x80 {
    } else if b0 < 0xE0 {
      FromDigits(0, 0, b0 - 0xC0, Low(bs[1]));
      assert EncodeChar(c) == [bs[0], bs[1]];
    } else if b0 < 0xF0 {
      FromDigits(0, b0 - 0xE0, Low(bs[1]), Low(bs[2]));
      assert EncodeChar(c) == [bs[0], bs[1], bs[2]];
    } else {
      FromDigits(b0 - 0xF0, Low(bs[1]), Low(bs[2]), Low(bs[3]));
      assert EncodeChar(c) == [bs[0], bs[1], bs[2], bs[3]];
    }
  }

  /** Decoding undoes encoding. */
  lemma {:induction false} DecodeEncode(s: string)
    ensures Decode(Encode(s)) == Some(s)
  {
    if s != [] {
      var e := EncodeChar(s[0]);
      DecodeEncodedChar(s[0], Encode(s[1..]));
      assert (e + Encode(s[1..]))[|e|..] == Encode(s[1..]);
      DecodeEncode(s[1..]);
      assert [s[0]] + s[1..] == s;
    }
  }

  /** Whatever decodes re-encodes to the same bytes. */
  lemma {:induction false} EncodeDecode(bs: seq<byte>)
    requires Decode(bs).Some?
    ensures Encode(Decode(bs).value) == bs
    decreases |bs|
  {
    if bs != [] {
      var k := DecodeChar(bs).value.1;
      EncodeDecodedChar(bs);
      EncodeDecode(bs[k..]);
      assert bs[..k] + bs[k..] == bs;
    }
  }

  /** The bytes are rejected exactly when no string encodes to them. */
  lemma RejectedIffNoEncoding(bs: seq<byte>)
    ensures Decode(bs).None? <==> forall s :: Encode(s) != bs
  {
    if Decode(bs).Some? {
      EncodeDecode(bs);
    } else {
      forall s ensures Encode(s) != bs {
        DecodeEncode(s);
      }
    }
  }
}
