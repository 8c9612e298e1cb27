/** UTF-8 as `str::from_utf8` accepts it (RFC 3629).

A decoder that refuses overlong forms, surrogates and stray bytes, and the encoder
it inverts. Both the proxy, which decodes what arrives, and the audit log, whose
rotation counts bytes, rest on it.
*/
module Utf8 {
  import opened Rights

  type Byte = b: int | 0 <= b < 256

  function EncodeChar(c: char): (r: seq<Byte>)
    ensures 1 <= |r| <= 4
  {
    var n := c as int;
    if n < 0x80 then [n]
    else if n < 0x800 then [0xC0 + n / 0x40, 0x80 + n % 0x40]
    else if n < 0x1_0000 then [0xE0 + n / 0x1000, 0x80 + n / 0x40 % 0x40, 0x80 + n % 0x40]
    else [0xF0 + n / 0x4_0000, 0x80 + n / 0x1000 % 0x40, 0x80 + n / 0x40 % 0x40, 0x80 + n % 0x40]
  }

  function Encode(s: string): seq<Byte> {
    if s == "" then [] else EncodeChar(s[0]) + Encode(s[1..])
  }

  predicate Follows(b: Byte) {
    0x80 <= b < 0xC0
  }

  predicate IsScalar(n: int) {
    0 <= n < 0xD800 || 0xE000 <= n < 0x11_0000
  }

  /** Six more bits of a code point, from a byte with the given marker. */
  function Joined(high: int, b: int, marker: int): int {
    high * 0x40 + (b - marker)
  }

  /** The first character and its length; overlong forms and surrogates are refused. */
  function FirstChar(b: seq<Byte>): (r: Option<(char, nat)>)
    ensures r.Some? ==> 1 <= r.value.1 <= |b|
  {
    if b == [] then None
    else if b[0] < 0x80 then Some((b[0] as char, 1))
    else if 0xC0 <= b[0] < 0xE0 && |b| >= 2 && Follows(b[1]) then
      var n := Joined(Joined(0, b[0], 0xC0), b[1], 0x80);
      if n >= 0x80 then Some((n as char, 2)) else None
    else if 0xE0 <= b[0] < 0xF0 && |b| >= 3 && Follows(b[1]) && Follows(b[2]) then
      var n := Joined(Joined(Joined(0, b[0], 0xE0), b[1], 0x80), b[2], 0x80);
      if n >= 0x800 && IsScalar(n) then Some((n as char, 3)) else None
    else if 0xF0 <= b[0] < 0xF8 && |b| >= 4 && Follows(b[1]) && Follows(b[2]) && Follows(b[3]) then
      var n := Joined(Joined(Joined(Joined(0, b[0], 0xF0), b[1], 0x80), b[2], 0x80), b[3], 0x80);
      if n >= 0x1_0000 && IsScalar(n) then Some((n as char, 4)) else None
    else None
  }

  function Decode(b: seq<Byte>): Option<string>
    decreases |b|
  {
    if b == [] then Some("")
    else
      var first := FirstChar(b);
      if first.None? then None
      else
        var rest := Decode(b[first.value.1..]);
        if rest.None? then None else Some([first.value.0] + rest.value)
  }

  lemma {:induction false} FirstOfEncoded(c: char, rest: seq<Byte>)
    ensures FirstChar(EncodeChar(c) + rest) == Some((c, |EncodeChar(c)|))
  {
    var n := c as int;
    assert n == n / 0x40 * 0x40 + n % 0x40;
    assert n / 0x40 == n / 0x1000 * 0x40 + n / 0x40 % 0x40;
    assert n / 0x1000 == n / 0x4_0000 * 0x40 + n / 0x1000 % 0x40;
  }

  lemma JoinedSplits(high: int, b: int)
    requires 0x80 <= b < 0xC0
    ensures Joined(high, b, 0x80) / 0x40 == high && 0x80 + Joined(high, b, 0x80) % 0x40 == b
  {
  }

  lemma Quotients(n: nat)
    ensures n / 0x1000 == n / 0x40 / 0x40 && n / 0x4_0000 == n / 0x40 / 0x40 / 0x40
  {
  }

  lemma TwoSplit(a: Byte, b: Byte)
    requires Follows(b)
    ensures var n := Joined(Joined(0, a, 0xC0), b, 0x80);
            0xC0 + n / 0x40 == a && 0x80 + n % 0x40 == b
  {
    JoinedSplits(Joined(0, a, 0xC0), b);
  }

  lemma ThreeSplit(a: Byte, b: Byte, c: Byte)
    requires a >= 0xE0 && Follows(b) && Follows(c)
    ensures var n := Joined(Joined(Joined(0, a, 0xE0), b, 0x80), c, 0x80);
            0xE0 + n / 0x1000 == a && 0x80 + n / 0x40 % 0x40 == b && 0x80 + n % 0x40 == c
  {
    var h1 := Joined(0, a, 0xE0);
    var h2 := Joined(h1, b, 0x80);
    var n := Joined(h2, c, 0x80);
    JoinedSplits(h1, b);
    JoinedSplits(h2, c);
    assert h1 == a - 0xE0 && n >= 0;
    hide Joined;
    Quotients(n);
  }

  lemma FourSplit(a: Byte, b: Byte, c: Byte, d: Byte)
    requires a >= 0xF0 && Follows(b) && Follows(c) && Follows(d)
    ensures var n := Joined(Joined(Joined(Joined(0, a, 0xF0), b, 0x80), c, 0x80), d, 0x80);
            && 0xF0 + n / 0x4_0000 == a && 0x80 + n / 0x1000 % 0x40 == b
            && 0x80 + n / 0x40 % 0x40 == c && 0x80 + n % 0x40 == d
  {
    var h1 := Joined(0, a, 0xF0);
    var h2 := Joined(h1, b, 0x80);
    var h3 := Joined(h2, c, 0x80);
    var n := Joined(h3, d, 0x80);
    JoinedSplits(h1, b);
    JoinedSplits(h2, c);
    JoinedSplits(h3, d);
    assert h1 == a - 0xF0 && n >= 0;
    hide Joined;
    Quotients(n);
  }

  lemma EncodedFirst(b: seq<Byte>)
    requires FirstChar(b).Some?
    ensures EncodeChar(FirstChar(b).value.0) == b[..FirstChar(b).value.1]
  {
    if b[0] >= 0xF0 {
      FourSplit(b[0], b[1], b[2], b[3]);
    } else if b[0] >= 0xE0 {
      ThreeSplit(b[0], b[1], b[2]);
    } else if b[0] >= 0x80 {
      TwoSplit(b[0], b[1]);
    }
    hide Joined;
  }

  lemma {:induction false} EncodeAppend(s: string, t: string)
    ensures Encode(s + t) == Encode(s) + Encode(t)
  {
    if s == "" {
      assert s + t == t;
    } else {
      assert (s + t)[1..] == s[1..] + t;
      EncodeAppend(s[1..], t);
    }
  }

  lemma {:induction false} AsciiLength(s: string)
    requires forall i :: 0 <= i < |s| ==> s[i] as int < 0x80
    ensures |Encode(s)| == |s|
  {
    if s != "" {
      AsciiLength(s[1..]);
    }
  }

  lemma DecodeStep(c: char, rest: seq<Byte>)
    ensures Decode(EncodeChar(c) + rest) == if Decode(rest).None? then None else Some([c] + Decode(rest).value)
  {
    hide FirstChar, EncodeChar;
    FirstOfEncoded(c, rest);
    assert (EncodeChar(c) + rest)[|EncodeChar(c)|..] == rest;
  }

  /** Decoding starts over after a whole character string. */
  lemma {:induction false} DecodeAfter(s: string, rest: seq<Byte>)
    ensures Decode(Encode(s) + rest) == if Decode(rest).None? then None else Some(s + Decode(rest).value)
  {
    hide FirstChar, EncodeChar, Decode;
    if s == "" {
      assert Encode(s) + rest == rest;
      assert Decode(rest).Some? ==> s + Decode(rest).value == Decode(rest).value;
    } else {
      var more := Encode(s[1..]) + rest;
      assert Encode(s) + rest == EncodeChar(s[0]) + more;
      DecodeStep(s[0], more);
      DecodeAfter(s[1..], rest);
      assert Decode(rest).Some? ==> [s[0]] + (s[1..] + Decode(rest).value) == s + Decode(rest).value;
    }
  }

  lemma DecodeEncode(s: string)
    ensures Decode(Encode(s)) == Some(s)
  {
    DecodeAfter(s, []);
    assert Decode([]) == Some("");
    assert Encode(s) + [] == Encode(s) && s + "" == s;
  }

  /** Bytes are a text exactly when they are its encoding. */
  lemma {:induction false} DecodeIff(b: seq<Byte>, s: string)
    ensures Decode(b) == Some(s) <==> b == Encode(s)
    decreases |b|
  {
    hide FirstChar, EncodeChar;
    DecodeEncode(s);
    if Decode(b) == Some(s) {
      if b != [] {
        var k := FirstChar(b).value.1;
        EncodedFirst(b);
        DecodeIff(b[k..], s[1..]);
        assert b == b[..k] + b[k..];
      }
    }
  }
}
