/** JSON text: how the service writes the audit log and how a reader takes any JSON apart.

Strings follow section 7 of RFC 8259, numbers section 6, blanks section 2. The log
itself holds objects, strings, whole numbers and null; everything else a reader may meet in it.
*/
module Json {
  import opened Rights

  datatype Value =
    | Null
    | Flag(b: bool)
    | Number(n: nat)
    | Fractional(whole: nat, part: Part)
    | Negative(whole: nat, end: End)
    | Text(s: string)
    | Array(items: Items)
    | Object(members: Members)

  datatype Items = NoItems | Item(value: Value, tail: Items)

  datatype Members = NoMembers | Field(name: string, value: Value, tail: Members)

  /** The fraction and the exponent that may end a number. */
  type End = s: string | Ending(s) == Some(|s|)
    witness ""

  type Part = s: string | s != "" && Ending(s) == Some(|s|)
    witness ".0"

  /** The value a name is bound to; a repeated name keeps its last value. */
  function Lookup(members: Members, name: string): Option<Value> {
    match members
    case NoMembers => None
    case Field(n, v, tail) =>
      var later := Lookup(tail, name);
      if later.None? && n == name then Some(v) else later
  }

  // ---- Writing ----

  /** Unicode general category Cc. */
  predicate IsControl(c: char) {
    c as int < 0x20 || 0x7F <= c as int <= 0x9F
  }

  const HEX := "0123456789abcdef"

  function EscapeChar(c: char): string {
    if c == '"' then "\\\""
    else if c == '\\' then "\\\\"
    else if c == '\n' then "\\n"
    else if c == '\r' then "\\r"
    else if c == '\t' then "\\t"
    else if IsControl(c) then ['\\', 'u', '0', '0', HEX[c as int / 16], HEX[c as int % 16]]
    else [c]
  }

  function Escape(s: string): string {
    if s == "" then "" else EscapeChar(s[0]) + Escape(s[1..])
  }

  lemma {:induction false} EscapeAppend(s: string, c: char)
    ensures Escape(s + [c]) == Escape(s) + EscapeChar(c)
  {
    if s == "" {
      assert (s + [c])[1..] == "";
      assert Escape(s + [c]) == EscapeChar(c) + Escape("");
    } else {
      EscapeAppend(s[1..], c);
      assert (s + [c])[1..] == s[1..] + [c];
      assert EscapeChar(s[0]) + (Escape(s[1..]) + EscapeChar(c)) == EscapeChar(s[0]) + Escape(s[1..]) + EscapeChar(c);
    }
  }

  lemma EscapeNothing()
    ensures Escape("") == ""
  {
  }

  method EscapeJson(s: string) returns (out: string)
    ensures out == Escape(s)
  {
    hide Escape;
    out := "";
    EscapeNothing();
    for i := 0 to |s|
      invariant out == Escape(s[..i])
    {
      EscapeAppend(s[..i], s[i]);
      assert s[..i + 1] == s[..i] + [s[i]];
      if s[i] == '"' {
        out := out + "\\\"";
      } else if s[i] == '\\' {
        out := out + "\\\\";
      } else if s[i] == '\n' {
        out := out + "\\n";
      } else if s[i] == '\r' {
        out := out + "\\r";
      } else if s[i] == '\t' {
        out := out + "\\t";
      } else if IsControl(s[i]) {
        out := out + ['\\', 'u', '0', '0', HEX[s[i] as int / 16], HEX[s[i] as int % 16]];
      } else {
        out := out + [s[i]];
      }
    }
    assert s[..|s|] == s;
  }

  function Decimal(n: nat): string {
    if n < 10 then [HEX[n]] else Decimal(n / 10) + [HEX[n % 10]]
  }

  function Quote(s: string): string {
    ['"'] + Escape(s) + ['"']
  }

  function Print(v: Value): string {
    match v
    case Null => "null"
    case Flag(b) => if b then "true" else "false"
    case Number(n) => Decimal(n)
    case Fractional(n, part) => Decimal(n) + part
    case Negative(n, end) => ['-'] + (Decimal(n) + end)
    case Text(s) => Quote(s)
    case Array(items) => ['['] + PrintItems(items) + [']']
    case Object(ms) => ['{'] + PrintMembers(ms) + ['}']
  }

  function PrintItems(items: Items): string {
    match items
    case NoItems => ""
    case Item(v, tail) => Print(v) + (if tail.NoItems? then "" else [','] + PrintItems(tail))
  }

  function PrintMembers(ms: Members): string {
    match ms
    case NoMembers => ""
    case Field(name, v, tail) =>
      Quote(name) + [':'] + Print(v) + (if tail.NoMembers? then "" else [','] + PrintMembers(tail))
  }

  // ---- Reading ----

  predicate IsBlank(c: char) {
    c == ' ' || c == '\t' || c == '\n' || c == '\r'
  }

  function Skip(s: string): (r: string)
    ensures |r| <= |s|
  {
    if s != "" && IsBlank(s[0]) then Skip(s[1..]) else s
  }

  predicate IsDigit(c: char) {
    '0' <= c <= '9'
  }

  function HexValue(c: char): Option<nat> {
    if IsDigit(c) then Some(c as int - '0' as int)
    else if 'a' <= c <= 'f' then Some(c as int - 'a' as int + 10)
    else if 'A' <= c <= 'F' then Some(c as int - 'A' as int + 10)
    else None
  }

  /** The code unit that four hexadecimal digits at the front of `s` spell. */
  function CodeUnit(s: string): (r: Option<nat>)
    ensures r.Some? ==> |s| >= 4 && r.value < 0x1_0000
  {
    if |s| < 4 || HexValue(s[0]).None? || HexValue(s[1]).None? || HexValue(s[2]).None? || HexValue(s[3]).None? then None
    else
      Some(HexValue(s[0]).value * 0x1000 + HexValue(s[1]).value * 0x100
           + HexValue(s[2]).value * 0x10 + HexValue(s[3]).value)
  }

  /** A character outside the surrogates, or one that two surrogates spell together. */
  function Unicode(s: string): (r: Option<(char, string)>)
    ensures r.Some? ==> |r.value.1| < |s|
  {
    var unit := CodeUnit(s);
    if unit.None? then None
    else if unit.value < 0xD800 || 0xE000 <= unit.value then Some((unit.value as char, s[4..]))
    else if unit.value < 0xDC00 && |s| >= 6 && s[4] == '\\' && s[5] == 'u' then
      var low := CodeUnit(s[6..]);
      if low.Some? && 0xDC00 <= low.value < 0xE000 then
        Some(((0x1_0000 + (unit.value - 0xD800) * 0x400 + (low.value - 0xDC00)) as char, s[10..]))
      else None
    else None
  }

  /** What follows a backslash. */
  function Unescape(s: string): (r: Option<(char, string)>)
    ensures r.Some? ==> |r.value.1| < |s|
  {
    if s == "" then None
    else if s[0] == '"' || s[0] == '\\' || s[0] == '/' then Some((s[0], s[1..]))
    else if s[0] == 'b' then Some((8 as char, s[1..]))
    else if s[0] == 'f' then Some((12 as char, s[1..]))
    else if s[0] == 'n' then Some(('\n', s[1..]))
    else if s[0] == 'r' then Some(('\r', s[1..]))
    else if s[0] == 't' then Some(('\t', s[1..]))
    else if s[0] == 'u' then Unicode(s[1..])
    else None
  }

  /** The rest of a string whose opening quote has been read. */
  function ReadString(s: string): (r: Option<(string, string)>)
    ensures r.Some? ==> |r.value.1| < |s|
    decreases |s|
  {
    if s == "" then None
    else if s[0] == '"' then Some(("", s[1..]))
    else if s[0] as int < 0x20 then None
    else
      var first := if s[0] == '\\' then Unescape(s[1..]) else Some((s[0], s[1..]));
      if first.None? then None
      else
        var more := ReadString(first.value.1);
        if more.None? then None else Some(([first.value.0] + more.value.0, more.value.1))
  }

  function Digits(s: string): (k: nat)
    ensures k <= |s|
    ensures forall i :: 0 <= i < k ==> IsDigit(s[i])
  {
    if s != "" && IsDigit(s[0]) then 1 + Digits(s[1..]) else 0
  }

  function DecimalValue(d: string): nat
    requires forall i :: 0 <= i < |d| ==> IsDigit(d[i])
  {
    if d == "" then 0
    else
      assert IsDigit(d[|d| - 1]);
      DecimalValue(d[..|d| - 1]) * 10 + (d[|d| - 1] as int - '0' as int)
  }

  /** The length of the fraction at the front, if what is there is none or a proper one. */
  function Fraction(s: string): (r: Option<nat>)
    ensures r.Some? ==> r.value <= |s|
  {
    if s == "" || s[0] != '.' then Some(0)
    else
      var k := Digits(s[1..]);
      if k == 0 then None else Some(1 + k)
  }

  function Exponent(s: string): (r: Option<nat>)
    ensures r.Some? ==> r.value <= |s|
  {
    if s == "" || (s[0] != 'e' && s[0] != 'E') then Some(0)
    else
      var sign := if |s| > 1 && (s[1] == '+' || s[1] == '-') then 2 else 1;
      var k := Digits(s[sign..]);
      if k == 0 then None else Some(sign + k)
  }

  /** The length of the fraction and the exponent at the front. */
  function Ending(s: string): (r: Option<nat>)
    ensures r.Some? ==> r.value <= |s|
  {
    var f := Fraction(s);
    if f.None? then None
    else
      var e := Exponent(s[f.value..]);
      if e.None? then None else Some(f.value + e.value)
  }

  function ReadNumber(s: string): (r: Option<(Value, string)>)
    ensures r.Some? ==> |r.value.1| < |s|
  {
    var minus := if s != "" && s[0] == '-' then 1 else 0;
    var digits := s[minus..];
    var k := Digits(digits);
    if k == 0 || (k > 1 && digits[0] == '0') then None
    else
      var n, after := DecimalValue(digits[..k]), digits[k..];
      var e := Ending(after);
      if e.None? then None
      else
        var end, rest := after[..e.value], after[e.value..];
        EndingOfEnding(after);
        Some((if minus == 1 then Negative(n, end) else if end == "" then Number(n) else Fractional(n, end), rest))
  }

  lemma {:induction false} DigitsOfPrefix(s: string, k: nat)
    requires Digits(s) <= k <= |s|
    ensures Digits(s[..k]) == Digits(s)
  {
    if s != "" && IsDigit(s[0]) {
      DigitsOfPrefix(s[1..], k - 1);
      assert s[..k][1..] == s[1..][..k - 1];
    }
  }

  lemma FractionOfPrefix(s: string, k: nat)
    requires Fraction(s).Some? && Fraction(s).value <= k <= |s|
    ensures Fraction(s[..k]) == Fraction(s)
  {
    if Fraction(s).value > 0 {
      DigitsOfPrefix(s[1..], k - 1);
      assert s[..k][1..] == s[1..][..k - 1];
    }
  }

  lemma ExponentOfPrefix(s: string)
    requires Exponent(s).Some?
    ensures Exponent(s[..Exponent(s).value]) == Exponent(s)
  {
    var k := Exponent(s).value;
    if k > 0 {
      var sign := if |s| > 1 && (s[1] == '+' || s[1] == '-') then 2 else 1;
      DigitsOfPrefix(s[sign..], k - sign);
      assert s[..k][sign..] == s[sign..][..k - sign];
    }
  }

  /** What ends a number, cut off where it ends, ends it whole. */
  lemma EndingOfEnding(s: string)
    requires Ending(s).Some?
    ensures Ending(s[..Ending(s).value]) == Ending(s)
  {
    var f, k := Fraction(s).value, Ending(s).value;
    FractionOfPrefix(s, k);
    ExponentOfPrefix(s[f..]);
    assert s[..k][f..] == s[f..][..k - f];
  }

  function ReadValue(text: string): (r: Option<(Value, string)>)
    ensures r.Some? ==> |r.value.1| < |text|
    decreases |text|, 0
  {
    var s := Skip(text);
    if s == "" then None
    else if s[0] == '[' then
      var inner := Skip(s[1..]);
      if inner != "" && inner[0] == ']' then Some((Array(NoItems), inner[1..]))
      else
        var items := ReadItems(s[1..]);
        if items.None? then None else Some((Array(items.value.0), items.value.1))
    else if s[0] == '"' then
      var t := ReadString(s[1..]);
      if t.None? then None else Some((Text(t.value.0), t.value.1))
    else if s[0] == '{' then
      var inner := Skip(s[1..]);
      if inner != "" && inner[0] == '}' then Some((Object(NoMembers), inner[1..]))
      else
        var ms := ReadMembers(s[1..]);
        if ms.None? then None else Some((Object(ms.value.0), ms.value.1))
    else if IsDigit(s[0]) || s[0] == '-' then ReadNumber(s)
    else if |s| >= 4 && s[..4] == "null" then Some((Null, s[4..]))
    else if |s| >= 4 && s[..4] == "true" then Some((Flag(true), s[4..]))
    else if |s| >= 5 && s[..5] == "false" then Some((Flag(false), s[5..]))
    else None
  }

  /** One or more items and the closing bracket. */
  function ReadItems(text: string): (r: Option<(Items, string)>)
    ensures r.Some? ==> |r.value.1| < |text|
    decreases |text|, 1
  {
    var v := ReadValue(text);
    if v.None? then None
    else
      var next := Skip(v.value.1);
      if next == "" then None
      else if next[0] == ']' then Some((Item(v.value.0, NoItems), next[1..]))
      else if next[0] == ',' then
        var tail := ReadItems(next[1..]);
        if tail.None? then None else Some((Item(v.value.0, tail.value.0), tail.value.1))
      else None
  }

  /** One or more members and the closing brace. */
  function ReadMembers(text: string): (r: Option<(Members, string)>)
    ensures r.Some? ==> |r.value.1| < |text|
    decreases |text|, 1
  {
    var s := Skip(text);
    if s == "" || s[0] != '"' then None
    else
      var name := ReadString(s[1..]);
      if name.None? then None
      else
        var colon := Skip(name.value.1);
        if colon == "" || colon[0] != ':' then None
        else
          var v := ReadValue(colon[1..]);
          if v.None? then None
          else
            var next := Skip(v.value.1);
            if next == "" then None
            else if next[0] == '}' then
              Some((Field(name.value.0, v.value.0, NoMembers), next[1..]))
            else if next[0] == ',' then
              var tail := ReadMembers(next[1..]);
              if tail.None? then None else Some((Field(name.value.0, v.value.0, tail.value.0), tail.value.1))
            else None
  }

  /** A whole text: one value and nothing after it but blanks. */
  function Parse(text: string): Option<Value> {
    var r := ReadValue(text);
    if r.Some? && Skip(r.value.1) == "" then Some(r.value.0) else None
  }

  // ---- What is written reads back ----

  lemma UnicodeOfControl(c: char, rest: string)
    requires IsControl(c)
    ensures Unicode(['0', '0', HEX[c as int / 16], HEX[c as int % 16]] + rest) == Some((c, rest))
  {
    var s := ['0', '0', HEX[c as int / 16], HEX[c as int % 16]] + rest;
    HexDigitReads(c as int / 16);
    HexDigitReads(c as int % 16);
    assert CodeUnit(s) == Some(c as int);
    assert s[4..] == rest;
  }

  lemma HexDigitReads(n: nat)
    requires n < 16
    ensures HexValue(HEX[n]) == Some(n) && !IsControl(HEX[n])
    ensures n < 10 ==> IsDigit(HEX[n]) && HEX[n] as int - '0' as int == n
  {
  }

  lemma {:induction false} ReadEscapedChar(c: char, rest: string)
    ensures var s := EscapeChar(c) + rest;
            && s[0] != '"' && s[0] as int >= 0x20
            && (if s[0] == '\\' then Unescape(s[1..]) else Some((s[0], s[1..]))) == Some((c, rest))
  {
    var s := EscapeChar(c) + rest;
    if c == '"' || c == '\\' || c == '\n' || c == '\r' || c == '\t' {
      assert s[1..][1..] == rest;
    } else if IsControl(c) {
      assert s[1..][1..] == ['0', '0', HEX[c as int / 16], HEX[c as int % 16]] + rest;
      UnicodeOfControl(c, rest);
    } else {
      assert s[1..] == rest;
    }
  }

  lemma {:induction false} ReadEscaped(s: string, rest: string)
    ensures ReadString(Escape(s) + ['"'] + rest) == Some((s, rest))
  {
    var t := Escape(s) + ['"'] + rest;
    if s == "" {
      assert t[1..] == rest;
    } else {
      var tail := Escape(s[1..]) + ['"'] + rest;
      assert t == EscapeChar(s[0]) + tail;
      ReadEscapedChar(s[0], tail);
      ReadEscaped(s[1..], rest);
      assert [s[0]] + s[1..] == s;
    }
  }

  predicate EndsNumber(rest: string) {
    rest == "" || !(IsDigit(rest[0]) || rest[0] == '.' || rest[0] == 'e' || rest[0] == 'E')
  }

  lemma {:induction false} DecimalReads(n: nat)
    ensures var d := Decimal(n);
            && d != "" && (forall i :: 0 <= i < |d| ==> IsDigit(d[i])) && DecimalValue(d) == n
            && (d[0] == '0' ==> |d| == 1)
    ensures n > 0 ==> Decimal(n)[0] != '0'
  {
    HexDigitReads(n % 10);
    if n < 10 {
      assert Decimal(n)[..0] == "";
    } else {
      DecimalReads(n / 10);
      assert Decimal(n)[..|Decimal(n)| - 1] == Decimal(n / 10);
    }
  }

  /** What does not continue a number does not lengthen its digits. */
  lemma {:induction false} DigitsThenRest(s: string, rest: string)
    requires rest == "" || !IsDigit(rest[0])
    ensures Digits(s + rest) == Digits(s)
  {
    if s == "" {
      assert s + rest == rest;
    } else if IsDigit(s[0]) {
      assert (s + rest)[1..] == s[1..] + rest;
      DigitsThenRest(s[1..], rest);
    }
  }

  lemma {:induction false} AllDigits(d: string)
    requires forall i :: 0 <= i < |d| ==> IsDigit(d[i])
    ensures Digits(d) == |d|
  {
    if d != "" {
      AllDigits(d[1..]);
    }
  }

  lemma FractionThenRest(s: string, rest: string)
    requires Fraction(s).Some?
    requires rest == "" || !(IsDigit(rest[0]) || (s == "" && rest[0] == '.'))
    ensures Fraction(s + rest) == Fraction(s)
  {
    if s == "" {
      assert s + rest == rest;
    } else if s[0] == '.' {
      assert (s + rest)[1..] == s[1..] + rest;
      DigitsThenRest(s[1..], rest);
    }
  }

  lemma ExponentThenRest(s: string, rest: string)
    requires Exponent(s).Some? && EndsNumber(rest)
    ensures Exponent(s + rest) == Exponent(s)
  {
    if s == "" {
      assert s + rest == rest;
    } else if s[0] == 'e' || s[0] == 'E' {
      var sign := if |s| > 1 && (s[1] == '+' || s[1] == '-') then 2 else 1;
      assert |s| > 1;
      assert (s + rest)[sign..] == s[sign..] + rest;
      DigitsThenRest(s[sign..], rest);
    }
  }

  lemma EndingThenRest(end: End, rest: string)
    requires EndsNumber(rest)
    ensures Ending(end + rest) == Some(|end|)
  {
    hide Digits, Fraction, Exponent;
    var f := Fraction(end).value;
    FractionThenRest(end, rest);
    ExponentThenRest(end[f..], rest);
    assert (end + rest)[f..] == end[f..] + rest;
  }

  /** The digits of a number stop where its ending starts. */
  lemma EndingStarts(end: End)
    ensures end == "" || end[0] == '.' || end[0] == 'e' || end[0] == 'E'
  {
  }

  lemma ReadDigits(n: nat, end: End, rest: string)
    requires EndsNumber(rest)
    ensures var d, s := Decimal(n), Decimal(n) + end + rest;
            && Digits(s) == |d| && |d| > 0 && (|d| > 1 ==> s[0] != '0')
            && s[..|d|] == d && s[|d|..] == end + rest
            && (forall i :: 0 <= i < |d| ==> IsDigit(d[i])) && DecimalValue(d) == n && IsDigit(s[0])
  {
    var d := Decimal(n);
    DecimalReads(n);
    AllDigits(d);
    EndingStarts(end);
    DigitsThenRest(d, end + rest);
    assert d + end + rest == d + (end + rest);
  }

  lemma ReadUnsigned(n: nat, end: End, rest: string)
    requires EndsNumber(rest)
    ensures ReadNumber(Decimal(n) + end + rest)
         == Some((if end == "" then Number(n) else Fractional(n, end), rest))
  {
    hide Digits, Decimal, DecimalValue, Ending;
    var s := Decimal(n) + end + rest;
    ReadDigits(n, end, rest);
    EndingThenRest(end, rest);
    assert s[0..] == s;
    assert (end + rest)[..|end|] == end && (end + rest)[|end|..] == rest;
  }

  lemma ReadNegative(n: nat, end: End, rest: string)
    requires EndsNumber(rest)
    ensures ReadNumber(['-'] + (Decimal(n) + end + rest)) == Some((Negative(n, end), rest))
  {
    hide Digits, Decimal, DecimalValue, Ending;
    var s := Decimal(n) + end + rest;
    ReadDigits(n, end, rest);
    EndingThenRest(end, rest);
    assert (['-'] + s)[1..] == s;
    assert (end + rest)[..|end|] == end && (end + rest)[|end|..] == rest;
  }

  lemma NoEnding()
    ensures Ending("") == Some(0)
  {
  }

  predicate IsNumeric(v: Value) {
    v.Number? || v.Fractional? || v.Negative?
  }

  lemma ReadPrintedNumber(v: Value, rest: string)
    requires IsNumeric(v) && EndsNumber(rest)
    ensures var s := Print(v) + rest;
            s != "" && (IsDigit(s[0]) || s[0] == '-') && ReadNumber(s) == Some((v, rest))
  {
    hide ReadNumber, Decimal, Digits, Ending;
    match v
    case Number(n) =>
      NoEnding();
      ReadDigits(n, "", rest);
      ReadUnsigned(n, "", rest);
      assert Decimal(n) + "" + rest == Print(v) + rest;
    case Fractional(n, part) =>
      ReadDigits(n, part, rest);
      ReadUnsigned(n, part, rest);
    case Negative(n, end) =>
      ReadNegative(n, end, rest);
      assert Print(v) + rest == ['-'] + (Decimal(n) + end + rest);
  }

  /** Reading a printed value gives it back and leaves what follows it. */
  lemma {:induction false} ReadPrinted(v: Value, rest: string)
    requires IsNumeric(v) ==> EndsNumber(rest)
    ensures ReadValue(Print(v) + rest) == Some((v, rest))
    decreases v, 0
  {
    hide ReadString, Escape, ReadNumber, Decimal, ReadMembers, PrintMembers, ReadItems, PrintItems;
    var text := Print(v) + rest;
    if IsNumeric(v) {
      ReadPrintedNumber(v, rest);
    } else {
      match v
      case Null =>
        assert text[..4] == "null" && text[4..] == rest;
      case Flag(b) =>
        var word := if b then "true" else "false";
        assert text[..|word|] == word && text[|word|..] == rest;
      case Text(s) =>
        assert text[1..] == Escape(s) + ['"'] + rest;
        ReadEscaped(s, rest);
      case Array(items) =>
        ItemsStart(items);
        if items.NoItems? {
          assert text[1..] == [']'] + rest;
        } else {
          assert text[1..] == PrintItems(items) + [']'] + rest;
          ReadPrintedItems(items, rest);
        }
      case Object(ms) =>
        MembersStart(ms);
        if ms.NoMembers? {
          assert text[1..] == ['}'] + rest;
        } else {
          assert text[1..] == PrintMembers(ms) + ['}'] + rest;
          ReadPrintedMembers(ms, rest);
        }
    }
  }

  /** A printed value starts with a character that is neither blank nor a closing bracket. */
  lemma PrintStarts(v: Value)
    ensures var s := Print(v); s != "" && !IsBlank(s[0]) && s[0] != ']'
  {
    hide Escape, PrintMembers, PrintItems, Decimal;
    match v
    case Number(n) => DecimalReads(n);
    case Fractional(n, _) => DecimalReads(n);
    case _ =>
  }

  lemma ItemsStart(items: Items)
    ensures if items.NoItems? then PrintItems(items) == ""
            else PrintItems(items) != "" && !IsBlank(PrintItems(items)[0]) && PrintItems(items)[0] != ']'
  {
    hide Print;
    if items.Item? {
      PrintStarts(items.value);
    }
  }

  lemma {:induction false} ReadPrintedItems(items: Items, rest: string)
    requires items.Item?
    ensures ReadItems(PrintItems(items) + [']'] + rest) == Some((items, rest))
    decreases items, 1
  {
    hide ReadValue, Print;
    var after := (if items.tail.NoItems? then "" else [','] + PrintItems(items.tail)) + [']'] + rest;
    assert PrintItems(items) + [']'] + rest == Print(items.value) + after;
    ReadPrinted(items.value, after);
    if items.tail.NoItems? {
      assert after[1..] == rest;
    } else {
      assert after[1..] == PrintItems(items.tail) + [']'] + rest;
      ReadPrintedItems(items.tail, rest);
    }
  }

  lemma MembersStart(ms: Members)
    ensures if ms.NoMembers? then PrintMembers(ms) == "" else PrintMembers(ms) != "" && PrintMembers(ms)[0] == '"'
  {
  }

  /** What follows the value of the first member. */
  function AfterValue(ms: Members, rest: string): string
    requires ms.Field?
  {
    (if ms.tail.NoMembers? then "" else [','] + PrintMembers(ms.tail)) + ['}'] + rest
  }

  lemma MembersText(ms: Members, rest: string)
    requires ms.Field?
    ensures PrintMembers(ms) + ['}'] + rest
         == ['"'] + (Escape(ms.name) + ['"'] + ([':'] + (Print(ms.value) + AfterValue(ms, rest))))
  {
    hide Escape, Print;
  }

  lemma {:induction false} ReadPrintedMembers(ms: Members, rest: string)
    requires ms.Field?
    ensures ReadMembers(PrintMembers(ms) + ['}'] + rest) == Some((ms, rest))
    decreases ms, 1
  {
    hide ReadString, Escape, ReadValue, Print, PrintMembers;
    MembersText(ms, rest);
    var after := AfterValue(ms, rest);
    var colon := [':'] + (Print(ms.value) + after);
    var quoted := Escape(ms.name) + ['"'] + colon;
    ReadEscaped(ms.name, colon);
    assert (['"'] + quoted)[1..] == quoted;
    assert colon[1..] == Print(ms.value) + after;
    ReadPrinted(ms.value, after);
    if ms.tail.NoMembers? {
      assert after[1..] == rest;
    } else {
      assert after[1..] == PrintMembers(ms.tail) + ['}'] + rest;
      ReadPrintedMembers(ms.tail, rest);
    }
  }

  /** The round trip: every value reads back from its text, so no two values share one. */
  lemma ParsePrint(v: Value)
    ensures Parse(Print(v)) == Some(v)
  {
    ReadPrinted(v, "");
    assert Print(v) + "" == Print(v);
  }

  // ---- A printed value is one line ----

  ghost predicate Plain(s: string) {
    forall c :: c in s ==> !IsControl(c)
  }

  lemma {:induction false} EscapePlain(s: string)
    ensures Plain(Escape(s))
  {
    if s != "" {
      EscapePlain(s[1..]);
      HexDigitReads(s[0] as int % 16);
      if IsControl(s[0]) {
        HexDigitReads(s[0] as int / 16);
      }
    }
  }

  lemma {:induction false} DecimalPlain(n: nat)
    ensures Plain(Decimal(n))
  {
    DecimalReads(n);
  }

  lemma EndPlain(end: End)
    ensures Plain(end)
  {
    var f := Fraction(end).value;
    forall i | 0 <= i < |end| ensures !IsControl(end[i]) {
      if 0 < i < f {
        assert IsDigit(end[1..][i - 1]);
      } else if i >= f + 2 {
        var e := end[f..];
        var sign := if |e| > 1 && (e[1] == '+' || e[1] == '-') then 2 else 1;
        assert IsDigit(e[sign..][i - f - sign]);
      } else if i == f + 1 {
        var e := end[f..];
        assert e[1] == '+' || e[1] == '-' || IsDigit(e[1..][0]);
      }
    }
  }

  lemma {:induction false} PrintPlain(v: Value)
    ensures Plain(Print(v))
    decreases v, 0
  {
    match v
    case Null =>
    case Flag(_) =>
    case Number(n) => DecimalPlain(n);
    case Fractional(n, part) =>
      DecimalPlain(n);
      EndPlain(part);
    case Negative(n, end) =>
      DecimalPlain(n);
      EndPlain(end);
    case Text(s) => EscapePlain(s);
    case Array(items) => PrintItemsPlain(items);
    case Object(ms) => PrintMembersPlain(ms);
  }

  lemma {:induction false} PrintItemsPlain(items: Items)
    ensures Plain(PrintItems(items))
    decreases items, 1
  {
    if items.Item? {
      PrintPlain(items.value);
      PrintItemsPlain(items.tail);
    }
  }

  lemma {:induction false} PrintMembersPlain(ms: Members)
    ensures Plain(PrintMembers(ms))
    decreases ms, 1
  {
    if ms.Field? {
      EscapePlain(ms.name);
      PrintPlain(ms.value);
      PrintMembersPlain(ms.tail);
    }
  }
}
