/** Strings the way the policy code reads them: trimming, splitting, lines.

A policy file is a plain string. Everything that the parser, the tenant view and
the code-host mirror do with it goes through the functions of this module.
*/
module Text {

  /** The Unicode White_Space characters, which `str::trim` strips. */
  predicate IsSpace(c: char) {
    var n := c as int;
    || 0x09 <= n <= 0x0D
    || n == 0x20
    || n == 0x85
    || n == 0xA0
    || n == 0x1680
    || 0x2000 <= n <= 0x200A
    || n == 0x2028
    || n == 0x2029
    || n == 0x202F
    || n == 0x205F
    || n == 0x3000
  }

  function TrimEnd(s: string): string {
    if s != "" && IsSpace(s[|s| - 1]) then TrimEnd(s[..|s| - 1]) else s
  }

  function TrimStart(s: string): string {
    if s != "" && IsSpace(s[0]) then TrimStart(s[1..]) else s
  }

  function Trim(s: string): string {
    TrimEnd(TrimStart(s))
  }

  /** A string `Trim` leaves alone. */
  predicate Trimmed(s: string) {
    s != "" ==> !IsSpace(s[0]) && !IsSpace(s[|s| - 1])
  }

  lemma TrimOfTrimmed(s: string)
    requires Trimmed(s)
    ensures Trim(s) == s
  {
  }

  lemma {:induction false} TrimEndCuts(s: string)
    ensures TrimEnd(s) <= s
    ensures TrimEnd(s) != "" ==> !IsSpace(TrimEnd(s)[|TrimEnd(s)| - 1])
  {
    if s != "" && IsSpace(s[|s| - 1]) {
      TrimEndCuts(s[..|s| - 1]);
    }
  }

  lemma {:induction false} TrimStartCuts(s: string)
    ensures |TrimStart(s)| <= |s| && TrimStart(s) == s[|s| - |TrimStart(s)|..]
    ensures TrimStart(s) != "" ==> !IsSpace(TrimStart(s)[0])
  {
    if s != "" && IsSpace(s[0]) {
      TrimStartCuts(s[1..]);
    }
  }

  /** Trimming leaves nothing to trim and brings no new character. */
  lemma TrimIsTrimmed(s: string)
    ensures Trimmed(Trim(s))
    ensures forall c :: c in Trim(s) ==> c in s
  {
    TrimStartCuts(s);
    TrimEndCuts(TrimStart(s));
    var t := TrimStart(s);
    if Trim(s) != "" {
      assert Trim(s)[0] == t[0];
    }
    forall c | c in Trim(s) ensures c in s {
      assert c in t;
    }
  }

  /** A blank suffix does not change what `TrimStart` removes, unless nothing else is left. */
  lemma {:induction false} TrimStartAppendSpace(s: string, c: char)
    requires IsSpace(c)
    ensures TrimStart(s + [c]) == if TrimStart(s) == "" then "" else TrimStart(s) + [c]
  {
    if s == "" {
      assert s + [c] == [c];
      assert [c][1..] == "";
      assert TrimStart([c]) == TrimStart("");
    } else if IsSpace(s[0]) {
      assert (s + [c])[1..] == s[1..] + [c];
      TrimStartAppendSpace(s[1..], c);
    }
  }

  lemma {:induction false} TrimEndDropsSpace(s: string, c: char)
    requires IsSpace(c)
    ensures TrimEnd(s + [c]) == TrimEnd(s)
  {
    assert (s + [c])[..|s|] == s;
  }

  /** Trailing blanks of a line are invisible to everything that trims it. */
  lemma {:induction false} TrimAfterTrimEnd(s: string)
    ensures Trim(TrimEnd(s)) == Trim(s)
    decreases |s|
  {
    if s != "" && IsSpace(s[|s| - 1]) {
      var init, c := s[..|s| - 1], s[|s| - 1];
      assert s == init + [c];
      TrimAfterTrimEnd(init);
      TrimStartAppendSpace(init, c);
      TrimEndDropsSpace(TrimStart(init), c);
    }
  }

  lemma {:induction false} TrimEndOfDroppedSpace(s: string)
    requires s != "" && IsSpace(s[|s| - 1])
    ensures Trim(s[..|s| - 1]) == Trim(s)
  {
    TrimAfterTrimEnd(s);
    TrimAfterTrimEnd(s[..|s| - 1]);
  }

  /** `str::split` on one character: always at least one part. */
  function Split(s: string, sep: char): (parts: seq<string>)
    ensures |parts| >= 1
    ensures forall p :: p in parts ==> sep !in p && forall c :: c in p ==> c in s
  {
    if s == "" then [""]
    else
      var rest := Split(s[1..], sep);
      if s[0] == sep then [""] + rest else [[s[0]] + rest[0]] + rest[1..]
  }

  /** The parts of a split joined again: the left inverse of `Split`. */
  function Join(parts: seq<string>, sep: string): string {
    if parts == [] then ""
    else if |parts| == 1 then parts[0]
    else parts[0] + sep + Join(parts[1..], sep)
  }

  lemma {:induction false} JoinSplit(s: string, sep: char)
    ensures Join(Split(s, sep), [sep]) == s
  {
    if s != "" {
      var rest := Split(s[1..], sep);
      JoinSplit(s[1..], sep);
      if s[0] == sep {
        assert ([""] + rest)[1..] == rest;
        assert Join([""] + rest, [sep]) == "" + [sep] + s[1..];
      } else if |rest| > 1 {
        assert ([[s[0]] + rest[0]] + rest[1..])[1..] == rest[1..];
      }
    }
  }

  /** Splitting off one more part at the front. */
  lemma {:induction false} SplitCons(head: string, tail: string, sep: char)
    requires sep !in head
    ensures Split(head + [sep] + tail, sep) == [head] + Split(tail, sep)
  {
    var s := head + [sep] + tail;
    if head == "" {
      assert s[1..] == tail;
    } else {
      assert s[1..] == head[1..] + [sep] + tail;
      SplitCons(head[1..], tail, sep);
      assert head == [head[0]] + head[1..];
    }
  }

  lemma {:induction false} SplitWithout(s: string, sep: char)
    requires sep !in s
    ensures Split(s, sep) == [s]
  {
    if s != "" {
      SplitWithout(s[1..], sep);
      assert s == [s[0]] + s[1..];
    }
  }

  lemma {:induction false} SplitJoin(parts: seq<string>, sep: char)
    requires parts != []
    requires forall p :: p in parts ==> sep !in p
    ensures Split(Join(parts, [sep]), sep) == parts
  {
    hide Split;
    assert parts[0] in parts && parts == [parts[0]] + parts[1..];
    if |parts| == 1 {
      SplitWithout(parts[0], sep);
    } else {
      var tail := Join(parts[1..], [sep]);
      SplitJoin(parts[1..], sep);
      SplitCons(parts[0], tail, sep);
      assert Join(parts, [sep]) == parts[0] + [sep] + tail;
    }
  }

  /** Every part trimmed, the empty ones dropped. */
  function TrimmedParts(parts: seq<string>): (r: seq<string>)
    ensures forall p :: p in r ==> p != "" && Trimmed(p)
  {
    if parts == [] then []
    else
      var head := Trim(parts[0]);
      TrimIsTrimmed(parts[0]);
      if head == "" then TrimmedParts(parts[1..]) else [head] + TrimmedParts(parts[1..])
  }

  lemma {:induction false} TrimmedPartsOfTrimmed(parts: seq<string>)
    requires forall p :: p in parts ==> p != "" && Trimmed(p)
    ensures TrimmedParts(parts) == parts
  {
    if parts != [] {
      var head, rest := parts[0], parts[1..];
      assert parts == [head] + rest;
      assert head in parts;
      assert Trim(head) == head by { TrimOfTrimmed(head); }
      assert forall p :: p in rest ==> p in parts;
      TrimmedPartsOfTrimmed(rest);
    }
  }

  /** Trimming brings no new character into a part. */
  lemma {:induction false} TrimmedPartsExclude(parts: seq<string>, c: char)
    requires forall p :: p in parts ==> c !in p
    ensures forall p :: p in TrimmedParts(parts) ==> c !in p
  {
    if parts != [] {
      TrimIsTrimmed(parts[0]);
      TrimmedPartsExclude(parts[1..], c);
    }
  }

  /** The tab-separated columns of a line. */
  function Fields(line: string): (r: seq<string>)
    ensures forall p :: p in r ==> p != "" && Trimmed(p) && '\t' !in p
  {
    TrimmedPartsExclude(Split(line, '\t'), '\t');
    TrimmedParts(Split(line, '\t'))
  }

  /** The entries of a comma-separated column. */
  function List(column: string): (r: seq<string>)
    ensures forall p :: p in r ==> p != "" && Trimmed(p) && ',' !in p
  {
    TrimmedPartsExclude(Split(column, ','), ',');
    TrimmedParts(Split(column, ','))
  }

  lemma FieldsExclude(line: string, c: char)
    requires c !in line
    ensures forall p :: p in Fields(line) ==> c !in p
  {
    TrimmedPartsExclude(Split(line, '\t'), c);
  }

  lemma ListExcludes(column: string, c: char)
    requires c !in column
    ensures forall p :: p in List(column) ==> c !in p
  {
    TrimmedPartsExclude(Split(column, ','), c);
  }

  lemma {:induction false} FieldsOfJoin(parts: seq<string>)
    requires parts != []
    requires forall p :: p in parts ==> p != "" && Trimmed(p) && '\t' !in p
    ensures Fields(Join(parts, "\t")) == parts
  {
    SplitJoin(parts, '\t');
    TrimmedPartsOfTrimmed(parts);
  }

  lemma {:induction false} ListOfJoin(parts: seq<string>)
    requires parts != []
    requires forall p :: p in parts ==> p != "" && Trimmed(p) && ',' !in p
    ensures List(Join(parts, ",")) == parts
  {
    SplitJoin(parts, ',');
    TrimmedPartsOfTrimmed(parts);
  }

  lemma ThreeColumns(a: string, b: string, c: string)
    requires forall s :: s in [a, b, c] ==> s != "" && Trimmed(s) && '\t' !in s
    ensures var line := a + "\t" + b + "\t" + c; Fields(line) == [a, b, c] && Trimmed(line)
  {
    hide Trimmed, Fields;
    var f := [a, b, c];
    var line := a + "\t" + b + "\t" + c;
    assert f[1..] == [b, c] && [b, c][1..] == [c];
    assert Join([b, c], "\t") == b + "\t" + Join([c], "\t");
    assert Join(f, "\t") == a + "\t" + (b + "\t" + c) == line;
    FieldsOfJoin(f);
    assert a in f && c in f;
    EndsTrimmed(a, c, line);
  }

  lemma EndsTrimmed(a: string, c: string, line: string)
    requires a != "" && c != "" && Trimmed(a) && Trimmed(c)
    requires line != "" && line[0] == a[0] && line[|line| - 1] == c[|c| - 1]
    ensures Trimmed(line)
  {
  }

  /** `str::lines` drops the carriage return of a `\r\n` ending, and only one. */
  function StripCR(line: string): string {
    if line != "" && line[|line| - 1] == '\r' then line[..|line| - 1] else line
  }

  lemma {:induction false} TrimAfterStripCR(line: string)
    ensures Trim(StripCR(line)) == Trim(line)
  {
    if line != "" && line[|line| - 1] == '\r' {
      TrimEndOfDroppedSpace(line);
    }
  }

  /** The position of the first `c` at or after the start, or the length. */
  function Find(s: string, c: char): (i: nat)
    ensures i <= |s| && c !in s[..i]
    ensures i < |s| ==> s[i] == c
  {
    if s == "" || s[0] == c then 0
    else
      var i := 1 + Find(s[1..], c);
      assert s[..i] == [s[0]] + s[1..][..i - 1];
      i
  }

  lemma {:induction false} FindAt(prefix: string, c: char, rest: string)
    requires c !in prefix
    ensures Find(prefix + [c] + rest, c) == |prefix|
  {
    if prefix != "" {
      assert (prefix + [c] + rest)[1..] == prefix[1..] + [c] + rest;
      FindAt(prefix[1..], c, rest);
    }
  }

  /** `str::lines`: the last line needs no terminator, and keeps a final `\r` when it has none. */
  function Lines(text: string): (r: seq<string>)
    ensures forall l :: l in r ==> '\n' !in l
  {
    if text == "" then []
    else
      var i := Find(text, '\n');
      if i == |text| then
        assert text[..i] == text;
        [text]
      else [StripCR(text[..i])] + Lines(text[i + 1..])
  }

  /** Every line followed by a newline: how each rewrite writes a file back. */
  function Unlines(lines: seq<string>): string {
    if lines == [] then "" else lines[0] + "\n" + Unlines(lines[1..])
  }

  lemma {:induction false} UnlinesAppend(a: seq<string>, b: seq<string>)
    ensures Unlines(a + b) == Unlines(a) + Unlines(b)
  {
    if a == [] {
      assert a + b == b;
    } else {
      assert (a + b)[1..] == a[1..] + b;
      UnlinesAppend(a[1..], b);
    }
  }

  function StripCRs(lines: seq<string>): (r: seq<string>)
    ensures |r| == |lines|
    ensures forall i :: 0 <= i < |r| ==> r[i] == StripCR(lines[i])
  {
    if lines == [] then [] else [StripCR(lines[0])] + StripCRs(lines[1..])
  }

  /** What is written with `Unlines` is read back with `Lines`, except for one trailing `\r` a line. */
  lemma {:induction false} LinesOfUnlines(lines: seq<string>)
    requires forall l :: l in lines ==> '\n' !in l
    ensures Lines(Unlines(lines)) == StripCRs(lines)
  {
    if lines != [] {
      var rest := Unlines(lines[1..]);
      var text := lines[0] + "\n" + rest;
      FindAt(lines[0], '\n', rest);
      assert text[..|lines[0]|] == lines[0];
      assert text[|lines[0]| + 1..] == rest;
      LinesOfUnlines(lines[1..]);
    }
  }

  predicate EndsInCR(line: string) {
    line != "" && line[|line| - 1] == '\r'
  }

  /** Dropping carriage returns changes the written text exactly when some line ends in one. */
  lemma {:induction false} UnlinesOfStripCRs(lines: seq<string>)
    ensures |Unlines(StripCRs(lines))| <= |Unlines(lines)|
    ensures Unlines(StripCRs(lines)) == Unlines(lines) <==> forall l :: l in lines ==> !EndsInCR(l)
  {
    if lines == [] {
    } else {
      var rest := lines[1..];
      UnlinesOfStripCRs(rest);
      assert StripCRs(lines) == [StripCR(lines[0])] + StripCRs(rest);
      assert lines == [lines[0]] + rest;
      if EndsInCR(lines[0]) {
        assert |Unlines(StripCRs(lines))| < |Unlines(lines)|;
      } else {
        var a, b := Unlines(StripCRs(rest)), Unlines(rest);
        var head := lines[0] + "\n";
        assert Unlines(StripCRs(lines)) == head + a && Unlines(lines) == head + b;
        assert (head + a)[|head|..] == a && (head + b)[|head|..] == b;
      }
    }
  }
}
