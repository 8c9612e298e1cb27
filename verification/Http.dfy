/** Requests as the proxy reads them, and the head it writes for a backend.

A head is read line by line from a stream in chunks, with the bounds and the checks of
the proxy; what is written for a backend is read again by the same rules.
*/
module Http {
  import opened Rights
  import opened Text
  import opened Utf8
  import opened LineReader
  import Json
  import Syntax

  const MAX_LINE_BYTES: nat := 8 * 1024
  const MAX_HEADERS: nat := 100
  const MAX_BODY: nat := 1024 * 1024

  type Header = (string, string)

  datatype Request = Request(verb: string, path: string, headers: seq<Header>, body: seq<Byte>)

  datatype Fault =
    | LineTooLong | LineNotText | BadMethod | TooManyHeaders
    | BadLength | ManyLengths | LengthAndEncoding | ManyHosts | BodyTooLong | BodyCut

  datatype Outcome = NoRequest | Refused(fault: Fault) | Accepted(request: Request)

  datatype Headers = Fields(list: seq<Header>, rest: seq<Byte>) | Failed(fault: Fault)

  // ---- The request line ----

  /** The characters before the first blank. */
  function Word(s: string): (w: string)
    ensures w <= s
  {
    if s == "" || IsSpace(s[0]) then "" else [s[0]] + Word(s[1..])
  }

  function FirstWord(start: string): string {
    Word(TrimStart(start))
  }

  function SecondWord(start: string): string {
    FirstWord(TrimStart(start)[|FirstWord(start)|..])
  }

  /** A target without its query and fragment. */
  function PathOf(target: string): string {
    if target == "" || target[0] == '?' || target[0] == '#' then "" else [target[0]] + PathOf(target[1..])
  }

  predicate KnownVerb(verb: string) {
    verb == "GET" || verb == "POST" || verb == "HEAD" || verb == "OPTIONS"
  }

  // ---- Header lines ----

  /** The name and the value around the first colon. */
  function HeaderOf(line: string): seq<Header> {
    var i := Find(line, ':');
    if i < |line| then [(Trim(line[..i]), Trim(line[i + 1..]))] else []
  }

  /** The blank line behind the headers. */
  predicate EndsHead(line: string) {
    line == ['\r', '\n'] || line == ['\n']
  }

  /** Header lines up to a blank one or the end, appended to those read so far. */
  function ReadHeaders(b: seq<Byte>, sofar: seq<Header>): Headers
    decreases |b|
  {
    if |sofar| >= MAX_HEADERS then Failed(TooManyHeaders)
    else
      match ReadLine(b, MAX_LINE_BYTES)
      case End => Fields(sofar, b)
      case TooLong => Failed(LineTooLong)
      case NotText => Failed(LineNotText)
      case Got(line) =>
        var rest := b[|FirstLine(b)|..];
        if EndsHead(line) then Fields(sofar, rest)
        else ReadHeaders(rest, sofar + HeaderOf(line))
  }

  function LowerChar(c: char): char {
    if 'A' <= c <= 'Z' then (c as int + 32) as char else c
  }

  function Lower(s: string): string {
    seq(|s|, i requires 0 <= i < |s| => LowerChar(s[i]))
  }

  /** The values of all headers of a name, whatever its case. */
  function Named(headers: seq<Header>, name: string): seq<string> {
    if headers == [] then []
    else (if Lower(headers[0].0) == name then [headers[0].1] else []) + Named(headers[1..], name)
  }

  predicate AllDigits(s: string) {
    s != "" && forall c | c in s :: Json.IsDigit(c)
  }

  function CheckSmuggling(headers: seq<Header>): Option<Fault> {
    var lengths := Named(headers, "content-length");
    if exists v | v in lengths :: !AllDigits(Trim(v)) then Some(BadLength)
    else if |lengths| > 1 then Some(ManyLengths)
    else if lengths != [] && Named(headers, "transfer-encoding") != [] then Some(LengthAndEncoding)
    else None
  }

  lemma DigitsAt(s: string)
    requires AllDigits(s)
    ensures forall i :: 0 <= i < |s| ==> Json.IsDigit(s[i])
  {
    forall i | 0 <= i < |s| ensures Json.IsDigit(s[i]) {
      assert s[i] in s;
    }
  }

  /** The length a request states; a number beyond 64 bits counts as none. */
  function StatedLength(headers: seq<Header>): nat {
    var lengths := Named(headers, "content-length");
    if lengths == [] || !AllDigits(lengths[0]) then 0
    else
      DigitsAt(lengths[0]);
      var n := Json.DecimalValue(lengths[0]);
      if n < 0x1_0000_0000_0000_0000 then n else 0
  }

  /** What the bytes of a connection say, read from the front. */
  function RequestOf(b: seq<Byte>): Outcome {
    match ReadLine(b, MAX_LINE_BYTES)
    case End => NoRequest
    case TooLong => Refused(LineTooLong)
    case NotText => Refused(LineNotText)
    case Got(start) =>
      if !KnownVerb(FirstWord(start)) then Refused(BadMethod)
      else
        var read := ReadHeaders(b[|FirstLine(b)|..], []);
        if read.Failed? then Refused(read.fault)
        else WithBody(FirstWord(start), PathOf(SecondWord(start)), read.list, read.rest)
  }

  function WithBody(verb: string, path: string, headers: seq<Header>, rest: seq<Byte>): Outcome {
    var smuggling := CheckSmuggling(headers);
    if smuggling.Some? then Refused(smuggling.value)
    else if |Named(headers, "host")| > 1 then Refused(ManyHosts)
    else
      var length := StatedLength(headers);
      if length > MAX_BODY then Refused(BodyTooLong)
      else if length > |rest| then Refused(BodyCut)
      else Accepted(Request(verb, path, headers, rest[..length]))
  }

  // ---- A request that arrives in chunks ----

  lemma LineShrinks(chunks: seq<seq<Byte>>, max: nat)
    requires [] !in chunks && LineFrom(chunks, max).Got?
    ensures [] !in AfterLine(chunks) && |Concat(AfterLine(chunks))| < |Concat(chunks)|
  {
    hide *;
    AfterLineLeaves(chunks);
    EmptyIff(chunks);
    LineFromAnswers(chunks, max);
    AnswersSay(chunks, max, LineFrom(chunks, max));
  }

  ghost function HeadersFrom(chunks: seq<seq<Byte>>, sofar: seq<Header>): Headers
    requires [] !in chunks
    decreases |Concat(chunks)|
  {
    if |sofar| >= MAX_HEADERS then Failed(TooManyHeaders)
    else
      match LineFrom(chunks, MAX_LINE_BYTES)
      case End => Fields(sofar, Concat(chunks))
      case TooLong => Failed(LineTooLong)
      case NotText => Failed(LineNotText)
      case Got(line) =>
        LineShrinks(chunks, MAX_LINE_BYTES);
        var rest := AfterLine(chunks);
        if EndsHead(line) then Fields(sofar, Concat(rest)) else HeadersFrom(rest, sofar + HeaderOf(line))
  }

  lemma HeadersFromStep(chunks: seq<seq<Byte>>, sofar: seq<Header>)
    requires [] !in chunks && |sofar| < MAX_HEADERS
    ensures var next := LineFrom(chunks, MAX_LINE_BYTES);
            && (next.End? ==> HeadersFrom(chunks, sofar) == Fields(sofar, Concat(chunks)))
            && (next.TooLong? ==> HeadersFrom(chunks, sofar) == Failed(LineTooLong))
            && (next.NotText? ==> HeadersFrom(chunks, sofar) == Failed(LineNotText))
            && (next.Got? ==>
                  && [] !in AfterLine(chunks)
                  && HeadersFrom(chunks, sofar) ==
                     if EndsHead(next.text) then Fields(sofar, Concat(AfterLine(chunks)))
                     else HeadersFrom(AfterLine(chunks), sofar + HeaderOf(next.text)))
  {
    hide LineFrom, AfterLine, Concat, EndsHead, HeaderOf;
    if LineFrom(chunks, MAX_LINE_BYTES).Got? {
      LineShrinks(chunks, MAX_LINE_BYTES);
    }
  }

  /** What a connection that delivers these chunks says. */
  ghost function RequestFrom(chunks: seq<seq<Byte>>): Outcome
    requires [] !in chunks
  {
    match LineFrom(chunks, MAX_LINE_BYTES)
    case End => NoRequest
    case TooLong => Refused(LineTooLong)
    case NotText => Refused(LineNotText)
    case Got(start) =>
      LineShrinks(chunks, MAX_LINE_BYTES);
      if !KnownVerb(FirstWord(start)) then Refused(BadMethod)
      else
        var read := HeadersFrom(AfterLine(chunks), []);
        if read.Failed? then Refused(read.fault)
        else WithBody(FirstWord(start), PathOf(SecondWord(start)), read.list, read.rest)
  }

  // ---- The head for a backend ----

  predicate Dropped(name: string) {
    || name == "authorization" || name == "proxy-authorization" || name == "cookie" || name == "host"
    || name == "content-length" || name == "connection" || name == "transfer-encoding" || name == "upgrade"
    || name == "x-forwarded-for" || name == "x-forwarded-proto" || name == "x-forwarded-host" || name == "origin"
  }

  function Survivors(headers: seq<Header>): seq<Header> {
    if headers == [] then []
    else (if Dropped(Lower(headers[0].0)) then [] else [headers[0]]) + Survivors(headers[1..])
  }

  /** The four headers the proxy sets itself. */
  function Own(tree: Tree, length: nat): seq<Header> {
    [("Host", tree.addr), ("Authorization", "Bearer " + tree.token), ("Content-Length", Json.Decimal(length)),
     ("Connection", "close")]
  }

  function HeaderLine(h: Header): string {
    h.0 + [':', ' '] + h.1 + ['\r', '\n']
  }

  function HeaderText(headers: seq<Header>): string {
    if headers == [] then "" else HeaderLine(headers[0]) + HeaderText(headers[1..])
  }

  function StartLine(verb: string): string {
    verb + " /mcp HTTP/1.1\r\n"
  }

  function Forwarded(tree: Tree, req: Request): seq<Header> {
    Survivors(req.headers) + Own(tree, |req.body|)
  }

  function HeadText(tree: Tree, req: Request): string {
    StartLine(req.verb) + HeaderText(Forwarded(tree, req)) + ['\r', '\n']
  }

  lemma {:induction false} HeaderTextAppend(a: seq<Header>, b: seq<Header>)
    ensures HeaderText(a + b) == HeaderText(a) + HeaderText(b)
  {
    hide HeaderLine;
    if a == [] {
      assert a + b == b;
    } else {
      assert (a + b)[1..] == a[1..] + b;
      HeaderTextAppend(a[1..], b);
    }
  }

  // ---- The loops ----

  method ReadRequest(stream: Stream) returns (r: Outcome)
    requires [] !in stream.chunks
    modifies stream
    ensures r == RequestFrom(old(stream.chunks))
  {
    hide FirstWord, SecondWord, PathOf, HeaderOf, LineFrom, AfterLine, Concat, CheckSmuggling, Named, StatedLength;
    var first := stream.ReadBoundedLine(MAX_LINE_BYTES);
    match first {
      case End => return NoRequest;
      case TooLong => return Refused(LineTooLong);
      case NotText => return Refused(LineNotText);
      case Got(start) =>
        var verb := FirstWord(start);
        var path := PathOf(SecondWord(start));
        if !KnownVerb(verb) {
          return Refused(BadMethod);
        }
        var headers: seq<Header> := [];
        ghost var head := stream.chunks;
        while true
          invariant [] !in stream.chunks
          invariant HeadersFrom(head, []) == HeadersFrom(stream.chunks, headers)
          decreases |Concat(stream.chunks)|
        {
          ghost var here := stream.chunks;
          if |headers| >= MAX_HEADERS {
            return Refused(TooManyHeaders);
          }
          HeadersFromStep(here, headers);
          var next := stream.ReadBoundedLine(MAX_LINE_BYTES);
          if next.TooLong? {
            return Refused(LineTooLong);
          }
          if next.NotText? {
            return Refused(LineNotText);
          }
          if next.End? || EndsHead(next.text) {
            LineFromAnswers(here, MAX_LINE_BYTES);
            AnswersSay(here, MAX_LINE_BYTES, next);
            assert HeadersFrom(head, []) == Fields(headers, Concat(stream.chunks));
            break;
          }
          LineShrinks(here, MAX_LINE_BYTES);
          headers := headers + HeaderOf(next.text);
        }
        var smuggling := CheckSmuggling(headers);
        if smuggling.Some? {
          return Refused(smuggling.value);
        }
        if |Named(headers, "host")| > 1 {
          return Refused(ManyHosts);
        }
        var length := StatedLength(headers);
        if length > MAX_BODY {
          return Refused(BodyTooLong);
        }
        var body := Some([]);
        assert Concat(stream.chunks)[..0] == [];
        if length > 0 {
          body := stream.ReadExact(length);
        }
        return if body.None? then Refused(BodyCut) else Accepted(Request(verb, path, headers, body.value));
    }
  }

  method BackendHead(tree: Tree, req: Request) returns (head: string)
    ensures head == HeadText(tree, req)
  {
    hide *;
    NoSurvivors();
    head := StartLine(req.verb);
    for i := 0 to |req.headers|
      invariant head == StartLine(req.verb) + HeaderText(Survivors(req.headers[..i]))
    {
      var h := req.headers[i];
      ghost var before := Survivors(req.headers[..i]);
      SurvivorsAppend(req.headers[..i], [h]);
      OneSurvivor(h);
      assert req.headers[..i + 1] == req.headers[..i] + [h];
      if Dropped(Lower(h.0)) {
        assert before + [] == before;
        continue;
      }
      HeaderTextAppend(before, [h]);
      OneHeader(h);
      head := head + HeaderLine(h);
    }
    assert req.headers[..|req.headers|] == req.headers;
    var own := Own(tree, |req.body|);
    OwnText(tree, |req.body|);
    HeadTextParts(tree, req);
    head := head + HeaderLine(own[0]);
    head := head + HeaderLine(own[1]);
    head := head + HeaderLine(own[2]);
    head := head + HeaderLine(own[3]) + ['\r', '\n'];
  }

  lemma NoSurvivors()
    ensures HeaderText(Survivors([])) == ""
  {
  }

  lemma HeadTextParts(tree: Tree, req: Request)
    ensures HeadText(tree, req)
         == StartLine(req.verb) + HeaderText(Survivors(req.headers)) + HeaderText(Own(tree, |req.body|)) + ['\r', '\n']
  {
    hide StartLine, HeaderText, Survivors, Own;
    HeaderTextAppend(Survivors(req.headers), Own(tree, |req.body|));
  }

  lemma OwnText(tree: Tree, length: nat)
    ensures var own := Own(tree, length);
            && |own| == 4
            && HeaderText(own) == HeaderLine(own[0]) + HeaderLine(own[1]) + HeaderLine(own[2]) + HeaderLine(own[3])
  {
    hide HeaderLine;
    var own := Own(tree, length);
    HeaderTextAppend([own[0], own[1], own[2]], [own[3]]);
    HeaderTextAppend([own[0], own[1]], [own[2]]);
    HeaderTextAppend([own[0]], [own[1]]);
    OneHeader(own[0]);
    OneHeader(own[1]);
    OneHeader(own[2]);
    OneHeader(own[3]);
    assert [own[0]] + [own[1]] == [own[0], own[1]] && [own[0], own[1]] + [own[2]] == [own[0], own[1], own[2]];
    assert [own[0], own[1], own[2]] + [own[3]] == own;
  }

  lemma OneHeader(h: Header)
    ensures HeaderText([h]) == HeaderLine(h)
  {
    hide HeaderLine;
    assert [h][1..] == [];
  }

  lemma OneSurvivor(h: Header)
    ensures Survivors([h]) == if Dropped(Lower(h.0)) then [] else [h]
  {
    hide Dropped, Lower;
    assert [h][1..] == [];
  }

  lemma {:induction false} SurvivorsAppend(a: seq<Header>, b: seq<Header>)
    ensures Survivors(a + b) == Survivors(a) + Survivors(b)
  {
    hide Dropped, Lower;
    if a == [] {
      assert a + b == b;
    } else {
      assert (a + b)[1..] == a[1..] + b;
      SurvivorsAppend(a[1..], b);
    }
  }

  // ---- Lines read back ----

  lemma {:induction false} EncodeKeepsNewlines(s: string)
    requires '\n' !in s
    ensures NEWLINE !in Encode(s)
  {
    if s != "" {
      assert s[0] in s && forall c | c in s[1..] :: c in s;
      EncodeKeepsNewlines(s[1..]);
    }
  }

  lemma {:induction false} NewlineAfter(b: seq<Byte>, rest: seq<Byte>)
    requires NEWLINE !in b
    ensures NewlineAt(b + [NEWLINE] + rest) == |b|
  {
    if b == [] {
      assert b + [NEWLINE] + rest == [NEWLINE] + rest;
    } else {
      assert b[0] in b && (b + [NEWLINE] + rest)[1..] == b[1..] + [NEWLINE] + rest;
      NewlineAfter(b[1..], rest);
    }
  }

  /** A written line is the next line read, unless it is too long. */
  lemma LineReadsBack(x: string, rest: seq<Byte>)
    requires '\n' !in x
    ensures var line := x + ['\n'];
            var b := Encode(line) + rest;
            && FirstLine(b) == Encode(line) && b[|FirstLine(b)|..] == rest
            && ReadLine(b, MAX_LINE_BYTES) == if |Encode(line)| > MAX_LINE_BYTES then TooLong else Got(line)
  {
    var line := x + ['\n'];
    var b := Encode(line) + rest;
    EncodeKeepsNewlines(x);
    EncodeAppend(x, ['\n']);
    NewlineIsByte();
    hide Encode, Decode;
    NewlineAfter(Encode(x), rest);
    assert b == Encode(x) + [NEWLINE] + rest;
    DecodeEncode(line);
  }

  lemma NewlineIsByte()
    ensures Encode(['\n']) == [NEWLINE]
  {
    assert ['\n'][1..] == "";
  }

  lemma TrimPadding(s: string, c: char)
    requires IsSpace(c)
    ensures Trim(s + [c]) == Trim(s) && Trim([c] + s) == Trim(s)
  {
    TrimStartAppendSpace(s, c);
    TrimEndDropsSpace(TrimStart(s), c);
    assert ([c] + s)[1..] == s;
  }

  function Reread(h: Header): Header {
    (Trim(h.0), Trim(h.1))
  }

  lemma HeaderReadsBack(h: Header)
    requires ':' !in h.0
    ensures HeaderOf(HeaderLine(h)) == [Reread(h)]
  {
    hide Trim, TrimStart, TrimEnd, Find;
    var line := HeaderLine(h);
    var value := [' '] + h.1 + ['\r', '\n'];
    assert line == h.0 + [':'] + value;
    FindAt(h.0, ':', value);
    assert line[..|h.0|] == h.0 && line[|h.0| + 1..] == value;
    assert value == [' '] + (h.1 + ['\r'] + ['\n']);
    TrimPadding(h.1 + ['\r'] + ['\n'], ' ');
    TrimPadding(h.1 + ['\r'], '\n');
    TrimPadding(h.1, '\r');
  }

  /** A header that can be written on one line. */
  predicate Clean(h: Header) {
    ':' !in h.0 && '\n' !in h.0 && '\n' !in h.1
  }

  predicate Fits(h: Header) {
    |Encode(HeaderLine(h))| <= MAX_LINE_BYTES
  }

  function RereadAll(headers: seq<Header>): (r: seq<Header>)
    ensures |r| == |headers|
  {
    if headers == [] then [] else [Reread(headers[0])] + RereadAll(headers[1..])
  }

  lemma HeaderLineReads(h: Header, rest: seq<Byte>)
    requires Clean(h)
    ensures var b := Encode(HeaderLine(h)) + rest;
            && b[|FirstLine(b)|..] == rest && |rest| < |b|
            && ReadLine(b, MAX_LINE_BYTES) == (if Fits(h) then Got(HeaderLine(h)) else TooLong)
            && !EndsHead(HeaderLine(h))
  {
    hide Encode, FirstLine, ReadLine;
    var x := h.0 + [':', ' '] + h.1 + ['\r'];
    assert HeaderLine(h) == x + ['\n'];
    LineReadsBack(x, rest);
    EncodeNotEmpty(HeaderLine(h));
  }

  lemma EncodeNotEmpty(s: string)
    ensures s != "" ==> Encode(s) != []
  {
  }

  lemma BlankReads(body: seq<Byte>)
    ensures var b := Encode(['\r', '\n']) + body;
            b[|FirstLine(b)|..] == body && ReadLine(b, MAX_LINE_BYTES) == Got(['\r', '\n'])
  {
    LineReadsBack(['\r'], body);
    assert ['\r'] + ['\n'] == ['\r', '\n'];
    assert ['\r', '\n'][1..] == ['\n'];
    NewlineIsByte();
    assert |Encode(['\r', '\n'])| == |EncodeChar('\r') + Encode(['\n'])|;
  }

  function HeadBytes(headers: seq<Header>, body: seq<Byte>): seq<Byte> {
    Encode(HeaderText(headers) + ['\r', '\n']) + body
  }

  lemma HeadBytesStep(headers: seq<Header>, body: seq<Byte>)
    requires headers != []
    ensures HeadBytes(headers, body) == Encode(HeaderLine(headers[0])) + HeadBytes(headers[1..], body)
  {
    hide Encode, HeaderLine;
    var tail := HeaderText(headers[1..]) + ['\r', '\n'];
    EncodeAppend(HeaderLine(headers[0]), tail);
    assert HeaderText(headers) + ['\r', '\n'] == HeaderLine(headers[0]) + tail;
  }

  lemma ReadHeadersOne(h: Header, rest: seq<Byte>, sofar: seq<Header>)
    requires Clean(h)
    ensures ReadHeaders(Encode(HeaderLine(h)) + rest, sofar) ==
            if |sofar| >= MAX_HEADERS then Failed(TooManyHeaders)
            else if Fits(h) then ReadHeaders(rest, sofar + [Reread(h)])
            else Failed(LineTooLong)
  {
    hide ReadLine, FirstLine, HeaderLine, Fits, HeaderOf, Encode, Reread;
    HeaderLineReads(h, rest);
    HeaderReadsBack(h);
  }

  lemma ReadHeadersEnd(body: seq<Byte>, sofar: seq<Header>)
    ensures ReadHeaders(HeadBytes([], body), sofar) ==
            if |sofar| >= MAX_HEADERS then Failed(TooManyHeaders) else Headers.Fields(sofar, body)
  {
    BlankReads(body);
    assert HeaderText([]) + ['\r', '\n'] == ['\r', '\n'];
    hide ReadLine, FirstLine, Encode;
  }

  lemma RereadStep(headers: seq<Header>, sofar: seq<Header>)
    requires headers != []
    ensures sofar + [Reread(headers[0])] + RereadAll(headers[1..]) == sofar + RereadAll(headers)
  {
    hide Reread;
  }

  lemma RereadNone()
    ensures RereadAll([]) == []
  {
  }

  ghost predicate AllFit(headers: seq<Header>) {
    forall h :: h in headers ==> Fits(h)
  }

  ghost predicate AllClean(headers: seq<Header>) {
    forall h :: h in headers ==> Clean(h)
  }

  lemma AllStep(headers: seq<Header>)
    requires headers != []
    ensures AllFit(headers) <==> Fits(headers[0]) && AllFit(headers[1..])
    ensures AllClean(headers) <==> Clean(headers[0]) && AllClean(headers[1..])
  {
    hide Fits, Clean;
    assert headers == [headers[0]] + headers[1..];
  }

  lemma AllNone()
    ensures AllFit([])
  {
  }

  /** Written header lines are read back exactly when each fits and the count stays below the limit. */
  lemma {:induction false} HeadersReadBack(headers: seq<Header>, body: seq<Byte>, sofar: seq<Header>)
    requires AllClean(headers)
    ensures var r := ReadHeaders(HeadBytes(headers, body), sofar);
            if |sofar| + |headers| < MAX_HEADERS && AllFit(headers)
            then r == Headers.Fields(sofar + RereadAll(headers), body)
            else r.Failed?
    decreases |headers|
  {
    hide *;
    if headers == [] {
      ReadHeadersEnd(body, sofar);
      RereadNone();
      AllNone();
    } else {
      AllStep(headers);
      HeadBytesStep(headers, body);
      ReadHeadersOne(headers[0], HeadBytes(headers[1..], body), sofar);
      HeadersReadBack(headers[1..], body, sofar + [Reread(headers[0])]);
      RereadStep(headers, sofar);
    }
  }

  // ---- What an accepted request is like ----

  /** What reading guarantees of a request. */
  ghost predicate Proper(req: Request) {
    && KnownVerb(req.verb) && AllClean(req.headers) && AllTrimmed(req.headers) && |req.body| <= MAX_BODY
  }

  ghost predicate AllTrimmed(headers: seq<Header>) {
    forall h :: h in headers ==> Reread(h) == h
  }

  /** A line holds a newline only at its end. */
  lemma {:induction false} NewlineEndsLine(line: string, b: seq<Byte>)
    requires FirstLine(b) == Encode(line)
    ensures line == "" || '\n' !in line[..|line| - 1]
  {
    if '\n' in line {
      var k := Find(line, '\n');
      FindPresent(line, '\n');
      var head, tail := line[..k], line[k + 1..];
      assert line == head + ['\n'] + tail;
      EncodeKeepsNewlines(head);
      EncodeAppend(head + ['\n'], tail);
      EncodeAppend(head, ['\n']);
      NewlineIsByte();
      NewlineAfter(Encode(head), Encode(tail));
      OneNewline(b, |Encode(head)|, Encode(tail));
      if tail != "" {
        EncodeNotEmpty(tail);
      }
    }
  }

  lemma {:induction false} FindPresent(s: string, c: char)
    requires c in s
    ensures Find(s, c) < |s|
  {
    if s[0] != c {
      FindPresent(s[1..], c);
    }
  }

  lemma OneNewline(b: seq<Byte>, k: nat, tail: seq<Byte>)
    requires NewlineAt(FirstLine(b)) == k && |FirstLine(b)| == k + 1 + |tail|
    ensures tail == []
  {
    var line := FirstLine(b);
    if NewlineAt(b) < |b| {
      assert line[NewlineAt(b)] == NEWLINE;
      NewlineFirst(line, NewlineAt(b));
    }
  }

  lemma NewlineFirst(line: seq<Byte>, i: nat)
    requires i < |line| && line[i] == NEWLINE && NEWLINE !in line[..i]
    ensures NewlineAt(line) == i
  {
    hide NewlineAt;
    NewlineAfter(line[..i], line[i + 1..]);
    assert line == line[..i] + [NEWLINE] + line[i + 1..];
  }

  lemma TrimTwice(s: string)
    ensures Trim(Trim(s)) == Trim(s)
  {
    TrimIsTrimmed(s);
    TrimOfTrimmed(Trim(s));
  }

  lemma TrimLosesNewline(s: string)
    requires s == "" || '\n' !in s[..|s| - 1]
    ensures '\n' !in Trim(s)
  {
    TrimIsTrimmed(s);
    if s != "" {
      var init, c := s[..|s| - 1], s[|s| - 1];
      assert s == init + [c];
      if c == '\n' {
        TrimPadding(init, c);
        TrimIsTrimmed(init);
      }
    }
  }

  lemma HeaderOfIsClean(line: string)
    requires line == "" || '\n' !in line[..|line| - 1]
    ensures AllClean(HeaderOf(line)) && AllTrimmed(HeaderOf(line))
  {
    var i := Find(line, ':');
    if i < |line| {
      var k, v := line[..i], line[i + 1..];
      assert k == "" || k[..|k| - 1] == line[..|line| - 1][..|k| - 1];
      assert v == "" || v[..|v| - 1] == line[..|line| - 1][i + 1..];
      TrimLosesNewline(k);
      TrimLosesNewline(v);
      TrimIsTrimmed(k);
      TrimTwice(k);
      TrimTwice(v);
    }
  }

  lemma AllAppend(a: seq<Header>, b: seq<Header>)
    requires AllClean(a) && AllClean(b) && AllTrimmed(a) && AllTrimmed(b)
    ensures AllClean(a + b) && AllTrimmed(a + b)
  {
    hide Clean, Reread;
  }

  lemma GotLine(b: seq<Byte>)
    requires ReadLine(b, MAX_LINE_BYTES).Got?
    ensures FirstLine(b) == Encode(ReadLine(b, MAX_LINE_BYTES).text) && |FirstLine(b)| > 0
  {
    DecodeIff(FirstLine(b), ReadLine(b, MAX_LINE_BYTES).text);
    hide Decode, Encode, FirstLine;
  }

  lemma {:induction false} ReadHeadersClean(b: seq<Byte>, sofar: seq<Header>)
    requires AllClean(sofar) && AllTrimmed(sofar)
    ensures var r := ReadHeaders(b, sofar); r.Fields? ==> AllClean(r.list) && AllTrimmed(r.list)
    decreases |b|
  {
    hide ReadLine, FirstLine, HeaderOf, AllClean, AllTrimmed, Encode;
    var next := ReadLine(b, MAX_LINE_BYTES);
    if |sofar| < MAX_HEADERS && next.Got? && !EndsHead(next.text) {
      GotLine(b);
      NewlineEndsLine(next.text, b);
      HeaderOfIsClean(next.text);
      AllAppend(sofar, HeaderOf(next.text));
      ReadHeadersClean(b[|FirstLine(b)|..], sofar + HeaderOf(next.text));
    }
  }

  lemma AcceptedIsProper(b: seq<Byte>)
    requires RequestOf(b).Accepted?
    ensures Proper(RequestOf(b).request)
  {
    hide ReadHeaders, ReadLine, FirstLine, PathOf, FirstWord, SecondWord, StatedLength, CheckSmuggling;
    ReadHeadersClean(b[|FirstLine(b)|..], []);
  }

  // ---- The round trip ----

  lemma {:induction false} SurvivorsWithin(headers: seq<Header>)
    requires AllClean(headers) && AllTrimmed(headers)
    ensures AllClean(Survivors(headers)) && AllTrimmed(Survivors(headers))
    ensures RereadAll(Survivors(headers)) == Survivors(headers)
  {
    hide Dropped, Lower, Clean;
    if headers != [] {
      var h := headers[0];
      assert h in headers && forall g :: g in headers[1..] ==> g in headers;
      SurvivorsWithin(headers[1..]);
      if Dropped(Lower(h.0)) {
        assert Survivors(headers) == Survivors(headers[1..]);
      } else {
        assert Survivors(headers)[1..] == Survivors(headers[1..]);
      }
    }
  }

  lemma {:induction false} NoneNamed(headers: seq<Header>, name: string)
    requires Dropped(name)
    ensures Named(Survivors(headers), name) == []
  {
    hide Dropped, Lower;
    if headers != [] {
      NoneNamed(headers[1..], name);
      if Dropped(Lower(headers[0].0)) {
        assert Survivors(headers) == Survivors(headers[1..]);
      } else {
        assert Survivors(headers)[1..] == Survivors(headers[1..]);
      }
    }
  }

  lemma {:induction false} NamedAppend(a: seq<Header>, b: seq<Header>, name: string)
    ensures Named(a + b, name) == Named(a, name) + Named(b, name)
  {
    hide *;
    if a == [] {
      assert a + b == b;
      NoneInNothing(name);
    } else {
      assert (a + b)[1..] == a[1..] + b;
      NamedAppend(a[1..], b, name);
      NamedOne(a, name);
      NamedOne(a + b, name);
    }
  }

  lemma NoneInNothing(name: string)
    ensures Named([], name) == []
  {
  }

  lemma {:induction false} RereadAppend(a: seq<Header>, b: seq<Header>)
    ensures RereadAll(a + b) == RereadAll(a) + RereadAll(b)
  {
    hide Reread;
    if a == [] {
      assert a + b == b;
    } else {
      assert (a + b)[1..] == a[1..] + b;
      RereadAppend(a[1..], b);
    }
  }

  /** The four headers as the backend reads them. */
  function OwnRead(tree: Tree, length: nat): seq<Header> {
    [("Host", Trim(tree.addr)), ("Authorization", Trim("Bearer " + tree.token)),
     ("Content-Length", Json.Decimal(length)),
     ("Connection", "close")]
  }

  lemma DecimalIsTrimmed(n: nat)
    ensures Trim(Json.Decimal(n)) == Json.Decimal(n) && AllDigits(Json.Decimal(n)) && '\n' !in Json.Decimal(n)
    ensures Json.DecimalValue(Json.Decimal(n)) == n
  {
    Json.DecimalReads(n);
    TrimOfTrimmed(Json.Decimal(n));
  }

  lemma RereadFirst(h: Header, rest: seq<Header>)
    ensures RereadAll([h] + rest) == [Reread(h)] + RereadAll(rest) && RereadAll([]) == []
  {
    hide Reread;
    assert ([h] + rest)[1..] == rest;
  }

  lemma OwnParts(tree: Tree, length: nat)
    ensures Own(tree, length) == [("Host", tree.addr)] + ([("Authorization", "Bearer " + tree.token)]
            + ([("Content-Length", Json.Decimal(length))] + ([("Connection", "close")] + [])))
    ensures OwnRead(tree, length) == [("Host", Trim(tree.addr))] + ([("Authorization", Trim("Bearer " + tree.token))]
            + ([("Content-Length", Json.Decimal(length))] + ([("Connection", "close")] + [])))
  {
    hide Trim, Json.Decimal;
  }

  lemma NamesAreTrimmed()
    ensures Trim("Host") == "Host" && Trim("Authorization") == "Authorization" &&
            Trim("Content-Length") == "Content-Length"
    ensures Trim("Connection") == "Connection" && Trim("close") == "close"
  {
    TrimOfTrimmed("Host");
    TrimOfTrimmed("Authorization");
    TrimOfTrimmed("Content-Length");
    TrimOfTrimmed("Connection");
    TrimOfTrimmed("close");
  }

  lemma RereadIs(name: string, value: string)
    ensures Reread((name, value)) == (Trim(name), Trim(value))
  {
    hide Trim;
  }

  lemma OwnRereads(tree: Tree, length: nat)
    ensures RereadAll(Own(tree, length)) == OwnRead(tree, length)
  {
    hide *;
    DecimalIsTrimmed(length);
    NamesAreTrimmed();
    OwnParts(tree, length);
    var host, bearer, size, close := ("Host", tree.addr), ("Authorization", "Bearer " + tree.token),
                                     ("Content-Length", Json.Decimal(length)), ("Connection", "close");
    RereadFirst(host, [bearer] + ([size] + ([close] + [])));
    RereadFirst(bearer, [size] + ([close] + []));
    RereadFirst(size, [close] + []);
    RereadFirst(close, []);
    RereadIs("Host", tree.addr);
    RereadIs("Authorization", "Bearer " + tree.token);
    RereadIs("Content-Length", Json.Decimal(length));
    RereadIs("Connection", "close");
  }

  lemma OwnIsClean(tree: Tree, length: nat)
    requires '\n' !in tree.addr && '\n' !in tree.token
    ensures AllClean(Own(tree, length))
  {
    DecimalIsTrimmed(length);
    hide Json.Decimal;
    var own := Own(tree, length);
    assert Clean(own[0]) && Clean(own[1]) && Clean(own[2]) && Clean(own[3]);
  }

  lemma LowerNames()
    ensures Lower("Host") == "host" && Lower("Authorization") == "authorization"
    ensures Lower("Content-Length") == "content-length" && Lower("Connection") == "connection"
  {
  }

  lemma OwnNamed(tree: Tree, length: nat, name: string)
    ensures Named(OwnRead(tree, length), name) ==
            if name == "host" then [Trim(tree.addr)]
            else if name == "authorization" then [Trim("Bearer " + tree.token)]
            else if name == "content-length" then [Json.Decimal(length)]
            else if name == "connection" then ["close"]
            else []
  {
    LowerNames();
    hide Lower, Trim, Json.Decimal;
    var own := OwnRead(tree, length);
    assert own[1..][1..][1..][1..] == [];
    assert own[1..][1..][1..][0] == own[3] && own[1..][1..][0] == own[2] && own[1..][0] == own[1];
    NamedOne(own[1..][1..][1..], name);
    NamedOne(own[1..][1..], name);
    NamedOne(own[1..], name);
    NamedOne(own, name);
  }

  lemma NamedOne(headers: seq<Header>, name: string)
    requires headers != []
    ensures Named(headers, name) ==
            (if Lower(headers[0].0) == name then [headers[0].1] else []) + Named(headers[1..], name)
    ensures Named([], name) == []
  {
  }

  /** The headers a backend reads: those that survive, in order, then the proxy's own. */
  function Received(tree: Tree, req: Request): seq<Header> {
    Survivors(req.headers) + OwnRead(tree, |req.body|)
  }

  lemma ReceivedNamed(tree: Tree, req: Request, name: string)
    requires Dropped(name)
    ensures Named(Received(tree, req), name) == Named(OwnRead(tree, |req.body|), name)
  {
    hide Dropped, Lower, OwnRead;
    NoneNamed(req.headers, name);
    NamedAppend(Survivors(req.headers), OwnRead(tree, |req.body|), name);
  }

  lemma NamesDropped()
    ensures Dropped("host") && Dropped("authorization") && Dropped("content-length")
    ensures Dropped("connection") && Dropped("transfer-encoding")
  {
  }

  /** Exactly one of each of the proxy's own headers reaches the backend, and the
  checks against smuggling accept what the proxy writes. */
  lemma ReceivedIsSound(tree: Tree, req: Request)
    ensures var hs := Received(tree, req);
            && Named(hs, "host") == [Trim(tree.addr)] && Named(hs, "authorization") == [Trim("Bearer " + tree.token)]
            && Named(hs, "content-length") == [Json.Decimal(|req.body|)] && Named(hs, "connection") == ["close"]
            && Named(hs, "transfer-encoding") == []
  {
    NamesDropped();
    hide Dropped, OwnRead, Named, Trim, Json.Decimal, Received;
    ReceivedNamed(tree, req, "host");
    ReceivedNamed(tree, req, "authorization");
    ReceivedNamed(tree, req, "content-length");
    ReceivedNamed(tree, req, "connection");
    ReceivedNamed(tree, req, "transfer-encoding");
    OwnNamed(tree, |req.body|, "host");
    OwnNamed(tree, |req.body|, "authorization");
    OwnNamed(tree, |req.body|, "content-length");
    OwnNamed(tree, |req.body|, "connection");
    OwnNamed(tree, |req.body|, "transfer-encoding");
  }

  lemma BodyAccepted(tree: Tree, req: Request)
    requires |req.body| <= MAX_BODY
    ensures WithBody(req.verb, "/mcp", Received(tree, req), req.body)
         == Accepted(Request(req.verb, "/mcp", Received(tree, req), req.body))
  {
    hide Received, Named, Trim, Json.Decimal, Json.DecimalValue, AllDigits;
    ReceivedIsSound(tree, req);
    DecimalIsTrimmed(|req.body|);
    assert req.body[..|req.body|] == req.body;
  }

  // ---- The start line ----

  lemma {:induction false} WordOf(w: string, rest: string)
    requires (forall i :: 0 <= i < |w| ==> !IsSpace(w[i])) && rest != "" && IsSpace(rest[0])
    ensures Word(w + rest) == w
  {
    if w == "" {
      assert w + rest == rest;
    } else {
      assert (w + rest)[1..] == w[1..] + rest;
      WordOf(w[1..], rest);
    }
  }

  lemma FirstWordOf(w: string, rest: string)
    requires w != "" && (forall i :: 0 <= i < |w| ==> !IsSpace(w[i])) && rest != "" && IsSpace(rest[0])
    ensures TrimStart(w + rest) == w + rest && FirstWord(w + rest) == w
  {
    WordOf(w, rest);
    assert (w + rest)[0] == w[0];
  }

  lemma VerbIsWord(verb: string)
    requires KnownVerb(verb)
    ensures verb != "" && |verb| <= 7 && '\n' !in verb
    ensures forall i :: 0 <= i < |verb| ==> !IsSpace(verb[i]) && verb[i] as int < 0x80
  {
  }

  lemma McpPath()
    ensures PathOf("/mcp") == "/mcp"
  {
    assert "/mcp"[1..] == "mcp" && "mcp"[1..] == "cp" && "cp"[1..] == "p" && "p"[1..] == "";
    assert PathOf("p") == "p";
    assert PathOf("cp") == "cp";
    assert PathOf("mcp") == "mcp";
  }

  const PROTOCOL := " HTTP/1.1\r\n"

  lemma StartLineReads(verb: string)
    requires KnownVerb(verb)
    ensures FirstWord(StartLine(verb)) == verb && PathOf(SecondWord(StartLine(verb))) == "/mcp"
  {
    VerbIsWord(verb);
    McpPath();
    hide PathOf, FirstWord, KnownVerb;
    var rest := " /mcp HTTP/1.1\r\n";
    FirstWordOf(verb, rest);
    assert (verb + rest)[|verb|..] == rest;
    SecondOfRest();
  }

  lemma SecondOfRest()
    ensures FirstWord(" /mcp HTTP/1.1\r\n") == "/mcp"
  {
    FirstWordOf("/mcp", PROTOCOL);
    assert " /mcp HTTP/1.1\r\n" == [' '] + ("/mcp" + PROTOCOL);
    assert ([' '] + ("/mcp" + PROTOCOL))[1..] == "/mcp" + PROTOCOL;
  }

  lemma StartLineShape(verb: string)
    requires KnownVerb(verb)
    ensures var x := verb + " /mcp HTTP/1.1\r";
            StartLine(verb) == x + ['\n'] && '\n' !in x && |Encode(StartLine(verb))| <= MAX_LINE_BYTES
  {
    VerbIsWord(verb);
    hide KnownVerb, IsSpace, Encode;
    AsciiLength(StartLine(verb));
  }

  lemma HeadSplits(tree: Tree, req: Request)
    ensures Encode(HeadText(tree, req)) + req.body ==
            Encode(StartLine(req.verb)) + HeadBytes(Forwarded(tree, req), req.body)
  {
    hide Encode, StartLine, HeaderText, Forwarded;
    var tail := HeaderText(Forwarded(tree, req)) + ['\r', '\n'];
    EncodeAppend(StartLine(req.verb), tail);
    assert HeadText(tree, req) == StartLine(req.verb) + tail;
  }

  lemma ForwardedReads(tree: Tree, req: Request)
    requires Proper(req) && '\n' !in tree.addr && '\n' !in tree.token
    ensures AllClean(Forwarded(tree, req)) && RereadAll(Forwarded(tree, req)) == Received(tree, req)
  {
    hide Survivors, Own, OwnRead, Reread, RereadAll, Clean;
    SurvivorsWithin(req.headers);
    OwnIsClean(tree, |req.body|);
    OwnRereads(tree, |req.body|);
    RereadAppend(Survivors(req.headers), Own(tree, |req.body|));
  }

  lemma HeadBytesRead(verb: string, headers: seq<Header>, body: seq<Byte>)
    requires KnownVerb(verb)
    ensures RequestOf(Encode(StartLine(verb)) + HeadBytes(headers, body)) ==
            var read := ReadHeaders(HeadBytes(headers, body), []);
            if read.Failed? then Refused(read.fault) else WithBody(verb, "/mcp", read.list, read.rest)
  {
    StartLineReads(verb);
    StartLineShape(verb);
    LineReadsBack(verb + " /mcp HTTP/1.1\r", HeadBytes(headers, body));
    hide StartLine, FirstWord, SecondWord, PathOf, ReadLine, FirstLine, Encode, ReadHeaders, WithBody, HeadBytes;
  }

  lemma HeadIsRead(tree: Tree, req: Request)
    requires Proper(req)
    ensures RequestOf(Encode(HeadText(tree, req)) + req.body) ==
            var read := ReadHeaders(HeadBytes(Forwarded(tree, req), req.body), []);
            if read.Failed? then Refused(read.fault) else WithBody(req.verb, "/mcp", read.list, read.rest)
  {
    hide *;
    ProperParts(req);
    HeadSplits(tree, req);
    HeadBytesRead(req.verb, Forwarded(tree, req), req.body);
  }

  /** What a backend reads of a forwarded request: the same method and body, the path
  `/mcp`, the surviving headers in order and the proxy's own, exactly when every
  header line fits and there are fewer than `MAX_HEADERS` of them. */
  lemma ForwardingRoundTrip(b: seq<Byte>, tree: Tree)
    requires RequestOf(b).Accepted? && '\n' !in tree.addr && '\n' !in tree.token
    ensures var req := RequestOf(b).request;
            var r := RequestOf(Encode(HeadText(tree, req)) + req.body);
            if |Forwarded(tree, req)| < MAX_HEADERS && AllFit(Forwarded(tree, req))
            then r == Accepted(Request(req.verb, "/mcp", Received(tree, req), req.body))
            else r.Refused?
  {
    hide *;
    var req := RequestOf(b).request;
    AcceptedIsProper(b);
    ProperParts(req);
    HeadIsRead(tree, req);
    ForwardedReads(tree, req);
    HeadersReadBack(Forwarded(tree, req), req.body, []);
    BodyAccepted(tree, req);
    assert [] + RereadAll(Forwarded(tree, req)) == RereadAll(Forwarded(tree, req));
  }

  lemma ProperParts(req: Request)
    requires Proper(req)
    ensures |req.body| <= MAX_BODY && KnownVerb(req.verb)
  {
    hide KnownVerb, AllClean, AllTrimmed;
  }

  lemma OwnOfPlain(tree: Tree, length: nat)
    requires Syntax.PlainColumn(tree.addr) && Syntax.PlainColumn(tree.token)
    ensures OwnRead(tree, length) == Own(tree, length)
    ensures '\n' !in tree.addr && '\n' !in tree.token
  {
    TrimOfTrimmed(tree.addr);
    var bearer := "Bearer " + tree.token;
    assert bearer[|bearer| - 1] == tree.token[|tree.token| - 1] && bearer[0] == 'B';
    TrimOfTrimmed(bearer);
    hide Trim, Json.Decimal;
  }

  /** For the trees of a policy text the backend reads exactly the headers that the proxy means to send. */
  lemma ServedRoundTrip(b: seq<Byte>, text: string, tree: Tree)
    requires RequestOf(b).Accepted? && tree in Syntax.ParseText(text).trees
    ensures var req := RequestOf(b).request;
            var r := RequestOf(Encode(HeadText(tree, req)) + req.body);
            if |Forwarded(tree, req)| < MAX_HEADERS && AllFit(Forwarded(tree, req))
            then r == Accepted(Request(req.verb, "/mcp", Forwarded(tree, req), req.body))
            else r.Refused?
  {
    hide *;
    var req := RequestOf(b).request;
    Syntax.ServedTreeIsPlain(text, tree);
    OwnOfPlain(tree, |req.body|);
    ReceivedIs(tree, req);
    ForwardingRoundTrip(b, tree);
  }

  lemma ReceivedIs(tree: Tree, req: Request)
    ensures Received(tree, req) == Survivors(req.headers) + OwnRead(tree, |req.body|)
    ensures Forwarded(tree, req) == Survivors(req.headers) + Own(tree, |req.body|)
  {
    hide Survivors, OwnRead, Own;
  }

  // ---- Ninety-nine headers ----

  function Many(n: nat): seq<Header> {
    if n == 0 then [] else [("x", "y")] + Many(n - 1)
  }

  lemma OneOfMany()
    ensures Reread(("x", "y")) == ("x", "y") && Clean(("x", "y")) && Fits(("x", "y"))
    ensures !Dropped(Lower("x")) && Lower("x") == "x"
  {
    TrimOfTrimmed("x");
    TrimOfTrimmed("y");
    AsciiLength(HeaderLine(("x", "y")));
  }

  lemma {:induction false} ManyAre(n: nat, name: string)
    ensures |Survivors(Many(n))| == n && |Many(n)| == n && AllClean(Many(n)) && AllFit(Many(n))
    ensures RereadAll(Many(n)) == Many(n) && (name != "x" ==> Named(Many(n), name) == [])
  {
    OneOfMany();
    hide Reread, Clean, Fits, Dropped, Lower;
    if n > 0 {
      ManyAre(n - 1, name);
      assert Many(n)[1..] == Many(n - 1) && Many(n)[0] == ("x", "y");
    }
  }

  function ManyBytes(): seq<Byte> {
    Encode(StartLine("GET")) + HeadBytes(Many(99), [])
  }

  lemma NothingNamed(headers: seq<Header>)
    requires Named(headers, "content-length") == [] && Named(headers, "host") == []
    ensures WithBody("GET", "/mcp", headers, []) == Accepted(Request("GET", "/mcp", headers, []))
  {
    hide Named;
  }

  lemma ManyAccepted()
    ensures RequestOf(ManyBytes()) == Accepted(Request("GET", "/mcp", Many(99), []))
  {
    hide *;
    ManyAre(99, "host");
    ManyAre(99, "content-length");
    GetIsKnown();
    HeadBytesRead("GET", Many(99), []);
    HeadersReadBack(Many(99), [], []);
    NothingNamed(Many(99));
    ManyBytesAre();
    assert [] + Many(99) == Many(99);
  }

  lemma GetIsKnown()
    ensures KnownVerb("GET") && MAX_HEADERS == 100
  {
  }

  lemma ManyBytesAre()
    ensures ManyBytes() == Encode(StartLine("GET")) + HeadBytes(Many(99), [])
  {
  }

  lemma FourOwn(tree: Tree, req: Request)
    ensures |Forwarded(tree, req)| == |Survivors(req.headers)| + 4
  {
  }

  /** A request that the proxy accepts and that no backend with the same limit does: with the
      proxy's own headers it has too many. */
  lemma NinetyNineHeadersRefused(text: string, tree: Tree)
    requires tree in Syntax.ParseText(text).trees
    ensures RequestOf(ManyBytes()).Accepted?
    ensures var req := RequestOf(ManyBytes()).request;
            RequestOf(Encode(HeadText(tree, req)) + req.body).Refused?
  {
    hide *;
    ManyAccepted();
    ManyAre(99, "host");
    GetIsKnown();
    FourOwn(tree, RequestOf(ManyBytes()).request);
    ServedRoundTrip(ManyBytes(), text, tree);
  }

  // ---- Every division into chunks ----

  lemma RestOfBytes(chunks: seq<seq<Byte>>)
    requires [] !in chunks
    ensures [] !in AfterLine(chunks)
    ensures var b := Concat(chunks); b[|FirstLine(b)|..] == Concat(AfterLine(chunks))
  {
    hide *;
    AfterLineLeaves(chunks);
  }

  lemma ReadHeadersStep(b: seq<Byte>, sofar: seq<Header>)
    requires |sofar| < MAX_HEADERS
    ensures var next := ReadLine(b, MAX_LINE_BYTES);
            && (next.End? ==> ReadHeaders(b, sofar) == Fields(sofar, b))
            && (next.TooLong? ==> ReadHeaders(b, sofar) == Failed(LineTooLong))
            && (next.NotText? ==> ReadHeaders(b, sofar) == Failed(LineNotText))
            && (next.Got? ==>
                  ReadHeaders(b, sofar) ==
                  if EndsHead(next.text) then Fields(sofar, b[|FirstLine(b)|..])
                  else ReadHeaders(b[|FirstLine(b)|..], sofar + HeaderOf(next.text)))
  {
    hide ReadLine, FirstLine, EndsHead, HeaderOf;
  }

  lemma FullHead(chunks: seq<seq<Byte>>, sofar: seq<Header>)
    requires [] !in chunks && |sofar| >= MAX_HEADERS
    ensures HeadersFrom(chunks, sofar) == ReadHeaders(Concat(chunks), sofar) == Failed(TooManyHeaders)
  {
  }

  /** A line that arrives is the line that was sent, and the stream ends where the bytes do. */
  lemma LineOnlyRefused(chunks: seq<seq<Byte>>, max: nat)
    requires [] !in chunks
    ensures var (r, whole) := (LineFrom(chunks, max), ReadLine(Concat(chunks), max));
            && (r.Got? ==> whole == r) && (r.End? <==> whole.End?)
            && (whole.Got? ==> (r == whole <==> BetweenCharacters(Pieces(chunks))))
  {
    hide *;
    var r := LineFrom(chunks, max);
    LineFromAnswers(chunks, max);
    ConcatPieces(chunks);
    EmptyIff(chunks);
    AnswersSay(chunks, max, r);
    GotSays(chunks, max, r);
    ReadLineCases(Concat(chunks), max);
    ReadLineGot(Concat(chunks), max);
    if r.Got? {
      NoPieces();
    }
    if ReadLine(Concat(chunks), max).Got? {
      DividedIff(chunks, max, r);
    }
  }

  /** No chunk begins inside a character of the head. */
  ghost predicate HeadUnsplit(chunks: seq<seq<Byte>>)
    requires [] !in chunks
    decreases |Concat(chunks)|
  {
    && BetweenCharacters(Pieces(chunks))
    && match ReadLine(Concat(chunks), MAX_LINE_BYTES)
       case Got(line) =>
         RestShrinks(chunks);
         EndsHead(line) || HeadUnsplit(AfterLine(chunks))
       case _ => true
  }

  lemma RestShrinks(chunks: seq<seq<Byte>>)
    requires [] !in chunks && ReadLine(Concat(chunks), MAX_LINE_BYTES).Got?
    ensures [] !in AfterLine(chunks) && |Concat(AfterLine(chunks))| < |Concat(chunks)|
  {
    hide *;
    AfterLineLeaves(chunks);
    ReadLineGot(Concat(chunks), MAX_LINE_BYTES);
  }

  lemma HeadUnsplitStep(chunks: seq<seq<Byte>>)
    requires [] !in chunks
    ensures var next := ReadLine(Concat(chunks), MAX_LINE_BYTES);
            && (!next.Got? ==> (HeadUnsplit(chunks) <==> BetweenCharacters(Pieces(chunks))))
            && (next.Got? ==>
                  && [] !in AfterLine(chunks)
                  && (HeadUnsplit(chunks) <==>
                      && BetweenCharacters(Pieces(chunks))
                      && (EndsHead(next.text) || HeadUnsplit(AfterLine(chunks)))))
  {
    hide BetweenCharacters, Pieces, ReadLine, AfterLine, EndsHead, Concat;
    if ReadLine(Concat(chunks), MAX_LINE_BYTES).Got? {
      RestShrinks(chunks);
    }
  }

  /** However a head is divided, its headers are read as sent or refused; and headers that can be read
      are read exactly when no chunk begins inside a character. */
  lemma {:induction false} HeadersDivided(chunks: seq<seq<Byte>>, sofar: seq<Header>)
    requires [] !in chunks
    ensures var (r, whole) := (HeadersFrom(chunks, sofar), ReadHeaders(Concat(chunks), sofar));
            && (r == whole || r.Failed?)
            && (whole.Fields? ==> (r == whole <==> HeadUnsplit(chunks)))
    decreases |Concat(chunks)|
  {
    hide *;
    var b := Concat(chunks);
    var (r, whole) := (LineFrom(chunks, MAX_LINE_BYTES), ReadLine(b, MAX_LINE_BYTES));
    if |sofar| >= MAX_HEADERS {
      FullHead(chunks, sofar);
    } else {
      HeadersFromStep(chunks, sofar);
      ReadHeadersStep(b, sofar);
      LineOnlyRefused(chunks, MAX_LINE_BYTES);
      HeadUnsplitStep(chunks);
      RestOfBytes(chunks);
      if r.Got? {
        RestShrinks(chunks);
        if !EndsHead(r.text) {
          HeadersDivided(AfterLine(chunks), sofar + HeaderOf(r.text));
        }
      }
      if r.End? {
        NothingIsUnsplit(chunks);
      }
    }
  }

  lemma NothingIsUnsplit(chunks: seq<seq<Byte>>)
    requires [] !in chunks && LineFrom(chunks, MAX_LINE_BYTES).End?
    ensures BetweenCharacters(Pieces(chunks))
  {
    hide *;
    LineFromAnswers(chunks, MAX_LINE_BYTES);
    AnswersSay(chunks, MAX_LINE_BYTES, LineFrom(chunks, MAX_LINE_BYTES));
    EmptyIff(chunks);
    OneIsBetween([]);
  }

  lemma BlankHasNoWord(start: string)
    requires EndsHead(start)
    ensures FirstWord(start) == ""
  {
    assert start[1..] == "" || start[1..] == ['\n'];
    assert TrimStart(['\n']) == "";
    assert TrimStart(start) == "";
  }

  lemma VerbIsNoBlank(start: string)
    requires KnownVerb(FirstWord(start))
    ensures !EndsHead(start)
  {
    hide FirstWord, EndsHead;
    if EndsHead(start) {
      BlankHasNoWord(start);
    }
  }

  lemma RequestSteps(chunks: seq<seq<Byte>>)
    requires [] !in chunks
    ensures var next := LineFrom(chunks, MAX_LINE_BYTES);
            && (!next.Got? ==> !RequestFrom(chunks).Accepted? && (RequestFrom(chunks).NoRequest? <==> next.End?))
            && (next.Got? ==>
                  && [] !in AfterLine(chunks)
                  && RequestFrom(chunks) == AfterStart(next.text, HeadersFrom(AfterLine(chunks), [])))
  {
    hide LineFrom, AfterLine, HeadersFrom, KnownVerb, FirstWord, SecondWord, PathOf, WithBody;
    if LineFrom(chunks, MAX_LINE_BYTES).Got? {
      LineShrinks(chunks, MAX_LINE_BYTES);
    }
  }

  function AfterStart(start: string, read: Headers): Outcome {
    if !KnownVerb(FirstWord(start)) then Refused(BadMethod)
    else if read.Failed? then Refused(read.fault)
    else WithBody(FirstWord(start), PathOf(SecondWord(start)), read.list, read.rest)
  }

  lemma RequestOfSteps(b: seq<Byte>)
    ensures var next := ReadLine(b, MAX_LINE_BYTES);
            && (!next.Got? ==> !RequestOf(b).Accepted? && (RequestOf(b).NoRequest? <==> next.End?))
            && (next.Got? ==> RequestOf(b) == AfterStart(next.text, ReadHeaders(b[|FirstLine(b)|..], [])))
  {
    hide ReadLine, FirstLine, ReadHeaders, KnownVerb, FirstWord, SecondWord, PathOf, WithBody;
  }

  lemma AfterStartFails(start: string, read: Headers)
    ensures read.Failed? ==> AfterStart(start, read).Refused?
    ensures AfterStart(start, read).Accepted? ==> read.Fields? && KnownVerb(FirstWord(start))
    ensures !AfterStart(start, read).NoRequest?
  {
    hide KnownVerb, FirstWord, SecondWord, PathOf, CheckSmuggling, Named, StatedLength;
  }

  /** No division of the bytes makes another request of them: they are read as they are or refused. A
      request that can be accepted is, exactly when no chunk begins inside a character of its head. */
  lemma RequestDivided(chunks: seq<seq<Byte>>)
    requires [] !in chunks
    ensures RequestFrom(chunks) == RequestOf(Concat(chunks)) || RequestFrom(chunks).Refused?
    ensures RequestOf(Concat(chunks)).Accepted? ==>
              (RequestFrom(chunks) == RequestOf(Concat(chunks)) <==> HeadUnsplit(chunks))
  {
    hide *;
    var b := Concat(chunks);
    var (r, whole) := (LineFrom(chunks, MAX_LINE_BYTES), ReadLine(b, MAX_LINE_BYTES));
    RequestSteps(chunks);
    RequestOfSteps(b);
    LineOnlyRefused(chunks, MAX_LINE_BYTES);
    RestOfBytes(chunks);
    HeadUnsplitStep(chunks);
    if whole.Got? {
      AfterStartFails(whole.text, ReadHeaders(b[|FirstLine(b)|..], []));
      if KnownVerb(FirstWord(whole.text)) {
        VerbIsNoBlank(whole.text);
      }
    }
    if r.Got? {
      HeadersDivided(AfterLine(chunks), []);
      AfterStartFails(r.text, HeadersFrom(AfterLine(chunks), []));
    }
  }

  /** Every line of the head is ASCII. */
  ghost predicate AsciiHead(b: seq<Byte>)
    decreases |b|
  {
    && (forall x | x in FirstLine(b) :: x < 0x80)
    && match ReadLine(b, MAX_LINE_BYTES)
       case Got(line) => EndsHead(line) || AsciiHead(b[|FirstLine(b)|..])
       case _ => true
  }

  lemma AsciiHeadStep(b: seq<Byte>)
    requires AsciiHead(b)
    ensures forall x | x in FirstLine(b) :: x < 0x80
    ensures var next := ReadLine(b, MAX_LINE_BYTES);
            next.Got? && !EndsHead(next.text) ==> AsciiHead(b[|FirstLine(b)|..])
  {
    hide ReadLine, FirstLine, EndsHead;
  }

  lemma {:induction false} AsciiHeaders(chunks: seq<seq<Byte>>, sofar: seq<Header>)
    requires [] !in chunks && AsciiHead(Concat(chunks))
    ensures HeadersFrom(chunks, sofar) == ReadHeaders(Concat(chunks), sofar)
    decreases |Concat(chunks)|
  {
    hide *;
    var b := Concat(chunks);
    if |sofar| >= MAX_HEADERS {
      FullHead(chunks, sofar);
    } else {
      var r := LineFrom(chunks, MAX_LINE_BYTES);
      AsciiHeadStep(b);
      LineFromAnswers(chunks, MAX_LINE_BYTES);
      AsciiIsIndependent(chunks, MAX_LINE_BYTES, r);
      HeadersFromStep(chunks, sofar);
      ReadHeadersStep(b, sofar);
      RestOfBytes(chunks);
      if r.Got? && !EndsHead(r.text) {
        RestShrinks(chunks);
        AsciiHeaders(AfterLine(chunks), sofar + HeaderOf(r.text));
      }
    }
  }

  /** A request with an ASCII head is read alike however it is divided, refusals included. */
  lemma AsciiHeadIsIndependent(chunks: seq<seq<Byte>>)
    requires [] !in chunks && AsciiHead(Concat(chunks))
    ensures RequestFrom(chunks) == RequestOf(Concat(chunks))
  {
    hide *;
    var b := Concat(chunks);
    var r := LineFrom(chunks, MAX_LINE_BYTES);
    AsciiHeadStep(b);
    LineFromAnswers(chunks, MAX_LINE_BYTES);
    AsciiIsIndependent(chunks, MAX_LINE_BYTES, r);
    RestOfBytes(chunks);
    if r.Got? {
      RequestSteps(chunks);
      RequestOfSteps(b);
      if EndsHead(r.text) {
        BlankStart(r.text, HeadersFrom(AfterLine(chunks), []), ReadHeaders(b[|FirstLine(b)|..], []));
      } else {
        AsciiHeaders(AfterLine(chunks), []);
      }
    } else {
      RequestCases(chunks);
    }
  }

  lemma BlankStart(start: string, a: Headers, b: Headers)
    requires EndsHead(start)
    ensures AfterStart(start, a) == AfterStart(start, b)
  {
    hide *;
    if KnownVerb(FirstWord(start)) {
      VerbIsNoBlank(start);
    }
    UnknownVerb(start, a);
    UnknownVerb(start, b);
  }

  lemma UnknownVerb(start: string, read: Headers)
    ensures !KnownVerb(FirstWord(start)) ==> AfterStart(start, read) == Refused(BadMethod)
  {
    hide KnownVerb, FirstWord;
  }

  lemma RequestCases(chunks: seq<seq<Byte>>)
    requires [] !in chunks
    requires !LineFrom(chunks, MAX_LINE_BYTES).Got?
    requires LineFrom(chunks, MAX_LINE_BYTES) == ReadLine(Concat(chunks), MAX_LINE_BYTES)
    ensures RequestFrom(chunks) == RequestOf(Concat(chunks))
  {
    hide LineFrom, ReadLine, Concat, FirstLine, AfterLine, HeadersFrom, ReadHeaders;
  }
}
