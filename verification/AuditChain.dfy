/** The signed audit log on disk: its writers, its rotation and its verifier. */
module AuditChain {
  import opened Rights
  import opened Text
  import opened Json
  import opened AuditEvent
  import Utf8
  import Sha256
  import Hmac

  // Signatures are symbolic. The tag of a line is the term built from the signing
  // key, the predecessor's tag and the signed event, so equal tags mean equal
  // histories. Of a key only the block matters that HMAC makes of it. A text that no
  // writer produced is a `Foreign` tag.

  type Key = seq<Sha256.Byte>

  datatype Tag = Blank | Mac(block: Key, previous: Tag, event: string) | Foreign(text: string)

  /** One line of a segment, as far as it can be read. */
  datatype Logged = Garbage | Logged(event: Option<Value>, previous: Option<Tag>, hmac: Option<Tag>)

  datatype Segment = Segment(lines: seq<Logged>, bytes: nat)

  /** The current segment and the one retained by rotation. */
  datatype Disk = Disk(current: Option<Segment>, backup: Option<Segment>)

  datatype Problem = NotJson | BadEvent(fault: Fault) | Unsigned | Discontinuity | Mismatch

  datatype Place = InBackup | InCurrent

  datatype Verdict = Valid(count: nat) | ShortKey | Unreadable | Broken(place: Place, line: nat, problem: Problem)

  const MAX_BYTES := 10 * 1024 * 1024

  function Utf8Bytes(s: string): nat {
    |Utf8.Encode(s)|
  }

  /** The length of a signed line: 104 bytes of frame and signature around the event and the predecessor. */
  function LineBytes(previous: Tag, event: string): nat {
    Utf8Bytes(event) + 104 + if previous.Blank? then 0 else 64
  }

  function Signed(block: Key, previous: Tag, event: string): Logged {
    Logged(Parse(event), Some(previous), Some(Mac(block, previous, event)))
  }

  // ---- Writing one record ----

  /** Text that looks like a signature: 64 hexadecimal digits. */
  predicate LooksSigned(t: Tag) {
    match t
    case Blank => false
    case Mac(_, _, _) => true
    case Foreign(text) => |text| == 64 && forall c | c in text :: HexValue(c).Some?
  }

  function LastTag(lines: seq<Logged>): Option<Tag> {
    if lines == [] then None
    else
      var line := lines[|lines| - 1];
      if line.Logged? && line.hmac.Some? && LooksSigned(line.hmac.value) then line.hmac
      else LastTag(lines[..|lines| - 1])
  }

  function LinesOf(segment: Option<Segment>): seq<Logged> {
    if segment.Some? then segment.value.lines else []
  }

  /** The tag that the next line must follow: from the current segment, else from the backup. */
  function Predecessor(disk: Disk): Tag {
    var current := LastTag(LinesOf(disk.current));
    var backup := LastTag(LinesOf(disk.backup));
    if current.Some? then current.value else if backup.Some? then backup.value else Blank
  }

  predicate Full(disk: Disk) {
    disk.current.Some? && disk.current.value.bytes >= MAX_BYTES
  }

  function Rotate(disk: Disk, renames: bool): Disk {
    if Full(disk) && renames then Disk(None, disk.current) else disk
  }

  function Append(disk: Disk, block: Key, previous: Tag, event: string): Disk {
    var was := if disk.current.Some? then disk.current.value else Segment([], 0);
    var line := Signed(block, previous, event);
    disk.(current := Some(Segment(was.lines + [line], was.bytes + LineBytes(previous, event))))
  }

  class Log {
    var disk: Disk

    constructor ()
      ensures disk == Disk(None, None)
    {
      disk := Disk(None, None);
    }

    /** Rotates and appends while the lock is held; `renames` and `appends` say whether the file system obliges. */
    method WriteRecordLocked(key: Key, rec: Record, missed: U64, renames: bool, appends: bool)
      returns (hmac: Option<Tag>)
      modifies this
      ensures var rotated := Rotate(old(disk), renames);
              var (block, previous, event) := (Hmac.KeyBlock(key), Predecessor(rotated), Format(rec, missed));
              && hmac == (if appends then Some(Mac(block, previous, event)) else None)
              && disk == if appends then Append(rotated, block, previous, event) else rotated
    {
      hide Hmac.KeyBlock;
      if disk.current.Some? && disk.current.value.bytes >= MAX_BYTES && renames {
        disk := Disk(None, disk.current);
      }
      var event := Format(rec, missed);
      var previous := Predecessor(disk);
      if !appends {
        return None;
      }
      var line := Signed(Hmac.KeyBlock(key), previous, event);
      if disk.current.None? {
        disk := disk.(current := Some(Segment([], 0)));
      }
      var segment := disk.current.value;
      disk := disk.(current := Some(Segment(segment.lines + [line], segment.bytes + LineBytes(previous, event))));
      hmac := line.hmac;
    }
  }

  // ---- Verifying ----

  /** What is wrong with a line that should follow `previous` and be signed with the key of `block`, in
      the order of the checks. */
  function Judge(line: Logged, previous: Tag, block: Key): Option<Problem> {
    if line.Garbage? then Some(NotJson)
    else
      var event := Canonical(line.event);
      if event.Err? then Some(BadEvent(event.fault))
      else if line.previous.None? || line.hmac.None? then Some(Unsigned)
      else if line.previous.value != previous then Some(Discontinuity)
      else if line.hmac.value != Mac(block, previous, event.value) then Some(Mismatch)
      else None
  }

  /** The tag recorded just before position `k`. */
  function TagBefore(lines: seq<Logged>, k: nat): Tag
    requires k <= |lines|
  {
    if k > 0 && lines[k - 1].Logged? && lines[k - 1].hmac.Some? then lines[k - 1].hmac.value else Blank
  }

  predicate GoodAt(lines: seq<Logged>, k: nat, block: Key)
    requires k < |lines|
  {
    Judge(lines[k], TagBefore(lines, k), block).None?
  }

  /** A chain from the very first record on, all of it under one key. */
  ghost predicate Chained(lines: seq<Logged>, block: Key) {
    forall k :: 0 <= k < |lines| ==> GoodAt(lines, k, block)
  }

  function Retained(disk: Disk): seq<Logged> {
    LinesOf(disk.backup) + LinesOf(disk.current)
  }

  /** The position among all retained lines that a place and a line number name. */
  function Position(disk: Disk, place: Place, line: nat): nat {
    if place.InBackup? then line else |LinesOf(disk.backup)| + line
  }

  /** The verdict that the design promises, in terms of all retained lines at once. */
  ghost predicate Deserves(disk: Disk, key: Key, v: Verdict) {
    var lines, block := Retained(disk), Hmac.KeyBlock(key);
    var first := |LinesOf(disk.backup)|;
    match v
    case ShortKey => |key| < 32
    case Valid(n) => |key| >= 32 && disk.current.Some? && Chained(lines, block) && n == |lines|
    case Unreadable => |key| >= 32 && disk.current.None? && Chained(lines, block)
    case Broken(place, line, problem) =>
      var k := Position(disk, place, line);
      && |key| >= 32
      && k < |lines| && (place.InBackup? <==> k < first)
      && (forall j :: 0 <= j < k ==> GoodAt(lines, j, block))
      && Judge(lines[k], TagBefore(lines, k), block) == Some(problem)
  }

  /** Walks one segment, whose lines start at position `from` of `lines`. */
  method VerifySegment(text: seq<Logged>, start: Tag, block: Key, ghost lines: seq<Logged>, ghost from: nat)
    returns (previous: Tag, bad: Option<(nat, Problem)>)
    requires from + |text| <= |lines| && lines[from..from + |text|] == text
    requires forall j :: 0 <= j < from ==> GoodAt(lines, j, block)
    requires start == TagBefore(lines, from)
    ensures bad.None? ==> forall j :: 0 <= j < from + |text| ==> GoodAt(lines, j, block)
    ensures bad.None? ==> previous == TagBefore(lines, from + |text|)
    ensures bad.Some? ==>
              var k := from + bad.value.0;
              && k < from + |text|
              && (forall j :: 0 <= j < k ==> GoodAt(lines, j, block))
              && Judge(lines[k], TagBefore(lines, k), block) == Some(bad.value.1)
  {
    hide Canonical;
    previous := start;
    for i := 0 to |text|
      invariant forall j :: 0 <= j < from + i ==> GoodAt(lines, j, block)
      invariant previous == TagBefore(lines, from + i)
    {
      var line := text[i];
      assert line == lines[from..from + |text|][i] == lines[from + i];
      if line.Garbage? {
        return previous, Some((i, NotJson));
      }
      var event := Canonical(line.event);
      if event.Err? {
        return previous, Some((i, BadEvent(event.fault)));
      }
      if line.previous.None? || line.hmac.None? {
        return previous, Some((i, Unsigned));
      }
      if line.previous.value != previous {
        return previous, Some((i, Discontinuity));
      }
      if line.hmac.value != Mac(block, previous, event.value) {
        return previous, Some((i, Mismatch));
      }
      previous := line.hmac.value;
    }
    bad := None;
  }

  /** Where each segment sits among the retained lines. */
  lemma RetainedParts(disk: Disk)
    ensures var lines, first := Retained(disk), |LinesOf(disk.backup)|;
            && |lines| == first + |LinesOf(disk.current)|
            && lines[0..first] == LinesOf(disk.backup) && lines[first..|lines|] == LinesOf(disk.current)
            && TagBefore(lines, 0) == Blank
    ensures disk.backup.Some? ==> LinesOf(disk.backup) == disk.backup.value.lines
    ensures disk.current.Some? ==> LinesOf(disk.current) == disk.current.value.lines
    ensures disk.backup.None? ==> LinesOf(disk.backup) == []
    ensures disk.current.None? ==> LinesOf(disk.current) == []
  {
  }

  lemma Accepts(disk: Disk, key: Key)
    requires |key| >= 32
    requires forall j :: 0 <= j < |Retained(disk)| ==> GoodAt(Retained(disk), j, Hmac.KeyBlock(key))
    ensures Deserves(disk, key, if disk.current.Some? then Valid(|Retained(disk)|) else Unreadable)
  {
    hide GoodAt, Hmac.KeyBlock;
  }

  lemma Rejects(disk: Disk, key: Key, place: Place, line: nat, problem: Problem)
    requires |key| >= 32
    requires line < |LinesOf(if place.InBackup? then disk.backup else disk.current)|
    requires var lines, k := Retained(disk), (if place.InBackup? then line else |LinesOf(disk.backup)| + line);
             && k < |lines| && (forall j :: 0 <= j < k ==> GoodAt(lines, j, Hmac.KeyBlock(key)))
             && Judge(lines[k], TagBefore(lines, k), Hmac.KeyBlock(key)) == Some(problem)
    ensures Deserves(disk, key, Broken(place, line, problem))
  {
    hide GoodAt, Judge, Hmac.KeyBlock;
  }

  lemma RefusesShortKeys(disk: Disk, key: Key)
    requires |key| < 32
    ensures Deserves(disk, key, ShortKey)
  {
    hide Hmac.KeyBlock;
  }

  method Verify(disk: Disk, key: Key) returns (v: Verdict)
    ensures Deserves(disk, key, v)
  {
    hide *;
    if |key| < 32 {
      RefusesShortKeys(disk, key);
      return ShortKey;
    }
    RetainedParts(disk);
    var segments := [(InCurrent, disk.current)];
    if disk.backup.Some? {
      segments := [(InBackup, disk.backup)] + segments;
    }
    var block := Hmac.KeyBlock(key);
    var previous, count := Blank, 0;
    ghost var lines := Retained(disk);
    for s := 0 to |segments|
      invariant count == (if s == 0 then 0 else if s == |segments| then |lines| else |LinesOf(disk.backup)|)
      invariant s == |segments| ==> disk.current.Some?
      invariant forall j :: 0 <= j < count ==> GoodAt(lines, j, block)
      invariant previous == TagBefore(lines, count)
    {
      var (place, segment) := segments[s];
      if segment.None? {
        Accepts(disk, key);
        return Unreadable;
      }
      var text := segment.value.lines;
      var bad;
      previous, bad := VerifySegment(text, previous, block, lines, count);
      if bad.Some? {
        Rejects(disk, key, place, bad.value.0, bad.value.1);
        return Broken(place, bad.value.0, bad.value.1);
      }
      count := count + |text|;
    }
    Accepts(disk, key);
    return Valid(count);
  }

  lemma BrokenAtBad(disk: Disk, key: Key, v: Verdict)
    requires Deserves(disk, key, v) && v.Broken?
    ensures var lines, k, block := Retained(disk), Position(disk, v.place, v.line), Hmac.KeyBlock(key);
            && k < |lines| && !GoodAt(lines, k, block)
            && forall j :: 0 <= j < k ==> GoodAt(lines, j, block)
  {
    hide Judge, Hmac.KeyBlock;
  }

  /** Every disk has one verdict: the contract of `Verify` leaves no choice. */
  lemma VerdictIsUnique(disk: Disk, key: Key, v: Verdict, w: Verdict)
    requires Deserves(disk, key, v) && Deserves(disk, key, w)
    ensures v == w
  {
    hide Judge, GoodAt, Hmac.KeyBlock;
    if v.Broken? {
      BrokenAtBad(disk, key, v);
    }
    if w.Broken? {
      BrokenAtBad(disk, key, w);
    }
  }

  // ---- The text of a signed line ----

  function InQuotes(s: string): string {
    ['"'] + s + ['"']
  }

  /** The line as it is written; `p` and `h` are the two signatures in hexadecimal. */
  function LineText(event: string, p: string, h: string): string {
    ['{']
    + Join([Labelled("event", event), Labelled("previous_hmac", InQuotes(p)), Labelled("hmac", InQuotes(h))], ",")
    + ['}']
  }

  predicate Hexadecimal(s: string) {
    forall c | c in s :: HexValue(c).Some?
  }

  lemma {:induction false} EscapeOfHex(s: string)
    requires Hexadecimal(s)
    ensures Escape(s) == s
  {
    if s != "" {
      assert EscapeChar(s[0]) == [s[0]] by { assert s[0] in s; }
      hide EscapeChar, HexValue;
      EscapeOfHex(s[1..]);
      assert [s[0]] + s[1..] == s;
    }
  }

  function LineValue(event: Value, p: string, h: string): Members {
    Field("event", event, Field("previous_hmac", Value.Text(p), Field("hmac", Value.Text(h), NoMembers)))
  }

  lemma LineTextPrints(event: Value, p: string, h: string)
    requires Hexadecimal(p) && Hexadecimal(h)
    ensures LineText(Print(event), p, h) == Print(Object(LineValue(event, p, h)))
  {
    hide Escape, Labelled, Join, Print, Quote, PrintMembers, InQuotes, Labels, LineValue;
    var ms := LineValue(event, p, h);
    LineLabels(event, p, h);
    PrintJoins(ms);
    ObjectPrints(ms);
  }

  lemma LabelsNone()
    ensures Labels(NoMembers) == []
  {
  }

  lemma SignatureLabels(p: string, h: string)
    requires Hexadecimal(p) && Hexadecimal(h)
    ensures Labels(Field("previous_hmac", Value.Text(p), Field("hmac", Value.Text(h), NoMembers))) ==
            [Labelled("previous_hmac", InQuotes(p)), Labelled("hmac", InQuotes(h))]
  {
    hide *;
    HexPrints(p);
    HexPrints(h);
    LabelsNone();
    LabelReads(Field("hmac", Value.Text(h), NoMembers), "hmac", InQuotes(h));
    var last := Field("hmac", Value.Text(h), NoMembers);
    LabelReads(Field("previous_hmac", Value.Text(p), last), "previous_hmac", InQuotes(p));
  }

  lemma LineFields(event: Value, p: string, h: string)
    ensures LineValue(event, p, h)
         == Field("event", event, Field("previous_hmac", Value.Text(p), Field("hmac", Value.Text(h), NoMembers)))
  {
  }

  lemma LineLabels(event: Value, p: string, h: string)
    requires Hexadecimal(p) && Hexadecimal(h)
    ensures Labels(LineValue(event, p, h)) ==
            [Labelled("event", Print(event)), Labelled("previous_hmac", InQuotes(p)), Labelled("hmac", InQuotes(h))]
  {
    hide *;
    LineFields(event, p, h);
    SignatureLabels(p, h);
    LabelReads(LineValue(event, p, h), "event", Print(event));
  }

  lemma HexPrints(s: string)
    requires Hexadecimal(s)
    ensures Print(Value.Text(s)) == InQuotes(s)
  {
    EscapeOfHex(s);
  }

  lemma ObjectPrints(ms: Members)
    ensures Print(Object(ms)) == ['{'] + PrintMembers(ms) + ['}']
  {
  }

  /** A reader of the line finds the event and both signatures that were written. */
  lemma LineReads(rec: Record, missed: U64, p: string, h: string)
    requires Hexadecimal(p) && Hexadecimal(h)
    ensures Parse(LineText(Format(rec, missed), p, h)) == Some(Object(LineValue(Object(Document(rec, missed)), p, h)))
  {
    hide Format, Document, Parse, Print, LineText;
    var event := Object(Document(rec, missed));
    FormatPrints(rec, missed);
    LineTextPrints(event, p, h);
    ParsePrint(Object(LineValue(event, p, h)));
  }

  lemma Utf8Append(s: string, t: string)
    ensures Utf8Bytes(s + t) == Utf8Bytes(s) + Utf8Bytes(t)
  {
    Utf8.EncodeAppend(s, t);
  }

  lemma Utf8OfAscii(s: string)
    requires forall i :: 0 <= i < |s| ==> s[i] as int < 0x80
    ensures Utf8Bytes(s) == |s|
  {
    Utf8.AsciiLength(s);
  }

  lemma JoinThree(a: string, b: string, c: string)
    ensures Join([a, b, c], ",") == a + "," + (b + "," + c)
  {
    var parts := [a, b, c];
    assert parts[1..] == [b, c] && [b, c][1..] == [c];
    assert Join([b, c], ",") == b + "," + Join([c], ",");
    assert Join(parts, ",") == a + "," + Join([b, c], ",");
  }

  lemma LabelledBytes(name: string, text: string)
    requires forall i :: 0 <= i < |name| ==> name[i] as int < 0x80
    ensures Utf8Bytes(Labelled(name, text)) == |name| + 3 + Utf8Bytes(text)
  {
    hide Utf8Bytes;
    var front := ['"'] + name + ['"', ':'];
    Utf8OfAscii(front);
    Utf8Append(front, text);
  }

  lemma SignatureBytes(name: string, s: string)
    requires forall i :: 0 <= i < |name| ==> name[i] as int < 0x80
    requires Hexadecimal(s)
    ensures Utf8Bytes(Labelled(name, InQuotes(s))) == |name| + |s| + 5
  {
    hide Utf8Bytes, Labelled;
    LabelledBytes(name, InQuotes(s));
    forall i | 0 <= i < |InQuotes(s)| ensures InQuotes(s)[i] as int < 0x80 {
      if 0 < i <= |s| {
        assert InQuotes(s)[i] == s[i - 1] && s[i - 1] in s;
      }
    }
    Utf8OfAscii(InQuotes(s));
  }

  lemma BracedBytes(a: string, b: string, c: string)
    ensures Utf8Bytes(['{'] + (a + "," + (b + "," + c)) + ['}'] + ['\n']) ==
            Utf8Bytes(a) + Utf8Bytes(b) + Utf8Bytes(c) + 5
  {
    Utf8OfAscii(['{']);
    Utf8OfAscii(['}']);
    Utf8OfAscii(",");
    Utf8OfAscii(['\n']);
    hide Utf8Bytes;
    var inner := a + "," + (b + "," + c);
    Utf8Append(['{'] + inner + ['}'], ['\n']);
    Utf8Append(['{'] + inner, ['}']);
    Utf8Append(['{'], inner);
    Utf8Append(a + ",", b + "," + c);
    Utf8Append(a, ",");
    Utf8Append(b + ",", c);
    Utf8Append(b, ",");
  }

  /** What rotation measures: `LineBytes` is the size of the written line with its newline. */
  lemma LineTextBytes(event: string, previous: Tag, p: string, h: string)
    requires Hexadecimal(p) && Hexadecimal(h) && |h| == 64
    requires |p| == if previous.Blank? then 0 else 64
    ensures Utf8Bytes(LineText(event, p, h) + ['\n']) == LineBytes(previous, event)
  {
    hide Utf8Bytes, Join, Labelled, InQuotes, Hexadecimal;
    var a, b, c := Labelled("event", event), Labelled("previous_hmac", InQuotes(p)), Labelled("hmac", InQuotes(h));
    LabelledBytes("event", event);
    SignatureBytes("previous_hmac", p);
    SignatureBytes("hmac", h);
    JoinThree(a, b, c);
    BracedBytes(a, b, c);
  }
}
