/** One audit event: the text that is signed, and the text a verifier rebuilds from the log. */
module AuditEvent {
  import opened Rights
  import opened Text
  import opened Json

  type U16 = n: int | 0 <= n < 0x1_0000
  type U64 = n: int | 0 <= n < 0x1_0000_0000_0000_0000

  datatype Record = Record(
    ts: U64,
    who: Option<string>,
    tree: Option<string>,
    verb: string,
    path: string,
    status: U16,
    bytes: U64,
    duration: U64,
    client: string
  )

  datatype Fault = MissingEvent | BadOptional | MissingString | MissingNumber | BadStatus

  datatype Result<+T> = Ok(value: T) | Err(fault: Fault) {
    predicate IsFailure() {
      Err?
    }

    function PropagateFailure<U>(): Result<U>
      requires Err?
    {
      Err(fault)
    }

    function Extract(): T
      requires Ok?
    {
      value
    }
  }

  // ---- Writing an event ----

  function Labelled(name: string, text: string): string {
    ['"'] + name + ['"', ':'] + text
  }

  function Nullable(s: Option<string>): string {
    if s.Some? then ['"'] + Escape(s.value) + ['"'] else "null"
  }

  function Parts(rec: Record, missed: U64): seq<string> {
    [Labelled("ts", Decimal(rec.ts)),
     Labelled("who", Nullable(rec.who)),
     Labelled("tree", Nullable(rec.tree)),
     Labelled("method", Quote(rec.verb)),
     Labelled("path", Quote(rec.path)),
     Labelled("status", Decimal(rec.status)),
     Labelled("bytes", Decimal(rec.bytes)),
     Labelled("duration_ms", Decimal(rec.duration)),
     Labelled("client_addr", Quote(rec.client))]
    + if missed > 0 then [Labelled("dropped_before", Decimal(missed))] else []
  }

  /** The JSON line of a record, telling how many records were lost before it. */
  function Format(rec: Record, missed: U64): string {
    ['{'] + Join(Parts(rec, missed), ",") + ['}']
  }

  // ---- Rebuilding an event ----

  function OptionalString(event: Members, name: string): Result<Option<string>> {
    match Lookup(event, name)
    case Some(Text(s)) => Ok(Some(s))
    case Some(Null) => Ok(None)
    case _ => Err(BadOptional)
  }

  function String(event: Members, name: string): Result<string> {
    match Lookup(event, name)
    case Some(Text(s)) => Ok(s)
    case _ => Err(MissingString)
  }

  function Whole(event: Members, name: string): Result<U64> {
    match Lookup(event, name)
    case Some(Number(n)) => if n < 0x1_0000_0000_0000_0000 then Ok(n) else Err(MissingNumber)
    case _ => Err(MissingNumber)
  }

  /** The record and the loss count that a logged event states. */
  function Stated(event: Members): Result<(Record, U64)> {
    var status :- Whole(event, "status");
    if status >= 0x1_0000 then Err(BadStatus)
    else
      var bytes :- Whole(event, "bytes");
      var ts :- Whole(event, "ts");
      var who :- OptionalString(event, "who");
      var tree :- OptionalString(event, "tree");
      var verb :- String(event, "method");
      var path :- String(event, "path");
      var duration :- Whole(event, "duration_ms");
      var client :- String(event, "client_addr");
      var dropped := Whole(event, "dropped_before");
      Ok((Record(ts, who, tree, verb, path, status, bytes, duration, client), if dropped.Ok? then dropped.value else 0))
  }

  /** The text that the signature of a logged event must cover. */
  function Canonical(event: Option<Value>): Result<string> {
    if event.None? || !event.value.Object? then Err(MissingEvent)
    else
      var stated :- Stated(event.value.members);
      Ok(Format(stated.0, stated.1))
  }

  // ---- The event as a JSON value ----

  function NullableValue(s: Option<string>): Value {
    if s.Some? then Value.Text(s.value) else Null
  }

  function Document(rec: Record, missed: U64): Members {
    Field("ts", Number(rec.ts),
    Field("who", NullableValue(rec.who),
    Field("tree", NullableValue(rec.tree),
    Field("method", Value.Text(rec.verb),
    Field("path", Value.Text(rec.path),
    Field("status", Number(rec.status),
    Field("bytes", Number(rec.bytes),
    Field("duration_ms", Number(rec.duration),
    Field("client_addr", Value.Text(rec.client),
    if missed > 0 then Field("dropped_before", Number(missed), NoMembers) else NoMembers)))))))))
  }

  function Labels(ms: Members): seq<string> {
    if ms.NoMembers? then []
    else [Quote(ms.name) + [':'] + Print(ms.value)] + Labels(ms.tail)
  }

  lemma {:induction false} PrintJoins(ms: Members)
    ensures PrintMembers(ms) == Join(Labels(ms), ",")
    ensures Labels(ms) == [] <==> ms.NoMembers?
  {
    hide Quote, Print;
    if ms.Field? {
      PrintJoins(ms.tail);
      var first := Quote(ms.name) + [':'] + Print(ms.value);
      assert Labels(ms)[1..] == Labels(ms.tail);
      if ms.tail.Field? {
        assert PrintMembers(ms) == first + ([','] + PrintMembers(ms.tail));
        assert Join(Labels(ms), ",") == first + "," + Join(Labels(ms.tail), ",");
      }
    }
  }

  lemma {:induction false} EscapeOfWord(s: string)
    requires forall i :: 0 <= i < |s| ==> 'a' <= s[i] <= 'z' || s[i] == '_'
    ensures Escape(s) == s
  {
    if s != "" {
      assert EscapeChar(s[0]) == [s[0]];
      hide EscapeChar;
      EscapeOfWord(s[1..]);
      assert [s[0]] + s[1..] == s;
    }
  }

  lemma LabelReads(ms: Members, name: string, text: string)
    requires ms.Field? && ms.name == name && Print(ms.value) == text
    requires forall i :: 0 <= i < |name| ==> 'a' <= name[i] <= 'z' || name[i] == '_'
    ensures Labels(ms) == [Labelled(name, text)] + Labels(ms.tail)
  {
    hide Escape, Print;
    EscapeOfWord(name);
    assert Quote(name) + [':'] + text == Labelled(name, text);
  }

  lemma LastLabels(rec: Record, missed: U64)
    ensures Labels(Document(rec, missed).tail.tail.tail.tail.tail) == Parts(rec, missed)[5..]
  {
    hide Escape, Decimal, Labelled;
    var m5 := Document(rec, missed).tail.tail.tail.tail.tail;
    var m8 := m5.tail.tail.tail;
    LabelReads(m5, "status", Decimal(rec.status));
    LabelReads(m5.tail, "bytes", Decimal(rec.bytes));
    LabelReads(m5.tail.tail, "duration_ms", Decimal(rec.duration));
    LabelReads(m8, "client_addr", Quote(rec.client));
    if missed > 0 {
      LabelReads(m8.tail, "dropped_before", Decimal(missed));
    }
  }

  lemma FirstLabels(rec: Record, missed: U64)
    ensures Labels(Document(rec, missed)) ==
            Parts(rec, missed)[..5] + Labels(Document(rec, missed).tail.tail.tail.tail.tail)
  {
    hide Escape, Decimal, Labelled;
    var m0 := Document(rec, missed);
    var m3 := m0.tail.tail.tail;
    LabelReads(m0, "ts", Decimal(rec.ts));
    LabelReads(m0.tail, "who", Nullable(rec.who));
    LabelReads(m0.tail.tail, "tree", Nullable(rec.tree));
    LabelReads(m3, "method", Quote(rec.verb));
    LabelReads(m3.tail, "path", Quote(rec.path));
  }

  lemma PartsSplit(rec: Record, missed: U64)
    ensures |Parts(rec, missed)| >= 5 && Parts(rec, missed)[..5] + Parts(rec, missed)[5..] == Parts(rec, missed)
  {
  }

  lemma FormatIs(rec: Record, missed: U64)
    ensures Format(rec, missed) == ['{'] + Join(Parts(rec, missed), ",") + ['}']
    ensures Print(Object(Document(rec, missed))) == ['{'] + PrintMembers(Document(rec, missed)) + ['}']
  {
    hide Parts, Document, PrintMembers, Join;
  }

  /** The template writes exactly the JSON object of the record. */
  lemma FormatPrints(rec: Record, missed: U64)
    ensures Format(rec, missed) == Print(Object(Document(rec, missed)))
  {
    hide *;
    FormatIs(rec, missed);
    PartsSplit(rec, missed);
    FirstLabels(rec, missed);
    LastLabels(rec, missed);
    PrintJoins(Document(rec, missed));
  }

  lemma LookupOne(ms: Members, name: string)
    requires ms.Field?
    ensures Lookup(ms, name) ==
            if Lookup(ms.tail, name).None? && ms.name == name then Some(ms.value) else Lookup(ms.tail, name)
  {
  }

  lemma LookupLate(rec: Record, missed: U64, name: string)
    ensures Lookup(Document(rec, missed).tail.tail.tail.tail.tail, name) ==
            if name == "status" then Some(Number(rec.status))
            else if name == "bytes" then Some(Number(rec.bytes))
            else if name == "duration_ms" then Some(Number(rec.duration))
            else if name == "client_addr" then Some(Value.Text(rec.client))
            else if name == "dropped_before" && missed > 0 then Some(Number(missed))
            else None
  {
    hide Lookup;
    var m5 := Document(rec, missed).tail.tail.tail.tail.tail;
    LookupOne(m5, name);
    LookupOne(m5.tail, name);
    LookupOne(m5.tail.tail, name);
    LookupOne(m5.tail.tail.tail, name);
    if missed > 0 {
      LookupOne(m5.tail.tail.tail.tail, name);
    }
    assert Lookup(NoMembers, name) == None by { LookupNone(name); }
  }

  lemma LookupNone(name: string)
    ensures Lookup(NoMembers, name) == None
  {
  }

  lemma LookupEarly(rec: Record, missed: U64, name: string)
    ensures var late := Lookup(Document(rec, missed).tail.tail.tail.tail.tail, name);
            Lookup(Document(rec, missed), name) ==
            if late.Some? then late
            else if name == "ts" then Some(Number(rec.ts))
            else if name == "who" then Some(NullableValue(rec.who))
            else if name == "tree" then Some(NullableValue(rec.tree))
            else if name == "method" then Some(Value.Text(rec.verb))
            else if name == "path" then Some(Value.Text(rec.path))
            else None
  {
    hide Lookup;
    var m0 := Document(rec, missed);
    LookupOne(m0, name);
    LookupOne(m0.tail, name);
    LookupOne(m0.tail.tail, name);
    LookupOne(m0.tail.tail.tail, name);
    LookupOne(m0.tail.tail.tail.tail, name);
  }

  /** What a name is bound to in the document of a record. */
  function Bound(rec: Record, missed: U64, name: string): Option<Value> {
    if name == "status" then Some(Number(rec.status))
            else if name == "bytes" then Some(Number(rec.bytes))
            else if name == "duration_ms" then Some(Number(rec.duration))
            else if name == "client_addr" then Some(Value.Text(rec.client))
            else if name == "dropped_before" && missed > 0 then Some(Number(missed))
            else if name == "ts" then Some(Number(rec.ts))
            else if name == "who" then Some(NullableValue(rec.who))
            else if name == "tree" then Some(NullableValue(rec.tree))
            else if name == "method" then Some(Value.Text(rec.verb))
            else if name == "path" then Some(Value.Text(rec.path))
            else None
  }

  lemma LookupDocument(rec: Record, missed: U64, name: string)
    ensures Lookup(Document(rec, missed), name) == Bound(rec, missed, name)
  {
    hide Lookup, Document;
    LookupLate(rec, missed, name);
    LookupEarly(rec, missed, name);
  }

  lemma DocumentStates(rec: Record, missed: U64)
    ensures Stated(Document(rec, missed)) == Ok((rec, missed))
  {
    hide Lookup, Document;
    var d := Document(rec, missed);
    LookupDocument(rec, missed, "ts");
    LookupDocument(rec, missed, "who");
    LookupDocument(rec, missed, "tree");
    LookupDocument(rec, missed, "method");
    LookupDocument(rec, missed, "path");
    LookupDocument(rec, missed, "status");
    LookupDocument(rec, missed, "bytes");
    LookupDocument(rec, missed, "duration_ms");
    LookupDocument(rec, missed, "client_addr");
    LookupDocument(rec, missed, "dropped_before");
  }

  /** The signed text of a record survives the log: what a verifier rebuilds is identical to it. */
  lemma CanonicalOfFormat(rec: Record, missed: U64)
    ensures Parse(Format(rec, missed)) == Some(Object(Document(rec, missed)))
    ensures Canonical(Parse(Format(rec, missed))) == Ok(Format(rec, missed))
  {
    hide Format, Document, Parse, Print, Stated;
    FormatPrints(rec, missed);
    ParsePrint(Object(Document(rec, missed)));
    DocumentStates(rec, missed);
  }

  /** Different records, or different losses, are never written as the same text. */
  lemma FormatInjective(a: Record, b: Record, missedA: U64, missedB: U64)
    requires Format(a, missedA) == Format(b, missedB)
    ensures a == b && missedA == missedB
  {
    hide Format, Document, Parse, Stated;
    CanonicalOfFormat(a, missedA);
    CanonicalOfFormat(b, missedB);
    DocumentStates(a, missedA);
    DocumentStates(b, missedB);
  }

  /** Whatever the log holds, the rebuilt text is the text of some record and rebuilds to itself. */
  lemma CanonicalIsStable(event: Option<Value>)
    requires Canonical(event).Ok?
    ensures exists rec: Record, missed: U64 :: Canonical(event).value == Format(rec, missed)
    ensures Canonical(Parse(Canonical(event).value)) == Canonical(event)
  {
    hide Format, Document, Parse, Stated;
    var stated := Stated(event.value.members).value;
    CanonicalOfFormat(stated.0, stated.1);
  }

  /** An event is one line of the log, whatever bytes the request carried. */
  lemma FormatIsOneLine(rec: Record, missed: U64)
    ensures '\n' !in Format(rec, missed) && '\r' !in Format(rec, missed)
  {
    hide Format, Document, Print;
    FormatPrints(rec, missed);
    PrintPlain(Object(Document(rec, missed)));
    assert IsControl('\n') && IsControl('\r');
  }

  /** The signed message determines the predecessor and the event it was made of. */
  lemma MessageDetermines(p: string, q: string, event: string, other: string)
    requires '\n' !in p && '\n' !in q
    requires p + "\n" + event == q + "\n" + other
    ensures p == q && event == other
  {
    var m := p + "\n" + event;
    FindAt(p, '\n', event);
    FindAt(q, '\n', other);
    assert m[..|p|] == p && m[..|q|] == q;
    assert m[|p| + 1..] == event && m[|q| + 1..] == other;
  }
}
