/** The signed log as file texts: what a reader makes of a line, and the verifier over two files. */
module AuditText {
  import opened Text
  import opened Rights
  import opened Json
  import opened AuditEvent
  import opened AuditChain
  import opened AuditRuns
  import Hmac

  // A signature on disk is a text. `tagOf` says which symbolic tag a text is: it
  // names the writers' signatures as their `Mac` terms, everything else as `Foreign`.

  /** The verifier compares texts, so different texts have different tags. */
  ghost predicate Faithful(tagOf: string -> Tag) {
    && tagOf("") == Blank
    && (forall s :: tagOf(s).Foreign? ==> tagOf(s).text == s)
    && (forall s :: tagOf(s).Mac? ==> |s| == 64 && Hexadecimal(s))
    && (forall s, t :: tagOf(s) == tagOf(t) ==> s == t)
  }

  function Signature(members: Members, name: string, tagOf: string -> Tag): Option<Tag> {
    match Lookup(members, name)
    case Some(Text(s)) => Some(tagOf(s))
    case _ => None
  }

  function ReadLogged(line: string, tagOf: string -> Tag): Logged {
    match Parse(line)
    case None => Garbage
    case Some(Object(ms)) =>
      Logged(Lookup(ms, "event"), Signature(ms, "previous_hmac", tagOf), Signature(ms, "hmac", tagOf))
    case Some(_) => Logged(None, None, None)
  }

  function ReadSegment(text: string, tagOf: string -> Tag): Segment {
    var lines := Lines(text);
    Segment(seq(|lines|, i requires 0 <= i < |lines| => ReadLogged(lines[i], tagOf)), Utf8Bytes(text))
  }

  function ReadFile(text: Option<string>, tagOf: string -> Tag): Option<Segment> {
    if text.None? then None else Some(ReadSegment(text.value, tagOf))
  }

  /** The two files as the verifier reads them. */
  function DiskOf(current: Option<string>, backup: Option<string>, tagOf: string -> Tag): Disk {
    Disk(ReadFile(current, tagOf), ReadFile(backup, tagOf))
  }

  method VerifyFiles(current: Option<string>, backup: Option<string>, key: Key, tagOf: string -> Tag)
    returns (v: Verdict)
    requires Faithful(tagOf)
    ensures Deserves(DiskOf(current, backup, tagOf), key, v)
  {
    v := Verify(DiskOf(current, backup, tagOf), key);
  }

  // ---- What writers wrote reads back ----

  /** A line as written: the key, the record, the loss count and the two signatures in hexadecimal. */
  datatype Emitted = Emitted(key: Key, rec: Record, missed: U64, p: string, h: string)

  ghost predicate Proper(e: Emitted, tagOf: string -> Tag) {
    && Hexadecimal(e.p) && Hexadecimal(e.h)
    && tagOf(e.h) == Mac(Hmac.KeyBlock(e.key), tagOf(e.p), Format(e.rec, e.missed))
  }

  /** The signed line that a written one stands for. */
  function Meant(e: Emitted, tagOf: string -> Tag): Logged {
    Signed(Hmac.KeyBlock(e.key), tagOf(e.p), Format(e.rec, e.missed))
  }

  function TextOf(e: Emitted): string {
    LineText(Format(e.rec, e.missed), e.p, e.h)
  }

  function TextsOf(es: seq<Emitted>): (r: seq<string>)
    ensures |r| == |es|
  {
    if es == [] then [] else [TextOf(es[0])] + TextsOf(es[1..])
  }

  lemma LookupWritten(event: Value, p: string, h: string)
    ensures var ms := LineValue(event, p, h);
            && Lookup(ms, "event") == Some(event)
            && Lookup(ms, "previous_hmac") == Some(Value.Text(p)) && Lookup(ms, "hmac") == Some(Value.Text(h))
  {
    var ms := LineValue(event, p, h);
    LookupNone("event");
    LookupNone("previous_hmac");
    LookupNone("hmac");
    hide Lookup;
    LookupThree(ms, "event");
    LookupThree(ms, "previous_hmac");
    LookupThree(ms, "hmac");
  }

  lemma LookupThree(ms: Members, name: string)
    requires ms.Field? && ms.tail.Field? && ms.tail.tail.Field? && ms.tail.tail.tail.NoMembers?
    ensures Lookup(ms, name) ==
            if ms.tail.tail.name == name then Some(ms.tail.tail.value)
            else if ms.tail.name == name then Some(ms.tail.value)
            else if ms.name == name then Some(ms.value)
            else None
  {
    hide Lookup;
    LookupNone(name);
    LookupOne(ms, name);
    LookupOne(ms.tail, name);
    LookupOne(ms.tail.tail, name);
  }

  /** A line a writer emitted is read as the signed line it stands for. */
  lemma WrittenLineReads(e: Emitted, tagOf: string -> Tag)
    requires Proper(e, tagOf)
    ensures ReadLogged(TextOf(e), tagOf) == Meant(e, tagOf)
  {
    hide Hmac.KeyBlock, Parse, Format, LineText, Document, Lookup, LineValue;
    var event := Object(Document(e.rec, e.missed));
    LineReads(e.rec, e.missed, e.p, e.h);
    CanonicalOfFormat(e.rec, e.missed);
    LookupWritten(event, e.p, e.h);
  }

  lemma LineIsPlain(e: Emitted)
    requires Hexadecimal(e.p) && Hexadecimal(e.h)
    ensures '\n' !in TextOf(e) && !EndsInCR(TextOf(e))
  {
    hide Format, LineText, Document, LineValue, Print;
    var event := Object(Document(e.rec, e.missed));
    FormatPrints(e.rec, e.missed);
    LineTextPrints(event, e.p, e.h);
    PrintPlain(Object(LineValue(event, e.p, e.h)));
    assert IsControl('\n') && IsControl('\r');
  }

  lemma {:induction false} TextsAt(es: seq<Emitted>, i: nat)
    requires i < |es|
    ensures TextsOf(es)[i] == TextOf(es[i])
  {
    hide TextOf;
    if i > 0 {
      TextsAt(es[1..], i - 1);
    }
  }

  lemma TextsArePlain(es: seq<Emitted>)
    requires forall e :: e in es ==> Hexadecimal(e.p) && Hexadecimal(e.h)
    ensures forall l :: l in TextsOf(es) ==> '\n' !in l && !EndsInCR(l)
  {
    hide TextOf, TextsOf, EndsInCR, Hexadecimal;
    forall l | l in TextsOf(es) ensures '\n' !in l && !EndsInCR(l) {
      var i :| 0 <= i < |TextsOf(es)| && TextsOf(es)[i] == l;
      TextsAt(es, i);
      assert es[i] in es;
      LineIsPlain(es[i]);
    }
  }

  /** A segment written line by line reads back as its signed lines, in order. */
  lemma WrittenSegmentReads(es: seq<Emitted>, tagOf: string -> Tag)
    requires forall e :: e in es ==> Proper(e, tagOf)
    ensures var lines := ReadSegment(Unlines(TextsOf(es)), tagOf).lines;
            && |lines| == |es|
            && forall i :: 0 <= i < |es| ==> lines[i] == Meant(es[i], tagOf)
  {
    hide TextOf, TextsOf, EndsInCR, Hexadecimal, Format, ReadLogged, Lines, Unlines, StripCRs, Meant, Hmac.KeyBlock;
    var texts := TextsOf(es);
    TextsArePlain(es);
    LinesOfUnlines(texts);
    PlainStripped(texts);
    forall i | 0 <= i < |es|
      ensures ReadLogged(texts[i], tagOf) == Meant(es[i], tagOf)
    {
      TextsAt(es, i);
      assert es[i] in es;
      WrittenLineReads(es[i], tagOf);
    }
  }

  lemma {:induction false} PlainStripped(lines: seq<string>)
    requires forall l :: l in lines ==> !EndsInCR(l)
    ensures StripCRs(lines) == lines
  {
    if lines != [] {
      assert lines[0] in lines && forall l :: l in lines[1..] ==> l in lines;
      PlainStripped(lines[1..]);
      assert lines == [lines[0]] + lines[1..];
    }
  }

  // ---- What the verifier says of file texts ----

  /** The signed history: every line was written after the one before it. */
  ghost predicate History(es: seq<Emitted>, tagOf: string -> Tag) {
    && (forall e :: e in es ==> Proper(e, tagOf))
    && (forall k :: 0 <= k < |es| ==> es[k].p == if k == 0 then "" else es[k - 1].h)
  }

  function AllMeant(es: seq<Emitted>, tagOf: string -> Tag): seq<Logged> {
    seq(|es|, i requires 0 <= i < |es| => Meant(es[i], tagOf))
  }

  lemma MeantIsGood(e: Emitted, tagOf: string -> Tag)
    ensures var l := Meant(e, tagOf);
            && Canonical(l.event) == Ok(Format(e.rec, e.missed))
            && l.previous == Some(tagOf(e.p)) && BlockOf(l) == Hmac.KeyBlock(e.key)
            && l.hmac == Some(Mac(Hmac.KeyBlock(e.key), tagOf(e.p), Format(e.rec, e.missed)))
  {
    hide Parse, Format, Canonical, Hmac.KeyBlock;
    CanonicalOfFormat(e.rec, e.missed);
  }

  lemma LinkedWhenGood(lines: seq<Logged>, k: nat, block: Key, event: string)
    requires k < |lines| && lines[k].Logged? && Canonical(lines[k].event) == Ok(event)
    requires lines[k].previous == Some(TagBefore(lines, k))
    requires lines[k].hmac == Some(Mac(block, TagBefore(lines, k), event))
    ensures LinkedAt(lines, k)
  {
    hide Canonical;
  }

  lemma HistoryIsLinked(es: seq<Emitted>, tagOf: string -> Tag)
    requires Faithful(tagOf) && History(es, tagOf)
    ensures Linked(AllMeant(es, tagOf))
  {
    hide Meant, Format, Canonical, Linked, LinkedAt, Hmac.KeyBlock, Hexadecimal;
    var lines := AllMeant(es, tagOf);
    forall k | 0 <= k < |lines| ensures LinkedAt(lines, k) {
      MeantIsGood(es[k], tagOf);
      if k > 0 {
        MeantIsGood(es[k - 1], tagOf);
        assert es[k - 1] in es;
      }
      LinkedWhenGood(lines, k, Hmac.KeyBlock(es[k].key), Format(es[k].rec, es[k].missed));
    }
    LinkedWhen(lines);
  }

  function FileLines(text: Option<string>): seq<string> {
    if text.None? then [] else Lines(text.value)
  }

  /** All lines of both files in the order in which they were written. */
  function AllLines(current: Option<string>, backup: Option<string>): seq<string> {
    FileLines(backup) + FileLines(current)
  }

  lemma RetainedAreRead(current: Option<string>, backup: Option<string>, tagOf: string -> Tag)
    ensures var lines, texts := Retained(DiskOf(current, backup, tagOf)), AllLines(current, backup);
            |lines| == |texts| && forall i :: 0 <= i < |texts| ==> lines[i] == ReadLogged(texts[i], tagOf)
  {
    hide Lines, ReadLogged, Utf8Bytes;
  }

  /** The text of the signature that a line carries. */
  function SignatureText(line: string): Option<string> {
    match Parse(line)
    case Some(Object(ms)) => (match Lookup(ms, "hmac") case Some(Text(s)) => Some(s) case _ => None)
    case _ => None
  }

  /** No signature in these lines is new: those of writers are signatures of the history. */
  ghost predicate OnlyIssued(lines: seq<string>, es: seq<Emitted>, tagOf: string -> Tag) {
    forall l :: l in lines && SignatureText(l).Some? && tagOf(SignatureText(l).value).Mac? ==>
      exists e :: e in es && e.h == SignatureText(l).value
  }

  /** The line holds the event and both signatures of `e`, in whatever layout and with whatever else. */
  predicate Carries(line: string, e: Emitted) {
    match Parse(line)
    case Some(Object(ms)) =>
      && Canonical(Lookup(ms, "event")) == Ok(Format(e.rec, e.missed))
      && Lookup(ms, "previous_hmac") == Some(Value.Text(e.p))
      && Lookup(ms, "hmac") == Some(Value.Text(e.h))
    case _ => false
  }

  lemma ReadSignature(line: string, tagOf: string -> Tag)
    ensures var l := ReadLogged(line, tagOf);
            l.Logged? && l.hmac.Some? ==>
              SignatureText(line).Some? && l.hmac == Some(tagOf(SignatureText(line).value))
  {
    hide Parse, Lookup;
  }

  lemma CarriesIff(line: string, e: Emitted, tagOf: string -> Tag)
    requires Faithful(tagOf) && Proper(e, tagOf)
    ensures Agrees(ReadLogged(line, tagOf), Meant(e, tagOf)) <==> Carries(line, e)
  {
    hide Parse, Lookup, Canonical, Format, Meant, Hmac.KeyBlock, Hexadecimal;
    MeantIsGood(e, tagOf);
    NoEventIsNotOk();
  }

  lemma NoEventIsNotOk()
    ensures Canonical(None).Err?
  {
  }

  lemma OnlyIssuedReads(texts: seq<string>, lines: seq<Logged>, es: seq<Emitted>, tagOf: string -> Tag)
    requires Faithful(tagOf) && History(es, tagOf) && OnlyIssued(texts, es, tagOf)
    requires |lines| == |texts| && forall i :: 0 <= i < |texts| ==> lines[i] == ReadLogged(texts[i], tagOf)
    ensures AllIssued(lines, AllMeant(es, tagOf))
  {
    hide ReadLogged, SignatureText, Meant, Format, Hmac.KeyBlock, Hexadecimal;
    forall l | l in lines && l.Logged? && l.hmac.Some? && l.hmac.value.Mac?
      ensures Issued(AllMeant(es, tagOf), l.hmac.value)
    {
      var i :| 0 <= i < |lines| && lines[i] == l;
      ReadSignature(texts[i], tagOf);
      assert texts[i] in texts;
      var e :| e in es && e.h == SignatureText(texts[i]).value;
      var j :| 0 <= j < |es| && es[j] == e;
      MeantIsGood(e, tagOf);
      assert AllMeant(es, tagOf)[j] == Meant(e, tagOf);
      assert Meant(e, tagOf) in AllMeant(es, tagOf);
    }
  }

  /** The lines carry, one by one, the first `n` of the history, all signed with the verifier's key. */
  ghost predicate CarriesPrefix(texts: seq<string>, es: seq<Emitted>, n: nat, key: Key) {
    && n == |texts| <= |es|
    && forall i :: 0 <= i < n ==> Carries(texts[i], es[i]) && Hmac.KeyBlock(es[i].key) == Hmac.KeyBlock(key)
  }

  lemma AllMeantAt(es: seq<Emitted>, tagOf: string -> Tag)
    ensures |AllMeant(es, tagOf)| == |es|
    ensures forall i :: 0 <= i < |es| ==> AllMeant(es, tagOf)[i] == Meant(es[i], tagOf)
  {
    hide Meant;
  }

  lemma ProperAt(es: seq<Emitted>, tagOf: string -> Tag, i: nat)
    requires History(es, tagOf) && i < |es|
    ensures Proper(es[i], tagOf)
  {
    hide Proper;
    assert es[i] in es;
  }

  lemma Pointwise(texts: seq<string>, lines: seq<Logged>, es: seq<Emitted>, signed: seq<Logged>, n: nat, key: Key)
    requires |lines| == |texts| && |signed| == |es|
    requires forall i :: 0 <= i < |es| ==> BlockOf(signed[i]) == Hmac.KeyBlock(es[i].key)
    requires forall i :: 0 <= i < |es| && i < |texts| ==> (Agrees(lines[i], signed[i]) <==> Carries(texts[i], es[i]))
    ensures AgreesUpTo(lines, signed, n) && UnderKey(signed, n, key) <==> CarriesPrefix(texts, es, n, key)
  {
    hide Agrees, Carries, BlockOf, Hmac.KeyBlock;
  }

  lemma CarriesPrefixIff(texts: seq<string>, lines: seq<Logged>, es: seq<Emitted>, tagOf: string -> Tag, n: nat,
                         key: Key)
    requires Faithful(tagOf) && History(es, tagOf)
    requires |lines| == |texts| && forall i :: 0 <= i < |texts| ==> lines[i] == ReadLogged(texts[i], tagOf)
    ensures AgreesUpTo(lines, AllMeant(es, tagOf), n) && UnderKey(AllMeant(es, tagOf), n, key) <==>
            CarriesPrefix(texts, es, n, key)
  {
    hide *;
    var signed := AllMeant(es, tagOf);
    AllMeantAt(es, tagOf);
    forall i | 0 <= i < |es|
      ensures BlockOf(signed[i]) == Hmac.KeyBlock(es[i].key)
      ensures i < |texts| ==> (Agrees(lines[i], signed[i]) <==> Carries(texts[i], es[i]))
    {
      MeantIsGood(es[i], tagOf);
      ProperAt(es, tagOf, i);
      if i < |texts| {
        CarriesIff(texts[i], es[i], tagOf);
      }
    }
    Pointwise(texts, lines, es, signed, n, key);
  }

  /** Tamper evidence for file texts: two files without new signatures are accepted exactly when their
      lines carry, one by one, a prefix of the signed history, and all of it was signed with the
      verifier's key. */
  lemma FilesAcceptedIffPrefix(es: seq<Emitted>, current: Option<string>, backup: Option<string>,
                               tagOf: string -> Tag, key: Key, n: nat)
    requires Faithful(tagOf) && History(es, tagOf) && |key| >= 32
    requires OnlyIssued(AllLines(current, backup), es, tagOf)
    ensures Deserves(DiskOf(current, backup, tagOf), key, Valid(n)) <==>
            current.Some? && CarriesPrefix(AllLines(current, backup), es, n, key)
  {
    hide *;
    var disk, texts := DiskOf(current, backup, tagOf), AllLines(current, backup);
    HistoryIsLinked(es, tagOf);
    RetainedAreRead(current, backup, tagOf);
    OnlyIssuedReads(texts, Retained(disk), es, tagOf);
    AcceptedIffOfChain(AllMeant(es, tagOf), disk, key, n);
    CarriesPrefixIff(texts, Retained(disk), es, tagOf, n, key);
    CurrentIs(current, backup, tagOf);
  }

  lemma CurrentIs(current: Option<string>, backup: Option<string>, tagOf: string -> Tag)
    ensures DiskOf(current, backup, tagOf).current.Some? <==> current.Some?
  {
    hide ReadSegment;
  }

  lemma WrittenCarries(e: Emitted)
    requires Hexadecimal(e.p) && Hexadecimal(e.h)
    ensures Carries(TextOf(e), e) && SignatureText(TextOf(e)) == Some(e.h)
  {
    hide Parse, Format, LineText, Document, Lookup, LineValue, Canonical;
    LineReads(e.rec, e.missed, e.p, e.h);
    CanonicalOfFormat(e.rec, e.missed);
    FormatReads(e.rec, e.missed);
    LookupWritten(Object(Document(e.rec, e.missed)), e.p, e.h);
  }

  lemma FormatReads(rec: Record, missed: U64)
    ensures Parse(Format(rec, missed)) == Some(Object(Document(rec, missed)))
  {
    hide *;
    FormatPrints(rec, missed);
    ParsePrint(Object(Document(rec, missed)));
  }

  lemma {:induction false} TextsAppend(a: seq<Emitted>, b: seq<Emitted>)
    ensures TextsOf(a + b) == TextsOf(a) + TextsOf(b)
  {
    hide TextOf;
    if a == [] {
      assert a + b == b;
    } else {
      assert (a + b)[1..] == a[1..] + b;
      TextsAppend(a[1..], b);
    }
  }

  /** A file of written lines is read back line by line. */
  lemma WrittenLines(es: seq<Emitted>)
    requires forall e :: e in es ==> Hexadecimal(e.p) && Hexadecimal(e.h)
    ensures Lines(Unlines(TextsOf(es))) == TextsOf(es)
  {
    hide *;
    TextsArePlain(es);
    LinesOfUnlines(TextsOf(es));
    PlainStripped(TextsOf(es));
  }

  lemma WrittenAreIssued(es: seq<Emitted>, tagOf: string -> Tag)
    requires forall e :: e in es ==> Hexadecimal(e.p) && Hexadecimal(e.h)
    ensures OnlyIssued(TextsOf(es), es, tagOf)
    ensures forall i :: 0 <= i < |es| ==> Carries(TextsOf(es)[i], es[i])
  {
    hide Carries, SignatureText, Hexadecimal, TextOf, TextsOf;
    var texts := TextsOf(es);
    forall i | 0 <= i < |es|
      ensures Carries(texts[i], es[i]) && SignatureText(texts[i]) == Some(es[i].h)
    {
      assert es[i] in es;
      TextsAt(es, i);
      WrittenCarries(es[i]);
    }
    forall l | l in texts && SignatureText(l).Some? ensures exists e :: e in es && e.h == SignatureText(l).value {
      var i :| 0 <= i < |texts| && texts[i] == l;
      assert es[i] in es;
    }
  }

  /** What writers wrote is accepted: the files of a whole history, of which `rotated` has been rotated away,
      are valid with every line counted if and only if all of it was signed with the verifier's key. */
  lemma WrittenFilesAccepted(rotated: seq<Emitted>, recent: seq<Emitted>, backup: Option<string>, tagOf: string -> Tag,
                             key: Key)
    requires Faithful(tagOf) && History(rotated + recent, tagOf) && |key| >= 32
    requires backup == Some(Unlines(TextsOf(rotated))) || (rotated == [] && backup == None)
    ensures Deserves(DiskOf(Some(Unlines(TextsOf(recent))), backup, tagOf), key, Valid(|rotated| + |recent|)) <==>
            forall e :: e in rotated + recent ==> Hmac.KeyBlock(e.key) == Hmac.KeyBlock(key)
  {
    hide *;
    var es, current := rotated + recent, Some(Unlines(TextsOf(recent)));
    HistoryHex(es, tagOf);
    WrittenLines(rotated);
    WrittenLines(recent);
    TextsAppend(rotated, recent);
    FilesAre(current, backup);
    NoTexts();
    assert AllLines(current, backup) == TextsOf(es);
    WrittenAreIssued(es, tagOf);
    FilesAcceptedIffPrefix(es, current, backup, tagOf, key, |es|);
    PrefixOfAll(TextsOf(es), es, key);
  }

  lemma NoTexts()
    ensures TextsOf([]) == []
  {
  }

  lemma FilesAre(current: Option<string>, backup: Option<string>)
    ensures AllLines(current, backup) ==
            (if backup.None? then [] else Lines(backup.value)) + (if current.None? then [] else Lines(current.value))
  {
    hide Lines;
  }

  lemma HistoryHex(es: seq<Emitted>, tagOf: string -> Tag)
    requires History(es, tagOf)
    ensures forall e :: e in es ==> Hexadecimal(e.p) && Hexadecimal(e.h)
  {
    hide Hexadecimal;
  }

  lemma PrefixOfAll(texts: seq<string>, es: seq<Emitted>, key: Key)
    requires |texts| == |es| && forall i :: 0 <= i < |es| ==> Carries(texts[i], es[i])
    ensures CarriesPrefix(texts, es, |es|, key) <==>
            forall e :: e in es ==> Hmac.KeyBlock(e.key) == Hmac.KeyBlock(key)
  {
    hide Carries, Hmac.KeyBlock;
    if CarriesPrefix(texts, es, |es|, key) {
      forall e | e in es ensures Hmac.KeyBlock(e.key) == Hmac.KeyBlock(key) {
        var i :| 0 <= i < |es| && es[i] == e;
      }
    }
  }
}
