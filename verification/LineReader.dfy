/** Reading one line with a size bound from a stream that arrives in arbitrary chunks.

Each chunk of a line is decoded by itself, which is what makes its division matter.
*/
module LineReader {
  import opened Rights
  import opened Utf8

  datatype LineResult = End | Got(text: string) | TooLong | NotText

  const NEWLINE: Byte := 10

  function NewlineAt(b: seq<Byte>): (i: nat)
    ensures i <= |b| && NEWLINE !in b[..i]
    ensures i < |b| ==> b[i] == NEWLINE
  {
    if b == [] || b[0] == NEWLINE then 0
    else
      var i := 1 + NewlineAt(b[1..]);
      assert b[..i] == [b[0]] + b[1..][..i - 1];
      i
  }

  /** The bytes up to and including the first newline, or all of them. */
  function FirstLine(b: seq<Byte>): (r: seq<Byte>)
    ensures r <= b
  {
    if NewlineAt(b) < |b| then b[..NewlineAt(b) + 1] else b
  }

  /** The line at the front of undivided bytes. */
  function ReadLine(b: seq<Byte>, max: nat): LineResult {
    var line := FirstLine(b);
    if line == [] then End
    else if |line| > max then TooLong
    else
      var text := Decode(line);
      if text.None? then NotText else Got(text.value)
  }

  function Concat(chunks: seq<seq<Byte>>): seq<Byte> {
    if chunks == [] then [] else chunks[0] + Concat(chunks[1..])
  }

  /** The parts in which the chunks deliver the first line. */
  function Pieces(chunks: seq<seq<Byte>>): seq<seq<Byte>> {
    if chunks == [] then []
    else if NewlineAt(chunks[0]) < |chunks[0]| then [FirstLine(chunks[0])]
    else [chunks[0]] + Pieces(chunks[1..])
  }

  predicate AllText(pieces: seq<seq<Byte>>) {
    forall p | p in pieces :: Decode(p).Some?
  }

  lemma {:induction false} NewlineAppend(a: seq<Byte>, b: seq<Byte>)
    ensures NewlineAt(a + b) == if NewlineAt(a) < |a| then NewlineAt(a) else |a| + NewlineAt(b)
  {
    if a == [] {
      assert a + b == b;
    } else {
      assert (a + b)[1..] == a[1..] + b;
      NewlineAppend(a[1..], b);
    }
  }

  lemma FirstLineIs(b: seq<Byte>)
    ensures FirstLine(b) == if NewlineAt(b) < |b| then b[..NewlineAt(b) + 1] else b
  {
    hide NewlineAt;
  }

  lemma FirstLineAppend(a: seq<Byte>, b: seq<Byte>)
    ensures FirstLine(a + b) == if NewlineAt(a) < |a| then FirstLine(a) else a + FirstLine(b)
  {
    hide *;
    NewlineAppend(a, b);
    FirstLineIs(a);
    FirstLineIs(b);
    FirstLineIs(a + b);
  }

  lemma {:induction false} ConcatPieces(chunks: seq<seq<Byte>>)
    ensures Concat(Pieces(chunks)) == FirstLine(Concat(chunks))
  {
    hide FirstLine, NewlineAt;
    if chunks == [] {
      NothingToRead();
    } else {
      FirstLineAppend(chunks[0], Concat(chunks[1..]));
      if NewlineAt(chunks[0]) < |chunks[0]| {
        assert Concat([FirstLine(chunks[0])]) == FirstLine(chunks[0]) + Concat([]);
      } else {
        ConcatPieces(chunks[1..]);
        assert ([chunks[0]] + Pieces(chunks[1..]))[1..] == Pieces(chunks[1..]);
      }
    }
  }

  lemma NothingToRead()
    ensures FirstLine([]) == []
  {
  }

  lemma {:induction false} ConcatAppend(a: seq<seq<Byte>>, b: seq<seq<Byte>>)
    ensures Concat(a + b) == Concat(a) + Concat(b)
  {
    if a == [] {
      assert a + b == b;
    } else {
      assert (a + b)[1..] == a[1..] + b;
      ConcatAppend(a[1..], b);
    }
  }

  /** Decoding piece by piece gives the text of the whole. */
  lemma {:induction false} DecodePieces(pieces: seq<seq<Byte>>)
    requires AllText(pieces)
    ensures Decode(Concat(pieces)).Some?
  {
    hide Decode;
    if pieces == [] {
      DecodeEncode("");
    } else {
      assert pieces[0] in pieces;
      assert forall p :: p in pieces[1..] ==> p in pieces;
      DecodePieces(pieces[1..]);
      DecodeIff(pieces[0], Decode(pieces[0]).value);
      DecodeAfter(Decode(pieces[0]).value, Concat(pieces[1..]));
    }
  }

  lemma OnePiece(p: seq<Byte>)
    ensures Concat([p]) == p
  {
    assert [p][1..] == [];
  }

  lemma AddPiece(done: seq<seq<Byte>>, line: string, p: seq<Byte>, text: string)
    requires AllText(done) && Decode(Concat(done)) == Some(line) && Decode(p) == Some(text)
    ensures AllText(done + [p]) && Decode(Concat(done + [p])) == Some(line + text)
    ensures Concat(done + [p]) == Concat(done) + p
    ensures p != [] ==> line + text != ""
  {
    hide Decode, Concat;
    OnePiece(p);
    ConcatAppend(done, [p]);
    DecodeIff(Concat(done), line);
    DecodeIff(p, text);
    EncodeAppend(line, text);
    DecodeIff(Concat(done) + p, line + text);
    if p != [] && text == "" {
      EncodeNothing();
    }
  }

  lemma EncodeNothing()
    ensures Encode("") == []
  {
  }

  lemma PiecesSize(done: seq<seq<Byte>>, pieces: seq<seq<Byte>>)
    requires pieces != []
    ensures |Concat(done + pieces)| >= |Concat(done)| + |pieces[0]|
  {
    ConcatAppend(done, pieces);
  }

  lemma PiecesStep(chunks: seq<seq<Byte>>)
    requires chunks != []
    ensures NewlineAt(chunks[0]) < |chunks[0]| ==> Pieces(chunks) == [chunks[0][..NewlineAt(chunks[0]) + 1]]
    ensures NewlineAt(chunks[0]) == |chunks[0]| ==> Pieces(chunks) == [chunks[0]] + Pieces(chunks[1..])
    ensures Concat(chunks) == chunks[0] + Concat(chunks[1..])
  {
  }

  lemma NoPieces()
    ensures Pieces([]) == [] && Concat([]) == [] && Decode([]) == Some("") && AllText([])
  {
  }

  /** What is left after `n` bytes of the current buffer are consumed. */
  function Consume(chunks: seq<seq<Byte>>, n: nat): seq<seq<Byte>>
    requires chunks != [] && n <= |chunks[0]|
  {
    (if n < |chunks[0]| then [chunks[0][n..]] else []) + chunks[1..]
  }

  lemma ConcatCons(first: seq<Byte>, rest: seq<seq<Byte>>)
    ensures Concat([first] + rest) == first + Concat(rest)
  {
    assert ([first] + rest)[1..] == rest;
  }

  lemma ConsumeLeaves(chunks: seq<seq<Byte>>, n: nat)
    requires chunks != [] && [] !in chunks && n <= |chunks[0]|
    ensures Concat(chunks) == chunks[0][..n] + Concat(Consume(chunks, n)) && [] !in Consume(chunks, n)
    ensures n == |chunks[0]| ==> Consume(chunks, n) == chunks[1..] && |Consume(chunks, n)| < |chunks|
  {
    hide Concat;
    ConcatCons(chunks[0], chunks[1..]);
    assert chunks == [chunks[0]] + chunks[1..];
    if n < |chunks[0]| {
      ConcatCons(chunks[0][n..], chunks[1..]);
      assert chunks[0] == chunks[0][..n] + chunks[0][n..];
    } else {
      assert Consume(chunks, n) == chunks[1..] && chunks[0][..n] == chunks[0];
    }
  }

  /** The bound is passed by some piece, and every piece before that one is a text by itself. */
  ghost predicate Overflows(pieces: seq<seq<Byte>>, max: nat) {
    exists k :: 0 <= k < |pieces| && AllText(pieces[..k]) && |Concat(pieces[..k + 1])| > max
  }

  /** What a reader of these chunks answers: a line exactly when every piece of it is a text by itself
      and all of it fits, and otherwise the fault that the earlier piece has. */
  ghost predicate Answers(chunks: seq<seq<Byte>>, max: nat, r: LineResult) {
    var pieces := Pieces(chunks);
    && (r.End? <==> Concat(chunks) == [])
    && (r.Got? <==> pieces != [] && |Concat(pieces)| <= max && AllText(pieces))
    && (r.Got? ==> Decode(Concat(pieces)) == Some(r.text))
    && (r.TooLong? <==> Overflows(pieces, max))
    && (r.NotText? <==> !AllText(pieces) && !Overflows(pieces, max))
  }

  /** The answer for these chunks. */
  ghost function LineFrom(chunks: seq<seq<Byte>>, max: nat): LineResult {
    var pieces := Pieces(chunks);
    if Concat(chunks) == [] then End
    else if Overflows(pieces, max) then TooLong
    else if !AllText(pieces) then NotText
    else
      DecodePieces(pieces);
      Got(Decode(Concat(pieces)).value)
  }

  /** The chunks behind the first line. */
  function AfterLine(chunks: seq<seq<Byte>>): seq<seq<Byte>> {
    if chunks == [] then []
    else if NewlineAt(chunks[0]) < |chunks[0]| then Consume(chunks, NewlineAt(chunks[0]) + 1)
    else AfterLine(chunks[1..])
  }

  lemma AfterLineStep(chunks: seq<seq<Byte>>)
    requires chunks != []
    ensures AfterLine(chunks) ==
            if NewlineAt(chunks[0]) < |chunks[0]| then Consume(chunks, NewlineAt(chunks[0]) + 1)
            else AfterLine(chunks[1..])
    ensures AfterLine([]) == []
  {
    hide NewlineAt, Consume;
  }

  lemma {:induction false} AfterLineLeaves(chunks: seq<seq<Byte>>)
    requires [] !in chunks
    ensures [] !in AfterLine(chunks)
    ensures Concat(chunks) == FirstLine(Concat(chunks)) + Concat(AfterLine(chunks))
  {
    hide *;
    if chunks == [] {
      AfterNothing();
    } else {
      var n := NewlineAt(chunks[0]);
      AfterLineStep(chunks);
      PiecesStep(chunks);
      FirstLineAppend(chunks[0], Concat(chunks[1..]));
      FirstLineIs(chunks[0]);
      if n < |chunks[0]| {
        ConsumeLeaves(chunks, n + 1);
      } else {
        AfterLineLeaves(chunks[1..]);
      }
    }
  }

  lemma AfterNothing()
    ensures AfterLine([]) == [] && Concat([]) == [] && FirstLine([]) == []
  {
  }

  lemma LineFromAnswers(chunks: seq<seq<Byte>>, max: nat)
    requires [] !in chunks
    ensures Answers(chunks, max, LineFrom(chunks, max))
  {
    hide Decode, Concat, Pieces, AllText, Overflows;
    var pieces := Pieces(chunks);
    EmptyIff(chunks);
    NoPieces();
    if pieces == [] {
      NothingOverflows(max);
    } else if |Concat(pieces)| > max && AllText(pieces) {
      LastOverflows(pieces, max);
    } else if |Concat(pieces)| <= max {
      NoOverflow(pieces, max);
    }
    if AllText(pieces) {
      DecodePieces(pieces);
    }
  }

  lemma NothingOverflows(max: nat)
    ensures !Overflows([], max)
  {
  }

  lemma LastOverflows(pieces: seq<seq<Byte>>, max: nat)
    requires pieces != [] && AllText(pieces) && |Concat(pieces)| > max
    ensures Overflows(pieces, max)
  {
    hide Decode, Concat;
    var k := |pieces| - 1;
    assert pieces[..k + 1] == pieces;
    assert AllText(pieces[..k]);
  }

  lemma AnswerIsUnique(chunks: seq<seq<Byte>>, max: nat, a: LineResult, b: LineResult)
    requires Answers(chunks, max, a) && Answers(chunks, max, b)
    ensures a == b
  {
    hide *;
    AnswersSay(chunks, max, a);
    AnswersSay(chunks, max, b);
  }

  lemma AnswersSay(chunks: seq<seq<Byte>>, max: nat, r: LineResult)
    requires Answers(chunks, max, r)
    ensures r.End? <==> Concat(chunks) == []
    ensures r.TooLong? <==> Overflows(Pieces(chunks), max)
    ensures r.NotText? <==> !AllText(Pieces(chunks)) && !Overflows(Pieces(chunks), max)
    ensures r.Got? ==> Decode(Concat(Pieces(chunks))) == Some(r.text)
  {
    hide Overflows, AllText, Pieces, Decode;
  }

  // ---- Divisions between characters ----

  /** No piece after the first begins inside a character. */
  predicate BetweenCharacters(pieces: seq<seq<Byte>>) {
    forall k | 1 <= k < |pieces| :: pieces[k] != [] && !Follows(pieces[k][0])
  }

  lemma FirstCharOfPrefix(a: seq<Byte>, b: seq<Byte>)
    requires FirstChar(a + b).Some?
    ensures FirstChar(a + b).value.1 <= |a| ==> FirstChar(a) == FirstChar(a + b)
    ensures a != [] && |a| < FirstChar(a + b).value.1 ==> b != [] && Follows(b[0])
  {
    hide Joined;
    assert forall i :: 0 <= i < |a| ==> (a + b)[i] == a[i];
    assert forall i :: |a| <= i < |a + b| ==> (a + b)[i] == b[i - |a|];
  }

  lemma NothingDecodes()
    ensures Decode([]) == Some("")
  {
  }

  lemma DecodeUnfolds(b: seq<Byte>)
    requires b != []
    ensures Decode(b).Some? <==> FirstChar(b).Some? && Decode(b[FirstChar(b).value.1..]).Some?
  {
    hide FirstChar;
  }

  lemma StartsCharacter(b: seq<Byte>)
    requires b != [] && FirstChar(b).Some?
    ensures !Follows(b[0])
  {
  }

  /** A text is cut into two texts exactly where the second part does not begin inside a character. */
  lemma {:induction false} CutIff(a: seq<Byte>, b: seq<Byte>)
    requires b != [] && Decode(a + b).Some?
    ensures Decode(a).Some? <==> !Follows(b[0])
    ensures Decode(a).Some? ==> Decode(b).Some?
    decreases |a|
  {
    hide *;
    if Decode(a).Some? {
      var s := Decode(a).value;
      DecodeIff(a, s);
      DecodeAfter(s, b);
      DecodeUnfolds(b);
      StartsCharacter(b);
    } else if a == [] {
      NothingDecodes();
    } else {
      DecodeUnfolds(a + b);
      FirstCharOfPrefix(a, b);
      var n := FirstChar(a + b).value.1;
      if n <= |a| {
        assert (a + b)[n..] == a[n..] + b;
        DecodeUnfolds(a);
        CutIff(a[n..], b);
      }
    }
  }

  lemma AllTextCons(p: seq<Byte>, rest: seq<seq<Byte>>)
    ensures AllText([p] + rest) <==> Decode(p).Some? && AllText(rest)
  {
    hide Decode;
    assert p in [p] + rest;
    assert forall q :: q in [p] + rest <==> q == p || q in rest;
  }

  lemma BetweenCons(p: seq<Byte>, rest: seq<seq<Byte>>)
    requires rest != [] && rest[0] != []
    ensures BetweenCharacters([p] + rest) <==> !Follows(rest[0][0]) && BetweenCharacters(rest)
  {
    var all := [p] + rest;
    assert forall k :: 1 <= k < |all| ==> all[k] == rest[k - 1];
    if BetweenCharacters(all) {
      assert all[1] == rest[0];
      assert forall k :: 1 <= k < |rest| ==> rest[k] == all[k + 1];
    }
  }

  lemma OneIsBetween(p: seq<Byte>)
    ensures BetweenCharacters([p]) && BetweenCharacters([])
  {
  }

  /** The pieces of a text are texts exactly when none of them begins inside a character. */
  lemma {:induction false} AllTextIff(pieces: seq<seq<Byte>>)
    requires [] !in pieces && Decode(Concat(pieces)).Some?
    ensures AllText(pieces) <==> BetweenCharacters(pieces)
  {
    hide *;
    if pieces == [] {
      NoPieces();
      OneIsBetween([]);
    } else {
      var p, rest := pieces[0], pieces[1..];
      assert pieces == [p] + rest;
      ConcatCons(p, rest);
      AllTextCons(p, rest);
      if rest == [] {
        NoPieces();
        assert p + [] == p && [p] + [] == [p];
        OneIsBetween(p);
      } else {
        assert rest[0] in pieces && forall q :: q in rest ==> q in pieces;
        assert rest == [rest[0]] + rest[1..];
        ConcatCons(rest[0], rest[1..]);
        CutIff(p, Concat(rest));
        BetweenCons(p, rest);
        if Decode(p).Some? {
          AllTextIff(rest);
        }
      }
    }
  }

  lemma {:induction false} PiecesNotEmpty(chunks: seq<seq<Byte>>)
    requires [] !in chunks
    ensures [] !in Pieces(chunks)
  {
    if chunks != [] {
      assert chunks[0] in chunks;
      PiecesNotEmpty(chunks[1..]);
    }
  }

  lemma ReadLineGot(b: seq<Byte>, max: nat)
    ensures ReadLine(b, max).Got? <==> FirstLine(b) != [] && |FirstLine(b)| <= max && Decode(FirstLine(b)).Some?
    ensures ReadLine(b, max).Got? ==> Decode(FirstLine(b)) == Some(ReadLine(b, max).text)
  {
    hide Decode, FirstLine;
  }

  lemma GotSays(chunks: seq<seq<Byte>>, max: nat, r: LineResult)
    requires Answers(chunks, max, r)
    ensures r.Got? <==> Pieces(chunks) != [] && |Concat(Pieces(chunks))| <= max && AllText(Pieces(chunks))
    ensures r.Got? ==> Decode(Concat(Pieces(chunks))) == Some(r.text)
  {
    hide Overflows, AllText, Pieces, Decode;
  }

  /** A line that fits and is a text arrives whole exactly when no chunk begins inside one of its
      characters. */
  lemma DividedIff(chunks: seq<seq<Byte>>, max: nat, r: LineResult)
    requires [] !in chunks && Answers(chunks, max, r)
    requires ReadLine(Concat(chunks), max).Got?
    ensures r == ReadLine(Concat(chunks), max) <==> BetweenCharacters(Pieces(chunks))
  {
    hide *;
    ConcatPieces(chunks);
    EmptyIff(chunks);
    ReadLineGot(Concat(chunks), max);
    GotSays(chunks, max, r);
    PiecesNotEmpty(chunks);
    AllTextIff(Pieces(chunks));
    if Pieces(chunks) == [] {
      NoPieces();
    }
  }

  const SPLIT: seq<seq<Byte>> := [[0xC3], [0xA9, NEWLINE]]

  lemma SplitDecodes()
    ensures Decode([0xC3, 0xA9, NEWLINE]) == Some([0xE9 as char, '\n'])
  {
    var s := [0xE9 as char, '\n'];
    assert s[1..] == ['\n'] && ['\n'][1..] == "";
    assert Encode("") == [] && Encode(['\n']) == [NEWLINE];
    assert Encode(s) == [0xC3, 0xA9] + [NEWLINE] == [0xC3, 0xA9, NEWLINE];
    DecodeIff([0xC3, 0xA9, NEWLINE], s);
  }

  lemma SplitPieces()
    ensures Pieces(SPLIT) == SPLIT && Concat(SPLIT) == [0xC3, 0xA9, NEWLINE]
    ensures FirstLine([0xC3, 0xA9, NEWLINE]) == [0xC3, 0xA9, NEWLINE]
    ensures !BetweenCharacters(SPLIT) && [] !in SPLIT
  {
    var b: seq<Byte> := [0xC3, 0xA9, NEWLINE];
    assert SPLIT[1..] == [[0xA9, NEWLINE]] && SPLIT[1..][1..] == [];
    assert SPLIT == [[0xC3]] + [[0xA9, NEWLINE]];
    ConcatCons([0xC3], [[0xA9, NEWLINE]]);
    OnePiece([0xA9, NEWLINE]);
    assert b[1..] == [0xA9, NEWLINE] && b[1..][1..] == [NEWLINE];
    assert [0xA9, NEWLINE][1..] == [NEWLINE];
    assert NewlineAt([NEWLINE]) == 0;
    assert NewlineAt([0xA9, NEWLINE]) == 1;
    assert NewlineAt(b) == 2;
    assert FirstLine([0xA9, NEWLINE]) == [0xA9, NEWLINE];
    assert NewlineAt([0xC3]) == 1;
    assert Follows(SPLIT[1][0]);
  }

  /** The two bytes of one character in two chunks: a line that is read whole from one chunk is
      refused. */
  lemma SplitCharacterRefused(max: nat, r: LineResult)
    requires max >= 3 && Answers(SPLIT, max, r)
    ensures ReadLine(Concat(SPLIT), max) == Got([0xE9 as char, '\n']) && r == NotText
  {
    hide *;
    SplitPieces();
    SplitDecodes();
    ReadLineGot(Concat(SPLIT), max);
    DividedIff(SPLIT, max, r);
    AnswersSay(SPLIT, max, r);
    GotSays(SPLIT, max, r);
    if Overflows(SPLIT, max) {
      OverflowsLong(SPLIT, max);
    }
  }

  lemma OverflowsLong(pieces: seq<seq<Byte>>, max: nat)
    requires Overflows(pieces, max)
    ensures |Concat(pieces)| > max
  {
    hide Concat, Decode;
    var k :| 0 <= k < |pieces| && AllText(pieces[..k]) && |Concat(pieces[..k + 1])| > max;
    PrefixSize(pieces, k + 1);
  }

  lemma PrefixSize(pieces: seq<seq<Byte>>, k: nat)
    requires k <= |pieces|
    ensures |Concat(pieces[..k])| <= |Concat(pieces)|
  {
    ConcatAppend(pieces[..k], pieces[k..]);
    assert pieces == pieces[..k] + pieces[k..];
  }

  lemma {:induction false} AsciiIsText(b: seq<Byte>)
    requires forall x | x in b :: x < 0x80
    ensures Decode(b).Some?
  {
    if b != [] {
      assert b[0] in b && forall x | x in b[1..] :: x in b;
      AsciiIsText(b[1..]);
    }
  }

  lemma {:induction false} PieceWithin(pieces: seq<seq<Byte>>, p: seq<Byte>)
    requires p in pieces
    ensures forall x | x in p :: x in Concat(pieces)
  {
    if p != pieces[0] {
      PieceWithin(pieces[1..], p);
    }
  }

  /** An ASCII line is read the same however it is divided into chunks. */
  lemma AsciiIsIndependent(chunks: seq<seq<Byte>>, max: nat, r: LineResult)
    requires [] !in chunks && Answers(chunks, max, r)
    requires forall x | x in FirstLine(Concat(chunks)) :: x < 0x80
    ensures r == ReadLine(Concat(chunks), max)
  {
    hide *;
    ConcatPieces(chunks);
    AsciiPieces(Pieces(chunks));
    AsciiIsText(Concat(Pieces(chunks)));
    EmptyIff(chunks);
    AnswersSay(chunks, max, r);
    GotSays(chunks, max, r);
    ReadLineCases(Concat(chunks), max);
    if Overflows(Pieces(chunks), max) {
      OverflowsLong(Pieces(chunks), max);
    }
  }

  lemma ReadLineCases(b: seq<Byte>, max: nat)
    ensures ReadLine(b, max).End? <==> FirstLine(b) == []
    ensures ReadLine(b, max).TooLong? <==> |FirstLine(b)| > max
    ensures ReadLine(b, max).NotText? <==> FirstLine(b) != [] && |FirstLine(b)| <= max && Decode(FirstLine(b)).None?
    ensures ReadLine(b, max).Got? ==> Decode(FirstLine(b)) == Some(ReadLine(b, max).text)
  {
    hide Decode, FirstLine;
  }

  lemma AsciiPieces(pieces: seq<seq<Byte>>)
    requires forall x | x in Concat(pieces) :: x < 0x80
    ensures AllText(pieces)
  {
    hide Decode, Concat;
    forall p | p in pieces ensures Decode(p).Some? {
      PieceWithin(pieces, p);
      AsciiIsText(p);
    }
  }

  lemma EmptyIff(chunks: seq<seq<Byte>>)
    requires [] !in chunks
    ensures FirstLine(Concat(chunks)) == [] <==> Concat(chunks) == []
    ensures Pieces(chunks) == [] <==> Concat(chunks) == []
  {
    if chunks != [] {
      assert chunks[0] in chunks;
    }
  }

  lemma AnswersEnd(chunks: seq<seq<Byte>>, max: nat)
    requires [] !in chunks && Concat(chunks) == []
    ensures Answers(chunks, max, End)
  {
    EmptyIff(chunks);
  }

  lemma NoOverflow(pieces: seq<seq<Byte>>, max: nat)
    requires |Concat(pieces)| <= max
    ensures !Overflows(pieces, max)
  {
    hide *;
    if Overflows(pieces, max) {
      OverflowsLong(pieces, max);
    }
  }

  lemma AnswersGot(chunks: seq<seq<Byte>>, max: nat, done: seq<seq<Byte>>, line: string)
    requires [] !in chunks && Pieces(chunks) == done && done != []
    requires AllText(done) && Decode(Concat(done)) == Some(line) && |Concat(done)| <= max
    ensures Answers(chunks, max, Got(line))
  {
    hide Decode, Overflows;
    NoOverflow(done, max);
    EmptyIff(chunks);
  }

  lemma AnswersTooLong(chunks: seq<seq<Byte>>, max: nat, done: seq<seq<Byte>>, p: seq<Byte>, more: seq<seq<Byte>>)
    requires [] !in chunks && Pieces(chunks) == done + ([p] + more)
    requires AllText(done) && |Concat(done)| + |p| > max
    ensures Answers(chunks, max, TooLong)
  {
    hide Decode, Concat, Pieces, AllText;
    EmptyIff(chunks);
    var pieces := Pieces(chunks);
    var k := |done|;
    assert pieces[..k] == done && pieces[..k + 1] == done + [p];
    OnePiece(p);
    ConcatAppend(done, [p]);
    assert Overflows(pieces, max);
    OverflowsLong(pieces, max);
  }

  lemma NotAllText(pieces: seq<seq<Byte>>, i: nat, k: nat)
    requires i < k <= |pieces| && Decode(pieces[i]).None?
    ensures !AllText(pieces[..k])
  {
    hide Decode;
    assert pieces[..k][i] == pieces[i];
  }

  lemma AnswersNotText(chunks: seq<seq<Byte>>, max: nat, done: seq<seq<Byte>>, p: seq<Byte>, more: seq<seq<Byte>>)
    requires [] !in chunks && Pieces(chunks) == done + ([p] + more) && Decode(p).None?
    requires |Concat(done)| + |p| <= max
    ensures Answers(chunks, max, NotText)
  {
    hide Decode, Concat, Pieces;
    EmptyIff(chunks);
    var pieces := Pieces(chunks);
    assert p in pieces;
    forall k | 0 <= k < |pieces| && AllText(pieces[..k])
      ensures |Concat(pieces[..k + 1])| <= max
    {
      if |done| < k {
        NotAllText(pieces, |done|, k);
      }
      assert pieces[..k + 1] == (done + [p])[..k + 1];
      PrefixSize(done + [p], k + 1);
      OnePiece(p);
      ConcatAppend(done, [p]);
    }
  }

  class Stream {
    var chunks: seq<seq<Byte>>

    constructor (input: seq<seq<Byte>>)
      requires [] !in input
      ensures chunks == input
    {
      chunks := input;
    }

    /** Gives the next line, whatever the chunks are: exactly when every piece of it
    is a text by itself and all of it fits. */
    method ReadBoundedLine(max: nat) returns (r: LineResult)
      requires [] !in chunks
      modifies this
      ensures [] !in chunks
      ensures Answers(old(chunks), max, r) && r == LineFrom(old(chunks), max)
      ensures r.Got? ==> chunks == AfterLine(old(chunks))
      ensures r.End? ==> Concat(chunks) == []
    {
      hide *;
      LineFromAnswers(chunks, max);
      NoPieces();
      var line, total := "", 0;
      ghost var all := chunks;
      ghost var done: seq<seq<Byte>> := [];
      assert done + Pieces(chunks) == Pieces(all) && Concat(done) + Concat(chunks) == Concat(all);
      while true
        invariant [] !in chunks
        invariant Pieces(all) == done + Pieces(chunks)
        invariant Concat(all) == Concat(done) + Concat(chunks) && AfterLine(all) == AfterLine(chunks)
        invariant AllText(done) && Decode(Concat(done)) == Some(line)
        invariant total == |Concat(done)| <= max
        invariant (done == [] <==> line == "") && (done == [] <==> Concat(done) == [])
        decreases |chunks|
      {
        if chunks == [] {
          AfterNothing();
          assert done + [] == done;
          if line == "" {
            AnswersEnd(all, max);
            AnswerIsUnique(all, max, End, LineFrom(all, max));
            return End;
          }
          AnswersGot(all, max, done, line);
          AnswerIsUnique(all, max, Got(line), LineFrom(all, max));
          return Got(line);
        }
        PiecesStep(chunks);
        AfterLineStep(chunks);
        PiecesSize(done, Pieces(chunks));
        var available := chunks[0];
        var pos := NewlineAt(available);
        if pos < |available| {
          var chunk := available[..pos + 1];
          if total + |chunk| > max {
            AnswersTooLong(all, max, done, chunk, []);
            AnswerIsUnique(all, max, TooLong, LineFrom(all, max));
            return TooLong;
          }
          var text := Decode(chunk);
          if text.None? {
            AnswersNotText(all, max, done, chunk, []);
            AnswerIsUnique(all, max, NotText, LineFrom(all, max));
            return NotText;
          }
          AddPiece(done, line, chunk, text.value);
          line := line + text.value;
          AnswersGot(all, max, done + [chunk], line);
          AnswerIsUnique(all, max, Got(line), LineFrom(all, max));
          ConsumeLeaves(chunks, pos + 1);
          chunks := Consume(chunks, pos + 1);
          return Got(line);
        }
        if total + |available| > max {
          AnswersTooLong(all, max, done, available, Pieces(chunks[1..]));
          AnswerIsUnique(all, max, TooLong, LineFrom(all, max));
          return TooLong;
        }
        var text := Decode(available);
        if text.None? {
          AnswersNotText(all, max, done, available, Pieces(chunks[1..]));
          AnswerIsUnique(all, max, NotText, LineFrom(all, max));
          return NotText;
        }
        AddPiece(done, line, available, text.value);
        ConsumeLeaves(chunks, |available|);
        line := line + text.value;
        total := total + |available|;
        done := done + [available];
        chunks := Consume(chunks, |available|);
      }
    }

    /** Takes exactly `n` bytes, or fails at the end of the stream. */
    method ReadExact(n: nat) returns (body: Option<seq<Byte>>)
      requires [] !in chunks
      modifies this
      ensures [] !in chunks
      ensures var b := old(Concat(chunks));
              if n <= |b| then body == Some(b[..n]) && Concat(chunks) == b[n..] else body == None
    {
      hide *;
      NoPieces();
      var taken: seq<Byte> := [];
      ghost var all := Concat(chunks);
      while |taken| < n
        invariant [] !in chunks && |taken| <= n && all == taken + Concat(chunks)
        decreases n - |taken|
      {
        if chunks == [] {
          return None;
        }
        var k := if |chunks[0]| < n - |taken| then |chunks[0]| else n - |taken|;
        ConsumeLeaves(chunks, k);
        assert chunks[0] in chunks;
        taken := taken + chunks[0][..k];
        chunks := Consume(chunks, k);
      }
      return Some(taken);
    }
  }
}
