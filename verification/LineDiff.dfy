/** The line diff the console shows between the active policy and a proposal. */
module LineDiff {
  import opened Text

  datatype Change = Same(line: string) | Added(line: string) | Removed(line: string)

  /** What a cell of a Uint32Array can hold. */
  const WORD: int := 0x1_0000_0000

  function ToUint32(n: int): int {
    n % WORD
  }

  /** The lines being compared: one final newline does not start another line. */
  function DiffLines(text: string): seq<string> {
    var body := if text != "" && text[|text| - 1] == '\n' then text[..|text| - 1] else text;
    Split(body, '\n')
  }

  // ---- Longest common subsequences ----

  predicate IsSubsequence(c: seq<string>, a: seq<string>) {
    c == [] || (a != [] && ((c[0] == a[0] && IsSubsequence(c[1..], a[1..])) || IsSubsequence(c, a[1..])))
  }

  function Max(x: nat, y: nat): nat {
    if x >= y then x else y
  }

  function Lcs(a: seq<string>, b: seq<string>): (r: nat)
    ensures r <= |a| && r <= |b|
    decreases |a| + |b|
  {
    if a == [] || b == [] then 0
    else if a[0] == b[0] then Lcs(a[1..], b[1..]) + 1
    else Max(Lcs(a[1..], b), Lcs(a, b[1..]))
  }

  lemma {:induction false} SubsequenceTail(c: seq<string>, a: seq<string>)
    requires c != [] && IsSubsequence(c, a)
    ensures a != [] && IsSubsequence(c[1..], a[1..])
  {
    if !(c[0] == a[0] && IsSubsequence(c[1..], a[1..])) {
      SubsequenceTail(c, a[1..]);
      if |c| > 1 {
        SubsequenceSkips(c[1..], a[1..]);
      }
    }
  }

  lemma SubsequenceSkips(c: seq<string>, a: seq<string>)
    requires a != [] && IsSubsequence(c, a[1..])
    ensures IsSubsequence(c, a)
  {
  }

  /** No common subsequence is longer than `Lcs`. */
  lemma {:induction false} LcsIsLongest(c: seq<string>, a: seq<string>, b: seq<string>)
    requires IsSubsequence(c, a) && IsSubsequence(c, b)
    ensures |c| <= Lcs(a, b)
    decreases |a| + |b|
  {
    if c != [] {
      if a[0] == b[0] {
        SubsequenceTail(c, a);
        SubsequenceTail(c, b);
        LcsIsLongest(c[1..], a[1..], b[1..]);
      } else if c[0] == a[0] {
        LcsIsLongest(c, a, b[1..]);
      } else {
        LcsIsLongest(c, a[1..], b);
      }
    }
  }

  // ---- Edit scripts ----

  function Before(script: seq<Change>): seq<string> {
    if script == [] then []
    else if script[0].Added? then Before(script[1..])
    else [script[0].line] + Before(script[1..])
  }

  function After(script: seq<Change>): seq<string> {
    if script == [] then []
    else if script[0].Removed? then After(script[1..])
    else [script[0].line] + After(script[1..])
  }

  function Kept(script: seq<Change>): seq<string> {
    if script == [] then []
    else if script[0].Same? then [script[0].line] + Kept(script[1..])
    else Kept(script[1..])
  }

  /** Lines added or removed. */
  function Changes(script: seq<Change>): nat {
    if script == [] then 0
    else (if script[0].Same? then 0 else 1) + Changes(script[1..])
  }

  /** The script the console shows: on a tie the addition comes first. */
  function Script(a: seq<string>, b: seq<string>): seq<Change>
    decreases |a| + |b|
  {
    if a == [] && b == [] then []
    else if a != [] && b != [] && a[0] == b[0] then [Same(a[0])] + Script(a[1..], b[1..])
    else if b != [] && (a == [] || Lcs(a, b[1..]) >= Lcs(a[1..], b)) then [Added(b[0])] + Script(a, b[1..])
    else [Removed(a[0])] + Script(a[1..], b)
  }

  /** Kept and removed lines spell the old text, kept and added lines the new one, and as many
      lines are kept as any common subsequence has. */
  lemma {:induction false} ScriptCorrect(a: seq<string>, b: seq<string>)
    ensures Before(Script(a, b)) == a && After(Script(a, b)) == b
    ensures |Kept(Script(a, b))| == Lcs(a, b)
    decreases |a| + |b|
  {
    if a == [] && b == [] {
    } else if a != [] && b != [] && a[0] == b[0] {
      ScriptCorrect(a[1..], b[1..]);
      assert a == [a[0]] + a[1..] && b == [b[0]] + b[1..];
    } else if b != [] && (a == [] || Lcs(a, b[1..]) >= Lcs(a[1..], b)) {
      ScriptCorrect(a, b[1..]);
      assert b == [b[0]] + b[1..];
    } else {
      ScriptCorrect(a[1..], b);
      assert a == [a[0]] + a[1..];
    }
  }

  /** In every script the kept lines are a common subsequence, and what is not kept is a change. */
  lemma {:induction false} ScriptShape(script: seq<Change>)
    ensures IsSubsequence(Kept(script), Before(script)) && IsSubsequence(Kept(script), After(script))
    ensures Changes(script) == |Before(script)| + |After(script)| - 2 * |Kept(script)|
  {
    if script != [] {
      ScriptShape(script[1..]);
    }
  }

  /** No script turning the one text into the other has fewer changes. */
  lemma ScriptMinimal(a: seq<string>, b: seq<string>, other: seq<Change>)
    requires Before(other) == a && After(other) == b
    ensures Changes(Script(a, b)) <= Changes(other)
  {
    ScriptCorrect(a, b);
    ScriptShape(Script(a, b));
    ScriptShape(other);
    LcsIsLongest(Kept(other), a, b);
  }

  // ---- The console's loops ----

  /** The recurrence the table is filled by. */
  lemma LcsCell(a: seq<string>, b: seq<string>, i: nat, j: nat)
    requires i < |a| && j < |b|
    ensures Lcs(a[i..], b[j..]) ==
            if a[i] == b[j] then Lcs(a[i + 1..], b[j + 1..]) + 1
            else Max(Lcs(a[i + 1..], b[j..]), Lcs(a[i..], b[j + 1..]))
  {
    assert a[i..][1..] == a[i + 1..] && b[j..][1..] == b[j + 1..];
  }

  lemma LcsEdge(a: seq<string>, b: seq<string>, i: nat, j: nat)
    requires i <= |a| && j <= |b| && (i == |a| || j == |b|)
    ensures Lcs(a[i..], b[j..]) == 0
  {
  }

  /** The step the traceback takes at a cell. */
  lemma ScriptStep(a: seq<string>, b: seq<string>, i: nat, j: nat)
    requires i <= |a| && j <= |b| && (i < |a| || j < |b|)
    ensures Script(a[i..], b[j..]) ==
            if i < |a| && j < |b| && a[i] == b[j] then [Same(a[i])] + Script(a[i + 1..], b[j + 1..])
            else if j < |b| && (i == |a| || Lcs(a[i..], b[j + 1..]) >= Lcs(a[i + 1..], b[j..]))
            then [Added(b[j])] + Script(a[i..], b[j + 1..])
            else [Removed(a[i])] + Script(a[i + 1..], b[j..])
  {
    if i < |a| { assert a[i..][1..] == a[i + 1..] && a[i..][0] == a[i]; }
    if j < |b| { assert b[j..][1..] == b[j + 1..] && b[j..][0] == b[j]; }
  }

  lemma ScriptEnd(a: seq<string>, b: seq<string>)
    ensures Script(a[|a|..], b[|b|..]) == []
  {
  }

  /** One row of the table, filled from the right. */
  method FillRow(lcs: array2<int>, a: seq<string>, b: seq<string>, i: nat)
    requires |a| < WORD && |b| < WORD && i < |a|
    requires lcs.Length0 == |a| + 1 && lcs.Length1 == |b| + 1
    requires forall j :: 0 <= j <= |b| ==> lcs[i + 1, j] == Lcs(a[i + 1..], b[j..])
    requires lcs[i, |b|] == 0
    modifies lcs
    ensures forall j :: 0 <= j <= |b| ==> lcs[i, j] == Lcs(a[i..], b[j..])
    ensures forall x, y :: 0 <= x <= |a| && x != i && 0 <= y <= |b| ==> lcs[x, y] == old(lcs[x, y])
  {
    hide Lcs;
    var j := |b| - 1;
    LcsEdge(a, b, i, |b|);
    while j >= 0
      invariant -1 <= j < |b|
      invariant forall y :: j < y <= |b| ==> lcs[i, y] == Lcs(a[i..], b[y..])
      invariant forall x, y :: 0 <= x <= |a| && x != i && 0 <= y <= |b| ==> lcs[x, y] == old(lcs[x, y])
    {
      LcsCell(a, b, i, j);
      var cell := if a[i] == b[j] then lcs[i + 1, j + 1] + 1
                  else if lcs[i + 1, j] >= lcs[i, j + 1] then lcs[i + 1, j] else lcs[i, j + 1];
      assert cell == Lcs(a[i..], b[j..]);
      lcs[i, j] := ToUint32(cell);
      j := j - 1;
    }
  }

  /** Walks the table from its corner; no step leaves it, and every step shortens what is left. */
  method Trace(lcs: array2<int>, a: seq<string>, b: seq<string>) returns (out: seq<Change>)
    requires lcs.Length0 == |a| + 1 && lcs.Length1 == |b| + 1
    requires forall i, j :: 0 <= i <= |a| && 0 <= j <= |b| ==> lcs[i, j] == Lcs(a[i..], b[j..])
    ensures out == Script(a, b)
  {
    hide *;
    out := [];
    var i, j := 0, 0;
    ghost var rest := Script(a, b);
    assert a[0..] == a && b[0..] == b;
    while i < |a| || j < |b|
      invariant 0 <= i <= |a| && 0 <= j <= |b|
      invariant rest == Script(a[i..], b[j..])
      invariant out + rest == Script(a, b)
      decreases |a| - i + |b| - j
    {
      ScriptStep(a, b, i, j);
      var step;
      if i < |a| && j < |b| && a[i] == b[j] {
        step := Same(a[i]);
        i, j := i + 1, j + 1;
      } else if j < |b| && (i == |a| || lcs[i, j + 1] >= lcs[i + 1, j]) {
        step := Added(b[j]);
        j := j + 1;
      } else {
        step := Removed(a[i]);
        i := i + 1;
      }
      assert rest == [step] + Script(a[i..], b[j..]);
      out, rest := out + [step], rest[1..];
    }
    ScriptEnd(a, b);
  }

  /** The diff of two texts. An ECMAScript array holds fewer than 2^32 elements. */
  method Diff(before: string, after: string) returns (out: seq<Change>)
    requires |DiffLines(before)| < WORD && |DiffLines(after)| < WORD
    ensures out == Script(DiffLines(before), DiffLines(after))
    ensures Before(out) == DiffLines(before) && After(out) == DiffLines(after)
    ensures |Kept(out)| == Lcs(DiffLines(before), DiffLines(after))
    ensures forall other :: Before(other) == DiffLines(before) && After(other) == DiffLines(after) ==>
            Changes(out) <= Changes(other)
  {
    var a, b := DiffLines(before), DiffLines(after);
    var lcs := new int[|a| + 1, |b| + 1]((_, _) => 0);
    var i := |a| - 1;
    assert forall j :: 0 <= j <= |b| ==> Lcs(a[|a|..], b[j..]) == 0;
    while i >= 0
      invariant -1 <= i < |a|
      invariant forall x, y :: i < x <= |a| && 0 <= y <= |b| ==> lcs[x, y] == Lcs(a[x..], b[y..])
      invariant forall x, y :: 0 <= x <= i && 0 <= y <= |b| ==> lcs[x, y] == 0
    {
      FillRow(lcs, a, b, i);
      i := i - 1;
    }
    out := Trace(lcs, a, b);
    ScriptCorrect(a, b);
    forall other | Before(other) == a && After(other) == b ensures Changes(out) <= Changes(other) {
      ScriptMinimal(a, b, other);
    }
  }

  /** The lines of either side spell its text again, up to one final newline. */
  lemma DiffLinesSpell(text: string)
    ensures Join(DiffLines(text), "\n") == text || Join(DiffLines(text), "\n") + "\n" == text
  {
    if text != "" && text[|text| - 1] == '\n' {
      JoinSplit(text[..|text| - 1], '\n');
      assert text == text[..|text| - 1] + "\n";
    } else {
      JoinSplit(text, '\n');
    }
  }
}
