/** How a policy text becomes directives. */
module Syntax {
  import opened Text
  import opened Rights

  function Keyword(word: string): Option<Relation> {
    match word
    case "grant" => Some(Grant)
    case "role" => Some(Role)
    case "member" => Some(Member)
    case "group" => Some(Group)
    case "workspace" => Some(Workspace)
    case "workspace-package" => Some(WorkspacePackage)
    case "tenant" => Some(Tenant)
    case "tenant-admin" => Some(TenantAdmin)
    case _ => None
  }

  function Classify(f: seq<string>): Directive {
    if |f| == 4 && f[0] == "tree" then TreeDecl(Tree(f[1], f[2], f[3]))
    else if |f| == 4 && f[0] == "role-tool" then RoleTool(f[1], f[2], List(f[3]))
    else if |f| == 3 && Keyword(f[0]).Some? then Entry(Keyword(f[0]).value, f[1], List(f[2]))
    else Ignored
  }

  predicate Skipped(line: string) {
    var t := Trim(line);
    t == "" || t[0] == '#'
  }

  /** What the parser makes of a line. */
  function ReadLine(line: string): Directive {
    if Skipped(line) then Ignored else Classify(Fields(Trim(line)))
  }

  lemma TrimKeepsFirst(s: string)
    requires s != "" && !IsSpace(s[0])
    ensures Trim(s) != "" && Trim(s)[0] == s[0]
  {
    TrimEndCuts(s);
    var e := TrimEnd(s);
    if e == "" {
      TrimEndEmpty(s);
    }
  }

  lemma {:induction false} TrimEndEmpty(s: string)
    requires TrimEnd(s) == ""
    ensures forall c :: c in s ==> IsSpace(c)
  {
    if s != "" {
      TrimEndEmpty(s[..|s| - 1]);
      assert s == s[..|s| - 1] + [s[|s| - 1]];
    }
  }

  /** The first column of a line starts where the trimmed line starts. */
  lemma FirstField(t: string)
    requires t != "" && Trimmed(t)
    ensures Fields(t) != [] && Fields(t)[0] != "" && Fields(t)[0][0] == t[0]
  {
    var parts := Split(t, '\t');
    assert t[0] != '\t';
    assert parts[0] != "" && parts[0][0] == t[0];
    TrimKeepsFirst(parts[0]);
  }

  lemma HashIsNoKeyword(f: seq<string>)
    requires f != [] && f[0] != "" && f[0][0] == '#'
    ensures Classify(f) == Ignored
  {
    assert Keyword(f[0]) == None;
  }

  /** The scope resolver does not test for comments, and need not: a comment is never a directive. */
  lemma ReadLineIsClassify(line: string)
    ensures ReadLine(line) == Classify(Fields(Trim(line)))
  {
    var t := Trim(line);
    TrimIsTrimmed(line);
    if t == "" {
      assert Split(t, '\t') == [""];
    } else if t[0] == '#' {
      FirstField(t);
      HashIsNoKeyword(Fields(t));
    }
  }

  lemma ReadLineOfTrimEnd(line: string)
    ensures ReadLine(TrimEnd(line)) == ReadLine(line)
    ensures ReadLine(StripCR(line)) == ReadLine(line)
  {
    TrimAfterTrimEnd(line);
    TrimAfterStripCR(line);
  }

  /** A line as the scope resolver sees it. */
  function Resolve(raw: string): (l: Line)
    ensures l == Line(raw, ReadLine(raw))
  {
    ReadLineIsClassify(raw);
    Line(raw, Classify(Fields(Trim(raw))))
  }

  lemma BlankSaysNothing(raw: string)
    requires Trim(raw) == ""
    ensures ReadLine(raw) == Ignored
  {
  }

  /** The lines of a text, each with what it says. */
  function Read(lines: seq<string>): (r: seq<Line>)
    ensures |r| == |lines|
  {
    if lines == [] then []
    else
      var last := lines[|lines| - 1];
      Read(lines[..|lines| - 1]) + [Line(last, ReadLine(last))]
  }

  lemma {:induction false} ReadAt(lines: seq<string>)
    ensures forall i :: 0 <= i < |lines| ==> Read(lines)[i] == Line(lines[i], ReadLine(lines[i]))
  {
    if lines != [] {
      ReadAt(lines[..|lines| - 1]);
    }
  }

  function Tokens(text: string): seq<Line> {
    Read(Lines(text))
  }

  function ParseText(text: string): Rights {
    ParseLines(Tokens(text))
  }

  lemma ParsePrefix(lines: seq<string>, i: nat, r: Rights, d: Directive)
    requires i < |lines|
    requires r == ParseLines(Read(lines[..i])) && d == ReadLine(lines[i])
    ensures ParseLines(Read(lines[..i + 1])) == r.Add(d)
  {
    assert lines[..i + 1][..i] == lines[..i];
    var read := Read(lines[..i + 1]);
    assert read[..|read| - 1] == Read(lines[..i]);
  }

  /** Parses a policy text, skipping what it cannot read. */
  method Parse(text: string) returns (r: Rights)
    ensures r == ParseText(text)
  {
    r := EMPTY;
    var lines := Lines(text);
    for i := 0 to |lines|
      invariant r == ParseLines(Read(lines[..i]))
    {
      ParsePrefix(lines, i, r, ReadLine(lines[i]));
      var line := Trim(lines[i]);
      if line == "" || line[0] == '#' {
        continue;
      }
      r := r.Add(Classify(Fields(line)));
    }
    assert lines[..|lines|] == lines;
  }

  // ---- What the declared trees are like ----

  predicate PlainColumn(s: string) {
    s != "" && Trimmed(s) && '\n' !in s
  }

  lemma TreeColumns(raw: string)
    requires '\n' !in raw && ReadLine(raw).TreeDecl?
    ensures var tree := ReadLine(raw).tree;
            PlainColumn(tree.name) && PlainColumn(tree.addr) && PlainColumn(tree.token)
  {
    hide Fields, Trim, List, Trimmed;
    TrimIsTrimmed(raw);
    FieldsExclude(Trim(raw), '\n');
    var f := Fields(Trim(raw));
    assert f[1] in f && f[2] in f && f[3] in f;
  }

  lemma {:induction false} TreeLineOf(lines: seq<Line>, tree: Tree)
    requires tree in TreeLines(lines)
    ensures exists l :: l in lines && l.says == TreeDecl(tree)
  {
    var last := lines[|lines| - 1];
    if last.says != TreeDecl(tree) {
      TreeLineOf(lines[..|lines| - 1], tree);
    }
  }

  /** Every tree of a parsed text has an address and a token that fit on one line and are trimmed. */
  lemma ServedTreeIsPlain(text: string, tree: Tree)
    requires tree in ParseText(text).trees
    ensures PlainColumn(tree.addr) && PlainColumn(tree.token)
  {
    hide Lines, ReadLine, PlainColumn, Read, ParseLines;
    var lines := Tokens(text);
    ParsedTrees(lines);
    TreeLineOf(lines, tree);
    var l :| l in lines && l.says == TreeDecl(tree);
    ReadAt(Lines(text));
    var i :| 0 <= i < |lines| && lines[i] == l;
    assert Lines(text)[i] in Lines(text);
    TreeColumns(Lines(text)[i]);
  }
}
