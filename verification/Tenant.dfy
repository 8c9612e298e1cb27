/** The tenant view and the tenant edit on policy texts, and the lens laws they obey. */
module Tenant {
  import opened Text
  import opened Rights
  import opened Syntax
  import opened Lens
  import opened LensLaws

  /** An edit either yields a text, or is refused at a line (counted from 1). */
  datatype Edit = Done(text: string) | Refused(line: nat)

  function Raws(lines: seq<Line>): seq<string> {
    if lines == [] then [] else Raws(lines[..|lines| - 1]) + [lines[|lines| - 1].raw]
  }

  lemma {:induction false} RawsAt(lines: seq<Line>)
    ensures |Raws(lines)| == |lines| && forall i :: 0 <= i < |lines| ==> Raws(lines)[i] == lines[i].raw
  {
    if lines != [] {
      RawsAt(lines[..|lines| - 1]);
    }
  }

  function Write(lines: seq<Line>): string {
    Unlines(Raws(lines))
  }

  /** The lines inside `trees`: what a tenant administrator is shown. */
  function ScopedText(text: string, trees: set<string>): string {
    Write(View(Tokens(text), ParseText(text), trees))
  }

  predicate Blank(l: Line) {
    Trim(l.raw) == ""
  }

  /** The submitted lines that count: not blank, and right-trimmed. */
  function Cleaned(lines: seq<Line>): seq<Line> {
    if lines == [] then []
    else
      var last := lines[|lines| - 1];
      Cleaned(lines[..|lines| - 1]) + if Blank(last) then [] else [Line(TrimEnd(last.raw), last.says)]
  }

  predicate Rejects(l: Line, rights: Rights, trees: set<string>) {
    !Blank(l) && !Inside(l, rights, trees)
  }

  function FirstRejected(lines: seq<Line>, rights: Rights, trees: set<string>, from: nat): (r: Option<nat>)
    requires from <= |lines|
    decreases |lines| - from
  {
    if from == |lines| then None
    else if Rejects(lines[from], rights, trees) then Some(from)
    else FirstRejected(lines, rights, trees, from + 1)
  }

  /** What an edit must produce: the lines outside `trees` untouched, then the submitted ones. */
  function ComposeText(active: string, submitted: string, trees: set<string>): Edit {
    var both := Merge(ParseText(active), ParseText(submitted));
    match FirstRejected(Tokens(submitted), both, trees, 0)
    case Some(n) => Refused(n + 1)
    case None => Done(Write(Keep(Tokens(active), both, trees) + Cleaned(Tokens(submitted))))
  }

  // ---- The edit as the service runs it ----

  ghost function MergedFor(active: Column, submitted: Column, done: set<string>): Column
    requires done <= submitted.Keys
  {
    map k | k in active.Keys + done :: if k in done then Get(active, k) + submitted[k] else active[k]
  }

  lemma MergeOne(active: Column, submitted: Column, done: set<string>, k: string)
    requires done <= submitted.Keys && k in submitted && k !in done
    ensures Extend(MergedFor(active, submitted, done), k, submitted[k]) == MergedFor(active, submitted, done + {k})
  {
    assert Get(MergedFor(active, submitted, done), k) == Get(active, k);
  }

  /** Adds the submitted roles one by one, in whatever order the hash map yields them. */
  method MergeRoles(active: Rights, submitted: Rights) returns (both: Rights)
    ensures both == Merge(active, submitted)
  {
    var roles := active.roles;
    var pending := submitted.roles.Keys;
    ghost var done := {};
    assert MergedFor(active.roles, submitted.roles, {}) == active.roles;
    while pending != {}
      invariant done + pending == submitted.roles.Keys && done !! pending
      invariant roles == MergedFor(active.roles, submitted.roles, done)
      decreases pending
    {
      var role :| role in pending;
      MergeOne(active.roles, submitted.roles, done, role);
      roles := Extend(roles, role, submitted.roles[role]);
      pending, done := pending - {role}, done + {role};
    }
    assert done == submitted.roles.Keys;
    forall k | k in roles ensures roles[k] == Get(active.roles, k) + Get(submitted.roles, k) {
    }
    assert roles == Merge(active, submitted).roles;
    both := active.(roles := roles);
  }

  lemma WriteSnoc(lines: seq<Line>, l: Line)
    ensures Write(lines + [l]) == Write(lines) + l.raw + "\n"
  {
    assert (lines + [l])[..|lines|] == lines;
    assert Raws(lines + [l]) == Raws(lines) + [l.raw];
    UnlinesAppend(Raws(lines), [l.raw]);
    assert Unlines([l.raw]) == l.raw + "\n" + Unlines([]);
  }

  lemma WriteAppend(a: seq<Line>, b: seq<Line>)
    ensures Write(a + b) == Write(a) + Write(b)
  {
    RawsAt(a);
    RawsAt(b);
    RawsAt(a + b);
    assert Raws(a + b) == Raws(a) + Raws(b);
    UnlinesAppend(Raws(a), Raws(b));
  }

  lemma KeepNext(tokens: seq<Line>, i: nat, both: Rights, trees: set<string>)
    requires i < |tokens|
    ensures Keep(tokens[..i + 1], both, trees) ==
            if Inside(tokens[i], both, trees) then Keep(tokens[..i], both, trees)
            else Keep(tokens[..i], both, trees) + [tokens[i]]
  {
    assert tokens[..i + 1][..i] == tokens[..i];
  }

  lemma CleanedNext(tokens: seq<Line>, i: nat)
    requires i < |tokens|
    ensures Cleaned(tokens[..i + 1]) ==
            if Blank(tokens[i]) then Cleaned(tokens[..i])
            else Cleaned(tokens[..i]) + [Line(TrimEnd(tokens[i].raw), tokens[i].says)]
  {
    assert tokens[..i + 1][..i] == tokens[..i];
  }

  method KeepOutside(active: string, both: Rights, trees: set<string>) returns (out: string)
    ensures out == Write(Keep(Tokens(active), both, trees))
  {
    out := "";
    var lines := Lines(active);
    ghost var tokens := Tokens(active);
    ReadAt(lines);
    for i := 0 to |lines|
      invariant out == Write(Keep(tokens[..i], both, trees))
    {
      var line := Resolve(lines[i]);
      KeepNext(tokens, i, both, trees);
      if !Inside(line, both, trees) {
        WriteSnoc(Keep(tokens[..i], both, trees), line);
        out := out + lines[i] + "\n";
      }
    }
    assert tokens[..|lines|] == tokens;
  }

  lemma AddedLine(kept: seq<Line>, tokens: seq<Line>, n: nat)
    requires n < |tokens| && !Blank(tokens[n])
    ensures Write(kept + Cleaned(tokens[..n + 1])) == Write(kept + Cleaned(tokens[..n])) + TrimEnd(tokens[n].raw) + "\n"
  {
    var l := Line(TrimEnd(tokens[n].raw), tokens[n].says);
    CleanedNext(tokens, n);
    WriteSnoc(kept + Cleaned(tokens[..n]), l);
    assert kept + Cleaned(tokens[..n]) + [l] == kept + Cleaned(tokens[..n + 1]);
  }

  lemma CleanedNothing()
    ensures Cleaned([]) == []
  {
  }

  /** Appends the submitted lines, or stops at the first that reaches too far. */
  method AddSubmitted(out0: string, ghost kept: seq<Line>, submitted: string, both: Rights, trees: set<string>)
    returns (r: Edit)
    requires out0 == Write(kept)
    ensures r == match FirstRejected(Tokens(submitted), both, trees, 0)
                 case Some(n) => Refused(n + 1)
                 case None => Done(Write(kept + Cleaned(Tokens(submitted))))
  {
    hide Write, Cleaned;
    var out := out0;
    var lines := Lines(submitted);
    ghost var tokens := Tokens(submitted);
    ReadAt(lines);
    CleanedNothing();
    assert tokens[..0] == [] && kept + [] == kept;
    for n := 0 to |lines|
      invariant out == Write(kept + Cleaned(tokens[..n]))
      invariant FirstRejected(tokens, both, trees, 0) == FirstRejected(tokens, both, trees, n)
    {
      var line := TrimEnd(lines[n]);
      TrimAfterTrimEnd(lines[n]);
      if Trim(line) == "" {
        CleanedNext(tokens, n);
        continue;
      }
      AddedLine(kept, tokens, n);
      ReadLineOfTrimEnd(lines[n]);
      if !Inside(Resolve(line), both, trees) {
        return Refused(n + 1);
      }
      out := out + line + "\n";
    }
    assert tokens[..|lines|] == tokens;
    r := Done(out);
  }

  lemma ComposeIs(active: string, submitted: string, trees: set<string>)
    ensures var both := Merge(ParseText(active), ParseText(submitted));
            var kept := Keep(Tokens(active), both, trees);
            ComposeText(active, submitted, trees) ==
            match FirstRejected(Tokens(submitted), both, trees, 0)
            case Some(n) => Refused(n + 1)
            case None => Done(Write(kept + Cleaned(Tokens(submitted))))
  {
    hide Merge, ParseText, Tokens, Keep, FirstRejected, Write, Cleaned;
  }

  /** A tenant administrator's edit applied to the active rights. */
  method Compose(active: string, submitted: string, trees: set<string>) returns (r: Edit)
    ensures r == ComposeText(active, submitted, trees)
  {
    hide *;
    ComposeIs(active, submitted, trees);
    var activeRights := Parse(active);
    var submittedRights := Parse(submitted);
    var both := MergeRoles(activeRights, submittedRights);
    var out := KeepOutside(active, both, trees);
    r := AddSubmitted(out, Keep(Tokens(active), both, trees), submitted, both, trees);
  }

  // ---- From texts to lines and back ----

  /** Lines as reading produces them. */
  ghost predicate Readable(lines: seq<Line>) {
    forall l :: l in lines ==> l.says == ReadLine(l.raw) && '\n' !in l.raw
  }

  lemma TokensReadable(text: string)
    ensures Readable(Tokens(text))
  {
    ReadAt(Lines(text));
  }

  lemma CleanedLine(l: Line)
    requires l.says == ReadLine(l.raw) && '\n' !in l.raw
    ensures l.says == ReadLine(TrimEnd(l.raw)) && '\n' !in TrimEnd(l.raw) && !EndsInCR(TrimEnd(l.raw))
  {
    ReadLineOfTrimEnd(l.raw);
    TrimEndCuts(l.raw);
  }

  lemma {:induction false} CleanedLines(lines: seq<Line>)
    requires Readable(lines)
    ensures Readable(Cleaned(lines))
    ensures ParseLines(Cleaned(lines)) == ParseLines(lines)
    ensures forall l :: l in Cleaned(lines) ==> !EndsInCR(l.raw)
  {
    if lines != [] {
      var init, last := lines[..|lines| - 1], lines[|lines| - 1];
      InitAndLast(lines);
      CleanedLines(init);
      if Blank(last) {
        BlankSaysNothing(last.raw);
        assert Cleaned(lines) == Cleaned(init);
      } else {
        CleanedLine(last);
        var l := Line(TrimEnd(last.raw), last.says);
        var c := Cleaned(init);
        assert Cleaned(lines) == c + [l] && (c + [l])[..|c|] == c;
      }
    }
  }

  lemma {:induction false} CleanedInside(lines: seq<Line>, rights: Rights, trees: set<string>)
    ensures (forall l :: l in lines ==> !Rejects(l, rights, trees)) <==>
            (forall l :: l in Cleaned(lines) ==> Inside(l, rights, trees))
  {
    if lines != [] {
      var init, last := lines[..|lines| - 1], lines[|lines| - 1];
      InitAndLast(lines);
      CleanedInside(init, rights, trees);
      var l := Line(TrimEnd(last.raw), last.says);
      var c := Cleaned(init);
      assert Inside(l, rights, trees) == Inside(last, rights, trees);
      if Blank(last) {
        assert Cleaned(lines) == c;
      } else {
        assert Cleaned(lines) == c + [l] && l in c + [l];
        if forall m :: m in lines ==> !Rejects(m, rights, trees) {
          assert !Rejects(last, rights, trees);
          assert forall m :: m in init ==> m in lines;
          assert forall m :: m in c + [l] ==> m in c || m == l;
        }
        if forall m :: m in c + [l] ==> Inside(m, rights, trees) {
          assert forall m :: m in c ==> m in c + [l];
          assert !Rejects(last, rights, trees);
        }
      }
    }
  }

  lemma {:induction false} FirstRejectedNone(lines: seq<Line>, rights: Rights, trees: set<string>, from: nat)
    requires from <= |lines|
    ensures FirstRejected(lines, rights, trees, from).None? <==>
            forall i :: from <= i < |lines| ==> !Rejects(lines[i], rights, trees)
    decreases |lines| - from
  {
    if from < |lines| && !Rejects(lines[from], rights, trees) {
      FirstRejectedNone(lines, rights, trees, from + 1);
    }
  }

  /** An edit is done exactly when every submitted line stays inside, and then it is the line-level result. */
  lemma ComposeResult(active: string, submitted: string, trees: set<string>)
    ensures ComposeText(active, submitted, trees).Done? <==> Accepted(Tokens(active), Cleaned(Tokens(submitted)), trees)
    ensures ComposeText(active, submitted, trees).Done? ==>
              ComposeText(active, submitted, trees).text ==
                Write(Result(Tokens(active), Cleaned(Tokens(submitted)), trees))
  {
    var lines, own := Tokens(submitted), Cleaned(Tokens(submitted));
    TokensReadable(submitted);
    CleanedLines(lines);
    var both := Both(Tokens(active), own);
    CleanedInside(lines, both, trees);
    FirstRejectedNone(lines, both, trees, 0);
    assert (forall i :: 0 <= i < |lines| ==> !Rejects(lines[i], both, trees)) <==>
           (forall l :: l in lines ==> !Rejects(l, both, trees));
  }

  /** What reading makes of written lines: the same directives, one carriage return shorter each. */
  function Stripped(lines: seq<Line>): seq<Line> {
    if lines == [] then []
    else
      var last := lines[|lines| - 1];
      Stripped(lines[..|lines| - 1]) + [Line(StripCR(last.raw), last.says)]
  }

  lemma {:induction false} StrippedAt(lines: seq<Line>)
    ensures |Stripped(lines)| == |lines|
    ensures forall i :: 0 <= i < |lines| ==> Stripped(lines)[i] == Line(StripCR(lines[i].raw), lines[i].says)
    ensures SameSays(Stripped(lines), lines)
  {
    if lines != [] {
      StrippedAt(lines[..|lines| - 1]);
    }
  }

  lemma ReadBack(lines: seq<Line>)
    requires Readable(lines)
    ensures Tokens(Write(lines)) == Stripped(lines)
  {
    var raws := Raws(lines);
    RawsAt(lines);
    forall r | r in raws ensures '\n' !in r {
      var i :| 0 <= i < |raws| && raws[i] == r;
      assert lines[i] in lines;
    }
    LinesOfUnlines(raws);
    ReadAt(StripCRs(raws));
    StrippedAt(lines);
    forall i | 0 <= i < |lines|
      ensures Read(StripCRs(raws))[i] == Stripped(lines)[i]
    {
      assert lines[i] in lines;
      ReadLineOfTrimEnd(lines[i].raw);
    }
  }

  lemma {:induction false} SameSaysParse(a: seq<Line>, b: seq<Line>)
    requires SameSays(a, b)
    ensures ParseLines(a) == ParseLines(b)
  {
    if a != [] {
      SameSaysParse(a[..|a| - 1], b[..|b| - 1]);
    }
  }

  lemma {:induction false} StrippedKeep(lines: seq<Line>, rights: Rights, trees: set<string>)
    ensures Keep(Stripped(lines), rights, trees) == Stripped(Keep(lines, rights, trees))
  {
    if lines != [] {
      var init, last := lines[..|lines| - 1], lines[|lines| - 1];
      StrippedKeep(init, rights, trees);
      StrippedLast(lines);
      StrippedSnoc(Keep(init, rights, trees), last);
      assert Keep(init, rights, trees) + [] == Keep(init, rights, trees);
    }
  }

  lemma {:induction false} StrippedView(lines: seq<Line>, rights: Rights, trees: set<string>)
    ensures View(Stripped(lines), rights, trees) == Stripped(View(lines, rights, trees))
  {
    if lines != [] {
      var init, last := lines[..|lines| - 1], lines[|lines| - 1];
      StrippedView(init, rights, trees);
      StrippedLast(lines);
      StrippedSnoc(View(init, rights, trees), last);
      assert View(init, rights, trees) + [] == View(init, rights, trees);
    }
  }

  lemma StrippedLast(lines: seq<Line>)
    requires lines != []
    ensures var last := lines[|lines| - 1];
            && Stripped(lines) != []
            && Stripped(lines)[..|Stripped(lines)| - 1] == Stripped(lines[..|lines| - 1])
            && Stripped(lines)[|Stripped(lines)| - 1] == Line(StripCR(last.raw), last.says)
  {
  }

  lemma StrippedSnoc(lines: seq<Line>, l: Line)
    ensures Stripped(lines + [l]) == Stripped(lines) + [Line(StripCR(l.raw), l.says)]
  {
    assert (lines + [l])[..|lines|] == lines;
  }

  lemma SameSaysCarry(a: seq<Line>, b: seq<Line>)
    requires SameSays(a, b)
    ensures SaysNoMore(a, b)
  {
    forall l | l in a ensures exists m :: m in b && m.says == l.says {
      var i :| 0 <= i < |a| && a[i] == l;
      assert b[i] in b;
    }
    CarriedSaysNoMore(a, b);
  }

  lemma SameSaysReferenced(a: seq<Line>, b: seq<Line>)
    requires SameSays(a, b) && WellReferenced(a)
    ensures WellReferenced(b)
  {
    SameSaysCarry(a, b);
    forall l | l in b ensures Referenced(l.says, b) {
      var i :| 0 <= i < |b| && b[i] == l;
      assert a[i] in a && Referenced(a[i].says, a);
    }
  }

  // ---- The laws, on texts ----

  /** The policy texts whose role and workspace references all resolve. */
  ghost predicate Resolves(text: string) {
    WellReferenced(Tokens(text))
  }

  lemma ResultReadable(active: string, submitted: string, trees: set<string>)
    ensures Readable(Result(Tokens(active), Cleaned(Tokens(submitted)), trees))
  {
    TokensReadable(active);
    TokensReadable(submitted);
    CleanedLines(Tokens(submitted));
    Divided(Tokens(active), Both(Tokens(active), Cleaned(Tokens(submitted))), trees);
  }

  /** The composed text, read again. */
  lemma ComposedTokens(active: string, submitted: string, trees: set<string>) returns (r: seq<Line>)
    requires ComposeText(active, submitted, trees).Done?
    ensures Accepted(Tokens(active), Cleaned(Tokens(submitted)), trees)
    ensures r == Result(Tokens(active), Cleaned(Tokens(submitted)), trees)
    ensures ComposeText(active, submitted, trees).text == Write(r)
    ensures Tokens(ComposeText(active, submitted, trees).text) == Stripped(r)
    ensures ParseText(ComposeText(active, submitted, trees).text) == ParseLines(r)
    ensures Resolves(ComposeText(active, submitted, trees).text) ==> WellReferenced(r)
  {
    ComposeResult(active, submitted, trees);
    r := Result(Tokens(active), Cleaned(Tokens(submitted)), trees);
    ResultReadable(active, submitted, trees);
    ReadBack(r);
    StrippedAt(r);
    SameSaysParse(Stripped(r), r);
    if WellReferenced(Stripped(r)) {
      SameSaysReferenced(Stripped(r), r);
    }
  }

  /** Whatever a tenant administrator submits, no decision outside the tenant's trees changes, nor
      any tree, tenant or administrator: for every active text, valid or not. */
  lemma ComposeFrame(active: string, submitted: string, trees: set<string>)
    requires ComposeText(active, submitted, trees).Done?
    ensures SameOutside(ParseText(active), ParseText(ComposeText(active, submitted, trees).text), trees)
    ensures SameParts(ParseText(active), ParseText(ComposeText(active, submitted, trees).text), trees)
    ensures SameAdministration(ParseText(active), ParseText(ComposeText(active, submitted, trees).text))
  {
    hide SameParts, SameOutside, SameAdministration;
    var r := ComposedTokens(active, submitted, trees);
    Frame(Tokens(active), Cleaned(Tokens(submitted)), trees);
    Administration(Tokens(active), Cleaned(Tokens(submitted)), trees);
  }

  lemma WorkspaceValues(lines: seq<Line>, w: string)
    ensures Get(ParseLines(lines).workspaces, w) == Values(lines, Workspace, w)
  {
    ParsedColumn(lines, Workspace, w);
    assert ParseLines(lines).workspaces == ParseLines(lines).Column(Workspace);
  }

  lemma ForeignSays(lines: seq<Line>, trees: set<string>, w: string)
    requires forall t :: t in Get(ParseLines(lines).workspaces, w) ==> t !in trees
    ensures forall t :: Says(lines, Workspace, w, t) ==> t !in trees
  {
    hide Says, ParseLines;
    forall t | Says(lines, Workspace, w, t) ensures t !in trees {
      WorkspaceSays(lines, w, t);
    }
  }

  lemma CleanedParses(text: string)
    ensures ParseLines(Cleaned(Tokens(text))) == ParseText(text)
  {
    TokensReadable(text);
    CleanedLines(Tokens(text));
  }

  /** What an edit does to a workspace that was wholly outside the tenant: its trees stay if and only if
      the submission names none for it; otherwise the submitted ones are added. */
  lemma ForeignWorkspaceKeptIff(active: string, submitted: string, trees: set<string>, w: string)
    requires ComposeText(active, submitted, trees).Done?
    requires forall t :: t in Get(ParseText(active).workspaces, w) ==> t !in trees
    ensures var (before, mine) := (Get(ParseText(active).workspaces, w), Get(ParseText(submitted).workspaces, w));
            var after := Get(ParseText(ComposeText(active, submitted, trees).text).workspaces, w);
            after == before + mine && (after == before <==> mine == [])
  {
    hide *;
    var lines, own := Tokens(active), Cleaned(Tokens(submitted));
    var r := ComposedTokens(active, submitted, trees);
    ParseTextIs(active);
    ForeignSays(lines, trees, w);
    WorkspaceAfter(lines, own, trees, w);
    WorkspaceValues(lines, w);
    WorkspaceValues(own, w);
    WorkspaceValues(r, w);
    CleanedParses(submitted);
    NothingAdded(Get(ParseText(active).workspaces, w), Get(ParseText(submitted).workspaces, w));
  }

  lemma NothingAdded(list: seq<string>, more: seq<string>)
    ensures list + more == list <==> more == []
  {
    assert |list + more| == |list| + |more|;
  }

  lemma ParseTextIs(text: string)
    ensures ParseText(text) == ParseLines(Tokens(text))
  {
    hide Tokens, ParseLines;
  }

  /** Who sees such a workspace after an edit: those who saw it before and reach every tree the submission
      adds to it. */
  lemma ForeignWorkspaceVisible(active: string, submitted: string, trees: set<string>,
                                user: string, idpGroups: seq<string>, w: string)
    requires ComposeText(active, submitted, trees).Done?
    requires Get(ParseText(active).workspaces, w) != []
    requires forall t :: t in Get(ParseText(active).workspaces, w) ==> t !in trees
    ensures var after := ParseText(ComposeText(active, submitted, trees).text);
            w in after.VisibleWorkspaces(user, idpGroups) <==>
            && w in ParseText(active).VisibleWorkspaces(user, idpGroups)
            && forall t :: t in Get(ParseText(submitted).workspaces, w) ==> after.May(user, idpGroups, t)
  {
    hide *;
    var before, after := ParseText(active), ParseText(ComposeText(active, submitted, trees).text);
    ForeignWorkspaceKeptIff(active, submitted, trees, w);
    ComposeFrame(active, submitted, trees);
    VisibleAfter(before, after, trees, user, idpGroups, w);
    SubmittedWorkspace(active, submitted, trees, w);
  }

  lemma SubmittedWorkspace(active: string, submitted: string, trees: set<string>, w: string)
    requires ComposeText(active, submitted, trees).Done?
    ensures forall t :: t in Get(ParseText(submitted).workspaces, w) ==> t in trees
  {
    hide *;
    var lines, own := Tokens(active), Cleaned(Tokens(submitted));
    var r := ComposedTokens(active, submitted, trees);
    ResultOrigin(lines, own, trees);
    CleanedParses(submitted);
    forall t | t in Get(ParseText(submitted).workspaces, w) ensures t in trees {
      WorkspaceSays(own, w, t);
    }
  }

  lemma {:induction false} CleanedOfStripped(lines: seq<Line>)
    requires forall l :: l in lines ==> !Blank(l)
    ensures SameSays(Cleaned(Stripped(lines)), lines)
  {
    if lines != [] {
      var init, last := lines[..|lines| - 1], lines[|lines| - 1];
      InitAndLast(lines);
      CleanedOfStripped(init);
      TrimAfterStripCR(last.raw);
      var l := Line(StripCR(last.raw), last.says);
      StrippedLast(lines);
      assert last in lines && !Blank(last);
    }
  }

  /** The trees a role or workspace lists are some, and all of them the tenant's. */
  predicate OwnTrees(list: seq<string>, trees: set<string>) {
    list != [] && forall t | t in list :: t in trees
  }

  /** A line about the tenant alone: each tree it names is the tenant's, and so are all trees of each
      role or workspace it names; no tree's address or token, no tenant, no administrator. */
  predicate TenantLine(d: Directive, rights: Rights, trees: set<string>) {
    match d
    case Entry(rel, key, values) => (
      match rel
      case Grant => OwnTrees(values, trees)
      case Workspace => OwnTrees(values, trees)
      case Role => key != "admin" && OwnTrees(values, trees)
      case Member => values != [] && forall r | r in values :: r != "admin" && OwnTrees(Get(rights.roles, r), trees)
      case Group => values != [] && forall r | r in values :: r != "admin" && OwnTrees(Get(rights.roles, r), trees)
      case WorkspacePackage => OwnTrees(Get(rights.workspaces, key), trees)
      case Tenant => false
      case TenantAdmin => false)
    case RoleTool(role, tree, _) => role != "admin" && tree in trees
    case TreeDecl(_) => false
    case Ignored => false
  }

  lemma ListIsInside(list: seq<string>, trees: set<string>)
    ensures OwnTrees(list, trees) <==>
            var reached := NonEmpty(set t | t in list);
            reached.Some? && reached.value <= trees
  {
    var reached := set t | t in list;
    assert list != [] ==> list[0] in reached;
  }

  /** The scope resolver's answer, in terms of each name a line mentions. */
  lemma InsideIsTenantLine(l: Line, rights: Rights, trees: set<string>)
    ensures Inside(l, rights, trees) <==> TenantLine(l.says, rights, trees)
  {
    hide NonEmpty;
    if l.says.Entry? {
      ListIsInside(l.says.values, trees);
      if l.says.relation == Member || l.says.relation == Group {
        RoleLineInside(l, rights, trees);
      } else if l.says.relation == WorkspacePackage {
        PackageLineInside(l, rights, trees);
      }
    }
  }

  /** Whatever the policy says, its view is exactly the tenant's own lines, none of them blank. */
  lemma ViewIsTenantLines(text: string, trees: set<string>, l: Line)
    ensures l in View(Tokens(text), ParseText(text), trees) <==>
            l in Tokens(text) && TenantLine(l.says, ParseText(text), trees)
    ensures l in View(Tokens(text), ParseText(text), trees) ==> !Blank(l)
  {
    hide Tokens, ParseText, View, TenantLine, Inside, ReadLine;
    TokensReadable(text);
    Divided(Tokens(text), ParseText(text), trees);
    InsideIsTenantLine(l, ParseText(text), trees);
    if Blank(l) && l in Tokens(text) {
      BlankSaysNothing(l.raw);
      NothingIsInside(l, ParseText(text), trees);
    }
  }

  lemma NothingIsInside(l: Line, rights: Rights, trees: set<string>)
    requires l.says == Ignored
    ensures !Inside(l, rights, trees)
  {
  }

  /** GetPut: the view, submitted unchanged, is always accepted and changes no decision. */
  lemma ComposeGetPut(active: string, trees: set<string>)
    ensures ComposeText(active, ScopedText(active, trees), trees).Done?
    ensures SameOutside(ParseText(active), ParseText(ComposeText(active, ScopedText(active, trees), trees).text), {})
    ensures SameAdministration(ParseText(active), ParseText(ComposeText(active, ScopedText(active, trees), trees).text))
  {
    var shown := View(Tokens(active), ParseText(active), trees);
    var submitted := ScopedText(active, trees);
    TokensReadable(active);
    ReadBack(shown) by {
      Divided(Tokens(active), ParseText(active), trees);
    }
    Divided(Tokens(active), ParseText(active), trees);
    forall l | l in shown ensures !Blank(l) {
      ViewIsTenantLines(active, trees, l);
    }
    CleanedOfStripped(shown);
    GetPut(Tokens(active), Cleaned(Tokens(submitted)), trees);
    ComposeResult(active, submitted, trees);
    var r := ComposedTokens(active, submitted, trees);
  }

  lemma WriteEmptyOnly(lines: seq<Line>)
    ensures Write(lines) == "" ==> lines == []
  {
    if lines != [] {
      assert Raws(lines) != [];
    }
  }

  lemma {:induction false} StrippedClean(lines: seq<Line>)
    requires forall l :: l in lines ==> !EndsInCR(l.raw)
    ensures Stripped(lines) == lines
  {
    if lines != [] {
      InitAndLast(lines);
      StrippedClean(lines[..|lines| - 1]);
    }
  }

  lemma StrippedAppend(a: seq<Line>, b: seq<Line>)
    ensures Stripped(a + b) == Stripped(a) + Stripped(b)
  {
    StrippedAt(a);
    StrippedAt(b);
    StrippedAt(a + b);
  }

  lemma SameFront(x: string, y: string, z: string)
    ensures x + z == y + z <==> x == y
  {
    if x + z == y + z {
      assert |x| == |y| && x == (x + z)[..|x|] && y == (y + z)[..|y|];
    }
  }

  /** Dropping carriage returns from lines changes their text exactly when one of them ends in one. */
  lemma StrippedText(lines: seq<Line>)
    ensures Write(Stripped(lines)) == Write(lines) <==> forall l :: l in lines ==> !EndsInCR(l.raw)
  {
    var raws := Raws(lines);
    RawsAt(lines);
    StrippedAt(lines);
    RawsAt(Stripped(lines));
    assert Raws(Stripped(lines)) == StripCRs(raws);
    UnlinesOfStripCRs(raws);
    RawsEndInCR(lines);
  }

  lemma RawsEndInCR(lines: seq<Line>)
    ensures (forall s :: s in Raws(lines) ==> !EndsInCR(s)) <==> forall l :: l in lines ==> !EndsInCR(l.raw)
  {
    var raws := Raws(lines);
    RawsAt(lines);
    if forall s :: s in raws ==> !EndsInCR(s) {
      forall l | l in lines ensures !EndsInCR(l.raw) {
        var i :| 0 <= i < |lines| && lines[i] == l;
        assert raws[i] in raws;
      }
    }
    if forall l :: l in lines ==> !EndsInCR(l.raw) {
      forall s | s in raws ensures !EndsInCR(s) {
        var i :| 0 <= i < |raws| && raws[i] == s;
        assert lines[i] in lines;
      }
    }
  }

  /** The view of a composed text: the dangling package lines, then what was submitted. */
  lemma ScopedOfComposed(active: string, submitted: string, trees: set<string>) returns (woken: seq<Line>)
    requires ComposeText(active, submitted, trees).Done?
    requires Resolves(ComposeText(active, submitted, trees).text)
    ensures ScopedText(ComposeText(active, submitted, trees).text, trees)
            == Write(Stripped(woken)) + Write(Cleaned(Tokens(submitted)))
    ensures forall l :: l in woken <==> Dangling(Tokens(active), l)
  {
    var own := Cleaned(Tokens(submitted));
    var r := ComposedTokens(active, submitted, trees);
    woken := ViewOfResult(Tokens(active), own, trees);
    StrippedView(r, ParseLines(r), trees);
    StrippedAppend(woken, own);
    assert Stripped(own) == own by {
      TokensReadable(submitted);
      CleanedLines(Tokens(submitted));
      StrippedClean(own);
    }
    WriteAppend(Stripped(woken), own);
  }

  /** PutGet, exactly: when the result's references resolve, the view of the result is the submitted
      text, blank lines dropped and right-trimmed, if and only if no package line of the active text
      names a workspace to which that text gives no trees. */
  lemma ComposePutGet(active: string, submitted: string, trees: set<string>)
    requires ComposeText(active, submitted, trees).Done?
    requires Resolves(ComposeText(active, submitted, trees).text)
    ensures ScopedText(ComposeText(active, submitted, trees).text, trees) == Write(Cleaned(Tokens(submitted)))
            <==> forall l :: !Dangling(Tokens(active), l)
  {
    var woken := ScopedOfComposed(active, submitted, trees);
    var shown := Write(Cleaned(Tokens(submitted)));
    var front := Write(Stripped(woken));
    assert front + shown == shown <==> front == "";
    assert front == "" <==> woken == [] by {
      StrippedAt(woken);
      WriteEmptyOnly(Stripped(woken));
    }
    if woken != [] {
      assert woken[0] in woken;
    }
  }

  lemma {:induction false} WriteShrinks(lines: seq<Line>, a: Rights, b: Rights, trees: set<string>)
    requires forall l :: l in lines && Inside(l, b, trees) ==> Inside(l, a, trees)
    ensures |Write(Keep(lines, a, trees))| <= |Write(Keep(lines, b, trees))|
    ensures (exists l :: l in lines && Inside(l, a, trees) && !Inside(l, b, trees)) ==>
              |Write(Keep(lines, a, trees))| < |Write(Keep(lines, b, trees))|
  {
    hide Inside, Write;
    KeepLast(lines, a, trees);
    KeepLast(lines, b, trees);
    hide Keep;
    if lines != [] {
      var init, last := lines[..|lines| - 1], lines[|lines| - 1];
      InitAndLast(lines);
      WriteShrinks(init, a, b, trees);
      WriteSnoc(Keep(init, a, trees), last);
      WriteSnoc(Keep(init, b, trees), last);
    }
  }

  /** The lines outside stay as they are, exactly: an edit writes all lines that the view did not show,
      then the submitted ones, if and only if the submission awakens no member or group line. */
  lemma ComposeKeepsIff(active: string, submitted: string, trees: set<string>)
    requires ComposeText(active, submitted, trees).Done?
    ensures ComposeText(active, submitted, trees).text
            == Write(Keep(Tokens(active), ParseText(active), trees) + Cleaned(Tokens(submitted)))
            <==> forall l :: l in Tokens(active) ==> !Awakened(Tokens(active), Cleaned(Tokens(submitted)), trees, l)
  {
    hide Tokens, Keep, Both, ParseLines, Awakened, Inside, Write;
    var lines, own := Tokens(active), Cleaned(Tokens(submitted));
    ComposeResult(active, submitted, trees);
    hide ComposeText, Accepted;
    var both := Both(lines, own);
    WriteAppend(Keep(lines, both, trees), own);
    WriteAppend(Keep(lines, ParseText(active), trees), own);
    SameFront(Write(Keep(lines, both, trees)), Write(Keep(lines, ParseText(active), trees)), Write(own));
    forall l ensures Inside(l, both, trees) <==> Inside(l, ParseLines(lines), trees) || Awakened(lines, own, trees, l) {
      InsideIff(lines, own, trees, l);
    }
    WriteShrinks(lines, both, ParseLines(lines), trees);
    KeptIntactIff(lines, own, trees);
    if l :| l in lines && Awakened(lines, own, trees, l) {
      AwakenedIsHidden(lines, own, trees, l);
    }
  }

  /** The lines a second edit leaves alone are those a first one left alone. */
  lemma SecondKeeps(active: string, first: string, second: string, trees: set<string>) returns (kept: seq<Line>)
    requires Resolves(active)
    requires ComposeText(active, first, trees).Done? && ComposeText(active, second, trees).Done?
    requires Resolves(ComposeText(active, first, trees).text)
    requires ComposeText(ComposeText(active, first, trees).text, second, trees).Done?
    ensures kept == Keep(Tokens(active), ParseText(active), trees)
    ensures ComposeText(active, second, trees).text == Write(kept + Cleaned(Tokens(second)))
    ensures ComposeText(ComposeText(active, first, trees).text, second, trees).text
            == Write(Stripped(kept) + Cleaned(Tokens(second)))
  {
    var lines, own := Tokens(active), Cleaned(Tokens(second));
    var middle := ComposeText(active, first, trees).text;
    kept := Keep(lines, ParseText(active), trees);
    var r1 := ComposedTokens(active, first, trees);
    var r2 := ComposedTokens(active, second, trees);
    var r12 := ComposedTokens(middle, second, trees);
    assert Both(Tokens(middle), own) == Both(r1, own);
    assert Accepted(r1, own, trees);
    KeptIsIntrinsic(lines, Cleaned(Tokens(first)), trees);
    KeptIsIntrinsic(lines, own, trees);
    KeptIsIntrinsic(r1, own, trees);
    KeptAgain(lines, Cleaned(Tokens(first)), trees);
    StrippedKeep(r1, Both(r1, own), trees);
  }

  /** PutPut, exactly: when active and intermediate texts resolve, two edits in a row give the text of
      the second alone if and only if no line they leave alone ends in a stray carriage return. */
  lemma ComposePutPut(active: string, first: string, second: string, trees: set<string>)
    requires Resolves(active)
    requires ComposeText(active, first, trees).Done? && ComposeText(active, second, trees).Done?
    requires Resolves(ComposeText(active, first, trees).text)
    requires ComposeText(ComposeText(active, first, trees).text, second, trees).Done?
    ensures ComposeText(ComposeText(active, first, trees).text, second, trees) == ComposeText(active, second, trees)
            <==> forall l :: l in Keep(Tokens(active), ParseText(active), trees) ==> !EndsInCR(l.raw)
  {
    var kept := SecondKeeps(active, first, second, trees);
    var own := Cleaned(Tokens(second));
    WriteAppend(kept, own);
    WriteAppend(Stripped(kept), own);
    SameFront(Write(Stripped(kept)), Write(kept), Write(own));
    StrippedText(kept);
  }

  /** The second edit is accepted after the first exactly when the workspaces its package lines name
      are still declared: a submission is resolved against its own roles, but not its own workspaces. */
  lemma ComposePutPutAccepted(active: string, first: string, second: string, trees: set<string>)
    requires ComposeText(active, first, trees).Done? && ComposeText(active, second, trees).Done?
    requires Resolves(ComposeText(active, second, trees).text)
    ensures ComposeText(ComposeText(active, first, trees).text, second, trees).Done? <==>
            forall l, w :: l in Cleaned(Tokens(second)) && Names(l.says, WorkspacePackage, w) ==>
                           exists t :: Says(Tokens(ComposeText(active, first, trees).text), Workspace, w, t)
  {
    var middle := ComposeText(active, first, trees).text;
    var r1 := ComposedTokens(active, first, trees);
    var r2 := ComposedTokens(active, second, trees);
    var own := Cleaned(Tokens(second));
    PutPutAccepted(Tokens(active), Cleaned(Tokens(first)), own, trees);
    ComposeResult(middle, second, trees);
    assert Both(Tokens(middle), own) == Both(r1, own);
    StrippedAt(r1);
    SameWorkspaces(Stripped(r1), r1);
  }

  lemma SameWorkspaces(a: seq<Line>, b: seq<Line>)
    requires SameSays(a, b)
    ensures forall w, t :: Says(a, Workspace, w, t) <==> Says(b, Workspace, w, t)
  {
    SameSaysParse(a, b);
    ColumnSays(a);
    ColumnSays(b);
  }
}
