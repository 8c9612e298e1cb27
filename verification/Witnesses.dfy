/** Inputs on the failing side of the laws for tenant edits and for the mirror. */
module Witnesses {
  import opened Text
  import opened Rights
  import opened Syntax
  import opened Lens
  import opened LensLaws
  import opened Tenant
  import opened Validate
  import opened Mirror
  import opened StringOrder
  import opened MirrorValid

  // ---- Small texts ----

  predicate IsWord(s: string) {
    s != "" && Trimmed(s) && '\t' !in s && ',' !in s && '\n' !in s
  }

  function EntryLine(word: string, rel: Relation, key: string, value: string): Line {
    Line(word + "\t" + key + "\t" + value, Entry(rel, key, [value]))
  }

  /** A line that reading gives back and that no trimming changes. */
  ghost predicate Tidy(l: Line) {
    && l.says == ReadLine(l.raw) && '\n' !in l.raw && !EndsInCR(l.raw)
    && !Blank(l) && TrimEnd(l.raw) == l.raw
  }

  lemma TrimmedIsTidy(raw: string)
    requires raw != "" && Trimmed(raw) && '\n' !in raw
    ensures Tidy(Line(raw, ReadLine(raw)))
  {
    hide ReadLine;
    TrimOfTrimmed(raw);
    assert IsSpace('\r');
  }

  lemma EntryLineTidy(word: string, rel: Relation, key: string, value: string)
    requires IsWord(word) && IsWord(key) && IsWord(value) && Keyword(word) == Some(rel)
    ensures Tidy(EntryLine(word, rel, key, value))
  {
    hide Keyword, ReadLine;
    var raw := word + "\t" + key + "\t" + value;
    ThreeColumns(word, key, value);
    TrimOfTrimmed(raw);
    ListOfJoin([value]);
    ReadLineIsClassify(raw);
    assert raw[0] == word[0];
    TrimmedIsTidy(raw);
  }

  lemma {:induction false} CleanedTidy(lines: seq<Line>)
    requires forall l :: l in lines ==> Tidy(l)
    ensures Cleaned(lines) == lines
  {
    hide ReadLine;
    if lines != [] {
      InitAndLast(lines);
      CleanedTidy(lines[..|lines| - 1]);
      assert Tidy(lines[|lines| - 1]);
    }
  }

  lemma TidyReads(lines: seq<Line>)
    requires forall l :: l in lines ==> Tidy(l)
    ensures Tokens(Write(lines)) == lines && Cleaned(lines) == lines && ParseText(Write(lines)) == ParseLines(lines)
  {
    hide ReadLine, Tokens, Write, Blank, ParseLines;
    ReadBack(lines);
    StrippedClean(lines);
    CleanedTidy(lines);
  }

  /** What an edit of a tidy text by a tidy submission does, at the level of lines. */
  lemma TidyCompose(active: seq<Line>, submitted: seq<Line>, trees: set<string>)
    requires forall l :: l in active + submitted ==> Tidy(l)
    ensures Accepted(active, submitted, trees) ==>
              ComposeText(Write(active), Write(submitted), trees) == Done(Write(Result(active, submitted, trees)))
    ensures !Accepted(active, submitted, trees) ==> ComposeText(Write(active), Write(submitted), trees).Refused?
  {
    hide Tidy, Tokens, Write, ComposeText, Cleaned, Result, Accepted;
    assert forall l :: l in active ==> l in active + submitted;
    assert forall l :: l in submitted ==> l in active + submitted;
    TidyReads(active);
    TidyReads(submitted);
    ComposeResult(Write(active), Write(submitted), trees);
  }

  // ---- Lines for the examples ----

  const ALPHA := {"alpha"}

  function MemberOfGhost(): Line { EntryLine("member", Member, "bruno", "ghost") }

  function GhostRole(): Line { EntryLine("role", Role, "ghost", "alpha") }

  function Workshop(): Line { EntryLine("workspace", Workspace, "w", "alpha") }

  function Package(): Line { EntryLine("workspace-package", WorkspacePackage, "w", "p@1") }

  lemma WordsAreWords()
    ensures IsWord("bruno") && IsWord("ghost") && IsWord("alpha") && IsWord("w") && IsWord("p@1")
  {
  }

  lemma WordsAreKeywords()
    ensures IsWord("member") && Keyword("member") == Some(Member)
    ensures IsWord("role") && Keyword("role") == Some(Role)
    ensures IsWord("workspace") && Keyword("workspace") == Some(Workspace)
  {
  }

  lemma PackageWord()
    ensures IsWord("workspace-package") && Keyword("workspace-package") == Some(WorkspacePackage)
  {
  }

  lemma LinesAre()
    ensures MemberOfGhost() == EntryLine("member", Member, "bruno", "ghost")
    ensures GhostRole() == EntryLine("role", Role, "ghost", "alpha")
    ensures Workshop() == EntryLine("workspace", Workspace, "w", "alpha")
    ensures Package() == EntryLine("workspace-package", WorkspacePackage, "w", "p@1")
  {
    hide EntryLine;
  }

  lemma LinesAreTidy()
    ensures Tidy(MemberOfGhost()) && Tidy(GhostRole()) && Tidy(Workshop()) && Tidy(Package())
  {
    hide *;
    WordsAreWords();
    WordsAreKeywords();
    PackageWord();
    LinesAre();
    EntryLineTidy("member", Member, "bruno", "ghost");
    EntryLineTidy("role", Role, "ghost", "alpha");
    EntryLineTidy("workspace", Workspace, "w", "alpha");
    EntryLineTidy("workspace-package", WorkspacePackage, "w", "p@1");
  }

  lemma OneSays(l: Line, rel: Relation, k: string, x: string)
    ensures Says([l], rel, k, x) <==> Holds(l.says, rel, k, x)
  {
    if Holds(l.says, rel, k, x) {
      assert l in [l];
    }
  }

  // ---- A hidden line is deleted ----

  lemma GhostAccepted()
    ensures Accepted([MemberOfGhost()], [GhostRole()], ALPHA)
  {
    hide Inside, Both, Accepted;
    ListInside(GhostRole(), Both([MemberOfGhost()], [GhostRole()]), ALPHA, "alpha");
    AcceptedOne([MemberOfGhost()], GhostRole(), ALPHA);
  }

  lemma GhostAwakes()
    ensures Accepted([MemberOfGhost()], [GhostRole()], ALPHA)
    ensures Awakened([MemberOfGhost()], [GhostRole()], ALPHA, MemberOfGhost())
  {
    var a, s := [MemberOfGhost()], [GhostRole()];
    forall r, t
      ensures !Says(a, Role, r, t) && (Says(s, Role, r, t) <==> r == "ghost" && t == "alpha")
    {
      OneSays(MemberOfGhost(), Role, r, t);
      OneSays(GhostRole(), Role, r, t);
    }
    GhostAccepted();
    hide Says, Accepted;
    assert Says(s, Role, "ghost", "alpha");
    assert "ghost" in MemberOfGhost().says.values;
    assert forall r :: r in MemberOfGhost().says.values ==> r == "ghost";
  }

  lemma {:induction false} KeepOne(l: Line, rights: Rights, trees: set<string>)
    ensures Keep([l], rights, trees) == if Inside(l, rights, trees) then [] else [l]
    ensures View([l], rights, trees) == if Inside(l, rights, trees) then [l] else []
  {
    hide Inside;
    assert [l][..0] == [];
  }

  lemma WriteNothing()
    ensures Write([]) == ""
  {
  }

  /** The administrator of `alpha` sees nothing of this policy, declares a role, and so deletes a
      membership that names it. */
  lemma HiddenLineDeleted()
    ensures ScopedText(Write([MemberOfGhost()]), ALPHA) == ""
    ensures ComposeText(Write([MemberOfGhost()]), Write([GhostRole()]), ALPHA) == Done(Write([GhostRole()]))
  {
    hide *;
    var a, s := [MemberOfGhost()], [GhostRole()];
    LinesAreTidy();
    TidyReads(a);
    GhostAwakes();
    AwakenedIsHidden(a, s, ALPHA, MemberOfGhost());
    InsideIff(a, s, ALPHA, MemberOfGhost());
    KeepOne(MemberOfGhost(), ParseLines(a), ALPHA);
    KeepOne(MemberOfGhost(), Both(a, s), ALPHA);
    WriteNothing();
    ScopedIs(Write(a), ALPHA);
    TidyCompose(a, s, ALPHA);
    ResultIs(a, s, ALPHA);
    assert [] + s == s;
  }

  lemma ScopedIs(text: string, trees: set<string>)
    ensures ScopedText(text, trees) == Write(View(Tokens(text), ParseText(text), trees))
  {
  }

  lemma ResultIs(a: seq<Line>, s: seq<Line>, trees: set<string>)
    ensures Result(a, s, trees) == Keep(a, Both(a, s), trees) + s
  {
  }

  // ---- A dangling package line appears in the view ----

  lemma PackageOutside(lines: seq<Line>, more: seq<Line>)
    requires forall t :: !Says(lines, Workspace, "w", t)
    ensures !Inside(Package(), Both(lines, more), ALPHA)
  {
    hide Says, Both, Inside;
    PackageLineInside(Package(), Both(lines, more), ALPHA);
    FirstIn(Get(Both(lines, more).workspaces, "w"));
    BothSays(lines, more);
  }

  lemma WorkshopInside(rights: Rights)
    ensures Inside(Workshop(), rights, ALPHA)
  {
    ListInside(Workshop(), rights, ALPHA, "alpha");
  }

  lemma PackageAlone()
    ensures forall t :: !Says([Package()], Workspace, "w", t)
  {
    forall t ensures !Says([Package()], Workspace, "w", t) {
      OneSays(Package(), Workspace, "w", t);
    }
  }

  lemma WorkshopSays(lines: seq<Line>)
    requires Workshop() in lines
    ensures Says(lines, Workspace, "w", "alpha")
  {
    assert Holds(Workshop().says, Workspace, "w", "alpha");
  }

  lemma BothReferenced(lines: seq<Line>)
    requires forall l :: l in lines <==> l == Package() || l == Workshop()
    ensures WellReferenced(lines)
  {
    WorkshopSays(lines);
    hide Says;
  }

  /** After declaring the workspace, the administrator is shown a package line they never submitted. */
  lemma DanglingLineAppears()
    ensures var r := ComposeText(Write([Package()]), Write([Workshop()]), ALPHA);
            r.Done? && Resolves(r.text) && ScopedText(r.text, ALPHA) != Write([Workshop()])
  {
    hide *;
    var a, s := [Package()], [Workshop()];
    LinesAreTidy();
    TidyReads(a);
    TidyReads(s);
    PackageAlone();
    PackageOutside(a, s);
    WorkshopInside(Both(a, s));
    AcceptedOne(a, Workshop(), ALPHA);
    TidyCompose(a, s, ALPHA);
    ResultIs(a, s, ALPHA);
    KeepOne(Package(), Both(a, s), ALPHA);
    TidyReads([Package(), Workshop()]);
    BothReferenced([Package(), Workshop()]);
    ResolvesIs(Write([Package(), Workshop()]));
    assert [Package()] + [Workshop()] == [Package(), Workshop()];
    PackageDangles();
    ComposePutGet(Write(a), Write(s), ALPHA);
  }

  lemma AcceptedOne(a: seq<Line>, l: Line, trees: set<string>)
    requires Inside(l, Both(a, [l]), trees)
    ensures Accepted(a, [l], trees)
  {
    hide Inside, Both;
  }

  lemma ResolvesIs(text: string)
    ensures Resolves(text) <==> WellReferenced(Tokens(text))
  {
  }

  lemma PackageDangles()
    ensures Dangling([Package()], Package())
  {
    PackageAlone();
    hide Says;
  }

  // ---- A second edit is refused ----

  lemma SecondAccepted()
    ensures Accepted([Workshop()], [Workshop(), Package()], ALPHA)
    ensures Result([Workshop()], [Workshop(), Package()], ALPHA) == [Workshop(), Package()]
  {
    hide *;
    var a, s := [Workshop()], [Workshop(), Package()];
    WorkshopInside(Both(a, s));
    WorkshopSays(a);
    OnlyAlpha();
    BothSays(a, s);
    PackageIs();
    PackageLineInside(Package(), Both(a, s), ALPHA);
    SomeIn(Get(Both(a, s).workspaces, "w"), "alpha");
    AlphaIs();
    AcceptedTwo(a, Workshop(), Package(), ALPHA);
    ResultIs(a, s, ALPHA);
    KeepOne(Workshop(), Both(a, s), ALPHA);
    assert [] + s == s;
  }

  lemma SomeIn(list: seq<string>, x: string)
    ensures x in list ==> list != []
  {
  }

  lemma AlphaIs()
    ensures forall t :: t in ALPHA <==> t == "alpha"
  {
  }

  lemma PackageIs()
    ensures Package().says == Entry(WorkspacePackage, "w", ["p@1"])
  {
  }

  lemma OnlyAlpha()
    ensures forall t :: Says([Workshop()], Workspace, "w", t) <==> t == "alpha"
  {
    forall t ensures Says([Workshop()], Workspace, "w", t) <==> t == "alpha" {
      OneSays(Workshop(), Workspace, "w", t);
    }
  }

  lemma AcceptedTwo(a: seq<Line>, l: Line, m: Line, trees: set<string>)
    requires Inside(l, Both(a, [l, m]), trees) && Inside(m, Both(a, [l, m]), trees)
    ensures Accepted(a, [l, m], trees)
  {
    hide Inside, Both;
  }

  lemma EmptiedFirst()
    ensures Accepted([Workshop()], [], ALPHA) && Result([Workshop()], [], ALPHA) == []
  {
    hide Both;
    WorkshopInside(Both([Workshop()], []));
    KeepOne(Workshop(), Both([Workshop()], []), ALPHA);
    hide Inside, Keep;
  }

  lemma PackageRefused()
    ensures !Accepted([], [Workshop(), Package()], ALPHA)
  {
    hide Inside, Both;
    NothingIsSaid();
    PackageOutside([], [Workshop(), Package()]);
    assert Package() in [Workshop(), Package()];
  }

  lemma NothingIsSaid()
    ensures forall t :: !Says([], Workspace, "w", t)
  {
  }

  /** An edit that is accepted on its own is refused after one that removed the workspace it restores. */
  lemma SecondEditRefused()
    ensures var active, first, second := Write([Workshop()]), Write([]), Write([Workshop(), Package()]);
            && ComposeText(active, first, ALPHA) == Done("")
            && ComposeText(active, second, ALPHA) == Done(second) && Resolves(second)
            && ComposeText("", second, ALPHA).Refused?
  {
    hide *;
    LinesAreTidy();
    EmptiedFirst();
    SecondAccepted();
    PackageRefused();
    WriteNothing();
    var second := [Workshop(), Package()];
    TidyReads(second);
    BothReferenced(second);
    ResolvesIs(Write(second));
    TidyCompose([Workshop()], [], ALPHA);
    TidyCompose([Workshop()], second, ALPHA);
    TidyCompose([], second, ALPHA);
  }

  // ---- A stray carriage return ----

  /** Composing with nothing, or revoking a grant nobody has, drops one carriage return from a blank line. */
  lemma BlankLine(raw: string)
    requires Trim(raw) == "" && '\n' !in raw
    ensures Tokens(raw + "\n") == [Line(StripCR(raw), Ignored)]
    ensures Write([Line(raw, Ignored)]) == raw + "\n"
  {
    assert Unlines([raw]) == raw + "\n" by {
      assert [raw][1..] == [];
    }
    LinesOfUnlines([raw]);
    assert StripCRs([raw]) == [StripCR(raw)];
    ReadAt([StripCR(raw)]);
    ReadLineOfTrimEnd(raw);
    BlankSaysNothing(raw);
    var l := Line(raw, Ignored);
    assert [l][..0] == [];
    assert Raws([l]) == [raw];
  }

  lemma StrayReturns()
    ensures Trim("\r\r") == "" && Trim("\r") == "" && Trim("") == ""
    ensures StripCR("\r\r") == "\r" && StripCR("\r") == ""
  {
    assert "\r\r"[1..] == "\r" && "\r"[1..] == "";
    assert "\r\r"[..1] == "\r" && "\r"[..0] == "";
    assert TrimStart("\r") == "";
    assert TrimStart("\r\r") == "";
  }

  lemma ComposeBlank(raw: string)
    requires Trim(raw) == "" && '\n' !in raw
    ensures ComposeText(raw + "\n", "", {}) == Done(StripCR(raw) + "\n")
  {
    var l := Line(StripCR(raw), Ignored);
    BlankLine(raw);
    TrimAfterStripCR(raw);
    BlankLine(StripCR(raw));
    assert Lines("") == [] && Tokens("") == [];
    assert Cleaned([]) == [] && FirstRejected([], Merge(ParseText(raw + "\n"), ParseText("")), {}, 0) == None;
    KeepOne(l, Merge(ParseText(raw + "\n"), ParseText("")), {});
    NothingIsInside(l, Merge(ParseText(raw + "\n"), ParseText("")), {});
    hide Merge, ParseText, Tokens, Keep, Write;
    assert [l] + [] == [l];
  }

  /** Two empty edits in a row leave another text than one. */
  lemma SecondEditShortens()
    ensures ComposeText("\r\r\n", "", {}) == Done("\r\n") && ComposeText("\r\n", "", {}) == Done("\n")
  {
    StrayReturns();
    hide *;
    ComposeBlank("\r\r");
    ComposeBlank("\r");
    assert "\r\r" + "\n" == "\r\r\n" && "\r" + "\n" == "\r\n" && "" + "\n" == "\n";
  }

  const NOBODY := RevokeTree("a", "b")

  lemma MutateBlank(raw: string)
    requires Trim(raw) == "" && '\n' !in raw
    ensures MutatedText(raw + "\n", NOBODY) == StripCR(raw) + "\n"
  {
    var l := Line(StripCR(raw), Ignored);
    BlankLine(raw);
    TrimAfterStripCR(raw);
    BlankLine(StripCR(raw));
    assert [l][..0] == [];
    assert Rest([l]) == [l] && TreePart([l]) == [] && Granted([l]) == map[];
    hide Tokens, Write, Rest, TreePart, Granted;
    NoGrantsWritten();
    assert [l] + [] + [] == [l];
  }

  lemma NoGrantsWritten()
    ensures Apply(map[], NOBODY) == map[] && GrantLines(Sorted({}), map[]) == []
  {
    SortedIsSorted({});
  }

  /** The same revocation twice leaves another text than once. */
  lemma SecondRevocationShortens()
    ensures MutatedText("\r\r\n", NOBODY) == "\r\n" && MutatedText("\r\n", NOBODY) == "\n"
  {
    StrayReturns();
    hide *;
    MutateBlank("\r\r");
    MutateBlank("\r");
    assert "\r\r" + "\n" == "\r\r\n" && "\r" + "\n" == "\r\n" && "" + "\n" == "\n";
  }

  // ---- The mirror makes an invalid text valid ----

  const EMPTY_GRANT := Line("grant\tmax\t,", Entry(Grant, "max", []))

  lemma CommaIsTrimmed()
    ensures Trimmed(",") && Trimmed("grant") && Trimmed("max")
    ensures '\t' !in "," && '\t' !in "grant" && '\t' !in "max" && '\n' !in "grant\tmax\t,"
  {
  }

  lemma CommaListsNothing()
    ensures List(",") == []
  {
    assert ","[1..] == "";
    assert Split("", ',') == [""];
    assert Split(",", ',') == ["", ""];
    TrimOfTrimmed("");
    assert ["", ""][1..] == [""] && [""][1..] == [];
  }

  lemma EmptyGrantIs()
    ensures EMPTY_GRANT == Line("grant\tmax\t,", Classify(["grant", "max", ","]))
  {
    CommaListsNothing();
  }

  lemma GrantRaw()
    ensures "grant" + "\t" + "max" + "\t" + "," == "grant\tmax\t,"
  {
  }

  lemma EmptyGrantTidy()
    ensures Tidy(EMPTY_GRANT)
  {
    hide *;
    CommaIsTrimmed();
    GrantRaw();
    ThreeColumns("grant", "max", ",");
    var raw := "grant\tmax\t,";
    TrimOfTrimmed(raw);
    ReadLineIsClassify(raw);
    EmptyGrantIs();
    TrimmedIsTidy(raw);
  }

  lemma EmptyGrantWrong(lines: seq<Line>)
    ensures !LineFine(EMPTY_GRANT, lines)
  {
  }

  lemma ValidIs(text: string)
    ensures IsValid(text) <==> Errors(Tokens(text)) == []
  {
    hide Errors;
  }

  lemma OnlyGrant()
    ensures IsGrant(EMPTY_GRANT) && forall l :: l in [EMPTY_GRANT] <==> l == EMPTY_GRANT
  {
  }

  /** A policy that the validator rejects and that any mirrored change makes valid. */
  lemma MirrorRepairs(a: Action)
    requires ActionNamed(a)
    ensures var text := Write([EMPTY_GRANT]); !IsValid(text) && IsValid(MutatedText(text, a))
  {
    hide *;
    var text := Write([EMPTY_GRANT]);
    EmptyGrantTidy();
    TidyReads([EMPTY_GRANT]);
    EmptyGrantWrong([EMPTY_GRANT]);
    ValidIff([EMPTY_GRANT]);
    ValidIs(text);
    OnlyGrant();
    MutateValidIff(text, a);
  }

  // ---- Another tenant's workspace disappears ----

  function BetaWorkshop(): Line { EntryLine("workspace", Workspace, "w", "beta") }

  function BetaGrant(): Line { EntryLine("grant", Grant, "bruno", "beta") }

  lemma BetaTidy()
    ensures Tidy(BetaWorkshop()) && Tidy(BetaGrant()) && Tidy(Workshop())
  {
    hide Tidy;
    WordsAreWords();
    WordsAreKeywords();
    BetaWords();
    hide IsWord, Keyword;
    LinesAreTidy();
    EntryLineTidy("workspace", Workspace, "w", "beta");
    EntryLineTidy("grant", Grant, "bruno", "beta");
  }

  lemma BetaWords()
    ensures IsWord("beta") && IsWord("grant") && Keyword("grant") == Some(Grant)
  {
  }

  ghost predicate OnlyBeta(lines: seq<Line>) {
    forall l :: l in lines ==> l == BetaWorkshop() || l == BetaGrant() || l == Workshop()
  }

  lemma BetaSays(lines: seq<Line>)
    requires OnlyBeta(lines)
    ensures forall t :: Says(lines, Grant, "bruno", t) <==> t == "beta" && BetaGrant() in lines
    ensures forall t :: Says(lines, Workspace, "w", t) <==>
              (t == "beta" && BetaWorkshop() in lines) || (t == "alpha" && Workshop() in lines)
    ensures forall rel, k, x :: rel == Member || rel == Group ==> !Says(lines, rel, k, x)
  {
    assert Holds(BetaGrant().says, Grant, "bruno", "beta") && Holds(BetaWorkshop().says, Workspace, "w", "beta");
    assert Holds(Workshop().says, Workspace, "w", "alpha");
  }

  lemma NoRoles(lines: seq<Line>, t: string)
    requires forall rel, k, x :: rel == Member || rel == Group ==> !Says(lines, rel, k, x)
    ensures ParseLines(lines).May("bruno", [], t) <==> Says(lines, Grant, "bruno", t)
  {
    hide Says, ParseLines;
    MaySaid(lines, "bruno", [], t);
  }

  lemma WorkshopAccepted(active: seq<Line>)
    ensures Accepted(active, [Workshop()], ALPHA)
  {
    hide *;
    WorkshopInside(Both(active, [Workshop()]));
    AcceptedOne(active, Workshop(), ALPHA);
  }

  lemma BetaActive()
    ensures var lines := [BetaWorkshop(), BetaGrant()];
            OnlyBeta(lines) && OnlyBeta([Workshop()]) && BetaWorkshop() in lines && BetaGrant() in lines
    ensures Workshop() != BetaWorkshop() && Workshop() != BetaGrant() && BetaWorkshop() != BetaGrant()
    ensures "beta" !in ALPHA && "alpha" in ALPHA
  {
  }

  /** The administrator of `alpha` declares `alpha` a tree of a workspace that was all `beta`'s, and a user
      of `beta` sees the workspace no more. */
  lemma ForeignWorkspaceHidden()
    ensures var active, submitted := Write([BetaWorkshop(), BetaGrant()]), Write([Workshop()]);
            var r := ComposeText(active, submitted, ALPHA);
            && r.Done? && (forall t :: t in Get(ParseText(active).workspaces, "w") ==> t !in ALPHA)
            && "w" in ParseText(active).VisibleWorkspaces("bruno", [])
            && "w" !in ParseText(r.text).VisibleWorkspaces("bruno", [])
  {
    hide *;
    var lines, more := [BetaWorkshop(), BetaGrant()], [Workshop()];
    BetaActive();
    BetaTidy();
    TidyOfBeta(lines);
    TidyOfBeta(more);
    TidyReads(lines);
    TidyReads(more);
    WorkshopAccepted(lines);
    TidyCompose(lines, more, ALPHA);
    BetaSays(lines);
    BetaSays(more);
    forall t
      ensures t in Get(ParseLines(lines).workspaces, "w") <==> t == "beta"
      ensures t in Get(ParseLines(more).workspaces, "w") <==> t == "alpha"
    {
      WorkspaceSays(lines, "w", t);
      WorkspaceSays(more, "w", t);
    }
    NoRoles(lines, "beta");
    NoRoles(lines, "alpha");
    NotEmpty(Get(ParseLines(lines).workspaces, "w"), "beta");
    VisibleIff(ParseLines(lines), "bruno", [], "w");
    ForeignWorkspaceVisible(Write(lines), Write(more), ALPHA, "bruno", [], "w");
    AlphaStaysHidden();
  }

  lemma NotEmpty(list: seq<string>, x: string)
    requires x in list
    ensures list != []
  {
  }

  lemma TidyOfBeta(lines: seq<Line>)
    requires OnlyBeta(lines) && Tidy(BetaWorkshop()) && Tidy(BetaGrant()) && Tidy(Workshop())
    ensures forall l :: l in lines ==> Tidy(l)
  {
    hide Tidy;
  }

  lemma AlphaStaysHidden()
    ensures var active, submitted := Write([BetaWorkshop(), BetaGrant()]), Write([Workshop()]);
            var r := ComposeText(active, submitted, ALPHA);
            r.Done? ==> !ParseText(r.text).May("bruno", [], "alpha")
  {
    hide *;
    var lines, more := [BetaWorkshop(), BetaGrant()], [Workshop()];
    BetaActive();
    BetaTidy();
    TidyOfBeta(lines);
    TidyOfBeta(more);
    TidyCompose(lines, more, ALPHA);
    var r := Result(lines, more, ALPHA);
    OriginOfResult(lines, more);
    TidyOfBeta(r);
    TidyReads(r);
    BetaSays(r);
    NoRoles(r, "alpha");
  }

  lemma OriginOfResult(lines: seq<Line>, more: seq<Line>)
    requires OnlyBeta(lines) && OnlyBeta(more)
    ensures OnlyBeta(Result(lines, more, ALPHA))
  {
    Divided(lines, Both(lines, more), ALPHA);
    hide Keep, Both;
  }
}
