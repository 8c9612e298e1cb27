/** The mirror's text rewrite refines a set update, and its batches do not depend on any order. */
module MirrorLaws {
  import opened Text
  import opened StringOrder
  import opened Rights
  import opened Syntax
  import opened Lens
  import opened Tenant
  import opened Mirror

  /** The update an action asks for: whether a user may reach a tree afterwards. */
  ghost predicate Wanted(held: set<string>, a: Action, user: string, tree: string) {
    match a
    case GrantTree(u, t) => (user == u && tree == t) || tree in held
    case RevokeTree(u, t) => tree in held && !(user == u && tree == t)
    case SetTree(t, users) => if tree == t then user in users else tree in held
  }

  /** The trees a parsed column lists for a user. */
  function Members(c: Column, user: string): set<string> {
    set x | x in Get(c, user)
  }

  lemma ApplyWanted(g: Grants, a: Action)
    ensures forall u, t :: t in Has(Apply(g, a), u) <==> Wanted(Has(g, u), a, u, t)
  {
  }

  // ---- What the three piles hold ----

  lemma {:induction false} PilesIn(lines: seq<Line>)
    ensures forall l :: l in Rest(lines) <==> l in lines && !IsGrant(l) && !IsTree(l)
    ensures forall l :: l in TreePart(lines) <==> l in lines && IsTree(l)
  {
    if lines != [] {
      InitAndLast(lines);
      PilesIn(lines[..|lines| - 1]);
    }
  }

  lemma {:induction false} GrantedSays(lines: seq<Line>, u: string, t: string)
    ensures t in Has(Granted(lines), u) <==> Says(lines, Grant, u, t)
  {
    if lines != [] {
      InitAndLast(lines);
      GrantedSays(lines[..|lines| - 1], u, t);
    }
  }

  lemma {:induction false} GrantLinesSay(users: seq<string>, g: Grants, l: Line)
    ensures l in GrantLines(users, g) <==> exists u :: u in users && Has(g, u) != {} && l == GrantLine(u, Has(g, u))
  {
    if users != [] {
      var init, last := users[..|users| - 1], users[|users| - 1];
      assert users == init + [last];
      GrantLinesSay(init, g, l);
    }
  }

  /** The lines the rewrite puts last. */
  ghost function GrantTail(g: Grants): seq<Line> {
    GrantLines(Sorted(g.Keys), g)
  }

  lemma TailIn(g: Grants, l: Line)
    ensures l in GrantTail(g) <==> exists u :: Has(g, u) != {} && l == GrantLine(u, Has(g, u))
  {
    GrantLinesSay(Sorted(g.Keys), g, l);
    SortedIsSorted(g.Keys);
  }

  lemma TailSays(g: Grants, u: string, t: string)
    ensures Says(GrantTail(g), Grant, u, t) <==> t in Has(g, u)
  {
    if Says(GrantTail(g), Grant, u, t) {
      var l :| l in GrantTail(g) && Holds(l.says, Grant, u, t);
      TailIn(g, l);
      SortedIsSorted(Has(g, u));
    }
    if t in Has(g, u) {
      var l := GrantLine(u, Has(g, u));
      TailIn(g, l);
      SortedIsSorted(Has(g, u));
      assert Holds(l.says, Grant, u, t);
    }
  }

  lemma TailReadable(g: Grants)
    requires Named(g)
    ensures Readable(GrantTail(g))
    ensures forall l :: l in GrantTail(g) ==> !EndsInCR(l.raw) && IsGrant(l) && l.says.values != []
  {
    forall l | l in GrantTail(g)
      ensures l.says == ReadLine(l.raw) && '\n' !in l.raw && !EndsInCR(l.raw) && IsGrant(l) && l.says.values != []
    {
      TailIn(g, l);
      var u :| Has(g, u) != {} && l == GrantLine(u, Has(g, u));
      GrantLineReads(u, Has(g, u));
      SortedIsSorted(Has(g, u));
    }
  }

  lemma PilesReadable(lines: seq<Line>, g: Grants)
    requires Readable(lines) && Named(g)
    ensures Readable(Rewritten(lines, g))
  {
    PilesIn(lines);
    TailReadable(g);
  }

  /** A line that declares a tree starts with `tree`, and a line that does declares a tree or nothing. */
  lemma TreeLineSays(raw: string)
    ensures ReadLine(raw).TreeDecl? ==> StartsTree(raw)
    ensures StartsTree(raw) ==> ReadLine(raw).TreeDecl? || ReadLine(raw) == Ignored
  {
    if StartsTree(raw) {
      TreeKeyword(Fields(Trim(raw)));
    }
  }

  lemma TreeKeyword(f: seq<string>)
    requires f != [] && f[0] == "tree"
    ensures Classify(f).TreeDecl? || Classify(f) == Ignored
  {
  }

  // ---- Refinement of the other columns: nothing but grants is touched ----

  lemma {:induction false} RestValues(lines: seq<Line>, rel: Relation, k: string)
    requires Readable(lines) && rel != Grant
    ensures Values(Rest(lines), rel, k) == Values(lines, rel, k)
    ensures Values(TreePart(lines), rel, k) == []
  {
    if lines != [] {
      var init, last := lines[..|lines| - 1], lines[|lines| - 1];
      InitAndLast(lines);
      RestValues(init, rel, k);
      TreeLineSays(last.raw);
      Snoc(Rest(init), last);
      Snoc(TreePart(init), last);
    }
  }

  lemma {:induction false} RestTools(lines: seq<Line>, role: string, tree: string)
    requires Readable(lines)
    ensures Tools(Rest(lines), role, tree) == Tools(lines, role, tree)
    ensures Tools(TreePart(lines), role, tree) == []
  {
    if lines != [] {
      var init, last := lines[..|lines| - 1], lines[|lines| - 1];
      InitAndLast(lines);
      RestTools(init, role, tree);
      TreeLineSays(last.raw);
      Snoc(Rest(init), last);
      Snoc(TreePart(init), last);
    }
  }

  lemma {:induction false} RestTrees(lines: seq<Line>)
    requires Readable(lines)
    ensures TreeLines(TreePart(lines)) == TreeLines(lines)
    ensures TreeLines(Rest(lines)) == []
  {
    if lines != [] {
      var init, last := lines[..|lines| - 1], lines[|lines| - 1];
      InitAndLast(lines);
      RestTrees(init);
      TreeLineSays(last.raw);
      Snoc(Rest(init), last);
      Snoc(TreePart(init), last);
    }
  }

  lemma {:induction false} OnlyGrants(lines: seq<Line>, rel: Relation, k: string, role: string, tree: string)
    requires forall l :: l in lines ==> IsGrant(l)
    ensures rel != Grant ==> Values(lines, rel, k) == []
    ensures Tools(lines, role, tree) == [] && TreeLines(lines) == []
  {
    if lines != [] {
      InitAndLast(lines);
      OnlyGrants(lines[..|lines| - 1], rel, k, role, tree);
      assert IsGrant(lines[|lines| - 1]);
    }
  }

  lemma RewrittenColumn(lines: seq<Line>, g: Grants, rel: Relation)
    requires Readable(lines) && Named(g) && rel != Grant
    ensures ParseLines(Rewritten(lines, g)).Column(rel) == ParseLines(lines).Column(rel)
  {
    var r := Rewritten(lines, g);
    TailReadable(g);
    forall k
      ensures Values(r, rel, k) == Values(lines, rel, k)
      ensures Declares(r, rel, k) <==> Declares(lines, rel, k)
    {
      RestValues(lines, rel, k);
      OnlyGrants(GrantTail(g), rel, k, "", "");
      ValuesAppend(Rest(lines), TreePart(lines), rel, k);
      ValuesAppend(Rest(lines) + TreePart(lines), GrantTail(g), rel, k);
      DeclaredKept(lines, g, rel, k);
    }
    SameColumn(r, lines, rel);
  }

  /** A line that is neither a grant nor a tree survives the rewrite, and no other such line appears. */
  lemma OthersKept(lines: seq<Line>, g: Grants, l: Line)
    requires Readable(lines) && Named(g)
    requires !IsGrant(l) && !l.says.TreeDecl? && l.says != Ignored
    ensures l in Rewritten(lines, g) <==> l in lines
  {
    TailReadable(g);
    PilesIn(lines);
    if l in lines {
      TreeLineSays(l.raw);
      assert l in Rest(lines);
    }
  }

  lemma DeclaredKept(lines: seq<Line>, g: Grants, rel: Relation, k: string)
    requires Readable(lines) && Named(g) && rel != Grant
    ensures Declares(Rewritten(lines, g), rel, k) <==> Declares(lines, rel, k)
  {
    var r := Rewritten(lines, g);
    if Declares(lines, rel, k) {
      var l :| l in lines && Names(l.says, rel, k);
      OthersKept(lines, g, l);
    }
    if Declares(r, rel, k) {
      var l :| l in r && Names(l.says, rel, k);
      OthersKept(lines, g, l);
    }
  }

  lemma ToolsRewritten(lines: seq<Line>, g: Grants, role: string, tree: string)
    requires Readable(lines) && Named(g)
    ensures Tools(Rewritten(lines, g), role, tree) == Tools(lines, role, tree)
  {
    var rest, trees, tail := Rest(lines), TreePart(lines), GrantTail(g);
    RestTools(lines, role, tree);
    assert Tools(tail, role, tree) == [] by {
      TailReadable(g);
      OnlyGrants(tail, Role, "", role, tree);
    }
    ToolsAppend(rest, trees, role, tree);
    ToolsAppend(rest + trees, tail, role, tree);
  }

  lemma RewrittenTools(lines: seq<Line>, g: Grants)
    requires Readable(lines) && Named(g)
    ensures ParseLines(Rewritten(lines, g)).roleTools == ParseLines(lines).roleTools
  {
    var r := Rewritten(lines, g);
    var x, y := ParseLines(r).roleTools, ParseLines(lines).roleTools;
    forall role, tree
      ensures (role, tree) in x <==> (role, tree) in y
      ensures Get(x, (role, tree)) == Get(y, (role, tree))
    {
      ParsedTools(r, role, tree);
      ParsedTools(lines, role, tree);
      ToolsRewritten(lines, g, role, tree);
      ToolsKept(lines, g, role, tree);
    }
    forall k | k in x || k in y
      ensures k in x && k in y && x[k] == y[k]
    {
      var (role, tree) := k;
      assert (role, tree) in x <==> (role, tree) in y;
      assert Get(x, (role, tree)) == Get(y, (role, tree));
    }
  }

  lemma ToolsKept(lines: seq<Line>, g: Grants, role: string, tree: string)
    requires Readable(lines) && Named(g)
    ensures HasTools(Rewritten(lines, g), role, tree) <==> HasTools(lines, role, tree)
  {
    var r := Rewritten(lines, g);
    if HasTools(lines, role, tree) {
      var l :| l in lines && l.says.RoleTool? && l.says.role == role && l.says.toolTree == tree;
      OthersKept(lines, g, l);
    }
    if HasTools(r, role, tree) {
      var l :| l in r && l.says.RoleTool? && l.says.role == role && l.says.toolTree == tree;
      OthersKept(lines, g, l);
    }
  }

  lemma RewrittenTrees(lines: seq<Line>, g: Grants)
    requires Readable(lines) && Named(g)
    ensures ParseLines(Rewritten(lines, g)).trees == ParseLines(lines).trees
  {
    ParsedTrees(Rewritten(lines, g));
    ParsedTrees(lines);
    TreesRewritten(lines, g);
  }

  lemma TreesRewritten(lines: seq<Line>, g: Grants)
    requires Readable(lines) && Named(g)
    ensures TreeLines(Rewritten(lines, g)) == TreeLines(lines)
  {
    var rest, trees, tail := Rest(lines), TreePart(lines), GrantTail(g);
    RestTrees(lines);
    assert TreeLines(tail) == [] by {
      TailReadable(g);
      OnlyGrants(tail, Role, "", "", "");
    }
    TreeLinesAppend(rest, trees);
    TreeLinesAppend(rest + trees, tail);
  }

  /** The rights read from a rewritten text differ from the old ones in the grants alone. */
  lemma RewrittenRights(lines: seq<Line>, g: Grants)
    requires Readable(lines) && Named(g)
    ensures var before, after := ParseLines(lines), ParseLines(Rewritten(lines, g));
            after == before.(grants := after.grants)
  {
    hide *;
    RewrittenColumn(lines, g, Role);
    RewrittenColumn(lines, g, Member);
    RewrittenColumn(lines, g, Group);
    RewrittenColumn(lines, g, Workspace);
    RewrittenColumn(lines, g, WorkspacePackage);
    RewrittenColumn(lines, g, Tenant);
    RewrittenColumn(lines, g, TenantAdmin);
    RewrittenTools(lines, g);
    RewrittenTrees(lines, g);
    SameButGrants(ParseLines(lines), ParseLines(Rewritten(lines, g)));
  }

  lemma SameButGrants(before: Rights, after: Rights)
    requires after.trees == before.trees && after.roleTools == before.roleTools
    requires after.Column(Role) == before.Column(Role) && after.Column(Member) == before.Column(Member)
    requires after.Column(Group) == before.Column(Group) && after.Column(Workspace) == before.Column(Workspace)
    requires after.Column(WorkspacePackage) == before.Column(WorkspacePackage)
    requires after.Column(Tenant) == before.Column(Tenant) && after.Column(TenantAdmin) == before.Column(TenantAdmin)
    ensures after == before.(grants := after.grants)
  {
  }

  lemma RewrittenGrants(lines: seq<Line>, g: Grants, u: string, t: string)
    ensures Says(Rewritten(lines, g), Grant, u, t) <==> t in Has(g, u)
  {
    TailSays(g, u, t);
    PilesIn(lines);
    SaysAppend(Rest(lines) + TreePart(lines), GrantTail(g));
    assert !Says(Rest(lines) + TreePart(lines), Grant, u, t);
  }

  /** A rewritten text, read again. */
  lemma RewrittenTokens(text: string, a: Action) returns (r: seq<Line>)
    requires ActionNamed(a)
    ensures Named(Apply(Granted(Tokens(text)), a))
    ensures r == Rewritten(Tokens(text), Apply(Granted(Tokens(text)), a)) && Readable(r)
    ensures Tokens(MutatedText(text, a)) == Stripped(r)
    ensures ParseText(MutatedText(text, a)) == ParseLines(r)
  {
    TokensReadable(text);
    GrantedNamed(Tokens(text));
    ApplyNamed(Granted(Tokens(text)), a);
    var g := Apply(Granted(Tokens(text)), a);
    r := Rewritten(Tokens(text), g);
    PilesReadable(Tokens(text), g);
    ReadBack(r);
    StrippedAt(r);
    SameSaysParse(Stripped(r), r);
  }

  /** Refinement: parsing the rewritten text gives exactly the grants the action asks for, and every
      other field of the rights as it was. */
  lemma MutateRefines(text: string, a: Action)
    requires ActionNamed(a)
    ensures var before, after := ParseText(text), ParseText(MutatedText(text, a));
            && after == before.(grants := after.grants)
            && forall u, t :: t in Get(after.grants, u) <==> Wanted(Members(before.grants, u), a, u, t)
  {
    var lines := Tokens(text);
    var before, after := ParseText(text), ParseText(MutatedText(text, a));
    var g := Apply(Granted(lines), a);
    var r := RewrittenTokens(text, a);
    TokensReadable(text);
    RewrittenRights(lines, g);
    ColumnSays(lines);
    ColumnSays(r);
    ApplyWanted(Granted(lines), a);
    assert before.grants == before.Column(Grant) && after.grants == after.Column(Grant);
    forall u, t
      ensures t in Get(after.grants, u) <==> Wanted(Members(before.grants, u), a, u, t)
    {
      RewrittenGrants(lines, g, u, t);
      forall x ensures x in Has(Granted(lines), u) <==> x in Get(before.grants, u) {
        GrantedSays(lines, u, x);
      }
      assert Has(Granted(lines), u) == Members(before.grants, u);
    }
  }
}
