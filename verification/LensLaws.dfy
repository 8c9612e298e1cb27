/** How the tenant view and the tenant edit undo each other. */
module LensLaws {
  import opened Rights
  import opened Lens

  /** Every role a member or group line names has trees, every package line's workspace too. */
  ghost predicate Referenced(d: Directive, lines: seq<Line>) {
    && (forall rel, k, role :: (rel == Member || rel == Group) && Holds(d, rel, k, role) ==>
          exists t :: Says(lines, Role, role, t))
    && (forall w :: Names(d, WorkspacePackage, w) ==> exists t :: Says(lines, Workspace, w, t))
  }

  ghost predicate WellReferenced(lines: seq<Line>) {
    forall l :: l in lines ==> Referenced(l.says, lines)
  }

  // ---- GetPut ----

  lemma {:induction false} ToolsSay(lines: seq<Line>, role: string, tree: string, tool: string)
    ensures tool in Tools(lines, role, tree) <==> exists l :: l in lines && tool in ToolsOf(l.says, role, tree)
  {
    if lines != [] {
      InitAndLast(lines);
      ToolsSay(lines[..|lines| - 1], role, tree, tool);
    }
  }

  ghost predicate Carried(a: seq<Line>, b: seq<Line>) {
    forall l :: l in a ==> exists m :: m in b && m.says == l.says
  }

  lemma CarriedSays(a: seq<Line>, b: seq<Line>, rel: Relation, k: string, x: string)
    requires Carried(a, b) && Says(a, rel, k, x)
    ensures Says(b, rel, k, x)
  {
    var l :| l in a && Holds(l.says, rel, k, x);
    var m :| m in b && m.says == l.says;
  }

  lemma CarriedTools(a: seq<Line>, b: seq<Line>, role: string, tree: string)
    requires Carried(a, b)
    ensures HasTools(a, role, tree) ==> HasTools(b, role, tree)
    ensures forall tool :: tool in Tools(a, role, tree) ==> tool in Tools(b, role, tree)
  {
    if HasTools(a, role, tree) {
      var l :| l in a && l.says.RoleTool? && l.says.role == role && l.says.toolTree == tree;
      var m :| m in b && m.says == l.says;
    }
    forall tool | tool in Tools(a, role, tree)
      ensures tool in Tools(b, role, tree)
    {
      ToolsSay(a, role, tree, tool);
      ToolsSay(b, role, tree, tool);
      var l :| l in a && tool in ToolsOf(l.says, role, tree);
      var m :| m in b && m.says == l.says;
    }
  }

  /** All that lines say, said by other lines too. */
  ghost predicate SaysNoMore(a: seq<Line>, b: seq<Line>) {
    && (forall rel, k, x :: Says(a, rel, k, x) ==> Says(b, rel, k, x))
    && (forall role, tree :: HasTools(a, role, tree) ==> HasTools(b, role, tree))
    && (forall role, tree, tool :: tool in Tools(a, role, tree) ==> tool in Tools(b, role, tree))
  }

  lemma CarriedSaysNoMore(a: seq<Line>, b: seq<Line>)
    requires Carried(a, b)
    ensures SaysNoMore(a, b)
  {
    forall rel, k, x | Says(a, rel, k, x) ensures Says(b, rel, k, x) {
      CarriedSays(a, b, rel, k, x);
    }
    forall role, tree
      ensures HasTools(a, role, tree) ==> HasTools(b, role, tree)
      ensures forall tool :: tool in Tools(a, role, tree) ==> tool in Tools(b, role, tree)
    {
      CarriedTools(a, b, role, tree);
    }
  }

  lemma SameSaysMay(a: seq<Line>, b: seq<Line>, user: string, idpGroups: seq<string>, t: string)
    requires SaysNoMore(a, b) && SaysNoMore(b, a)
    ensures ParseLines(a).May(user, idpGroups, t) <==> ParseLines(b).May(user, idpGroups, t)
    ensures forall tool :: ParseLines(a).MayTool(user, idpGroups, t, tool) <==>
              ParseLines(b).MayTool(user, idpGroups, t, tool)
  {
    assert forall rel, k, x :: Says(a, rel, k, x) <==> Says(b, rel, k, x);
    assert forall role, tree, tool :: SaysTool(a, role, tree, tool) <==> SaysTool(b, role, tree, tool);
    MaySaid(a, user, idpGroups, t);
    MaySaid(b, user, idpGroups, t);
    hide Says, SaysNoMore;
    forall tool
      ensures ParseLines(a).MayTool(user, idpGroups, t, tool) <==> ParseLines(b).MayTool(user, idpGroups, t, tool)
    {
      MayToolSaid(a, user, idpGroups, t, tool);
      MayToolSaid(b, user, idpGroups, t, tool);
    }
  }

  lemma SameSaysWorkspaces(a: seq<Line>, b: seq<Line>, t: string)
    requires SaysNoMore(a, b) && SaysNoMore(b, a)
    ensures forall w :: t in Get(ParseLines(a).workspaces, w) <==> t in Get(ParseLines(b).workspaces, w)
    ensures ParseLines(a).UniqueWorkspace(t) == ParseLines(b).UniqueWorkspace(t)
  {
    assert forall rel, k, x :: Says(a, rel, k, x) <==> Says(b, rel, k, x);
    hide Says, SaysNoMore, ParseLines;
    WorkspacesSaid(a, t);
    WorkspacesSaid(b, t);
    assert ParseLines(a).WorkspacesOf(t) == ParseLines(b).WorkspacesOf(t);
    forall w ensures t in Get(ParseLines(a).workspaces, w) <==> t in Get(ParseLines(b).workspaces, w) {
      WorkspaceSays(a, w, t);
      WorkspaceSays(b, w, t);
    }
  }

  /** Rights read from lines that say the same decide the same. */
  lemma SameSaysDecide(a: seq<Line>, b: seq<Line>)
    requires SaysNoMore(a, b) && SaysNoMore(b, a)
    ensures SameOutside(ParseLines(a), ParseLines(b), {})
  {
    hide SaysNoMore, ParseLines;
    var x, y := ParseLines(a), ParseLines(b);
    forall t ensures SameAt(x, y, t) {
      forall user, idpGroups ensures x.May(user, idpGroups, t) <==> y.May(user, idpGroups, t) {
        SameSaysMay(a, b, user, idpGroups, t);
      }
      forall user, idpGroups, tool
        ensures x.MayTool(user, idpGroups, t, tool) <==> y.MayTool(user, idpGroups, t, tool)
      {
        SameSaysMay(a, b, user, idpGroups, t);
      }
      SameSaysWorkspaces(a, b, t);
    }
  }

  ghost predicate SameSays(a: seq<Line>, b: seq<Line>) {
    |a| == |b| && forall i :: 0 <= i < |a| ==> a[i].says == b[i].says
  }

  /** A view submitted unchanged resolves like the active policy itself. */
  lemma ViewResolves(active: seq<Line>, submitted: seq<Line>, trees: set<string>)
    requires SameSays(submitted, View(active, ParseLines(active), trees))
    ensures SameResolver(Both(active, submitted), ParseLines(active))
  {
    BothSays(active, submitted);
    ResolverSays(active);
    var view := View(active, ParseLines(active), trees);
    Divided(active, ParseLines(active), trees);
    forall k, t | Says(submitted, Role, k, t)
      ensures Says(active, Role, k, t)
    {
      var i :| 0 <= i < |submitted| && Holds(submitted[i].says, Role, k, t);
      assert view[i] in active;
    }
  }

  /** An unchanged view only moves lines: the result says what the active policy says. */
  lemma ViewSaysAll(active: seq<Line>, submitted: seq<Line>, trees: set<string>)
    requires SameSays(submitted, View(active, ParseLines(active), trees))
    requires forall l: Line :: Inside(l, Both(active, submitted), trees) <==> Inside(l, ParseLines(active), trees)
    ensures SaysNoMore(active, Result(active, submitted, trees))
  {
    var view, result := View(active, ParseLines(active), trees), Result(active, submitted, trees);
    Divided(active, ParseLines(active), trees);
    Divided(active, Both(active, submitted), trees);
    forall l | l in active
      ensures exists m :: m in result && m.says == l.says
    {
      if Inside(l, ParseLines(active), trees) {
        assert l in view;
        var i :| 0 <= i < |view| && view[i] == l;
        assert submitted[i] in result;
      } else {
        assert l in result;
      }
    }
    CarriedSaysNoMore(active, result);
  }

  lemma ViewSaysOnly(active: seq<Line>, submitted: seq<Line>, trees: set<string>)
    requires SameSays(submitted, View(active, ParseLines(active), trees))
    ensures SaysNoMore(Result(active, submitted, trees), active)
  {
    var view, result := View(active, ParseLines(active), trees), Result(active, submitted, trees);
    Divided(active, ParseLines(active), trees);
    Divided(active, Both(active, submitted), trees);
    forall m | m in result
      ensures exists l :: l in active && l.says == m.says
    {
      if m in submitted {
        var i :| 0 <= i < |submitted| && submitted[i] == m;
        assert view[i] in view;
      } else {
        assert m in active;
      }
    }
    CarriedSaysNoMore(result, active);
  }

  /** GetPut: submitting the view unchanged succeeds and changes no decision. */
  lemma GetPut(active: seq<Line>, submitted: seq<Line>, trees: set<string>)
    requires SameSays(submitted, View(active, ParseLines(active), trees))
    ensures Accepted(active, submitted, trees)
    ensures SameOutside(ParseLines(active), ParseLines(Result(active, submitted, trees)), {})
    ensures SameAdministration(ParseLines(active), ParseLines(Result(active, submitted, trees)))
  {
    var own, both := ParseLines(active), Both(active, submitted);
    var view := View(active, own, trees);
    Divided(active, own, trees);
    ViewResolves(active, submitted, trees);
    forall l: Line
      ensures Inside(l, both, trees) <==> Inside(l, own, trees)
    {
      SameLineTrees(l.says, both, own);
    }
    forall l | l in submitted
      ensures Inside(l, both, trees)
    {
      var i :| 0 <= i < |submitted| && submitted[i] == l;
      assert view[i] in view;
    }
    ViewSaysAll(active, submitted, trees);
    ViewSaysOnly(active, submitted, trees);
    SameSaysDecide(active, Result(active, submitted, trees));
    Administration(active, submitted, trees);
  }

  // ---- PutGet ----

  /** Where a role's or workspace's trees come from after an edit. */
  lemma ResultOrigin(active: seq<Line>, submitted: seq<Line>, trees: set<string>)
    requires Accepted(active, submitted, trees)
    ensures forall k, t :: Says(Result(active, submitted, trees), Role, k, t) ==>
            Says(active, Role, k, t) || Says(submitted, Role, k, t)
    ensures forall rel, k, t :: (rel == Role || rel == Workspace) && Says(submitted, rel, k, t) ==> t in trees
    ensures forall rel, k, t :: (rel == Role || rel == Workspace) && Says(active, rel, k, t) && t !in trees
                                ==> Says(Result(active, submitted, trees), rel, k, t)
  {
    var both := Both(active, submitted);
    Divided(active, both, trees);
    SaysAppend(Keep(active, both, trees), submitted);
    forall rel, k, t | (rel == Role || rel == Workspace) && Says(submitted, rel, k, t)
      ensures t in trees
    {
      var l :| l in submitted && Holds(l.says, rel, k, t);
      InsideNames(l, both, trees, rel, k, t);
    }
    forall rel, k, t | (rel == Role || rel == Workspace) && Says(active, rel, k, t) && t !in trees
      ensures Says(Result(active, submitted, trees), rel, k, t)
    {
      ResultSays(active, submitted, trees, rel, k, t);
    }
  }

  lemma ListInside(l: Line, rights: Rights, trees: set<string>, t: string)
    requires l.says.Entry? && (l.says.relation == Workspace || (l.says.relation == Role && l.says.key != "admin"))
    requires t in l.says.values && forall x :: x in l.says.values ==> x in trees
    ensures Inside(l, rights, trees)
  {
    var reached := set v | v in l.says.values;
    assert t in reached;
    assert LineTrees(l.says, rights) == NonEmpty(reached);
  }

  /** A kept workspace line reaches beyond the tenant, so its workspace does. */
  lemma KeptWorkspace(active: seq<Line>, submitted: seq<Line>, trees: set<string>, w: string, t: string)
    requires Accepted(active, submitted, trees)
    requires Says(Result(active, submitted, trees), Workspace, w, t)
    requires forall x :: Says(active, Workspace, w, x) ==> x in trees
    ensures Says(submitted, Workspace, w, t)
  {
    var both := Both(active, submitted);
    var kept := Keep(active, both, trees);
    Divided(active, both, trees);
    SaysAppend(kept, submitted);
    if Says(kept, Workspace, w, t) {
      var l :| l in kept && Holds(l.says, Workspace, w, t);
      forall x | x in l.says.values ensures x in trees {
        assert Holds(l.says, Workspace, w, x);
      }
      ListInside(l, both, trees, t);
    }
  }

  /** Same, for the lines of a role other than `admin`. */
  lemma KeptRole(active: seq<Line>, submitted: seq<Line>, trees: set<string>, role: string, t: string)
    requires Accepted(active, submitted, trees) && role != "admin"
    requires Says(Result(active, submitted, trees), Role, role, t)
    requires forall x :: Says(active, Role, role, x) ==> x in trees
    ensures Says(submitted, Role, role, t)
  {
    var both := Both(active, submitted);
    var kept := Keep(active, both, trees);
    Divided(active, both, trees);
    SaysAppend(kept, submitted);
    if Says(kept, Role, role, t) {
      var l :| l in kept && Holds(l.says, Role, role, t);
      forall x | x in l.says.values ensures x in trees {
        assert Holds(l.says, Role, role, x);
      }
      ListInside(l, both, trees, t);
    }
  }

  /** A member or group line is inside exactly when all its roles are, and there is one. */
  lemma RoleLineInside(l: Line, rights: Rights, trees: set<string>)
    requires l.says.Entry? && (l.says.relation == Member || l.says.relation == Group)
    ensures Inside(l, rights, trees) <==>
            && l.says.values != []
            && forall r :: r in l.says.values ==>
                 r != "admin" && Get(rights.roles, r) != [] && forall t :: t in Get(rights.roles, r) ==> t in trees
  {
    var values := l.says.values;
    var reached := RoleTrees(values, rights);
    if Inside(l, rights, trees) {
      forall r | r in values
        ensures r != "admin" && Get(rights.roles, r) != [] && forall t :: t in Get(rights.roles, r) ==> t in trees
      {
        InsideNames(l, rights, trees, l.says.relation, l.says.key, r);
      }
    } else if values != [] && !Unresolved(values, rights) {
      assert values[0] in values;
      var first := Get(rights.roles, values[0]);
      assert first[0] in first && first[0] in reached;
      var t :| t in reached && t !in trees;
    }
  }

  lemma PackageLineInside(l: Line, rights: Rights, trees: set<string>)
    requires l.says.Entry? && l.says.relation == WorkspacePackage
    ensures Inside(l, rights, trees) <==>
            && Get(rights.workspaces, l.says.key) != []
            && forall t :: t in Get(rights.workspaces, l.says.key) ==> t in trees
  {
    var list := Get(rights.workspaces, l.says.key);
    var reached := set t | t in list;
    assert list != [] ==> list[0] in reached;
  }

  /** Whether these lines are inside does not depend on the rights at all. */
  ghost predicate Plain(d: Directive) {
    d.Entry? ==> d.relation !in {Member, Group, WorkspacePackage}
  }

  lemma PlainInside(l: Line, a: Rights, b: Rights, trees: set<string>)
    requires Plain(l.says)
    ensures Inside(l, a, trees) <==> Inside(l, b, trees)
  {
  }

  /** Every submitted line is shown again, once the result's references resolve. */
  lemma SubmittedShown(active: seq<Line>, submitted: seq<Line>, trees: set<string>, l: Line)
    requires Accepted(active, submitted, trees) && l in submitted
    requires WellReferenced(Result(active, submitted, trees))
    ensures Inside(l, ParseLines(Result(active, submitted, trees)), trees)
  {
    var both, result := Both(active, submitted), Result(active, submitted, trees);
    var after := ParseLines(result);
    BothSays(active, submitted);
    ResolverSays(result);
    ResultOrigin(active, submitted, trees);
    Divided(active, both, trees);
    assert l in result && Referenced(l.says, result) && Inside(l, both, trees);
    if Plain(l.says) {
      PlainInside(l, both, after, trees);
    } else if l.says.relation == WorkspacePackage {
      PackageLineInside(l, both, trees);
      PackageLineInside(l, after, trees);
      var w := l.says.key;
      assert Names(l.says, WorkspacePackage, w);
      forall t | Says(result, Workspace, w, t) ensures t in trees {
        KeptWorkspace(active, submitted, trees, w, t);
      }
    } else {
      RoleLineInside(l, both, trees);
      RoleLineInside(l, after, trees);
      forall r | r in l.says.values
        ensures Get(after.roles, r) != [] && forall t :: t in Get(after.roles, r) ==> t in trees
      {
        assert Holds(l.says, l.says.relation, l.says.key, r);
      }
    }
  }

  /** The active policy has a package line whose workspace it gives no trees. */
  ghost predicate Dangling(active: seq<Line>, l: Line) {
    && l in active && l.says.Entry? && l.says.relation == WorkspacePackage
    && forall t :: !Says(active, Workspace, l.says.key, t)
  }

  /** A kept line is not shown afterwards, unless it is a package line that dangled before. */
  lemma KeptHidden(active: seq<Line>, submitted: seq<Line>, trees: set<string>, l: Line)
    requires Accepted(active, submitted, trees)
    requires l in Keep(active, Both(active, submitted), trees)
    requires WellReferenced(Result(active, submitted, trees))
    ensures Inside(l, ParseLines(Result(active, submitted, trees)), trees) <==> Dangling(active, l)
  {
    var both, result := Both(active, submitted), Result(active, submitted, trees);
    var after := ParseLines(result);
    BothSays(active, submitted);
    ResolverSays(result);
    ResultOrigin(active, submitted, trees);
    Divided(active, both, trees);
    assert l in result && Referenced(l.says, result);
    if Plain(l.says) {
      PlainInside(l, both, after, trees);
    } else if l.says.relation == WorkspacePackage {
      PackageLineInside(l, both, trees);
      PackageLineInside(l, after, trees);
      var w := l.says.key;
      assert Names(l.says, WorkspacePackage, w);
      if Dangling(active, l) {
        forall t | Says(result, Workspace, w, t) ensures t in trees {
          KeptWorkspace(active, submitted, trees, w, t);
        }
      }
    } else {
      RoleLineInside(l, both, trees);
      RoleLineInside(l, after, trees);
      if Inside(l, after, trees) {
        forall r | r in l.says.values
          ensures Get(both.roles, r) != [] && forall t :: t in Get(both.roles, r) ==> t in trees
        {
          assert Get(after.roles, r)[0] in Get(after.roles, r);
        }
        assert false;
      }
    }
  }

  lemma {:induction false} ViewAll(lines: seq<Line>, rights: Rights, trees: set<string>)
    requires forall l :: l in lines ==> Inside(l, rights, trees)
    ensures View(lines, rights, trees) == lines && Keep(lines, rights, trees) == []
  {
    if lines != [] {
      InitAndLast(lines);
      ViewAll(lines[..|lines| - 1], rights, trees);
    }
  }

  lemma {:induction false} KeepAll(lines: seq<Line>, rights: Rights, trees: set<string>)
    requires forall l :: l in lines ==> !Inside(l, rights, trees)
    ensures Keep(lines, rights, trees) == lines && View(lines, rights, trees) == []
  {
    if lines != [] {
      InitAndLast(lines);
      KeepAll(lines[..|lines| - 1], rights, trees);
    }
  }

  lemma DanglingStays(active: seq<Line>, submitted: seq<Line>, trees: set<string>, l: Line)
    requires Dangling(active, l)
    ensures l in active && !Inside(l, Both(active, submitted), trees)
  {
    hide Says, Both, Inside;
    PackageLineInside(l, Both(active, submitted), trees);
    FirstIn(Get(Both(active, submitted).workspaces, l.says.key));
    BothSays(active, submitted);
    DanglingMeans(active, l);
  }

  lemma FirstIn(list: seq<string>)
    ensures list != [] ==> exists x :: x in list
  {
    assert list != [] ==> list[0] in list;
  }

  lemma DanglingMeans(active: seq<Line>, l: Line)
    requires Dangling(active, l)
    ensures l in active && l.says.Entry? && l.says.relation == WorkspacePackage
    ensures forall t :: !Says(active, Workspace, l.says.key, t)
  {
    hide Says;
  }

  /** Among the kept lines, the result shows exactly the package lines that dangled. */
  lemma WokenLines(active: seq<Line>, submitted: seq<Line>, trees: set<string>, l: Line)
    requires Accepted(active, submitted, trees)
    requires WellReferenced(Result(active, submitted, trees))
    ensures l in View(Keep(active, Both(active, submitted), trees), ParseLines(Result(active, submitted, trees)), trees)
            <==> Dangling(active, l)
  {
    hide *;
    var both := Both(active, submitted);
    var kept, after := Keep(active, both, trees), ParseLines(Result(active, submitted, trees));
    Divided(active, both, trees);
    Divided(kept, after, trees);
    if l in kept {
      KeptHidden(active, submitted, trees, l);
    } else if Dangling(active, l) {
      DanglingStays(active, submitted, trees, l);
    }
  }

  /** The view of the result: what was submitted, after the package lines that dangled before. */
  lemma ViewOfResult(active: seq<Line>, submitted: seq<Line>, trees: set<string>) returns (woken: seq<Line>)
    requires Accepted(active, submitted, trees)
    requires WellReferenced(Result(active, submitted, trees))
    ensures View(Result(active, submitted, trees), ParseLines(Result(active, submitted, trees)), trees) ==
            woken + submitted
    ensures forall l :: l in woken <==> Dangling(active, l)
  {
    var kept, after := Keep(active, Both(active, submitted), trees), ParseLines(Result(active, submitted, trees));
    woken := View(kept, after, trees);
    ViewAppend(kept, submitted, after, trees);
    forall l | l in submitted ensures Inside(l, after, trees) {
      SubmittedShown(active, submitted, trees, l);
    }
    ViewAll(submitted, after, trees);
    forall l ensures l in woken <==> Dangling(active, l) {
      WokenLines(active, submitted, trees, l);
    }
  }

  /** PutGet, exactly: given a result whose references resolve, the view of it is what was
      submitted if and only if no package line of the active policy dangles. */
  lemma PutGet(active: seq<Line>, submitted: seq<Line>, trees: set<string>)
    requires Accepted(active, submitted, trees)
    requires WellReferenced(Result(active, submitted, trees))
    ensures View(Result(active, submitted, trees), ParseLines(Result(active, submitted, trees)), trees) == submitted
            <==> forall l :: !Dangling(active, l)
  {
    var woken := ViewOfResult(active, submitted, trees);
    if woken != [] {
      assert woken[0] in woken;
    }
  }

  lemma WellReferencedNeverDangles(lines: seq<Line>)
    requires WellReferenced(lines)
    ensures forall l :: !Dangling(lines, l)
  {
    forall l ensures !Dangling(lines, l) {
      if Dangling(lines, l) {
        assert Referenced(l.says, lines) && Names(l.says, WorkspacePackage, l.says.key);
        assert false;
      }
    }
  }

  // ---- PutPut ----

  /** A member or group line that is outside only because some role it names has no trees yet, and that
      the submission completes: every other role it names stays inside `trees`, and those without
      trees are given some by the submission. */
  ghost predicate Awakened(active: seq<Line>, submitted: seq<Line>, trees: set<string>, l: Line) {
    && l.says.Entry? && (l.says.relation == Member || l.says.relation == Group)
    && (forall r :: r in l.says.values ==>
          && r != "admin"
          && (forall t :: Says(active, Role, r, t) ==> t in trees)
          && exists t :: Says(active, Role, r, t) || Says(submitted, Role, r, t))
    && exists r :: r in l.says.values && forall t :: !Says(active, Role, r, t)
  }

  /** When the resolver's answer for a role line is the active text's own. */
  lemma RoleLineSays(l: Line, rights: Rights, lines: seq<Line>, more: seq<Line>, trees: set<string>)
    requires l.says.Entry? && (l.says.relation == Member || l.says.relation == Group)
    requires forall k, t :: t in Get(rights.roles, k) <==> Says(lines, Role, k, t) || Says(more, Role, k, t)
    ensures Inside(l, rights, trees) <==>
            && l.says.values != []
            && forall r :: r in l.says.values ==>
                 && r != "admin"
                 && (exists t :: Says(lines, Role, r, t) || Says(more, Role, r, t))
                 && forall t :: Says(lines, Role, r, t) || Says(more, Role, r, t) ==> t in trees
  {
    hide Says, Inside;
    RoleLineInside(l, rights, trees);
    forall r
      ensures Get(rights.roles, r) != [] <==> exists t :: Says(lines, Role, r, t) || Says(more, Role, r, t)
    {
      FirstIn(Get(rights.roles, r));
    }
  }

  /** The resolver of a text with nothing added to it. */
  lemma ResolverAlone(lines: seq<Line>)
    ensures forall k, t :: t in Get(ParseLines(lines).roles, k) <==> Says(lines, Role, k, t) || Says([], Role, k, t)
  {
    ResolverSays(lines);
    assert forall k, t :: !Says([], Role, k, t);
  }

  lemma SubmittedRolesInside(active: seq<Line>, submitted: seq<Line>, trees: set<string>)
    requires Accepted(active, submitted, trees)
    ensures forall k, t :: Says(submitted, Role, k, t) ==> t in trees
  {
    ResultOrigin(active, submitted, trees);
  }

  lemma RoleLineAwakened(active: seq<Line>, submitted: seq<Line>, trees: set<string>, l: Line)
    requires Accepted(active, submitted, trees)
    requires l.says.Entry? && (l.says.relation == Member || l.says.relation == Group)
    ensures Inside(l, Both(active, submitted), trees) <==>
            Inside(l, ParseLines(active), trees) || Awakened(active, submitted, trees, l)
  {
    hide Says, Inside, Accepted, Both, ParseLines;
    BothSays(active, submitted);
    ResolverAlone(active);
    SubmittedRolesInside(active, submitted, trees);
    RoleLineSays(l, Both(active, submitted), active, submitted, trees);
    RoleLineSays(l, ParseLines(active), active, [], trees);
    NothingSaid();
    if l.says.values != [] {
      assert l.says.values[0] in l.says.values;
    }
  }

  lemma NothingSaid()
    ensures forall k, t :: !Says([], Role, k, t)
  {
  }

  /** Which lines an accepted edit finds inside, for every active text: those the view shows, and the
      hidden member and group lines that the submission awakens. */
  lemma InsideIff(active: seq<Line>, submitted: seq<Line>, trees: set<string>, l: Line)
    requires Accepted(active, submitted, trees)
    ensures Inside(l, Both(active, submitted), trees) <==>
            Inside(l, ParseLines(active), trees) || Awakened(active, submitted, trees, l)
  {
    hide Says, Inside, Accepted;
    if Plain(l.says) {
      PlainInside(l, Both(active, submitted), ParseLines(active), trees);
    } else if l.says.relation == WorkspacePackage {
      Merged(ParseLines(active), ParseLines(submitted), "");
      PackageLineInside(l, Both(active, submitted), trees);
      PackageLineInside(l, ParseLines(active), trees);
    } else {
      RoleLineAwakened(active, submitted, trees, l);
    }
  }

  lemma AwakenedIsHidden(active: seq<Line>, submitted: seq<Line>, trees: set<string>, l: Line)
    requires Awakened(active, submitted, trees, l)
    ensures !Inside(l, ParseLines(active), trees)
  {
    hide Says, Inside;
    ResolverAlone(active);
    NothingSaid();
    RoleLineSays(l, ParseLines(active), active, [], trees);
  }

  /** In a policy whose references resolve, nothing can be awakened. */
  lemma ReferencedStaysAsleep(active: seq<Line>, submitted: seq<Line>, trees: set<string>, l: Line)
    requires WellReferenced(active) && l in active
    ensures !Awakened(active, submitted, trees, l)
  {
    hide Says;
    assert Referenced(l.says, active);
    if l.says.Entry? && (l.says.relation == Member || l.says.relation == Group) {
      forall r | r in l.says.values ensures exists t :: Says(active, Role, r, t) {
        assert Holds(l.says, l.says.relation, l.says.key, r);
      }
    }
  }

  lemma {:induction false} SameKeep(lines: seq<Line>, a: Rights, b: Rights, trees: set<string>)
    requires forall l :: l in lines ==> (Inside(l, a, trees) <==> Inside(l, b, trees))
    ensures Keep(lines, a, trees) == Keep(lines, b, trees)
  {
    if lines != [] {
      InitAndLast(lines);
      SameKeep(lines[..|lines| - 1], a, b, trees);
    }
  }

  lemma {:induction false} KeepShrinks(lines: seq<Line>, a: Rights, b: Rights, trees: set<string>)
    requires forall l :: l in lines && Inside(l, b, trees) ==> Inside(l, a, trees)
    ensures |Keep(lines, a, trees)| <= |Keep(lines, b, trees)|
    ensures (exists l :: l in lines && Inside(l, a, trees) && !Inside(l, b, trees)) ==>
              |Keep(lines, a, trees)| < |Keep(lines, b, trees)|
  {
    hide Inside;
    if lines != [] {
      InitAndLast(lines);
      KeepShrinks(lines[..|lines| - 1], a, b, trees);
    }
  }

  /** What an accepted edit keeps is what the active policy itself puts outside if and only if the
      submission awakens no line: for every active text. */
  lemma KeptIntactIff(active: seq<Line>, submitted: seq<Line>, trees: set<string>)
    requires Accepted(active, submitted, trees)
    ensures Keep(active, Both(active, submitted), trees) == Keep(active, ParseLines(active), trees) <==>
            forall l :: l in active ==> !Awakened(active, submitted, trees, l)
  {
    hide Accepted, Inside, Keep, Both, ParseLines, Awakened;
    var both, own := Both(active, submitted), ParseLines(active);
    forall l ensures Inside(l, both, trees) <==> Inside(l, own, trees) || Awakened(active, submitted, trees, l) {
      InsideIff(active, submitted, trees, l);
    }
    KeepShrinks(active, both, own, trees);
    if forall l :: l in active ==> !Awakened(active, submitted, trees, l) {
      SameKeep(active, both, own, trees);
    } else {
      var l :| l in active && Awakened(active, submitted, trees, l);
      AwakenedIsHidden(active, submitted, trees, l);
    }
  }

  /** In particular when the references of the active policy resolve. */
  lemma KeptIsIntrinsic(active: seq<Line>, submitted: seq<Line>, trees: set<string>)
    requires WellReferenced(active) && Accepted(active, submitted, trees)
    ensures Keep(active, Both(active, submitted), trees) == Keep(active, ParseLines(active), trees)
  {
    hide *;
    forall l | l in active ensures !Awakened(active, submitted, trees, l) {
      ReferencedStaysAsleep(active, submitted, trees, l);
    }
    KeptIntactIff(active, submitted, trees);
  }

  /** After an edit whose result resolves, the lines outside are those that were outside before. */
  lemma KeptAgain(active: seq<Line>, first: seq<Line>, trees: set<string>)
    requires WellReferenced(active) && WellReferenced(Result(active, first, trees))
    requires Accepted(active, first, trees)
    ensures Keep(Result(active, first, trees), ParseLines(Result(active, first, trees)), trees)
            == Keep(active, Both(active, first), trees)
  {
    var kept := Keep(active, Both(active, first), trees);
    var after := ParseLines(Result(active, first, trees));
    ViewAppend(kept, first, after, trees);
    forall l | l in first ensures Inside(l, after, trees) {
      SubmittedShown(active, first, trees, l);
    }
    ViewAll(first, after, trees);
    WellReferencedNeverDangles(active);
    forall l | l in kept ensures !Inside(l, after, trees) {
      KeptHidden(active, first, trees, l);
    }
    KeepAll(kept, after, trees);
  }

  /** PutPut: a second edit leaves no trace of the first. */
  lemma PutPut(active: seq<Line>, first: seq<Line>, second: seq<Line>, trees: set<string>)
    requires WellReferenced(active) && WellReferenced(Result(active, first, trees))
    requires Accepted(active, first, trees) && Accepted(active, second, trees)
    requires Accepted(Result(active, first, trees), second, trees)
    ensures Result(Result(active, first, trees), second, trees) == Result(active, second, trees)
  {
    KeptIsIntrinsic(active, first, trees);
    KeptIsIntrinsic(active, second, trees);
    KeptIsIntrinsic(Result(active, first, trees), second, trees);
    KeptAgain(active, first, trees);
  }

  /** When the second edit is still accepted after the first: exactly when the workspaces its
      package lines name survived, because a submission is not resolved against its own workspaces. */
  lemma PutPutAccepted(active: seq<Line>, first: seq<Line>, second: seq<Line>, trees: set<string>)
    requires Accepted(active, first, trees) && Accepted(active, second, trees)
    requires WellReferenced(Result(active, second, trees))
    ensures Accepted(Result(active, first, trees), second, trees) <==>
            forall l, w :: l in second && Names(l.says, WorkspacePackage, w) ==>
                           exists t :: Says(Result(active, first, trees), Workspace, w, t)
  {
    var middle := Result(active, first, trees);
    var both := Both(middle, second);
    BothSays(middle, second);
    if Accepted(middle, second, trees) {
      forall l, w | l in second && Names(l.says, WorkspacePackage, w)
        ensures exists t :: Says(middle, Workspace, w, t)
      {
        PackageLineInside(l, both, trees);
        var t := Get(both.workspaces, w)[0];
        assert t in Get(both.workspaces, w);
      }
    }
    if forall l, w :: l in second && Names(l.says, WorkspacePackage, w) ==> exists t :: Says(middle, Workspace, w, t) {
      forall l | l in second
        ensures Inside(l, both, trees)
      {
        SecondInside(active, first, second, trees, l);
      }
    }
  }

  lemma SecondInside(active: seq<Line>, first: seq<Line>, second: seq<Line>, trees: set<string>, l: Line)
    requires Accepted(active, first, trees) && Accepted(active, second, trees) && l in second
    requires WellReferenced(Result(active, second, trees))
    requires forall w :: Names(l.says, WorkspacePackage, w) ==>
             exists t :: Says(Result(active, first, trees), Workspace, w, t)
    ensures Inside(l, Both(Result(active, first, trees), second), trees)
  {
    var middle := Result(active, first, trees);
    var before, both := Both(active, second), Both(middle, second);
    BothSays(active, second);
    BothSays(middle, second);
    ResultOrigin(active, first, trees);
    assert Inside(l, before, trees);
    if Plain(l.says) {
      PlainInside(l, before, both, trees);
    } else if l.says.relation == WorkspacePackage {
      var w := l.says.key;
      assert Names(l.says, WorkspacePackage, w);
      PackageLineInside(l, before, trees);
      PackageLineInside(l, both, trees);
      forall t | Says(middle, Workspace, w, t) ensures t in trees {
        KeptWorkspace(active, first, trees, w, t);
      }
    } else {
      RoleLineInside(l, before, trees);
      RoleLineInside(l, both, trees);
      assert l in Result(active, second, trees) && Referenced(l.says, Result(active, second, trees));
      forall r | r in l.says.values
        ensures Get(both.roles, r) != [] && forall t :: t in Get(both.roles, r) ==> t in trees
      {
        assert Holds(l.says, l.says.relation, l.says.key, r);
        var t :| Says(Result(active, second, trees), Role, r, t);
        KeptRole(active, second, trees, r, t);
        forall x | Says(middle, Role, r, x) ensures x in trees {
          KeptRole(active, first, trees, r, x);
        }
      }
    }
  }
}
