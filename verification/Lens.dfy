/** A tenant administrator's view of the policy, and the edit that puts it back. */
module Lens {
  import opened Rights

  // Everything here works on lines that have been read already; `Tenant` lifts it to texts.

  function NonEmpty(s: set<string>): Option<set<string>> {
    if s == {} then None else Some(s)
  }

  predicate Unresolved(roles: seq<string>, rights: Rights) {
    exists r | r in roles :: r == "admin" || Get(rights.roles, r) == []
  }

  function RoleTrees(roles: seq<string>, rights: Rights): set<string> {
    set r, t | r in roles && t in Get(rights.roles, r) :: t
  }

  /** The trees one line reaches, or nothing for a line only a global administrator may change. */
  function LineTrees(d: Directive, rights: Rights): Option<set<string>> {
    match d
    case Entry(rel, key, values) => (
      match rel
      case Grant => NonEmpty(set v | v in values)
      case Workspace => NonEmpty(set v | v in values)
      case Role => if key == "admin" then None else NonEmpty(set v | v in values)
      case Member => if Unresolved(values, rights) then None else NonEmpty(RoleTrees(values, rights))
      case Group => if Unresolved(values, rights) then None else NonEmpty(RoleTrees(values, rights))
      case WorkspacePackage => NonEmpty(set t | t in Get(rights.workspaces, key))
      case Tenant => None
      case TenantAdmin => None)
    case RoleTool(role, tree, _) => if role == "admin" then None else Some({tree})
    case TreeDecl(_) => None
    case Ignored => None
  }

  predicate Inside(l: Line, rights: Rights, trees: set<string>) {
    var reached := LineTrees(l.says, rights);
    reached.Some? && reached.value <= trees
  }

  /** The lines an edit leaves alone. */
  function Keep(lines: seq<Line>, rights: Rights, trees: set<string>): seq<Line> {
    if lines == [] then []
    else
      var last := lines[|lines| - 1];
      Keep(lines[..|lines| - 1], rights, trees) + if Inside(last, rights, trees) then [] else [last]
  }

  /** The lines a tenant administrator is shown. */
  function View(lines: seq<Line>, rights: Rights, trees: set<string>): seq<Line> {
    if lines == [] then []
    else
      var last := lines[|lines| - 1];
      View(lines[..|lines| - 1], rights, trees) + if Inside(last, rights, trees) then [last] else []
  }

  lemma {:induction false} Divided(lines: seq<Line>, rights: Rights, trees: set<string>)
    ensures forall l :: l in Keep(lines, rights, trees) <==> l in lines && !Inside(l, rights, trees)
    ensures forall l :: l in View(lines, rights, trees) <==> l in lines && Inside(l, rights, trees)
  {
    if lines != [] {
      InitAndLast(lines);
      Divided(lines[..|lines| - 1], rights, trees);
    }
  }

  /** The active rights with the submitted roles added: what a submitted line is resolved against. */
  function Merge(active: Rights, submitted: Rights): Rights {
    active.(roles := map k | k in active.roles.Keys + submitted.roles.Keys
                       :: Get(active.roles, k) + Get(submitted.roles, k))
  }

  function Both(active: seq<Line>, submitted: seq<Line>): Rights {
    Merge(ParseLines(active), ParseLines(submitted))
  }

  predicate Accepted(active: seq<Line>, submitted: seq<Line>, trees: set<string>) {
    forall l | l in submitted :: Inside(l, Both(active, submitted), trees)
  }

  function Result(active: seq<Line>, submitted: seq<Line>, trees: set<string>): seq<Line> {
    Keep(active, Both(active, submitted), trees) + submitted
  }

  // ---- Resolving ----

  /** Two policies that resolve every role and workspace reference alike. */
  ghost predicate SameResolver(a: Rights, b: Rights) {
    && (forall k, t :: t in Get(a.roles, k) <==> t in Get(b.roles, k))
    && (forall k, t :: t in Get(a.workspaces, k) <==> t in Get(b.workspaces, k))
  }

  lemma SameLineTrees(d: Directive, a: Rights, b: Rights)
    requires SameResolver(a, b)
    ensures LineTrees(d, a) == LineTrees(d, b)
  {
    forall k
      ensures Get(a.roles, k) == [] <==> Get(b.roles, k) == []
    {
      assert Get(a.roles, k) != [] ==> Get(a.roles, k)[0] in Get(b.roles, k);
      assert Get(b.roles, k) != [] ==> Get(b.roles, k)[0] in Get(a.roles, k);
    }
    if d.Entry? {
      assert Unresolved(d.values, a) == Unresolved(d.values, b);
      assert RoleTrees(d.values, a) == RoleTrees(d.values, b);
      assert (set t | t in Get(a.workspaces, d.key)) == (set t | t in Get(b.workspaces, d.key));
    }
  }

  lemma Merged(a: Rights, s: Rights, k: string)
    ensures Get(Merge(a, s).roles, k) == Get(a.roles, k) + Get(s.roles, k)
    ensures Merge(a, s).workspaces == a.workspaces
  {
  }

  /** What the merged resolver knows: the roles of both texts, the workspaces of the active one. */
  lemma BothSays(active: seq<Line>, submitted: seq<Line>)
    ensures forall k, t :: t in Get(Both(active, submitted).roles, k) <==>
                           Says(active, Role, k, t) || Says(submitted, Role, k, t)
    ensures forall k, t :: t in Get(Both(active, submitted).workspaces, k) <==> Says(active, Workspace, k, t)
  {
    ResolverSays(active);
    ResolverSays(submitted);
    forall k, t
      ensures t in Get(Both(active, submitted).roles, k) <==> Says(active, Role, k, t) || Says(submitted, Role, k, t)
    {
      Merged(ParseLines(active), ParseLines(submitted), k);
    }
  }

  lemma ResolverSays(lines: seq<Line>)
    ensures forall k, t :: t in Get(ParseLines(lines).roles, k) <==> Says(lines, Role, k, t)
    ensures forall k, t :: t in Get(ParseLines(lines).workspaces, k) <==> Says(lines, Workspace, k, t)
  {
    ColumnSays(lines);
    var r := ParseLines(lines);
    assert r.roles == r.Column(Role) && r.workspaces == r.Column(Workspace);
  }

  /** A line that is inside names only trees of the tenant. */
  lemma InsideNames(l: Line, rights: Rights, trees: set<string>, rel: Relation, k: string, t: string)
    requires Inside(l, rights, trees) && Holds(l.says, rel, k, t)
    ensures rel in {Grant, Role, Workspace} ==> t in trees
    ensures rel in {Member, Group} ==>
            t != "admin" && Get(rights.roles, t) != [] && forall x :: x in Get(rights.roles, t) ==> x in trees
    ensures rel != Tenant && rel != TenantAdmin
  {
    if rel in {Member, Group} {
      var reached := RoleTrees(l.says.values, rights);
      forall x | x in Get(rights.roles, t) ensures x in trees {
        assert x in reached;
      }
    } else if rel in {Grant, Role, Workspace} {
      assert t in (set v | v in l.says.values);
    }
  }

  lemma SaysAppend(a: seq<Line>, b: seq<Line>)
    ensures forall rel, k, x :: Says(a + b, rel, k, x) <==> Says(a, rel, k, x) || Says(b, rel, k, x)
    ensures forall role, tree :: HasTools(a + b, role, tree) <==> HasTools(a, role, tree) || HasTools(b, role, tree)
  {
    assert forall l :: l in a + b <==> l in a || l in b;
  }

  lemma Snoc(a: seq<Line>, l: Line)
    ensures forall rel, k :: Values(a + [l], rel, k) == Values(a, rel, k) + ValuesOf(l.says, rel, k)
    ensures forall role, tree :: Tools(a + [l], role, tree) == Tools(a, role, tree) + ToolsOf(l.says, role, tree)
    ensures TreeLines(a + [l]) == TreeLines(a) + if l.says.TreeDecl? then [l.says.tree] else []
  {
    assert (a + [l])[..|a|] == a;
  }

  lemma {:induction false} ValuesAppend(a: seq<Line>, b: seq<Line>, rel: Relation, k: string)
    ensures Values(a + b, rel, k) == Values(a, rel, k) + Values(b, rel, k)
  {
    hide ValuesOf;
    if b == [] {
      assert a + b == a;
    } else {
      var init, last := b[..|b| - 1], b[|b| - 1];
      assert (a + b)[..|a + b| - 1] == a + init && (a + b)[|a + b| - 1] == last;
      ValuesAppend(a, init, rel, k);
      assert Values(a, rel, k) + (Values(init, rel, k) + ValuesOf(last.says, rel, k))
          == Values(a, rel, k) + Values(init, rel, k) + ValuesOf(last.says, rel, k);
    }
  }

  lemma SplitLast(a: seq<Line>, b: seq<Line>)
    requires b != []
    ensures var init, last := b[..|b| - 1], b[|b| - 1];
            && a + b != [] && (a + b)[..|a + b| - 1] == a + init && (a + b)[|a + b| - 1] == last
  {
  }

  lemma ToolsLast(lines: seq<Line>, role: string, tree: string)
    ensures lines == [] ==> Tools(lines, role, tree) == []
    ensures lines != [] ==>
              Tools(lines, role, tree) ==
                Tools(lines[..|lines| - 1], role, tree) + ToolsOf(lines[|lines| - 1].says, role, tree)
  {
    hide ToolsOf;
  }

  lemma {:induction false} ToolsAppend(a: seq<Line>, b: seq<Line>, role: string, tree: string)
    ensures Tools(a + b, role, tree) == Tools(a, role, tree) + Tools(b, role, tree)
  {
    hide *;
    ToolsLast(b, role, tree);
    if b == [] {
      assert a + b == a;
    } else {
      SplitLast(a, b);
      ToolsAppend(a, b[..|b| - 1], role, tree);
      ToolsLast(a + b, role, tree);
    }
  }

  lemma TreeLinesLast(lines: seq<Line>)
    ensures lines == [] ==> TreeLines(lines) == []
    ensures lines != [] ==>
              var d := lines[|lines| - 1].says;
              TreeLines(lines) == TreeLines(lines[..|lines| - 1]) + if d.TreeDecl? then [d.tree] else []
  {
  }

  lemma {:induction false} TreeLinesAppend(a: seq<Line>, b: seq<Line>)
    ensures TreeLines(a + b) == TreeLines(a) + TreeLines(b)
  {
    hide *;
    TreeLinesLast(b);
    if b == [] {
      assert a + b == a;
    } else {
      SplitLast(a, b);
      TreeLinesAppend(a, b[..|b| - 1]);
      TreeLinesLast(a + b);
    }
  }

  lemma {:induction false} ViewAppend(a: seq<Line>, b: seq<Line>, rights: Rights, trees: set<string>)
    ensures View(a + b, rights, trees) == View(a, rights, trees) + View(b, rights, trees)
    ensures Keep(a + b, rights, trees) == Keep(a, rights, trees) + Keep(b, rights, trees)
  {
    if b == [] {
      assert a + b == a;
    } else {
      assert (a + b)[..|a + b| - 1] == a + b[..|b| - 1];
      ViewAppend(a, b[..|b| - 1], rights, trees);
    }
  }

  // ---- Frame: an edit inside `trees` decides nothing outside them ----

  /** Every decision on one tree: who reaches it, with which tools, and the workspaces it belongs to. */
  ghost predicate SameAt(a: Rights, b: Rights, t: string) {
    && (forall user, idpGroups :: a.May(user, idpGroups, t) <==> b.May(user, idpGroups, t))
    && (forall user, idpGroups, tool :: a.MayTool(user, idpGroups, t, tool) <==> b.MayTool(user, idpGroups, t, tool))
    && (forall w :: t in Get(a.workspaces, w) <==> t in Get(b.workspaces, w))
    && a.UniqueWorkspace(t) == b.UniqueWorkspace(t)
  }

  ghost predicate SameOutside(a: Rights, b: Rights, trees: set<string>) {
    forall t | t !in trees :: SameAt(a, b, t)
  }

  /** The same outside, part by part: the direct grants, and what roles decide. */
  ghost predicate SameParts(a: Rights, b: Rights, trees: set<string>) {
    && (forall user, t | t !in trees :: t in Get(a.grants, user) <==> t in Get(b.grants, user))
    && SameOutside(Ungranted(a), Ungranted(b), trees)
  }

  lemma MayParts(r: Rights, user: string, idpGroups: seq<string>, t: string)
    ensures r.May(user, idpGroups, t) <==> t in Get(r.grants, user) || Ungranted(r).May(user, idpGroups, t)
    ensures forall tool :: r.MayTool(user, idpGroups, t, tool) <==>
              t in Get(r.grants, user) || Ungranted(r).MayTool(user, idpGroups, t, tool)
    ensures Ungranted(r).UniqueWorkspace(t) == r.UniqueWorkspace(t)
  {
    var u := Ungranted(r);
    assert u.RolesFor(user, idpGroups) == r.RolesFor(user, idpGroups);
    assert u.WorkspacesOf(t) == r.WorkspacesOf(t);
    assert forall role, tool :: u.ToolAllowed(role, t, tool) <==> r.ToolAllowed(role, t, tool);
  }

  lemma SameAtParts(a: Rights, b: Rights, t: string)
    requires forall user :: t in Get(a.grants, user) <==> t in Get(b.grants, user)
    requires SameAt(Ungranted(a), Ungranted(b), t)
    ensures SameAt(a, b, t)
  {
    var x, y := Ungranted(a), Ungranted(b);
    forall user, idpGroups ensures a.May(user, idpGroups, t) <==> b.May(user, idpGroups, t) {
      MayParts(a, user, idpGroups, t);
      MayParts(b, user, idpGroups, t);
      assert x.May(user, idpGroups, t) <==> y.May(user, idpGroups, t);
    }
    forall user, idpGroups, tool ensures a.MayTool(user, idpGroups, t, tool) <==> b.MayTool(user, idpGroups, t, tool) {
      MayParts(a, user, idpGroups, t);
      MayParts(b, user, idpGroups, t);
      assert x.MayTool(user, idpGroups, t, tool) <==> y.MayTool(user, idpGroups, t, tool);
    }
    MayParts(a, "", [], t);
    MayParts(b, "", [], t);
  }

  /** The parts decide. */
  lemma PartsDecide(a: Rights, b: Rights, trees: set<string>)
    requires SameParts(a, b, trees)
    ensures SameOutside(a, b, trees)
  {
    hide SameAt;
    forall t | t !in trees ensures SameAt(a, b, t) {
      SameAtParts(a, b, t);
    }
  }

  lemma SameAtTransitive(a: Rights, b: Rights, c: Rights, t: string)
    requires SameAt(a, b, t) && SameAt(b, c, t)
    ensures SameAt(a, c, t)
  {
    assert forall user, idpGroups :: a.May(user, idpGroups, t) <==> b.May(user, idpGroups, t);
    assert forall user, idpGroups, tool ::
        a.MayTool(user, idpGroups, t, tool) <==> b.MayTool(user, idpGroups, t, tool);
    assert forall w :: t in Get(a.workspaces, w) <==> t in Get(b.workspaces, w);
  }

  lemma PartsTransitive(a: Rights, b: Rights, c: Rights, trees: set<string>)
    requires SameParts(a, b, trees) && SameParts(b, c, trees)
    ensures SameParts(a, c, trees)
  {
    hide SameAt;
    forall t | t !in trees ensures SameAt(Ungranted(a), Ungranted(c), t) {
      SameAtTransitive(Ungranted(a), Ungranted(b), Ungranted(c), t);
    }
  }

  /** What only a global administrator may change. */
  ghost predicate SameAdministration(a: Rights, b: Rights) {
    && a.trees == b.trees
    && a.tenants == b.tenants
    && a.tenantAdmins == b.tenantAdmins
    && (forall name :: a.FindTree(name) == b.FindTree(name))
    && (forall user, idpGroups :: a.Scope(user, idpGroups) == b.Scope(user, idpGroups))
  }

  lemma ResultSays(active: seq<Line>, submitted: seq<Line>, trees: set<string>, rel: Relation, k: string, x: string)
    requires Accepted(active, submitted, trees)
    requires rel in {Grant, Role, Workspace} && x !in trees
    ensures Says(Result(active, submitted, trees), rel, k, x) <==> Says(active, rel, k, x)
  {
    var both := Both(active, submitted);
    var kept := Keep(active, both, trees);
    Divided(active, both, trees);
    SaysAppend(kept, submitted);
    if Says(submitted, rel, k, x) {
      var l :| l in submitted && Holds(l.says, rel, k, x);
      InsideNames(l, both, trees, rel, k, x);
      assert false;
    }
    if Says(active, rel, k, x) {
      var l :| l in active && Holds(l.says, rel, k, x);
      if Inside(l, both, trees) {
        InsideNames(l, both, trees, rel, k, x);
        assert false;
      }
      assert l in kept;
    }
  }

  /** A role that reaches beyond `trees`, or that is `admin`, keeps exactly its holders. */
  lemma ResultRoles(active: seq<Line>, submitted: seq<Line>, trees: set<string>,
                    user: string, idpGroups: seq<string>, role: string)
    requires Accepted(active, submitted, trees)
    requires role == "admin" || exists t :: t !in trees && Says(active, Role, role, t)
    ensures SaysRole(Result(active, submitted, trees), user, idpGroups, role) <==>
            SaysRole(active, user, idpGroups, role)
  {
    var both := Both(active, submitted);
    var kept := Keep(active, both, trees);
    Divided(active, both, trees);
    SaysAppend(kept, submitted);
    BothSays(active, submitted);
    forall l: Line, rel, k | rel in {Member, Group} && Holds(l.says, rel, k, role)
      ensures !Inside(l, both, trees)
    {
      if Inside(l, both, trees) {
        InsideNames(l, both, trees, rel, k, role);
        assert false;
      }
    }
    forall rel, k | rel in {Member, Group}
      ensures Says(kept + submitted, rel, k, role) <==> Says(active, rel, k, role)
    {
      if Says(active, rel, k, role) {
        var l :| l in active && Holds(l.says, rel, k, role);
        assert l in kept;
      }
    }
  }

  lemma {:induction false} KeptTools(lines: seq<Line>, rights: Rights, trees: set<string>, role: string, tree: string)
    requires tree !in trees
    ensures Tools(Keep(lines, rights, trees), role, tree) == Tools(lines, role, tree)
  {
    if lines != [] {
      var init, last := lines[..|lines| - 1], lines[|lines| - 1];
      var kept := Keep(init, rights, trees);
      KeptTools(init, rights, trees, role, tree);
      if Inside(last, rights, trees) {
        assert ToolsOf(last.says, role, tree) == [];
        assert Keep(lines, rights, trees) == kept;
      } else {
        assert Keep(lines, rights, trees) == kept + [last];
        assert (kept + [last])[..|kept|] == kept;
      }
    }
  }

  lemma {:induction false} NoTools(lines: seq<Line>, rights: Rights, trees: set<string>, role: string, tree: string)
    requires tree !in trees && forall l :: l in lines ==> Inside(l, rights, trees)
    ensures Tools(lines, role, tree) == []
  {
    if lines != [] {
      NoTools(lines[..|lines| - 1], rights, trees, role, tree);
      assert lines[|lines| - 1] in lines;
    }
  }

  lemma ResultTools(active: seq<Line>, submitted: seq<Line>, trees: set<string>, role: string, tree: string)
    requires Accepted(active, submitted, trees) && tree !in trees
    ensures Tools(Result(active, submitted, trees), role, tree) == Tools(active, role, tree)
  {
    var both := Both(active, submitted);
    ToolsAppend(Keep(active, both, trees), submitted, role, tree);
    KeptTools(active, both, trees, role, tree);
    NoTools(submitted, both, trees, role, tree);
  }

  ghost predicate IsToolLine(l: Line, role: string, tree: string) {
    l.says.RoleTool? && l.says.role == role && l.says.toolTree == tree
  }

  lemma ToolLineOutside(l: Line, rights: Rights, trees: set<string>, role: string, tree: string)
    requires IsToolLine(l, role, tree) && tree !in trees
    ensures !Inside(l, rights, trees)
  {
  }

  lemma ResultHasTools(active: seq<Line>, submitted: seq<Line>, trees: set<string>, role: string, tree: string)
    requires Accepted(active, submitted, trees) && tree !in trees
    ensures HasTools(Result(active, submitted, trees), role, tree) <==> HasTools(active, role, tree)
  {
    var both, result := Both(active, submitted), Result(active, submitted, trees);
    Divided(active, both, trees);
    if HasTools(result, role, tree) {
      var l :| l in result && IsToolLine(l, role, tree);
      ToolLineOutside(l, both, trees, role, tree);
      assert l in active;
    }
    if HasTools(active, role, tree) {
      var l :| l in active && IsToolLine(l, role, tree);
      ToolLineOutside(l, both, trees, role, tree);
      assert l in result;
    }
  }

  lemma FrameMay(active: seq<Line>, submitted: seq<Line>, trees: set<string>, user: string, idpGroups: seq<string>,
      t: string)
    requires Accepted(active, submitted, trees) && t !in trees
    ensures ParseLines(Result(active, submitted, trees)).May(user, idpGroups, t) <==>
            ParseLines(active).May(user, idpGroups, t)
    ensures Ungranted(ParseLines(Result(active, submitted, trees))).May(user, idpGroups, t) <==>
            Ungranted(ParseLines(active)).May(user, idpGroups, t)
  {
    var result := Result(active, submitted, trees);
    MaySaid(result, user, idpGroups, t);
    MaySaid(active, user, idpGroups, t);
    ResultSays(active, submitted, trees, Grant, user, t);
    forall role
      ensures SaysRole(result, user, idpGroups, role) && Says(result, Role, role, t) <==>
              SaysRole(active, user, idpGroups, role) && Says(active, Role, role, t)
    {
      ResultSays(active, submitted, trees, Role, role, t);
      if Says(active, Role, role, t) {
        ResultRoles(active, submitted, trees, user, idpGroups, role);
      }
    }
  }

  lemma FrameMayTool(active: seq<Line>, submitted: seq<Line>, trees: set<string>,
                     user: string, idpGroups: seq<string>, t: string, tool: string)
    requires Accepted(active, submitted, trees) && t !in trees
    ensures ParseLines(Result(active, submitted, trees)).MayTool(user, idpGroups, t, tool) <==>
            ParseLines(active).MayTool(user, idpGroups, t, tool)
    ensures Ungranted(ParseLines(Result(active, submitted, trees))).MayTool(user, idpGroups, t, tool) <==>
            Ungranted(ParseLines(active)).MayTool(user, idpGroups, t, tool)
  {
    var result := Result(active, submitted, trees);
    MayToolSaid(result, user, idpGroups, t, tool);
    MayToolSaid(active, user, idpGroups, t, tool);
    ResultSays(active, submitted, trees, Grant, user, t);
    forall role
      ensures SaysRole(result, user, idpGroups, role) &&
              Says(result, Role, role, t) && SaysTool(result, role, t, tool) <==>
              SaysRole(active, user, idpGroups, role) && Says(active, Role, role, t) && SaysTool(active, role, t, tool)
    {
      ResultSays(active, submitted, trees, Role, role, t);
      ResultTools(active, submitted, trees, role, t);
      ResultHasTools(active, submitted, trees, role, t);
      if Says(active, Role, role, t) {
        ResultRoles(active, submitted, trees, user, idpGroups, role);
      }
    }
  }

  lemma FrameWorkspace(active: seq<Line>, submitted: seq<Line>, trees: set<string>, t: string)
    requires Accepted(active, submitted, trees) && t !in trees
    ensures ParseLines(Result(active, submitted, trees)).UniqueWorkspace(t) == ParseLines(active).UniqueWorkspace(t)
    ensures forall w :: t in Get(ParseLines(Result(active, submitted, trees)).workspaces, w) <==>
              t in Get(ParseLines(active).workspaces, w)
  {
    var result := Result(active, submitted, trees);
    WorkspacesSaid(result, t);
    WorkspacesSaid(active, t);
    forall w
      ensures Says(result, Workspace, w, t) <==> Says(active, Workspace, w, t)
      ensures t in Get(ParseLines(result).workspaces, w) <==> t in Get(ParseLines(active).workspaces, w)
    {
      ResultSays(active, submitted, trees, Workspace, w, t);
      WorkspaceSays(result, w, t);
      WorkspaceSays(active, w, t);
    }
    assert ParseLines(result).WorkspacesOf(t) == ParseLines(active).WorkspacesOf(t);
  }

  lemma FrameAt(active: seq<Line>, submitted: seq<Line>, trees: set<string>, t: string)
    requires Accepted(active, submitted, trees) && t !in trees
    ensures SameAt(Ungranted(ParseLines(active)), Ungranted(ParseLines(Result(active, submitted, trees))), t)
  {
    hide Accepted, ParseLines, Result;
    var a, b := ParseLines(active), ParseLines(Result(active, submitted, trees));
    var x, y := Ungranted(a), Ungranted(b);
    forall user, idpGroups ensures x.May(user, idpGroups, t) <==> y.May(user, idpGroups, t) {
      FrameMay(active, submitted, trees, user, idpGroups, t);
    }
    forall user, idpGroups, tool ensures x.MayTool(user, idpGroups, t, tool) <==> y.MayTool(user, idpGroups, t, tool) {
      FrameMayTool(active, submitted, trees, user, idpGroups, t, tool);
    }
    FrameWorkspace(active, submitted, trees, t);
    MayParts(a, "", [], t);
    MayParts(b, "", [], t);
  }

  lemma FrameGrants(active: seq<Line>, submitted: seq<Line>, trees: set<string>, user: string, t: string)
    requires Accepted(active, submitted, trees) && t !in trees
    ensures t in Get(ParseLines(active).grants, user) <==>
            t in Get(ParseLines(Result(active, submitted, trees)).grants, user)
  {
    var result := Result(active, submitted, trees);
    ResultSays(active, submitted, trees, Grant, user, t);
    ColumnSays(result);
    ColumnSays(active);
    assert ParseLines(result).grants == ParseLines(result).Column(Grant);
    assert ParseLines(active).grants == ParseLines(active).Column(Grant);
  }

  /** The frame: whatever an accepted edit does, every decision outside its trees stays, and so do the
      grants and the roles' share in it. */
  lemma Frame(active: seq<Line>, submitted: seq<Line>, trees: set<string>)
    requires Accepted(active, submitted, trees)
    ensures SameOutside(ParseLines(active), ParseLines(Result(active, submitted, trees)), trees)
    ensures SameParts(ParseLines(active), ParseLines(Result(active, submitted, trees)), trees)
  {
    hide *;
    var a, b := ParseLines(active), ParseLines(Result(active, submitted, trees));
    forall t | t !in trees ensures SameAt(Ungranted(a), Ungranted(b), t) {
      FrameAt(active, submitted, trees, t);
    }
    forall user, t | t !in trees ensures t in Get(a.grants, user) <==> t in Get(b.grants, user) {
      FrameGrants(active, submitted, trees, user, t);
    }
    PartsWhen(a, b, trees);
    PartsDecide(a, b, trees);
  }

  lemma PartsWhen(a: Rights, b: Rights, trees: set<string>)
    requires forall user, t | t !in trees :: t in Get(a.grants, user) <==> t in Get(b.grants, user)
    requires forall t | t !in trees :: SameAt(Ungranted(a), Ungranted(b), t)
    ensures SameParts(a, b, trees)
  {
    hide SameAt;
  }

  lemma KeepLast(lines: seq<Line>, rights: Rights, trees: set<string>)
    ensures lines == [] ==> Keep(lines, rights, trees) == []
    ensures lines != [] ==>
              var kept, last := Keep(lines[..|lines| - 1], rights, trees), lines[|lines| - 1];
              Keep(lines, rights, trees) == if Inside(last, rights, trees) then kept else kept + [last]
  {
    hide Inside;
  }

  lemma InsideAdministersNothing(l: Line, rights: Rights, trees: set<string>, rel: Relation, k: string)
    requires (rel == Tenant || rel == TenantAdmin) && Inside(l, rights, trees)
    ensures ValuesOf(l.says, rel, k) == []
  {
  }

  lemma ValuesLast(lines: seq<Line>, rel: Relation, k: string)
    ensures lines == [] ==> Values(lines, rel, k) == []
    ensures lines != [] ==>
              Values(lines, rel, k) == Values(lines[..|lines| - 1], rel, k) + ValuesOf(lines[|lines| - 1].says, rel, k)
  {
    hide ValuesOf;
  }

  lemma {:induction false} KeptValues(lines: seq<Line>, rights: Rights, trees: set<string>, rel: Relation, k: string)
    requires forall l :: l in lines && Inside(l, rights, trees) ==> ValuesOf(l.says, rel, k) == []
    ensures Values(Keep(lines, rights, trees), rel, k) == Values(lines, rel, k)
  {
    hide *;
    KeepLast(lines, rights, trees);
    ValuesLast(lines, rel, k);
    if lines != [] {
      var init, last := lines[..|lines| - 1], lines[|lines| - 1];
      var kept := Keep(init, rights, trees);
      InitAndLast(lines);
      KeptValues(init, rights, trees, rel, k);
      if !Inside(last, rights, trees) {
        ValuesLast(kept + [last], rel, k);
        assert (kept + [last])[..|kept|] == kept;
      }
    }
  }

  lemma {:induction false} KeptTrees(lines: seq<Line>, rights: Rights, trees: set<string>)
    ensures TreeLines(Keep(lines, rights, trees)) == TreeLines(lines)
  {
    if lines != [] {
      var init, last := lines[..|lines| - 1], lines[|lines| - 1];
      var kept := Keep(init, rights, trees);
      KeptTrees(init, rights, trees);
      if Inside(last, rights, trees) {
        assert Keep(lines, rights, trees) == kept;
      } else {
        assert Keep(lines, rights, trees) == kept + [last];
        assert (kept + [last])[..|kept|] == kept;
      }
    }
  }

  lemma {:induction false} NoAdministration(lines: seq<Line>, rights: Rights, trees: set<string>, rel: Relation,
      k: string)
    requires rel in {Tenant, TenantAdmin} && forall l :: l in lines ==> Inside(l, rights, trees)
    ensures Values(lines, rel, k) == []
    ensures TreeLines(lines) == []
  {
    if lines != [] {
      NoAdministration(lines[..|lines| - 1], rights, trees, rel, k);
      assert lines[|lines| - 1] in lines;
    }
  }

  lemma ResultColumn(active: seq<Line>, submitted: seq<Line>, trees: set<string>, rel: Relation, k: string)
    requires Accepted(active, submitted, trees) && rel in {Tenant, TenantAdmin}
    ensures Values(Result(active, submitted, trees), rel, k) == Values(active, rel, k)
    ensures Declares(Result(active, submitted, trees), rel, k) <==> Declares(active, rel, k)
  {
    var both := Both(active, submitted);
    var kept := Keep(active, both, trees);
    Divided(active, both, trees);
    ValuesAppend(kept, submitted, rel, k);
    forall l | l in active && Inside(l, both, trees) ensures ValuesOf(l.says, rel, k) == [] {
      InsideAdministersNothing(l, both, trees, rel, k);
    }
    KeptValues(active, both, trees, rel, k);
    NoAdministration(submitted, both, trees, rel, k);
    assert forall l: Line :: Names(l.says, rel, k) ==> !Inside(l, both, trees);
    if Declares(active, rel, k) {
      var l :| l in active && Names(l.says, rel, k);
      assert l in kept + submitted;
    }
  }

  lemma SameColumn(a: seq<Line>, b: seq<Line>, rel: Relation)
    requires forall k :: Values(a, rel, k) == Values(b, rel, k) && (Declares(a, rel, k) <==> Declares(b, rel, k))
    ensures ParseLines(a).Column(rel) == ParseLines(b).Column(rel)
  {
    var x, y := ParseLines(a).Column(rel), ParseLines(b).Column(rel);
    forall k
      ensures k in x <==> k in y
      ensures Get(x, k) == Get(y, k)
    {
      ParsedColumn(a, rel, k);
      ParsedColumn(b, rel, k);
    }
    assert forall k | k in x :: x[k] == Get(x, k) == Get(y, k) == y[k];
  }

  lemma ResultTenants(active: seq<Line>, submitted: seq<Line>, trees: set<string>)
    requires Accepted(active, submitted, trees)
    ensures ParseLines(Result(active, submitted, trees)).tenants == ParseLines(active).tenants
    ensures ParseLines(Result(active, submitted, trees)).tenantAdmins == ParseLines(active).tenantAdmins
    ensures ParseLines(Result(active, submitted, trees)).trees == ParseLines(active).trees
  {
    var both := Both(active, submitted);
    var result := Result(active, submitted, trees);
    forall k, rel | rel in {Tenant, TenantAdmin}
      ensures Values(result, rel, k) == Values(active, rel, k) &&
              (Declares(result, rel, k) <==> Declares(active, rel, k))
    {
      ResultColumn(active, submitted, trees, rel, k);
    }
    SameColumn(result, active, Tenant);
    SameColumn(result, active, TenantAdmin);
    var a, b := ParseLines(active), ParseLines(result);
    assert a.tenants == a.Column(Tenant) && b.tenants == b.Column(Tenant);
    assert a.tenantAdmins == a.Column(TenantAdmin) && b.tenantAdmins == b.Column(TenantAdmin);
    ParsedTrees(active);
    ParsedTrees(result);
    TreeLinesAppend(Keep(active, both, trees), submitted);
    KeptTrees(active, both, trees);
    NoAdministration(submitted, both, trees, Tenant, "");
  }

  lemma ResultScope(active: seq<Line>, submitted: seq<Line>, trees: set<string>, user: string, idpGroups: seq<string>)
    requires Accepted(active, submitted, trees)
    ensures ParseLines(Result(active, submitted, trees)).Scope(user, idpGroups) ==
            ParseLines(active).Scope(user, idpGroups)
  {
    var a, b := ParseLines(active), ParseLines(Result(active, submitted, trees));
    RolesSaid(active, user, idpGroups);
    RolesSaid(Result(active, submitted, trees), user, idpGroups);
    ResultRoles(active, submitted, trees, user, idpGroups, "admin");
    ResultTenants(active, submitted, trees);
    assert a.TenantTrees(user) == b.TenantTrees(user);
    assert a.IsAdmin(user, idpGroups) == b.IsAdmin(user, idpGroups);
  }

  /** Trees, tokens, tenants and every administrator's scope are beyond a tenant's edit. */
  lemma Administration(active: seq<Line>, submitted: seq<Line>, trees: set<string>)
    requires Accepted(active, submitted, trees)
    ensures SameAdministration(ParseLines(active), ParseLines(Result(active, submitted, trees)))
  {
    ResultTenants(active, submitted, trees);
    var a, b := ParseLines(active), ParseLines(Result(active, submitted, trees));
    forall user, idpGroups
      ensures a.Scope(user, idpGroups) == b.Scope(user, idpGroups)
    {
      ResultScope(active, submitted, trees, user, idpGroups);
    }
  }

  // ---- A workspace with no tree of the tenant's ----

  lemma InsideElsewhere(active: seq<Line>, rights: Rights, trees: set<string>, w: string, l: Line)
    requires forall t :: Says(active, Workspace, w, t) ==> t !in trees
    requires l in active && Inside(l, rights, trees)
    ensures ValuesOf(l.says, Workspace, w) == []
  {
    var values := ValuesOf(l.says, Workspace, w);
    if values != [] {
      assert Holds(l.says, Workspace, w, values[0]);
      InsideNames(l, rights, trees, Workspace, w, values[0]);
    }
  }

  /** The trees, after an edit, of a workspace that had none of the tenant's: those it had, then those that
      the submission gives it. */
  lemma WorkspaceAfter(active: seq<Line>, submitted: seq<Line>, trees: set<string>, w: string)
    requires Accepted(active, submitted, trees)
    requires forall t :: Says(active, Workspace, w, t) ==> t !in trees
    ensures Values(Result(active, submitted, trees), Workspace, w)
         == Values(active, Workspace, w) + Values(submitted, Workspace, w)
  {
    hide Inside, Accepted, Values, Says;
    var both := Both(active, submitted);
    forall l | l in active && Inside(l, both, trees) ensures ValuesOf(l.says, Workspace, w) == [] {
      InsideElsewhere(active, both, trees, w, l);
    }
    KeptValues(active, both, trees, Workspace, w);
    ValuesAppend(Keep(active, both, trees), submitted, Workspace, w);
  }

  lemma VisibleIff(r: Rights, user: string, idpGroups: seq<string>, w: string)
    ensures w in r.VisibleWorkspaces(user, idpGroups) <==>
            Get(r.workspaces, w) != [] && forall t :: t in Get(r.workspaces, w) ==> r.May(user, idpGroups, t)
  {
  }

  /** Between rights that agree outside `trees`, a workspace all of whose trees were outside is visible
      afterwards exactly if it was, and the caller reaches every tree of the tenant's it has now. */
  lemma VisibleAfter(a: Rights, b: Rights, trees: set<string>, user: string, idpGroups: seq<string>, w: string)
    requires SameOutside(a, b, trees)
    requires Get(a.workspaces, w) != [] && forall t :: t in Get(a.workspaces, w) ==> t !in trees
    ensures w in b.VisibleWorkspaces(user, idpGroups) <==>
            && w in a.VisibleWorkspaces(user, idpGroups)
            && forall t :: t in Get(b.workspaces, w) && t in trees ==> b.May(user, idpGroups, t)
  {
    VisibleIff(a, user, idpGroups, w);
    VisibleIff(b, user, idpGroups, w);
    assert Get(a.workspaces, w)[0] in Get(a.workspaces, w);
    forall t | t !in trees
      ensures a.May(user, idpGroups, t) <==> b.May(user, idpGroups, t)
      ensures t in Get(a.workspaces, w) <==> t in Get(b.workspaces, w)
    {
      assert SameAt(a, b, t);
    }
  }
}
