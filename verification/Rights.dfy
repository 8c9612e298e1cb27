/** The policy text, the rights parsed from it, and every access decision made on them. */
module Rights {
  datatype Option<+T> = None | Some(value: T)

  /** Where a tree is served, and the credential used to reach it. */
  datatype Tree = Tree(name: string, addr: string, token: string)

  /** The directives that map one name to a list of names. */
  datatype Relation = Grant | Role | Member | Group | Workspace | WorkspacePackage | Tenant | TenantAdmin

  /** One line of the policy. Blank lines, comments and malformed lines are `Ignored`. */
  datatype Directive =
    | TreeDecl(tree: Tree)
    | Entry(relation: Relation, key: string, values: seq<string>)
    | RoleTool(role: string, toolTree: string, tools: seq<string>)
    | Ignored

  type Column = map<string, seq<string>>

  function Get<K, V>(m: map<K, seq<V>>, k: K): seq<V> {
    if k in m then m[k] else []
  }

  /** `entry(k).or_default().extend(vs)`: the key appears even when nothing is added to it. */
  function Extend<K, V>(m: map<K, seq<V>>, k: K, vs: seq<V>): map<K, seq<V>> {
    m[k := Get(m, k) + vs]
  }

  /** What an administrator may see and change. */
  datatype AdminScope = Global | Trees(trees: set<string>) {
    predicate Covers(reached: set<string>) {
      match this
      case Global => true
      case Trees(own) => reached != {} && reached <= own
    }
  }

  datatype Rights = Rights(
    trees: seq<Tree>,
    grants: Column,
    roles: Column,
    members: Column,
    groups: Column,
    workspaces: Column,
    packages: Column,
    tenants: Column,
    tenantAdmins: Column,
    roleTools: map<(string, string), seq<string>>)
  {
    function Column(rel: Relation): Column {
      match rel
      case Grant => grants
      case Role => roles
      case Member => members
      case Group => groups
      case Workspace => workspaces
      case WorkspacePackage => packages
      case Tenant => tenants
      case TenantAdmin => tenantAdmins
    }

    function With(rel: Relation, c: Column): Rights {
      match rel
      case Grant => this.(grants := c)
      case Role => this.(roles := c)
      case Member => this.(members := c)
      case Group => this.(groups := c)
      case Workspace => this.(workspaces := c)
      case WorkspacePackage => this.(packages := c)
      case Tenant => this.(tenants := c)
      case TenantAdmin => this.(tenantAdmins := c)
    }

    /** The effect of one line. */
    function Add(d: Directive): Rights {
      match d
      case TreeDecl(t) => this.(trees := trees + [t])
      case Entry(rel, k, vs) => With(rel, Extend(Column(rel), k, Stored(rel, vs)))
      case RoleTool(role, tree, tools) => this.(roleTools := Extend(roleTools, (role, tree), tools))
      case Ignored => this
    }

    /** The first declaration of a tree is the one that is served. */
    function FindTree(name: string): Option<Tree> {
      FirstTree(trees, name)
    }

    function RolesFor(user: string, idpGroups: seq<string>): set<string> {
      (set r | r in Get(members, user)) +
      (set g, r | g in idpGroups && r in Get(groups, g) :: r)
    }

    predicate May(user: string, idpGroups: seq<string>, tree: string) {
      || tree in Get(grants, user)
      || exists role | role in RolesFor(user, idpGroups) :: tree in Get(roles, role)
    }

    predicate ToolAllowed(role: string, tree: string, tool: string) {
      (role, tree) in roleTools ==> tool in roleTools[(role, tree)]
    }

    predicate MayTool(user: string, idpGroups: seq<string>, tree: string, tool: string) {
      || tree in Get(grants, user)
      || exists role | role in RolesFor(user, idpGroups) ::
           tree in Get(roles, role) && ToolAllowed(role, tree, tool)
    }

    predicate IsAdmin(user: string, idpGroups: seq<string>) {
      "admin" in RolesFor(user, idpGroups)
    }

    function TenantTrees(user: string): set<string> {
      set tenant, t | tenant in Get(tenantAdmins, user) && t in Get(tenants, tenant) :: t
    }

    function Scope(user: string, idpGroups: seq<string>): Option<AdminScope> {
      if IsAdmin(user, idpGroups) then Some(Global)
      else if TenantTrees(user) != {} then Some(Trees(TenantTrees(user)))
      else None
    }

    /** The workspaces all of whose trees the caller reaches. */
    function VisibleWorkspaces(user: string, idpGroups: seq<string>): map<string, seq<string>> {
      map w | w in workspaces && workspaces[w] != []
              && forall t | t in workspaces[w] :: May(user, idpGroups, t)
        :: workspaces[w]
    }

    function WorkspacesOf(tree: string): set<string> {
      set w | w in workspaces && tree in workspaces[w]
    }

    function UniqueWorkspace(tree: string): Option<string> {
      var names := WorkspacesOf(tree);
      if |names| == 1 then
        Singleton(names);
        var w :| names == {w};
        Some(w)
      else None
    }
  }

  lemma Singleton(s: set<string>)
    requires |s| == 1
    ensures exists x :: s == {x}
  {
    var x :| x in s;
    assert |s - {x}| == 0;
    assert s == {x};
  }

  function FirstTree(trees: seq<Tree>, name: string): Option<Tree> {
    if trees == [] then None
    else if trees[0].name == name then Some(trees[0])
    else FirstTree(trees[1..], name)
  }

  const EMPTY := Rights([], map[], map[], map[], map[], map[], map[], map[], map[], map[])

  /** Packages without a version are not stored; every other list is stored whole. */
  function Stored(rel: Relation, values: seq<string>): seq<string> {
    if rel == WorkspacePackage then Versioned(values) else values
  }

  function Versioned(packages: seq<string>): (r: seq<string>)
    ensures forall p :: p in r <==> p in packages && '@' in p
  {
    if packages == [] then []
    else if '@' in packages[0] then [packages[0]] + Versioned(packages[1..])
    else Versioned(packages[1..])
  }

  /** A line of the policy: its text, and what the parser makes of it. */
  datatype Line = Line(raw: string, says: Directive)

  function ParseLines(lines: seq<Line>): Rights {
    if lines == [] then EMPTY
    else ParseLines(lines[..|lines| - 1]).Add(lines[|lines| - 1].says)
  }

  // ---- What the parsed rights hold, in terms of the lines that say it ----

  ghost predicate Names(d: Directive, rel: Relation, k: string) {
    d.Entry? && d.relation == rel && d.key == k
  }

  ghost predicate Holds(d: Directive, rel: Relation, k: string, x: string) {
    Names(d, rel, k) && x in Stored(rel, d.values)
  }

  /** Some line relates `k` to `x`. */
  ghost predicate Says(lines: seq<Line>, rel: Relation, k: string, x: string) {
    exists l :: l in lines && Holds(l.says, rel, k, x)
  }

  ghost predicate Declares(lines: seq<Line>, rel: Relation, k: string) {
    exists l :: l in lines && Names(l.says, rel, k)
  }

  ghost function ValuesOf(d: Directive, rel: Relation, k: string): seq<string> {
    if Names(d, rel, k) then Stored(rel, d.values) else []
  }

  ghost function Values(lines: seq<Line>, rel: Relation, k: string): seq<string> {
    if lines == [] then []
    else Values(lines[..|lines| - 1], rel, k) + ValuesOf(lines[|lines| - 1].says, rel, k)
  }

  ghost function ToolsOf(d: Directive, role: string, tree: string): seq<string> {
    if d.RoleTool? && d.role == role && d.toolTree == tree then d.tools else []
  }

  ghost function Tools(lines: seq<Line>, role: string, tree: string): seq<string> {
    if lines == [] then []
    else Tools(lines[..|lines| - 1], role, tree) + ToolsOf(lines[|lines| - 1].says, role, tree)
  }

  ghost predicate HasTools(lines: seq<Line>, role: string, tree: string) {
    exists l :: l in lines && l.says.RoleTool? && l.says.role == role && l.says.toolTree == tree
  }

  ghost function TreeLines(lines: seq<Line>): seq<Tree> {
    if lines == [] then []
    else
      var d := lines[|lines| - 1].says;
      TreeLines(lines[..|lines| - 1]) + if d.TreeDecl? then [d.tree] else []
  }

  lemma InitAndLast(lines: seq<Line>)
    requires lines != []
    ensures lines == lines[..|lines| - 1] + [lines[|lines| - 1]]
    ensures forall l :: l in lines <==> l in lines[..|lines| - 1] || l == lines[|lines| - 1]
  {
  }

  lemma WithColumn(r: Rights, rel: Relation, c: Column, other: Relation)
    ensures r.With(rel, c).Column(other) == if other == rel then c else r.Column(other)
  {
    match rel {
      case Grant =>
      case Role =>
      case Member =>
      case Group =>
      case Workspace =>
      case WorkspacePackage =>
      case Tenant =>
      case TenantAdmin =>
    }
  }

  lemma WithRest(r: Rights, rel: Relation, c: Column)
    ensures r.With(rel, c).trees == r.trees && r.With(rel, c).roleTools == r.roleTools
  {
  }

  lemma AddedColumn(r: Rights, d: Directive, rel: Relation, k: string)
    ensures k in r.Add(d).Column(rel) <==> k in r.Column(rel) || Names(d, rel, k)
    ensures Get(r.Add(d).Column(rel), k) == Get(r.Column(rel), k) + ValuesOf(d, rel, k)
  {
    if d.Entry? {
      WithColumn(r, d.relation, Extend(r.Column(d.relation), d.key, Stored(d.relation, d.values)), rel);
    }
  }

  lemma AddedRest(r: Rights, d: Directive)
    ensures r.Add(d).trees == r.trees + if d.TreeDecl? then [d.tree] else []
    ensures r.Add(d).roleTools ==
            if d.RoleTool? then Extend(r.roleTools, (d.role, d.toolTree), d.tools) else r.roleTools
  {
    if d.Entry? {
      WithRest(r, d.relation, Extend(r.Column(d.relation), d.key, Stored(d.relation, d.values)));
    }
  }

  /** Each parsed column lists, in file order, what the lines of that directive say. */
  lemma {:induction false} ParsedColumn(lines: seq<Line>, rel: Relation, k: string)
    ensures k in ParseLines(lines).Column(rel) <==> Declares(lines, rel, k)
    ensures Get(ParseLines(lines).Column(rel), k) == Values(lines, rel, k)
  {
    if lines == [] {
      assert EMPTY.Column(rel) == map[];
    } else {
      var init, last := lines[..|lines| - 1], lines[|lines| - 1];
      InitAndLast(lines);
      ParsedColumn(init, rel, k);
      AddedColumn(ParseLines(init), last.says, rel, k);
    }
  }

  lemma {:induction false} ParsedTools(lines: seq<Line>, role: string, tree: string)
    ensures (role, tree) in ParseLines(lines).roleTools <==> HasTools(lines, role, tree)
    ensures Get(ParseLines(lines).roleTools, (role, tree)) == Tools(lines, role, tree)
  {
    if lines != [] {
      var init, last := lines[..|lines| - 1], lines[|lines| - 1];
      InitAndLast(lines);
      ParsedTools(init, role, tree);
      AddedRest(ParseLines(init), last.says);
    }
  }

  lemma {:induction false} ParsedTrees(lines: seq<Line>)
    ensures ParseLines(lines).trees == TreeLines(lines)
  {
    if lines != [] {
      ParsedTrees(lines[..|lines| - 1]);
      AddedRest(ParseLines(lines[..|lines| - 1]), lines[|lines| - 1].says);
    }
  }

  lemma {:induction false} ValuesSay(lines: seq<Line>, rel: Relation, k: string, x: string)
    ensures x in Values(lines, rel, k) <==> Says(lines, rel, k, x)
  {
    if lines != [] {
      InitAndLast(lines);
      ValuesSay(lines[..|lines| - 1], rel, k, x);
    }
  }

  /** A parsed column relates two names exactly when some line says so. */
  lemma ColumnSays(lines: seq<Line>)
    ensures forall rel, k, x {:trigger Says(lines, rel, k, x)} ::
              x in Get(ParseLines(lines).Column(rel), k) <==> Says(lines, rel, k, x)
  {
    forall rel, k, x
      ensures x in Get(ParseLines(lines).Column(rel), k) <==> Says(lines, rel, k, x)
    {
      ParsedColumn(lines, rel, k);
      ValuesSay(lines, rel, k, x);
    }
  }

  ghost predicate SaysRole(lines: seq<Line>, user: string, idpGroups: seq<string>, role: string) {
    Says(lines, Member, user, role) || exists g :: g in idpGroups && Says(lines, Group, g, role)
  }

  /** Exactly the roles that member and group lines give a caller. */
  lemma RolesSaid(lines: seq<Line>, user: string, idpGroups: seq<string>)
    ensures forall role :: role in ParseLines(lines).RolesFor(user, idpGroups) <==>
            SaysRole(lines, user, idpGroups, role)
  {
    ColumnSays(lines);
    var r := ParseLines(lines);
    assert r.members == r.Column(Member) && r.groups == r.Column(Group);
  }

  /** The same rights without any direct grant: what roles alone decide. */
  function Ungranted(r: Rights): Rights {
    r.(grants := map[])
  }

  /** Access, read off the lines: a direct grant, or a role that reaches the tree. */
  lemma MaySaid(lines: seq<Line>, user: string, idpGroups: seq<string>, tree: string)
    ensures ParseLines(lines).May(user, idpGroups, tree) <==>
            || Says(lines, Grant, user, tree)
            || exists role :: SaysRole(lines, user, idpGroups, role) && Says(lines, Role, role, tree)
    ensures Ungranted(ParseLines(lines)).May(user, idpGroups, tree) <==>
            exists role :: SaysRole(lines, user, idpGroups, role) && Says(lines, Role, role, tree)
  {
    ColumnSays(lines);
    RolesSaid(lines, user, idpGroups);
    var r := ParseLines(lines);
    assert r.grants == r.Column(Grant) && r.roles == r.Column(Role);
    assert Ungranted(r).RolesFor(user, idpGroups) == r.RolesFor(user, idpGroups);
  }

  ghost predicate SaysTool(lines: seq<Line>, role: string, tree: string, tool: string) {
    HasTools(lines, role, tree) ==> tool in Tools(lines, role, tree)
  }

  lemma MayToolSaid(lines: seq<Line>, user: string, idpGroups: seq<string>, tree: string, tool: string)
    ensures ParseLines(lines).MayTool(user, idpGroups, tree, tool) <==>
            || Says(lines, Grant, user, tree)
            || exists role :: SaysRole(lines, user, idpGroups, role) && Says(lines, Role, role, tree)
                              && SaysTool(lines, role, tree, tool)
    ensures Ungranted(ParseLines(lines)).MayTool(user, idpGroups, tree, tool) <==>
            exists role :: SaysRole(lines, user, idpGroups, role) && Says(lines, Role, role, tree)
                           && SaysTool(lines, role, tree, tool)
  {
    ColumnSays(lines);
    RolesSaid(lines, user, idpGroups);
    var r := ParseLines(lines);
    assert r.grants == r.Column(Grant) && r.roles == r.Column(Role);
    assert Ungranted(r).RolesFor(user, idpGroups) == r.RolesFor(user, idpGroups);
    forall role
      ensures r.ToolAllowed(role, tree, tool) <==> SaysTool(lines, role, tree, tool)
      ensures Ungranted(r).ToolAllowed(role, tree, tool) <==> SaysTool(lines, role, tree, tool)
    {
      ParsedTools(lines, role, tree);
    }
  }

  lemma WorkspacesSaid(lines: seq<Line>, tree: string)
    ensures forall w :: w in ParseLines(lines).WorkspacesOf(tree) <==> Says(lines, Workspace, w, tree)
  {
    ColumnSays(lines);
    var r := ParseLines(lines);
    assert r.workspaces == r.Column(Workspace);
  }

  lemma WorkspaceSays(lines: seq<Line>, w: string, tree: string)
    ensures tree in Get(ParseLines(lines).workspaces, w) <==> Says(lines, Workspace, w, tree)
  {
    ColumnSays(lines);
    var r := ParseLines(lines);
    assert r.workspaces == r.Column(Workspace);
  }

  ghost predicate SaysTenantTree(lines: seq<Line>, user: string, tree: string) {
    exists tenant :: Says(lines, TenantAdmin, user, tenant) && Says(lines, Tenant, tenant, tree)
  }

  lemma TenantTreesSaid(lines: seq<Line>, user: string)
    ensures forall t :: t in ParseLines(lines).TenantTrees(user) <==> SaysTenantTree(lines, user, t)
  {
    ColumnSays(lines);
    var r := ParseLines(lines);
    assert r.tenantAdmins == r.Column(TenantAdmin) && r.tenants == r.Column(Tenant);
    forall t
      ensures t in r.TenantTrees(user) <==> SaysTenantTree(lines, user, t)
    {
      if t in r.TenantTrees(user) {
        var tenant :| tenant in Get(r.tenantAdmins, user) && t in Get(r.tenants, tenant);
        assert Says(lines, TenantAdmin, user, tenant) && Says(lines, Tenant, tenant, t);
      }
      if SaysTenantTree(lines, user, t) {
        var tenant :| Says(lines, TenantAdmin, user, tenant) && Says(lines, Tenant, tenant, t);
        assert tenant in Get(r.tenantAdmins, user) && t in Get(r.tenants, tenant);
      }
    }
  }
}
