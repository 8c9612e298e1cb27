/** The check every proposed policy must pass, and what passing it guarantees. */
module Validate {
  import opened Identifier
  import opened Rights
  import opened Syntax
  import opened LensLaws

  datatype Problem =
    | BadTreeName
    | BadAddress
    | EmptyToken
    | NoTargets
    | InvalidWorkspace
    | InvalidPackage
    | InvalidTenant
    | Malformed
    | InvalidTool(tool: string)
    | UndefinedRole(role: string)
    | UndefinedTree(name: string)
    | UndefinedWorkspace(workspace: string)
    | UndefinedTenant(tenant: string)
    | DuplicateTree(name: string)

  datatype Finding = Finding(line: nat, problem: Problem)

  datatype Report = Report(
    treeCount: nat,
    userCount: nat,
    roleCount: nat,
    errors: seq<Finding>,
    warnings: seq<Finding>)

  function When(b: bool, p: Problem): seq<Problem> {
    if b then [p] else []
  }

  predicate Unversioned(packages: seq<string>) {
    exists p | p in packages :: '@' !in p
  }

  /** What is wrong with a line by itself. */
  function LineProblems(l: Line): seq<Problem> {
    match l.says
    case Ignored => When(!Skipped(l.raw), Malformed)
    case TreeDecl(t) =>
      When('/' in t.name || '\\' in t.name || HasDotDot(t.name), BadTreeName)
      + When(':' !in t.addr, BadAddress)
      + When(t.token == "", EmptyToken)
    case RoleTool(_, _, tools) => When(tools == [], NoTargets)
    case Entry(rel, key, values) => (
      match rel
      case Workspace => When(!IsValidIdentifier(key) || values == [], InvalidWorkspace)
      case WorkspacePackage => When(!IsValidIdentifier(key) || values == [] || Unversioned(values), InvalidPackage)
      case Tenant => When(!IsValidIdentifier(key) || values == [], InvalidTenant)
      case _ => When(values == [], NoTargets))
  }

  /** A line whose references are checked once the whole text is read. */
  predicate Declared(l: Line) {
    (l.says.Entry? || l.says.RoleTool?) && LineProblems(l) == []
  }

  predicate DeclaredAs(l: Line, rel: Relation) {
    Declared(l) && l.says.Entry? && l.says.relation == rel
  }

  function Keys(lines: seq<Line>, rel: Relation): set<string> {
    set l | l in lines && DeclaredAs(l, rel) :: l.says.key
  }

  function TreeNames(lines: seq<Line>): set<string> {
    set l | l in lines && l.says.TreeDecl? :: l.says.tree.name
  }

  /** The names a declared text offers to references. */
  datatype Offer = Offer(trees: set<string>, roles: set<string>, workspaces: set<string>, tenants: set<string>)

  function Offered(lines: seq<Line>): Offer {
    Offer(TreeNames(lines), Keys(lines, Role), Keys(lines, Workspace), Keys(lines, Tenant))
  }

  function Missing(rel: Relation, name: string): Problem {
    match rel
    case Member => UndefinedRole(name)
    case Group => UndefinedRole(name)
    case WorkspacePackage => UndefinedWorkspace(name)
    case TenantAdmin => UndefinedTenant(name)
    case _ => UndefinedTree(name)
  }

  function Known(rel: Relation, names: Offer): set<string> {
    match rel
    case Member => names.roles
    case Group => names.roles
    case WorkspacePackage => names.workspaces
    case TenantAdmin => names.tenants
    case _ => names.trees
  }

  function References(d: Directive): seq<string>
    requires d.Entry?
  {
    if d.relation == WorkspacePackage then [d.key] else d.values
  }

  function Undefined(rel: Relation, refs: seq<string>, known: set<string>): seq<Problem> {
    if refs == [] then []
    else Undefined(rel, refs[..|refs| - 1], known) + When(refs[|refs| - 1] !in known, Missing(rel, refs[|refs| - 1]))
  }

  function BadTools(tools: seq<string>): seq<Problem> {
    if tools == [] then []
    else BadTools(tools[..|tools| - 1]) + When(!IsValidIdentifier(tools[|tools| - 1]), InvalidTool(tools[|tools| - 1]))
  }

  function ReferenceProblems(l: Line, rel: Relation, names: Offer): seq<Problem> {
    if DeclaredAs(l, rel) then Undefined(rel, References(l.says), Known(rel, names)) else []
  }

  function ToolProblems(l: Line, names: Offer): seq<Problem> {
    if Declared(l) && l.says.RoleTool? then
      When(l.says.role !in names.roles, UndefinedRole(l.says.role))
      + When(l.says.toolTree !in names.trees, UndefinedTree(l.says.toolTree))
      + BadTools(l.says.tools)
    else []
  }

  function At(line: nat, problems: seq<Problem>): seq<Finding> {
    if problems == [] then [] else At(line, problems[..|problems| - 1]) + [Finding(line, problems[|problems| - 1])]
  }

  // ---- Passes over the lines; findings count lines from 1 ----

  function LineErrors(lines: seq<Line>): seq<Finding> {
    if lines == [] then []
    else LineErrors(lines[..|lines| - 1]) + At(|lines|, LineProblems(lines[|lines| - 1]))
  }

  function Duplicates(lines: seq<Line>): seq<Finding> {
    if lines == [] then []
    else
      var init, d := lines[..|lines| - 1], lines[|lines| - 1].says;
      Duplicates(init)
      + if d.TreeDecl? && d.tree.name in TreeNames(init) then [Finding(|lines|, DuplicateTree(d.tree.name))] else []
  }

  function ReferenceErrors(lines: seq<Line>, rel: Relation, names: Offer): seq<Finding> {
    if lines == [] then []
    else
      ReferenceErrors(lines[..|lines| - 1], rel, names) + At(|lines|, ReferenceProblems(lines[|lines| - 1], rel, names))
  }

  function ToolErrors(lines: seq<Line>, names: Offer): seq<Finding> {
    if lines == [] then []
    else ToolErrors(lines[..|lines| - 1], names) + At(|lines|, ToolProblems(lines[|lines| - 1], names))
  }

  function Errors(lines: seq<Line>): seq<Finding> {
    var names := Offered(lines);
    LineErrors(lines)
    + ReferenceErrors(lines, Member, names)
    + ToolErrors(lines, names)
    + ReferenceErrors(lines, Workspace, names)
    + ReferenceErrors(lines, WorkspacePackage, names)
    + ReferenceErrors(lines, Group, names)
    + ReferenceErrors(lines, Tenant, names)
    + ReferenceErrors(lines, TenantAdmin, names)
  }

  function Warnings(lines: seq<Line>): seq<Finding> {
    var names := Offered(lines);
    Duplicates(lines) + ReferenceErrors(lines, Grant, names) + ReferenceErrors(lines, Role, names)
  }

  function Users(lines: seq<Line>): set<string> {
    Keys(lines, Grant) + Keys(lines, Member) + Keys(lines, TenantAdmin)
  }

  function ReportOf(lines: seq<Line>): Report {
    Report(|TreeNames(lines)|, |Users(lines)|, |Keys(lines, Role)|, Errors(lines), Warnings(lines))
  }

  predicate IsValid(text: string) {
    Errors(Tokens(text)) == []
  }

  // ---- The check as the service runs it ----

  function With(names: Offer, l: Line): Offer {
    if l.says.TreeDecl? then names.(trees := names.trees + {l.says.tree.name})
    else if DeclaredAs(l, Role) then names.(roles := names.roles + {l.says.key})
    else if DeclaredAs(l, Workspace) then names.(workspaces := names.workspaces + {l.says.key})
    else if DeclaredAs(l, Tenant) then names.(tenants := names.tenants + {l.says.key})
    else names
  }

  lemma NextKey(init: seq<Line>, last: Line, rel: Relation)
    ensures Keys(init + [last], rel) == Keys(init, rel) + if DeclaredAs(last, rel) then {last.says.key} else {}
  {
  }

  lemma NextTree(init: seq<Line>, last: Line)
    ensures TreeNames(init + [last]) == TreeNames(init) + if last.says.TreeDecl? then {last.says.tree.name} else {}
  {
  }

  lemma NextOffer(init: seq<Line>, last: Line)
    ensures Offered(init + [last]) == With(Offered(init), last)
  {
    NextTree(init, last);
    NextKey(init, last, Role);
    NextKey(init, last, Workspace);
    NextKey(init, last, Tenant);
  }

  lemma NextUsers(init: seq<Line>, last: Line)
    ensures Users(init + [last]) == Users(init) + if IsUserLine(last) then {last.says.key} else {}
  {
    NextKey(init, last, Grant);
    NextKey(init, last, Member);
    NextKey(init, last, TenantAdmin);
  }

  predicate IsUserLine(l: Line) {
    DeclaredAs(l, Grant) || DeclaredAs(l, Member) || DeclaredAs(l, TenantAdmin)
  }

  method CheckReferences(lines: seq<Line>, rel: Relation, names: Offer) returns (out: seq<Finding>)
    ensures out == ReferenceErrors(lines, rel, names)
  {
    out := [];
    for i := 0 to |lines|
      invariant out == ReferenceErrors(lines[..i], rel, names)
    {
      assert lines[..i + 1][..i] == lines[..i];
      out := out + At(i + 1, ReferenceProblems(lines[i], rel, names));
    }
    assert lines[..|lines|] == lines;
  }

  method CheckTools(lines: seq<Line>, names: Offer) returns (out: seq<Finding>)
    ensures out == ToolErrors(lines, names)
  {
    out := [];
    for i := 0 to |lines|
      invariant out == ToolErrors(lines[..i], names)
    {
      assert lines[..i + 1][..i] == lines[..i];
      out := out + At(i + 1, ToolProblems(lines[i], names));
    }
    assert lines[..|lines|] == lines;
  }

  lemma NothingCollected()
    ensures LineErrors([]) == [] && Duplicates([]) == [] && Offered([]) == Offer({}, {}, {}, {}) && Users([]) == {}
  {
  }

  lemma NextFindings(init: seq<Line>, last: Line)
    ensures LineErrors(init + [last]) == LineErrors(init) + At(|init| + 1, LineProblems(last))
    ensures Duplicates(init + [last]) ==
            Duplicates(init) + if last.says.TreeDecl? && last.says.tree.name in Offered(init).trees
                               then [Finding(|init| + 1, DuplicateTree(last.says.tree.name))] else []
  {
    hide LineProblems, TreeNames, Keys;
    assert (init + [last])[..|init|] == init;
  }

  /** The first pass: line errors, duplicate trees, and the names that later references may use. */
  method Collect(lines: seq<Line>)
    returns (errors: seq<Finding>, warnings: seq<Finding>, names: Offer, users: set<string>)
    ensures errors == LineErrors(lines) && warnings == Duplicates(lines)
    ensures names == Offered(lines) && users == Users(lines)
  {
    hide LineErrors, Duplicates, Offered, Users, LineProblems, TreeNames, Keys, At, With;
    errors, warnings := [], [];
    names, users := Offer({}, {}, {}, {}), {};
    NothingCollected();
    for i := 0 to |lines|
      invariant errors == LineErrors(lines[..i]) && warnings == Duplicates(lines[..i])
      invariant names == Offered(lines[..i]) && users == Users(lines[..i])
    {
      var l := lines[i];
      var before := lines[..i];
      assert lines[..i + 1] == before + [l] && (before + [l])[..i] == before;
      NextFindings(before, l);
      NextOffer(before, l);
      NextUsers(before, l);
      errors := errors + At(i + 1, LineProblems(l));
      if l.says.TreeDecl? && l.says.tree.name in names.trees {
        warnings := warnings + [Finding(i + 1, DuplicateTree(l.says.tree.name))];
      }
      names := With(names, l);
      users := users + if IsUserLine(l) then {l.says.key} else {};
    }
    assert lines[..|lines|] == lines;
  }

  /** One pass collects names and line errors, then each directive's references are checked in turn. */
  method ValidateText(text: string) returns (report: Report)
    ensures report == ReportOf(Tokens(text))
  {
    var lines := Tokens(text);
    var errors, warnings, names, users := Collect(lines);
    var grants := CheckReferences(lines, Grant, names);
    var roleTrees := CheckReferences(lines, Role, names);
    var members := CheckReferences(lines, Member, names);
    var tools := CheckTools(lines, names);
    var workspaceTrees := CheckReferences(lines, Workspace, names);
    var packages := CheckReferences(lines, WorkspacePackage, names);
    var groups := CheckReferences(lines, Group, names);
    var tenantTrees := CheckReferences(lines, Tenant, names);
    var admins := CheckReferences(lines, TenantAdmin, names);
    report := Report(|names.trees|, |users|, |names.roles|,
                     errors + members + tools + workspaceTrees + packages + groups + tenantTrees + admins,
                     warnings + grants + roleTrees);
  }

  // ---- What an error-free text guarantees ----

  /** The relations whose dangling references are errors, not warnings. */
  predicate Strict(rel: Relation) {
    rel != Grant && rel != Role
  }

  ghost predicate LineFine(l: Line, lines: seq<Line>) {
    && LineProblems(l) == []
    && (l.says.Entry? && Strict(l.says.relation) ==>
          forall x :: x in References(l.says) ==> x in Known(l.says.relation, Offered(lines)))
    && (l.says.RoleTool? ==>
          && l.says.role in Keys(lines, Role) && l.says.toolTree in TreeNames(lines)
          && forall tool :: tool in l.says.tools ==> IsValidIdentifier(tool))
  }

  lemma AtNone(line: nat, problems: seq<Problem>)
    ensures At(line, problems) == [] <==> problems == []
  {
  }

  lemma {:induction false} UndefinedNone(rel: Relation, refs: seq<string>, known: set<string>)
    ensures Undefined(rel, refs, known) == [] <==> forall x :: x in refs ==> x in known
  {
    if refs != [] {
      UndefinedNone(rel, refs[..|refs| - 1], known);
      assert refs == refs[..|refs| - 1] + [refs[|refs| - 1]];
    }
  }

  lemma {:induction false} BadToolsNone(tools: seq<string>)
    ensures BadTools(tools) == [] <==> forall x :: x in tools ==> IsValidIdentifier(x)
  {
    if tools != [] {
      BadToolsNone(tools[..|tools| - 1]);
      assert tools == tools[..|tools| - 1] + [tools[|tools| - 1]];
    }
  }

  lemma {:induction false} LineErrorsNone(lines: seq<Line>)
    ensures LineErrors(lines) == [] <==> forall l :: l in lines ==> LineProblems(l) == []
  {
    if lines != [] {
      InitAndLast(lines);
      LineErrorsNone(lines[..|lines| - 1]);
      AtNone(|lines|, LineProblems(lines[|lines| - 1]));
    }
  }

  lemma {:induction false} ReferenceErrorsNone(lines: seq<Line>, rel: Relation, names: Offer)
    ensures ReferenceErrors(lines, rel, names) == [] <==>
            forall l :: l in lines ==> ReferenceProblems(l, rel, names) == []
  {
    if lines != [] {
      InitAndLast(lines);
      ReferenceErrorsNone(lines[..|lines| - 1], rel, names);
      AtNone(|lines|, ReferenceProblems(lines[|lines| - 1], rel, names));
    }
  }

  lemma {:induction false} ToolErrorsNone(lines: seq<Line>, names: Offer)
    ensures ToolErrors(lines, names) == [] <==> forall l :: l in lines ==> ToolProblems(l, names) == []
  {
    if lines != [] {
      InitAndLast(lines);
      ToolErrorsNone(lines[..|lines| - 1], names);
      AtNone(|lines|, ToolProblems(lines[|lines| - 1], names));
    }
  }

  lemma LineFineIff(l: Line, lines: seq<Line>)
    requires LineProblems(l) == []
    ensures LineFine(l, lines) <==>
            && (forall rel :: Strict(rel) ==> ReferenceProblems(l, rel, Offered(lines)) == [])
            && ToolProblems(l, Offered(lines)) == []
  {
    var names := Offered(lines);
    if l.says.Entry? {
      var rel := l.says.relation;
      UndefinedNone(rel, References(l.says), Known(rel, names));
      if Strict(rel) {
        assert LineFine(l, lines) <==> ReferenceProblems(l, rel, names) == [];
      }
    } else if l.says.RoleTool? {
      BadToolsNone(l.says.tools);
    }
  }

  lemma ErrorsNone(lines: seq<Line>)
    ensures Errors(lines) == [] <==>
            && LineErrors(lines) == []
            && ToolErrors(lines, Offered(lines)) == []
            && forall rel :: Strict(rel) ==> ReferenceErrors(lines, rel, Offered(lines)) == []
  {
    var names := Offered(lines);
    assert Strict(Member) && Strict(Group) && Strict(Workspace) &&
           Strict(WorkspacePackage) && Strict(Tenant) && Strict(TenantAdmin);
    if Errors(lines) == [] {
      forall rel | Strict(rel) ensures ReferenceErrors(lines, rel, names) == [] {
        match rel {
          case Member =>
          case Group =>
          case Workspace =>
          case WorkspacePackage =>
          case Tenant =>
          case TenantAdmin =>
        }
      }
    }
  }

  /** A text has no errors exactly when every line of it is fine on its own and in its references. */
  lemma ValidIff(lines: seq<Line>)
    ensures Errors(lines) == [] <==> forall l :: l in lines ==> LineFine(l, lines)
  {
    var names := Offered(lines);
    ErrorsNone(lines);
    LineErrorsNone(lines);
    ToolErrorsNone(lines, names);
    forall rel
      ensures ReferenceErrors(lines, rel, names) == [] <==>
              forall l :: l in lines ==> ReferenceProblems(l, rel, names) == []
    {
      ReferenceErrorsNone(lines, rel, names);
    }
    forall l | l in lines && LineProblems(l) == []
      ensures LineFine(l, lines) <==>
              && (forall rel :: Strict(rel) ==> ReferenceProblems(l, rel, names) == [])
              && ToolProblems(l, names) == []
    {
      LineFineIff(l, lines);
    }
  }

  lemma KeySays(lines: seq<Line>, rel: Relation, k: string)
    requires k in Keys(lines, rel) && rel != WorkspacePackage
    ensures exists x :: Says(lines, rel, k, x)
  {
    var l :| l in lines && DeclaredAs(l, rel) && l.says.key == k;
    assert l.says.values != [];
    assert Holds(l.says, rel, k, l.says.values[0]);
    assert Says(lines, rel, k, l.says.values[0]);
  }

  /** A valid text's role and workspace references resolve, so the lens laws hold of it. */
  lemma ValidIsWellReferenced(lines: seq<Line>)
    requires Errors(lines) == []
    ensures WellReferenced(lines)
  {
    ValidIff(lines);
    forall l | l in lines ensures Referenced(l.says, lines) {
      assert LineFine(l, lines);
      forall rel, k, role | (rel == Member || rel == Group) && Holds(l.says, rel, k, role)
        ensures exists t :: Says(lines, Role, role, t)
      {
        assert role in References(l.says);
        KeySays(lines, Role, role);
      }
      forall w | Names(l.says, WorkspacePackage, w)
        ensures exists t :: Says(lines, Workspace, w, t)
      {
        assert w in References(l.says);
        KeySays(lines, Workspace, w);
      }
    }
  }

  lemma {:induction false} FirstTreeFound(trees: seq<Tree>, name: string)
    ensures FirstTree(trees, name).Some? <==> exists t :: t in trees && t.name == name
  {
    if trees != [] {
      FirstTreeFound(trees[1..], name);
      assert trees == [trees[0]] + trees[1..];
    }
  }

  lemma {:induction false} TreeLinesNamed(lines: seq<Line>, name: string)
    ensures name in TreeNames(lines) <==> exists t :: t in TreeLines(lines) && t.name == name
  {
    if lines != [] {
      var init, last := lines[..|lines| - 1], lines[|lines| - 1];
      InitAndLast(lines);
      TreeLinesNamed(init, name);
      assert TreeNames(lines) == TreeNames(init) + if last.says.TreeDecl? then {last.says.tree.name} else {};
      var tail := if last.says.TreeDecl? then [last.says.tree] else [];
      assert forall t :: t in TreeLines(init) + tail <==> t in TreeLines(init) || t in tail;
    }
  }

  lemma NamedTreeFound(lines: seq<Line>, name: string)
    requires name in TreeNames(lines)
    ensures ParseLines(lines).FindTree(name).Some?
  {
    TreeLinesNamed(lines, name);
    ParsedTrees(lines);
    FirstTreeFound(ParseLines(lines).trees, name);
  }

  lemma FineLine(l: Line, lines: seq<Line>)
    requires Errors(lines) == [] && l in lines
    ensures LineFine(l, lines)
  {
    ValidIff(lines);
  }

  lemma ReferenceNamed(l: Line, lines: seq<Line>, rel: Relation, k: string, t: string)
    requires LineFine(l, lines) && (rel == Workspace || rel == Tenant) && Holds(l.says, rel, k, t)
    ensures t in TreeNames(lines)
  {
    assert t in References(l.says) && t in Known(rel, Offered(lines));
  }

  lemma SaidTreeFound(lines: seq<Line>, rel: Relation, k: string, t: string)
    requires Errors(lines) == [] && (rel == Workspace || rel == Tenant)
    requires Says(lines, rel, k, t)
    ensures ParseLines(lines).FindTree(t).Some?
  {
    var l :| l in lines && Holds(l.says, rel, k, t);
    assert t in TreeNames(lines) by {
      FineLine(l, lines);
      ReferenceNamed(l, lines, rel, k, t);
    }
    NamedTreeFound(lines, t);
  }

  /** A tree that a workspace or tenant line names is served. */
  lemma NamedByLine(lines: seq<Line>, rel: Relation, k: string, t: string)
    requires Errors(lines) == [] && (rel == Workspace || rel == Tenant)
    requires t in Get(ParseLines(lines).Column(rel), k)
    ensures ParseLines(lines).FindTree(t).Some?
  {
    ParsedColumn(lines, rel, k);
    ValuesSay(lines, rel, k, t);
    SaidTreeFound(lines, rel, k, t);
  }

  lemma ToolLineNames(l: Line, lines: seq<Line>)
    requires LineFine(l, lines) && l.says.RoleTool?
    ensures l.says.role in Keys(lines, Role) && l.says.toolTree in TreeNames(lines)
  {
    hide LineProblems, Keys, TreeNames;
  }

  lemma DeclaresKey(lines: seq<Line>, k: string, x: string)
    requires Says(lines, Role, k, x)
    ensures k in ParseLines(lines).roles
  {
    ColumnSays(lines);
    assert ParseLines(lines).roles == ParseLines(lines).Column(Role);
  }

  /** A role-tool line restricts a role and a tree that both exist. */
  lemma ToolLineServed(lines: seq<Line>, role: string, t: string)
    requires Errors(lines) == [] && (role, t) in ParseLines(lines).roleTools
    ensures role in ParseLines(lines).roles && ParseLines(lines).FindTree(t).Some?
  {
    hide Errors, ParseLines, LineFine, Says, Keys, TreeNames, Tools;
    ParsedTools(lines, role, t);
    var l :| l in lines && l.says.RoleTool? && l.says.role == role && l.says.toolTree == t;
    FineLine(l, lines);
    ToolLineNames(l, lines);
    NamedTreeFound(lines, t);
    KeySays(lines, Role, role);
    var x :| Says(lines, Role, role, x);
    DeclaresKey(lines, role, x);
  }

  /** A valid text loses nothing in parsing: every line that is not blank or a comment is a directive. */
  lemma NoDirectiveLost(lines: seq<Line>, l: Line)
    requires Errors(lines) == [] && l in lines && !Skipped(l.raw)
    ensures l.says != Ignored
  {
    FineLine(l, lines);
  }

  /** Every workspace of a valid text that a caller sees has all its trees to call: the lookup the
      cross-repository review relies on cannot fail. */
  lemma VisibleTreesAreServed(lines: seq<Line>, user: string, idpGroups: seq<string>, w: string, t: string)
    requires Errors(lines) == []
    requires w in ParseLines(lines).VisibleWorkspaces(user, idpGroups)
    requires t in ParseLines(lines).VisibleWorkspaces(user, idpGroups)[w]
    ensures ParseLines(lines).FindTree(t).Some? && ParseLines(lines).May(user, idpGroups, t)
  {
    hide Errors, ParseLines;
    var rights := ParseLines(lines);
    assert t in rights.workspaces[w] && rights.May(user, idpGroups, t);
    assert rights.workspaces == rights.Column(Workspace);
    NamedByLine(lines, Workspace, w, t);
  }

  lemma RoleReferenceSays(lines: seq<Line>, rel: Relation, k: string, role: string)
    requires Errors(lines) == [] && (rel == Member || rel == Group) && Says(lines, rel, k, role)
    ensures exists t :: Says(lines, Role, role, t)
  {
    hide Errors;
    ValidIsWellReferenced(lines);
    var l :| l in lines && Holds(l.says, rel, k, role);
    assert Referenced(l.says, lines);
  }

  lemma TenantReferenceSays(lines: seq<Line>, user: string, tenant: string)
    requires Errors(lines) == [] && Says(lines, TenantAdmin, user, tenant)
    ensures exists t :: Says(lines, Tenant, tenant, t)
  {
    hide Errors, Keys, LineProblems;
    var l :| l in lines && Holds(l.says, TenantAdmin, user, tenant);
    FineLine(l, lines);
    assert tenant in References(l.says);
    KeySays(lines, Tenant, tenant);
  }

  lemma PackageReferenceSays(lines: seq<Line>, w: string)
    requires Errors(lines) == [] && Declares(lines, WorkspacePackage, w)
    ensures exists t :: Says(lines, Workspace, w, t)
  {
    hide Errors;
    ValidIsWellReferenced(lines);
    var l :| l in lines && Names(l.says, WorkspacePackage, w);
    assert Referenced(l.says, lines);
  }

  lemma SaidIsListed(lines: seq<Line>, rel: Relation, k: string)
    ensures (exists x :: Says(lines, rel, k, x)) ==>
              k in ParseLines(lines).Column(rel) && ParseLines(lines).Column(rel)[k] != []
  {
    hide ParseLines, Says;
    ColumnSays(lines);
    if x :| Says(lines, rel, k, x) {
      assert x in Get(ParseLines(lines).Column(rel), k);
    }
  }

  /** In a valid text whatever a member, group, tenant-admin or workspace-package line refers to exists
      in the parsed rights, and has trees. */
  lemma ReferencesExist(lines: seq<Line>, k: string, x: string)
    requires Errors(lines) == []
    ensures var r := ParseLines(lines);
            && (x in Get(r.members, k) ==> x in r.roles && r.roles[x] != [])
            && (x in Get(r.groups, k) ==> x in r.roles && r.roles[x] != [])
            && (x in Get(r.tenantAdmins, k) ==> x in r.tenants && r.tenants[x] != [])
            && (k in r.packages ==> k in r.workspaces && r.workspaces[k] != [])
  {
    hide Errors, ParseLines, Says, Declares;
    var r := ParseLines(lines);
    ColumnSays(lines);
    assert r.members == r.Column(Member) && r.groups == r.Column(Group) && r.tenantAdmins == r.Column(TenantAdmin);
    assert r.roles == r.Column(Role) && r.tenants == r.Column(Tenant) && r.workspaces == r.Column(Workspace);
    assert r.packages == r.Column(WorkspacePackage);
    SaidIsListed(lines, Role, x);
    SaidIsListed(lines, Tenant, x);
    SaidIsListed(lines, Workspace, k);
    if x in Get(r.members, k) {
      RoleReferenceSays(lines, Member, k, x);
    }
    if x in Get(r.groups, k) {
      RoleReferenceSays(lines, Group, k, x);
    }
    if x in Get(r.tenantAdmins, k) {
      TenantReferenceSays(lines, k, x);
    }
    if k in r.packages {
      ParsedColumn(lines, WorkspacePackage, k);
      PackageReferenceSays(lines, k);
    }
  }
}
