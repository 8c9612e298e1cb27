/** The same rights seen from inside a set of trees, as an access review shows them. */
module Restrict {
  import opened Rights

  function Only(list: seq<string>, allowed: set<string>): seq<string> {
    if list == [] then []
    else if list[0] in allowed then [list[0]] + Only(list[1..], allowed)
    else Only(list[1..], allowed)
  }

  /** A column cut down to the allowed entries; keys left with none disappear. */
  function CutColumn(c: Column, allowed: set<string>): Column {
    map k | k in c && Only(c[k], allowed) != [] :: Only(c[k], allowed)
  }

  function OnlyTrees(trees: seq<Tree>, allowed: set<string>): seq<Tree> {
    if trees == [] then []
    else if trees[0].name in allowed then [trees[0]] + OnlyTrees(trees[1..], allowed)
    else OnlyTrees(trees[1..], allowed)
  }

  predicate WhollyIn(list: seq<string>, allowed: set<string>) {
    list != [] && forall x | x in list :: x in allowed
  }

  function RestrictedTo(r: Rights, trees: set<string>): Rights {
    var roles := CutColumn(r.roles, trees);
    Rights(
      OnlyTrees(r.trees, trees),
      CutColumn(r.grants, trees),
      roles,
      CutColumn(r.members, roles.Keys),
      CutColumn(r.groups, roles.Keys),
      map w | w in r.workspaces && WhollyIn(r.workspaces[w], trees) :: r.workspaces[w],
      map[],
      map[],
      map[],
      map k | k in r.roleTools && k.0 in roles && k.1 in trees :: r.roleTools[k])
  }

  lemma {:induction false} OnlyIn(list: seq<string>, allowed: set<string>)
    ensures forall x :: x in Only(list, allowed) <==> x in list && x in allowed
  {
    if list != [] {
      OnlyIn(list[1..], allowed);
      assert list == [list[0]] + list[1..];
    }
  }

  lemma CutIn(c: Column, allowed: set<string>)
    ensures forall k, x :: x in Get(CutColumn(c, allowed), k) <==> x in Get(c, k) && x in allowed
    ensures forall k :: k in CutColumn(c, allowed) <==> exists x :: x in Get(c, k) && x in allowed
  {
    forall k, x
      ensures x in Get(CutColumn(c, allowed), k) <==> x in Get(c, k) && x in allowed
    {
      if k in c {
        OnlyIn(c[k], allowed);
      }
    }
    forall k
      ensures k in CutColumn(c, allowed) <==> exists x :: x in Get(c, k) && x in allowed
    {
      if k in c {
        OnlyIn(c[k], allowed);
        var kept := Only(c[k], allowed);
        assert kept != [] ==> kept[0] in kept;
      }
    }
  }

  lemma {:induction false} FirstOfOnly(trees: seq<Tree>, allowed: set<string>, name: string)
    ensures FirstTree(OnlyTrees(trees, allowed), name) == if name in allowed then FirstTree(trees, name) else None
  {
    if trees != [] {
      FirstOfOnly(trees[1..], allowed, name);
    }
  }

  lemma HasRole(r: Rights, user: string, idpGroups: seq<string>, role: string)
    ensures role in r.RolesFor(user, idpGroups) <==>
            role in Get(r.members, user) || exists g :: g in idpGroups && role in Get(r.groups, g)
  {
    hide Get;
  }

  lemma RestrictedParts(r: Rights, trees: set<string>)
    ensures var q, roles := RestrictedTo(r, trees), CutColumn(r.roles, trees);
            && q.roles == roles && q.grants == CutColumn(r.grants, trees)
            && q.members == CutColumn(r.members, roles.Keys) && q.groups == CutColumn(r.groups, roles.Keys)
            && q.roleTools == map k | k in r.roleTools && k.0 in roles && k.1 in trees :: r.roleTools[k]
  {
    hide CutColumn;
  }

  /** Roles that reach nothing in `trees` are gone; the others are held by the same callers. */
  lemma RestrictedRoles(r: Rights, trees: set<string>, user: string, idpGroups: seq<string>)
    ensures forall role :: role in RestrictedTo(r, trees).RolesFor(user, idpGroups) <==>
                           role in r.RolesFor(user, idpGroups) && role in RestrictedTo(r, trees).roles
  {
    hide *;
    var q := RestrictedTo(r, trees);
    RestrictedParts(r, trees);
    CutIn(r.members, q.roles.Keys);
    CutIn(r.groups, q.roles.Keys);
    forall role
      ensures role in q.RolesFor(user, idpGroups) <==> role in r.RolesFor(user, idpGroups) && role in q.roles
    {
      HasRole(r, user, idpGroups, role);
      HasRole(q, user, idpGroups, role);
      assert role in Get(q.members, user) <==> role in Get(r.members, user) && role in q.roles;
      assert forall g :: role in Get(q.groups, g) <==> role in Get(r.groups, g) && role in q.roles;
    }
  }

  /** Inside `trees` the restricted rights decide exactly as the full ones; outside they refuse. */
  lemma RestrictedMay(r: Rights, trees: set<string>, user: string, idpGroups: seq<string>, t: string)
    ensures RestrictedTo(r, trees).May(user, idpGroups, t) <==> t in trees && r.May(user, idpGroups, t)
  {
    var q := RestrictedTo(r, trees);
    RestrictedRoles(r, trees, user, idpGroups);
    CutIn(r.grants, trees);
    CutIn(r.roles, trees);
    if t in trees && exists role | role in r.RolesFor(user, idpGroups) :: t in Get(r.roles, role) {
      var role :| role in r.RolesFor(user, idpGroups) && t in Get(r.roles, role);
      assert t in Get(q.roles, role) && role in q.RolesFor(user, idpGroups);
    }
  }

  lemma RestrictedTool(r: Rights, trees: set<string>, role: string, t: string, tool: string)
    requires t in trees && t in Get(r.roles, role)
    ensures RestrictedTo(r, trees).ToolAllowed(role, t, tool) <==> r.ToolAllowed(role, t, tool)
  {
    CutIn(r.roles, trees);
  }

  /** The same for a tool on a tree: allowlists are neither lost nor widened. */
  lemma RestrictedMayTool(r: Rights, trees: set<string>, user: string, idpGroups: seq<string>, t: string, tool: string)
    ensures RestrictedTo(r, trees).MayTool(user, idpGroups, t, tool) <==>
            t in trees && r.MayTool(user, idpGroups, t, tool)
  {
    var q := RestrictedTo(r, trees);
    RestrictedRoles(r, trees, user, idpGroups);
    CutIn(r.grants, trees);
    CutIn(r.roles, trees);
    forall role
      ensures role in q.RolesFor(user, idpGroups) && t in Get(q.roles, role) && q.ToolAllowed(role, t, tool) <==>
              && t in trees && role in r.RolesFor(user, idpGroups)
              && t in Get(r.roles, role) && r.ToolAllowed(role, t, tool)
    {
      if t in trees && t in Get(r.roles, role) {
        RestrictedTool(r, trees, role, t, tool);
      }
    }
  }

  lemma RestrictedTree(r: Rights, trees: set<string>, name: string)
    ensures RestrictedTo(r, trees).FindTree(name) == if name in trees then r.FindTree(name) else None
  {
    FirstOfOnly(r.trees, trees, name);
  }

  /** Of the workspaces a caller sees, those lying wholly in `trees` remain. */
  lemma RestrictedWorkspaces(r: Rights, trees: set<string>, user: string, idpGroups: seq<string>)
    ensures RestrictedTo(r, trees).VisibleWorkspaces(user, idpGroups) ==
            map w | w in r.VisibleWorkspaces(user, idpGroups) && WhollyIn(r.workspaces[w], trees) :: r.workspaces[w]
  {
    forall t ensures RestrictedTo(r, trees).May(user, idpGroups, t) <==> t in trees && r.May(user, idpGroups, t) {
      RestrictedMay(r, trees, user, idpGroups, t);
    }
  }

  lemma {:induction false} OnlyOnly(list: seq<string>, a: set<string>, b: set<string>)
    ensures Only(Only(list, a), b) == Only(list, a * b)
  {
    if list != [] {
      OnlyOnly(list[1..], a, b);
    }
  }

  lemma {:induction false} OnlyTreesTwice(trees: seq<Tree>, a: set<string>, b: set<string>)
    ensures OnlyTrees(OnlyTrees(trees, a), b) == OnlyTrees(trees, a * b)
  {
    if trees != [] {
      OnlyTreesTwice(trees[1..], a, b);
    }
  }

  lemma CutTwice(c: Column, a: set<string>, b: set<string>)
    ensures CutColumn(CutColumn(c, a), b) == CutColumn(c, a * b)
  {
    forall k | k in c ensures Only(Only(c[k], a), b) == Only(c[k], a * b) {
      OnlyOnly(c[k], a, b);
    }
  }

  lemma WorkspacesTwice(r: Rights, a: set<string>, b: set<string>)
    ensures RestrictedTo(RestrictedTo(r, a), b).workspaces == RestrictedTo(r, a * b).workspaces
  {
    var x, y := RestrictedTo(RestrictedTo(r, a), b).workspaces, RestrictedTo(r, a * b).workspaces;
    forall w ensures w in x <==> w in y {
      if w in r.workspaces {
        assert WhollyIn(r.workspaces[w], a) && WhollyIn(r.workspaces[w], b) <==> WhollyIn(r.workspaces[w], a * b);
      }
    }
  }

  lemma ToolsTwice(r: Rights, a: set<string>, b: set<string>)
    ensures RestrictedTo(RestrictedTo(r, a), b).roleTools == RestrictedTo(r, a * b).roleTools
  {
    hide *;
    RestrictedParts(r, a);
    RestrictedParts(RestrictedTo(r, a), b);
    RestrictedParts(r, a * b);
    CutTwice(r.roles, a, b);
    CutIn(r.roles, a);
    CutIn(r.roles, a * b);
  }

  lemma HoldersTwice(r: Rights, a: set<string>, b: set<string>, c: Column)
    ensures CutColumn(CutColumn(c, CutColumn(r.roles, a).Keys), CutColumn(r.roles, a * b).Keys)
            == CutColumn(c, CutColumn(r.roles, a * b).Keys)
  {
    var first, both := CutColumn(r.roles, a), CutColumn(r.roles, a * b);
    CutIn(r.roles, a);
    CutIn(r.roles, a * b);
    CutTwice(c, first.Keys, both.Keys);
    assert first.Keys * both.Keys == both.Keys;
  }

  /** Restricting twice is restricting once, to the trees in both: the whole record is the same. */
  lemma RestrictTwice(r: Rights, a: set<string>, b: set<string>)
    ensures RestrictedTo(RestrictedTo(r, a), b) == RestrictedTo(r, a * b)
  {
    CutTwice(r.roles, a, b);
    CutTwice(r.grants, a, b);
    HoldersTwice(r, a, b, r.members);
    HoldersTwice(r, a, b, r.groups);
    OnlyTreesTwice(r.trees, a, b);
    WorkspacesTwice(r, a, b);
    ToolsTwice(r, a, b);
  }
}
