/** A reconciliation with the code hosts: one all-or-nothing batch of tree settings. */
module Reconcile {
  import opened Identifier
  import opened StringOrder
  import opened Rights
  import opened Syntax
  import opened Validate
  import opened Mirror
  import opened MirrorLaws
  import opened MirrorBatch
  import opened MirrorValid

  /** Applies a batch, or nothing of it when one name in it is not an identifier. */
  method ApplyActions(content: string, actions: seq<Action>) returns (r: Option<string>)
    ensures r == if forall a :: a in actions ==> ActionNamed(a) then Some(BatchText(content, actions)) else None
  {
    for i := 0 to |actions|
      invariant forall a :: a in actions[..i] ==> ActionNamed(a)
    {
      if !ActionNamed(actions[i]) {
        return None;
      }
      assert actions[..i + 1] == actions[..i] + [actions[i]];
    }
    assert actions[..|actions|] == actions;
    var current := Fold(content, actions);
    r := Some(current);
  }

  method Fold(content: string, actions: seq<Action>) returns (current: string)
    ensures current == BatchText(content, actions)
  {
    current := content;
    for i := 0 to |actions|
      invariant current == BatchText(content, actions[..i])
    {
      assert actions[..i + 1][..i] == actions[..i];
      current := Mutate(current, actions[i]);
    }
    assert actions[..|actions|] == actions;
  }

  /** The users each tree must end up with: everyone who is a member of some source mapped to it. */
  ghost predicate Demands(desired: Grants, mapping: map<string, string>, fetched: map<string, set<string>>)
    requires mapping.Keys <= fetched.Keys
  {
    && (forall tree :: tree in desired <==> exists s :: s in mapping && mapping[s] == tree)
    && (forall tree, u ::
          u in Has(desired, tree) <==> exists s :: s in mapping && mapping[s] == tree && u in fetched[s])
  }

  ghost function UsersFor(g: Grants, tree: string): seq<string> {
    Sorted(Has(g, tree))
  }

  /** The batch, written down in ascending order. */
  ghost function Settings(trees: seq<string>, desired: Grants): seq<Action> {
    if trees == [] then []
    else Settings(trees[..|trees| - 1], desired) + [SetTree(trees[|trees| - 1], UsersFor(desired, trees[|trees| - 1]))]
  }

  ghost function Canonical(desired: Grants): seq<Action> {
    Settings(Sorted(desired.Keys), desired)
  }

  /** A batch that sets each demanded tree once, to its users. */
  ghost predicate Realizes(actions: seq<Action>, desired: Grants) {
    && Setting(actions)
    && (forall a :: a in actions ==> a.tree in desired && forall u :: u in a.users <==> u in desired[a.tree])
    && (forall tree :: tree in desired ==> Listed(actions, tree))
    && |actions| == |desired|
  }

  lemma {:induction false} SettingsRealize(trees: seq<string>, desired: Grants)
    requires StrictlySorted(trees) && forall t :: t in trees ==> t in desired
    ensures |Settings(trees, desired)| == |trees|
    ensures forall i :: 0 <= i < |trees| ==>
            Settings(trees, desired)[i] == SetTree(trees[i], UsersFor(desired, trees[i]))
  {
    if trees != [] {
      assert forall t :: t in trees[..|trees| - 1] ==> t in trees;
      SettingsRealize(trees[..|trees| - 1], desired);
    }
  }

  lemma {:induction false} SortedLength(s: set<string>)
    ensures |Sorted(s)| == |s|
  {
    if s != {} {
      LeastExists(s);
      var m :| IsLeast(m, s) && Sorted(s) == [m] + Sorted(s - {m});
      SortedLength(s - {m});
    }
  }

  lemma CanonicalAt(desired: Grants, i: nat)
    requires i < |Sorted(desired.Keys)|
    ensures |Canonical(desired)| == |Sorted(desired.Keys)| == |desired|
    ensures Sorted(desired.Keys)[i] in desired
    ensures Canonical(desired)[i] == SetTree(Sorted(desired.Keys)[i], UsersFor(desired, Sorted(desired.Keys)[i]))
    ensures forall u :: u in UsersFor(desired, Sorted(desired.Keys)[i]) <==> u in desired[Sorted(desired.Keys)[i]]
  {
    var trees := Sorted(desired.Keys);
    SortedIsSorted(desired.Keys);
    SortedLength(desired.Keys);
    SettingsRealize(trees, desired);
    assert trees[i] in trees;
    SortedIsSorted(Has(desired, trees[i]));
  }

  lemma CanonicalSetting(desired: Grants)
    ensures Setting(Canonical(desired)) && |Canonical(desired)| == |desired|
  {
    var trees, actions := Sorted(desired.Keys), Canonical(desired);
    SortedIsSorted(desired.Keys);
    SortedLength(desired.Keys);
    SettingsRealize(trees, desired);
    forall i, j | 0 <= i < j < |actions| ensures actions[i].tree != actions[j].tree {
      LessTotal(trees[i], trees[j]);
    }
  }

  lemma CanonicalRealizes(desired: Grants)
    ensures Realizes(Canonical(desired), desired)
  {
    var trees, actions := Sorted(desired.Keys), Canonical(desired);
    CanonicalSetting(desired);
    forall a | a in actions
      ensures a.tree in desired && forall u :: u in a.users <==> u in desired[a.tree]
    {
      var i :| 0 <= i < |actions| && actions[i] == a;
      SortedLength(desired.Keys);
      CanonicalAt(desired, i);
    }
    forall tree | tree in desired ensures Listed(actions, tree) {
      SortedIsSorted(desired.Keys);
      var i :| 0 <= i < |trees| && trees[i] == tree;
      CanonicalAt(desired, i);
      assert actions[i] in actions;
    }
  }

  lemma RealizingCovered(p: seq<Action>, q: seq<Action>, desired: Grants)
    requires Realizes(p, desired) && Realizes(q, desired)
    ensures CoveredBy(p, q)
  {
    forall a | a in p ensures exists b :: b in q && Alike(a, b) {
      assert Listed(q, a.tree);
      var b :| b in q && b.SetTree? && b.tree == a.tree;
      assert Alike(a, b);
    }
  }

  /** The action-building loop: hash maps and hash sets may yield their entries in any order. */
  method BuildActions(desired: Grants) returns (actions: seq<Action>)
    ensures Realizes(actions, desired)
  {
    actions := [];
    var pending := desired.Keys;
    while pending != {}
      invariant pending <= desired.Keys
      invariant Setting(actions)
      invariant forall a :: a in actions ==>
                  && a.tree in desired && a.tree !in pending
                  && forall u :: u in a.users <==> u in desired[a.tree]
      invariant forall tree :: tree in desired && tree !in pending ==> Listed(actions, tree)
      invariant |actions| == |desired| - |pending|
      decreases pending
    {
      var tree :| tree in pending;
      var users := AnyOrder(desired[tree]);
      var action := SetTree(tree, users);
      ghost var before := actions;
      actions := actions + [action];
      pending := pending - {tree};
      forall i, j | 0 <= i < j < |actions| ensures actions[i].tree != actions[j].tree {
        assert before[i] in before;
      }
      forall t | t in desired && t !in pending ensures Listed(actions, t) {
        if t == tree {
          assert action in actions;
        } else {
          var a :| a in before && a.SetTree? && a.tree == t;
          assert a in actions;
        }
      }
    }
  }

  method AnyOrder(s: set<string>) returns (list: seq<string>)
    ensures forall x :: x in list <==> x in s
  {
    list := [];
    var pending := s;
    while pending != {}
      invariant pending <= s
      invariant forall x :: x in list <==> x in s && x !in pending
      decreases pending
    {
      var x :| x in pending;
      list := list + [x];
      pending := pending - {x};
    }
  }

  /** Gathers, source by source in any order, the members of all sources mapped to a tree; a source
      that could not be fetched fails the whole. */
  method Gather(mapping: map<string, string>, fetched: map<string, set<string>>) returns (gathered: Option<Grants>)
    ensures gathered.Some? <==> mapping.Keys <= fetched.Keys
    ensures gathered.Some? ==> Demands(gathered.value, mapping, fetched)
  {
    var desired: Grants := map[];
    var pending := mapping.Keys;
    while pending != {}
      invariant pending <= mapping.Keys && mapping.Keys - pending <= fetched.Keys
      invariant forall tree :: tree in desired <==> exists s :: s in mapping && s !in pending && mapping[s] == tree
      invariant forall tree, u :: u in Has(desired, tree) <==>
                  exists s :: s in mapping && s !in pending && mapping[s] == tree && u in fetched[s]
      decreases pending
    {
      var source :| source in pending;
      if source !in fetched {
        return None;
      }
      var tree := mapping[source];
      ghost var before, was := desired, pending;
      desired := desired[tree := Has(desired, tree) + fetched[source]];
      pending := pending - {source};
      forall t ensures t in desired <==> exists s :: s in mapping && s !in pending && mapping[s] == t {
        if t in before {
          var s :| s in mapping && s !in was && mapping[s] == t;
        }
      }
      forall t, u
        ensures u in Has(desired, t) <==>
                exists s :: s in mapping && s !in pending && mapping[s] == t && u in fetched[s]
      {
        if u in Has(before, t) {
          var s :| s in mapping && s !in was && mapping[s] == t && u in fetched[s];
        }
      }
    }
    return Some(desired);
  }

  ghost predicate NamesAllowed(desired: Grants) {
    forall tree :: tree in desired ==>
      IsValidIdentifier(tree) && forall u :: u in desired[tree] ==> IsValidIdentifier(u)
  }

  /** A full reconciliation. Its text is a function of what was demanded, whatever the hash maps did. */
  method ReconcileRemote(content: string, mapping: map<string, string>, fetched: map<string, set<string>>)
    returns (r: Option<string>, ghost desired: Grants)
    ensures mapping.Keys <= fetched.Keys ==>
              && Demands(desired, mapping, fetched)
              && r == if NamesAllowed(desired) then Some(BatchText(content, Canonical(desired))) else None
    ensures !(mapping.Keys <= fetched.Keys) ==> r == None
  {
    var gathered := Gather(mapping, fetched);
    if gathered.None? {
      return None, map[];
    }
    var demanded := gathered.value;
    desired := demanded;
    var actions := BuildActions(demanded);
    r := ApplyActions(content, actions);
    AllowedIff(actions, desired);
    if NamesAllowed(desired) {
      SameText(content, actions, desired);
    }
  }

  lemma AllowedIff(actions: seq<Action>, desired: Grants)
    requires Realizes(actions, desired)
    ensures (forall a :: a in actions ==> ActionNamed(a)) <==> NamesAllowed(desired)
  {
    if forall a :: a in actions ==> ActionNamed(a) {
      forall tree | tree in desired
        ensures IsValidIdentifier(tree) && forall u :: u in desired[tree] ==> IsValidIdentifier(u)
      {
        assert Listed(actions, tree);
        var a :| a in actions && a.SetTree? && a.tree == tree;
        assert ActionNamed(a);
      }
    }
  }

  lemma SameText(content: string, actions: seq<Action>, desired: Grants)
    requires Realizes(actions, desired) && NamesAllowed(desired)
    ensures BatchText(content, actions) == BatchText(content, Canonical(desired))
  {
    hide *;
    var canonical := Canonical(desired);
    CanonicalRealizes(desired);
    RealizingCovered(actions, canonical, desired);
    RealizingCovered(canonical, actions, desired);
    AllowedIff(actions, desired);
    AllowedIff(canonical, desired);
    RealizingBatch(actions, canonical, desired);
    RealizingBatch(canonical, actions, desired);
    BatchOrderIrrelevant(content, actions, canonical);
  }

  lemma RealizingBatch(p: seq<Action>, q: seq<Action>, desired: Grants)
    requires Realizes(p, desired) && Realizes(q, desired) && CoveredBy(p, q) && CoveredBy(q, p)
    requires forall a :: a in p ==> ActionNamed(a)
    ensures Setting(p) && SameBatch(p, q) && AllNamed(p)
  {
    hide Setting, CoveredBy, IsValidIdentifier;
  }

  lemma {:induction false} BatchKeepsRest(text: string, actions: seq<Action>)
    requires AllNamed(actions)
    ensures var before, after := ParseText(text), ParseText(BatchText(text, actions));
            after == before.(grants := after.grants)
  {
    if actions != [] {
      var init, last := actions[..|actions| - 1], actions[|actions| - 1];
      assert forall a :: a in init ==> a in actions;
      BatchKeepsRest(text, init);
      MutateRefines(BatchText(text, init), last);
    }
  }

  ghost predicate Holding(text: string, u: string, t: string) {
    t in Get(ParseText(text).grants, u)
  }

  lemma MutateHolds(text: string, a: Action, u: string, t: string)
    requires ActionNamed(a) && a.SetTree?
    ensures Holding(MutatedText(text, a), u, t) <==> if t == a.tree then u in a.users else Holding(text, u, t)
  {
    MutateRefines(text, a);
  }

  lemma BatchInit(actions: seq<Action>)
    requires AllNamed(actions) && Setting(actions) && actions != []
    ensures var init, last := actions[..|actions| - 1], actions[|actions| - 1];
            && AllNamed(init) && Setting(init) && ActionNamed(last) && last.SetTree? && !Listed(init, last.tree)
  {
    hide ActionNamed;
    var init, last := actions[..|actions| - 1], actions[|actions| - 1];
    assert forall a :: a in init ==> a in actions;
    forall a | a in init ensures a.tree != last.tree {
      var i :| 0 <= i < |init| && init[i] == a;
      assert actions[i] == a;
    }
  }

  lemma ListedLast(init: seq<Action>, last: Action, u: string, t: string)
    requires last.SetTree? && !Listed(init, last.tree)
    ensures Listed(init + [last], t) <==> Listed(init, t) || t == last.tree
    ensures Given(init + [last], u, t) <==> if t == last.tree then u in last.users else Given(init, u, t)
  {
    assert forall a :: a in init + [last] <==> a in init || a == last;
    assert last in init + [last];
  }

  lemma BatchTextStep(text: string, actions: seq<Action>)
    ensures actions == [] ==> BatchText(text, actions) == text && forall t :: !Listed(actions, t)
    ensures actions != [] ==>
              BatchText(text, actions) == MutatedText(BatchText(text, actions[..|actions| - 1]), actions[|actions| - 1])
  {
    hide MutatedText;
  }

  lemma {:induction false} BatchHolds(text: string, actions: seq<Action>, u: string, t: string)
    requires AllNamed(actions) && Setting(actions)
    ensures Holding(BatchText(text, actions), u, t) <==>
            if Listed(actions, t) then Given(actions, u, t) else Holding(text, u, t)
  {
    hide *;
    BatchTextStep(text, actions);
    if actions != [] {
      var init, last := actions[..|actions| - 1], actions[|actions| - 1];
      assert actions == init + [last];
      BatchInit(actions);
      BatchHolds(text, init, u, t);
      MutateHolds(BatchText(text, init), last, u, t);
      ListedLast(init, last, u, t);
    }
  }

  lemma {:induction false} BatchKeepsValid(text: string, actions: seq<Action>)
    requires AllNamed(actions) && IsValid(text)
    ensures IsValid(BatchText(text, actions))
  {
    if actions != [] {
      var init := actions[..|actions| - 1];
      assert forall a :: a in init ==> a in actions;
      BatchKeepsValid(text, init);
      MutateKeepsValid(BatchText(text, init), actions[|actions| - 1]);
    }
  }

  /** After a reconciliation the direct grantees of a mapped tree are exactly the members fetched for
      it, all other grants and all other rights are as before, and a valid policy is still valid. */
  lemma ReconcileRefines(content: string, desired: Grants, u: string, t: string)
    requires NamesAllowed(desired)
    ensures var before, after := ParseText(content), ParseText(BatchText(content, Canonical(desired)));
            && after == before.(grants := after.grants)
            && (t in Get(after.grants, u) <==> if t in desired then u in desired[t] else t in Get(before.grants, u))
    ensures IsValid(content) ==> IsValid(BatchText(content, Canonical(desired)))
  {
    var actions := Canonical(desired);
    CanonicalRealizes(desired);
    AllowedIff(actions, desired);
    BatchKeepsRest(content, actions);
    BatchHolds(content, actions, u, t);
    if IsValid(content) {
      BatchKeepsValid(content, actions);
    }
  }
}
