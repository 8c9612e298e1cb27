/** Whole batches of mirror actions: what they write, in whatever order hash maps yield them. */
module MirrorBatch {
  import opened Text
  import opened StringOrder
  import opened Rights
  import opened Syntax
  import opened Lens
  import opened Tenant
  import opened Validate
  import opened Mirror
  import opened MirrorLaws

  ghost predicate SameGrants(a: Grants, b: Grants) {
    forall u :: Has(a, u) == Has(b, u)
  }

  // ---- The grant lines depend on the grant relation only ----

  function Holders(users: seq<string>, g: Grants): seq<string> {
    if users == [] then []
    else Holders(users[..|users| - 1], g) + if Has(g, users[|users| - 1]) == {} then [] else [users[|users| - 1]]
  }

  lemma {:induction false} HoldersSorted(users: seq<string>, g: Grants)
    requires StrictlySorted(users)
    ensures StrictlySorted(Holders(users, g))
    ensures forall u :: u in Holders(users, g) <==> u in users && Has(g, u) != {}
  {
    if users != [] {
      var init, last := users[..|users| - 1], users[|users| - 1];
      HoldersSorted(init, g);
      assert users == init + [last];
      var h := Holders(init, g);
      forall i | 0 <= i < |h| ensures Less(h[i], last) {
        assert h[i] in h && h[i] in init;
        var k :| 0 <= k < |init| && init[k] == h[i];
        assert Less(users[k], users[|users| - 1]);
      }
    }
  }

  lemma {:induction false} GrantLinesOfHolders(users: seq<string>, g: Grants)
    ensures GrantLines(Holders(users, g), g) == GrantLines(users, g)
  {
    if users != [] {
      var init, last := users[..|users| - 1], users[|users| - 1];
      GrantLinesOfHolders(init, g);
      var h := Holders(init, g);
      if Has(g, last) == {} {
        assert Holders(users, g) == h;
        assert GrantLines(users, g) == GrantLines(init, g);
      } else {
        assert (h + [last])[..|h|] == h;
      }
    }
  }

  lemma {:induction false} GrantLinesSame(users: seq<string>, a: Grants, b: Grants)
    requires SameGrants(a, b)
    ensures GrantLines(users, a) == GrantLines(users, b)
  {
    if users != [] {
      GrantLinesSame(users[..|users| - 1], a, b);
    }
  }

  lemma TailByRelation(a: Grants, b: Grants)
    requires SameGrants(a, b)
    ensures GrantTail(a) == GrantTail(b)
  {
    var x, y := Sorted(a.Keys), Sorted(b.Keys);
    SortedIsSorted(a.Keys);
    SortedIsSorted(b.Keys);
    HoldersSorted(x, a);
    HoldersSorted(y, b);
    forall u ensures u in Holders(x, a) <==> u in Holders(y, b) {
      assert Has(a, u) == Has(b, u);
    }
    SortedUnique(Holders(x, a), Holders(y, b));
    GrantLinesOfHolders(x, a);
    GrantLinesOfHolders(y, b);
    GrantLinesSame(Holders(x, a), a, b);
  }

  lemma ApplySame(a: Grants, b: Grants, action: Action)
    requires SameGrants(a, b)
    ensures SameGrants(Apply(a, action), Apply(b, action))
  {
    ApplyWanted(a, action);
    ApplyWanted(b, action);
    forall u ensures Has(Apply(a, action), u) == Has(Apply(b, action), u) {
      assert forall t :: t in Has(Apply(a, action), u) <==> t in Has(Apply(b, action), u);
    }
  }

  // ---- Reading a rewritten text sorts it into the same piles ----

  lemma {:induction false} PilesAppend(a: seq<Line>, b: seq<Line>)
    ensures Rest(a + b) == Rest(a) + Rest(b)
    ensures TreePart(a + b) == TreePart(a) + TreePart(b)
  {
    if b == [] {
      assert a + b == a;
    } else {
      assert (a + b)[..|a + b| - 1] == a + b[..|b| - 1];
      PilesAppend(a, b[..|b| - 1]);
    }
  }

  lemma {:induction false} OnlyRest(lines: seq<Line>)
    requires forall l :: l in lines ==> !IsGrant(l) && !IsTree(l)
    ensures Rest(lines) == lines && TreePart(lines) == []
  {
    if lines != [] {
      InitAndLast(lines);
      OnlyRest(lines[..|lines| - 1]);
    }
  }

  lemma {:induction false} OnlyTreeLines(lines: seq<Line>)
    requires forall l :: l in lines ==> IsTree(l)
    ensures Rest(lines) == [] && TreePart(lines) == lines
  {
    if lines != [] {
      InitAndLast(lines);
      OnlyTreeLines(lines[..|lines| - 1]);
    }
  }

  lemma {:induction false} OnlyGrantLines(lines: seq<Line>)
    requires forall l :: l in lines ==> IsGrant(l)
    ensures Rest(lines) == [] && TreePart(lines) == []
  {
    if lines != [] {
      InitAndLast(lines);
      OnlyGrantLines(lines[..|lines| - 1]);
    }
  }

  function StripLine(l: Line): Line {
    Line(StripCR(l.raw), l.says)
  }

  lemma StripLineSame(l: Line)
    ensures IsGrant(StripLine(l)) == IsGrant(l) && IsTree(StripLine(l)) == IsTree(l)
    ensures LineProblems(StripLine(l)) == LineProblems(l)
    ensures Skipped(StripLine(l).raw) == Skipped(l.raw)
  {
    TrimAfterStripCR(l.raw);
  }

  lemma StrippedIn(lines: seq<Line>)
    ensures forall m :: m in Stripped(lines) <==> exists l :: l in lines && m == StripLine(l)
  {
    StrippedAt(lines);
    forall m
      ensures m in Stripped(lines) <==> exists l :: l in lines && m == StripLine(l)
    {
      if m in Stripped(lines) {
        var i :| 0 <= i < |lines| && Stripped(lines)[i] == m;
        assert lines[i] in lines && m == StripLine(lines[i]);
      }
      if exists l :: l in lines && m == StripLine(l) {
        var l :| l in lines && m == StripLine(l);
        var i :| 0 <= i < |lines| && lines[i] == l;
        assert Stripped(lines)[i] == m;
      }
    }
  }

  /** Lines that were read and belong to one pile. */
  ghost predicate RestPile(lines: seq<Line>) {
    Readable(lines) && forall l :: l in lines ==> !IsGrant(l) && !IsTree(l)
  }

  ghost predicate TreePile(lines: seq<Line>) {
    Readable(lines) && forall l :: l in lines ==> IsTree(l)
  }

  lemma StrippedRest(lines: seq<Line>)
    requires RestPile(lines)
    ensures RestPile(Stripped(lines))
  {
    StrippedIn(lines);
    forall m | m in Stripped(lines)
      ensures m.says == ReadLine(m.raw) && '\n' !in m.raw && !IsGrant(m) && !IsTree(m)
    {
      var l :| l in lines && m == StripLine(l);
      ReadLineOfTrimEnd(l.raw);
      StripLineSame(l);
    }
  }

  lemma StrippedTrees(lines: seq<Line>)
    requires TreePile(lines)
    ensures TreePile(Stripped(lines))
  {
    StrippedIn(lines);
    forall m | m in Stripped(lines)
      ensures m.says == ReadLine(m.raw) && '\n' !in m.raw && IsTree(m)
    {
      var l :| l in lines && m == StripLine(l);
      ReadLineOfTrimEnd(l.raw);
      StripLineSame(l);
    }
  }

  lemma StrippedGrants(lines: seq<Line>)
    requires forall l :: l in lines ==> IsGrant(l)
    ensures forall m :: m in Stripped(lines) ==> IsGrant(m)
  {
    StrippedIn(lines);
    forall m | m in Stripped(lines) ensures IsGrant(m) {
      var l :| l in lines && m == StripLine(l);
    }
  }

  lemma Apart(rest: seq<Line>, trees: seq<Line>, grants: seq<Line>)
    requires RestPile(rest) && TreePile(trees) && forall l :: l in grants ==> IsGrant(l)
    ensures Rest(rest + trees + grants) == rest && TreePart(rest + trees + grants) == trees
  {
    OnlyRest(rest);
    OnlyTreeLines(trees);
    OnlyGrantLines(grants);
    PilesAppend(rest, trees);
    PilesAppend(rest + trees, grants);
  }

  /** The three piles of a text that was written as three piles. */
  lemma ReadPiles(rest: seq<Line>, trees: seq<Line>, g: Grants)
    requires RestPile(rest) && TreePile(trees) && Named(g)
    ensures var read := Tokens(Write(rest + trees + GrantTail(g)));
            Rest(read) == Stripped(rest) && TreePart(read) == Stripped(trees) && SameGrants(Granted(read), g)
  {
    var tail := GrantTail(g);
    TailReadable(g);
    ReadBack(rest + trees + tail);
    StrippedAppend(rest, trees);
    StrippedAppend(rest + trees, tail);
    StrippedRest(rest);
    StrippedTrees(trees);
    StrippedGrants(tail);
    Apart(Stripped(rest), Stripped(trees), Stripped(tail));
    GrantedAgain(rest + trees, g);
  }

  lemma GrantedAgain(others: seq<Line>, g: Grants)
    requires forall l :: l in others ==> !IsGrant(l)
    requires Tokens(Write(others + GrantTail(g))) == Stripped(others + GrantTail(g))
    ensures SameGrants(Granted(Stripped(others + GrantTail(g))), g)
  {
    var lines := others + GrantTail(g);
    StrippedAt(lines);
    SameSaysParse(Stripped(lines), lines);
    ColumnSays(Stripped(lines));
    ColumnSays(lines);
    SaysAppend(others, GrantTail(g));
    forall u ensures Has(Granted(Stripped(lines)), u) == Has(g, u) {
      forall t ensures t in Has(Granted(Stripped(lines)), u) <==> t in Has(g, u) {
        GrantedSays(Stripped(lines), u, t);
        TailSays(g, u, t);
        assert !Says(others, Grant, u, t);
        assert Says(Stripped(lines), Grant, u, t) <==> Says(lines, Grant, u, t);
      }
    }
  }

  // ---- Batches ----

  function ApplyAll(g: Grants, actions: seq<Action>): Grants {
    if actions == [] then g else Apply(ApplyAll(g, actions[..|actions| - 1]), actions[|actions| - 1])
  }

  ghost function BatchText(text: string, actions: seq<Action>): string {
    if actions == [] then text
    else MutatedText(BatchText(text, actions[..|actions| - 1]), actions[|actions| - 1])
  }

  function StripTimes(lines: seq<Line>, n: nat): seq<Line> {
    if n == 0 then lines else Stripped(StripTimes(lines, n - 1))
  }

  ghost predicate AllNamed(actions: seq<Action>) {
    forall a :: a in actions ==> ActionNamed(a)
  }

  lemma {:induction false} ApplyAllNamed(g: Grants, actions: seq<Action>)
    requires Named(g) && AllNamed(actions)
    ensures Named(ApplyAll(g, actions))
  {
    if actions != [] {
      var init, last := actions[..|actions| - 1], actions[|actions| - 1];
      assert actions == init + [last];
      ApplyAllNamed(g, init);
      ApplyNamed(ApplyAll(g, init), last);
    }
  }

  lemma {:induction false} StripTimesPile(rest: seq<Line>, trees: seq<Line>, n: nat)
    requires RestPile(rest) && TreePile(trees)
    ensures RestPile(StripTimes(rest, n)) && TreePile(StripTimes(trees, n))
  {
    if n > 0 {
      StripTimesPile(rest, trees, n - 1);
      StrippedRest(StripTimes(rest, n - 1));
      StrippedTrees(StripTimes(trees, n - 1));
    }
  }

  lemma MutatedIs(text: string, a: Action)
    ensures var lines := Tokens(text);
            MutatedText(text, a) == Write(Rest(lines) + TreePart(lines) + GrantTail(Apply(Granted(lines), a)))
  {
    hide Tokens, Write, Rest, TreePart, Apply, Granted;
  }

  lemma BatchNext(text: string, g: Grants, actions: seq<Action>)
    ensures actions == [] ==> BatchText(text, actions) == text && ApplyAll(g, actions) == g
    ensures actions != [] ==>
              var init, last := actions[..|actions| - 1], actions[|actions| - 1];
              && BatchText(text, actions) == MutatedText(BatchText(text, init), last)
              && ApplyAll(g, actions) == Apply(ApplyAll(g, init), last)
  {
    hide MutatedText, Apply;
  }

  lemma AllNamedNext(actions: seq<Action>)
    requires AllNamed(actions) && actions != []
    ensures AllNamed(actions[..|actions| - 1]) && ActionNamed(actions[|actions| - 1])
  {
    hide ActionNamed;
  }

  lemma StripNext(lines: seq<Line>, n: nat)
    ensures StripTimes(lines, 0) == lines && StripTimes(lines, n + 1) == Stripped(StripTimes(lines, n))
  {
    hide Stripped;
  }

  lemma PilesOfText(text: string)
    ensures RestPile(Rest(Tokens(text))) && TreePile(TreePart(Tokens(text))) && Readable(Tokens(text))
  {
    TokensReadable(text);
    PilesIn(Tokens(text));
    hide Tokens, Rest, TreePart, IsGrant, IsTree;
  }

  /** What a batch writes: each kept line shorter by the carriage returns that rereading drops, then
      the grants of the set-level update. */
  lemma {:induction false} BatchWrites(text: string, actions: seq<Action>)
    requires actions != [] && AllNamed(actions)
    ensures var lines, n := Tokens(text), |actions| - 1;
            BatchText(text, actions) ==
            Write(StripTimes(Rest(lines), n) + StripTimes(TreePart(lines), n)
                  + GrantTail(ApplyAll(Granted(lines), actions)))
  {
    hide *;
    var lines, n := Tokens(text), |actions| - 1;
    var init, last := actions[..n], actions[n];
    BatchNext(text, Granted(lines), actions);
    AllNamedNext(actions);
    if n == 0 {
      BatchNext(text, Granted(lines), init);
      MutatedIs(text, last);
      StripNext(Rest(lines), 0);
      StripNext(TreePart(lines), 0);
    } else {
      var rest, trees := StripTimes(Rest(lines), n - 1), StripTimes(TreePart(lines), n - 1);
      var g := ApplyAll(Granted(lines), init);
      BatchWrites(text, init);
      PilesOfText(text);
      StripTimesPile(Rest(lines), TreePart(lines), n - 1);
      GrantedNamed(lines);
      ApplyAllNamed(Granted(lines), init);
      ReadPiles(rest, trees, g);
      var read := Tokens(BatchText(text, init));
      ApplySame(Granted(read), g, last);
      TailByRelation(Apply(Granted(read), last), Apply(g, last));
      MutatedIs(BatchText(text, init), last);
      StripNext(Rest(lines), n - 1);
      StripNext(TreePart(lines), n - 1);
    }
  }

  // ---- Applying an action twice ----

  lemma ApplyTwice(g: Grants, a: Action)
    ensures SameGrants(Apply(Apply(g, a), a), Apply(g, a))
  {
    ApplyWanted(g, a);
    ApplyWanted(Apply(g, a), a);
    forall u ensures Has(Apply(Apply(g, a), a), u) == Has(Apply(g, a), u) {
      assert forall t :: t in Has(Apply(Apply(g, a), a), u) <==> t in Has(Apply(g, a), u);
    }
  }

  lemma TwoActions(text: string, g: Grants, a: Action)
    requires ActionNamed(a)
    ensures AllNamed([a, a]) && BatchText(text, [a, a]) == MutatedText(MutatedText(text, a), a)
    ensures ApplyAll(g, [a, a]) == Apply(Apply(g, a), a)
  {
    hide MutatedText, Apply, ActionNamed, BatchText, ApplyAll;
    BatchNext(text, g, [a, a]);
    BatchNext(text, g, [a]);
    BatchNext(text, g, []);
    assert [a, a][..1] == [a] && [a][..0] == [];
  }

  lemma TwiceWrites(text: string, a: Action)
    requires ActionNamed(a)
    ensures var lines := Tokens(text);
            MutatedText(MutatedText(text, a), a) ==
            Write(Stripped(Rest(lines) + TreePart(lines)) + GrantTail(Apply(Granted(lines), a)))
  {
    hide *;
    var lines, g := Tokens(text), Granted(Tokens(text));
    TwoActions(text, g, a);
    BatchWrites(text, [a, a]);
    ApplyTwice(g, a);
    TailByRelation(Apply(Apply(g, a), a), Apply(g, a));
    StrippedAppend(Rest(lines), TreePart(lines));
    StripNext(Rest(lines), 0);
    StripNext(TreePart(lines), 0);
  }

  /** Applying an action twice writes the same text as once, exactly when no line that is carried over
      ends in a stray carriage return. */
  lemma MutateTwice(text: string, a: Action)
    requires ActionNamed(a)
    ensures MutatedText(MutatedText(text, a), a) == MutatedText(text, a) <==>
            forall l :: l in Tokens(text) && !IsGrant(l) ==> !EndsInCR(l.raw)
  {
    var lines := Tokens(text);
    var carried, tail := Rest(lines) + TreePart(lines), GrantTail(Apply(Granted(lines), a));
    TwiceWrites(text, a);
    WriteAppend(carried, tail);
    WriteAppend(Stripped(carried), tail);
    SameFront(Write(Stripped(carried)), Write(carried), Write(tail));
    StrippedText(carried);
    PilesIn(lines);
    assert forall l :: l in carried <==> l in lines && !IsGrant(l);
  }

  // ---- Order ----

  ghost predicate Setting(actions: seq<Action>) {
    && (forall a :: a in actions ==> a.SetTree?)
    && (forall i, j :: 0 <= i < j < |actions| ==> actions[i].tree != actions[j].tree)
  }

  ghost predicate Listed(actions: seq<Action>, tree: string) {
    exists a :: a in actions && a.SetTree? && a.tree == tree
  }

  ghost predicate Given(actions: seq<Action>, user: string, tree: string) {
    exists a :: a in actions && a.SetTree? && a.tree == tree && user in a.users
  }

  /** After a batch over distinct trees, a listed tree has exactly its listed users, and every other
      tree the users it had. */
  lemma {:induction false} BatchDecides(g: Grants, actions: seq<Action>, u: string, t: string)
    requires Setting(actions)
    ensures t in Has(ApplyAll(g, actions), u) <==> if Listed(actions, t) then Given(actions, u, t) else t in Has(g, u)
  {
    if actions != [] {
      var init, last := actions[..|actions| - 1], actions[|actions| - 1];
      assert actions == init + [last];
      assert forall a :: a in actions <==> a in init || a == last;
      BatchDecides(g, init, u, t);
      ApplyWanted(ApplyAll(g, init), last);
      forall a | a in init ensures a.tree != last.tree {
        var i :| 0 <= i < |init| && init[i] == a;
        assert actions[i] == a;
      }
    }
  }

  /** The same settings: the trees in any order, and the users of each in any order and number. */
  ghost predicate Alike(a: Action, b: Action) {
    a.SetTree? && b.SetTree? && a.tree == b.tree && forall u :: u in a.users <==> u in b.users
  }

  ghost predicate CoveredBy(p: seq<Action>, q: seq<Action>) {
    forall a :: a in p ==> exists b :: b in q && Alike(a, b)
  }

  ghost predicate SameBatch(p: seq<Action>, q: seq<Action>) {
    |p| == |q| && CoveredBy(p, q) && CoveredBy(q, p)
  }

  lemma CoveredSays(p: seq<Action>, q: seq<Action>, u: string, t: string)
    requires CoveredBy(p, q)
    ensures Listed(p, t) ==> Listed(q, t)
    ensures Given(p, u, t) ==> Given(q, u, t)
  {
    if Listed(p, t) {
      var a :| a in p && a.SetTree? && a.tree == t;
      var b :| b in q && Alike(a, b);
    }
    if Given(p, u, t) {
      var a :| a in p && a.SetTree? && a.tree == t && u in a.users;
      var b :| b in q && Alike(a, b);
    }
  }

  lemma SameBatchSays(p: seq<Action>, q: seq<Action>, u: string, t: string)
    requires SameBatch(p, q)
    ensures Listed(p, t) <==> Listed(q, t)
    ensures Given(p, u, t) <==> Given(q, u, t)
  {
    hide CoveredBy;
    CoveredSays(p, q, u, t);
    CoveredSays(q, p, u, t);
  }

  /** A reconciliation writes the same text whatever order its trees and their users come in. */
  lemma BatchOrderIrrelevant(text: string, p: seq<Action>, q: seq<Action>)
    requires Setting(p) && Setting(q) && SameBatch(p, q) && AllNamed(p) && AllNamed(q)
    ensures BatchText(text, p) == BatchText(text, q)
  {
    if p != [] {
      var g := Granted(Tokens(text));
      BatchWrites(text, p);
      BatchWrites(text, q);
      forall u ensures Has(ApplyAll(g, p), u) == Has(ApplyAll(g, q), u) {
        forall t ensures t in Has(ApplyAll(g, p), u) <==> t in Has(ApplyAll(g, q), u) {
          BatchDecides(g, p, u, t);
          BatchDecides(g, q, u, t);
          SameBatchSays(p, q, u, t);
        }
      }
      TailByRelation(ApplyAll(g, p), ApplyAll(g, q));
    }
  }
}
