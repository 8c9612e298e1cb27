/** A mirrored text is as valid as the text it was made from, grant lines aside. */
module MirrorValid {
  import opened Rights
  import opened Syntax
  import opened Tenant
  import opened Validate
  import opened Mirror
  import opened MirrorLaws
  import opened MirrorBatch

  /** Where a line of the rewritten text comes from. */
  lemma WrittenLine(lines: seq<Line>, g: Grants, m: Line)
    requires Readable(lines) && Named(g)
    ensures m in Stripped(Rewritten(lines, g)) && !IsGrant(m) <==>
            exists l :: l in lines && !IsGrant(l) && m == StripLine(l)
    ensures m in Stripped(Rewritten(lines, g)) && IsGrant(m) ==> m.says.values != []
  {
    var r := Rewritten(lines, g);
    StrippedIn(r);
    TailReadable(g);
    PilesIn(lines);
    if exists l :: l in lines && !IsGrant(l) && m == StripLine(l) {
      var l :| l in lines && !IsGrant(l) && m == StripLine(l);
      assert l in r;
    }
  }

  /** Two texts that agree on everything but grant lines, up to carriage returns. */
  ghost predicate Corresponds(a: seq<Line>, b: seq<Line>) {
    forall m :: m in b && !IsGrant(m) <==> exists l :: l in a && !IsGrant(l) && m == StripLine(l)
  }

  lemma CarriesLine(a: seq<Line>, b: seq<Line>, l: Line)
    requires Corresponds(a, b) && l in a && !IsGrant(l)
    ensures StripLine(l) in b && !IsGrant(StripLine(l)) && LineProblems(StripLine(l)) == LineProblems(l)
  {
    StripLineSame(l);
  }

  lemma CarriedFrom(a: seq<Line>, b: seq<Line>, m: Line) returns (l: Line)
    requires Corresponds(a, b) && m in b && !IsGrant(m)
    ensures l in a && !IsGrant(l) && m == StripLine(l) && LineProblems(m) == LineProblems(l)
  {
    l :| l in a && !IsGrant(l) && m == StripLine(l);
    StripLineSame(l);
  }

  lemma SameKeys(a: seq<Line>, b: seq<Line>, rel: Relation, k: string)
    requires Corresponds(a, b) && rel != Grant
    ensures k in Keys(a, rel) <==> k in Keys(b, rel)
  {
    if k in Keys(a, rel) {
      var l :| l in a && DeclaredAs(l, rel) && l.says.key == k;
      CarriesLine(a, b, l);
      assert DeclaredAs(StripLine(l), rel);
    }
    if k in Keys(b, rel) {
      var m :| m in b && DeclaredAs(m, rel) && m.says.key == k;
      var l := CarriedFrom(a, b, m);
      assert DeclaredAs(l, rel);
    }
  }

  lemma SameTreeNames(a: seq<Line>, b: seq<Line>, name: string)
    requires Corresponds(a, b)
    ensures name in TreeNames(a) <==> name in TreeNames(b)
  {
    if name in TreeNames(a) {
      var l :| l in a && l.says.TreeDecl? && l.says.tree.name == name;
      CarriesLine(a, b, l);
      assert StripLine(l).says.TreeDecl?;
    }
    if name in TreeNames(b) {
      var m :| m in b && m.says.TreeDecl? && m.says.tree.name == name;
      var l := CarriedFrom(a, b, m);
      assert l.says.TreeDecl?;
    }
  }

  lemma SameOffer(a: seq<Line>, b: seq<Line>)
    requires Corresponds(a, b)
    ensures Offered(a) == Offered(b)
  {
    forall name ensures name in TreeNames(a) <==> name in TreeNames(b) {
      SameTreeNames(a, b, name);
    }
    forall rel, k | rel != Grant ensures k in Keys(a, rel) <==> k in Keys(b, rel) {
      SameKeys(a, b, rel, k);
    }
    assert Keys(a, Role) == Keys(b, Role) &&
           Keys(a, Workspace) == Keys(b, Workspace) && Keys(a, Tenant) == Keys(b, Tenant);
  }

  lemma SameFine(a: seq<Line>, b: seq<Line>, l: Line, m: Line)
    requires Offered(a) == Offered(b) && l.says == m.says && LineProblems(l) == LineProblems(m)
    ensures LineFine(l, a) <==> LineFine(m, b)
  {
    assert Keys(a, Role) == Offered(a).roles && Keys(b, Role) == Offered(b).roles;
    assert TreeNames(a) == Offered(a).trees && TreeNames(b) == Offered(b).trees;
  }

  /** A rewritten text is valid exactly when the lines it carries over were: empty grant lines are
      the only defect the mirror repairs, and it introduces none. */
  lemma MutateValidIff(text: string, a: Action)
    requires ActionNamed(a)
    ensures IsValid(MutatedText(text, a)) <==>
            forall l :: l in Tokens(text) && !IsGrant(l) ==> LineFine(l, Tokens(text))
  {
    var lines, g := Tokens(text), Apply(Granted(Tokens(text)), a);
    var r := RewrittenTokens(text, a);
    var after := Stripped(r);
    TokensReadable(text);
    forall m
      ensures m in after && !IsGrant(m) <==> exists l :: l in lines && !IsGrant(l) && m == StripLine(l)
      ensures m in after && IsGrant(m) ==> m.says.values != []
    {
      WrittenLine(lines, g, m);
    }
    ValidLines(lines, after);
    ValidIff(after);
  }

  lemma ValidLines(a: seq<Line>, b: seq<Line>)
    requires Corresponds(a, b) && forall m :: m in b && IsGrant(m) ==> m.says.values != []
    ensures (forall m :: m in b ==> LineFine(m, b)) <==> forall l :: l in a && !IsGrant(l) ==> LineFine(l, a)
  {
    SameOffer(a, b);
    if forall m :: m in b ==> LineFine(m, b) {
      forall l | l in a && !IsGrant(l) ensures LineFine(l, a) {
        CarriesLine(a, b, l);
        SameFine(a, b, l, StripLine(l));
      }
    }
    if forall l :: l in a && !IsGrant(l) ==> LineFine(l, a) {
      forall m | m in b ensures LineFine(m, b) {
        if !IsGrant(m) {
          var l := CarriedFrom(a, b, m);
          SameFine(a, b, l, m);
        }
      }
    }
  }

  /** In particular, what validated still validates. */
  lemma MutateKeepsValid(text: string, a: Action)
    requires ActionNamed(a) && IsValid(text)
    ensures IsValid(MutatedText(text, a))
  {
    ValidIff(Tokens(text));
    MutateValidIff(text, a);
  }
}
