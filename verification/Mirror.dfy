/** Mirroring code-host permissions: a text rewrite that updates sets. */
module Mirror {
  import opened Text
  import opened Identifier
  import opened StringOrder
  import opened Rights
  import opened Syntax
  import opened Tenant

  type Grants = map<string, set<string>>

  function Has(g: Grants, user: string): set<string> {
    if user in g then g[user] else {}
  }

  datatype Action =
    | GrantTree(user: string, tree: string)
    | RevokeTree(user: string, tree: string)
    | SetTree(tree: string, users: seq<string>)

  // ---- The rewrite ----

  predicate IsGrant(l: Line) {
    l.says.Entry? && l.says.relation == Grant
  }

  /** Any line whose first column is `tree`, well-formed or not. */
  predicate StartsTree(raw: string) {
    !Skipped(raw) && Fields(Trim(raw)) != [] && Fields(Trim(raw))[0] == "tree"
  }

  predicate IsTree(l: Line) {
    !IsGrant(l) && StartsTree(l.raw)
  }

  /** Comments, blanks and every directive but trees and grants, in file order. */
  function Rest(lines: seq<Line>): seq<Line> {
    if lines == [] then []
    else
      var last := lines[|lines| - 1];
      if IsGrant(last) || IsTree(last) then Rest(lines[..|lines| - 1]) else Rest(lines[..|lines| - 1]) + [last]
  }

  function TreePart(lines: seq<Line>): seq<Line> {
    if lines == [] then []
    else
      var last := lines[|lines| - 1];
      if IsTree(last) then TreePart(lines[..|lines| - 1]) + [last] else TreePart(lines[..|lines| - 1])
  }

  function Granted(lines: seq<Line>): Grants {
    if lines == [] then map[]
    else
      var g, last := Granted(lines[..|lines| - 1]), lines[|lines| - 1];
      if IsGrant(last) then WithGrant(g, last.says) else g
  }

  function WithGrant(g: Grants, d: Directive): Grants
    requires d.Entry?
  {
    g[d.key := Has(g, d.key) + (set t | t in d.values)]
  }

  function Apply(g: Grants, a: Action): Grants {
    match a
    case GrantTree(user, tree) => g[user := Has(g, user) + {tree}]
    case RevokeTree(user, tree) => if user in g then g[user := g[user] - {tree}] else g
    case SetTree(tree, users) =>
      map u | u in g.Keys + (set u | u in users) :: if u in users then Has(g, u) + {tree} else g[u] - {tree}
  }

  function Users(g: Grants): set<string> {
    set u | u in g && g[u] != {}
  }

  ghost function GrantLine(user: string, trees: set<string>): Line {
    Line("grant\t" + user + "\t" + Join(Sorted(trees), ","), Entry(Grant, user, Sorted(trees)))
  }

  ghost function GrantLines(users: seq<string>, g: Grants): seq<Line> {
    if users == [] then []
    else
      var u := users[|users| - 1];
      GrantLines(users[..|users| - 1], g) + if Has(g, u) == {} then [] else [GrantLine(u, Has(g, u))]
  }

  ghost function Rewritten(lines: seq<Line>, g: Grants): seq<Line> {
    Rest(lines) + TreePart(lines) + GrantLines(Sorted(g.Keys), g)
  }

  ghost function MutatedText(text: string, a: Action): string {
    Write(Rewritten(Tokens(text), Apply(Granted(Tokens(text)), a)))
  }

  // ---- The rewrite as the service runs it ----

  /** Sorts the lines of a text into the three piles. */
  method Divide(text: string) returns (rest: seq<string>, trees: seq<string>, grants: Grants)
    ensures rest == Raws(Rest(Tokens(text))) && trees == Raws(TreePart(Tokens(text))) && grants == Granted(Tokens(text))
  {
    rest, trees, grants := [], [], map[];
    var lines := Lines(text);
    ghost var tokens := Tokens(text);
    ReadAt(lines);
    for i := 0 to |lines|
      invariant rest == Raws(Rest(tokens[..i])) &&
                trees == Raws(TreePart(tokens[..i])) && grants == Granted(tokens[..i])
    {
      RestNext(tokens, i);
      TreesNext(tokens, i);
      GrantedNext(tokens, i);
      var l := Line(lines[i], ReadLine(lines[i]));
      if IsGrant(l) {
        grants := WithGrant(grants, l.says);
      } else if StartsTree(lines[i]) {
        trees := trees + [lines[i]];
      } else {
        rest := rest + [lines[i]];
      }
    }
    assert tokens[..|lines|] == tokens;
  }

  lemma RestNext(tokens: seq<Line>, i: nat)
    requires i < |tokens|
    ensures Raws(Rest(tokens[..i + 1])) ==
            Raws(Rest(tokens[..i])) + if IsGrant(tokens[i]) || IsTree(tokens[i]) then [] else [tokens[i].raw]
  {
    assert tokens[..i + 1][..i] == tokens[..i];
    RawsSnoc(Rest(tokens[..i]), tokens[i]);
  }

  lemma TreesNext(tokens: seq<Line>, i: nat)
    requires i < |tokens|
    ensures Raws(TreePart(tokens[..i + 1])) ==
            Raws(TreePart(tokens[..i])) + if IsTree(tokens[i]) then [tokens[i].raw] else []
  {
    assert tokens[..i + 1][..i] == tokens[..i];
    RawsSnoc(TreePart(tokens[..i]), tokens[i]);
  }

  lemma GrantedNext(tokens: seq<Line>, i: nat)
    requires i < |tokens|
    ensures Granted(tokens[..i + 1]) ==
            if IsGrant(tokens[i]) then WithGrant(Granted(tokens[..i]), tokens[i].says) else Granted(tokens[..i])
  {
    assert tokens[..i + 1][..i] == tokens[..i];
  }

  lemma RawsSnoc(lines: seq<Line>, l: Line)
    ensures Raws(lines + [l]) == Raws(lines) + [l.raw]
  {
    assert (lines + [l])[..|lines|] == lines;
  }

  /** Removes a tree from everyone not listed, then gives it to everyone listed. */
  method SetGrantees(g: Grants, tree: string, users: seq<string>) returns (r: Grants)
    ensures r == Apply(g, SetTree(tree, users))
  {
    r := map u | u in g :: if u in users then g[u] else g[u] - {tree};
    for i := 0 to |users|
      invariant r.Keys == g.Keys + (set u | u in users[..i])
      invariant forall u :: u in r ==>
                  r[u] == if u in users[..i] then Has(g, u) + {tree} else if u in users then g[u] else g[u] - {tree}
    {
      assert users[..i + 1] == users[..i] + [users[i]];
      r := r[users[i] := Has(r, users[i]) + {tree}];
    }
    assert users[..|users|] == users;
  }

  lemma GrantLinesNext(users: seq<string>, i: nat, g: Grants)
    requires i < |users|
    ensures Write(GrantLines(users[..i + 1], g)) ==
            Write(GrantLines(users[..i], g)) +
            if Sorted(Has(g, users[i])) == [] then ""
            else "grant\t" + users[i] + "\t" + Join(Sorted(Has(g, users[i])), ",") + "\n"
  {
    assert users[..i + 1][..i] == users[..i];
    var trees := Has(g, users[i]);
    SortedIsSorted(trees);
    if trees == {} {
      assert GrantLines(users[..i + 1], g) == GrantLines(users[..i], g);
    } else {
      var line := GrantLine(users[i], trees);
      assert GrantLines(users[..i + 1], g) == GrantLines(users[..i], g) + [line];
      WriteSnoc(GrantLines(users[..i], g), line);
      assert Write(GrantLines(users[..i], g)) + line.raw + "\n" == Write(GrantLines(users[..i], g)) + (line.raw + "\n");
    }
  }

  lemma NoGrantLines(g: Grants)
    ensures Write(GrantLines([], g)) == ""
  {
  }

  method WriteGrants(g: Grants) returns (out: string)
    ensures out == Write(GrantLines(Sorted(g.Keys), g))
  {
    hide *;
    var users := Sort(g.Keys);
    NoGrantLines(g);
    out := "";
    for i := 0 to |users|
      invariant out == Write(GrantLines(users[..i], g))
    {
      GrantLinesNext(users, i, g);
      var trees := Sort(Has(g, users[i]));
      if trees != [] {
        out := out + ("grant\t" + users[i] + "\t" + Join(trees, ",") + "\n");
      }
    }
    assert users[..|users|] == users;
  }

  /** One action applied to the text. */
  method Mutate(text: string, a: Action) returns (out: string)
    ensures out == MutatedText(text, a)
  {
    var rest, trees, grants := Divide(text);
    match a {
      case GrantTree(user, tree) => grants := grants[user := Has(grants, user) + {tree}];
      case RevokeTree(user, tree) =>
        if user in grants {
          grants := grants[user := grants[user] - {tree}];
        }
      case SetTree(tree, users) => grants := SetGrantees(grants, tree, users);
    }
    var last := WriteGrants(grants);
    out := Unlines(rest) + Unlines(trees) + last;
    WriteAppend(Rest(Tokens(text)), TreePart(Tokens(text)));
    WriteAppend(Rest(Tokens(text)) + TreePart(Tokens(text)), GrantLines(Sorted(grants.Keys), grants));
  }

  // ---- Names that survive being written and read ----

  ghost predicate Plainly(s: string) {
    s != "" && Trimmed(s) && '\t' !in s && '\n' !in s
  }

  ghost predicate Named(g: Grants) {
    forall u :: u in g && g[u] != {} ==> Plainly(u) && forall t :: t in g[u] ==> Plainly(t) && ',' !in t
  }

  /** All names of an action are identifiers. */
  predicate ActionNamed(a: Action) {
    match a
    case GrantTree(user, tree) => IsValidIdentifier(user) && IsValidIdentifier(tree)
    case RevokeTree(user, tree) => IsValidIdentifier(user) && IsValidIdentifier(tree)
    case SetTree(tree, users) => IsValidIdentifier(tree) && forall u | u in users :: IsValidIdentifier(u)
  }

  /** The columns of a line that was read are names of this kind. */
  lemma EntryNamed(raw: string)
    requires '\n' !in raw && ReadLine(raw).Entry?
    ensures Plainly(ReadLine(raw).key)
    ensures forall v :: v in ReadLine(raw).values ==> Plainly(v) && ',' !in v
  {
    var t := Trim(raw);
    TrimIsTrimmed(raw);
    var f := Fields(t);
    FieldsExclude(t, '\n');
    assert f[1] in f && f[2] in f;
    ListExcludes(f[2], '\n');
    ListExcludes(f[2], '\t');
  }

  lemma {:induction false} GrantedNamed(lines: seq<Line>)
    requires Readable(lines)
    ensures Named(Granted(lines))
  {
    if lines != [] {
      var init, last := lines[..|lines| - 1], lines[|lines| - 1];
      InitAndLast(lines);
      GrantedNamed(init);
      if IsGrant(last) {
        EntryNamed(last.raw);
      }
    }
  }

  lemma ApplyNamed(g: Grants, a: Action)
    requires Named(g) && ActionNamed(a)
    ensures Named(Apply(g, a))
  {
    forall s | IsValidIdentifier(s) ensures Plainly(s) && ',' !in s {
      IdentifierIsField(s);
    }
  }

  lemma {:induction false} JoinExcludes(parts: seq<string>, c: char)
    requires c != ',' && forall p :: p in parts ==> c !in p
    ensures c !in Join(parts, ",")
  {
    if |parts| > 1 {
      JoinExcludes(parts[1..], c);
    }
  }

  lemma {:induction false} JoinTrimmed(parts: seq<string>)
    requires parts != [] && forall p :: p in parts ==> p != "" && Trimmed(p)
    ensures Join(parts, ",") != "" && Trimmed(Join(parts, ","))
  {
    if |parts| > 1 {
      assert forall p :: p in parts[1..] ==> p in parts;
      JoinTrimmed(parts[1..]);
      var head, tail := parts[0], Join(parts[1..], ",");
      assert head in parts;
      var all := head + "," + tail;
      assert all[0] == head[0] && all[|all| - 1] == tail[|tail| - 1];
    } else {
      assert parts[0] in parts;
    }
  }

  lemma GrantLineIs(user: string, trees: set<string>)
    ensures GrantLine(user, trees).raw == "grant\t" + user + "\t" + Join(Sorted(trees), ",")
    ensures GrantLine(user, trees).says == Entry(Grant, user, Sorted(trees))
  {
  }

  lemma NamesOf(trees: set<string>)
    requires trees != {} && forall t :: t in trees ==> Plainly(t) && ',' !in t
    ensures var parts := Sorted(trees);
            parts != [] && forall p :: p in parts ==> p != "" && Trimmed(p) && ',' !in p && '\t' !in p && '\n' !in p
  {
    SortedIsSorted(trees);
    hide Sorted, Trimmed;
  }

  lemma TrimmedEnds(raw: string)
    requires Trimmed(raw)
    ensures !EndsInCR(raw)
  {
    assert IsSpace('\r');
  }

  lemma NoNewline(user: string, list: string)
    requires Plainly(user) && '\n' !in list
    ensures '\n' !in "grant\t" + user + "\t" + list
  {
    hide Trimmed;
  }

  lemma GrantColumns(user: string, list: string)
    requires Plainly(user) && list != "" && Trimmed(list) && '\t' !in list
    ensures var raw := "grant\t" + user + "\t" + list;
            Trimmed(raw) && Fields(raw) == ["grant", user, list]
  {
    ThreeColumns("grant", user, list);
    hide Fields;
    assert "grant" + "\t" + user + "\t" + list == "grant\t" + user + "\t" + list;
  }

  /** A written grant line reads back as the grant it stands for. */
  lemma GrantLineReads(user: string, trees: set<string>)
    requires trees != {} && Plainly(user) && forall t :: t in trees ==> Plainly(t) && ',' !in t
    ensures GrantLine(user, trees).says == ReadLine(GrantLine(user, trees).raw)
    ensures '\n' !in GrantLine(user, trees).raw
    ensures !EndsInCR(GrantLine(user, trees).raw)
  {
    hide *;
    NamesOf(trees);
    var parts := Sorted(trees);
    var list := Join(parts, ",");
    JoinTrimmed(parts);
    JoinExcludes(parts, '\t');
    JoinExcludes(parts, '\n');
    GrantColumns(user, list);
    NoNewline(user, list);
    GrantLineIs(user, trees);
    var raw := "grant\t" + user + "\t" + list;
    TrimOfTrimmed(raw);
    TrimmedEnds(raw);
    ListOfJoin(parts);
    ReadLineIsClassify(raw);
    GrantClassified(user, list);
  }

  lemma GrantClassified(user: string, list: string)
    ensures Classify(["grant", user, list]) == Entry(Grant, user, List(list))
  {
  }
}
