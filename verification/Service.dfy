/** Runs of the whole service, in which tenants' requests and mirrored batches mix. */
module Service {
  import opened Rights
  import opened Syntax
  import opened Lens
  import opened Mirror
  import opened MirrorLaws
  import opened MirrorBatch
  import Policy

  /** A request of an administrator, or a batch of grant changes mirrored from a code host. */
  datatype Deed = Asked(request: Policy.Request) | Mirrored(actions: seq<Action>)

  /** A batch is applied whole, or not at all when one of its names is no identifier. */
  ghost function Done(f: Policy.Files, d: Deed): Policy.Files {
    match d
    case Asked(r) => Policy.Serve(f, r)
    case Mirrored(actions) => if AllNamed(actions) then f.(active := BatchText(f.active, actions)) else f
  }

  ghost function DoneAll(f: Policy.Files, deeds: seq<Deed>): Policy.Files {
    if deeds == [] then f else Done(DoneAll(f, deeds[..|deeds| - 1]), deeds[|deeds| - 1])
  }

  /** The same run without any administrator. */
  function MirroredOnly(deeds: seq<Deed>): seq<Deed> {
    if deeds == [] then []
    else
      var last := deeds[|deeds| - 1];
      MirroredOnly(deeds[..|deeds| - 1]) + if last.Mirrored? then [last] else []
  }

  // ---- A mirrored batch, next to the same batch elsewhere ----

  lemma GrantsAside(r: Rights, g: Column)
    ensures Ungranted(r.(grants := g)) == Ungranted(r)
    ensures SameAdministration(r, r.(grants := g))
  {
    var s := r.(grants := g);
    forall user, idpGroups ensures r.Scope(user, idpGroups) == s.Scope(user, idpGroups) {
      assert r.RolesFor(user, idpGroups) == s.RolesFor(user, idpGroups);
      assert r.TenantTrees(user) == s.TenantTrees(user);
    }
  }

  lemma WantedAlike(a: Column, b: Column, action: Action, user: string, t: string)
    requires t in Get(a, user) <==> t in Get(b, user)
    ensures Wanted(Members(a, user), action, user, t) <==> Wanted(Members(b, user), action, user, t)
  {
  }

  lemma AdministrationSymmetric(a: Rights, b: Rights)
    requires SameAdministration(a, b)
    ensures SameAdministration(b, a)
  {
    forall user, idpGroups ensures b.Scope(user, idpGroups) == a.Scope(user, idpGroups) {
    }
  }

  lemma MutatedAdministration(text: string, a: Action)
    requires ActionNamed(a)
    ensures SameAdministration(ParseText(text), ParseText(MutatedText(text, a)))
    ensures Ungranted(ParseText(MutatedText(text, a))) == Ungranted(ParseText(text))
  {
    hide *;
    MutateRefines(text, a);
    GrantsAside(ParseText(text), ParseText(MutatedText(text, a)).grants);
  }

  lemma PartsAlike(a: Rights, b: Rights, c: Rights, d: Rights, trees: set<string>)
    requires SameParts(a, b, trees) && Ungranted(c) == Ungranted(a) && Ungranted(d) == Ungranted(b)
    requires forall user, t | t !in trees :: t in Get(c.grants, user) <==> t in Get(d.grants, user)
    ensures SameParts(c, d, trees)
  {
    hide SameOutside, Ungranted;
  }

  lemma UnmovedParts(a: string, b: string, trees: set<string>)
    ensures Policy.Unmoved(a, b, trees) <==>
            SameParts(ParseText(a), ParseText(b), trees) && SameAdministration(ParseText(a), ParseText(b))
  {
    hide SameOutside, SameParts, SameAdministration, ParseText;
    if SameParts(ParseText(a), ParseText(b), trees) {
      PartsDecide(ParseText(a), ParseText(b), trees);
    }
  }

  lemma GrantsOf(a: Rights, b: Rights, trees: set<string>, user: string, t: string)
    requires SameParts(a, b, trees) && t !in trees
    ensures t in Get(a.grants, user) <==> t in Get(b.grants, user)
  {
    hide SameOutside;
  }

  /** One action keeps two policies alike outside the trees. */
  lemma MutateAlike(a: string, b: string, action: Action, trees: set<string>)
    requires ActionNamed(action) && Policy.Unmoved(a, b, trees)
    ensures Policy.Unmoved(MutatedText(a, action), MutatedText(b, action), trees)
  {
    hide *;
    var x, y := ParseText(a), ParseText(b);
    var c, d := ParseText(MutatedText(a, action)), ParseText(MutatedText(b, action));
    UnmovedParts(a, b, trees);
    MutateRefines(a, action);
    MutateRefines(b, action);
    MutatedAdministration(a, action);
    MutatedAdministration(b, action);
    forall user, t | t !in trees ensures t in Get(c.grants, user) <==> t in Get(d.grants, user) {
      GrantsOf(x, y, trees, user, t);
      WantedAlike(x.grants, y.grants, action, user, t);
    }
    PartsAlike(x, y, c, d, trees);
    AdministrationSymmetric(x, c);
    Policy.AdministrationTransitive(c, x, y);
    Policy.AdministrationTransitive(c, y, d);
    UnmovedParts(MutatedText(a, action), MutatedText(b, action), trees);
  }

  lemma {:induction false} BatchAlike(a: string, b: string, actions: seq<Action>, trees: set<string>)
    requires AllNamed(actions) && Policy.Unmoved(a, b, trees)
    ensures Policy.Unmoved(BatchText(a, actions), BatchText(b, actions), trees)
  {
    hide *;
    BatchNext(a, map[], actions);
    BatchNext(b, map[], actions);
    if actions != [] {
      AllNamedNext(actions);
      var init := actions[..|actions| - 1];
      BatchAlike(a, b, init, trees);
      MutateAlike(BatchText(a, init), BatchText(b, init), actions[|actions| - 1], trees);
    }
  }

  lemma {:induction false} BatchAdministration(text: string, actions: seq<Action>)
    requires AllNamed(actions)
    ensures SameAdministration(ParseText(text), ParseText(BatchText(text, actions)))
  {
    hide *;
    BatchNext(text, map[], actions);
    if actions == [] {
      GrantsAside(ParseText(text), ParseText(text).grants);
      SameWithGrants(ParseText(text));
    } else {
      AllNamedNext(actions);
      var init := actions[..|actions| - 1];
      BatchAdministration(text, init);
      MutatedAdministration(BatchText(text, init), actions[|actions| - 1]);
      Policy.AdministrationTransitive(ParseText(text), ParseText(BatchText(text, init)),
                                      ParseText(BatchText(text, actions)));
    }
  }

  lemma SameWithGrants(r: Rights)
    ensures r.(grants := r.grants) == r
  {
  }

  // ---- Mixed runs ----

  ghost predicate AllAtMost(rights: Rights, deeds: seq<Deed>, trees: set<string>) {
    forall d :: d in deeds && d.Asked? ==> Policy.AtMost(rights, d.request, trees)
  }

  lemma StillAtMost(a: Rights, b: Rights, deeds: seq<Deed>, trees: set<string>)
    requires SameAdministration(a, b) && AllAtMost(a, deeds, trees)
    ensures AllAtMost(b, deeds, trees)
  {
    forall d | d in deeds && d.Asked? ensures Policy.AtMost(b, d.request, trees) {
      assert a.Scope(d.request.user, d.request.idpGroups) == b.Scope(d.request.user, d.request.idpGroups);
    }
  }

  lemma DoneNext(f: Policy.Files, deeds: seq<Deed>)
    ensures deeds == [] ==> DoneAll(f, deeds) == f && MirroredOnly(deeds) == []
    ensures deeds != [] ==>
              var (init, last) := (deeds[..|deeds| - 1], deeds[|deeds| - 1]);
              && DoneAll(f, deeds) == Done(DoneAll(f, init), last)
              && DoneAll(f, MirroredOnly(deeds)) ==
                 if last.Mirrored? then Done(DoneAll(f, MirroredOnly(init)), last) else DoneAll(f, MirroredOnly(init))
  {
    hide Done;
    if deeds != [] {
      var init, last := deeds[..|deeds| - 1], deeds[|deeds| - 1];
      var m := MirroredOnly(init);
      if last.Mirrored? {
        assert (m + [last])[..|m|] == m;
      } else {
        assert MirroredOnly(deeds) == m;
      }
    }
  }

  lemma AllAtMostParts(rights: Rights, deeds: seq<Deed>, trees: set<string>)
    requires AllAtMost(rights, deeds, trees) && deeds != []
    ensures AllAtMost(rights, deeds[..|deeds| - 1], trees)
    ensures deeds[|deeds| - 1].Asked? ==> Policy.AtMost(rights, deeds[|deeds| - 1].request, trees)
  {
    hide Policy.AtMost;
  }

  lemma MirroredSound(f: Policy.Files, actions: seq<Action>)
    requires Policy.Sound(f)
    ensures Policy.Sound(Done(f, Mirrored(actions)))
    ensures Done(f, Mirrored(actions)).active == if AllNamed(actions) then BatchText(f.active, actions) else f.active
  {
    hide AllNamed, BatchText, Policy.Sound;
    Policy.ActiveAside(f, BatchText(f.active, actions));
  }

  lemma AskedIs(f: Policy.Files, r: Policy.Request)
    ensures Done(f, Asked(r)) == Policy.Serve(f, r)
  {
    hide Policy.Serve;
  }

  lemma AskedStep(f: Policy.Files, g: Policy.Files, r: Policy.Request, trees: set<string>)
    requires Policy.Sound(f) && Policy.AtMost(ParseText(f.active), r, trees)
    requires Policy.Unmoved(g.active, f.active, trees)
    ensures Policy.Sound(Done(f, Asked(r))) && Policy.Unmoved(g.active, Done(f, Asked(r)).active, trees)
    ensures SameAdministration(ParseText(f.active), ParseText(Done(f, Asked(r)).active))
  {
    hide *;
    AskedIs(f, r);
    Policy.ServeConfined(f, r, trees);
    Policy.UnmovedTransitive(g.active, f.active, Policy.Serve(f, r).active, trees);
    UnmovedParts(f.active, Policy.Serve(f, r).active, trees);
  }

  lemma MirroredStep(f: Policy.Files, g: Policy.Files, actions: seq<Action>, trees: set<string>)
    requires Policy.Sound(f) && Policy.Sound(g) && Policy.Unmoved(g.active, f.active, trees)
    ensures var d := Mirrored(actions);
            && Policy.Sound(Done(f, d)) && Policy.Sound(Done(g, d))
            && Policy.Unmoved(Done(g, d).active, Done(f, d).active, trees)
            && SameAdministration(ParseText(f.active), ParseText(Done(f, d).active))
  {
    hide *;
    MirroredSound(f, actions);
    MirroredSound(g, actions);
    if AllNamed(actions) {
      BatchAlike(g.active, f.active, actions, trees);
      BatchAdministration(f.active, actions);
    } else {
      GrantsAside(ParseText(f.active), ParseText(f.active).grants);
      SameWithGrants(ParseText(f.active));
    }
  }

  /** Tenants do not interfere: outside `trees` a run in which administrators of tenants inside `trees`
      and the mirror take turns decides everything as the mirror's batches alone would; and neither moves
      a tree, a tenant or anyone's administrative scope. */
  lemma {:induction false} TenantsDoNotInterfere(f: Policy.Files, deeds: seq<Deed>, trees: set<string>)
    requires Policy.Sound(f) && AllAtMost(ParseText(f.active), deeds, trees)
    ensures Policy.Sound(DoneAll(f, deeds)) && Policy.Sound(DoneAll(f, MirroredOnly(deeds)))
    ensures Policy.Unmoved(DoneAll(f, MirroredOnly(deeds)).active, DoneAll(f, deeds).active, trees)
    ensures SameAdministration(ParseText(f.active), ParseText(DoneAll(f, deeds).active))
    ensures AllAtMost(ParseText(DoneAll(f, deeds).active), deeds, trees)
  {
    hide *;
    DoneNext(f, deeds);
    if deeds == [] {
      Policy.Unchanged(f.active, trees);
      UnmovedParts(f.active, f.active, trees);
    } else {
      var init, last := deeds[..|deeds| - 1], deeds[|deeds| - 1];
      AllAtMostParts(ParseText(f.active), deeds, trees);
      TenantsDoNotInterfere(f, init, trees);
      var g, h := DoneAll(f, init), DoneAll(f, MirroredOnly(init));
      StillAtMost(ParseText(f.active), ParseText(g.active), deeds, trees);
      AllAtMostParts(ParseText(g.active), deeds, trees);
      match last {
        case Asked(r) => AskedStep(g, h, r, trees);
        case Mirrored(actions) => MirroredStep(g, h, actions, trees);
      }
      Policy.AdministrationTransitive(ParseText(f.active), ParseText(g.active), ParseText(Done(g, last).active));
    }
    StillAtMost(ParseText(f.active), ParseText(DoneAll(f, deeds).active), deeds, trees);
  }
}
