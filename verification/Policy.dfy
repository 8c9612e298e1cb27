/** Four-eyes policy proposals, and what any run of them can do to the active policy. */
module Policy {
  import opened Rights
  import opened Syntax
  import opened Lens
  import opened LensLaws
  import opened Tenant
  import opened Validate

  /** A SHA-256 digest, taken as collision-free: it stands for the text it was computed from. */
  datatype Digest = Digest(text: string)

  datatype Stage = Pending | Approved

  datatype Proposal = Proposal(
    author: string,
    rights: string,
    rightsHash: Digest,
    base: Digest,
    scope: Option<set<string>>,
    stage: Stage,
    approver: Option<string>)

  /** The files: the active policy and one proposal per identifier. */
  datatype Files = Files(active: string, proposals: map<string, Proposal>)

  datatype Outcome =
    | Accepted
    | OutsideTenant(line: nat)
    | InvalidRights
    | AlreadyExists
    | NotFound
    | OwnProposal
    | NotPending
    | BeyondScope
    | ActiveChanged
    | NoLongerValid

  /** Whether an administrator may see and approve a proposal. A global one needs a global approver. */
  predicate Covers(scope: AdminScope, p: Proposal) {
    match (scope, p.scope)
    case (Global, _) => true
    case (Trees(_), None) => false
    case (Trees(_), Some(trees)) => scope.Covers(trees)
  }

  function RecordedScope(scope: AdminScope): Option<set<string>> {
    match scope
    case Global => None
    case Trees(trees) => Some(trees)
  }

  /** The text a proposal would activate: a tenant's edit is composed with the rest of the policy. */
  function Proposed(active: string, submitted: string, scope: AdminScope): Edit {
    match scope
    case Global => Done(submitted)
    case Trees(trees) => ComposeText(active, submitted, trees)
  }

  function CreateOutcome(f: Files, id: string, submitted: string, scope: AdminScope): Outcome {
    match Proposed(f.active, submitted, scope)
    case Refused(line) => OutsideTenant(line)
    case Done(rights) =>
      if !IsValid(rights) then InvalidRights
      else if id in f.proposals then AlreadyExists
      else Accepted
  }

  function Created(f: Files, id: string, author: string, submitted: string, scope: AdminScope): Files
    requires CreateOutcome(f, id, submitted, scope) == Accepted
  {
    var rights := Proposed(f.active, submitted, scope).text;
    var p := Proposal(author, rights, Digest(rights), Digest(f.active), RecordedScope(scope), Pending, None);
    f.(proposals := f.proposals[id := p])
  }

  function ApproveOutcome(f: Files, id: string, approver: string, scope: AdminScope): Outcome {
    if id !in f.proposals then NotFound
    else
      var p := f.proposals[id];
      if p.author == approver then OwnProposal
      else if p.stage != Pending then NotPending
      else if !Covers(scope, p) then BeyondScope
      else if p.base != Digest(f.active) then ActiveChanged
      else if !IsValid(p.rights) then NoLongerValid
      else Accepted
  }

  /** After the rename that activates the text, before the proposal records it. */
  function Activated(f: Files, id: string): Files
    requires id in f.proposals
  {
    f.(active := f.proposals[id].rights)
  }

  function Recorded(f: Files, id: string, approver: string): Files
    requires id in f.proposals
  {
    f.(proposals := f.proposals[id := f.proposals[id].(stage := Approved, approver := Some(approver))])
  }

  method Prepare(current: string, submitted: string, scope: AdminScope) returns (r: Edit)
    ensures r == Proposed(current, submitted, scope)
  {
    match scope {
      case Global => r := Done(submitted);
      case Trees(trees) => r := Compose(current, submitted, trees);
    }
  }

  method Check(rights: string) returns (valid: bool)
    ensures valid <==> IsValid(rights)
  {
    var report := ValidateText(rights);
    valid := report.errors == [];
  }

  class Store {
    var active: string
    var proposals: map<string, Proposal>

    ghost function Contents(): Files
      reads this
    {
      Files(active, proposals)
    }

    constructor (text: string)
      ensures Contents() == Files(text, map[])
    {
      active := text;
      proposals := map[];
    }

    /** Records a proposal; never touches the active policy. */
    method Create(id: string, author: string, submitted: string, scope: AdminScope) returns (r: Outcome)
      modifies this
      ensures r == CreateOutcome(old(Contents()), id, submitted, scope)
      ensures Contents() ==
              if r == Accepted then Created(old(Contents()), id, author, submitted, scope) else old(Contents())
    {
      var current := active;
      var edit := Prepare(current, submitted, scope);
      if edit.Refused? {
        return OutsideTenant(edit.line);
      }
      var rights := edit.text;
      var valid := Check(rights);
      if !valid {
        return InvalidRights;
      }
      if id in proposals {
        return AlreadyExists;
      }
      var proposal := Proposal(author, rights, Digest(rights), Digest(current), RecordedScope(scope), Pending, None);
      proposals := proposals[id := proposal];
      r := Accepted;
    }

    /** Activates a proposal's text, unless the call is stopped between its two writes. */
    method Approve(id: string, approver: string, scope: AdminScope, stopped: bool) returns (r: Outcome)
      modifies this
      ensures r == ApproveOutcome(old(Contents()), id, approver, scope)
      ensures Contents() ==
              if r != Accepted then old(Contents())
              else if stopped then Activated(old(Contents()), id)
              else Recorded(Activated(old(Contents()), id), id, approver)
    {
      if id !in proposals {
        return NotFound;
      }
      var value := proposals[id];
      if value.author == approver {
        return OwnProposal;
      }
      if value.stage != Pending {
        return NotPending;
      }
      if !Covers(scope, value) {
        return BeyondScope;
      }
      if value.base != Digest(active) {
        return ActiveChanged;
      }
      var valid := Check(value.rights);
      if !valid {
        return NoLongerValid;
      }
      active := value.rights;
      r := Accepted;
      if stopped {
        return;
      }
      value := value.(stage := Approved, approver := Some(approver));
      proposals := proposals[id := value];
    }
  }

  // ---- Runs ----

  /** One request, or an edit of the file by hand or by the code-host mirror. */
  datatype Event =
    | Create(id: string, author: string, submitted: string, scope: AdminScope)
    | Approve(id: string, approver: string, scope: AdminScope, stopped: bool)
    | Rewrite(text: string)

  function Step(f: Files, e: Event): Files {
    match e
    case Create(id, author, submitted, scope) =>
      if CreateOutcome(f, id, submitted, scope) == Accepted then Created(f, id, author, submitted, scope) else f
    case Approve(id, approver, scope, stopped) =>
      if ApproveOutcome(f, id, approver, scope) != Accepted then f
      else if stopped then Activated(f, id)
      else Recorded(Activated(f, id), id, approver)
    case Rewrite(text) => f.(active := text)
  }

  function Run(f: Files, events: seq<Event>): Files {
    if events == [] then f else Step(Run(f, events[..|events| - 1]), events[|events| - 1])
  }

  ghost predicate SoundProposal(p: Proposal) {
    && IsValid(p.rights)
    && p.rightsHash == Digest(p.rights)
    && (p.scope.Some? ==> exists submitted :: ComposeText(p.base.text, submitted, p.scope.value) == Done(p.rights))
    && (p.stage == Approved ==> p.approver.Some? && p.approver.value != p.author)
  }

  ghost predicate Sound(f: Files) {
    forall id :: id in f.proposals ==> SoundProposal(f.proposals[id])
  }

  lemma CreatedSound(f: Files, id: string, author: string, submitted: string, scope: AdminScope)
    requires CreateOutcome(f, id, submitted, scope) == Accepted
    ensures SoundProposal(Created(f, id, author, submitted, scope).proposals[id])
  {
    var p := Created(f, id, author, submitted, scope).proposals[id];
    if scope.Trees? {
      assert ComposeText(p.base.text, submitted, p.scope.value) == Done(p.rights);
    }
  }

  lemma RecordedSound(p: Proposal, approver: string)
    requires SoundProposal(p) && approver != p.author
    ensures SoundProposal(p.(stage := Approved, approver := Some(approver)))
  {
    var q := p.(stage := Approved, approver := Some(approver));
    if p.scope.Some? {
      var submitted :| ComposeText(p.base.text, submitted, p.scope.value) == Done(p.rights);
      assert ComposeText(q.base.text, submitted, q.scope.value) == Done(q.rights);
    }
  }

  lemma WithSound(f: Files, active: string, id: string, p: Proposal)
    requires Sound(f) && SoundProposal(p)
    ensures Sound(Files(active, f.proposals[id := p]))
  {
    hide SoundProposal;
  }

  lemma CreateChanges(f: Files, id: string, author: string, submitted: string, scope: AdminScope)
    requires CreateOutcome(f, id, submitted, scope) == Accepted
    ensures id in Created(f, id, author, submitted, scope).proposals
    ensures var g := Created(f, id, author, submitted, scope);
            g.active == f.active && g.proposals == f.proposals[id := g.proposals[id]]
  {
    hide IsValid, Proposed;
  }

  lemma ApproveChanges(f: Files, id: string, approver: string, scope: AdminScope)
    requires ApproveOutcome(f, id, approver, scope) == Accepted
    ensures id in f.proposals && approver != f.proposals[id].author
    ensures Activated(f, id).proposals == f.proposals
    ensures Recorded(Activated(f, id), id, approver)
         == Files(Activated(f, id).active,
                  f.proposals[id := f.proposals[id].(stage := Approved, approver := Some(approver))])
  {
    hide IsValid;
  }

  lemma SoundAt(f: Files, id: string)
    requires Sound(f) && id in f.proposals
    ensures SoundProposal(f.proposals[id])
  {
  }

  lemma ActiveAside(f: Files, active: string)
    requires Sound(f)
    ensures Sound(Files(active, f.proposals))
  {
    hide SoundProposal;
  }

  lemma StepSound(f: Files, e: Event)
    requires Sound(f)
    ensures Sound(Step(f, e))
  {
    hide SoundProposal, Sound, CreateOutcome, ApproveOutcome, Created, Activated, Recorded;
    match e {
      case Create(id, author, submitted, scope) =>
        if CreateOutcome(f, id, submitted, scope) == Accepted {
          CreatedSound(f, id, author, submitted, scope);
          CreateChanges(f, id, author, submitted, scope);
          WithSound(f, f.active, id, Created(f, id, author, submitted, scope).proposals[id]);
        }
      case Approve(id, approver, scope, stopped) =>
        if ApproveOutcome(f, id, approver, scope) == Accepted {
          ApproveChanges(f, id, approver, scope);
          if stopped {
            ActiveAside(f, Activated(f, id).active);
          } else {
            SoundAt(f, id);
            RecordedSound(f.proposals[id], approver);
            WithSound(f, Activated(f, id).active, id, f.proposals[id].(stage := Approved, approver := Some(approver)));
          }
        }
      case Rewrite(text) =>
        ActiveAside(f, text);
    }
  }

  /** Every reachable store is sound: each recorded tenant proposal is the composition of what its
      author submitted with exactly the policy it names as its base, it is valid, and nobody has
      approved their own. */
  lemma {:induction false} RunSound(f: Files, events: seq<Event>)
    requires Sound(f)
    ensures Sound(Run(f, events))
  {
    if events != [] {
      RunSound(f, events[..|events| - 1]);
      StepSound(Run(f, events[..|events| - 1]), events[|events| - 1]);
    }
  }

  /** A request that changes the active policy is the approval, by someone else, of a valid pending
      proposal made against exactly this text; and within a tenant it is an edit of that tenant. */
  lemma ChangeIsApproval(f: Files, e: Event)
    requires Sound(f) && !e.Rewrite? && Step(f, e).active != f.active
    ensures e.Approve? && e.id in f.proposals
    ensures var p := f.proposals[e.id];
            && p.stage == Pending && p.author != e.approver && Covers(e.scope, p)
            && p.base == Digest(f.active) && Step(f, e).active == p.rights && IsValid(p.rights)
            && (e.scope.Trees? ==> p.scope.Some? && p.scope.value <= e.scope.trees)
            && (p.scope.Some? ==> exists submitted :: ComposeText(f.active, submitted, p.scope.value) == Done(p.rights))
  {
    assert SoundProposal(f.proposals[e.id]);
  }

  lemma StepKeepsProposal(f: Files, e: Event, id: string)
    requires id in f.proposals
    ensures id in Step(f, e).proposals
    ensures Step(f, e).proposals[id].(stage := Pending, approver := None) ==
            f.proposals[id].(stage := Pending, approver := None)
    ensures f.proposals[id].stage == Approved ==> Step(f, e).proposals[id] == f.proposals[id]
  {
  }

  /** What a proposal says never changes, and an approval is final. */
  lemma {:induction false} RunKeepsProposal(f: Files, events: seq<Event>, id: string)
    requires id in f.proposals
    ensures id in Run(f, events).proposals
    ensures Run(f, events).proposals[id].(stage := Pending, approver := None) ==
            f.proposals[id].(stage := Pending, approver := None)
    ensures f.proposals[id].stage == Approved ==> Run(f, events).proposals[id] == f.proposals[id]
  {
    if events != [] {
      RunKeepsProposal(f, events[..|events| - 1], id);
      StepKeepsProposal(Run(f, events[..|events| - 1]), events[|events| - 1], id);
    }
  }

  /** An approval takes effect only while the active policy is the very text its proposal was made
      against, whatever happened in between, hand edits included; it yields the recorded text. */
  lemma ApprovedAgainstItsBase(f: Files, create: Event, between: seq<Event>, approve: Event)
    requires create.Create? && approve.Approve? && create.id == approve.id
    requires CreateOutcome(f, create.id, create.submitted, create.scope) == Accepted
    requires var g := Run(Step(f, create), between);
             ApproveOutcome(g, approve.id, approve.approver, approve.scope) == Accepted
    ensures Run(Step(f, create), between).active == f.active
    ensures Step(Run(Step(f, create), between), approve).active ==
            Proposed(f.active, create.submitted, create.scope).text
    ensures approve.approver != create.author
  {
    hide Run, Step, CreateOutcome, ApproveOutcome, Created;
    var g := Run(Step(f, create), between);
    CreationIs(f, create);
    RunKeepsProposal(Step(f, create), between, create.id);
    ApprovalIs(g, approve);
  }

  lemma CreationIs(f: Files, e: Event)
    requires e.Create? && CreateOutcome(f, e.id, e.submitted, e.scope) == Accepted
    ensures var g := Step(f, e);
            && e.id in g.proposals && g.proposals[e.id].author == e.author && g.proposals[e.id].base == Digest(f.active)
            && g.proposals[e.id].rights == Proposed(f.active, e.submitted, e.scope).text
    ensures Proposed(f.active, e.submitted, e.scope).Done?
  {
    hide IsValid, Proposed;
  }

  lemma ApprovalIs(f: Files, e: Event)
    requires e.Approve? && ApproveOutcome(f, e.id, e.approver, e.scope) == Accepted
    ensures e.id in f.proposals && f.proposals[e.id].base == Digest(f.active) && f.proposals[e.id].author != e.approver
    ensures Step(f, e).active == f.proposals[e.id].rights
  {
    hide IsValid;
  }

  /** A finished approval never takes effect again. One stopped after the rename can, but only when
      the active policy is back at the text the proposal was made against. */
  lemma SecondEffect(f: Files, first: Event, between: seq<Event>, second: Event)
    requires first.Approve? && second.Approve? && first.id == second.id
    requires ApproveOutcome(f, first.id, first.approver, first.scope) == Accepted
    requires ApproveOutcome(Run(Step(f, first), between), second.id, second.approver, second.scope) == Accepted
    ensures first.stopped
    ensures Run(Step(f, first), between).active == f.active
  {
    RunKeepsProposal(Step(f, first), between, first.id);
  }

  // ---- What a run of tenant approvals cannot change ----

  /** An event that, if it changes the active policy at all, does so inside `trees`. */
  ghost predicate Confined(f: Files, e: Event, trees: set<string>) {
    && !e.Rewrite?
    && (e.Approve? && Step(f, e).active != f.active ==>
          f.proposals[e.id].scope.Some? && f.proposals[e.id].scope.value <= trees)
  }

  ghost predicate ConfinedRun(f: Files, events: seq<Event>, trees: set<string>) {
    forall i :: 0 <= i < |events| ==> Confined(Run(f, events[..i]), events[i], trees)
  }

  ghost predicate Unmoved(before: string, after: string, trees: set<string>) {
    && SameOutside(ParseText(before), ParseText(after), trees)
    && SameParts(ParseText(before), ParseText(after), trees)
    && SameAdministration(ParseText(before), ParseText(after))
  }

  lemma AdministrationTransitive(a: Rights, b: Rights, c: Rights)
    requires SameAdministration(a, b) && SameAdministration(b, c)
    ensures SameAdministration(a, c)
  {
    forall user, idpGroups ensures a.Scope(user, idpGroups) == c.Scope(user, idpGroups) {
      assert a.Scope(user, idpGroups) == b.Scope(user, idpGroups);
    }
  }

  lemma UnmovedTransitive(a: string, b: string, c: string, trees: set<string>)
    requires Unmoved(a, b, trees) && Unmoved(b, c, trees)
    ensures Unmoved(a, c, trees)
  {
    hide SameOutside, SameParts, SameAdministration, ParseText;
    PartsTransitive(ParseText(a), ParseText(b), ParseText(c), trees);
    PartsDecide(ParseText(a), ParseText(c), trees);
    AdministrationTransitive(ParseText(a), ParseText(b), ParseText(c));
  }

  lemma OutsideWidens(a: Rights, b: Rights, own: set<string>, trees: set<string>)
    requires SameOutside(a, b, own) && SameParts(a, b, own) && own <= trees
    ensures SameOutside(a, b, trees) && SameParts(a, b, trees)
  {
    hide SameAt;
  }

  lemma ConfinedStep(f: Files, e: Event, trees: set<string>)
    requires Sound(f) && Confined(f, e, trees)
    ensures Unmoved(f.active, Step(f, e).active, trees)
  {
    if Step(f, e).active != f.active {
      ChangeIsApproval(f, e);
      var own := f.proposals[e.id].scope.value;
      var submitted :| ComposeText(f.active, submitted, own) == Done(Step(f, e).active);
      ComposeFrame(f.active, submitted, own);
      OutsideWidens(ParseText(f.active), ParseText(Step(f, e).active), own, trees);
    }
  }

  lemma ConfinedInit(f: Files, events: seq<Event>, trees: set<string>)
    requires ConfinedRun(f, events, trees) && events != []
    ensures ConfinedRun(f, events[..|events| - 1], trees)
    ensures Confined(Run(f, events[..|events| - 1]), events[|events| - 1], trees)
  {
    var init := events[..|events| - 1];
    forall i | 0 <= i < |init| ensures Confined(Run(f, init[..i]), init[i], trees) {
      assert init[..i] == events[..i];
      assert Confined(Run(f, events[..i]), events[i], trees);
    }
  }

  /** Over any run whose effective approvals stay inside `trees`, access to every other tree and the
      workspaces it belongs to, all addresses and tokens, all tenants and everyone's administrative scope
      stay as they were. */
  lemma {:induction false} ConfinedRunFrame(f: Files, events: seq<Event>, trees: set<string>)
    requires Sound(f) && ConfinedRun(f, events, trees)
    ensures Unmoved(f.active, Run(f, events).active, trees)
  {
    if events != [] {
      var init, last := events[..|events| - 1], events[|events| - 1];
      ConfinedInit(f, events, trees);
      ConfinedRunFrame(f, init, trees);
      RunSound(f, init);
      ConfinedStep(Run(f, init), last, trees);
      UnmovedTransitive(f.active, Run(f, init).active, Step(Run(f, init), last).active, trees);
    }
  }

  // ---- The service: every administrator's scope is read off the policy they act on ----

  datatype Request =
    | Propose(user: string, idpGroups: seq<string>, id: string, submitted: string)
    | Review(user: string, idpGroups: seq<string>, id: string, stopped: bool)

  /** A caller without administrative scope gets no further than the door. */
  function Serve(f: Files, r: Request): Files {
    match ParseText(f.active).Scope(r.user, r.idpGroups)
    case None => f
    case Some(scope) =>
      match r
      case Propose(user, _, id, submitted) => Step(f, Create(id, user, submitted, scope))
      case Review(user, _, id, stopped) => Step(f, Approve(id, user, scope, stopped))
  }

  function ServeAll(f: Files, requests: seq<Request>): Files {
    if requests == [] then f else Serve(ServeAll(f, requests[..|requests| - 1]), requests[|requests| - 1])
  }

  /** At most an administrator of tenants whose trees lie in `trees`. */
  predicate AtMost(rights: Rights, r: Request, trees: set<string>) {
    match rights.Scope(r.user, r.idpGroups)
    case None => true
    case Some(Global) => false
    case Some(Trees(own)) => own <= trees
  }

  function EventOf(r: Request, scope: AdminScope): Event {
    match r
    case Propose(user, _, id, submitted) => Create(id, user, submitted, scope)
    case Review(user, _, id, stopped) => Approve(id, user, scope, stopped)
  }

  lemma ServeIsStep(f: Files, r: Request, trees: set<string>)
    requires AtMost(ParseText(f.active), r, trees)
    ensures match ParseText(f.active).Scope(r.user, r.idpGroups)
            case None => Serve(f, r) == f
            case Some(scope) => scope.Trees? && scope.trees <= trees && Serve(f, r) == Step(f, EventOf(r, scope))
  {
    hide Step;
  }

  lemma ConfinedByScope(f: Files, r: Request, own: set<string>, trees: set<string>)
    requires Sound(f) && own <= trees
    ensures Confined(f, EventOf(r, Trees(own)), trees)
  {
    var e := EventOf(r, Trees(own));
    hide Step, Sound;
    if e.Approve? && Step(f, e).active != f.active {
      ChangeIsApproval(f, e);
    }
  }

  lemma Unchanged(text: string, trees: set<string>)
    ensures Unmoved(text, text, trees)
  {
  }

  lemma ServeConfined(f: Files, r: Request, trees: set<string>)
    requires Sound(f) && AtMost(ParseText(f.active), r, trees)
    ensures Sound(Serve(f, r)) && Unmoved(f.active, Serve(f, r).active, trees)
  {
    hide *;
    ServeIsStep(f, r, trees);
    match ParseText(f.active).Scope(r.user, r.idpGroups) {
      case None =>
        Unchanged(f.active, trees);
      case Some(scope) =>
        var e := EventOf(r, scope);
        StepSound(f, e);
        ConfinedByScope(f, r, scope.trees, trees);
        ConfinedStep(f, e, trees);
    }
  }

  /** Tenants stay apart: if nobody who acts is, to begin with, more than an administrator of tenants
      inside `trees`, then no sequence of their proposals, approvals and interrupted approvals changes who
      reaches a tree outside, with which tools, or the workspaces it belongs to, whatever is already
      pending; and none of them ever becomes more. */
  lemma {:induction false} TenantsStayApart(f: Files, requests: seq<Request>, trees: set<string>)
    requires Sound(f)
    requires forall r :: r in requests ==> AtMost(ParseText(f.active), r, trees)
    ensures Sound(ServeAll(f, requests))
    ensures Unmoved(f.active, ServeAll(f, requests).active, trees)
    ensures forall r :: r in requests ==> AtMost(ParseText(ServeAll(f, requests).active), r, trees)
  {
    if requests != [] {
      var init, last := requests[..|requests| - 1], requests[|requests| - 1];
      assert last in requests;
      TenantsStayApart(f, init, trees);
      var g := ServeAll(f, init);
      assert ParseText(g.active).Scope(last.user, last.idpGroups) ==
             ParseText(f.active).Scope(last.user, last.idpGroups);
      ServeConfined(g, last, trees);
      UnmovedTransitive(f.active, g.active, Serve(g, last).active, trees);
      forall r | r in requests ensures AtMost(ParseText(Serve(g, last).active), r, trees) {
        assert ParseText(Serve(g, last).active).Scope(r.user, r.idpGroups) ==
               ParseText(f.active).Scope(r.user, r.idpGroups);
      }
    }
  }

  /** A workspace all of whose trees are outside: the run may hide it, by adding trees of the tenants', and
      does so exactly from callers who do not reach all of those; it shows it to nobody who did not see it. */
  lemma ForeignWorkspaceAfterRun(f: Files, requests: seq<Request>, trees: set<string>,
                                 user: string, idpGroups: seq<string>, w: string)
    requires Sound(f)
    requires forall r :: r in requests ==> AtMost(ParseText(f.active), r, trees)
    requires Get(ParseText(f.active).workspaces, w) != []
    requires forall t :: t in Get(ParseText(f.active).workspaces, w) ==> t !in trees
    ensures var after := ParseText(ServeAll(f, requests).active);
            w in after.VisibleWorkspaces(user, idpGroups) <==>
            && w in ParseText(f.active).VisibleWorkspaces(user, idpGroups)
            && forall t :: t in Get(after.workspaces, w) && t in trees ==> after.May(user, idpGroups, t)
  {
    hide *;
    TenantsStayApart(f, requests, trees);
    UnmovedOutside(f.active, ServeAll(f, requests).active, trees);
    VisibleAfter(ParseText(f.active), ParseText(ServeAll(f, requests).active), trees, user, idpGroups, w);
  }

  lemma UnmovedOutside(before: string, after: string, trees: set<string>)
    requires Unmoved(before, after, trees)
    ensures SameOutside(ParseText(before), ParseText(after), trees)
  {
    hide SameOutside, SameParts, SameAdministration;
  }

  /** What a tenant administrator sees after the approval is what was submitted, for every active
      text whose references resolve. */
  lemma ApprovedTextIsShown(f: Files, submitted: string, trees: set<string>)
    requires WellReferenced(Tokens(f.active))
    requires ComposeText(f.active, submitted, trees).Done?
    requires IsValid(ComposeText(f.active, submitted, trees).text)
    ensures ScopedText(ComposeText(f.active, submitted, trees).text, trees) == Write(Cleaned(Tokens(submitted)))
  {
    ValidIsWellReferenced(Tokens(ComposeText(f.active, submitted, trees).text));
    WellReferencedNeverDangles(Tokens(f.active));
    ComposePutGet(f.active, submitted, trees);
  }
}
