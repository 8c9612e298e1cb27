# Glasir Control in Dafny

Glasir Control decides who may reach which code tree. Administrators write that
down in a line-oriented policy text; tenant administrators see and edit a slice
of it; a code-host mirror rewrites its grants; an audit log records every
decision in a signed chain; a proxy forwards what was allowed. This project
models those parts in Dafny and proves what they keep.

The modules, in reading order:

- **Policy text.** `Text` (trimming, splitting, lines as Rust's `str` does them,
  carriage returns included), `Rights` (relations, access decisions, scopes),
  `Syntax` (one line read as one directive), `Identifier`.
- **Delegated editing.** `Lens` and `LensLaws` treat the tenant's view and the
  composition of an edit as a view and update pair on lines; `Tenant` carries the
  laws over to texts, character by character. `Validate` is the validator.
  `Policy` is the proposal store, with a stop possible between the rename that
  activates a text and the write that records the approval, and runs of the whole
  service in which each scope is read off the policy in force. `Restrict` is the
  reduced copy of the rights that a tenant administrator is shown. `Witnesses` holds
  inputs on which the laws for edits and for the mirror fail.
- **Mirroring.** `Mirror`, `MirrorLaws`, `MirrorBatch`, `MirrorValid` and
  `Reconcile` relate the textual rewrite to a set-level grant update, for single
  actions and for batches that hash maps deliver in arbitrary order
  (`StringOrder` is the sorted order the mirror writes in). `Service` mixes mirrored
  batches with the requests of `Policy` in one run.
- **Audit.** `Json` and `AuditEvent` (the signed text of a record and what a
  verifier rebuilds from the log), `AuditChain` (rotation, predecessor, verifier),
  `AuditRuns` (interleaved writers, deaths, tampering), `AuditText` (the log as file
  texts, read line by line), `AuditQueue` (the bounded queue and its losses). Signatures are symbolic terms over the signing key, the
  predecessor and the event: two are equal only if their whole histories are, and
  only writers make them. Keys are told apart as far as HMAC does, by `Hmac.KeyBlock`.
- **Proxy.** `Utf8`, `LineReader` (a bounded line from arbitrary chunks), `Http`
  (requests read from such chunks, heads written for a backend, and read again).
- **Smaller parts.** `RateLimit`, `LineDiff`, `CrossRepo`, `FileCache`, `Sha256`,
  `Hmac`.

Code that loops or updates in place is a method (or a class with its fields)
proved against a specification function; the promises are lemmas about that
function. Hash maps are iterated in an arbitrary order. A text's SHA-256 is taken
as identifying the text (`Policy.Digest`), except in `Sha256` itself.

## What turned out not to hold as stated

Each entry names the exact condition and an input on its failing side.

- The lines outside the tenant do not always stay: a `member` or `group` line is
  outside while some role it names has no trees, and a submission that gives that
  role its first trees awakens the line and deletes it unseen
  (`LensLaws.KeptIntactIff`, `Tenant.ComposeKeepsIff`;
  `Witnesses.HiddenLineDeleted`). A policy whose references resolve has no such line.
- An edit can be felt outside the tenant: a submission may name a
  workspace that is wholly another tenant's, and give it a tree of its own. The
  workspace then disappears for those who do not reach that tree
  (`Tenant.ForeignWorkspaceKeptIff`, `Tenant.ForeignWorkspaceVisible`;
  `Witnesses.ForeignWorkspaceHidden`). It never appears to anyone it was hidden from.
- Composing a second edit over a first does not always give the text of the
  second alone: a kept line that ends in a stray carriage return loses it in each
  pass (`Tenant.ComposePutPut`; `Witnesses.SecondEditShortens`). The mirror has the
  same property (`MirrorBatch.MutateTwice`; `Witnesses.SecondRevocationShortens`).
- The view of a composed text is the submission only if the active policy has no
  `workspace-package` line whose workspace has no trees (`Tenant.ComposePutGet`);
  such a line is awakened by a submission that declares the workspace
  (`Witnesses.DanglingLineAppears`).
- A submission's package lines are resolved against the active workspaces only,
  so an edit that is accepted alone may be refused after another one
  (`Tenant.ComposePutPutAccepted`; `Witnesses.SecondEditRefused`).
- The mirror can make an invalid text valid: it drops broken `grant` lines and
  nothing else (`MirrorValid.MutateValidIff`; `Witnesses.MirrorRepairs`).
- The audit verifier starts from the empty predecessor, so an honest log stops
  verifying at its second rotation (`AuditRuns.VerdictAfterRun`), as every log does
  that grows long enough (`AuditRuns.LongLogBreaks`; `AuditRuns.SecondRotationBreaks`).
  Without a working lock, as on platforms where it does nothing, two writers fork the
  chain (`AuditRuns.WithoutLocksItForks`).
- A record whose write fails is not counted as lost (`AuditQueue.LossIsKnownIff`;
  `AuditQueue.FailedWriteIsUncounted`).
- A line can be refused because a buffer boundary splits one of its characters
  (`LineReader.DividedIff`, `Http.RequestDivided`; `LineReader.SplitCharacterRefused`).
- A head that was accepted with 99 headers exceeds the header limit once the
  proxy's own are added (`Http.ServedRoundTrip`; `Http.NinetyNineHeadersRefused`).

## Model

| member | source | states |
|---|---|---|
| Text.LinesOfUnlines | src/rights.rs:456-462 | lines written one per newline are the lines read back, each short of one final carriage return |
| Text.UnlinesOfStripCRs | src/rights.rs:456-462 | dropping those carriage returns changes the text exactly when some line ends in one |
| Text.FieldsOfJoin | src/rights.rs:289-300 | tab-joined nonempty trimmed columns are read back as those columns |
| Text.ListOfJoin | src/rights.rs:289-300 | comma-joined names are read back as those names |
| Syntax.Parse | src/rights.rs:289-411 | the parsing loop yields the rights in which every line was read on its own and malformed lines say nothing |
| Syntax.ReadLineIsClassify | src/rights.rs:418-452 | the scope resolver, which does not skip comments, reads every line as the parser does |
| Rights.ColumnSays | src/rights.rs:289-411 | a parsed relation holds of two names if and only if some line of the text says so |
| Rights.ParsedTools | src/rights.rs:289-411 | a role has an allowlist on a tree exactly when a role-tool line names both, and it holds the tools of all such lines |
| Rights.ParsedTrees | src/rights.rs:289-411 | the served trees are those of the tree lines, in order, with address and token |
| Rights.RolesSaid | src/rights.rs:113-123 | a caller has exactly the roles that member lines give the user and group lines give one of their groups |
| Rights.MaySaid | src/rights.rs:102-123 | access holds exactly when a grant line or a line of a role the caller has names the tree |
| Rights.MayToolSaid | src/rights.rs:258-284 | a tool is allowed exactly by a direct grant, or by a role that reaches the tree and whose allowlist, if any, has the tool |
| Rights.WorkspacesSaid | src/rights.rs:238-249 | the workspaces of a tree are those whose lines name it |
| Rights.TenantTreesSaid | src/rights.rs:133-148 | a tenant administrator's trees are those of the tenants that lines give them |
| Lens.Frame | src/rights.rs:467-507 | an accepted edit changes no access, tool or workspace of a tree outside the tenant, neither what grants nor what roles decide, for any active lines |
| Lens.Administration | src/rights.rs:467-507 | nor any tree address or token, tenant, tenant administrator or anyone's administrative scope |
| LensLaws.GetPut | src/rights.rs:456-507 | submitting the view unchanged is accepted and changes no decision on any tree |
| LensLaws.ViewOfResult | src/rights.rs:456-507 | where the references of the result resolve, the view after an edit is the package lines that dangled before, then exactly what was submitted |
| LensLaws.PutGet | src/rights.rs:456-507 | and so it is the submission if and only if no package line dangled |
| LensLaws.InsideIff | src/rights.rs:418-452 | for any active lines, under an accepted edit a line is inside exactly when it was inside the active policy, or is a member or group line that the submission awakens |
| LensLaws.AwakenedIsHidden | src/rights.rs:456-462 | an awakened line is one the view did not show |
| LensLaws.KeptIntactIff | src/rights.rs:480-487 | for any active lines, an accepted edit keeps all lines the active policy puts outside if and only if it awakens none |
| LensLaws.PutPut | src/rights.rs:467-507 | where the references of the active and the intermediate policy resolve, a second edit over a first leaves the lines of the second edit alone |
| LensLaws.PutPutAccepted | src/rights.rs:467-507 | an edit whose own result resolves is accepted over another exactly when the workspaces its package lines name are still declared |
| Tenant.MergeRoles | src/rights.rs:472-479 | adding submitted roles in any hash order gives the resolver whose roles are the union of both texts' |
| Tenant.KeepOutside | src/rights.rs:480-487 | the first loop writes exactly the active lines that are not inside, in order |
| Tenant.AddSubmitted | src/rights.rs:488-506 | the second loop appends all nonblank submitted lines right-trimmed, or reports the first that is not inside, by line number |
| Tenant.Compose | src/rights.rs:467-507 | both loops together give the composed text or the refusal |
| Tenant.ComposeResult | src/rights.rs:467-507 | an edit is done exactly when every submitted line stays inside, and its text is then the line-level result |
| Tenant.ComposeFrame | src/rights.rs:467-507 | the frame and administration theorems for the parsed composed text, for every active text, valid or not |
| Tenant.ComposeKeepsIff | src/rights.rs:464-507 | for any texts, an edit writes all lines outside as they are, then the submitted ones, if and only if it awakens no member or group line |
| Witnesses.HiddenLineDeleted | src/rights.rs:464-507 | declaring a role deletes an unseen membership that names it |
| Tenant.ForeignWorkspaceKeptIff | src/rights.rs:467-507 | a workspace wholly outside keeps its trees if and only if the submission names none for it; the submitted ones are added otherwise |
| Tenant.ForeignWorkspaceVisible | src/rights.rs:222-236 | it is visible afterwards exactly to those who saw it and reach every tree the submission adds |
| Witnesses.ForeignWorkspaceHidden | src/rights.rs:222-236 | one such line hides another tenant's workspace from its user |
| Tenant.ViewIsTenantLines | src/rights.rs:456-462 | for any text the view holds exactly the lines about the tenant alone: the trees they name, and all trees of each role or workspace they name, are the tenant's |
| Tenant.ComposeGetPut | src/rights.rs:456-507 | composing the unchanged view always succeeds and changes no decision |
| Tenant.ComposePutGet | src/rights.rs:456-507 | where the references of the composed text resolve, its view is the submission's nonblank lines, right-trimmed, if and only if no active package line dangles |
| Witnesses.DanglingLineAppears | src/rights.rs:456-507 | a package line that was never submitted appears in the view once its workspace is declared |
| Tenant.ComposePutPut | src/rights.rs:467-507 | on resolving texts, composing twice gives the text of the second alone if and only if no kept line ends in a stray carriage return |
| Witnesses.SecondEditShortens | src/rights.rs:467-507 | two empty edits leave another text than one |
| Tenant.ComposePutPutAccepted | src/rights.rs:467-507 | a compose whose own result resolves is accepted after another exactly when the workspaces its package lines name are still declared |
| Witnesses.SecondEditRefused | src/rights.rs:467-507 | an edit accepted on its own is refused after one that removed a workspace it names |
| Identifier.IdentifierIsField | src/security.rs:96-106 | an identifier survives trimming and splitting on tabs, commas and newlines |
| Validate.Collect | src/rights.rs:607-809 | the first pass collects line errors, duplicate warnings and every name later references may use |
| Validate.CheckReferences | src/rights.rs:811-917 | a reference pass reports exactly the lines naming something not offered, in order |
| Validate.CheckTools | src/rights.rs:846-864 | the same for role-tool lines, on role and tree |
| Validate.ValidateText | src/rights.rs:607-921 | the passes together give the whole report |
| Validate.ValidIff | src/rights.rs:607-921 | a text has no errors if and only if each line is well formed and names only what the text declares |
| Validate.ValidIsWellReferenced | src/rights.rs:607-921 | a valid text meets the hypotheses of the lens laws |
| Validate.NoDirectiveLost | src/rights.rs:607-921 | parsing a valid text ignores no line that is not blank or a comment |
| Validate.NamedByLine | src/rights.rs:607-921 | every tree of a workspace or tenant of a valid text is served |
| Validate.ReferencesExist | src/rights.rs:811-917 | in the parsed rights of a valid text every role of a member or group, every tenant of an administrator and every workspace of a package exists and has trees |
| Validate.ToolLineServed | src/rights.rs:607-921 | every allowlist of a valid text is about a declared role and a served tree |
| Validate.VisibleTreesAreServed | src/main.rs:1245-1257 | looking up a tree of a visible workspace cannot fail, and the caller may reach it |
| Policy.Check | src/policy.rs:50-53 | a proposal is checked valid exactly when its text has no errors |
| Policy.Store.Create | src/policy.rs:34-62 | the outcome in every case, and the new store: at most one new pending proposal, the active text untouched |
| Policy.Store.Approve | src/policy.rs:64-103 | the outcome in every case, and the new store, also when stopped between activation and record |
| Policy.RunSound | src/policy.rs:34-103 | over every run each tenant proposal is the composition of a submission with its recorded base, valid, and never approved by its author |
| Policy.ChangeIsApproval | src/policy.rs:64-103 | whatever changes the active text is the approval by another, covering administrator of a valid pending proposal made against exactly this text |
| Policy.RunKeepsProposal | src/policy.rs:34-103 | no run alters what a proposal says, and an approval is final |
| Policy.ApprovedAgainstItsBase | src/policy.rs:34-103 | an approval goes from exactly the text the proposal was made against to its recorded text, hand edits in between included |
| Policy.SecondEffect | src/policy.rs:96-103 | a proposal takes effect twice only if the first approval was stopped before its record and the active text is back at the base |
| Policy.ConfinedRunFrame | src/policy.rs:22-103 | over any run whose effective approvals stay inside given trees, access, tools and workspaces of every other tree, by grant and by role, and all administration stay |
| Policy.TenantsStayApart | src/policy.rs:22-103 | if all callers are at most administrators of tenants inside given trees, no sequence of their requests changes a decision on a tree outside or the workspaces it belongs to, or makes any of them more |
| Policy.ForeignWorkspaceAfterRun | src/rights.rs:222-236 | after any such sequence a workspace that was wholly outside is visible exactly to those who saw it before and reach every tree inside that it has been given |
| Service.TenantsDoNotInterfere | src/sync.rs:343-392 | in runs mixed with mirrored batches, trees outside end up exactly as the batches alone would leave them, and administration as it began |
| Policy.ApprovedTextIsShown | src/policy.rs:126-131 | for a policy whose references resolve, an administrator is shown exactly what was submitted |
| Restrict.RestrictedMay | src/rights.rs:159-220 | the restricted rights decide access as the full ones inside the trees and refuse outside |
| Restrict.RestrictedMayTool | src/rights.rs:159-220 | the same for tools: allowlists are neither lost nor widened |
| Restrict.RestrictedTree | src/rights.rs:159-220 | exactly the trees of the set are still served, unchanged |
| Restrict.RestrictedWorkspaces | src/rights.rs:222-236 | the visible workspaces are the visible ones lying wholly inside |
| Restrict.RestrictTwice | src/rights.rs:159-220 | restricting twice is restricting to the intersection, for the whole record |
| Mirror.Divide | src/sync.rs:509-536 | the first loop sorts lines into grants, trees and the rest |
| Mirror.SetGrantees | src/sync.rs:550-565 | replacing a tree's grantees leaves it with exactly the listed users and every other tree alone |
| Mirror.WriteGrants | src/sync.rs:578-587 | one sorted line per user with at least one tree |
| Mirror.Mutate | src/sync.rs:508-590 | the whole rewrite equals its specification |
| Mirror.GrantLineReads | src/sync.rs:584-586 | a written grant line is read back as that grant |
| MirrorLaws.RewrittenRights | src/sync.rs:508-590 | reading a rewritten text differs from before in the grants only, allowlists and trees included |
| MirrorLaws.MutateRefines | src/sync.rs:508-590 | one action on the text is the set-level grant update on the parsed rights, and nothing else changes |
| MirrorBatch.BatchWrites | src/sync.rs:367-370 | folding a batch over the text writes the kept lines and the grants of the folded set-level update |
| MirrorBatch.MutateTwice | src/sync.rs:508-590 | the same action twice gives the text of once if and only if no carried line ends in a stray carriage return |
| Witnesses.SecondRevocationShortens | src/sync.rs:508-590 | the same revocation twice leaves another text than once |
| MirrorBatch.BatchDecides | src/sync.rs:343-392 | after a batch over distinct trees a listed tree has exactly its listed users, and others what they had |
| MirrorBatch.BatchOrderIrrelevant | src/sync.rs:402-424 | every order of actions and of users gives the same text |
| MirrorValid.MutateValidIff | src/sync.rs:508-590 | the rewritten text is valid if and only if every line that is no grant was fine before |
| Witnesses.MirrorRepairs | src/sync.rs:508-590 | an invalid text that every mirrored change makes valid |
| MirrorValid.MutateKeepsValid | src/sync.rs:508-590 | a text that validated still validates |
| Reconcile.ApplyActions | src/sync.rs:343-392 | a batch is applied whole, or refused whole when one name in it is no identifier |
| Reconcile.BuildActions | src/sync.rs:417-423 | one action per demanded tree with its users, in some order |
| Reconcile.Gather | src/sync.rs:402-416 | the demanded users of a tree are the members of all sources mapped to it; one failed source fails all |
| Reconcile.ReconcileRemote | src/sync.rs:396-426 | the text written depends only on what was demanded, not on any hash order |
| Reconcile.SameText | src/sync.rs:402-424 | two action lists realizing the same demand write the same text |
| Reconcile.ReconcileRefines | src/sync.rs:396-426 | afterwards mapped trees have exactly the fetched members, all else is as before, and validity is kept |
| StringOrder.SortedUnique | src/sync.rs:578-583 | a set has one strictly sorted list, so sorting forgets the order of arrival |
| StringOrder.SortedIsSorted | src/sync.rs:578-583 | the sorted list is strictly increasing and has exactly the elements of the set |
| StringOrder.Sort | src/sync.rs:578-583 | collecting a set in any order and sorting gives that list |
| Json.EscapeJson | src/audit.rs:503-518 | the escaping loop replaces every character by its escape, in order |
| Json.ReadEscaped | src/audit.rs:503-518 | a reader of section 7 of RFC 8259 gets back every escaped string, control characters and quotes included |
| Json.ParsePrint | src/audit.rs:474-518 | every JSON value, nested, fractional or negative, reads back from its text |
| Json.PrintPlain | src/audit.rs:503-518 | a written value holds no control character |
| AuditEvent.FormatPrints | src/audit.rs:474-501 | the line template writes the JSON object of the record |
| AuditEvent.CanonicalOfFormat | src/audit.rs:429-501 | parsing a written event and rebuilding its text gives the identical string, for every record |
| AuditEvent.FormatInjective | src/audit.rs:474-501 | equal texts come from equal records and loss counts |
| AuditEvent.CanonicalIsStable | src/audit.rs:429-472 | whatever is in the log, a rebuilt text is some record's text and rebuilds to itself |
| AuditEvent.FormatIsOneLine | src/audit.rs:230 | an event is one line of the log |
| AuditEvent.MessageDetermines | src/audit.rs:208 | the signed message determines the predecessor and the event |
| AuditChain.Log.WriteRecordLocked | src/audit.rs:183-233 | rotation, predecessor and append change the two segments as specified, also when the file system refuses either |
| AuditChain.LineReads | src/audit.rs:210-214 | a reader of a written line finds the event and both signatures |
| AuditChain.LineTextBytes | src/audit.rs:189-191 | the size that rotation accounts for is the UTF-8 size of the written line |
| AuditChain.Verify | src/audit.rs:300-369 | the verdict under the verifier's key: valid with the count exactly for a chain from the first record signed with it, else the first bad line and what is wrong with it |
| AuditChain.VerdictIsUnique | src/audit.rs:300-369 | that contract leaves one verdict for each disk |
| AuditText.VerifyFiles | src/audit.rs:300-369 | the verdict on the texts of both files, whatever JSON or other text they hold |
| AuditText.WrittenLineReads | src/audit.rs:208-230 | the text of a written line is read as the signed line it stands for |
| AuditText.WrittenSegmentReads | src/audit.rs:208-230 | so is a file of written lines, line by line |
| AuditText.FilesAcceptedIffPrefix | src/audit.rs:300-369 | two file texts without new signatures are accepted if and only if their lines carry a prefix of the signed history, event and signature texts included, all signed with the verifier's key |
| AuditText.WrittenFilesAccepted | src/audit.rs:300-369 | the files writers wrote, backup and current, are valid with every line counted if and only if all was signed with the verifier's key |
| AuditRuns.AcceptedWasSigned | src/audit.rs:300-369 | with any tampering at any time: each accepted line carries an event a writer signed with the verifier's key as successor of the line accepted before it |
| AuditRuns.PredecessorIsLast | src/audit.rs:245-266 | the predecessor read from disk is always the last signature issued |
| AuditRuns.RetainedIsWindow | src/audit.rs:151-233 | for all interleavings, deaths and rotations the retained lines are one contiguous window of one unforked chain |
| AuditRuns.VerdictAfterRun | src/audit.rs:300-369 | the verdict after any untampered run: a discontinuity after a second rotation, before it a mismatch at the first line signed with another key, else the whole count if a current segment exists |
| AuditRuns.ValidIffSameKey | src/audit.rs:343-354 | with one key for all writers and at most one rotation: valid if and only if there is a current segment and nothing was signed or HMAC does not tell the verifier's key from the writers', any other key finds a mismatch at the first line |
| AuditRuns.OtherKeyMismatch | src/audit.rs:343-354 | one honest record that its signer's key accepts and another full-length key calls a mismatch |
| AuditRuns.LongLogBreaks | src/audit.rs:189-202 | every untampered run that signs more lines than two segments hold ends in a log that is called broken, whatever is recorded |
| AuditRuns.SecondRotationBreaks | src/audit.rs:189-202 | one writer recording one record again and again is such a run |
| AuditRuns.AcceptedIffPrefix | src/audit.rs:300-369 | a disk made of issued signatures is accepted if and only if it holds a prefix of the signed history, all of it signed with the verifier's key |
| AuditRuns.LogIsBounded | src/audit.rs:189-202 | while renames succeed no segment exceeds the rotation limit by a whole line |
| AuditRuns.LockedWriteIsSteps | src/audit.rs:151-181 | the interleaved steps of one writer left alone are one locked write |
| AuditRuns.WithoutLocksItForks | src/audit.rs:288-296 | where locking does nothing, a race of two writers makes an honest log fail: a discontinuity at the second line under the first writer's key, a mismatch at the first under any other |
| AuditQueue.RunAccounted | src/audit.rs:69-132 | in every interleaving, rejected sends are those pending, counted, carried and reported, and accepted ones leave in order |
| AuditQueue.LossIsKnownIff | src/audit.rs:69-132 | at rest all losses are known if and only if no write failed, and the difference is the failed writes |
| AuditQueue.FailedWriteIsUncounted | src/audit.rs:75-114 | one failed write is a lost record in no count |
| Utf8.DecodeIff | src/proxy.rs:57-58 | bytes are accepted as a text exactly when they are its UTF-8 encoding |
| LineReader.Stream.ReadBoundedLine | src/proxy.rs:39-76 | the chunked reader gives the next line exactly when each piece is a text and all of it fits, else the fault of the earliest faulty piece, and leaves the rest |
| LineReader.AnswerIsUnique | src/proxy.rs:39-76 | that contract leaves one answer for each division |
| LineReader.DividedIff | src/proxy.rs:39-76 | a line that would be read undivided is read the same if and only if no piece of it begins inside a character |
| LineReader.AllTextIff | src/proxy.rs:57-58 | the pieces of a text are texts exactly when none begins with a continuation byte |
| LineReader.SplitCharacterRefused | src/proxy.rs:39-76 | a two-byte character in two chunks makes a good line unreadable |
| LineReader.AsciiIsIndependent | src/proxy.rs:39-76 | an ASCII line is read the same however it is divided, errors included |
| Http.ReadRequest | src/proxy.rs:78-159 | the reading loop over a stream of chunks gives the specified request or refusal |
| Http.RequestDivided | src/proxy.rs:78-159 | no division makes another request of the bytes: it is read as sent or refused, and one that can be accepted is read exactly when no chunk begins inside a character of its head |
| Http.AsciiHeadIsIndependent | src/proxy.rs:78-159 | a request with an ASCII head is read alike for every division, refusals included |
| Http.AcceptedIsProper | src/proxy.rs:78-159 | accepted header names and values are trimmed and can be written on one line each, and the body is within its limit |
| Http.BackendHead | src/proxy.rs:257-290 | the loop writes the start line, the surviving headers in order and the proxy's four |
| Http.HeadersReadBack | src/proxy.rs:100-116 | written header lines are read back exactly when each fits and the count stays below the limit |
| Http.ReceivedIsSound | src/proxy.rs:257-290 | the backend reads exactly one Host, Authorization, Content-Length and Connection, all the proxy's own, and no Transfer-Encoding |
| Http.BodyAccepted | src/security.rs:151-177 | the checks against smuggling accept what the proxy writes, with the same body |
| Http.ForwardingRoundTrip | src/proxy.rs:257-290 | a forwarded request is read back with the same method and body, path `/mcp` and those headers, if and only if lines and count fit |
| Syntax.ServedTreeIsPlain | src/rights.rs:289-300 | every tree of a policy text has an address and a token that are trimmed and fit on one line |
| Http.ServedRoundTrip | src/proxy.rs:257-290 | for the trees of any policy text the backend reads exactly the headers meant for it, if and only if lines and count fit |
| Http.NinetyNineHeadersRefused | src/proxy.rs:100-116 | a request that is accepted and that, forwarded, is refused |
| RateLimit.RateLimiter.CheckAndConsume | src/security.rs:125-147 | the decision and the new buckets, purge included |
| RateLimit.PurgeInvisible | src/security.rs:129-132 | with capacity within 300 seconds of refill, purging and never purging decide every history alike |
| RateLimit.PurgeVisible | src/security.rs:129-132 | with more capacity, some history is decided differently |
| RateLimit.PurgeInvisibleIff | src/security.rs:129-132 | so purging is invisible if and only if the capacity refills in 300 seconds |
| RateLimit.WindowBound | src/security.rs:134-147 | over any calls a client is admitted at most what it had plus what dripped in |
| RateLimit.ServiceWindowBound | src/main.rs:453 | in any window of any history, purges included, at most the capacity plus rate times length |
| LineDiff.FillRow | assets/console.js:627-629 | a row of the table holds the longest common subsequence lengths of the suffixes |
| LineDiff.Trace | assets/console.js:632-637 | the traceback ends, stays inside the table and yields the specified script |
| LineDiff.Diff | assets/console.js:621-639 | the diff spells both texts, keeps a longest common subsequence and has the fewest changes of all scripts |
| LineDiff.LcsIsLongest | assets/console.js:625-630 | no common subsequence is longer than the table says |
| LineDiff.ScriptCorrect | assets/console.js:632-637 | kept and removed lines spell the one text, kept and added the other, with as many kept as possible |
| LineDiff.ScriptMinimal | assets/console.js:632-637 | no script between the same texts has fewer changes |
| LineDiff.DiffLinesSpell | assets/console.js:622-623 | the compared lines spell the text up to one final newline |
| CrossRepo.SegmentsReachIff | src/crossrepo.rs:27-36 | a request pattern reaches a route exactly when every path it stands for fits the route |
| CrossRepo.NarrowerIsMoreLiteral | src/crossrepo.rs:72 | a pattern inside another is at least as literal, and equally literal only if it is the same |
| CrossRepo.Select | src/crossrepo.rs:69-86 | the inner loop emits the most literal reached routes |
| CrossRepo.Links | src/crossrepo.rs:40-90 | the loops emit exactly the links from some tree's request to one of the most literal routes of other trees that it reaches |
| CrossRepo.AllLinkedExactly | src/crossrepo.rs:40-90 | the same of the specified list of links |
| CrossRepo.LinkedExactly | src/crossrepo.rs:69-86 | exactly the narrowest reached routes of other trees are linked, and one at least when any is reached |
| CrossRepo.NoNarrowerRoute | src/crossrepo.rs:69-86 | no linked route is strictly subsumed by another reached one |
| FileCache.FreshIffDistinct | src/rights.rs:941-952 | in every interleaving of calls and replacements no call answers with a version older than when it began, if and only if no file time repeats |
| FileCache.RepeatedTimeIsStale | src/auth.rs:98-107 | two replacements with the same time make some call stale |
| Sha256.Pad | src/auth.rs:414-420 | the padding loop gives the padding of section 5.1.1 of FIPS 180-4 |
| Sha256.GapIsLeast | src/auth.rs:417-419 | no shorter run of zeros fills the last block |
| Sha256.PaddingInjective | src/auth.rs:414-420 | different messages are padded differently |
| Sha256.LengthIsEncoded | src/auth.rs:415-420 | below 2^61 bytes the last eight bytes are the length in bits |
| Sha256.Expand | src/auth.rs:423-434 | the schedule filled in place holds the recurrence of section 6.2.2 |
| Sha256.Compress | src/auth.rs:436-459 | the shifting round loop computes the 64 rounds and the sum of section 6.2.2 |
| Sha256.Digest | src/auth.rs:396-467 | the block loop computes the hash of the padded message |
| Hmac.HmacSha256 | src/sync.rs:20-45 | the pads filled in place give section 2 of RFC 2104, for keys of every length |
| Hmac.ShortKeysAgreeIff | src/sync.rs:21-27 | keys of at most a block are told apart exactly up to trailing zeros |

## Left out

- HTTP dispatch, TLS, sockets, single sign-on, JWT validation, the code hosts' APIs and the rest of the console.
- Failing reads and writes of files, except where a member names them; partial writes.
- Wall-clock times on proposals, the listing and reading of proposals, error message wording (an error is its kind and line).
- Service.TenantsDoNotInterfere: a mirrored batch and an approval do not overlap; each is one step. The mirror writes back what it read without looking again.
- Collisions of SHA-256 and strength of HMAC: digests and signatures are symbolic in `Policy` and `AuditChain`.
- Rounding of floating point: the rate limiter computes with reals.
- Overflow of 64-bit counters in the audit queue and the limiter.
- The order-independence theorems are about `SetTree` batches; single grants and revokes arrive one at a time.
- Policy.Store.Create: two creations of the same id do not race; each call is one step.
- Policy.Serve: the scope is read from the policy in force, not from a cached copy; `FileCache` says when the copy is fresh.
- Json.ReadValue: no limit on nesting depth and no rounding of large numbers, on which a JSON library may give up.
- AuditChain.Verify: reads both segments at one instant. A rotation between the two reads presents it with other contents, for which `AuditRuns.AcceptedIffPrefix` still says what a valid verdict means.
- AuditChain.Log.WriteRecordLocked: a signing key is present; unsigned logging appends the bare event.
- LineDiff.Diff: texts of fewer than 2^32 lines, the longest an ECMAScript array can be.
- RateLimit.ServiceWindowBound: for limits whose capacity refills within 300 seconds, as the service's two seconds do; for others a purge refills a bucket early.
- Reconcile.ReconcileRemote: fetching is a parameter; a source missing from `fetched` is one that failed.
- Http.ReadRequest: reads of the socket succeed; what a failing or timed-out read refuses is left out.
- FileCache.FreshIffDistinct: the file is not removed again once it exists.
- Sha256.Digest: memory and message lengths are unbounded; the length field is exact below 2^61 bytes.
- CrossRepo.Links: the routes and requests are taken as already decoded; `callers_of_changes` only filters the links.
- `url_decode`, `percent_encode`, `tree_of`, revision and principal checks: easy members with nothing across functions.
