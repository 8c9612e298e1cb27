/** Interleaved writers of one signed log, and what a verifier can conclude. */
module AuditRuns {
  import opened Rights
  import opened Json
  import opened AuditEvent
  import opened AuditChain
  import Hmac
  import Sha256

  // A writer takes the lock, rotates, reads the predecessor from disk, appends and
  // releases the lock, each as one step; any number of writers interleave, and a
  // writer may die between two steps. Every append names the key its writer was
  // started with. `locks` is false where the platform's lock does nothing.

  datatype Phase = Idle | Holding | Rotated | Ready(previous: Tag) | Written

  /** `signed` lists every line ever appended; `gone` counts the lines that rotation has discarded. */
  datatype State = State(
    disk: Disk,
    holder: Option<nat>,
    writers: map<nat, Phase>,
    signed: seq<Logged>,
    gone: nat,
    rotations: nat
  )

  datatype Event =
    | Acquire(writer: nat)
    | TryRotate(writer: nat, renames: bool)
    | Fetch(writer: nat)
    | Emit(writer: nat, key: Key, rec: Record, missed: U64, appends: bool)
    | Release(writer: nat)
    | Die(writer: nat)
    | Tamper(disk: Disk)

  const START := State(Disk(None, None), None, map[], [], 0, 0)

  function PhaseOf(s: State, w: nat): Phase {
    if w in s.writers then s.writers[w] else Idle
  }

  function At(s: State, w: nat, p: Phase): State {
    s.(writers := s.writers[w := p])
  }

  function Freed(s: State, w: nat): State {
    if s.holder == Some(w) then s.(holder := None) else s
  }

  /** Only writers make signatures: every signature on the disk was issued by one. */
  predicate Known(disk: Disk, signed: seq<Logged>) {
    forall l | l in Retained(disk) :: l.Logged? && l.hmac.Some? && l.hmac.value.Mac? ==> Issued(signed, l.hmac.value)
  }

  predicate Issued(signed: seq<Logged>, t: Tag) {
    exists l | l in signed :: l.Logged? && l.hmac == Some(t)
  }

  /** One step; an event whose writer is elsewhere, or that would wait for the lock, changes nothing. */
  function Step(s: State, e: Event, locks: bool): State {
    match e
    case Acquire(w) =>
      if PhaseOf(s, w).Idle? && (!locks || s.holder.None?) then At(s, w, Holding).(holder := Some(w)) else s
    case TryRotate(w, renames) =>
      if !PhaseOf(s, w).Holding? then s
      else
        var t := At(s, w, Rotated).(disk := Rotate(s.disk, renames));
        if Full(s.disk) && renames then t.(gone := s.gone + |LinesOf(s.disk.backup)|, rotations := s.rotations + 1)
        else t
    case Fetch(w) =>
      if PhaseOf(s, w).Rotated? then At(s, w, Ready(Predecessor(s.disk))) else s
    case Emit(w, key, rec, missed, appends) =>
      var phase := PhaseOf(s, w);
      if !phase.Ready? then s
      else if !appends then At(s, w, Written)
      else
        var block, event := Hmac.KeyBlock(key), Format(rec, missed);
        At(s, w, Written).(
          disk := Append(s.disk, block, phase.previous, event),
          signed := s.signed + [Signed(block, phase.previous, event)]
        )
    case Release(w) =>
      if PhaseOf(s, w).Written? then Freed(At(s, w, Idle), w) else s
    case Die(w) =>
      Freed(At(s, w, Idle), w)
    case Tamper(disk) =>
      if Known(disk, s.signed) then s.(disk := disk) else s
  }

  function Run(s: State, events: seq<Event>, locks: bool): State
    decreases |events|
  {
    if events == [] then s else Run(Step(s, events[0], locks), events[1..], locks)
  }

  predicate Untouched(events: seq<Event>) {
    forall e | e in events :: !e.Tamper?
  }

  // ---- Whatever happens to the disk: only signed events are ever accepted ----

  ghost predicate Provenance(s: State) {
    && Known(s.disk, s.signed)
    && forall l :: l in s.signed ==> l.Logged? && l.previous.Some? && l.hmac.Some? && l.hmac.value.Mac?
                                     && l.previous.value == l.hmac.value.previous
  }

  lemma AppendRetained(disk: Disk, block: Key, previous: Tag, event: string)
    ensures Retained(Append(disk, block, previous, event)) == Retained(disk) + [Signed(block, previous, event)]
  {
  }

  lemma StepProvenance(s: State, e: Event, locks: bool)
    requires Provenance(s)
    ensures Provenance(Step(s, e, locks))
  {
    hide Hmac.KeyBlock;
    var t := Step(s, e, locks);
    if e.Emit? && PhaseOf(s, e.writer).Ready? && e.appends {
      var block, previous, event := Hmac.KeyBlock(e.key), PhaseOf(s, e.writer).previous, Format(e.rec, e.missed);
      var line := Signed(block, previous, event);
      AppendRetained(s.disk, block, previous, event);
      forall l | l in Retained(t.disk) && l.Logged? && l.hmac.Some? && l.hmac.value.Mac?
        ensures Issued(t.signed, l.hmac.value)
      {
        if l == line {
          assert line in t.signed;
        } else {
          var m :| m in s.signed && m.Logged? && m.hmac == Some(l.hmac.value);
          assert m in t.signed;
        }
      }
    } else if e.TryRotate? {
      assert forall l :: l in Retained(t.disk) ==> l in Retained(s.disk);
    }
  }

  lemma {:induction false} RunProvenance(s: State, events: seq<Event>, locks: bool)
    requires Provenance(s)
    ensures Provenance(Run(s, events, locks))
    decreases |events|
  {
    if events != [] {
      StepProvenance(s, events[0], locks);
      RunProvenance(Step(s, events[0], locks), events[1..], locks);
    }
  }

  /** Even while the disk is being tampered with: each accepted line carries an event
  that a writer signed with the verifier's key, as the successor of exactly the line
  accepted before it. */
  lemma AcceptedWasSigned(events: seq<Event>, locks: bool, key: Key, n: nat, k: nat)
    requires var s := Run(START, events, locks); Deserves(s.disk, key, Valid(n)) && k < n
    ensures var s := Run(START, events, locks);
            var lines := Retained(s.disk);
            && n == |lines| && lines[k].Logged?
            && Canonical(lines[k].event).Ok?
            && lines[k].hmac == Some(Mac(Hmac.KeyBlock(key), TagBefore(lines, k), Canonical(lines[k].event).value))
            && Issued(s.signed, lines[k].hmac.value)
  {
    hide Step, Canonical, Hmac.KeyBlock;
    RunProvenance(START, events, locks);
    var lines := Retained(Run(START, events, locks).disk);
    assert GoodAt(lines, k, Hmac.KeyBlock(key));
    assert lines[k] in lines;
  }

  // ---- Untampered runs keep one chain ----

  /** The key block a line was signed with. */
  function BlockOf(l: Logged): Key {
    if l.Logged? && l.hmac.Some? && l.hmac.value.Mac? then l.hmac.value.block else []
  }

  ghost predicate LinkedAt(lines: seq<Logged>, k: nat)
    requires k < |lines|
  {
    && lines[k].Logged? && lines[k].hmac.Some? && lines[k].hmac.value.Mac?
    && GoodAt(lines, k, BlockOf(lines[k]))
  }

  /** One chain of signed lines, whichever key each of them was signed with. */
  ghost predicate Linked(lines: seq<Logged>) {
    forall k :: 0 <= k < |lines| ==> LinkedAt(lines, k)
  }

  lemma LinkedIs(lines: seq<Logged>, k: nat)
    requires Linked(lines) && k < |lines|
    ensures LinkedAt(lines, k)
  {
    hide LinkedAt;
  }

  /** A verifier finds nothing wrong with a line of a chain but a key that is not its own. */
  lemma LinkedJudged(lines: seq<Logged>, k: nat, block: Key)
    requires Linked(lines) && k < |lines|
    ensures Judge(lines[k], TagBefore(lines, k), block) == if BlockOf(lines[k]) == block then None else Some(Mismatch)
    ensures GoodAt(lines, k, block) <==> BlockOf(lines[k]) == block
  {
    LinkedIs(lines, k);
    hide Canonical, Linked;
  }

  ghost predicate OneChain(s: State) {
    && Linked(s.signed)
    && s.gone <= |s.signed|
    && Retained(s.disk) == s.signed[s.gone..]
  }

  predicate Segmented(s: State) {
    && (s.disk.current.Some? ==> s.disk.current.value.lines != [])
    && (s.disk.backup.Some? ==> s.disk.backup.value.lines != [])
    && (s.signed != [] ==> s.disk.current.Some? || s.disk.backup.Some?)
    && (s.disk.backup.Some? <==> s.rotations > 0)
    && (s.gone > 0 <==> s.rotations > 1)
  }

  ghost predicate Exclusive(s: State) {
    && (forall w :: w in s.writers && !s.writers[w].Idle? ==> s.holder == Some(w))
    && (forall w :: w in s.writers && s.writers[w].Ready? ==> s.writers[w].previous == TagBefore(s.signed, |s.signed|))
  }

  ghost predicate Orderly(s: State) {
    OneChain(s) && Segmented(s) && Exclusive(s)
  }

  lemma ChainGrows(lines: seq<Logged>, block: Key, rec: Record, missed: U64)
    requires Linked(lines)
    ensures Linked(lines + [Signed(block, TagBefore(lines, |lines|), Format(rec, missed))])
  {
    hide Format, Parse, Canonical;
    var line := Signed(block, TagBefore(lines, |lines|), Format(rec, missed));
    CanonicalOfFormat(rec, missed);
    var more := lines + [line];
    forall k | 0 <= k < |more| ensures LinkedAt(more, k) {
      assert TagBefore(more, k) == TagBefore(lines, k);
      if k < |lines| {
        assert LinkedAt(lines, k);
      }
    }
  }

  lemma LastTagOfChain(lines: seq<Logged>, from: nat)
    requires Linked(lines) && from < |lines|
    ensures LastTag(lines[from..]) == Some(TagBefore(lines, |lines|))
  {
    hide Canonical;
    var last := |lines| - 1;
    assert LinkedAt(lines, last);
    assert lines[from..][|lines[from..]| - 1] == lines[last];
  }

  /** The predecessor read back from disk is always the last signature ever issued. */
  lemma PredecessorIsLast(s: State)
    requires OneChain(s) && Segmented(s)
    ensures Predecessor(s.disk) == TagBefore(s.signed, |s.signed|)
  {
    hide Linked;
    var backup, current := LinesOf(s.disk.backup), LinesOf(s.disk.current);
    if current != [] {
      var from := |s.signed| - |current|;
      assert current == s.signed[s.gone..][|backup|..] == s.signed[from..];
      LastTagOfChain(s.signed, from);
    } else if backup != [] {
      assert backup == s.signed[s.gone..];
      LastTagOfChain(s.signed, s.gone);
    }
  }

  lemma RotateRetained(disk: Disk, renames: bool)
    ensures |LinesOf(disk.backup)| <= |Retained(disk)|
    ensures Retained(Rotate(disk, renames)) ==
            if Full(disk) && renames then Retained(disk)[|LinesOf(disk.backup)|..] else Retained(disk)
  {
  }

  lemma RotateOneChain(s: State, w: nat, renames: bool)
    requires OneChain(s) && PhaseOf(s, w).Holding?
    ensures OneChain(Step(s, TryRotate(w, renames), true))
  {
    hide Linked, LinesOf, Retained, Rotate, PhaseOf;
    RotateRetained(s.disk, renames);
    var n := |LinesOf(s.disk.backup)|;
    assert s.signed[s.gone..][n..] == s.signed[s.gone + n..];
  }

  lemma EmitOneChain(s: State, w: nat, key: Key, rec: Record, missed: U64)
    requires OneChain(s) && PhaseOf(s, w) == Ready(TagBefore(s.signed, |s.signed|))
    ensures OneChain(Step(s, Emit(w, key, rec, missed, true), true))
  {
    hide Linked, Format, Append, Retained, PhaseOf, TagBefore, Hmac.KeyBlock;
    var block := Hmac.KeyBlock(key);
    ChainGrows(s.signed, block, rec, missed);
    AppendRetained(s.disk, block, PhaseOf(s, w).previous, Format(rec, missed));
  }

  lemma StepOneChain(s: State, e: Event)
    requires Orderly(s) && !e.Tamper?
    ensures OneChain(Step(s, e, true))
  {
    hide Segmented, Format, Append, Rotate, Retained, Linked, Hmac.KeyBlock;
    if e.TryRotate? && PhaseOf(s, e.writer).Holding? {
      hide Step;
      RotateOneChain(s, e.writer, e.renames);
    } else if e.Emit? && PhaseOf(s, e.writer).Ready? && e.appends {
      hide Step;
      EmitOneChain(s, e.writer, e.key, e.rec, e.missed);
    }
  }

  lemma StepSegmented(s: State, e: Event)
    requires Orderly(s) && !e.Tamper?
    ensures Segmented(Step(s, e, true))
  {
    hide OneChain, Format, Predecessor, Exclusive, LineBytes, PhaseOf, Signed, Hmac.KeyBlock;
    if e.TryRotate? {
      hide Append;
    } else if e.Emit? {
      hide LinesOf, Rotate;
    } else {
      hide LinesOf, Rotate, Append;
    }
  }

  lemma StepExclusive(s: State, e: Event)
    requires Orderly(s) && !e.Tamper?
    ensures Exclusive(Step(s, e, true))
  {
    hide OneChain, Segmented, Format, Append, Rotate, Predecessor, Hmac.KeyBlock;
    if e.Fetch? {
      PredecessorIsLast(s);
    }
  }

  lemma StepOrderly(s: State, e: Event)
    requires Orderly(s) && !e.Tamper?
    ensures Orderly(Step(s, e, true))
  {
    hide Step, OneChain, Segmented, Exclusive;
    StepOneChain(s, e);
    StepSegmented(s, e);
    StepExclusive(s, e);
  }

  lemma {:induction false} RunOrderly(s: State, events: seq<Event>)
    requires Orderly(s) && Untouched(events)
    ensures Orderly(Run(s, events, true))
    decreases |events|
  {
    hide Step;
    if events != [] {
      assert events[0] in events;
      StepOrderly(s, events[0]);
      RunOrderly(Step(s, events[0], true), events[1..]);
    }
  }

  /** For any number of writers, any interleaving, deaths and rotations: what is
  retained is one contiguous window of a single unforked chain. */
  lemma RetainedIsWindow(events: seq<Event>)
    requires Untouched(events)
    ensures var s := Run(START, events, true);
            Linked(s.signed) && s.gone <= |s.signed| && Retained(s.disk) == s.signed[s.gone..]
  {
    assert Orderly(START);
    hide Step;
    RunOrderly(START, events);
  }

  /** The first line that was signed with another key, or the number of lines. */
  function FirstOther(lines: seq<Logged>, block: Key): (k: nat)
    ensures k <= |lines|
    ensures forall j :: 0 <= j < k ==> BlockOf(lines[j]) == block
    ensures k < |lines| ==> BlockOf(lines[k]) != block
  {
    if lines == [] || BlockOf(lines[0]) != block then 0
    else
      var k := 1 + FirstOther(lines[1..], block);
      assert forall j :: 1 <= j < |lines| ==> lines[j] == lines[1..][j - 1];
      k
  }

  /** Where line `k` of the retained ones is found. */
  function BrokenAt(disk: Disk, k: nat, problem: Problem): Verdict {
    var first := |LinesOf(disk.backup)|;
    if k < first then Broken(InBackup, k, problem) else Broken(InCurrent, k - first, problem)
  }

  /** What `Verify` answers after a run with at most one rotation. */
  function Answer(disk: Disk, signed: seq<Logged>, key: Key): Verdict {
    var k := FirstOther(signed, Hmac.KeyBlock(key));
    if k < |signed| then BrokenAt(disk, k, Mismatch)
    else if disk.current.None? then Unreadable
    else Valid(|signed|)
  }

  /** What `Verify` answers after a run, exactly: a discontinuity after a second rotation; before it a
      mismatch at the first line that was signed with another key; the whole history when there is none. */
  lemma VerdictAfterRun(events: seq<Event>, key: Key, v: Verdict)
    requires Untouched(events) && |key| >= 32
    requires Deserves(Run(START, events, true).disk, key, v)
    ensures var s := Run(START, events, true);
            v == if s.rotations > 1 then Broken(InBackup, 0, Discontinuity) else Answer(s.disk, s.signed, key)
  {
    hide *;
    var s := Run(START, events, true);
    StartOrderly();
    RunOrderly(START, events);
    if s.rotations > 1 {
      OrphanVerdict(s, key);
      VerdictIsUnique(s.disk, key, v, Broken(InBackup, 0, Discontinuity));
    } else {
      OrderlyVerdict(s, key);
      VerdictIsUnique(s.disk, key, v, Answer(s.disk, s.signed, key));
    }
  }

  lemma StartOrderly()
    ensures Orderly(START)
  {
  }

  lemma WholeRetained(s: State)
    requires Orderly(s) && s.rotations <= 1
    ensures Retained(s.disk) == s.signed && Linked(s.signed)
  {
    hide Linked, Exclusive;
  }

  lemma DeservesBroken(disk: Disk, key: Key, k: nat, problem: Problem)
    requires |key| >= 32 && k < |Retained(disk)|
    requires forall j :: 0 <= j < k ==> GoodAt(Retained(disk), j, Hmac.KeyBlock(key))
    requires Judge(Retained(disk)[k], TagBefore(Retained(disk), k), Hmac.KeyBlock(key)) == Some(problem)
    ensures Deserves(disk, key, BrokenAt(disk, k, problem))
  {
    hide GoodAt, Judge, Hmac.KeyBlock;
  }

  lemma OrderlyVerdict(s: State, key: Key)
    requires Orderly(s) && s.rotations <= 1 && |key| >= 32
    ensures Deserves(s.disk, key, Answer(s.disk, s.signed, key))
  {
    hide *;
    WholeRetained(s);
    var block := Hmac.KeyBlock(key);
    var k := FirstOther(s.signed, block);
    forall j | 0 <= j < k ensures GoodAt(s.signed, j, block) {
      LinkedJudged(s.signed, j, block);
    }
    AnswerIs(s.disk, s.signed, key);
    if k < |s.signed| {
      LinkedJudged(s.signed, k, block);
      DeservesBroken(s.disk, key, k, Mismatch);
    } else {
      Accepts(s.disk, key);
    }
  }

  lemma AnswerIs(disk: Disk, signed: seq<Logged>, key: Key)
    ensures var k := FirstOther(signed, Hmac.KeyBlock(key));
            Answer(disk, signed, key) ==
            if k < |signed| then BrokenAt(disk, k, Mismatch)
            else if disk.current.None? then Unreadable
            else Valid(|signed|)
  {
    hide FirstOther, BrokenAt, Hmac.KeyBlock;
  }

  lemma OrphanVerdict(s: State, key: Key)
    requires Orderly(s) && s.rotations > 1 && |key| >= 32
    ensures Deserves(s.disk, key, Broken(InBackup, 0, Discontinuity))
  {
    hide *;
    FirstIsOrphan(s, Hmac.KeyBlock(key));
    DeservesBroken(s.disk, key, 0, Discontinuity);
    BackupFirst(s.disk, Discontinuity);
  }

  lemma BackupFirst(disk: Disk, problem: Problem)
    requires LinesOf(disk.backup) != []
    ensures BrokenAt(disk, 0, problem) == Broken(InBackup, 0, problem) && |Retained(disk)| > 0
  {
  }

  lemma FirstIsOrphan(s: State, block: Key)
    requires Orderly(s) && s.rotations > 1
    ensures LinesOf(s.disk.backup) != [] && |Retained(s.disk)| > 0
    ensures Judge(Retained(s.disk)[0], TagBefore(Retained(s.disk), 0), block) == Some(Discontinuity)
  {
    hide Canonical;
    assert Retained(s.disk)[0] == s.signed[s.gone];
    assert LinkedAt(s.signed, s.gone) && LinkedAt(s.signed, s.gone - 1);
  }

  // ---- One key for all writers ----

  /** Every append is made with the key `signer`, or one that HMAC does not tell from it. */
  predicate SignedWith(events: seq<Event>, signer: Key) {
    forall e | e in events :: e.Emit? ==> Hmac.KeyBlock(e.key) == Hmac.KeyBlock(signer)
  }

  ghost predicate AllUnder(s: State, block: Key) {
    forall l :: l in s.signed ==> BlockOf(l) == block
  }

  lemma StepUnder(s: State, e: Event, block: Key)
    requires AllUnder(s, block) && (e.Emit? ==> Hmac.KeyBlock(e.key) == block)
    ensures AllUnder(Step(s, e, true), block)
  {
    hide Format, Append, Rotate, Predecessor, Hmac.KeyBlock, Known;
  }

  lemma {:induction false} RunUnder(s: State, events: seq<Event>, signer: Key)
    requires AllUnder(s, Hmac.KeyBlock(signer)) && SignedWith(events, signer)
    ensures AllUnder(Run(s, events, true), Hmac.KeyBlock(signer))
    decreases |events|
  {
    hide Step, AllUnder, Hmac.KeyBlock;
    if events != [] {
      assert events[0] in events;
      StepUnder(s, events[0], Hmac.KeyBlock(signer));
      RunUnder(Step(s, events[0], true), events[1..], signer);
    }
  }

  lemma StartUnder(block: Key)
    ensures AllUnder(START, block)
  {
  }

  lemma UnderFirst(s: State, block: Key, other: Key)
    requires AllUnder(s, block)
    ensures FirstOther(s.signed, other) == if s.signed == [] || block != other then 0 else |s.signed|
  {
    var k := FirstOther(s.signed, other);
    hide FirstOther;
    if s.signed != [] {
      assert s.signed[0] in s.signed;
      if k < |s.signed| {
        assert s.signed[k] in s.signed;
      }
    }
  }

  /** With one key for all writers, an honest log of at most one rotation and a current segment is valid
      if and only if nothing was signed or HMAC does not tell the verifier's key from the writers'; a
      verifier with another key finds a mismatch at the first line. */
  lemma ValidIffSameKey(events: seq<Event>, signer: Key, key: Key, v: Verdict)
    requires Untouched(events) && SignedWith(events, signer) && |key| >= 32
    requires Deserves(Run(START, events, true).disk, key, v)
    requires Run(START, events, true).rotations <= 1
    ensures var s := Run(START, events, true);
            var same := Hmac.KeyBlock(key) == Hmac.KeyBlock(signer);
            && (v == Valid(|s.signed|) <==> s.disk.current.Some? && (s.signed == [] || same))
            && (s.signed != [] && !same ==> v == BrokenAt(s.disk, 0, Mismatch))
  {
    hide *;
    var s := Run(START, events, true);
    StartUnder(Hmac.KeyBlock(signer));
    RunUnder(START, events, signer);
    UnderFirst(s, Hmac.KeyBlock(signer), Hmac.KeyBlock(key));
    VerdictAfterRun(events, key, v);
    AnswerIs(s.disk, s.signed, key);
    BrokenIsBroken(s.disk, 0, Mismatch);
  }

  lemma BrokenIsBroken(disk: Disk, k: nat, problem: Problem)
    ensures BrokenAt(disk, k, problem).Broken?
  {
  }

  // ---- Tampering afterwards ----

  function Depth(t: Tag): nat {
    if t.Mac? then 1 + Depth(t.previous) else 0
  }

  lemma {:induction false} DepthOfChain(lines: seq<Logged>, k: nat)
    requires Linked(lines) && k <= |lines|
    ensures Depth(TagBefore(lines, k)) == k
  {
    hide Canonical;
    if k > 0 {
      assert LinkedAt(lines, k - 1);
      DepthOfChain(lines, k - 1);
    }
  }

  /** A chain under one key is a chain. */
  lemma ChainedIff(lines: seq<Logged>, block: Key)
    ensures Chained(lines, block) <==> Linked(lines) && forall k :: 0 <= k < |lines| ==> BlockOf(lines[k]) == block
  {
    hide Canonical;
    if Linked(lines) && forall k :: 0 <= k < |lines| ==> BlockOf(lines[k]) == block {
      forall k | 0 <= k < |lines| ensures GoodAt(lines, k, block) {
        LinkedJudged(lines, k, block);
      }
    }
    if Chained(lines, block) {
      forall k | 0 <= k < |lines| ensures LinkedAt(lines, k) && BlockOf(lines[k]) == block {
        assert GoodAt(lines, k, block);
      }
    }
  }

  /** Two lines say the same: the same event after the same predecessor, signed. */
  ghost predicate Agrees(l: Logged, m: Logged) {
    && l.Logged? && m.Logged?
    && Canonical(l.event) == Canonical(m.event) && l.previous == m.previous && l.hmac == m.hmac
  }

  ghost predicate AllIssued(lines: seq<Logged>, signed: seq<Logged>) {
    forall l :: l in lines && l.Logged? && l.hmac.Some? && l.hmac.value.Mac? ==> Issued(signed, l.hmac.value)
  }

  lemma {:induction false} AcceptedAgrees(lines: seq<Logged>, signed: seq<Logged>, k: nat)
    requires Linked(lines) && Linked(signed) && k < |lines| && AllIssued(lines, signed)
    ensures k < |signed| && Agrees(lines[k], signed[k])
  {
    hide Canonical, Linked;
    LinkedIs(lines, k);
    assert lines[k] in lines;
    var m :| m in signed && m.Logged? && m.hmac == lines[k].hmac;
    var j :| 0 <= j < |signed| && signed[j] == m;
    LinkedIs(signed, j);
    DepthOfChain(lines, k);
    DepthOfChain(signed, j);
  }

  /** The first `n` lines agree with the signed history, one by one. */
  ghost predicate AgreesUpTo(lines: seq<Logged>, signed: seq<Logged>, n: nat) {
    n == |lines| <= |signed| && forall k :: 0 <= k < n ==> Agrees(lines[k], signed[k])
  }

  /** The first `n` lines were signed with keys that HMAC does not tell from this one. */
  ghost predicate UnderKey(signed: seq<Logged>, n: nat, key: Key) {
    n <= |signed| && forall k :: 0 <= k < n ==> BlockOf(signed[k]) == Hmac.KeyBlock(key)
  }

  lemma AgreeingIsLinked(lines: seq<Logged>, signed: seq<Logged>, n: nat)
    requires Linked(signed) && AgreesUpTo(lines, signed, n)
    ensures Linked(lines)
  {
    hide Canonical, Linked;
    forall k | 0 <= k < |lines| ensures LinkedAt(lines, k) {
      LinkedIs(signed, k);
      assert Agrees(lines[k], signed[k]);
      assert k > 0 ==> Agrees(lines[k - 1], signed[k - 1]);
    }
    LinkedWhen(lines);
  }

  lemma LinkedWhen(lines: seq<Logged>)
    requires forall k :: 0 <= k < |lines| ==> LinkedAt(lines, k)
    ensures Linked(lines)
  {
    hide LinkedAt;
  }

  lemma LinkedAgrees(lines: seq<Logged>, signed: seq<Logged>)
    requires Linked(lines) && Linked(signed) && AllIssued(lines, signed)
    ensures AgreesUpTo(lines, signed, |lines|)
  {
    hide Linked, Agrees, AllIssued;
    if |lines| > |signed| {
      AcceptedAgrees(lines, signed, |signed|);
    }
    forall k | 0 <= k < |lines| ensures Agrees(lines[k], signed[k]) {
      AcceptedAgrees(lines, signed, k);
    }
  }

  lemma AgreeingBlocks(lines: seq<Logged>, signed: seq<Logged>, n: nat)
    requires AgreesUpTo(lines, signed, n)
    ensures forall k :: 0 <= k < n ==> BlockOf(lines[k]) == BlockOf(signed[k])
  {
    hide Canonical;
  }

  lemma ValidIs(disk: Disk, key: Key, n: nat)
    ensures Deserves(disk, key, Valid(n)) <==>
            && |key| >= 32 && disk.current.Some?
            && Chained(Retained(disk), Hmac.KeyBlock(key)) && n == |Retained(disk)|
  {
    hide Chained, Retained, Hmac.KeyBlock;
  }

  /** For any history of one chain: a disk built from its signatures is accepted exactly when it retains
      a prefix of it, line for line, that was signed with the verifier's key. */
  lemma AcceptedIffOfChain(signed: seq<Logged>, disk: Disk, key: Key, n: nat)
    requires Linked(signed) && |key| >= 32 && AllIssued(Retained(disk), signed)
    ensures Deserves(disk, key, Valid(n)) <==>
            disk.current.Some? && AgreesUpTo(Retained(disk), signed, n) && UnderKey(signed, n, key)
  {
    hide Linked, Chained, Agrees, Retained, Deserves, Hmac.KeyBlock, AllIssued;
    var lines := Retained(disk);
    ValidIs(disk, key, n);
    ChainedIff(lines, Hmac.KeyBlock(key));
    if AgreesUpTo(lines, signed, n) {
      AgreeingIsLinked(lines, signed, n);
      AgreeingBlocks(lines, signed, n);
    }
    if Linked(lines) {
      LinkedAgrees(lines, signed);
      AgreeingBlocks(lines, signed, |lines|);
    }
  }

  lemma KnownIsIssued(disk: Disk, signed: seq<Logged>)
    ensures Known(disk, signed) <==> AllIssued(Retained(disk), signed)
  {
    hide Retained, Issued;
  }

  /** Tamper evidence, both ways: a disk built from the issued signatures is accepted
  exactly when it retains a prefix of the signed history, line for line, and all of it
  was signed with the verifier's key. */
  lemma AcceptedIffPrefix(events: seq<Event>, disk: Disk, key: Key, n: nat)
    requires Untouched(events) && |key| >= 32
    requires Known(disk, Run(START, events, true).signed)
    ensures var signed := Run(START, events, true).signed;
            Deserves(disk, key, Valid(n)) <==>
            disk.current.Some? && AgreesUpTo(Retained(disk), signed, n) && UnderKey(signed, n, key)
  {
    hide *;
    RetainedIsWindow(events);
    KnownIsIssued(disk, Run(START, events, true).signed);
    AcceptedIffOfChain(Run(START, events, true).signed, disk, key, n);
  }

  // ---- Bounded size ----

  /** Renames succeed and no line is longer than `width`. */
  ghost predicate Moderate(e: Event, width: nat) {
    && !e.Tamper?
    && (e.TryRotate? ==> e.renames)
    && (e.Emit? ==> Utf8Bytes(Format(e.rec, e.missed)) + 168 <= width)
  }

  ghost predicate Bounded(s: State, width: nat) {
    && (s.disk.current.Some? ==> s.disk.current.value.bytes < MAX_BYTES + width)
    && (s.disk.backup.Some? ==> s.disk.backup.value.bytes < MAX_BYTES + width)
    && (forall w :: w in s.writers && (s.writers[w].Rotated? || s.writers[w].Ready?) ==> !Full(s.disk))
  }

  lemma StepBounded(s: State, e: Event, width: nat)
    requires Orderly(s) && Bounded(s, width) && Moderate(e, width)
    ensures Bounded(Step(s, e, true), width)
  {
    hide OneChain, Segmented, Format, Utf8Bytes, Predecessor, Signed, Hmac.KeyBlock;
  }

  /** Neither retained segment ever exceeds the rotation limit by a whole line. */
  lemma {:induction false} LogIsBounded(s: State, events: seq<Event>, width: nat)
    requires Orderly(s) && Bounded(s, width)
    requires forall e :: e in events ==> Moderate(e, width)
    ensures Bounded(Run(s, events, true), width)
    decreases |events|
  {
    hide Step, Orderly, Bounded;
    if events != [] {
      assert events[0] in events;
      StepOrderly(s, events[0]);
      StepBounded(s, events[0], width);
      LogIsBounded(Step(s, events[0], true), events[1..], width);
    }
  }

  // ---- The lock is what keeps the chain ----

  lemma {:induction false} RunThen(s: State, events: seq<Event>, e: Event, locks: bool)
    ensures Run(s, events + [e], locks) == Step(Run(s, events, locks), e, locks)
    decreases |events|
  {
    hide Step;
    if events == [] {
      assert (events + [e])[1..] == [];
    } else {
      assert (events + [e])[1..] == events[1..] + [e];
      RunThen(Step(s, events[0], locks), events[1..], e, locks);
    }
  }

  /** A writer that is left alone does what `Log.WriteRecordLocked` does in one call, and frees the lock. */
  lemma LockedWriteIsSteps(s: State, w: nat, key: Key, rec: Record, missed: U64, renames: bool,
                           appends: bool)
    requires s.holder.None? && PhaseOf(s, w).Idle?
    ensures var rotated := Rotate(s.disk, renames);
            var (block, event) := (Hmac.KeyBlock(key), Format(rec, missed));
            var turn := [Acquire(w), TryRotate(w, renames), Fetch(w), Emit(w, key, rec, missed, appends), Release(w)];
            var t := Run(s, turn, true);
            && t.disk == (if appends then Append(rotated, block, Predecessor(rotated), event) else rotated)
            && |t.signed| == |s.signed| + (if appends then 1 else 0)
            && t.holder.None? && PhaseOf(t, w).Idle?
  {
    hide Format, Append, Rotate, Predecessor, Run, Full, Hmac.KeyBlock;
    var e0, e1, e2 := Acquire(w), TryRotate(w, renames), Fetch(w);
    var e3, e4 := Emit(w, key, rec, missed, appends), Release(w);
    RunNone(s, true);
    RunThen(s, [], e0, true);
    RunThen(s, [e0], e1, true);
    RunThen(s, [e0, e1], e2, true);
    RunThen(s, [e0, e1, e2], e3, true);
    RunThen(s, [e0, e1, e2, e3], e4, true);
    assert [] + [e0] == [e0] && [e0] + [e1] == [e0, e1] && [e0, e1] + [e2] == [e0, e1, e2];
    assert [e0, e1, e2] + [e3] == [e0, e1, e2, e3] && [e0, e1, e2, e3] + [e4] == [e0, e1, e2, e3, e4];
  }

  lemma RunNone(s: State, locks: bool)
    ensures Run(s, [], locks) == s
  {
  }

  // ---- Every long history ----

  /** More lines than a segment can hold when the next write rotates it; no line has fewer than 104 bytes. */
  const CAPACITY := MAX_BYTES / 104 + 1

  predicate Renaming(events: seq<Event>) {
    forall e | e in events :: e.TryRotate? ==> e.renames
  }

  ghost predicate Packed(s: State) {
    && (s.disk.current.Some? ==>
          var segment := s.disk.current.value; 104 * |segment.lines| <= segment.bytes && |segment.lines| <= CAPACITY)
    && (forall w :: w in s.writers && (s.writers[w].Rotated? || s.writers[w].Ready?) ==> !Full(s.disk))
    && |s.signed| <= s.rotations * CAPACITY + |LinesOf(s.disk.current)|
  }

  lemma StepPacked(s: State, e: Event)
    requires Orderly(s) && Packed(s) && !e.Tamper? && (e.TryRotate? ==> e.renames)
    ensures Packed(Step(s, e, true))
  {
    hide OneChain, Segmented, Format, Utf8Bytes, Predecessor, Signed, Hmac.KeyBlock;
  }

  lemma {:induction false} RunPacked(s: State, events: seq<Event>)
    requires Orderly(s) && Packed(s) && Untouched(events) && Renaming(events)
    ensures Packed(Run(s, events, true))
    decreases |events|
  {
    hide Step, Orderly, Packed;
    if events != [] {
      assert events[0] in events;
      StepOrderly(s, events[0]);
      StepPacked(s, events[0]);
      RunPacked(Step(s, events[0], true), events[1..]);
    }
  }

  lemma PackedRotates(s: State)
    requires Packed(s) && |s.signed| > 2 * CAPACITY
    ensures s.rotations > 1
  {
  }

  lemma StartPacked()
    ensures Packed(START)
  {
  }

  /** Whatever is recorded and however the writers interleave: once more lines are signed than two
      segments hold, the honest log is called broken. */
  lemma LongLogBreaks(events: seq<Event>, key: Key, v: Verdict)
    requires Untouched(events) && Renaming(events) && |key| >= 32
    requires |Run(START, events, true).signed| > 2 * CAPACITY
    requires Deserves(Run(START, events, true).disk, key, v)
    ensures v == Broken(InBackup, 0, Discontinuity)
  {
    hide *;
    StartOrderly();
    StartPacked();
    RunPacked(START, events);
    PackedRotates(Run(START, events, true));
    VerdictAfterRun(events, key, v);
  }

  /** One writer recording `rec` again and again. */
  function Turns(signer: Key, rec: Record, n: nat): seq<Event> {
    if n == 0 then []
    else
      Turns(signer, rec, n - 1)
      + [Acquire(0), TryRotate(0, true), Fetch(0), Emit(0, signer, rec, 0, true), Release(0)]
  }

  lemma {:induction false} RunConcat(s: State, a: seq<Event>, b: seq<Event>)
    ensures Run(s, a + b, true) == Run(Run(s, a, true), b, true)
    decreases |a|
  {
    hide Step;
    if a == [] {
      assert a + b == b;
    } else {
      assert (a + b)[1..] == a[1..] + b;
      RunConcat(Step(s, a[0], true), a[1..], b);
    }
  }

  lemma {:induction false} TurnsSign(signer: Key, rec: Record, n: nat)
    ensures Untouched(Turns(signer, rec, n)) && Renaming(Turns(signer, rec, n))
    ensures var s := Run(START, Turns(signer, rec, n), true); |s.signed| == n && s.holder.None? && PhaseOf(s, 0).Idle?
  {
    hide Run, Step, Append, Rotate, Predecessor, Format, PhaseOf, Hmac.KeyBlock;
    RunNone(START, true);
    if n == 0 {
      assert PhaseOf(START, 0).Idle? by { StartIdle(); }
    } else {
      TurnsSign(signer, rec, n - 1);
      var turn := [Acquire(0), TryRotate(0, true), Fetch(0), Emit(0, signer, rec, 0, true), Release(0)];
      RunConcat(START, Turns(signer, rec, n - 1), turn);
      LockedWriteIsSteps(Run(START, Turns(signer, rec, n - 1), true), 0, signer, rec, 0, true, true);
    }
  }

  lemma StartIdle()
    ensures PhaseOf(START, 0).Idle?
  {
  }

  /** A run of one writer, nobody tampering, that the verifier calls broken. */
  lemma SecondRotationBreaks(signer: Key, rec: Record, n: nat, key: Key, v: Verdict)
    requires n > 2 * CAPACITY && |key| >= 32
    requires Deserves(Run(START, Turns(signer, rec, n), true).disk, key, v)
    ensures Untouched(Turns(signer, rec, n)) && v == Broken(InBackup, 0, Discontinuity)
  {
    hide *;
    TurnsSign(signer, rec, n);
    LongLogBreaks(Turns(signer, rec, n), key, v);
  }

  // ---- Two writers without a lock ----

  function Race(p: Key, q: Key, a: Record, b: Record): seq<Event> {
    [Acquire(1), Acquire(2), TryRotate(1, true), TryRotate(2, true), Fetch(1), Fetch(2)]
    + [Emit(1, p, a, 0, true)] + [Emit(2, q, b, 0, true)]
  }

  lemma RaceRuns(p: Key, q: Key, a: Record, b: Record)
    ensures Untouched(Race(p, q, a, b))
    ensures var s := Run(START, Race(p, q, a, b), false);
            && s.disk.backup.None? && s.disk.current.Some?
            && Retained(s.disk) ==
               [Signed(Hmac.KeyBlock(p), Blank, Format(a, 0)), Signed(Hmac.KeyBlock(q), Blank, Format(b, 0))]
  {
    hide Format, Run, Signed, Hmac.KeyBlock;
    var six := [Acquire(1), Acquire(2), TryRotate(1, true), TryRotate(2, true), Fetch(1), Fetch(2)];
    var s := Prepared();
    RunThen(START, six, Emit(1, p, a, 0, true), false);
    RunThen(START, six + [Emit(1, p, a, 0, true)], Emit(2, q, b, 0, true), false);
  }

  lemma ForkJudged(block: Key, p: Key, q: Key, a: Record, b: Record)
    ensures var lines := [Signed(p, Blank, Format(a, 0)), Signed(q, Blank, Format(b, 0))];
            && Judge(lines[0], TagBefore(lines, 0), block) == (if p == block then None else Some(Mismatch))
            && Judge(lines[1], TagBefore(lines, 1), block) == Some(Discontinuity)
  {
    hide Format, Canonical, Parse;
    CanonicalOfFormat(a, 0);
    CanonicalOfFormat(b, 0);
  }

  /** Where locking does nothing, two writers fork the chain, whatever they record: a verifier with the key
      of the first finds a discontinuity at the second line, any other a mismatch at the first. */
  lemma WithoutLocksItForks(p: Key, q: Key, a: Record, b: Record, key: Key)
    requires |key| >= 32
    ensures Untouched(Race(p, q, a, b))
    ensures Deserves(Run(START, Race(p, q, a, b), false).disk, key,
                     if Hmac.KeyBlock(p) == Hmac.KeyBlock(key) then Broken(InCurrent, 1, Discontinuity)
                     else Broken(InCurrent, 0, Mismatch))
  {
    hide *;
    RaceRuns(p, q, a, b);
    var disk := Run(START, Race(p, q, a, b), false).disk;
    var block := Hmac.KeyBlock(key);
    ForkJudged(block, Hmac.KeyBlock(p), Hmac.KeyBlock(q), a, b);
    GoodIs(Retained(disk), 0, block);
    NoBackup(disk);
    if Hmac.KeyBlock(p) == block {
      DeservesBroken(disk, key, 1, Discontinuity);
    } else {
      DeservesBroken(disk, key, 0, Mismatch);
    }
  }

  lemma GoodIs(lines: seq<Logged>, k: nat, block: Key)
    requires k < |lines|
    ensures GoodAt(lines, k, block) <==> Judge(lines[k], TagBefore(lines, k), block).None?
  {
    hide Judge;
  }

  lemma NoBackup(disk: Disk)
    requires disk.backup.None?
    ensures forall k: nat, problem :: BrokenAt(disk, k, problem) == Broken(InCurrent, k, problem)
  {
  }

  // ---- Another key ----

  function Filled(x: Sha256.Byte): Key {
    seq(32, _ => x)
  }

  lemma KeysDiffer()
    ensures Hmac.KeyBlock(Filled(1)) != Hmac.KeyBlock(Filled(2))
  {
    hide Hmac.KeyBlock;
    Hmac.ShortKeysAgreeIff(Filled(1), Filled(2));
    assert (Filled(1) + Sha256.Zeros(0))[0] == 1 && Filled(2)[0] == 2;
  }

  lemma OneTurn(signer: Key, rec: Record)
    ensures var s := Run(START, Turns(signer, rec, 1), true);
            && s.disk == Append(START.disk, Hmac.KeyBlock(signer), Blank, Format(rec, 0))
            && Untouched(Turns(signer, rec, 1))
  {
    hide Run, Step, Append, Format, PhaseOf, Hmac.KeyBlock;
    StartIdle();
    LockedWriteIsSteps(START, 0, signer, rec, 0, true, true);
    TurnsSign(signer, rec, 1);
    assert Turns(signer, rec, 0) == [];
    var turn := [Acquire(0), TryRotate(0, true), Fetch(0), Emit(0, signer, rec, 0, true), Release(0)];
    assert Turns(signer, rec, 1) == [] + turn == turn;
    assert Rotate(START.disk, true) == START.disk && Predecessor(START.disk) == Blank;
  }

  lemma OneLine(block: Key, rec: Record, key: Key)
    requires |key| >= 32
    ensures Deserves(Append(START.disk, block, Blank, Format(rec, 0)), key,
                     if block == Hmac.KeyBlock(key) then Valid(1) else Broken(InCurrent, 0, Mismatch))
  {
    hide Format, Canonical, Parse, Hmac.KeyBlock;
    CanonicalOfFormat(rec, 0);
  }

  /** One honest record, two keys of full length: the signer's accepts it, the other reports a mismatch. */
  lemma OtherKeyMismatch(rec: Record)
    ensures var disk := Run(START, Turns(Filled(1), rec, 1), true).disk;
            && Untouched(Turns(Filled(1), rec, 1))
            && Deserves(disk, Filled(1), Valid(1))
            && Deserves(disk, Filled(2), Broken(InCurrent, 0, Mismatch))
  {
    hide *;
    FilledLength();
    KeysDiffer();
    OneTurn(Filled(1), rec);
    OneLine(Hmac.KeyBlock(Filled(1)), rec, Filled(1));
    OneLine(Hmac.KeyBlock(Filled(1)), rec, Filled(2));
  }

  lemma FilledLength()
    ensures |Filled(1)| == 32 && |Filled(2)| == 32
  {
  }

  /** Both writers have rotated and read the predecessor before either appends. */
  lemma Prepared() returns (s: State)
    ensures s == Run(START, [Acquire(1), Acquire(2), TryRotate(1, true), TryRotate(2, true), Fetch(1), Fetch(2)], false)
    ensures s.disk == START.disk && PhaseOf(s, 1) == Ready(Blank) && PhaseOf(s, 2) == Ready(Blank)
  {
    hide Run;
    var e0, e1, e2, e3, e4, e5 := Acquire(1), Acquire(2), TryRotate(1, true), TryRotate(2, true), Fetch(1), Fetch(2);
    s := Run(START, [e0, e1, e2, e3, e4, e5], false);
    var t := Run(START, [e0, e1, e2], false);
    assert t.disk == START.disk && PhaseOf(t, 1).Rotated? && PhaseOf(t, 2).Holding? by {
      RunNone(START, false);
      RunThen(START, [], e0, false);
      RunThen(START, [e0], e1, false);
      RunThen(START, [e0, e1], e2, false);
      assert [] + [e0] == [e0] && [e0] + [e1] == [e0, e1] && [e0, e1] + [e2] == [e0, e1, e2];
    }
    RunThen(START, [e0, e1, e2], e3, false);
    RunThen(START, [e0, e1, e2, e3], e4, false);
    RunThen(START, [e0, e1, e2, e3, e4], e5, false);
    assert [e0, e1, e2] + [e3] == [e0, e1, e2, e3] && [e0, e1, e2, e3] + [e4] == [e0, e1, e2, e3, e4];
    assert [e0, e1, e2, e3, e4] + [e5] == [e0, e1, e2, e3, e4, e5];
  }
}
