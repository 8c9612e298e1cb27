/** The bounded queue between request threads and the audit writer, and what it loses. */
module AuditQueue {
  import opened AuditEvent

  // A rejected send and the increment of the loss counter are two steps, and so are
  // the writer's receive, its swap of the counter and its write; all of them interleave.

  const QUEUE_CAPACITY := 2048

  /** How a received record ended: written with the losses it reports, or lost in a failed write. */
  datatype Outcome = Wrote(rec: Record, droppedBefore: nat) | Failed(rec: Record)

  datatype Writer = Waiting | Received(rec: Record) | Counted(rec: Record)

  /** `raising` counts the rejected sends whose increment is still to come; `accepted`
  and `rejected` are the history of all sends. */
  datatype State = State(
    queue: seq<Record>,
    counter: nat,
    raising: nat,
    writer: Writer,
    missed: nat,
    outcomes: seq<Outcome>,
    accepted: seq<Record>,
    rejected: nat
  )

  datatype Event = Send(rec: Record) | Raise | Receive | Swap | Write(succeeds: bool)

  const START := State([], 0, 0, Waiting, 0, [], [], 0)

  function Step(s: State, e: Event): State {
    match e
    case Send(rec) =>
      if |s.queue| < QUEUE_CAPACITY then s.(queue := s.queue + [rec], accepted := s.accepted + [rec])
      else s.(rejected := s.rejected + 1, raising := s.raising + 1)
    case Raise =>
      if s.raising > 0 then s.(raising := s.raising - 1, counter := s.counter + 1) else s
    case Receive =>
      if s.writer.Waiting? && s.queue != [] then s.(writer := Received(s.queue[0]), queue := s.queue[1..]) else s
    case Swap =>
      if s.writer.Received? then s.(writer := Counted(s.writer.rec), missed := s.missed + s.counter, counter := 0)
      else s
    case Write(succeeds) =>
      if !s.writer.Counted? then s
      else if succeeds then
        s.(writer := Waiting, outcomes := s.outcomes + [Wrote(s.writer.rec, s.missed)], missed := 0)
      else s.(writer := Waiting, outcomes := s.outcomes + [Failed(s.writer.rec)])
  }

  function Run(s: State, events: seq<Event>): State
    decreases |events|
  {
    if events == [] then s else Run(Step(s, events[0]), events[1..])
  }

  /** The losses that the written records report. */
  function Reported(outcomes: seq<Outcome>): nat {
    if outcomes == [] then 0
    else
      var last := outcomes[|outcomes| - 1];
      Reported(outcomes[..|outcomes| - 1]) + if last.Wrote? then last.droppedBefore else 0
  }

  function Failures(outcomes: seq<Outcome>): nat {
    if outcomes == [] then 0
    else Failures(outcomes[..|outcomes| - 1]) + if outcomes[|outcomes| - 1].Failed? then 1 else 0
  }

  function Records(outcomes: seq<Outcome>): seq<Record> {
    if outcomes == [] then [] else Records(outcomes[..|outcomes| - 1]) + [outcomes[|outcomes| - 1].rec]
  }

  /** What the writer has received but not finished. */
  function InHand(w: Writer): seq<Record> {
    if w.Waiting? then [] else [w.rec]
  }

  ghost predicate Accounted(s: State) {
    && |s.queue| <= QUEUE_CAPACITY
    && s.rejected == s.raising + s.counter + s.missed + Reported(s.outcomes)
    && s.accepted == Records(s.outcomes) + InHand(s.writer) + s.queue
  }

  lemma OneMore(outcomes: seq<Outcome>, o: Outcome)
    ensures Records(outcomes + [o]) == Records(outcomes) + [o.rec]
    ensures Reported(outcomes + [o]) == Reported(outcomes) + if o.Wrote? then o.droppedBefore else 0
  {
    assert (outcomes + [o])[..|outcomes|] == outcomes;
  }

  lemma StepAccounted(s: State, e: Event)
    requires Accounted(s)
    ensures Accounted(Step(s, e))
  {
    hide Reported, Records;
    if e.Write? && s.writer.Counted? {
      OneMore(s.outcomes, if e.succeeds then Wrote(s.writer.rec, s.missed) else Failed(s.writer.rec));
    }
  }

  /** In every interleaving: rejected sends are exactly those still to be counted, counted,
  carried by the writer or reported in the log; accepted sends leave the queue in order. */
  lemma {:induction false} RunAccounted(s: State, events: seq<Event>)
    requires Accounted(s)
    ensures Accounted(Run(s, events))
    decreases |events|
  {
    hide Step, Accounted;
    if events != [] {
      StepAccounted(s, events[0]);
      RunAccounted(Step(s, events[0]), events[1..]);
    }
  }

  /** Nothing is waiting and no loss is still to be counted. */
  predicate Quiet(s: State) {
    s.queue == [] && s.writer.Waiting? && s.raising == 0
  }

  /** The sends that will never appear in the log. */
  function Lost(s: State): nat {
    s.rejected + Failures(s.outcomes)
  }

  lemma {:induction false} OutcomesSplit(outcomes: seq<Outcome>)
    ensures |Records(outcomes)| == |outcomes| && Failures(outcomes) <= |outcomes|
  {
    if outcomes != [] {
      OutcomesSplit(outcomes[..|outcomes| - 1]);
    }
  }

  lemma StartAccounted()
    ensures Accounted(START)
  {
  }

  lemma QuietSums(s: State)
    requires Accounted(s) && Quiet(s)
    ensures |s.accepted| == |s.outcomes| && Failures(s.outcomes) <= |s.outcomes|
    ensures Lost(s) == s.counter + s.missed + Reported(s.outcomes) + Failures(s.outcomes)
    ensures Lost(s) == s.rejected + Failures(s.outcomes)
  {
    hide Reported, Records, Failures;
    OutcomesSplit(s.outcomes);
  }

  /** At rest, the sends missing from the log are those that the log and the two counters
  account for, plus the failed writes: all losses are known exactly when no write failed. */
  lemma LossIsKnownIff(events: seq<Event>)
    requires Quiet(Run(START, events))
    ensures var s := Run(START, events);
            var known := s.counter + s.missed + Reported(s.outcomes);
            && Lost(s) == |s.accepted| + s.rejected - (|s.outcomes| - Failures(s.outcomes))
            && Lost(s) == known + Failures(s.outcomes)
            && (Lost(s) == known <==> Failures(s.outcomes) == 0)
  {
    hide *;
    StartAccounted();
    RunAccounted(START, events);
    QuietSums(Run(START, events));
  }

  lemma RunOne(s: State, e: Event, events: seq<Event>)
    ensures Run(s, [e] + events) == Run(Step(s, e), events)
  {
    hide Step;
    assert ([e] + events)[1..] == events;
  }

  lemma FailedWrite(rec: Record) returns (s1: State, s2: State, s3: State, s4: State)
    ensures s1 == Step(START, Send(rec)) && s2 == Step(s1, Receive) &&
            s3 == Step(s2, Swap) && s4 == Step(s3, Write(false))
    ensures s4 == START.(accepted := [rec], outcomes := [Failed(rec)])
  {
    s1 := Step(START, Send(rec));
    s2 := Step(s1, Receive);
    s3 := Step(s2, Swap);
    s4 := Step(s3, Write(false));
    assert s1 == START.(queue := [rec], accepted := [rec]);
    assert s2 == s1.(queue := [], writer := Received(rec));
    assert s3 == s2.(writer := Counted(rec));
  }

  lemma FailedAlone(rec: Record)
    ensures Failures([Failed(rec)]) == 1 && Reported([Failed(rec)]) == 0
  {
    assert [Failed(rec)][..0] == [];
  }

  lemma RunNone(s: State)
    ensures Run(s, []) == s
  {
  }

  /** One failed write is enough for a record to vanish from every count. */
  lemma FailedWriteIsUncounted(rec: Record)
    ensures var s := Run(START, [Send(rec)] + ([Receive] + ([Swap] + ([Write(false)] + []))));
            Quiet(s) && Lost(s) == 1 && s.counter + s.missed + Reported(s.outcomes) == 0
  {
    hide Step, Run, Reported, Failures;
    var s1, s2, s3, s4 := FailedWrite(rec);
    RunOne(START, Send(rec), [Receive] + ([Swap] + ([Write(false)] + [])));
    RunOne(s1, Receive, [Swap] + ([Write(false)] + []));
    RunOne(s2, Swap, [Write(false)] + []);
    RunOne(s3, Write(false), []);
    RunNone(s4);
    FailedAlone(rec);
  }
}
