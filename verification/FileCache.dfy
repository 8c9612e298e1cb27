/** The policy and token files are re-read when their modification time changes. */
module FileCache {
  import opened Rights

  // Any number of threads look at the time, take the mutex, compare and, on a
  // difference, read the file; the file is replaced between any two of these steps.
  // Contents are named by their version: version 0 is the empty default, and the
  // n-th write creates version n.

  /** `since` is the version in place when the call began, `at` the one whose time it saw. */
  datatype Phase =
    | Idle
    | Began(since: nat)
    | Looked(since: nat, at: nat)
    | Loading(since: nat, at: nat)
    | Returned(since: nat, version: nat)

  datatype State = State(
    times: seq<Option<nat>>,
    cachedTime: Option<nat>,
    cached: nat,
    holder: Option<nat>,
    threads: map<nat, Phase>
  )

  datatype Event =
    | Replace(time: nat)
    | Begin(thread: nat)
    | Look(thread: nat)
    | Compare(thread: nat)
    | Load(thread: nat)

  /** No file yet, and the default in the cache. */
  const START := State([None], None, 0, None, map[])

  function PhaseOf(s: State, t: nat): Phase {
    if t in s.threads then s.threads[t] else Idle
  }

  function Newest(s: State): int {
    |s.times| - 1
  }

  function Step(s: State, e: Event): State {
    match e
    case Replace(time) => s.(times := s.times + [Some(time)])
    case Begin(t) =>
      var p := PhaseOf(s, t);
      if (p.Idle? || p.Returned?) && s.times != [] then s.(threads := s.threads[t := Began(Newest(s))]) else s
    case Look(t) =>
      var p := PhaseOf(s, t);
      if p.Began? && s.times != [] then s.(threads := s.threads[t := Looked(p.since, Newest(s))]) else s
    case Compare(t) =>
      var p := PhaseOf(s, t);
      if !p.Looked? || p.at >= |s.times| || s.holder.Some? then s
      else if s.cachedTime == s.times[p.at] then s.(threads := s.threads[t := Returned(p.since, s.cached)])
      else s.(threads := s.threads[t := Loading(p.since, p.at)], holder := Some(t))
    case Load(t) =>
      var p := PhaseOf(s, t);
      if !p.Loading? || p.at >= |s.times| then s
      else
        s.(cachedTime := s.times[p.at], cached := Newest(s), holder := None,
           threads := s.threads[t := Returned(p.since, Newest(s))])
  }

  function Run(s: State, events: seq<Event>): State
    decreases |events|
  {
    if events == [] then s else Run(Step(s, events[0]), events[1..])
  }

  function WriteOf(e: Event): seq<Option<nat>> {
    if e.Replace? then [Some(e.time)] else []
  }

  /** The times of the writes in a run. */
  function Writes(events: seq<Event>): seq<Option<nat>> {
    if events == [] then []
    else WriteOf(events[0]) + Writes(events[1..])
  }

  predicate Distinct(times: seq<Option<nat>>) {
    forall i, j :: 0 <= i < j < |times| ==> times[i] != times[j]
  }

  /** No call answers with a version older than the one in place when it began. */
  ghost predicate Fresh(s: State) {
    forall t :: t in s.threads && s.threads[t].Returned? ==> s.threads[t].since <= s.threads[t].version
  }

  // ---- Distinct times keep the cache fresh ----

  ghost predicate Coherent(s: State) {
    && s.times != [] && s.cached < |s.times|
    && (forall i :: 0 <= i < |s.times| && s.times[i] == s.cachedTime ==> i <= s.cached)
    && (forall t :: t in s.threads && (s.threads[t].Looked? || s.threads[t].Loading?) ==>
          s.threads[t].since <= s.threads[t].at < |s.times|)
    && (forall t :: t in s.threads && s.threads[t].Began? ==> s.threads[t].since < |s.times|)
    && (s.cachedTime.None? || s.cachedTime in s.times)
    && Fresh(s)
  }

  lemma ReplaceCoherent(s: State, time: nat)
    requires Coherent(s) && Distinct(s.times + [Some(time)])
    ensures Coherent(s.(times := s.times + [Some(time)]))
  {
    var times := s.times + [Some(time)];
    forall j | 0 <= j < |s.times| ensures s.times[j] != Some(time) {
      assert times[j] == s.times[j] && times[|s.times|] == Some(time);
    }
    hide Distinct;
  }

  lemma CompareCoherent(s: State, t: nat)
    requires Coherent(s) && Distinct(s.times)
    ensures Coherent(Step(s, Compare(t)))
  {
  }

  lemma LoadCoherent(s: State, t: nat)
    requires Coherent(s) && Distinct(s.times)
    ensures Coherent(Step(s, Load(t)))
  {
  }

  lemma StepCoherent(s: State, e: Event)
    requires Coherent(s) && Distinct(Step(s, e).times)
    ensures Coherent(Step(s, e))
  {
    match e
    case Replace(time) => ReplaceCoherent(s, time);
    case Compare(t) => CompareCoherent(s, t);
    case Load(t) => LoadCoherent(s, t);
    case Begin(t) => hide Distinct;
    case Look(t) => hide Distinct;
  }

  lemma {:induction false} RunTimes(s: State, events: seq<Event>)
    ensures Run(s, events).times == s.times + Writes(events)
    decreases |events|
  {
    if events != [] {
      RunTimes(Step(s, events[0]), events[1..]);
    }
  }

  lemma DistinctPrefix(a: seq<Option<nat>>, b: seq<Option<nat>>)
    requires Distinct(a + b)
    ensures Distinct(a)
  {
    forall i, j | 0 <= i < j < |a| ensures a[i] != a[j] {
      assert (a + b)[i] == a[i] && (a + b)[j] == a[j];
    }
  }

  lemma {:induction false} RunCoherent(s: State, events: seq<Event>)
    requires Coherent(s) && Distinct(Run(s, events).times)
    ensures Coherent(Run(s, events))
    decreases |events|
  {
    hide Step, Coherent, Distinct;
    if events != [] {
      RunTimes(Step(s, events[0]), events[1..]);
      DistinctPrefix(Step(s, events[0]).times, Writes(events[1..]));
      StepCoherent(s, events[0]);
      RunCoherent(Step(s, events[0]), events[1..]);
    }
  }

  // ---- A repeated time hides a write ----

  lemma {:induction false} RunAppend(s: State, a: seq<Event>, b: seq<Event>)
    ensures Run(s, a + b) == Run(Run(s, a), b)
    decreases |a|
  {
    hide Step;
    if a == [] {
      assert a + b == b;
    } else {
      assert (a + b)[1..] == a[1..] + b;
      RunAppend(Step(s, a[0]), a[1..], b);
    }
  }

  lemma {:induction false} WritesAppend(a: seq<Event>, b: seq<Event>)
    ensures Writes(a + b) == Writes(a) + Writes(b)
    decreases |a|
  {
    if a == [] {
      assert a + b == b;
    } else {
      hide WriteOf;
      assert (a + b)[1..] == a[1..] + b && (a + b)[0] == a[0];
      WritesAppend(a[1..], b);
      assert WriteOf(a[0]) + (Writes(a[1..]) + Writes(b)) == (WriteOf(a[0]) + Writes(a[1..])) + Writes(b);
    }
  }

  function Replacing(times: seq<nat>): seq<Event> {
    seq(|times|, i requires 0 <= i < |times| => Replace(times[i]))
  }

  function Called(times: seq<nat>): seq<Option<nat>> {
    seq(|times|, i requires 0 <= i < |times| => Some(times[i]))
  }

  lemma {:induction false} RunReplacing(s: State, times: seq<nat>)
    ensures Run(s, Replacing(times)) == s.(times := s.times + Called(times))
    ensures Writes(Replacing(times)) == Called(times)
    decreases |times|
  {
    if times == [] {
      assert s.times + [] == s.times;
    } else {
      assert Replacing(times)[1..] == Replacing(times[1..]);
      assert Called(times) == [Some(times[0])] + Called(times[1..]);
      RunReplacing(Step(s, Replace(times[0])), times[1..]);
      assert s.times + [Some(times[0])] + Called(times[1..]) == s.times + Called(times);
    }
  }

  const WHOLE_CALL: seq<Event> := [Begin(0), Look(0), Compare(0), Load(0)]

  /** A call that nothing interrupts: it reads the file unless the time is the cached one. */
  lemma RunCall(s: State)
    requires s.times != [] && s.holder.None? && (PhaseOf(s, 0).Idle? || PhaseOf(s, 0).Returned?)
    ensures var u := Run(s, WHOLE_CALL);
            var hit := s.cachedTime == s.times[Newest(s)];
            && u.times == s.times && u.holder.None?
            && u.cachedTime == s.times[Newest(s)] && u.cached == (if hit then s.cached else Newest(s))
            && PhaseOf(u, 0) == Returned(Newest(s), u.cached) && 0 in u.threads
  {
    var u1 := Step(s, Begin(0));
    var u2 := Step(u1, Look(0));
    var u3 := Step(u2, Compare(0));
    assert WHOLE_CALL[1..] == [Look(0), Compare(0), Load(0)];
    assert [Look(0), Compare(0), Load(0)][1..] == [Compare(0), Load(0)] && [Compare(0), Load(0)][1..] == [Load(0)];
    assert Run(u3, [Load(0)]) == Step(u3, Load(0));
    assert Run(u2, [Compare(0), Load(0)]) == Run(u3, [Load(0)]);
    assert Run(u1, [Look(0), Compare(0), Load(0)]) == Run(u2, [Compare(0), Load(0)]);
  }

  /** Write up to version `i + 1`, call, write up to version `j + 1`, call again. */
  function Missed(times: seq<nat>, i: nat, j: nat): seq<Event>
    requires i < j < |times|
  {
    Replacing(times[..i + 1]) + WHOLE_CALL + Replacing(times[i + 1..j + 1]) + WHOLE_CALL
  }

  lemma CallWritesNothing()
    ensures Writes(WHOLE_CALL) == []
  {
    assert WHOLE_CALL[1..] == [Look(0), Compare(0), Load(0)];
    assert [Look(0), Compare(0), Load(0)][1..] == [Compare(0), Load(0)] && [Compare(0), Load(0)][1..] == [Load(0)];
    assert Writes([Load(0)]) == [];
    assert Writes([Compare(0), Load(0)]) == [];
    assert Writes([Look(0), Compare(0), Load(0)]) == [];
  }

  lemma MissedWrites(times: seq<nat>, i: nat, j: nat)
    requires i < j < |times|
    ensures Writes(Missed(times, i, j)) == Called(times[..j + 1])
  {
    hide Writes;
    var first, second := Replacing(times[..i + 1]), Replacing(times[i + 1..j + 1]);
    CallWritesNothing();
    RunReplacing(START, times[..i + 1]);
    RunReplacing(START, times[i + 1..j + 1]);
    WritesAppend(first, WHOLE_CALL);
    WritesAppend(first + WHOLE_CALL, second);
    WritesAppend(first + WHOLE_CALL + second, WHOLE_CALL);
    assert Called(times[..i + 1]) + Called(times[i + 1..j + 1]) == Called(times[..j + 1]);
  }

  lemma RepeatedTimeIsStale(times: seq<nat>, i: nat, j: nat)
    requires i < j < |times| && times[i] == times[j]
    ensures !Fresh(Run(START, Missed(times, i, j)))
  {
    hide Run, Writes, WHOLE_CALL;
    var first, second := Replacing(times[..i + 1]), Replacing(times[i + 1..j + 1]);
    RunReplacing(START, times[..i + 1]);
    RunAppend(START, first, WHOLE_CALL);
    var s1 := Run(START, first);
    assert s1.times[Newest(s1)] == Some(times[i]) && Newest(s1) == i + 1;
    RunCall(s1);
    var s2 := Run(s1, WHOLE_CALL);
    RunAppend(START, first + WHOLE_CALL, second);
    RunReplacing(s2, times[i + 1..j + 1]);
    var s3 := Run(s2, second);
    assert s3.times[Newest(s3)] == Some(times[j]) && Newest(s3) == j + 1;
    RunAppend(START, first + WHOLE_CALL + second, WHOLE_CALL);
    RunCall(s3);
    var s4 := Run(s3, WHOLE_CALL);
    assert s4 == Run(START, Missed(times, i, j));
    assert 0 in s4.threads && s4.threads[0] == Returned(j + 1, i + 1);
  }

  lemma DistinctRunsAreFresh(times: seq<nat>, events: seq<Event>)
    requires forall i, j :: 0 <= i < j < |times| ==> times[i] != times[j]
    requires Writes(events) <= Called(times)
    ensures Fresh(Run(START, events))
  {
    assert Coherent(START);
    hide Run, Writes;
    var w := Writes(events);
    RunTimes(START, events);
    var all := Run(START, events).times;
    assert all == [None] + w;
    forall i, j | 0 <= i < j < |all| ensures all[i] != all[j] {
      assert all[j] == w[j - 1] == Called(times)[j - 1];
      if i > 0 {
        assert all[i] == w[i - 1] == Called(times)[i - 1];
      }
    }
    RunCoherent(START, events);
  }

  /** The cache is fresh in every run with these writes exactly when no time repeats. */
  lemma FreshIffDistinct(times: seq<nat>)
    ensures (forall events :: Writes(events) <= Called(times) ==> Fresh(Run(START, events)))
       <==> (forall i, j :: 0 <= i < j < |times| ==> times[i] != times[j])
  {
    hide Run, Writes, Fresh;
    if forall i, j :: 0 <= i < j < |times| ==> times[i] != times[j] {
      forall events | Writes(events) <= Called(times) ensures Fresh(Run(START, events)) {
        DistinctRunsAreFresh(times, events);
      }
    } else {
      var i, j :| 0 <= i < j < |times| && times[i] == times[j];
      MissedWrites(times, i, j);
      RepeatedTimeIsStale(times, i, j);
      assert Called(times[..j + 1]) <= Called(times);
      assert Writes(Missed(times, i, j)) <= Called(times);
    }
  }
}
