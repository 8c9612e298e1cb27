/** The per-client token bucket, on real clock readings, and its purge. */
module RateLimit {

  datatype Bucket = Bucket(tokens: real, last: real)

  type Buckets = map<string, Bucket>

  datatype Call = Call(ip: string, cost: real, now: real)

  datatype Limits = Limits(rate: real, capacity: real)

  /** Entries above which idle clients are purged, and the whole seconds of idleness that purge one. */
  const CROWD := 10000
  const IDLE := 300

  /** `Instant::duration_since`, which never goes below zero. */
  function Elapsed(now: real, last: real): real {
    if now >= last then now - last else 0.0
  }

  /** What drips into a bucket in some seconds. */
  function Refill(seconds: real, rate: real): real {
    seconds * rate
  }

  function Least(x: real, y: real): real {
    if x <= y then x else y
  }

  predicate Lively(b: Bucket, now: real) {
    Elapsed(now, b.last).Floor < IDLE
  }

  function Purged(m: Buckets, now: real): Buckets {
    if |m| > CROWD then map ip | ip in m && Lively(m[ip], now) :: m[ip] else m
  }

  /** The tokens a client has at a moment: a client without an entry starts full. */
  function Available(m: Buckets, ip: string, now: real, limits: Limits): real {
    if ip in m then Least(m[ip].tokens + Refill(Elapsed(now, m[ip].last), limits.rate), limits.capacity)
    else limits.capacity
  }

  predicate Admits(m: Buckets, c: Call, limits: Limits) {
    Available(m, c.ip, c.now, limits) >= c.cost
  }

  function Charged(m: Buckets, c: Call, limits: Limits): Buckets {
    var left := Available(m, c.ip, c.now, limits);
    m[c.ip := Bucket(if left >= c.cost then left - c.cost else left, c.now)]
  }

  function Tidied(m: Buckets, now: real, purging: bool): Buckets {
    if purging then Purged(m, now) else m
  }

  class RateLimiter {
    var buckets: Buckets
    const limits: Limits

    constructor (rate: real, burst: real)
      ensures buckets == map[] && limits == Limits(rate, burst)
    {
      buckets := map[];
      limits := Limits(rate, burst);
    }

    /** Checks whether a client may make a request of this cost now. */
    method CheckAndConsume(ip: string, cost: real, now: real) returns (admitted: bool)
      modifies this`buckets
      ensures admitted == Admits(Purged(old(buckets), now), Call(ip, cost, now), limits)
      ensures buckets == Charged(Purged(old(buckets), now), Call(ip, cost, now), limits)
    {
      var m := buckets;
      if |m| > CROWD {
        m := map k | k in m && Lively(m[k], now) :: m[k];
      }
      assert m == Purged(old(buckets), now);
      var entry := if ip in m then m[ip] else Bucket(limits.capacity, now);
      var elapsed := Elapsed(now, entry.last);
      assert ip !in m ==> elapsed * limits.rate == 0.0;
      entry := entry.(last := now);
      entry := entry.(tokens := Least(entry.tokens + elapsed * limits.rate, limits.capacity));
      if entry.tokens >= cost {
        entry := entry.(tokens := entry.tokens - cost);
        admitted := true;
      } else {
        admitted := false;
      }
      assert entry == Charged(m, Call(ip, cost, now), limits)[ip];
      buckets := m[ip := entry];
    }
  }

  // ---- Histories ----

  function Next(m: Buckets, c: Call, limits: Limits, purging: bool): Buckets {
    Charged(Tidied(m, c.now, purging), c, limits)
  }

  /** The decision on each call of a history. */
  function Decisions(m: Buckets, calls: seq<Call>, limits: Limits, purging: bool): (r: seq<bool>)
    ensures |r| == |calls|
    decreases |calls|
  {
    if calls == [] then []
    else [Admits(Tidied(m, calls[0].now, purging), calls[0], limits)]
         + Decisions(Next(m, calls[0], limits, purging), calls[1..], limits, purging)
  }

  /** A history as the clock allows it, with costs a caller may ask for. */
  predicate Proper(calls: seq<Call>, start: real) {
    calls == [] || (calls[0].now >= start && calls[0].cost >= 0.0 && Proper(calls[1..], calls[0].now))
  }

  predicate Sane(limits: Limits) {
    limits.rate >= 0.0 && limits.capacity >= 0.0
  }

  ghost predicate Sober(m: Buckets, now: real, limits: Limits) {
    forall ip :: ip in m ==> 0.0 <= m[ip].tokens <= limits.capacity && m[ip].last <= now
  }

  lemma RefillMore(x: real, y: real, rate: real)
    requires 0.0 <= x <= y && rate >= 0.0
    ensures 0.0 <= Refill(x, rate) <= Refill(y, rate)
  {
  }

  lemma RefillSum(x: real, y: real, rate: real)
    ensures Refill(x + y, rate) == Refill(x, rate) + Refill(y, rate)
  {
  }

  lemma RefillNone(rate: real)
    ensures Refill(0.0, rate) == 0.0
  {
  }

  lemma NextSober(m: Buckets, c: Call, limits: Limits, purging: bool, start: real)
    requires Sober(m, start, limits) && Sane(limits) && c.now >= start && c.cost >= 0.0
    ensures Sober(Next(m, c, limits, purging), c.now, limits)
  {
    hide Refill;
    var t := Tidied(m, c.now, purging);
    if c.ip in t {
      RefillMore(0.0, Elapsed(c.now, t[c.ip].last), limits.rate);
      RefillNone(limits.rate);
    }
  }

  // ---- Purging is invisible, exactly when an idle client would be full again anyway ----

  /** The purging limiter holds the same entries, but for some that have been idle long enough. */
  ghost predicate Shadows(m: Buckets, full: Buckets, now: real) {
    && (forall ip :: ip in m ==> ip in full && full[ip] == m[ip])
    && (forall ip :: ip in full && ip !in m ==> full[ip].last + 300.0 <= now)
  }

  lemma PurgedShadows(m: Buckets, full: Buckets, before: real, now: real)
    requires Shadows(m, full, before) && before <= now
    ensures Shadows(Purged(m, now), full, now)
  {
  }

  lemma SameAvailable(m: Buckets, full: Buckets, ip: string, now: real, limits: Limits)
    requires Shadows(m, full, now) && Sober(full, now, limits) && Sane(limits)
    requires limits.capacity <= Refill(300.0, limits.rate)
    ensures Available(m, ip, now, limits) == Available(full, ip, now, limits)
  {
    hide Refill;
    if ip in full && ip !in m {
      RefillMore(300.0, Elapsed(now, full[ip].last), limits.rate);
    }
  }

  lemma {:induction false} PurgeInvisible(m: Buckets, full: Buckets, calls: seq<Call>, limits: Limits, start: real)
    requires Shadows(m, full, start) && Sober(full, start, limits) && Sane(limits) && Proper(calls, start)
    requires limits.capacity <= Refill(300.0, limits.rate)
    ensures Decisions(m, calls, limits, true) == Decisions(full, calls, limits, false)
    decreases |calls|
  {
    if calls != [] {
      var c := calls[0];
      PurgedShadows(m, full, start, c.now);
      SameAvailable(Purged(m, c.now), full, c.ip, c.now, limits);
      NextSober(full, c, limits, false, start);
      PurgeInvisible(Next(m, c, limits, true), Next(full, c, limits, false), calls[1..], limits, c.now);
    }
  }

  /** A client name of each length. */
  function Name(k: nat): (s: string)
    ensures |s| == k
  {
    seq(k, _ => 'x')
  }

  /** As many new clients as asked, each emptying its bucket at time zero. */
  function Crowd(k: nat, n: nat, capacity: real): (r: seq<Call>)
    ensures |r| == n
    decreases n
  {
    if n == 0 then [] else [Call(Name(k), capacity, 0.0)] + Crowd(k + 1, n - 1, capacity)
  }

  function Last(capacity: real): Call {
    Call(Name(0), capacity, 300.0)
  }

  ghost predicate Emptied(m: Buckets, k: nat) {
    && |m| == k
    && (forall ip {:trigger ip in m} :: ip in m <==> |ip| < k && ip == Name(|ip|))
    && (forall ip :: ip in m ==> m[ip] == Bucket(0.0, 0.0))
  }

  lemma NewClient(m: Buckets, k: nat, limits: Limits, purging: bool)
    requires Emptied(m, k) && Sane(limits)
    ensures Name(k) !in m
    ensures Next(m, Call(Name(k), limits.capacity, 0.0), limits, purging) == m[Name(k) := Bucket(0.0, 0.0)]
  {
    hide Name;
    assert |Name(k)| == k;
    assert Tidied(m, 0.0, purging) == m;
  }

  lemma EmptiedNext(m: Buckets, k: nat, limits: Limits, purging: bool)
    requires Emptied(m, k) && Sane(limits)
    ensures Emptied(Next(m, Call(Name(k), limits.capacity, 0.0), limits, purging), k + 1)
  {
    hide Next, Sane, Name;
    NewClient(m, k, limits, purging);
    var next := m[Name(k) := Bucket(0.0, 0.0)];
    assert next.Keys == m.Keys + {Name(k)};
    forall ip ensures ip in next <==> |ip| < k + 1 && ip == Name(|ip|) {
      assert |Name(k)| == k;
    }
  }

  /** Back after 300 seconds, an emptied client is purged and full, or not purged and short. */
  lemma LastDecides(m: Buckets, k: nat, limits: Limits, purging: bool)
    requires Emptied(m, k) && Sane(limits) && limits.capacity > Refill(300.0, limits.rate) && k > CROWD
    ensures Admits(Tidied(m, 300.0, purging), Last(limits.capacity), limits) <==> purging
  {
    hide Refill;
    assert Name(0) in m;
    if purging {
      assert Purged(m, 300.0) == map[];
    } else {
      assert Elapsed(300.0, m[Name(0)].last) == 300.0;
    }
  }

  lemma FirstDecides(m: Buckets, calls: seq<Call>, limits: Limits, purging: bool)
    requires calls != []
    ensures Decisions(m, calls, limits, purging)
         == [Admits(Tidied(m, calls[0].now, purging), calls[0], limits)]
            + Decisions(Next(m, calls[0], limits, purging), calls[1..], limits, purging)
  {
    hide Tidied, Admits, Next;
  }

  lemma CrowdStep(k: nat, n: nat, capacity: real)
    ensures Crowd(k, 0, capacity) == []
    ensures Crowd(k, n + 1, capacity) == [Call(Name(k), capacity, 0.0)] + Crowd(k + 1, n, capacity)
  {
    hide Name;
  }

  lemma {:induction false} CrowdDecides(m: Buckets, k: nat, n: nat, limits: Limits, purging: bool)
    requires Emptied(m, k) && Sane(limits)
    requires limits.capacity > Refill(300.0, limits.rate) && k + n > CROWD
    ensures Decisions(m, Crowd(k, n, limits.capacity) + [Last(limits.capacity)], limits, purging)[n] == purging
    decreases n
  {
    hide *;
    var last := Last(limits.capacity);
    var calls := Crowd(k, n, limits.capacity) + [last];
    FirstDecides(m, calls, limits, purging);
    if n == 0 {
      CrowdStep(k, 0, limits.capacity);
      assert calls == [last];
      LastAt(limits.capacity);
      LastDecides(m, k, limits, purging);
    } else {
      CrowdStep(k, n - 1, limits.capacity);
      EmptiedNext(m, k, limits, purging);
      assert calls[0] == Call(Name(k), limits.capacity, 0.0);
      assert calls[1..] == Crowd(k + 1, n - 1, limits.capacity) + [last];
      CrowdDecides(Next(m, calls[0], limits, purging), k + 1, n - 1, limits, purging);
    }
  }

  lemma LastAt(capacity: real)
    ensures Last(capacity).now == 300.0
  {
  }

  lemma {:induction false} CrowdProper(k: nat, n: nat, limits: Limits)
    requires Sane(limits)
    ensures Proper(Crowd(k, n, limits.capacity) + [Last(limits.capacity)], 0.0)
    decreases n
  {
    var calls := Crowd(k, n, limits.capacity) + [Last(limits.capacity)];
    if n == 0 {
      assert calls == [Last(limits.capacity)];
    } else {
      assert calls[1..] == Crowd(k + 1, n - 1, limits.capacity) + [Last(limits.capacity)];
      CrowdProper(k + 1, n - 1, limits);
    }
  }

  /** Ten thousand and one clients, and one of them back after 300 seconds, tell purging from not purging. */
  lemma PurgeVisible(limits: Limits) returns (calls: seq<Call>)
    requires Sane(limits) && limits.capacity > Refill(300.0, limits.rate)
    ensures Proper(calls, 0.0)
    ensures Decisions(map[], calls, limits, true) != Decisions(map[], calls, limits, false)
  {
    var n := CROWD + 1;
    calls := Crowd(0, n, limits.capacity) + [Last(limits.capacity)];
    CrowdProper(0, n, limits);
    CrowdDecides(map[], 0, n, limits, true);
    CrowdDecides(map[], 0, n, limits, false);
  }

  /** Purging changes no decision on any history if and only if the capacity refills in 300 seconds. */
  lemma PurgeInvisibleIff(limits: Limits)
    requires Sane(limits)
    ensures (forall calls :: Proper(calls, 0.0) ==>
               Decisions(map[], calls, limits, true) == Decisions(map[], calls, limits, false))
            <==> limits.capacity <= Refill(300.0, limits.rate)
  {
    if limits.capacity <= Refill(300.0, limits.rate) {
      forall calls | Proper(calls, 0.0)
        ensures Decisions(map[], calls, limits, true) == Decisions(map[], calls, limits, false)
      {
        PurgeInvisible(map[], map[], calls, limits, 0.0);
      }
    } else {
      var calls := PurgeVisible(limits);
    }
  }

  // ---- How much a window can admit ----

  /** The cost admitted for one client. */
  function Admitted(ip: string, calls: seq<Call>, decisions: seq<bool>): real
    requires |calls| == |decisions|
  {
    if calls == [] then 0.0
    else (if calls[0].ip == ip && decisions[0] then calls[0].cost else 0.0)
         + Admitted(ip, calls[1..], decisions[1..])
  }

  predicate Until(calls: seq<Call>, end: real) {
    forall c | c in calls :: c.now <= end
  }

  lemma AvailableGrows(m: Buckets, ip: string, early: real, late: real, limits: Limits)
    requires Sober(m, early, limits) && Sane(limits) && early <= late
    ensures Available(m, ip, late, limits) <= Available(m, ip, early, limits) + Refill(late - early, limits.rate)
    ensures 0.0 <= Available(m, ip, early, limits) <= limits.capacity
    ensures 0.0 <= Refill(late - early, limits.rate)
  {
    hide Refill;
    RefillMore(late - early, late - early, limits.rate);
    if ip in m {
      var last := m[ip].last;
      RefillMore(early - last, late - last, limits.rate);
      RefillSum(early - last, late - early, limits.rate);
      assert (early - last) + (late - early) == late - last;
    }
  }

  /** Serving a call: the client pays, everyone else keeps what they had. */
  lemma NextAvailable(m: Buckets, c: Call, ip: string, limits: Limits)
    requires Sane(limits) && Sober(m, c.now, limits) && c.cost >= 0.0
    ensures Available(Next(m, c, limits, false), ip, c.now, limits) ==
            Available(m, ip, c.now, limits) - if c.ip == ip && Admits(m, c, limits) then c.cost else 0.0
  {
    hide Refill;
    RefillNone(limits.rate);
    var next := Next(m, c, limits, false);
    if c.ip == ip {
      assert Elapsed(c.now, next[ip].last) == 0.0;
      assert next[ip].tokens <= Available(m, ip, c.now, limits) <= limits.capacity;
    }
  }

  lemma {:induction false} WindowBound(m: Buckets, ip: string, calls: seq<Call>, limits: Limits, start: real, end: real)
    requires Sober(m, start, limits) && Sane(limits) && Proper(calls, start) && Until(calls, end) && start <= end
    ensures Admitted(ip, calls, Decisions(m, calls, limits, false)) <=
            Available(m, ip, start, limits) + Refill(end - start, limits.rate)
    decreases |calls|
  {
    hide Refill;
    AvailableGrows(m, ip, start, end, limits);
    if calls != [] {
      var c, rest := calls[0], calls[1..];
      var next := Next(m, c, limits, false);
      assert c in calls && forall d :: d in rest ==> d in calls;
      NextSober(m, c, limits, false, start);
      WindowBound(next, ip, rest, limits, c.now, end);
      assert Sober(m, c.now, limits);
      NextAvailable(m, c, ip, limits);
      AvailableGrows(m, ip, start, c.now, limits);
      RefillSum(c.now - start, end - c.now, limits.rate);
      assert (c.now - start) + (end - c.now) == end - start;
      assert Decisions(m, calls, limits, false)[1..] == Decisions(next, rest, limits, false);
    }
  }

  function After(m: Buckets, calls: seq<Call>, limits: Limits, purging: bool): Buckets
    decreases |calls|
  {
    if calls == [] then m else After(Next(m, calls[0], limits, purging), calls[1..], limits, purging)
  }

  lemma {:induction false} AfterShadows(m: Buckets, full: Buckets, calls: seq<Call>, limits: Limits, start: real,
      end: real)
    requires Shadows(m, full, start) && Sober(full, start, limits) && Sane(limits)
    requires Proper(calls, start) && Until(calls, end) && start <= end
    requires limits.capacity <= Refill(300.0, limits.rate)
    ensures Shadows(After(m, calls, limits, true), After(full, calls, limits, false), end)
    ensures Sober(After(full, calls, limits, false), end, limits)
    decreases |calls|
  {
    if calls != [] {
      var c := calls[0];
      assert c in calls;
      assert forall d :: d in calls[1..] ==> d in calls;
      PurgedShadows(m, full, start, c.now);
      SameAvailable(Purged(m, c.now), full, c.ip, c.now, limits);
      NextSober(full, c, limits, false, start);
      AfterShadows(Next(m, c, limits, true), Next(full, c, limits, false), calls[1..], limits, c.now, end);
    }
  }

  /** Over any window of any history, the service admits to one client no more than a full bucket
      plus what drips in during the window, purges included. */
  lemma ServiceWindowBound(ip: string, past: seq<Call>, window: seq<Call>, limits: Limits, start: real, end: real)
    requires Sane(limits) && limits.capacity <= Refill(300.0, limits.rate)
    requires 0.0 <= start <= end
    requires Proper(past, 0.0) && Until(past, start) && Proper(window, start) && Until(window, end)
    ensures Admitted(ip, window, Decisions(After(map[], past, limits, true), window, limits, true))
            <= limits.capacity + Refill(end - start, limits.rate)
  {
    var m, full := After(map[], past, limits, true), After(map[], past, limits, false);
    AfterShadows(map[], map[], past, limits, 0.0, start);
    PurgeInvisible(m, full, window, limits, start);
    WindowBound(full, ip, window, limits, start, end);
    AvailableGrows(full, ip, start, end, limits);
  }
}
