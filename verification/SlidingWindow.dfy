/** One client's sliding 60-second window, as each backend of the rate limiter keeps it,
    and what each admits over whole runs. Times are exact; the clock never runs back. */
module SlidingWindow {
  import opened Collections
  import opened Reals

  const WINDOW := 60.0
  const EXPIRY := 65.0

  /** The entries later than `from`, in order. */
  function Later(ts: seq<real>, from: real): (r: seq<real>)
    ensures |r| <= |ts|
    ensures forall x :: x in r <==> x in ts && x > from
  {
    if ts == [] then [] else
      var n := |ts| - 1;
      if ts[n] > from then Later(ts[..n], from) + [ts[n]] else Later(ts[..n], from)
  }

  /** The requests in the interval (t - 60, t]. */
  function InWindow(ts: seq<real>, t: real): (r: seq<real>)
    ensures |r| <= |ts|
    ensures forall x :: x in r <==> x in ts && t - WINDOW < x <= t
  {
    if ts == [] then [] else
      var n := |ts| - 1;
      if t - WINDOW < ts[n] <= t then InWindow(ts[..n], t) + [ts[n]] else InWindow(ts[..n], t)
  }

  ghost predicate Bounded(ts: seq<real>, limit: nat) {
    forall t :: |InWindow(ts, t)| <= limit
  }

  ghost predicate NoneAfter(ts: seq<real>, last: real) { forall x :: x in ts ==> x <= last }

  // ------------------------------------------------------------------ in memory

  datatype Verdict<T> = Verdict(state: T, admitted: bool)

  /** The in-memory branch: filter, compare, append. */
  function MemoryStep(log: seq<real>, now: real, limit: nat): Verdict<seq<real>> {
    var valid := Later(log, now - WINDOW);
    if |valid| >= limit then Verdict(valid, false) else Verdict(valid + [now], true)
  }

  lemma {:induction false} LaterTwice(ts: seq<real>, a: real, b: real)
    requires a <= b
    ensures Later(Later(ts, a), b) == Later(ts, b)
  {
    if ts != [] {
      var n := |ts| - 1;
      LaterTwice(ts[..n], a, b);
      var l := Later(ts[..n], a);
      assert (l + [ts[n]])[..|l|] == l;
    }
  }

  lemma {:induction false} LaterShrinks(ts: seq<real>, a: real, b: real)
    requires a <= b
    ensures |Later(ts, b)| <= |Later(ts, a)|
  {
    if ts != [] { LaterShrinks(ts[..|ts| - 1], a, b); }
  }

  lemma {:induction false} WindowIsLater(ts: seq<real>, t: real)
    requires NoneAfter(ts, t)
    ensures InWindow(ts, t) == Later(ts, t - WINDOW)
  {
    if ts != [] {
      var n := |ts| - 1;
      assert ts[n] in ts;
      assert NoneAfter(ts[..n], t) by {
        forall x | x in ts[..n] ensures x <= t { assert x in ts; }
      }
      hide NoneAfter;
      WindowIsLater(ts[..n], t);
    }
  }

  /** `log` holds what still counts of the requests admitted so far. */
  ghost predicate MemorySound(log: seq<real>, admitted: seq<real>, last: real, limit: nat) {
    && NoneAfter(admitted, last)
    && Later(log, last - WINDOW) == Later(admitted, last - WINDOW)
    && Bounded(admitted, limit)
  }

  lemma MemoryStaysSound(log: seq<real>, admitted: seq<real>, last: real, now: real, limit: nat)
    requires MemorySound(log, admitted, last, limit) && last <= now
    ensures MemorySound(log, admitted, now, limit)
  {
    LaterTwice(log, last - WINDOW, now - WINDOW);
    LaterTwice(admitted, last - WINDOW, now - WINDOW);
  }

  lemma MemoryStepSound(log: seq<real>, admitted: seq<real>, last: real, now: real, limit: nat)
    requires MemorySound(log, admitted, last, limit) && last <= now
    ensures var v := MemoryStep(log, now, limit);
            MemorySound(v.state, if v.admitted then admitted + [now] else admitted, now, limit)
  {
    MemoryStaysSound(log, admitted, last, now, limit);
    var valid := Later(log, now - WINDOW);
    LaterTwice(log, now - WINDOW, now - WINDOW);
    if |valid| < limit {
      assert (valid + [now])[..|valid|] == valid;
      AdmitOne(admitted, now, limit);
      assert (admitted + [now])[..|admitted|] == admitted;
    }
  }

  lemma AdmitOne(admitted: seq<real>, now: real, limit: nat)
    requires NoneAfter(admitted, now) && Bounded(admitted, limit)
    requires |Later(admitted, now - WINDOW)| < limit
    ensures Bounded(admitted + [now], limit)
  {
    forall t ensures |InWindow(admitted + [now], t)| <= limit {
      WindowOfOneMore(admitted, now, t);
      hide Later, InWindow;
      assert |InWindow(admitted, t)| <= limit;
      if now <= t && t - WINDOW < now {
        WindowIsLater(admitted, t);
        LaterShrinks(admitted, now - WINDOW, t - WINDOW);
      }
    }
  }

  lemma WindowOfOneMore(ts: seq<real>, x: real, t: real)
    ensures InWindow(ts + [x], t) == InWindow(ts, t) + if t - WINDOW < x <= t then [x] else []
  {
    assert (ts + [x])[..|ts|] == ts;
  }

  // ---------------------------------------------------------------------- Redis

  /** The sorted set of a client: one member per distinct request time, and when the key
      expires. Denied requests are recorded, too. */
  datatype Entry = Entry(members: set<real>, expiresAt: real)

  function Live(e: Entry, now: real): set<real> { if now < e.expiresAt then e.members else {} }

  /** ZREMRANGEBYSCORE key 0 (now - 60), both ends included. */
  function Pruned(members: set<real>, now: real): set<real> {
    set m | m in members && !(0.0 <= m <= now - WINDOW)
  }

  /** The pipeline: prune, count, add, expire; compare the count with the limit. */
  function RedisStep(e: Entry, now: real, limit: nat): Verdict<Entry> {
    var kept := Pruned(Live(e, now), now);
    Verdict(Entry(kept + {now}, now + EXPIRY), |kept| < limit)
  }

  const ABSENT := Entry({}, 0.0)

  function WindowSet(ts: seq<real>, t: real): set<real> { set x | x in InWindow(ts, t) }

  /** No window holds more than `limit` distinct admission times. */
  ghost predicate DistinctBounded(ts: seq<real>, limit: nat) {
    forall t :: |WindowSet(ts, t)| <= limit
  }

  ghost predicate RedisSound(e: Entry, admitted: seq<real>, last: real, limit: nat) {
    && NoneAfter(admitted, last) && (forall m :: m in e.members ==> 0.0 <= m <= last && m + EXPIRY <= e.expiresAt)
    && (forall x :: x in admitted && x > last - WINDOW ==> x in e.members)
    && DistinctBounded(admitted, limit)
  }

  /** The key's expiry, five seconds longer than the window, never drops an entry that
      pruning would have kept. */
  lemma ExpiryIsHarmless(e: Entry, admitted: seq<real>, last: real, now: real, limit: nat)
    requires RedisSound(e, admitted, last, limit) && last <= now
    ensures Pruned(Live(e, now), now) == Pruned(e.members, now)
  {
    if e.expiresAt <= now {
      forall m | m in e.members ensures m <= now - WINDOW {}
    }
  }

  lemma RedisStepSound(e: Entry, admitted: seq<real>, last: real, now: real, limit: nat)
    requires RedisSound(e, admitted, last, limit) && last <= now && 0.0 <= now
    ensures var v := RedisStep(e, now, limit);
      && RedisSound(v.state, if v.admitted then admitted + [now] else admitted, now, limit)
      && RedisSound(v.state, admitted, now, limit)
  {
    hide DistinctBounded;
    ExpiryIsHarmless(e, admitted, last, now, limit);
    hide Live;
    if |Pruned(e.members, now)| < limit {
      OneMoreIsBounded(e, admitted, last, now, limit);
    }
  }

  lemma OneMoreIsBounded(e: Entry, admitted: seq<real>, last: real, now: real, limit: nat)
    requires RedisSound(e, admitted, last, limit) && last <= now && |Pruned(e.members, now)| < limit
    ensures DistinctBounded(admitted + [now], limit)
  {
    var kept, more := Pruned(e.members, now), admitted + [now];
    assert more[..|admitted|] == admitted;
    forall t ensures |WindowSet(more, t)| <= limit {
      if t < now {
        assert WindowSet(more, t) == WindowSet(admitted, t);
        assert |WindowSet(admitted, t)| <= limit;
      } else {
        SubsetSize(WindowSet(more, t), kept + {now});
      }
    }
  }

  ghost predicate Increasing(ts: seq<real>) { forall i, j :: 0 <= i < j < |ts| ==> ts[i] < ts[j] }

  lemma {:induction false} IncreasingWindow(ts: seq<real>, t: real)
    requires Increasing(ts)
    ensures |InWindow(ts, t)| == |WindowSet(ts, t)|
  {
    if ts != [] {
      var n := |ts| - 1;
      IncreasingWindow(ts[..n], t);
      assert ts[n] !in ts[..n];
      assert WindowSet(ts, t) == WindowSet(ts[..n], t) + if t - WINDOW < ts[n] <= t then {ts[n]} else {};
    }
  }

  // ------------------------------------------------------------------- whole runs

  ghost predicate NonDecreasing(ts: seq<real>) {
    (forall i :: 0 <= i < |ts| ==> 0.0 <= ts[i]) && forall i, j :: 0 <= i < j < |ts| ==> ts[i] <= ts[j]
  }

  /** State and admissions after a run of one backend over these arrivals. */
  datatype Run<T> = Run(state: T, admitted: seq<real>)

  function MemoryRun(arrivals: seq<real>, limit: nat): Run<seq<real>> {
    if arrivals == [] then Run([], []) else
      var n := |arrivals| - 1;
      var r := MemoryRun(arrivals[..n], limit);
      var v := MemoryStep(r.state, arrivals[n], limit);
      Run(v.state, if v.admitted then r.admitted + [arrivals[n]] else r.admitted)
  }

  function RedisRun(arrivals: seq<real>, limit: nat): Run<Entry> {
    if arrivals == [] then Run(ABSENT, []) else
      var n := |arrivals| - 1;
      var r := RedisRun(arrivals[..n], limit);
      var v := RedisStep(r.state, arrivals[n], limit);
      Run(v.state, if v.admitted then r.admitted + [arrivals[n]] else r.admitted)
  }

  function Last(ts: seq<real>): real { if ts == [] then 0.0 else ts[|ts| - 1] }

  lemma {:induction false} MemoryRunSound(arrivals: seq<real>, limit: nat)
    requires NonDecreasing(arrivals)
    ensures var r := MemoryRun(arrivals, limit); MemorySound(r.state, r.admitted, Last(arrivals), limit)
  {
    if arrivals == [] {
      assert forall t :: InWindow([], t) == [];
    } else {
      var n := |arrivals| - 1;
      MemoryRunSound(arrivals[..n], limit);
      var r := MemoryRun(arrivals[..n], limit);
      MemoryStepSound(r.state, r.admitted, Last(arrivals[..n]), arrivals[n], limit);
    }
  }

  lemma {:induction false} RedisRunSound(arrivals: seq<real>, limit: nat)
    requires NonDecreasing(arrivals)
    ensures var r := RedisRun(arrivals, limit); RedisSound(r.state, r.admitted, Last(arrivals), limit)
  {
    if arrivals == [] {
      assert forall t :: WindowSet([], t) == {};
    } else {
      var n := |arrivals| - 1;
      RedisRunSound(arrivals[..n], limit);
      var r := RedisRun(arrivals[..n], limit);
      RedisStepSound(r.state, r.admitted, Last(arrivals[..n]), arrivals[n], limit);
    }
  }

  lemma {:induction false} RedisAdmissionsIncrease(arrivals: seq<real>, limit: nat)
    requires NonDecreasing(arrivals) && Increasing(arrivals)
    ensures var a := RedisRun(arrivals, limit).admitted;
            Increasing(a) && forall x :: x in a ==> x in arrivals
  {
    if arrivals != [] {
      var n := |arrivals| - 1;
      RedisAdmissionsIncrease(arrivals[..n], limit);
      var a := RedisRun(arrivals[..n], limit).admitted;
      forall i | 0 <= i < |a| ensures a[i] < arrivals[n] { assert a[i] in a && a[i] in arrivals[..n]; }
    }
  }

  /** MEMORY BOUND. In no interval (t - 60, t] does the in-memory branch admit more than
      `limit` requests, whatever arrives and when. */
  lemma MemoryNeverExceeds(arrivals: seq<real>, limit: nat, t: real)
    requires NonDecreasing(arrivals)
    ensures |InWindow(MemoryRun(arrivals, limit).admitted, t)| <= limit
  {
    MemoryRunSound(arrivals, limit);
  }

  /** REDIS BOUND. The Redis branch admits at no more than `limit` distinct instants of
      any such interval; with a strictly increasing clock, that bounds the requests. */
  lemma RedisNeverExceeds(arrivals: seq<real>, limit: nat, t: real)
    requires NonDecreasing(arrivals)
    ensures |WindowSet(RedisRun(arrivals, limit).admitted, t)| <= limit
    ensures Increasing(arrivals) ==> |InWindow(RedisRun(arrivals, limit).admitted, t)| <= limit
  {
    RedisRunSound(arrivals, limit);
    if Increasing(arrivals) {
      RedisAdmissionsIncrease(arrivals, limit);
      IncreasingWindow(RedisRun(arrivals, limit).admitted, t);
    }
  }

  // ------------------------------------------------------------ each decision, exactly

  /** The instants of these requests later than `from`. */
  function InstantsAfter(ts: seq<real>, from: real): set<real> { set x | x in ts && x > from }

  /** Positions of the requests later than `from`. */
  function PositionsAfter(ts: seq<real>, from: real): set<nat> { set i: nat | i < |ts| && ts[i] > from }

  lemma {:induction false} LaterCounts(ts: seq<real>, from: real)
    ensures |Later(ts, from)| == |PositionsAfter(ts, from)|
  {
    if ts != [] {
      var n := |ts| - 1;
      LaterCounts(ts[..n], from);
      assert PositionsAfter(ts, from) == PositionsAfter(ts[..n], from) + if ts[n] > from then {n} else {};
    }
  }

  /** A window holds every request of its interval, however many share an instant. */
  lemma {:induction false} WindowCounts(ts: seq<real>, t: real)
    ensures |InWindow(ts, t)| == |(set i: nat | i < |ts| && t - WINDOW < ts[i] <= t)|
  {
    if ts != [] {
      var n := |ts| - 1;
      WindowCounts(ts[..n], t);
      assert (set i: nat | i < |ts| && t - WINDOW < ts[i] <= t)
        == (set i: nat | i < n && t - WINDOW < ts[..n][i] <= t) + if t - WINDOW < ts[n] <= t then {n} else {};
    }
  }

  ghost predicate HoldsRecent(e: Entry, arrivals: seq<real>) {
    && e.members == InstantsAfter(arrivals, Last(arrivals) - 60.0)
    && (arrivals != [] ==> e.expiresAt == Last(arrivals) + 65.0)
  }

  /** The sorted set holds the instants of all arrivals of the last 60 seconds, denied ones
      included, and expires 65 seconds after the last one. */
  lemma {:induction false} RedisHoldsRecent(arrivals: seq<real>, limit: nat)
    requires NonDecreasing(arrivals)
    ensures HoldsRecent(RedisRun(arrivals, limit).state, arrivals)
  {
    if arrivals == [] {
      assert InstantsAfter([], 0.0 - WINDOW) == {};
    } else {
      var n := |arrivals| - 1;
      RedisHoldsRecent(arrivals[..n], limit);
      assert arrivals == arrivals[..n] + [arrivals[n]];
      Precedes(arrivals[..n], arrivals[n]);
      hide HoldsRecent, NonDecreasing;
      StepHoldsRecent(arrivals[..n], arrivals[n], RedisRun(arrivals[..n], limit).state, limit);
    }
  }

  lemma StepHoldsRecent(arrivals: seq<real>, now: real, e: Entry, limit: nat)
    requires NonDecreasing(arrivals) && Last(arrivals) <= now && HoldsRecent(e, arrivals)
    ensures HoldsRecent(RedisStep(e, now, limit).state, arrivals + [now])
  {
    PrunedIsRecent(arrivals, now, e);
    hide Pruned, Live, NonDecreasing;
    assert InstantsAfter(arrivals + [now], now - WINDOW) == InstantsAfter(arrivals, now - WINDOW) + {now};
  }

  lemma PrunedIsRecent(arrivals: seq<real>, now: real, e: Entry)
    requires NonDecreasing(arrivals) && Last(arrivals) <= now && HoldsRecent(e, arrivals)
    ensures Pruned(Live(e, now), now) == InstantsAfter(arrivals, now - WINDOW)
  {
    forall x | x in arrivals ensures 0.0 <= x <= Last(arrivals) {}
  }

  lemma Precedes(arrivals: seq<real>, now: real)
    requires NonDecreasing(arrivals + [now])
    ensures NonDecreasing(arrivals) && 0.0 <= now && Last(arrivals) <= now
  {
    var all := arrivals + [now];
    assert all[|arrivals|] == now;
    assert forall i :: 0 <= i < |arrivals| ==> all[i] == arrivals[i];
  }

  /** REDIS DECIDES. After any arrivals a request is admitted if and only if fewer than
      `limit` distinct instants of the last 60 seconds saw one, admitted or denied. */
  lemma RedisDecidesExactly(arrivals: seq<real>, now: real, limit: nat)
    requires NonDecreasing(arrivals + [now])
    ensures RedisStep(RedisRun(arrivals, limit).state, now, limit).admitted
      <==> |set x | x in arrivals && x > now - 60.0| < limit
  {
    Precedes(arrivals, now);
    RedisHoldsRecent(arrivals, limit);
    PrunedIsRecent(arrivals, now, RedisRun(arrivals, limit).state);
    assert InstantsAfter(arrivals, now - WINDOW) == set x | x in arrivals && x > now - 60.0;
  }

  /** MEMORY DECIDES. After any arrivals a request is admitted if and only if fewer than
      `limit` requests of the last 60 seconds were admitted. */
  lemma MemoryDecidesExactly(arrivals: seq<real>, now: real, limit: nat)
    requires NonDecreasing(arrivals + [now])
    ensures var before := MemoryRun(arrivals, limit).admitted;
      MemoryStep(MemoryRun(arrivals, limit).state, now, limit).admitted
      <==> |set i: nat | i < |before| && before[i] > now - 60.0| < limit
  {
    Precedes(arrivals, now);
    MemoryRunSound(arrivals, limit);
    var r := MemoryRun(arrivals, limit);
    MemoryStaysSound(r.state, r.admitted, Last(arrivals), now, limit);
    LaterCounts(r.admitted, now - WINDOW);
    assert PositionsAfter(r.admitted, now - WINDOW) == set i: nat | i < |r.admitted| && r.admitted[i] > now - 60.0;
  }

  /** Requests of one client that come at least 60 seconds apart are never denied. */
  lemma SlowRequestsPass(arrivals: seq<real>, now: real, limit: nat)
    requires NonDecreasing(arrivals + [now]) && Last(arrivals) <= now - WINDOW && limit > 0
    ensures RedisStep(RedisRun(arrivals, limit).state, now, limit).admitted
    ensures MemoryStep(MemoryRun(arrivals, limit).state, now, limit).admitted
  {
    Precedes(arrivals, now);
    RedisDecidesExactly(arrivals, now, limit);
    MemoryDecidesExactly(arrivals, now, limit);
    MemoryRunSound(arrivals, limit);
    var before := MemoryRun(arrivals, limit).admitted;
    assert (set x | x in arrivals && x > now - 60.0) == {};
    assert (set i: nat | i < |before| && before[i] > now - 60.0) == {} by {
      forall i: nat | i < |before| ensures before[i] <= now - 60.0 { assert before[i] in before; }
    }
  }

  /** Requests at one instant share one member of the sorted set: with a limit above 1,
      any number of them is admitted. */
  lemma {:induction false} SameInstantIsUnlimited(n: nat, x: real, limit: nat)
    requires 0.0 <= x && 2 <= limit
    ensures RedisRun(seq(n, _ => x), limit).admitted == seq(n, _ => x)
    ensures RedisRun(seq(n, _ => x), limit).state.members <= {x}
    ensures |InWindow(seq(n, _ => x), x)| == n
  {
    if n > 0 {
      var before, arrivals := seq(n - 1, _ => x), seq(n, _ => x);
      SameInstantIsUnlimited(n - 1, x, limit);
      assert arrivals == before + [x];
      SameInstantStep(before, x, limit);
      WindowOfOneMore(before, x, x);
    }
  }

  lemma SameInstantStep(before: seq<real>, x: real, limit: nat)
    requires 0.0 <= x && 2 <= limit && RedisRun(before, limit).state.members <= {x}
    ensures RedisRun(before + [x], limit).admitted == RedisRun(before, limit).admitted + [x]
    ensures RedisRun(before + [x], limit).state.members <= {x}
  {
    assert (before + [x])[..|before|] == before;
    SubsetSize(Pruned(Live(RedisRun(before, limit).state, x), x), {x});
  }

  /** One-way switch: Redis serves the arrivals before position k, memory the others. */
  function SwitchRun(arrivals: seq<real>, k: nat, limit: nat): seq<real>
    requires k <= |arrivals|
  {
    RedisRun(arrivals[..k], limit).admitted + MemoryRun(arrivals[k..], limit).admitted
  }

  lemma {:induction false} WindowSplits(a: seq<real>, b: seq<real>, t: real)
    ensures InWindow(a + b, t) == InWindow(a, t) + InWindow(b, t)
  {
    if b == [] {
      assert a + b == a;
    } else {
      var n := |b| - 1;
      WindowSplits(a, b[..n], t);
      assert (a + b)[..|a + b| - 1] == a + b[..n];
    }
  }

  /** SWITCH BOUND. A run with the one-way switch admits at most twice the limit. */
  lemma SwitchNeverExceedsTwice(arrivals: seq<real>, k: nat, limit: nat, t: real)
    requires NonDecreasing(arrivals) && Increasing(arrivals) && k <= |arrivals|
    ensures |InWindow(SwitchRun(arrivals, k, limit), t)| <= 2 * limit
  {
    RedisNeverExceeds(arrivals[..k], limit, t);
    MemoryNeverExceeds(arrivals[k..], limit, t);
    WindowSplits(RedisRun(arrivals[..k], limit).admitted, MemoryRun(arrivals[k..], limit).admitted, t);
  }

  /** The first `limit` arrivals within one window are all admitted, by either branch. */
  lemma {:induction false} FirstOnesPass(arrivals: seq<real>, limit: nat)
    requires NonDecreasing(arrivals) && |arrivals| <= limit
    ensures RedisRun(arrivals, limit).admitted == arrivals && |RedisRun(arrivals, limit).state.members| <= |arrivals|
    ensures MemoryRun(arrivals, limit).admitted == arrivals && |MemoryRun(arrivals, limit).state| <= |arrivals|
  {
    if arrivals != [] {
      var n := |arrivals| - 1;
      FirstOnesPass(arrivals[..n], limit);
      var r := RedisRun(arrivals[..n], limit);
      SubsetSize(Pruned(Live(r.state, arrivals[n]), arrivals[n]), r.state.members);
      assert arrivals == arrivals[..n] + [arrivals[n]];
    }
  }

  /** n arrivals spread evenly over one second. */
  function Spread(n: nat): seq<real>
    requires 0 < n
  {
    seq(n, i requires 0 <= i => i as real * (1.0 / n as real))
  }

  lemma SpreadIncreases(n: nat)
    requires 0 < n
    ensures NonDecreasing(Spread(n)) && Increasing(Spread(n)) && forall x :: x in Spread(n) ==> 0.0 <= x <= 1.0
  {
    var step := 1.0 / n as real;
    assert n as real * step == 1.0;
    forall i, j | 0 <= i < j < n ensures Spread(n)[i] < Spread(n)[j] { Strict(step, i as real, j as real); }
    forall i | 0 <= i < n ensures 0.0 <= Spread(n)[i] <= 1.0 {
      NonNegativeProduct(i as real, step);
      Strict(step, i as real, n as real);
    }
  }

  lemma {:induction false} AllInWindow(ts: seq<real>, t: real)
    requires forall x :: x in ts ==> t - WINDOW < x <= t
    ensures InWindow(ts, t) == ts
  {
    if ts != [] {
      var n := |ts| - 1;
      assert ts[n] in ts && forall x :: x in ts[..n] ==> x in ts;
      AllInWindow(ts[..|ts| - 1], t);
    }
  }

  lemma HalvesPass(arrivals: seq<real>, limit: nat)
    requires NonDecreasing(arrivals) && |arrivals| == 2 * limit
    ensures SwitchRun(arrivals, limit, limit) == arrivals
  {
    FirstOnesPass(arrivals[..limit], limit);
    FirstOnesPass(arrivals[limit..], limit);
  }

  /** Twice the limit is attained, for every limit: there are strictly increasing arrivals
      and an interval (t - 60, t] in which a switch halfway admits that many. */
  lemma SwitchBoundIsTight(limit: nat)
    ensures exists arrivals, t ::
      && NonDecreasing(arrivals) && Increasing(arrivals) && limit <= |arrivals|
      && |InWindow(SwitchRun(arrivals, limit, limit), t)| == 2 * limit
  {
    var arrivals := if limit == 0 then [] else Spread(2 * limit);
    if limit > 0 { SpreadIncreases(2 * limit); }
    HalvesPass(arrivals, limit);
    AllInWindow(arrivals, 1.0);
    assert |InWindow(SwitchRun(arrivals, limit, limit), 1.0)| == 2 * limit;
  }

  // --------------------------------------------------------- Redis is conservative

  lemma {:induction false} DistinctSize(ts: seq<real>)
    requires Increasing(ts)
    ensures |ts| == |(set x | x in ts)|
  {
    if ts != [] {
      var n := |ts| - 1;
      DistinctSize(ts[..n]);
      assert ts[n] !in ts[..n];
      assert (set x | x in ts) == (set x | x in ts[..n]) + {ts[n]};
    }
  }

  lemma {:induction false} LaterIncreasing(ts: seq<real>, from: real)
    requires Increasing(ts)
    ensures Increasing(Later(ts, from))
  {
    if ts != [] {
      var n := |ts| - 1;
      LaterIncreasing(ts[..n], from);
      var l := Later(ts[..n], from);
      forall i | 0 <= i < |l| ensures l[i] < ts[n] { assert l[i] in ts[..n]; }
    }
  }

  /** The memory log never holds a time the sorted set does not hold. */
  lemma {:induction false} LogInsideSet(arrivals: seq<real>, limit: nat)
    requires NonDecreasing(arrivals) && Increasing(arrivals)
    ensures var m, r := MemoryRun(arrivals, limit), RedisRun(arrivals, limit);
      && Increasing(m.state) && (arrivals == [] ==> m.state == [])
      && (forall x :: x in m.state ==> x in r.state.members && x <= Last(arrivals))
  {
    if arrivals != [] {
      var n := |arrivals| - 1;
      LogInsideSet(arrivals[..n], limit);
      RedisRunSound(arrivals[..n], limit);
      var m, r := MemoryRun(arrivals[..n], limit), RedisRun(arrivals[..n], limit);
      hide MemoryRun, RedisRun;
      StepInsideSet(m.state, r.state, r.admitted, Last(arrivals[..n]), arrivals[n], limit);
    }
  }

  lemma StepInsideSet(log: seq<real>, e: Entry, admitted: seq<real>, last: real, now: real, limit: nat)
    requires RedisSound(e, admitted, last, limit) && last <= now && 0.0 <= now && (log != [] ==> last < now)
    requires Increasing(log) && forall x :: x in log ==> x in e.members && x <= last
    ensures var m, r := MemoryStep(log, now, limit).state, RedisStep(e, now, limit).state;
      Increasing(m) && forall x :: x in m ==> x in r.members && x <= now
  {
    ExpiryIsHarmless(e, admitted, last, now, limit);
    LaterIncreasing(log, now - WINDOW);
    var l := Later(log, now - WINDOW);
    forall i | 0 <= i < |l| ensures l[i] < now { assert l[i] in log; }
  }

  /** A log inside the sorted set counts no more requests than the set does. */
  lemma CountsFewer(log: seq<real>, e: Entry, admitted: seq<real>, last: real, now: real, limit: nat)
    requires RedisSound(e, admitted, last, limit) && last <= now
    requires Increasing(log) && forall x :: x in log ==> x in e.members && x <= last
    ensures RedisStep(e, now, limit).admitted ==> MemoryStep(log, now, limit).admitted
  {
    ExpiryIsHarmless(e, admitted, last, now, limit);
    hide RedisSound;
    var valid := Later(log, now - WINDOW);
    LaterIncreasing(log, now - WINDOW);
    DistinctSize(valid);
    hide Increasing, Later;
    SubsetSize((set x | x in valid), Pruned(e.members, now));
  }

  /** CONSERVATIVE. On the same strictly increasing arrivals, each branch starting empty,
      whatever request Redis admits the in-memory branch admits, too. */
  lemma RedisAdmitsLess(arrivals: seq<real>, now: real, limit: nat)
    requires NonDecreasing(arrivals + [now]) && Increasing(arrivals + [now])
    requires RedisStep(RedisRun(arrivals, limit).state, now, limit).admitted
    ensures MemoryStep(MemoryRun(arrivals, limit).state, now, limit).admitted
  {
    assert forall i :: 0 <= i < |arrivals| ==> (arrivals + [now])[i] == arrivals[i];
    LogInsideSet(arrivals, limit);
    RedisRunSound(arrivals, limit);
    var m, r := MemoryRun(arrivals, limit), RedisRun(arrivals, limit);
    hide MemoryRun, RedisRun;
    assert (arrivals + [now])[|arrivals|] == now;
    assert arrivals != [] ==> (arrivals + [now])[|arrivals| - 1] <= now;
    CountsFewer(m.state, r.state, r.admitted, Last(arrivals), now, limit);
  }
}
