/** How far the Redis branch of the rate limiter overshoots its limit: its sorted set keeps
    one member per instant, so what it admits depends on how many requests share one. */
module SharedInstants {
  import opened Collections
  import opened SlidingWindow

  /** No more than m of these requests share an instant. */
  ghost predicate AtMost(ts: seq<real>, m: nat) { forall x :: multiset(ts)[x] <= m }

  /** The most that a window can come to hold. */
  function Most(limit: nat, m: nat): nat { if limit == 0 || m == 0 then 0 else m * (limit - 1) + 1 }

  // ---------------------------------------------------------------- the bound holds

  /** At most m at each of the instants in s. */
  lemma {:induction false} CountBound(ts: multiset<real>, s: set<real>, m: nat)
    requires forall x :: x in ts ==> x in s
    requires forall x :: ts[x] <= m
    ensures |ts| <= m * |s|
  {
    if x :| x in s {
      var rest := ts[x := 0];
      CountBound(rest, s - {x}, m);
      assert |ts| == |rest| + ts[x];
      OneMore(m, |s - {x}|);
    } else {
      assert forall x :: x !in ts;
      assert ts == multiset{};
    }
  }

  lemma OneMore(m: nat, k: nat)
    ensures m * (k + 1) == m * k + m
  {
  }

  lemma FewerStillAtMost(ts: seq<real>, more: seq<real>, m: nat)
    requires AtMost(more, m) && multiset(ts) <= multiset(more)
    ensures AtMost(ts, m)
  {
    forall x ensures multiset(ts)[x] <= m { assert multiset(ts)[x] <= multiset(more)[x]; }
  }

  lemma {:induction false} WindowInside(ts: seq<real>, t: real)
    ensures multiset(InWindow(ts, t)) <= multiset(ts)
  {
    if ts != [] {
      var n := |ts| - 1;
      WindowInside(ts[..n], t);
      assert ts == ts[..n] + [ts[n]];
    }
  }

  lemma WindowCount(ts: seq<real>, t: real, s: set<real>, m: nat)
    requires AtMost(ts, m) && forall x :: x in InWindow(ts, t) ==> x in s
    ensures |InWindow(ts, t)| <= m * |s|
  {
    WindowInside(ts, t);
    CountBound(multiset(InWindow(ts, t)), s, m);
  }

  lemma {:induction false} AdmittedInside(arrivals: seq<real>, limit: nat)
    ensures multiset(RedisRun(arrivals, limit).admitted) <= multiset(arrivals)
  {
    if arrivals != [] {
      var n := |arrivals| - 1;
      AdmittedInside(arrivals[..n], limit);
      assert arrivals == arrivals[..n] + [arrivals[n]];
    }
  }

  /** One admission: the set held fewer than `limit` instants, each with at most m requests. */
  lemma AdmitOneMore(e: Entry, admitted: seq<real>, last: real, now: real, limit: nat, m: nat)
    requires RedisSound(e, admitted, last, limit) && last <= now && RedisStep(e, now, limit).admitted
    requires AtMost(admitted + [now], m) && Bounded(admitted, Most(limit, m))
    ensures Bounded(admitted + [now], Most(limit, m))
  {
    ExpiryIsHarmless(e, admitted, last, now, limit);
    var kept, more := Pruned(e.members, now), admitted + [now];
    FewerStillAtMost(admitted, more, m);
    forall t ensures |InWindow(more, t)| <= Most(limit, m) {
      WindowOfOneMore(admitted, now, t);
      if t < now {
        assert |InWindow(admitted, t)| <= Most(limit, m);
      } else {
        Product(m, |kept|, limit - 1);
        if now in kept {
          assert forall x :: x in InWindow(more, t) ==> x in kept;
          WindowCount(more, t, kept, m);
        } else {
          assert forall x :: x in InWindow(admitted, t) ==> x in kept;
          WindowCount(admitted, t, kept, m);
        }
        assert m > 0 by { assert multiset(more)[now] > 0; }
      }
    }
  }

  lemma Product(m: nat, a: nat, b: nat)
    requires a <= b
    ensures m * a <= m * b
  {
  }

  /** BOUND. When at most m requests share an instant, the Redis branch admits at most
      m * (limit - 1) + 1 in any interval (t - 60, t]. */
  lemma {:induction false} SharedInstantsBound(arrivals: seq<real>, limit: nat, m: nat)
    requires NonDecreasing(arrivals) && AtMost(arrivals, m)
    ensures Bounded(RedisRun(arrivals, limit).admitted, Most(limit, m))
  {
    if arrivals != [] {
      var n := |arrivals| - 1;
      var before, now := arrivals[..n], arrivals[n];
      assert arrivals == before + [now];
      FewerStillAtMost(before, arrivals, m);
      SharedInstantsBound(before, limit, m);
      RedisRunSound(before, limit);
      AdmittedInside(arrivals, limit);
      FewerStillAtMost(RedisRun(arrivals, limit).admitted, arrivals, m);
      var r := RedisRun(before, limit);
      if RedisStep(r.state, now, limit).admitted {
        AdmitOneMore(r.state, r.admitted, Last(before), now, limit, m);
      }
    }
  }

  // -------------------------------------------------------------------- it is tight

  function Instants(ts: seq<real>): set<real> { set x | x in ts }

  /** Arrivals are admitted as long as fewer than `limit` instants came before. */
  lemma {:induction false} FewInstantsPass(arrivals: seq<real>, limit: nat)
    requires arrivals != [] ==> |Instants(arrivals[..|arrivals| - 1])| < limit
    ensures RedisRun(arrivals, limit).admitted == arrivals
    ensures RedisRun(arrivals, limit).state.members <= Instants(arrivals)
  {
    if arrivals != [] {
      var n := |arrivals| - 1;
      var before, now := arrivals[..n], arrivals[n];
      assert arrivals == before + [now];
      if n > 0 { SubsetSize(Instants(before[..n - 1]), Instants(before)); }
      FewInstantsPass(before, limit);
      SubsetSize(Pruned(Live(RedisRun(before, limit).state, now), now), Instants(before));
    }
  }

  /** m requests at each of these instants. */
  function Each(ts: seq<real>, m: nat): seq<real> {
    if ts == [] then [] else Each(ts[..|ts| - 1], m) + seq(m, _ => ts[|ts| - 1])
  }

  lemma {:induction false} SameCount(m: nat, y: real)
    ensures multiset(seq(m, _ => y)) == multiset{}[y := m]
  {
    if m > 0 {
      SameCount(m - 1, y);
      assert seq(m, _ => y) == seq(m - 1, _ => y) + [y];
    }
  }

  lemma {:induction false} EachShape(ts: seq<real>, m: nat)
    requires Increasing(ts)
    ensures |Each(ts, m)| == m * |ts|
    ensures forall x :: x in Each(ts, m) ==> x in ts
    ensures forall i, j :: 0 <= i < j < |Each(ts, m)| ==> Each(ts, m)[i] <= Each(ts, m)[j]
    ensures AtMost(Each(ts, m), m)
  {
    if ts != [] {
      var n := |ts| - 1;
      EachShape(ts[..n], m);
      OneMore(m, n);
      EachGrows(Each(ts[..n], m), ts[..n], ts[n], m);
    }
  }

  lemma EachGrows(before: seq<real>, ts: seq<real>, y: real, m: nat)
    requires (forall x :: x in before ==> x in ts) && (forall x :: x in ts ==> x < y) && AtMost(before, m)
    requires forall i, j :: 0 <= i < j < |before| ==> before[i] <= before[j]
    ensures var e := before + seq(m, _ => y);
      AtMost(e, m) && forall i, j :: 0 <= i < j < |e| ==> e[i] <= e[j]
  {
    var more := seq(m, _ => y);
    var e := before + more;
    SameCount(m, y);
    forall x ensures multiset(e)[x] <= m {
      assert multiset(e)[x] == multiset(before)[x] + multiset(more)[x];
      if x == y { assert y !in before; }
    }
    forall i, j | 0 <= i < j < |e| ensures e[i] <= e[j] {
      if i < |before| { assert before[i] in before; }
    }
  }

  /** All but the last of `limit` instants with m requests each, and one request at the last. */
  function Crowded(limit: nat, m: nat): seq<real> {
    if limit == 0 || m == 0 then [] else Each(Spread(limit)[..limit - 1], m) + [Spread(limit)[limit - 1]]
  }

  lemma OneLater(ts: seq<real>, y: real, m: nat)
    requires Increasing(ts) && (forall x :: x in ts ==> 0.0 <= x < y) && 0.0 <= y && m > 0
    ensures var e := Each(ts, m) + [y];
      && NonDecreasing(e) && AtMost(e, m) && |e| == m * |ts| + 1
      && (forall x :: x in e ==> x in ts || x == y)
  {
    EachShape(ts, m);
    hide Increasing;
    var e := Each(ts, m);
    forall i | 0 <= i < |e| ensures 0.0 <= e[i] < y { assert e[i] in e; }
    forall x ensures multiset(e + [y])[x] <= m {
      assert multiset(e + [y])[x] == multiset(e)[x] + if x == y then 1 else 0;
      if x == y { assert y !in e; }
    }
  }

  lemma FewInstants(ts: seq<real>, y: real, m: nat)
    requires Increasing(ts)
    ensures var e := Each(ts, m) + [y]; |Instants(e[..|e| - 1])| <= |ts|
  {
    EachShape(ts, m);
    DistinctSize(ts);
    var e := Each(ts, m);
    assert (e + [y])[..|e|] == e;
    SubsetSize(Instants(e), (set x | x in ts));
  }

  lemma SpreadSplits(limit: nat)
    requires limit > 0
    ensures var ts, y := Spread(limit)[..limit - 1], Spread(limit)[limit - 1];
      Increasing(ts) && (forall x :: x in ts ==> 0.0 <= x < y) && 0.0 <= y <= 1.0
  {
    SpreadIncreases(limit);
    assert Spread(limit)[limit - 1] in Spread(limit);
    forall x | x in Spread(limit)[..limit - 1] ensures x < Spread(limit)[limit - 1] && x in Spread(limit) {}
  }

  lemma CrowdedShape(limit: nat, m: nat)
    requires limit > 0 && m > 0
    ensures var c := Crowded(limit, m);
      && NonDecreasing(c) && AtMost(c, m) && |c| == Most(limit, m)
      && (forall x :: x in c ==> 0.0 <= x <= 1.0)
      && |Instants(c[..|c| - 1])| < limit
  {
    SpreadSplits(limit);
    OneLater(Spread(limit)[..limit - 1], Spread(limit)[limit - 1], m);
    FewInstants(Spread(limit)[..limit - 1], Spread(limit)[limit - 1], m);
  }

  lemma CrowdedPasses(limit: nat, m: nat)
    ensures var c := Crowded(limit, m);
      && NonDecreasing(c) && AtMost(c, m)
      && |InWindow(RedisRun(c, limit).admitted, 1.0)| == Most(limit, m)
  {
    var c := Crowded(limit, m);
    if limit > 0 && m > 0 { CrowdedShape(limit, m); }
    FewInstantsPass(c, limit);
    AllInWindow(c, 1.0);
  }

  lemma MostWithinLimit(limit: nat, m: nat)
    ensures Most(limit, m) <= limit <==> m <= 1 || limit <= 1
  {
    if limit > 0 && m > 0 { assert Most(limit, m) - limit == (m - 1) * (limit - 1); }
  }

  /** EXACTLY. Runs in which at most m requests share an instant all stay within b requests
      a window if and only if b is at least m * (limit - 1) + 1. */
  lemma RedisBoundExactly(limit: nat, m: nat, b: nat)
    ensures Most(limit, m) <= b <==>
      forall arrivals :: NonDecreasing(arrivals) && AtMost(arrivals, m)
        ==> Bounded(RedisRun(arrivals, limit).admitted, b)
  {
    if Most(limit, m) <= b {
      forall arrivals | NonDecreasing(arrivals) && AtMost(arrivals, m)
        ensures Bounded(RedisRun(arrivals, limit).admitted, b)
      {
        SharedInstantsBound(arrivals, limit, m);
      }
    } else {
      CrowdedPasses(limit, m);
      var c := Crowded(limit, m);
      assert |InWindow(RedisRun(c, limit).admitted, 1.0)| > b;
    }
  }

  /** So the limit itself holds for all of them if and only if no instant is shared or the
      limit is at most one. */
  lemma RedisLimitHoldsExactly(limit: nat, m: nat)
    ensures m <= 1 || limit <= 1 <==>
      forall arrivals :: NonDecreasing(arrivals) && AtMost(arrivals, m)
        ==> Bounded(RedisRun(arrivals, limit).admitted, limit)
  {
    RedisBoundExactly(limit, m, limit);
    MostWithinLimit(limit, m);
  }

  lemma AtMostAll(arrivals: seq<real>)
    ensures AtMost(arrivals, |arrivals|)
  {
    forall x ensures multiset(arrivals)[x] <= |arrivals| {
      assert multiset{}[x := multiset(arrivals)[x]] <= multiset(arrivals);
    }
  }

  /** Without a restriction on the arrivals, it holds if and only if it is at most one. */
  lemma RedisLimitHoldsForAllExactly(limit: nat)
    ensures limit <= 1 <==>
      forall arrivals :: NonDecreasing(arrivals) ==> Bounded(RedisRun(arrivals, limit).admitted, limit)
  {
    if limit <= 1 {
      forall arrivals | NonDecreasing(arrivals) ensures Bounded(RedisRun(arrivals, limit).admitted, limit) {
        AtMostAll(arrivals);
        RedisLimitHoldsExactly(limit, |arrivals|);
      }
    } else {
      RedisLimitHoldsExactly(limit, 2);
    }
  }
}
