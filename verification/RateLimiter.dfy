/** The gateway's rate limiter: all clients, both backends, the one-way switch between
    them and the eviction that bounds the in-memory table. */
module RateLimiter {
  import opened SlidingWindow

  type Client = string

  const MAX_IN_MEMORY_ENTRIES := 10000

  function LogOf(memory: map<Client, seq<real>>, c: Client): seq<real> {
    if c in memory then memory[c] else []
  }

  function EntryOf(redis: map<Client, Entry>, c: Client): Entry {
    if c in redis then redis[c] else ABSENT
  }

  /** The sort key of the eviction: a client's latest entry, or 0 for an empty log. */
  function Latest(log: seq<real>): real {
    if log == [] then 0.0 else
      var n := |log| - 1;
      if n == 0 then log[0] else
        var rest := Latest(log[..n]);
        if rest < log[n] then log[n] else rest
  }

  /** It is the greatest entry of the log. */
  lemma {:induction false} LatestIsGreatest(log: seq<real>)
    requires log != []
    ensures Latest(log) in log && forall x :: x in log ==> x <= Latest(log)
  {
    if |log| > 1 {
      var n := |log| - 1;
      LatestIsGreatest(log[..n]);
      forall x | x in log ensures x <= Latest(log) { assert x in log[..n] || x == log[n]; }
    }
  }

  /** The sorting routine's answer: all clients, by latest entry, oldest first. */
  ghost predicate SortedByLatest(memory: map<Client, seq<real>>, order: seq<Client>) {
    && (forall c :: c in order <==> c in memory)
    && (forall i, j :: 0 <= i < j < |order| ==> order[i] != order[j])
    && (forall i, j :: 0 <= i < j < |order| ==> Latest(memory[order[i]]) <= Latest(memory[order[j]]))
  }

  function Without(memory: map<Client, seq<real>>, gone: set<Client>): map<Client, seq<real>> {
    map c | c in memory && c !in gone :: memory[c]
  }

  lemma {:induction false} DistinctCount(order: seq<Client>)
    requires forall i, j :: 0 <= i < j < |order| ==> order[i] != order[j]
    ensures |(set c | c in order)| == |order|
  {
    if order != [] {
      var n := |order| - 1;
      DistinctCount(order[..n]);
      assert order[n] !in order[..n];
      assert (set c | c in order) == (set c | c in order[..n]) + {order[n]};
    }
  }

  /** The eviction: the older half of more than MAX_IN_MEMORY_ENTRIES clients. */
  function Evicted(memory: map<Client, seq<real>>, order: seq<Client>): set<Client> {
    if |memory| <= MAX_IN_MEMORY_ENTRIES then {} else set c | c in order[..|order| / 2]
  }

  lemma EvictedCount(memory: map<Client, seq<real>>, order: seq<Client>)
    requires SortedByLatest(memory, order) && |memory| > MAX_IN_MEMORY_ENTRIES
    ensures Evicted(memory, order) <= memory.Keys && |Evicted(memory, order)| == |memory| / 2
    ensures |Without(memory, Evicted(memory, order))| == |memory| - |memory| / 2
  {
    hide Latest;
    var half := order[..|order| / 2];
    var gone := Evicted(memory, order);
    DistinctCount(order);
    DistinctCount(half);
    assert (set c | c in order) == memory.Keys;
    assert Without(memory, gone).Keys == memory.Keys - gone;
  }

  /** It halves the table, rounding the rest up, and never keeps a client whose latest
      request is older than that of an evicted one. */
  lemma EvictsTheOlderHalf(memory: map<Client, seq<real>>, order: seq<Client>)
    requires SortedByLatest(memory, order)
    ensures var rest := Without(memory, Evicted(memory, order));
      && (|memory| <= 10000 ==> rest == memory)
      && (|memory| > 10000 ==> |rest| == |memory| - |memory| / 2)
      && (forall c :: c in rest ==> c in memory && rest[c] == memory[c])
      && forall c, d :: c in memory && c !in rest && d in rest ==> Latest(memory[c]) <= Latest(memory[d])
  {
    if |memory| > MAX_IN_MEMORY_ENTRIES {
      EvictedCount(memory, order);
      hide Latest;
      var half := order[..|order| / 2];
      forall c, d | c in half && d in memory && d !in half ensures Latest(memory[c]) <= Latest(memory[d]) {
        var i :| 0 <= i < |half| && half[i] == c;
        var j :| 0 <= j < |order| && order[j] == d;
        assert forall k :: 0 <= k < |half| ==> half[k] == order[k] && half[k] in half;
        assert order[i] == c;
      }
    }
  }

  /** In terms of requests: of clients that have any, each one of an evicted client is at
      or before some request of every kept client. */
  lemma EvictedAskedEarlier(memory: map<Client, seq<real>>, order: seq<Client>, c: Client, d: Client)
    requires SortedByLatest(memory, order)
    requires c in memory && c in Evicted(memory, order) && d in memory && d !in Evicted(memory, order)
    requires memory[c] != [] && memory[d] != []
    ensures forall x :: x in memory[c] ==> exists y :: y in memory[d] && x <= y
  {
    EvictsTheOlderHalf(memory, order);
    LatestIsGreatest(memory[c]);
    LatestIsGreatest(memory[d]);
    var y := Latest(memory[d]);
    assert y in memory[d] && Latest(memory[c]) <= y;
  }

  /** Clients of which a removal drops requests that still count at `now`. */
  function LiveIn(memory: map<Client, seq<real>>, gone: set<Client>, now: real): set<Client> {
    set c | c in gone && Later(LogOf(memory, c), now - WINDOW) != []
  }

  /** One client: its sorted set, its log, what each backend admitted, oldest first, and
      whether it never lost counted requests to an eviction. */
  datatype Standing = Standing(
    entry: Entry, byRedis: seq<real>, log: seq<real>, byMemory: seq<real>, intact: bool)

  /** What is known of a client at a time. */
  ghost predicate ClientOk(s: Standing, now: real, limit: nat) {
    && RedisSound(s.entry, s.byRedis, now, limit)
    && NoneAfter(s.byMemory, now)
    && (s.intact ==> MemorySound(s.log, s.byMemory, now, limit))
  }

  lemma ClientInitially(limit: nat)
    ensures ClientOk(Standing(ABSENT, [], [], [], true), 0.0, limit)
  {
    MemoryRunSound([], limit);
    RedisRunSound([], limit);
  }

  lemma ClientAdvances(s: Standing, last: real, now: real, limit: nat)
    requires ClientOk(s, last, limit) && last <= now
    ensures ClientOk(s, now, limit)
  {
    if s.intact { MemoryStaysSound(s.log, s.byMemory, last, now, limit); }
  }

  lemma ClientEvicted(s: Standing, now: real, limit: nat)
    requires ClientOk(s, now, limit)
    ensures ClientOk(s.(log := [], intact := s.intact && Later(s.log, now - WINDOW) == []), now, limit)
  {
  }

  lemma ClientAsksRedis(s: Standing, now: real, limit: nat)
    requires ClientOk(s, now, limit) && 0.0 <= now
    ensures var v := RedisStep(s.entry, now, limit);
      && (v.admitted ==> ClientOk(s.(entry := v.state, byRedis := s.byRedis + [now]), now, limit))
      && ClientOk(s.(entry := v.state), now, limit)
  {
    RedisStepSound(s.entry, s.byRedis, now, now, limit);
  }

  lemma ClientAsksMemory(s: Standing, now: real, limit: nat)
    requires ClientOk(s, now, limit)
    ensures var v := MemoryStep(s.log, now, limit);
            ClientOk(s.(log := v.state, byMemory := if v.admitted then s.byMemory + [now] else s.byMemory), now, limit)
  {
    if s.intact { MemoryStepSound(s.log, s.byMemory, now, now, limit); }
  }

  ghost predicate AllIncreasing(logs: map<Client, seq<real>>) { forall c :: Increasing(LogOf(logs, c)) }

  lemma LaterRequestIncreases(logs: map<Client, seq<real>>, c: Client, last: real, now: real)
    requires AllIncreasing(logs) && NoneAfter(LogOf(logs, c), last) && last < now
    ensures AllIncreasing(logs[c := LogOf(logs, c) + [now]])
  {
    var log := LogOf(logs, c);
    var next := logs[c := log + [now]];
    assert Increasing(log);
    assert forall i :: 0 <= i < |log| ==> log[i] in log;
    forall d ensures Increasing(LogOf(next, d)) {
      if d != c { assert LogOf(next, d) == LogOf(logs, d) && Increasing(LogOf(logs, d)); }
    }
  }

  class RateLimiter {
    const enabled: bool
    const limit: nat
    /** False once the Redis client is given up; never true again. */
    var redisUp: bool
    var redis: map<Client, Entry>
    var memory: map<Client, seq<real>>
    /** Per client, the times admitted by each backend, oldest first. */
    ghost var byRedis: map<Client, seq<real>>
    ghost var byMemory: map<Client, seq<real>>
    ghost var lastNow: real
    /** Clients that lost counted requests to an eviction. */
    ghost var evictedLive: set<Client>

    ghost function StandingOf(c: Client): Standing reads this {
      Standing(EntryOf(redis, c), LogOf(byRedis, c), LogOf(memory, c), LogOf(byMemory, c), c !in evictedLive)
    }

    ghost predicate ClientSound(c: Client) reads this {
      ClientOk(StandingOf(c), lastNow, limit)
    }

    ghost predicate Valid() reads this {
      && 0.0 <= lastNow
      && |memory| <= MAX_IN_MEMORY_ENTRIES + 1
      && (redisUp ==> byMemory == map[])
      && forall c :: ClientSound(c)
    }

    /** What Redis admitted of each client, it admitted at strictly later times. */
    ghost predicate Strict() reads this`byRedis { AllIncreasing(byRedis) }

    constructor (enabled: bool, limit: nat, redisReachable: bool)
      ensures Valid() && Strict() && this.limit == limit && this.enabled == enabled
      ensures redisUp == (enabled && redisReachable)
      ensures memory == map[] && byRedis == map[] && byMemory == map[] && evictedLive == {}
    {
      this.enabled, this.limit := enabled, limit;
      redisUp := enabled && redisReachable;
      redis, memory := map[], map[];
      byRedis, byMemory, lastNow, evictedLive := map[], map[], 0.0, {};
      new;
      ClientInitially(limit);
    }

    /** Time passes. */
    ghost method Advance(now: real)
      requires Valid() && lastNow <= now
      modifies this`lastNow
      ensures Valid() && lastNow == now
    {
      hide ClientOk;
      forall c ensures ClientOk(StandingOf(c), now, limit) {
        assert ClientSound(c);
        ClientAdvances(StandingOf(c), lastNow, now, limit);
      }
      lastNow := now;
      forall c ensures ClientSound(c) { assert StandingOf(c) == old(StandingOf(c)); }
    }

    /** What is left of each client's standing by an eviction. */
    ghost function AfterEviction(c: Client, order: seq<Client>): Standing reads this {
      var gone := Evicted(memory, order);
      Standing(EntryOf(redis, c), LogOf(byRedis, c), LogOf(Without(memory, gone), c), LogOf(byMemory, c),
               c !in evictedLive + LiveIn(memory, gone, lastNow))
    }

    lemma EvictionIsSound(order: seq<Client>)
      requires Valid()
      ensures forall c :: ClientOk(AfterEviction(c, order), lastNow, limit)
    {
      hide ClientOk, Evicted;
      forall c ensures ClientOk(AfterEviction(c, order), lastNow, limit) {
        assert ClientSound(c);
        if c in Evicted(memory, order) { ClientEvicted(StandingOf(c), lastNow, limit); }
      }
    }

    lemma EvictionFits(memory: map<Client, seq<real>>, order: seq<Client>)
      requires SortedByLatest(memory, order) && |memory| <= MAX_IN_MEMORY_ENTRIES + 1
      ensures var rest := Without(memory, Evicted(memory, order));
              |rest| <= MAX_IN_MEMORY_ENTRIES && (|memory| <= MAX_IN_MEMORY_ENTRIES ==> rest == memory)
    {
      EvictsTheOlderHalf(memory, order);
      hide Without, Evicted, SortedByLatest;
    }

    method GarbageCollect(now: real, order: seq<Client>)
      requires Valid() && lastNow == now && SortedByLatest(memory, order)
      modifies this`memory, this`evictedLive
      ensures Valid() && |memory| <= MAX_IN_MEMORY_ENTRIES
      ensures memory == old(Without(memory, Evicted(memory, order)))
      ensures evictedLive == old(evictedLive + LiveIn(memory, Evicted(memory, order), now))
    {
      hide ClientOk, LiveIn, SortedByLatest, Evicted, Without, EntryOf, LogOf;
      ghost var before, live := memory, LiveIn(memory, Evicted(memory, order), now);
      EvictionFits(before, order);
      EvictionIsSound(order);
      ghost var kept := Without(before, Evicted(before, order));
      if |memory| > MAX_IN_MEMORY_ENTRIES {
        DeleteHalf(order);
      }
      assert memory == kept;
      evictedLive := evictedLive + live;
      forall c ensures ClientSound(c) {
        assert old(ClientOk(AfterEviction(c, order), lastNow, limit));
        assert StandingOf(c) == old(AfterEviction(c, order));
      }
    }

    method DeleteHalf(order: seq<Client>)
      requires |memory| > MAX_IN_MEMORY_ENTRIES
      modifies this`memory
      ensures memory == Without(old(memory), Evicted(old(memory), order))
    {
      var evictCount := |order| / 2;
      var i := 0;
      while i < evictCount
        invariant 0 <= i <= evictCount <= |order|
        invariant memory == Without(old(memory), set c | c in order[..i])
      {
        assert order[..i + 1] == order[..i] + [order[i]];
        memory := memory - {order[i]};
        i := i + 1;
      }
    }

    lemma EntryUpdated(entries: map<Client, Entry>, c: Client, e: Entry)
      ensures EntryOf(entries[c := e], c) == e
      ensures forall d :: d != c ==> EntryOf(entries[c := e], d) == EntryOf(entries, d)
    {
    }

    lemma LogUpdated(logs: map<Client, seq<real>>, c: Client, log: seq<real>)
      ensures LogOf(logs[c := log], c) == log
      ensures forall d :: d != c ==> LogOf(logs[c := log], d) == LogOf(logs, d)
    {
    }

    /** The Redis pipeline for one request. `answered` is false when its execution raised;
        the server may have run it all the same. */
    method CheckRedis(c: Client, now: real, answered: bool, executed: bool) returns (admitted: bool)
      requires Valid() && redisUp && lastNow == now
      modifies this`redis, this`byRedis, this`redisUp
      ensures Valid() && redisUp == answered && (answered || !admitted)
      ensures answered ==>
        RedisStep(old(EntryOf(redis, c)), now, limit) == Verdict(EntryOf(redis, c), admitted)
      ensures byRedis == if admitted then old(byRedis)[c := old(LogOf(byRedis, c)) + [now]] else old(byRedis)
      ensures forall d :: d != c ==> EntryOf(redis, d) == old(EntryOf(redis, d))
    {
      hide ClientOk, RedisStep, EntryOf, LogOf;
      assert ClientSound(c);
      ghost var was := StandingOf(c);
      ClientAsksRedis(was, now, limit);
      label before:
      var v := RedisStep(EntryOf(redis, c), now, limit);
      EntryUpdated(redis, c, v.state);
      LogUpdated(byRedis, c, LogOf(byRedis, c) + [now]);
      if answered || executed {
        redis := redis[c := v.state];
      }
      redisUp := answered;
      admitted := answered && v.admitted;
      if admitted {
        byRedis := byRedis[c := LogOf(byRedis, c) + [now]];
      }
      assert StandingOf(c) ==
        if admitted then was.(entry := v.state, byRedis := was.byRedis + [now])
        else if answered || executed then was.(entry := v.state) else was;
      forall d ensures ClientSound(d) {
        if d != c {
          assert StandingOf(d) == old@before(StandingOf(d));
          assert old@before(ClientSound(d));
        }
      }
    }

    /** The in-memory fallback for one request. */
    method CheckMemory(c: Client, now: real, order: seq<Client>) returns (admitted: bool)
      requires Valid() && !redisUp && lastNow == now && SortedByLatest(memory, order)
      modifies this`memory, this`byMemory, this`evictedLive
      ensures Valid()
      ensures var kept := old(Without(memory, Evicted(memory, order)));
        && MemoryStep(LogOf(kept, c), now, limit) == Verdict(LogOf(memory, c), admitted)
        && (forall d :: d != c ==> LogOf(memory, d) == LogOf(kept, d))
      ensures byMemory == if admitted then old(byMemory)[c := old(LogOf(byMemory, c)) + [now]] else old(byMemory)
      ensures evictedLive == old(evictedLive + LiveIn(memory, Evicted(memory, order), now))
    {
      GarbageCollect(now, order);
      admitted := CompareAndAppend(c, now);
    }

    method CompareAndAppend(c: Client, now: real) returns (admitted: bool)
      requires Valid() && !redisUp && lastNow == now && |memory| <= MAX_IN_MEMORY_ENTRIES
      modifies this`memory, this`byMemory
      ensures Valid()
      ensures MemoryStep(old(LogOf(memory, c)), now, limit) == Verdict(LogOf(memory, c), admitted)
      ensures forall d :: d != c ==> LogOf(memory, d) == old(LogOf(memory, d))
      ensures byMemory == if admitted then old(byMemory)[c := old(LogOf(byMemory, c)) + [now]] else old(byMemory)
    {
      assert ClientSound(c);
      ClientAsksMemory(StandingOf(c), now, limit);
      hide ClientOk;
      label before:
      var validTimestamps := Later(LogOf(memory, c), now - WINDOW);
      if |validTimestamps| >= limit {
        memory := memory[c := validTimestamps];
        admitted := false;
      } else {
        validTimestamps := validTimestamps + [now];
        memory := memory[c := validTimestamps];
        byMemory := byMemory[c := LogOf(byMemory, c) + [now]];
        admitted := true;
      }
      forall d ensures ClientSound(d) { assert old@before(ClientSound(d)); }
    }

    /** One request: Redis while it answers, the in-memory log from its first failure on. */
    method CheckRateLimit(c: Client, now: real, answered: bool, executed: bool, order: seq<Client>)
        returns (admitted: bool)
      requires Valid() && lastNow <= now && SortedByLatest(memory, order)
      modifies this
      ensures Valid() && (!enabled ==> admitted) && (redisUp ==> old(redisUp))
      ensures lastNow == if enabled then now else old(lastNow)
      ensures enabled && old(redisUp) && answered ==>
        RedisStep(old(EntryOf(redis, c)), now, limit) == Verdict(EntryOf(redis, c), admitted)
        && byMemory == old(byMemory)
      ensures enabled && !(old(redisUp) && answered) ==>
        var kept := old(Without(memory, Evicted(memory, order)));
        && MemoryStep(LogOf(kept, c), now, limit) == Verdict(LogOf(memory, c), admitted)
        && byRedis == old(byRedis)
      ensures old(evictedLive) <= evictedLive
      ensures old(Strict()) && old(lastNow) < now ==> Strict()
    {
      hide AllIncreasing, ClientSound, NoneAfter, RedisStep, MemoryStep, SortedByLatest, Without, Evicted, LiveIn;
      if !enabled {
        return true;
      }
      AdmittedBefore(c);
      if Strict() && lastNow < now { LaterRequestIncreases(byRedis, c, lastNow, now); }
      Advance(now);
      if redisUp {
        admitted := CheckRedis(c, now, answered, executed);
        if redisUp {
          return;
        }
      }
      admitted := CheckMemory(c, now, order);
    }

    lemma AdmittedBefore(c: Client)
      requires Valid()
      ensures NoneAfter(LogOf(byRedis, c), lastNow)
    {
      assert ClientSound(c);
    }

    /** WHOLE RUNS. At any point of any run, a client that never lost counted requests to
        an eviction was admitted by the in-memory log at most `limit` times in any
        interval (t - 60, t], and by Redis at no more than `limit` distinct instants of
        it; and if each request came later than the one before, both together admitted at
        most twice the limit. */
    lemma WindowBound(c: Client, t: real)
      requires Valid() && c !in evictedLive
      ensures |InWindow(LogOf(byMemory, c), t)| <= limit
      ensures |WindowSet(LogOf(byRedis, c), t)| <= limit
      ensures redisUp ==> LogOf(byMemory, c) == []
      ensures Strict() ==> |InWindow(LogOf(byRedis, c) + LogOf(byMemory, c), t)| <= 2 * limit
    {
      assert ClientSound(c);
      WindowSplits(LogOf(byRedis, c), LogOf(byMemory, c), t);
      if Strict() { IncreasingWindow(LogOf(byRedis, c), t); }
    }
  }
}
