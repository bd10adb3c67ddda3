/** The gateway's brute-force lockout of one client address: the check before a login is
    forwarded, and the update after the auth service answered. One login of an address is
    in flight at a time; its check and its answer carry their own clock readings. */
module LoginLockout {
  const MAX_ATTEMPTS := 5
  const LOCK_SECONDS := 900.0

  datatype Reply = Accepted | WrongPassword | OtherReply

  /** A login checked at one time and, unless refused, answered at a later one. */
  datatype Login = Login(checkedAt: real, answeredAt: real, reply: Reply)

  /** Logins of one address follow one another. */
  ghost predicate Sequential(logins: seq<Login>) {
    && (forall i :: 0 <= i < |logins| ==> 0.0 <= logins[i].checkedAt <= logins[i].answeredAt)
    && (forall i, j :: 0 <= i < j < |logins| ==> logins[i].answeredAt <= logins[j].checkedAt)
  }

  /** The recorded failures since the last accepted login, by the time of their answer. */
  datatype Run<T> = Run(state: T, failures: seq<real>)

  ghost predicate Ordered(ts: seq<real>) { forall i, j :: 0 <= i <= j < |ts| ==> ts[i] <= ts[j] }

  // ------------------------------------------------------------------ in memory

  datatype Lock = Lock(attempts: nat, until: real)

  predicate Locked(l: Lock, now: real) { l.attempts >= MAX_ATTEMPTS && now < l.until }

  /** The dictionary entry after one login; an accepted login removes it. */
  function MemoryLogin(l: Lock, x: Login): Lock {
    if Locked(l, x.checkedAt) then l else
      match x.reply
      case Accepted => Lock(0, 0.0)
      case WrongPassword =>
        Lock(l.attempts + 1, if l.attempts + 1 >= MAX_ATTEMPTS then x.answeredAt + LOCK_SECONDS else 0.0)
      case OtherReply => l
  }

  function Recorded(failures: seq<real>, locked: bool, x: Login): seq<real> {
    if locked then failures else
      match x.reply
      case Accepted => []
      case WrongPassword => failures + [x.answeredAt]
      case OtherReply => failures
  }

  function MemoryRun(logins: seq<Login>): Run<Lock> {
    if logins == [] then Run(Lock(0, 0.0), []) else
      var n := |logins| - 1;
      var r := MemoryRun(logins[..n]);
      Run(MemoryLogin(r.state, logins[n]), Recorded(r.failures, Locked(r.state, logins[n].checkedAt), logins[n]))
  }

  function Last(logins: seq<Login>): real { if logins == [] then 0.0 else logins[|logins| - 1].answeredAt }

  ghost predicate MemoryPaced(r: Run<Lock>, now: real) {
    && r.state.attempts == |r.failures|
    && r.state.until == (if |r.failures| >= MAX_ATTEMPTS then r.failures[|r.failures| - 1] + LOCK_SECONDS else 0.0)
    && (forall i :: 0 <= i < |r.failures| ==> r.failures[i] <= now)
    && (forall i :: MAX_ATTEMPTS <= i < |r.failures| ==> r.failures[i] >= r.failures[i - 1] + LOCK_SECONDS)
  }

  lemma MemoryStepPaced(r: Run<Lock>, now: real, x: Login)
    requires MemoryPaced(r, now) && now <= x.checkedAt <= x.answeredAt
    ensures MemoryPaced(
      Run(MemoryLogin(r.state, x), Recorded(r.failures, Locked(r.state, x.checkedAt), x)), x.answeredAt)
  {
  }

  lemma {:induction false} MemoryRunPaced(logins: seq<Login>)
    requires Sequential(logins)
    ensures MemoryPaced(MemoryRun(logins), Last(logins))
  {
    if logins != [] {
      var n := |logins| - 1;
      MemoryRunPaced(logins[..n]);
      if n > 0 { assert logins[n - 1].answeredAt <= logins[n].checkedAt; }
      var r := MemoryRun(logins[..n]);
      hide MemoryPaced;
      MemoryStepPaced(r, Last(logins[..n]), logins[n]);
    }
  }

  /** PACING. With the in-memory counter the n-th failure in a row, n >= 5, is recorded no
      earlier than 900 * (n - 5) seconds after the fifth. */
  lemma {:induction false} FailuresArePaced(logins: seq<Login>, n: nat)
    requires Sequential(logins) && MAX_ATTEMPTS <= n <= |MemoryRun(logins).failures|
    ensures var f := MemoryRun(logins).failures;
            f[n - 1] >= f[MAX_ATTEMPTS - 1] + LOCK_SECONDS * (n - MAX_ATTEMPTS) as real
  {
    MemoryRunPaced(logins);
    if n > MAX_ATTEMPTS {
      FailuresArePaced(logins, n - 1);
      assert (n - MAX_ATTEMPTS) as real == (n - 1 - MAX_ATTEMPTS) as real + 1.0;
    }
  }

  /** A check at this time, after these failures in a row, finds the address locked: there
      are five, and the last one is less than 900 seconds ago. */
  predicate StillLocked(failures: seq<real>, now: real) {
    |failures| >= 5 && now < failures[|failures| - 1] + 900.0
  }

  /** What a login makes of the failures in a row. */
  function FailuresAfter(failures: seq<real>, refused: bool, x: Login): seq<real> {
    if refused || x.reply.OtherReply? then failures
    else if x.reply.Accepted? then [] else failures + [x.answeredAt]
  }

  lemma Extends(logins: seq<Login>, x: Login)
    requires Sequential(logins + [x])
    ensures Sequential(logins) && Last(logins) <= x.checkedAt <= x.answeredAt && 0.0 <= Last(logins)
  {
    var all := logins + [x];
    assert all[|logins|] == x;
    assert forall i :: 0 <= i < |logins| ==> all[i] == logins[i];
  }

  /** WHO IS REFUSED. In memory a login after these is refused if and only if five failures
      in a row precede it, the last one less than 900 seconds before its check; an accepted
      one clears them, and a wrong password is one more. */
  lemma MemoryRefusesExactly(logins: seq<Login>, x: Login)
    requires Sequential(logins + [x])
    ensures var f := MemoryRun(logins).failures;
      MemoryRun(logins + [x]).failures == FailuresAfter(f, StillLocked(f, x.checkedAt), x)
  {
    Extends(logins, x);
    assert (logins + [x])[..|logins|] == logins;
    MemoryRunPaced(logins);
    assert MemoryPaced(MemoryRun(logins), Last(logins));
  }

  /** Five failures at once, then one whenever the lock has just expired. */
  function PacedTime(i: nat): real { if i < 5 then 0.0 else 900.0 * (i - 4) as real }

  function Paced(n: nat): seq<Login> {
    seq(n, i requires 0 <= i => Login(PacedTime(i), PacedTime(i), WrongPassword))
  }

  lemma PacedIsSequential(n: nat)
    ensures Sequential(Paced(n))
  {
    forall i: nat, j: nat | i < j < n ensures 0.0 <= PacedTime(i) <= PacedTime(j) {
      assert i as real <= j as real;
    }
  }

  lemma {:induction false} PacedIsRecorded(n: nat)
    ensures MemoryRun(Paced(n)).failures == seq(n, i requires 0 <= i => PacedTime(i))
  {
    if n > 0 {
      var k := n - 1;
      PacedIsRecorded(k);
      PacedIsSequential(n);
      var x := Login(PacedTime(k), PacedTime(k), WrongPassword);
      assert Paced(n) == Paced(k) + [x];
      MemoryRefusesExactly(Paced(k), x);
      hide MemoryRun, Sequential;
      assert seq(n, i requires 0 <= i => PacedTime(i)) == seq(k, i requires 0 <= i => PacedTime(i)) + [PacedTime(k)];
      if k >= 5 { assert (k - 4) as real == (k - 1 - 4) as real + 1.0; }
    }
  }

  /** The pacing is attained for every n: a lock lasts no longer than those 900 seconds. */
  lemma FailuresPaceIsTight(n: nat)
    requires 5 <= n
    ensures exists logins ::
      && Sequential(logins) && |MemoryRun(logins).failures| == n
      && MemoryRun(logins).failures[n - 1] == MemoryRun(logins).failures[4] + 900.0 * (n - 5) as real
  {
    PacedIsSequential(n);
    PacedIsRecorded(n);
    hide MemoryRun, Sequential;
    var f := MemoryRun(Paced(n)).failures;
    assert f[n - 1] == PacedTime(n - 1) && f[4] == PacedTime(4) == 0.0;
    assert n - 1 >= 5 ==> (n - 1 - 4) as real == (n - 5) as real;
  }

  // ---------------------------------------------------------------------- Redis

  /** INCR followed by EXPIRE: the counter vanishes 900 seconds after the last failure. */
  datatype Counter = Counter(count: nat, expiresAt: real)

  function Count(c: Counter, now: real): nat { if now < c.expiresAt then c.count else 0 }

  function RedisLogin(c: Counter, x: Login): Counter {
    if Count(c, x.checkedAt) >= MAX_ATTEMPTS then c else
      match x.reply
      case Accepted => Counter(0, 0.0)
      case WrongPassword => Counter(Count(c, x.answeredAt) + 1, x.answeredAt + LOCK_SECONDS)
      case OtherReply => c
  }

  function RedisRun(logins: seq<Login>): Run<Counter> {
    if logins == [] then Run(Counter(0, 0.0), []) else
      var n := |logins| - 1;
      var r := RedisRun(logins[..n]);
      Run(RedisLogin(r.state, logins[n]),
          Recorded(r.failures, Count(r.state, logins[n].checkedAt) >= MAX_ATTEMPTS, logins[n]))
  }

  /** No 900 seconds see more than five failures: the sixth of any six is that late. */
  ghost predicate Spread(f: seq<real>) {
    forall i :: 0 <= i < |f| - MAX_ATTEMPTS ==> f[i + MAX_ATTEMPTS] >= f[i] + LOCK_SECONDS
  }

  /** The counter counts the failures after the last pause of 900 seconds. */
  ghost predicate RedisPaced(r: Run<Counter>, now: real) {
    && r.state.count <= |r.failures|
    && (|r.failures| > 0 ==> r.state.count > 0 && r.state.expiresAt == r.failures[|r.failures| - 1] + LOCK_SECONDS)
    && (r.failures == [] ==> r.state.expiresAt == 0.0)
    && (r.state.count < |r.failures| ==>
          var k := |r.failures| - r.state.count;
          0 < k < |r.failures| && r.failures[k] >= r.failures[k - 1] + LOCK_SECONDS)
    && (forall i :: 0 <= i < |r.failures| ==> r.failures[i] <= now)
    && Ordered(r.failures) && Spread(r.failures)
  }

  /** A login that passes the check comes 900 seconds after the fifth failure before it. */
  lemma SixthIsLate(r: Run<Counter>, now: real, x: Login)
    requires RedisPaced(r, now) && now <= x.checkedAt <= x.answeredAt
    requires |r.failures| >= MAX_ATTEMPTS && Count(r.state, x.checkedAt) < MAX_ATTEMPTS
    ensures x.answeredAt >= r.failures[|r.failures| - MAX_ATTEMPTS] + LOCK_SECONDS
  {
    var f, n := r.failures, |r.failures|;
    if x.answeredAt < r.state.expiresAt {
      var k := n - r.state.count;
      assert f[n - MAX_ATTEMPTS] <= f[k - 1] && f[k] <= f[n - 1];
    } else {
      assert f[n - MAX_ATTEMPTS] <= f[n - 1];
    }
  }

  lemma AppendSpread(f: seq<real>, t: real)
    requires Spread(f) && Ordered(f) && (forall i :: 0 <= i < |f| ==> f[i] <= t)
    requires |f| >= MAX_ATTEMPTS ==> t >= f[|f| - MAX_ATTEMPTS] + LOCK_SECONDS
    ensures Spread(f + [t]) && Ordered(f + [t])
  {
  }

  lemma RedisFailurePaced(r: Run<Counter>, now: real, x: Login)
    requires RedisPaced(r, now) && now <= x.checkedAt <= x.answeredAt && 0.0 <= now
    requires Count(r.state, x.checkedAt) < MAX_ATTEMPTS && x.reply.WrongPassword?
    ensures RedisPaced(Run(RedisLogin(r.state, x), r.failures + [x.answeredAt]), x.answeredAt)
  {
    if |r.failures| >= MAX_ATTEMPTS { SixthIsLate(r, now, x); }
    AppendSpread(r.failures, x.answeredAt);
    hide Spread, Ordered;
    var f, c := r.failures + [x.answeredAt], RedisLogin(r.state, x);
    if c.count < |f| {
      var k := |f| - c.count;
      assert f[k] >= f[k - 1] + LOCK_SECONDS by {
        if x.answeredAt < r.state.expiresAt { assert f[k] == r.failures[k] && f[k - 1] == r.failures[k - 1]; }
      }
    }
  }

  lemma RedisStepPaced(r: Run<Counter>, now: real, x: Login)
    requires RedisPaced(r, now) && now <= x.checkedAt <= x.answeredAt && 0.0 <= now
    ensures RedisPaced(
      Run(RedisLogin(r.state, x), Recorded(r.failures, Count(r.state, x.checkedAt) >= MAX_ATTEMPTS, x)), x.answeredAt)
  {
    if Count(r.state, x.checkedAt) < MAX_ATTEMPTS && x.reply.WrongPassword? { RedisFailurePaced(r, now, x); }
  }

  lemma {:induction false} RedisRunPaced(logins: seq<Login>)
    requires Sequential(logins)
    ensures RedisPaced(RedisRun(logins), Last(logins))
  {
    if logins != [] {
      var n := |logins| - 1;
      RedisRunPaced(logins[..n]);
      if n > 0 { assert logins[n - 1].answeredAt <= logins[n].checkedAt; }
      RedisStepPaced(RedisRun(logins[..n]), Last(logins[..n]), logins[n]);
    }
  }

  /** SPREAD. With the Redis counter, too, any six recorded failures in a row take at
      least 900 seconds, although its lock, unlike the in-memory one, starts from zero
      again when it expires. */
  lemma RedisFailuresAreSpread(logins: seq<Login>, i: nat)
    requires Sequential(logins) && i + MAX_ATTEMPTS < |RedisRun(logins).failures|
    ensures RedisRun(logins).failures[i + MAX_ATTEMPTS] >= RedisRun(logins).failures[i] + LOCK_SECONDS
  {
    RedisRunPaced(logins);
  }

  function Wrong(t: real): Login { Login(t, t, WrongPassword) }

  const BURST: seq<Login> := [Wrong(0.0), Wrong(1.0), Wrong(2.0), Wrong(3.0), Wrong(4.0)]

  lemma BurstLocks()
    ensures RedisRun(BURST) == Run(Counter(5, 904.0), [0.0, 1.0, 2.0, 3.0, 4.0])
  {
    EmptyRun();
    hide RedisRun;
    FailsAt([], 0, 0.0, [], 0.0);
    assert BURST[..1] == [] + [Wrong(0.0)];
    FailsAt(BURST[..1], 1, 900.0, [0.0], 1.0);
    assert BURST[..2] == BURST[..1] + [Wrong(1.0)];
    FailsAt(BURST[..2], 2, 901.0, [0.0, 1.0], 2.0);
    assert BURST[..3] == BURST[..2] + [Wrong(2.0)];
    FailsAt(BURST[..3], 3, 902.0, [0.0, 1.0, 2.0], 3.0);
    assert BURST[..4] == BURST[..3] + [Wrong(3.0)];
    FailsAt(BURST[..4], 4, 903.0, [0.0, 1.0, 2.0, 3.0], 4.0);
    assert BURST == BURST[..4] + [Wrong(4.0)];
  }

  /** Which is why the in-memory pacing does not carry over: after one lock expires, the
      Redis counter records the seventh failure right after the sixth. */
  lemma RedisForgivesAfterExpiry()
    ensures exists logins ::
      && Sequential(logins) && |RedisRun(logins).failures| == 7
      && RedisRun(logins).failures[6] < RedisRun(logins).failures[4] + 2.0 * LOCK_SECONDS
  {
    var six := BURST + [Wrong(904.0)];
    var seven := six + [Wrong(905.0)];
    assert Sequential(seven);
    hide Sequential, RedisRun;
    BurstLocks();
    FailsAt(BURST, 5, 904.0, [0.0, 1.0, 2.0, 3.0, 4.0], 904.0);
    FailsAt(six, 1, 1804.0, [0.0, 1.0, 2.0, 3.0, 4.0, 904.0], 905.0);
    var f := RedisRun(seven).failures;
    assert |f| == 7 && f[6] == 905.0 && f[4] == 4.0;
  }

  lemma EmptyRun()
    ensures RedisRun([]) == Run(Counter(0, 0.0), [])
  {
  }

  lemma FailsAt(logins: seq<Login>, count: nat, expiresAt: real, failures: seq<real>, t: real)
    requires RedisRun(logins) == Run(Counter(count, expiresAt), failures)
    requires t < expiresAt ==> count < MAX_ATTEMPTS
    ensures RedisRun(logins + [Wrong(t)])
      == Run(Counter(if t < expiresAt then count + 1 else 1, t + LOCK_SECONDS), failures + [t])
  {
    assert (logins + [Wrong(t)])[..|logins|] == logins;
  }

  // ------------------------------------------------------------- the one-way switch

  /** Redis counts the logins before position k; the in-memory counter, which starts from
      zero, the others. A login let through before the switch and answered after it is one
      of the others: an empty entry would have let it through, too. */
  function SwitchFailures(logins: seq<Login>, k: nat): seq<real>
    requires k <= |logins|
  {
    RedisRun(logins[..k]).failures + MemoryRun(logins[k..]).failures
  }

  lemma {:induction false} MemoryFailuresOrdered(logins: seq<Login>)
    requires Sequential(logins)
    ensures var f := MemoryRun(logins).failures;
      Ordered(f) && forall i :: 0 <= i < |f| ==> logins != [] && logins[0].checkedAt <= f[i] <= Last(logins)
  {
    if logins != [] {
      var n := |logins| - 1;
      MemoryFailuresOrdered(logins[..n]);
      if n > 0 {
        assert logins[0].answeredAt <= logins[n].checkedAt;
        assert logins[n - 1].answeredAt <= logins[n].checkedAt;
      }
    }
  }

  /** A failure at or after the fifth of the in-memory part comes 900 seconds after the one
      before; five failures of the Redis part take that long. */
  lemma TwoParts(a: seq<real>, b: seq<real>, i: nat)
    requires Spread(a) && Ordered(a + b)
    requires forall q :: MAX_ATTEMPTS <= q < |b| ==> b[q] >= b[q - 1] + LOCK_SECONDS
    requires i + 2 * MAX_ATTEMPTS < |a + b|
    ensures (a + b)[i + 2 * MAX_ATTEMPTS] >= (a + b)[i] + LOCK_SECONDS
  {
    var f := a + b;
    assert f[i] <= f[i + MAX_ATTEMPTS] <= f[i + 2 * MAX_ATTEMPTS - 1] <= f[i + 2 * MAX_ATTEMPTS];
    if i + MAX_ATTEMPTS >= |a| {
      var q := i + 2 * MAX_ATTEMPTS - |a|;
      assert b[q] == f[i + 2 * MAX_ATTEMPTS] && b[q - 1] == f[i + 2 * MAX_ATTEMPTS - 1];
    }
  }

  lemma Parts(logins: seq<Login>, k: nat)
    requires Sequential(logins) && k <= |logins|
    ensures Sequential(logins[..k]) && Sequential(logins[k..])
    ensures k < |logins| ==> Last(logins[..k]) <= logins[k..][0].checkedAt
  {
  }

  /** SWITCH. Across the switch any eleven failures in a row take at least 900 seconds. */
  lemma SwitchIsSpread(logins: seq<Login>, k: nat, i: nat)
    requires Sequential(logins) && k <= |logins| && i + 2 * MAX_ATTEMPTS < |SwitchFailures(logins, k)|
    ensures var f := SwitchFailures(logins, k); f[i + 2 * MAX_ATTEMPTS] >= f[i] + LOCK_SECONDS
  {
    Parts(logins, k);
    RedisRunPaced(logins[..k]);
    MemoryRunPaced(logins[k..]);
    MemoryFailuresOrdered(logins[k..]);
    hide RedisRun, MemoryRun, Sequential, Spread;
    TwoParts(RedisRun(logins[..k]).failures, MemoryRun(logins[k..]).failures, i);
  }

  /** n failures at one instant. */
  function AtOnce(n: nat): seq<Login> { seq(n, _ => Wrong(0.0)) }

  lemma {:induction false} FivePass(n: nat)
    requires n <= MAX_ATTEMPTS
    ensures RedisRun(AtOnce(n)).failures == MemoryRun(AtOnce(n)).failures == seq(n, _ => 0.0)
    ensures RedisRun(AtOnce(n)).state.count == MemoryRun(AtOnce(n)).state.attempts == n
  {
    if n > 0 {
      FivePass(n - 1);
      assert AtOnce(n)[..n - 1] == AtOnce(n - 1);
      assert seq(n, _ => 0.0) == seq(n - 1, _ => 0.0) + [0.0];
    }
  }

  /** Ten can come at once: five before the switch and five after it. */
  lemma SwitchAllowsTen()
    ensures exists logins, k: nat ::
      Sequential(logins) && k <= |logins| && SwitchFailures(logins, k) == seq(10, _ => 0.0)
  {
    var logins := AtOnce(10);
    FivePass(5);
    assert logins[..5] == AtOnce(5) && logins[5..] == AtOnce(5);
    assert Sequential(logins) && SwitchFailures(logins, 5) == seq(10, _ => 0.0);
  }

  // ------------------------------------------------------ who is refused with Redis

  /** The last k of these failures each came less than 900 seconds after the one before. */
  ghost predicate Chained(failures: seq<real>, k: nat) {
    forall i :: 0 < i < |failures| && |failures| - k < i ==> failures[i] < failures[i - 1] + 900.0
  }

  /** The counter is the length of the longest such chain of failures. */
  ghost predicate CountsChain(r: Run<Counter>) {
    && r.state.count <= |r.failures| && Chained(r.failures, r.state.count)
    && (r.failures == [] ==> r.state.expiresAt == 0.0)
    && (r.failures != [] ==> r.state.count > 0 && r.state.expiresAt == r.failures[|r.failures| - 1] + 900.0)
    && (0 < r.state.count < |r.failures| ==>
          var k := |r.failures| - r.state.count; r.failures[k] >= r.failures[k - 1] + 900.0)
  }

  lemma FailureCountsChain(r: Run<Counter>, x: Login)
    requires CountsChain(r) && Count(r.state, x.checkedAt) < MAX_ATTEMPTS && x.reply.WrongPassword?
    requires 0.0 <= x.checkedAt <= x.answeredAt
    ensures CountsChain(Run(RedisLogin(r.state, x), r.failures + [x.answeredAt]))
  {
    var f, c := r.failures + [x.answeredAt], RedisLogin(r.state, x);
    assert forall i :: 0 <= i < |r.failures| ==> f[i] == r.failures[i];
    var k := |f| - c.count;
    assert 0 < k < |f| ==> f[k] >= f[k - 1] + 900.0;
  }

  lemma {:induction false} RedisCountsChain(logins: seq<Login>)
    requires Sequential(logins)
    ensures CountsChain(RedisRun(logins))
  {
    if logins != [] {
      var n := |logins| - 1;
      RedisCountsChain(logins[..n]);
      var r := RedisRun(logins[..n]);
      if Count(r.state, logins[n].checkedAt) < MAX_ATTEMPTS && logins[n].reply.WrongPassword? {
        FailureCountsChain(r, logins[n]);
      }
    }
  }

  /** A check finds the address locked by Redis: the last five failures, with no pause of
      900 seconds among them, the last one less than 900 seconds ago. */
  ghost predicate StillLockedByRedis(failures: seq<real>, now: real) {
    StillLocked(failures, now) && Chained(failures, 5)
  }

  /** WHO IS REFUSED, with Redis: exactly the logins that follow on five failures without a
      pause of 900 seconds between any two of them or since the last one. */
  lemma RedisRefusesExactly(logins: seq<Login>, x: Login)
    requires Sequential(logins + [x])
    ensures var f := RedisRun(logins).failures;
      RedisRun(logins + [x]).failures == FailuresAfter(f, StillLockedByRedis(f, x.checkedAt), x)
  {
    Extends(logins, x);
    assert (logins + [x])[..|logins|] == logins;
    RedisCountsChain(logins);
    var r := RedisRun(logins);
    CountIsLock(r, x.checkedAt);
  }

  lemma CountIsLock(r: Run<Counter>, now: real)
    requires CountsChain(r) && 0.0 <= now
    ensures Count(r.state, now) >= MAX_ATTEMPTS <==> StillLockedByRedis(r.failures, now)
  {
    if StillLocked(r.failures, now) && r.state.count < 5 {
      var k := |r.failures| - r.state.count;
      assert !(r.failures[k] < r.failures[k - 1] + 900.0);
    }
  }

  // ------------------------------------------- when the Redis counter paces, and when not

  /** A further login that follows on these and records a failure. */
  ghost predicate RecordsFailure(logins: seq<Login>, x: Login) {
    && Sequential(logins + [x])
    && RedisRun(logins + [x]).failures == RedisRun(logins).failures + [x.answeredAt]
  }

  /** It does if and only if it is let through and its password is wrong. */
  lemma RecordedExactly(logins: seq<Login>, x: Login)
    requires Sequential(logins + [x])
    ensures RecordsFailure(logins, x)
      <==> x.reply.WrongPassword? && Count(RedisRun(logins).state, x.checkedAt) < MAX_ATTEMPTS
  {
    assert (logins + [x])[..|logins|] == logins;
    assert |RedisRun(logins).failures + [x.answeredAt]| > |RedisRun(logins).failures|;
  }

  lemma ExtendsNow(logins: seq<Login>)
    requires Sequential(logins)
    ensures 0.0 <= Last(logins) && Sequential(logins + [Wrong(Last(logins))])
  {
  }

  /** THE GUARD. After a run of logins, every further recorded failure comes at least 900
      seconds after the last one if and only if the counter stands at five or more, or
      that time is over anyway; otherwise an immediate one is recorded. */
  lemma RedisPacesExactly(logins: seq<Login>)
    requires Sequential(logins) && RedisRun(logins).failures != []
    ensures var f := RedisRun(logins).failures; var due := f[|f| - 1] + LOCK_SECONDS;
      RedisRun(logins).state.count >= MAX_ATTEMPTS || Last(logins) >= due <==>
      forall x :: RecordsFailure(logins, x) ==> x.answeredAt >= due
  {
    var r := RedisRun(logins);
    var due := r.failures[|r.failures| - 1] + LOCK_SECONDS;
    RedisRunPaced(logins);
    hide RedisRun, Sequential;
    if r.state.count >= MAX_ATTEMPTS || Last(logins) >= due {
      forall x | RecordsFailure(logins, x) ensures x.answeredAt >= due {
        RecordedExactly(logins, x);
        Extends(logins, x);
      }
    } else {
      ExtendsNow(logins);
      RecordedExactly(logins, Wrong(Last(logins)));
      assert RecordsFailure(logins, Wrong(Last(logins)));
    }
  }

  /** WHAT PACE SURVIVES. From the fifth failure on, five more take at least 900 seconds. */
  lemma {:induction false} RedisPace(logins: seq<Login>, n: nat)
    requires Sequential(logins) && MAX_ATTEMPTS <= n <= |RedisRun(logins).failures|
    ensures var f := RedisRun(logins).failures;
            f[n - 1] >= f[MAX_ATTEMPTS - 1] + LOCK_SECONDS * ((n - MAX_ATTEMPTS) / MAX_ATTEMPTS) as real
  {
    RedisRunPaced(logins);
    var f := RedisRun(logins).failures;
    hide RedisRun, Sequential;
    if n < 2 * MAX_ATTEMPTS {
      assert f[n - 1] >= f[MAX_ATTEMPTS - 1];
    } else {
      RedisPace(logins, n - MAX_ATTEMPTS);
      assert (n - MAX_ATTEMPTS) / MAX_ATTEMPTS == (n - 2 * MAX_ATTEMPTS) / MAX_ATTEMPTS + 1;
      assert f[n - MAX_ATTEMPTS - 1 + MAX_ATTEMPTS] >= f[n - MAX_ATTEMPTS - 1] + LOCK_SECONDS;
    }
  }

  /** Four failures at once, then five more whenever the lock has just expired. */
  function BurstTime(i: nat): real { LOCK_SECONDS * ((i + 1) / MAX_ATTEMPTS) as real }

  function Bursts(n: nat): seq<Login> { seq(n, i requires 0 <= i => Wrong(BurstTime(i))) }

  lemma BurstsGrow(n: nat)
    ensures Bursts(n + 1) == Bursts(n) + [Wrong(BurstTime(n))]
  {
  }

  lemma BurstsAreSequential(n: nat)
    ensures Sequential(Bursts(n))
  {
    forall i: nat, j: nat | i < j < n ensures BurstTime(i) <= BurstTime(j) {
      assert (i + 1) / MAX_ATTEMPTS <= (j + 1) / MAX_ATTEMPTS;
    }
  }

  function BurstTimes(n: nat): seq<real> { seq(n, i requires 0 <= i => BurstTime(i)) }

  /** Where the counter stands after n of them. */
  function BurstCount(n: nat): nat { if n < MAX_ATTEMPTS then n else n % MAX_ATTEMPTS + 1 }

  /** A burst starts exactly when the lock of the one before has expired. */
  lemma BurstStep(k: nat)
    requires k > 0
    ensures BurstTime(k) < BurstTime(k - 1) + LOCK_SECONDS <==> (k + 1) % MAX_ATTEMPTS != 0
    ensures (k + 1) % MAX_ATTEMPTS != 0 ==> BurstCount(k) < MAX_ATTEMPTS && BurstCount(k + 1) == BurstCount(k) + 1
    ensures (k + 1) % MAX_ATTEMPTS == 0 ==> BurstCount(k + 1) == 1
  {
  }

  lemma BurstTimesGrow(n: nat)
    ensures BurstTimes(n + 1) == BurstTimes(n) + [BurstTime(n)]
  {
  }

  function AfterBursts(n: nat): Run<Counter>
    requires n > 0
  {
    Run(Counter(BurstCount(n), BurstTime(n - 1) + LOCK_SECONDS), BurstTimes(n))
  }

  /** All of them are recorded. */
  lemma {:induction false} BurstsAreRecorded(n: nat)
    requires n > 0
    ensures RedisRun(Bursts(n)) == AfterBursts(n)
  {
    hide RedisRun, Bursts, BurstTime, BurstTimes, BurstCount;
    var k := n - 1;
    BurstsGrow(k);
    BurstTimesGrow(k);
    if k == 0 {
      FirstBurst();
    } else {
      BurstsAreRecorded(k);
      BurstStep(k);
      FailsAt(Bursts(k), BurstCount(k), BurstTime(k - 1) + LOCK_SECONDS, BurstTimes(k), BurstTime(k));
    }
  }

  lemma FirstBurst()
    ensures RedisRun(Bursts(1)) == AfterBursts(1)
  {
    EmptyRun();
    assert Bursts(1) == [] + [Wrong(0.0)];
    FailsAt([], 0, 0.0, [], 0.0);
    assert BurstTimes(1) == [0.0];
  }

  /** The surviving pace is attained for every n, and so the pace of the in-memory counter
      holds for the n-th failure of every run only for n == 5, where it says nothing. */
  lemma RedisPaceIsTight(n: nat)
    requires MAX_ATTEMPTS <= n
    ensures exists logins ::
      && Sequential(logins) && |RedisRun(logins).failures| == n
      && RedisRun(logins).failures[n - 1]
           == RedisRun(logins).failures[MAX_ATTEMPTS - 1] + LOCK_SECONDS * ((n - MAX_ATTEMPTS) / MAX_ATTEMPTS) as real
  {
    BurstsAreSequential(n);
    BurstsAreRecorded(n);
    var f := RedisRun(Bursts(n)).failures;
    hide RedisRun, Sequential;
    assert f[n - 1] == BurstTime(n - 1) && f[MAX_ATTEMPTS - 1] == BurstTime(MAX_ATTEMPTS - 1);
    assert n / MAX_ATTEMPTS == (n - MAX_ATTEMPTS) / MAX_ATTEMPTS + 1;
  }

  ghost predicate PacedAsInMemory(logins: seq<Login>, n: nat)
    requires MAX_ATTEMPTS <= n <= |RedisRun(logins).failures|
  {
    var f := RedisRun(logins).failures;
    f[n - 1] >= f[MAX_ATTEMPTS - 1] + LOCK_SECONDS * (n - MAX_ATTEMPTS) as real
  }

  lemma InMemoryPaceExactly(n: nat)
    requires MAX_ATTEMPTS <= n
    ensures (forall logins :: Sequential(logins) && n <= |RedisRun(logins).failures| ==> PacedAsInMemory(logins, n))
            <==> n == MAX_ATTEMPTS
  {
    if n > MAX_ATTEMPTS {
      RedisPaceIsTight(n);
      assert (n - MAX_ATTEMPTS) / MAX_ATTEMPTS < n - MAX_ATTEMPTS;
    }
  }

  // ----------------------------------------------------------- the gateway's table

  class LockoutTable {
    var lockouts: map<string, Lock>
    /** Per address, the logins so far, oldest first. */
    ghost var logins: map<string, seq<Login>>

    function Entry(ip: string): Lock reads this`lockouts {
      if ip in lockouts then lockouts[ip] else Lock(0, 0.0)
    }

    ghost function LoginsOf(ip: string): seq<Login> reads this`logins {
      if ip in logins then logins[ip] else []
    }

    ghost predicate Valid() reads this {
      forall ip :: Entry(ip) == MemoryRun(LoginsOf(ip)).state
    }

    constructor ()
      ensures Valid() && lockouts == map[] && logins == map[]
    {
      lockouts, logins := map[], map[];
    }

    /** One login without Redis: refused while locked, else forwarded and audited. */
    method HandleLogin(ip: string, x: Login) returns (refused: bool)
      requires Valid()
      modifies this
      ensures Valid() && LoginsOf(ip) == old(LoginsOf(ip)) + [x]
      ensures Entry(ip) == old(MemoryLogin(Entry(ip), x))
      ensures Sequential(LoginsOf(ip)) ==>
        refused == StillLocked(MemoryRun(old(LoginsOf(ip))).failures, x.checkedAt)
      ensures forall other :: other != ip ==>
        Entry(other) == old(Entry(other)) && LoginsOf(other) == old(LoginsOf(other))
    {
      hide MemoryRun;
      var lock := Entry(ip);
      ghost var before := LoginsOf(ip);
      assert lock == MemoryRun(before).state;
      OneMoreLogin(before, x);
      logins := logins[ip := before + [x]];
      if lock.attempts >= MAX_ATTEMPTS && x.checkedAt < lock.until {
        return true;
      }
      match x.reply {
        case Accepted =>
          lockouts := lockouts - {ip};
        case WrongPassword =>
          var attempts := lock.attempts + 1;
          var until := if attempts >= MAX_ATTEMPTS then x.answeredAt + LOCK_SECONDS else 0.0;
          lockouts := lockouts[ip := Lock(attempts, until)];
        case OtherReply =>
      }
      refused := false;
      forall other ensures Entry(other) == MemoryRun(LoginsOf(other)).state {
        if other != ip { assert Entry(other) == old(Entry(other)) && LoginsOf(other) == old(LoginsOf(other)); }
      }
    }
  }

  lemma LockMeans(r: Run<Lock>, last: real, now: real)
    requires MemoryPaced(r, last)
    ensures Locked(r.state, now) == StillLocked(r.failures, now)
  {
  }

  lemma OneMoreLogin(logins: seq<Login>, x: Login)
    ensures MemoryRun(logins + [x]).state == MemoryLogin(MemoryRun(logins).state, x)
    ensures Sequential(logins + [x]) ==>
      Locked(MemoryRun(logins).state, x.checkedAt) == StillLocked(MemoryRun(logins).failures, x.checkedAt)
  {
    assert (logins + [x])[..|logins|] == logins;
    if Sequential(logins + [x]) {
      hide MemoryRun, Sequential, Locked, StillLocked, MemoryPaced;
      Extends(logins, x);
      MemoryRunPaced(logins);
      LockMeans(MemoryRun(logins), Last(logins), x.checkedAt);
    }
  }
}
