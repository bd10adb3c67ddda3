/** The web client's retry policy: one repeat after a token refresh, a bounded number of
    repeats for failures that look transient, and one token refresh at a time. */
module RequestRetry {
  import opened Wrappers

  const DEFAULT_RETRY_COUNT := 2
  const RETRYABLE_STATUS_CODES: set<nat> := {408, 429, 500, 502, 503, 504}

  /** A request as its caller wrote it; `retries` may be absent, or any integer. */
  datatype Request = Request(safeMethod: bool, retries: Option<int>, retryUnsafe: bool)

  /** The marks the interceptor leaves on the request. */
  datatype Marks = Marks(refreshed: bool, retryCount: nat)

  /** What one send comes back with; `token` says whether a refresh, if the interceptor
      asks for one, yields a token. */
  datatype Reply =
    | Succeeded
    | Cancelled
    | NoResponse
    | ErrorStatus(code: nat, token: bool)

  datatype Reaction = Resolve | Reject | Resend(marks: Marks)

  const UNMARKED := Marks(false, 0)

  function RetryLimit(q: Request): int {
    if q.retries.Some? then q.retries.value else DEFAULT_RETRY_COUNT
  }

  predicate ShouldRetry(q: Request, r: Reply) {
    match r
    case Succeeded => false
    case Cancelled => false
    case NoResponse => q.safeMethod || q.retryUnsafe
    case ErrorStatus(code, _) =>
      code != 401 && (q.safeMethod || q.retryUnsafe) && code in RETRYABLE_STATUS_CODES
  }

  /** The response interceptor. */
  function React(q: Request, m: Marks, r: Reply): Reaction {
    if r.Succeeded? then Resolve
    else if r.ErrorStatus? && r.code == 401 && !m.refreshed && r.token then Resend(m.(refreshed := true))
    else if ShouldRetry(q, r) && m.retryCount < RetryLimit(q) then Resend(m.(retryCount := m.retryCount + 1))
    else Reject
  }

  /** How often the request is sent while the server answers these replies in turn. */
  function Sends(q: Request, m: Marks, replies: seq<Reply>): nat
    decreases |replies|
  {
    if replies == [] then 1 else
      match React(q, m, replies[0])
      case Resend(m') => 1 + Sends(q, m', replies[1..])
      case _ => 1
  }

  /** Whether its caller has been answered after these replies. */
  predicate Answered(q: Request, m: Marks, replies: seq<Reply>)
    decreases |replies|
  {
    replies != [] &&
      match React(q, m, replies[0])
      case Resend(m') => Answered(q, m', replies[1..])
      case _ => true
  }

  /** Repeats still possible. */
  function Budget(q: Request, m: Marks): nat {
    (if m.refreshed then 0 else 1)
    + if (q.safeMethod || q.retryUnsafe) && m.retryCount < RetryLimit(q) then RetryLimit(q) - m.retryCount else 0
  }

  lemma {:induction false} BudgetBoundsSends(q: Request, m: Marks, replies: seq<Reply>)
    ensures Sends(q, m, replies) <= 1 + Budget(q, m)
    ensures |replies| > Budget(q, m) ==> Answered(q, m, replies)
    decreases |replies|
  {
    if replies != [] && React(q, m, replies[0]).Resend? {
      BudgetBoundsSends(q, React(q, m, replies[0]).marks, replies[1..]);
    }
  }

  /** BOUND. Whatever the server answers, a request is sent at most 2 + retries times (at
      most twice for a negative number of retries, or an unsafe method that did not opt
      in), and its caller is answered after that many replies at the latest. */
  lemma RequestsAreBounded(q: Request, replies: seq<Reply>)
    ensures var bound := 2 + if (q.safeMethod || q.retryUnsafe) && RetryLimit(q) > 0 then RetryLimit(q) else 0;
      && Sends(q, UNMARKED, replies) <= bound
      && (|replies| >= bound ==> Answered(q, UNMARKED, replies))
  {
    BudgetBoundsSends(q, UNMARKED, replies);
  }

  // --------------------------------------------------------------- the policy, exactly

  /** A failure that may pass: no response, or one of these six codes. */
  predicate Transient(r: Reply) {
    r.NoResponse? || (r.ErrorStatus? && r.code in {408, 429, 500, 502, 503, 504})
  }

  function Transients(replies: seq<Reply>): nat {
    if replies == [] then 0 else
      Transients(replies[..|replies| - 1]) + if Transient(replies[|replies| - 1]) then 1 else 0
  }

  predicate Unauthorised(r: Reply) { r.ErrorStatus? && r.code == 401 }

  /** The k-th reply makes the client send again: it is the first 401 and a token was
      refreshed, or a transient failure of a request that may be repeated, of which there
      were fewer before than its retries, 2 if it names none. */
  ghost predicate Repeats(q: Request, replies: seq<Reply>, k: nat)
    requires k < |replies|
  {
    || (Unauthorised(replies[k]) && replies[k].token && forall j :: 0 <= j < k ==> !Unauthorised(replies[j]))
    || (Transient(replies[k]) && (q.safeMethod || q.retryUnsafe)
        && Transients(replies[..k]) < if q.retries.Some? then q.retries.value else 2)
  }

  /** What the caller is told in the end, or that the client will send again. */
  function Answer(q: Request, m: Marks, replies: seq<Reply>): Option<Reaction>
    decreases |replies|
  {
    if replies == [] then None else
      match React(q, m, replies[0])
      case Resend(m') => Answer(q, m', replies[1..])
      case done => Some(done)
  }

  /** The marks after the first i replies, all of which made it send again. */
  ghost predicate Marked(replies: seq<Reply>, i: nat, m: Marks)
    requires i <= |replies|
  {
    && m.retryCount == Transients(replies[..i])
    && (m.refreshed <==> exists j :: 0 <= j < i && Unauthorised(replies[j]))
  }

  lemma ReactsExactly(q: Request, m: Marks, replies: seq<Reply>, i: nat)
    requires i < |replies| && Marked(replies, i, m)
    ensures React(q, m, replies[i]).Resend? <==> Repeats(q, replies, i)
    ensures React(q, m, replies[i]).Resend? ==> Marked(replies, i + 1, React(q, m, replies[i]).marks)
    ensures React(q, m, replies[i]).Resolve? <==> replies[i].Succeeded?
  {
    assert replies[..i + 1][..i] == replies[..i];
  }

  /** The run from the i-th reply on: how long it goes on, and how it ends. */
  lemma {:induction false} RunExactly(q: Request, m: Marks, replies: seq<Reply>, i: nat, k: nat)
    requires i <= k <= |replies| && Marked(replies, i, m)
    ensures Sends(q, m, replies[i..]) > k - i <==> forall j :: i <= j < k ==> Repeats(q, replies, j)
    ensures k < |replies| && (forall j :: i <= j < k ==> Repeats(q, replies, j)) && !Repeats(q, replies, k) ==>
      Answer(q, m, replies[i..]) == Some(if replies[k].Succeeded? then Resolve else Reject)
    decreases |replies| - i
  {
    hide React, Repeats, Marked;
    if i < |replies| {
      ReactsExactly(q, m, replies, i);
      assert replies[i..][1..] == replies[i + 1..];
      if React(q, m, replies[i]).Resend? && i < k {
        RunExactly(q, React(q, m, replies[i]).marks, replies, i + 1, k);
      }
    }
  }

  lemma Unmarked(replies: seq<Reply>)
    ensures Marked(replies, 0, UNMARKED) && replies[0..] == replies
  {
  }

  /** EXACTLY. A request is sent more than k times if and only if each of the first k replies
      makes the client send again; the first that does not is what its caller is told. */
  lemma SendsExactly(q: Request, replies: seq<Reply>, k: nat)
    requires k <= |replies|
    ensures Sends(q, UNMARKED, replies) > k <==> forall j :: 0 <= j < k ==> Repeats(q, replies, j)
    ensures k < |replies| && (forall j :: 0 <= j < k ==> Repeats(q, replies, j)) && !Repeats(q, replies, k) ==>
      Answer(q, UNMARKED, replies) == Some(if replies[k].Succeeded? then Resolve else Reject)
  {
    Unmarked(replies);
    RunExactly(q, UNMARKED, replies, 0, k);
  }

  /** Any status other than 401 and the six, and any cancellation, is final at once. */
  lemma OtherFailuresAreFinal(q: Request, replies: seq<Reply>)
    requires replies != []
    requires replies[0].Cancelled?
      || (replies[0].ErrorStatus? && replies[0].code !in {401, 408, 429, 500, 502, 503, 504})
    ensures Sends(q, UNMARKED, replies) == 1 && Answer(q, UNMARKED, replies) == Some(Reject)
  {
    SendsExactly(q, replies, 0);
    SendsExactly(q, replies, 1);
  }

  // ------------------------------------------------------------------ the bound is tight

  lemma {:induction false} AllTransient(replies: seq<Reply>)
    requires forall j :: 0 <= j < |replies| ==> Transient(replies[j])
    ensures Transients(replies) == |replies|
  {
    if replies != [] { AllTransient(replies[..|replies| - 1]); }
  }

  lemma {:induction false} AfterUnauthorised(u: Reply, replies: seq<Reply>)
    requires Unauthorised(u)
    ensures Transients([u] + replies) == Transients(replies)
  {
    if replies == [] {
      assert [u] + replies == [u] && [u][..0] == [];
    } else {
      var n := |replies| - 1;
      AfterUnauthorised(u, replies[..n]);
      assert ([u] + replies)[..n + 1] == [u] + replies[..n];
    }
  }

  /** The bound is attained for every request: an expired token first, then as many
      transient failures as it has retries, whichever they are. */
  lemma BoundIsTight(q: Request, failures: seq<Reply>)
    requires forall j :: 0 <= j < |failures| ==> Transient(failures[j])
    requires |failures| == if (q.safeMethod || q.retryUnsafe) && RetryLimit(q) > 0 then RetryLimit(q) else 0
    ensures Sends(q, UNMARKED, [ErrorStatus(401, true)] + failures) == 2 + |failures|
  {
    var replies := [ErrorStatus(401, true)] + failures;
    forall k | 0 <= k < |replies| ensures Repeats(q, replies, k) {
      if k > 0 {
        assert replies[..k] == [replies[0]] + failures[..k - 1];
        AllTransient(failures[..k - 1]);
        AfterUnauthorised(replies[0], failures[..k - 1]);
      }
    }
    SendsExactly(q, replies, |replies|);
    RequestsAreBounded(q, replies);
  }

  // ------------------------------------------------------------------ token refresh

  type Token = string

  /** The pending refresh, if any; the posts in flight; which refresh each caller waits
      for; how the finished ones ended; the token in the store. */
  datatype Refresh = Refresh(
    pending: Option<nat>, posts: set<nat>, joined: map<nat, nat>, results: map<nat, Option<Token>>,
    stored: Option<Token>, started: nat)

  datatype Step = Call(caller: nat) | Settle(result: Option<Token>)

  const NO_REFRESH := Refresh(None, {}, map[], map[], None, 0)

  predicate Enabled(s: Refresh, step: Step) {
    match step
    case Call(c) => c !in s.joined
    case Settle(_) => s.pending.Some?
  }

  /** A caller joins the pending refresh or starts one; a finished post sets or clears the
      token and frees the slot. */
  function Next(s: Refresh, step: Step): Refresh
    requires Enabled(s, step)
  {
    match step
    case Call(c) =>
      if s.pending.Some? then s.(joined := s.joined[c := s.pending.value])
      else s.(pending := Some(s.started), posts := s.posts + {s.started},
              joined := s.joined[c := s.started], started := s.started + 1)
    case Settle(r) =>
      var p := s.pending.value;
      s.(pending := None, posts := s.posts - {p}, results := s.results[p := r], stored := r)
  }

  function After(steps: seq<Step>): Option<Refresh> {
    if steps == [] then Some(NO_REFRESH) else
      var n := |steps| - 1;
      var s := After(steps[..n]);
      if s.Some? && Enabled(s.value, steps[n]) then Some(Next(s.value, steps[n])) else None
  }

  ghost predicate SingleFlight(s: Refresh) {
    && s.posts == (if s.pending.Some? then {s.pending.value} else {})
    && (forall p: nat :: p in s.posts <==> p < s.started && p !in s.results)
    && (forall p :: p in s.results ==> p < s.started)
    && (forall c :: c in s.joined ==> s.joined[c] < s.started)
  }

  /** SINGLE FLIGHT. In every run at most one refresh is posted at a time, and every
      caller either waits for the one in flight or has the result of the one it joined. */
  lemma {:induction false} RefreshIsSingleFlight(steps: seq<Step>)
    requires After(steps).Some?
    ensures var s := After(steps).value;
      && SingleFlight(s) && |s.posts| <= 1
      && (forall c :: c in s.joined ==> s.joined[c] in s.posts || s.joined[c] in s.results)
      && (forall c, d :: c in s.joined && d in s.joined && s.joined[c] in s.posts && s.joined[d] in s.posts ==>
            s.joined[c] == s.joined[d])
  {
    hide Next, Enabled;
    if steps != [] {
      var n := |steps| - 1;
      RefreshIsSingleFlight(steps[..n]);
      SingleFlightStep(After(steps[..n]).value, steps[n]);
    }
  }

  lemma SingleFlightStep(s: Refresh, step: Step)
    requires SingleFlight(s) && Enabled(s, step)
    ensures SingleFlight(Next(s, step))
  {
  }

  /** A finished refresh answers everyone who joined it, with its result, and nobody else. */
  lemma SettledAnswersJoined(s: Refresh, result: Option<Token>)
    requires SingleFlight(s) && s.pending.Some?
    ensures var n := Next(s, Settle(result));
      && n.pending == None && n.posts == {} && n.joined == s.joined && n.stored == result
      && forall c :: c in s.joined ==>
           if s.joined[c] in s.results then n.joined[c] in n.results && n.results[n.joined[c]] == s.results[s.joined[c]]
           else n.joined[c] in n.results && n.results[n.joined[c]] == result
  {
    assert forall c :: c in s.joined && s.joined[c] !in s.results ==> s.joined[c] in s.posts;
  }

  class TokenRefresher {
    var refreshPromise: Option<nat>
    var accessToken: Option<Token>
    ghost var trace: seq<Step>
    ghost var posts: set<nat>
    ghost var joined: map<nat, nat>
    ghost var results: map<nat, Option<Token>>
    var started: nat

    ghost function View(): Refresh reads this {
      Refresh(refreshPromise, posts, joined, results, accessToken, started)
    }

    ghost predicate Valid() reads this { After(trace) == Some(View()) }

    constructor ()
      ensures Valid() && View() == NO_REFRESH
    {
      refreshPromise, accessToken, started := None, None, 0;
      posts, joined, results, trace := {}, map[], map[], [];
    }

    ghost method Record(s: Refresh, step: Step)
      requires After(trace) == Some(s) && Enabled(s, step) && Next(s, step) == View()
      modifies this`trace
      ensures Valid()
    {
      trace := trace + [step];
      assert trace[..|trace| - 1] == old(trace);
    }

    /** Returns the refresh the caller waits for, and whether this call posted it. */
    method RefreshAccessToken(ghost caller: nat) returns (promise: nat, posted: bool)
      requires Valid() && caller !in joined
      modifies this
      ensures Valid() && View() == Next(old(View()), Call(caller))
      ensures refreshPromise == Some(promise) && posted == old(refreshPromise).None?
    {
      ghost var s := View();
      posted := refreshPromise.None?;
      if posted {
        posts := posts + {started};
        refreshPromise, started := Some(started), started + 1;
      }
      promise := refreshPromise.value;
      joined := joined[caller := promise];
      Record(s, Call(caller));
    }

    /** The post came back; no token means logging out. */
    method Settled(result: Option<Token>)
      requires Valid() && refreshPromise.Some?
      modifies this
      ensures Valid() && View() == Next(old(View()), Settle(result))
      ensures accessToken == result && refreshPromise == None
    {
      ghost var s := View();
      accessToken := result;
      posts := posts - {refreshPromise.value};
      results := results[refreshPromise.value := result];
      refreshPromise := None;
      Record(s, Settle(result));
    }
  }
}
