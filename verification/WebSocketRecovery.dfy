/** What each event does to a websocket client in use, in terms of what the browser has
    registered; and exactly when a client with subscribers is left with nothing that will
    reconnect it. */
module WebSocketRecovery {
  import opened WebSocketProtocol
  import opened Wrappers

  /** The close of the socket in use, for a client with subscribers. */
  predicate Loses(s: State, id: nat) { s.socket == Some(id) && id in s.sockets && s.subscribers > 0 }

  /** RECONNECTING. A close with any code but 1000 and 4001 leaves exactly one reconnect
      timer. If there was none, the attempt counter goes up by one, a delay is drawn for
      it and the status is 'reconnecting'; one that a connect overtook stays, and then the
      status is 'closed'. */
  lemma LossReconnects(s: State, id: nat, code: int, jitter: int)
    requires Reachable(s) && Loses(s, id) && code != 1000 && code != 4001 && 0 <= jitter < 250
    ensures var n := Next(s, OnClose(id, code, jitter));
      && |n.reconnects| == 1 && n.socket == None && n.heartbeats == {} && n.refreshing == s.refreshing
      && (if s.reconnects == {} then
            && n.status == Reconnecting && n.attempt == s.attempt + 1
            && n.delays == s.delays + [if s.attempt < 5 then FIRST_DELAYS[s.attempt] + jitter else 30000]
          else n.status == Closed && n.attempt == s.attempt && n.reconnects == s.reconnects && n.delays == s.delays)
  {
    ReachableInv(s);
    DelayIs(s.attempt, jitter);
    hide IsBackoff, Delay;
  }

  /** Some reconnect timer is registered then. */
  lemma LossSchedules(s: State, id: nat, code: int, jitter: int)
    requires Reachable(s) && id in s.sockets && 0 <= jitter < 250
    ensures Loses(s, id) && code != 1000 && code != 4001 ==> Next(s, OnClose(id, code, jitter)).reconnects != {}
  {
    hide Next;
    if Loses(s, id) && code != 1000 && code != 4001 { LossReconnects(s, id, code, jitter); }
  }

  lemma DelayIs(attempt: nat, jitter: int)
    requires 0 <= jitter < 250
    ensures Delay(attempt + 1, jitter) == if attempt < 5 then FIRST_DELAYS[attempt] + jitter else 30000
  {
    assert Power(0) == 1 && Power(1) == 2 && Power(2) == 4 && Power(3) == 8 && Power(4) == 16 && Power(5) == 32;
    if attempt > 5 { PowerGrows(5, attempt); }
  }

  /** The state in which a connect has overtaken a reconnect timer: of two suspended ones,
      the first opened a socket that closed, and the second then opened another. */
  const OVERTAKEN := State(Some(2), Reconnecting, 2, 1, Some(1), None, None, {1}, {}, {},
                           map[0 := CLOSED, 2 := CONNECTING], 0, 0, 0, [1000], 3)

  lemma OvertakenIsReachable()
    ensures Reachable(OVERTAKEN)
  {
    hide Reachable, After;
    InitialIsReachable();
    var s1 := INITIAL.(subscribers := 1, status := Connecting, suspended := 1);
    Leads(INITIAL, AddSubscriber, s1);
    var s2 := s1.(subscribers := 2, suspended := 2);
    Leads(s1, AddSubscriber, s2);
    var s3 := s2.(suspended := 1, socket := Some(0), sockets := map[0 := CONNECTING], next := 1);
    Leads(s2, Resume(true, true), s3);
    var s4 := State(None, Reconnecting, 2, 1, Some(1), None, None, {1}, {}, {},
                    map[0 := CLOSED], 1, 0, 0, [1000], 2);
    assert s3.sockets[0 := CLOSED] == s4.sockets;
    assert Next(s3, OnClose(0, 1006, 0)) == s4 by { DelayIs(0, 0); }
    Leads(s3, OnClose(0, 1006, 0), s4);
    Leads(s4, Resume(true, true), OVERTAKEN);
  }

  lemma Leads(s: State, step: Step, n: State)
    requires Reachable(s) && Enabled(s, step) && Next(s, step) == n
    ensures Reachable(n)
  {
    StepReaches(s, step);
  }

  /** When its socket closes, the status is 'closed' although a timer will reconnect. */
  lemma OvertakenTimerSaysClosed(jitter: int)
    requires 0 <= jitter < 250
    ensures Reachable(OVERTAKEN) && Loses(OVERTAKEN, 2)
    ensures var n := Next(OVERTAKEN, OnClose(2, 1006, jitter));
      n.status == Closed && n.reconnects == {1} && n.attempt == OVERTAKEN.attempt
  {
    OvertakenIsReachable();
    LossReconnects(OVERTAKEN, 2, 1006, jitter);
  }

  /** An expired token is refreshed first: no timer is set, one more refresh is awaited. */
  lemma ExpiredTokenRefreshes(s: State, id: nat, jitter: int)
    requires Reachable(s) && Loses(s, id) && 0 <= jitter < 250
    ensures var n := Next(s, OnClose(id, 4001, jitter));
      && n.refreshing == s.refreshing + 1 && n.status == Closed && n.socket == None && n.heartbeats == {}
      && n.reconnects == s.reconnects && n.attempt == s.attempt && n.delays == s.delays
  {
    ReachableInv(s);
    hide IsBackoff;
  }

  /** A refreshed token then leads to exactly one reconnect timer, if there are subscribers
      still, and none ends every timer and the connection. */
  lemma RefreshReconnects(s: State, token: bool, jitter: int)
    requires Reachable(s) && s.refreshing > 0 && 0 <= jitter < 250
    ensures var n := Next(s, Refreshed(token, jitter));
      && n.refreshing == s.refreshing - 1
      && (token && s.subscribers > 0 ==>
            && |n.reconnects| == 1 && n.socket == s.socket
            && (s.reconnects == {} ==> n.status == Reconnecting && n.attempt == s.attempt + 1))
      && (token && s.subscribers == 0 ==> n == s.(refreshing := s.refreshing - 1))
      && (!token ==> Ended(s, n))
  {
    ReachableInv(s);
    hide IsBackoff;
  }

  /** Nothing is registered or connected any more, and the socket in use is closing. */
  predicate Ended(s: State, n: State) {
    && n.reconnects == {} && n.heartbeats == {} && n.socket == None && n.status == Closed
    && n.reconnectTimer == None && n.heartbeat == None && n.closeTimer == None
    && n.closes == s.closes - Gone(s.closeTimer) && n.subscribers == s.subscribers
    && (s.socket.Some? && s.socket.value in s.sockets && s.sockets[s.socket.value] in {CONNECTING, OPEN} ==>
          n.sockets == s.sockets[s.socket.value := CLOSING])
  }

  /** So does a logout. */
  lemma LogoutEnds(s: State)
    requires Reachable(s)
    ensures Ended(s, Next(s, LoggedOut))
  {
    ReachableInv(s);
    hide IsBackoff;
  }

  /** A normal closure is final: neither a timer nor a refresh follows. */
  lemma NormalClosureIsFinal(s: State, id: nat, jitter: int)
    requires Reachable(s) && s.socket == Some(id) && id in s.sockets && 0 <= jitter < 250
    ensures var n := Next(s, OnClose(id, 1000, jitter));
      && n.refreshing == s.refreshing && n.reconnects == s.reconnects && n.attempt == s.attempt
      && n.status == Closed && n.socket == None && n.heartbeats == {} && n.delays == s.delays
  {
    ReachableInv(s);
    hide IsBackoff;
  }

  /** An open resets the backoff and leaves one heartbeat, the current one. */
  lemma OpenResets(s: State, id: nat)
    requires Reachable(s) && s.socket == Some(id)
    ensures id in s.sockets
    ensures var n := Next(s, OnOpen(id));
      n.status == Open && n.attempt == 0 && n.delays == [] && |n.heartbeats| == 1 && n.heartbeat.Some?
      && n.heartbeat.value in n.heartbeats && n.socket == Some(id) && n.sockets[id] == OPEN
      && n.reconnects == s.reconnects
  {
    ReachableInv(s);
    hide IsBackoff;
    var n := Next(s, OnOpen(id));
    assert n.heartbeats == {s.next};
  }

  /** A fired timer is spent: with subscribers and no usable socket it starts a connect. */
  lemma TimerConnects(s: State, t: nat)
    requires Reachable(s) && t in s.reconnects
    ensures var n := Next(s, ReconnectFires(t));
      && n.reconnects == {} && n.reconnectTimer == None && n.socket == s.socket
      && n.suspended == s.suspended + (if s.subscribers > 0 && !HasUsableSocket(s) then 1 else 0)
      && (s.subscribers > 0 && !HasUsableSocket(s) ==>
            n.status == if s.attempt > 0 then Reconnecting else Connecting)
  {
    ReachableInv(s);
    hide IsBackoff;
  }

  /** A connect that resumes with a token, an address and subscribers opens a new socket. */
  lemma ConnectOpensSocket(s: State)
    requires Reachable(s) && s.suspended > 0 && s.subscribers > 0
    ensures var n := Next(s, Resume(true, true));
      && n.socket.Some? && n.socket.value !in s.sockets && n.sockets == s.sockets[n.socket.value := CONNECTING]
      && n.suspended == s.suspended - 1 && n.reconnects == s.reconnects
  {
    ReachableInv(s);
    hide IsBackoff;
  }

  /** One that resumes otherwise opens none: without a token everything ends, without
      subscribers nothing happens, and an unusable address only shows as an error. */
  lemma ConnectGivesUp(s: State, token: bool, urlValid: bool)
    requires Reachable(s) && s.suspended > 0
    ensures var c, n := s.(suspended := s.suspended - 1), Next(s, Resume(token, urlValid));
      && n.suspended == c.suspended
      && (!token ==> Ended(c, n))
      && (token && s.subscribers == 0 ==> n == c)
      && (token && s.subscribers > 0 && !urlValid ==> n == c.(status := Error))
  {
    ReachableInv(s);
    hide IsBackoff;
  }

  /** An error of the socket in use shows, and changes nothing else. */
  lemma ErrorShows(s: State, id: nat)
    requires Reachable(s) && s.socket == Some(id) && id in s.sockets
    ensures Next(s, OnError(id)) == s.(status := Error)
  {
  }

  // ----------------------------------------------------- coming and leaving

  /** A new subscriber cancels the deferred close and connects, unless a usable socket is
      there already, in which case nothing else changes. */
  lemma SubscriberConnects(s: State)
    requires Reachable(s)
    ensures var n := Next(s, AddSubscriber);
      && n.subscribers == s.subscribers + 1 && n.closeTimer == None && n.closes == s.closes - Gone(s.closeTimer)
      && n.socket == s.socket && n.sockets == s.sockets && n.heartbeats == s.heartbeats && n.attempt == s.attempt
      && (if HasUsableSocket(s) then
            n.suspended == s.suspended && n.status == s.status && n.reconnects == s.reconnects
          else
            && n.suspended == s.suspended + 1 && n.reconnects == {}
            && n.status == if s.attempt > 0 then Reconnecting else Connecting)
  {
    ReachableInv(s);
    hide IsBackoff;
  }

  /** The last one to leave defers a close; nobody else does, and nothing is closed yet. */
  lemma LastLeaverDefersClose(s: State)
    requires Reachable(s)
    ensures var n := Next(s, RemoveSubscriber);
      && n.subscribers == (if s.subscribers > 0 then s.subscribers - 1 else 0)
      && n.socket == s.socket && n.sockets == s.sockets && n.reconnects == s.reconnects
      && n.heartbeats == s.heartbeats && n.status == s.status
      && (if s.subscribers > 1 then n.closes == s.closes
          else n.closeTimer.Some? && n.closeTimer.value !in s.closes && n.closes == s.closes + {n.closeTimer.value})
  {
    ReachableInv(s);
    hide IsBackoff;
  }

  /** A deferred close ends everything if nobody has come back, and nothing if somebody
      has. */
  lemma DeferredCloseEnds(s: State, t: nat)
    requires Reachable(s) && t in s.closes
    ensures var n := Next(s, CloseFires(t));
      if s.subscribers > 0 then n == s.(closes := s.closes - {t}) else Ended(s.(closes := s.closes - {t}), n)
  {
    ReachableInv(s);
    hide IsBackoff;
  }

  /** Without subscribers, whatever is connected or registered has its end registered. */
  predicate EndIsNear(s: State) {
    s.subscribers == 0 && (s.socket.Some? || s.reconnects != {} || s.heartbeats != {}) ==>
      s.closeTimer.Some? && s.closeTimer.value in s.closes
  }

  lemma StepKeepsEndNear(s: State, step: Step)
    requires Inv(s) && EndIsNear(s) && Enabled(s, step)
    ensures EndIsNear(Next(s, step))
  {
    hide IsBackoff;
  }

  /** NO IDLE CONNECTION. After any run, a client without subscribers that still has a
      socket, a heartbeat or a reconnect timer has a deferred close registered. */
  lemma {:induction false} NoIdleConnection(steps: seq<Step>)
    requires After(steps).Some?
    ensures EndIsNear(After(steps).value)
  {
    hide Enabled, Next, Inv;
    if steps != [] {
      var n := |steps| - 1;
      NoIdleConnection(steps[..n]);
      EveryRunKeepsInv(steps[..n]);
      StepKeepsEndNear(After(steps[..n]).value, steps[n]);
    }
  }

  lemma ReachableInv(s: State)
    requires Reachable(s)
    ensures Inv(s)
  {
    var steps :| After(steps) == Some(s);
    EveryRunKeepsInv(steps);
  }

  // --------------------------------------------------------------- left with nothing

  /** Subscribers, but no socket, and nothing under way that could lead to one. */
  predicate Stranded(s: State) {
    s.subscribers > 0 && s.socket == None && s.reconnects == {} && s.suspended == 0 && s.refreshing == 0
  }

  /** Nothing else is under way than these suspended connects and awaited refreshes. */
  predicate Only(s: State, suspended: nat, refreshing: nat) {
    s.suspended == suspended && s.refreshing == refreshing
  }

  /** The events that strand a client: a normal closure of its socket, a connect that gets
      no token or finds its address unusable, a refresh without a token, a logout; each
      when nothing else is under way. */
  predicate Strands(s: State, step: Step) {
    && s.subscribers > 0
    && match step
       case OnClose(id, code, _) => s.socket == Some(id) && code == 1000 && s.reconnects == {} && Only(s, 0, 0)
       case Resume(token, urlValid) =>
         Only(s, 1, 0) && (!token || (!urlValid && s.socket == None && s.reconnects == {}))
       case Refreshed(token, _) => !token && Only(s, 0, 1)
       case LoggedOut => Only(s, 0, 0)
       case _ => false
  }

  /** A step leaves a client stranded if and only if it strands it, or it was stranded and
      neither gets a further subscriber nor loses its last one. */
  lemma StepStrandsExactly(s: State, step: Step)
    requires Inv(s) && Enabled(s, step)
    ensures Stranded(Next(s, step)) <==>
      Strands(s, step) || (Stranded(s) && !step.AddSubscriber? && Next(s, step).subscribers > 0)
  {
    hide IsBackoff, Delay;
  }

  /** Step k strands the client, and nobody subscribes after it. */
  ghost predicate StrandedAt(steps: seq<Step>, k: nat)
    requires k < |steps|
  {
    && After(steps[..k]).Some? && Strands(After(steps[..k]).value, steps[k])
    && AddSubscriber !in steps[k + 1..]
  }

  lemma {:induction false} StepsOfRun(steps: seq<Step>, k: nat)
    requires After(steps).Some? && k <= |steps|
    ensures After(steps[..k]).Some?
    decreases |steps| - k
  {
    hide Enabled, Next;
    if k == |steps| {
      assert steps[..k] == steps;
    } else {
      StepsOfRun(steps, k + 1);
      assert steps[..k + 1][..k] == steps[..k];
    }
  }

  /** WHEN A CLIENT IS STRANDED. After any run, a client with subscribers has nothing that
      will reconnect it if and only if one of those events happened when nothing else was
      under way, and nobody has subscribed since. */
  lemma {:induction false} StrandedExactly(steps: seq<Step>)
    requires After(steps).Some?
    ensures var s := After(steps).value;
      Stranded(s) <==> s.subscribers > 0 && exists k: nat :: k < |steps| && StrandedAt(steps, k)
  {
    hide Enabled, Next, Strands, Inv;
    if steps == [] {
      assert After(steps) == Some(INITIAL);
    } else {
      var n := |steps| - 1;
      var before := steps[..n];
      StrandedExactly(before);
      EveryRunKeepsInv(before);
      var s := After(before).value;
      StepStrandsExactly(s, steps[n]);
      SubscribersLeft(s, steps[n]);
      assert steps[n + 1..] == [];
      if k: nat :| k < n && StrandedAt(before, k) { Prolonged(steps, k); }
      if k: nat :| k < n && StrandedAt(steps, k) { Prolonged(steps, k); }
      if Strands(s, steps[n]) { assert StrandedAt(steps, n); }
    }
  }

  lemma SubscribersLeft(s: State, step: Step)
    requires Enabled(s, step)
    ensures !step.AddSubscriber? ==> Next(s, step).subscribers <= s.subscribers
  {
  }

  lemma Prolonged(steps: seq<Step>, k: nat)
    requires k < |steps| - 1
    ensures var before := steps[..|steps| - 1];
      StrandedAt(steps, k) <==> StrandedAt(before, k) && steps[|steps| - 1] != AddSubscriber
  {
    hide After, Strands;
    var n := |steps| - 1;
    assert steps[..n][..k] == steps[..k];
    assert steps[k + 1..] == steps[..n][k + 1..] + [steps[n]];
  }
}
