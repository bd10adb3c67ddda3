/** The shared websocket client as a machine of atomic steps: each callback, and each part
    of `connect` up to and after its await, is one step. The browser's registered timers
    and its sockets are part of the state, so forgotten ones stay visible. */
module WebSocketProtocol {
  import opened Wrappers

  datatype Status = Idle | Connecting | Open | Reconnecting | Closed | Error

  datatype Ready = CONNECTING | OPEN | CLOSING | CLOSED

  const BASE_DELAY_MS := 1000
  const MAX_DELAY_MS := 30000
  const JITTER_MS := 250
  const NORMAL_CLOSURE := 1000
  const TOKEN_EXPIRED := 4001

  /** The client's fields, then: timers still registered with the browser, the sockets
      ever created, calls suspended in `connect`, token refreshes awaited after a close,
      removals beyond the last subscriber, the delays drawn since the last open, and the
      next unused identity. */
  datatype State = State(
    socket: Option<nat>, status: Status, subscribers: nat, attempt: nat,
    reconnectTimer: Option<nat>, heartbeat: Option<nat>, closeTimer: Option<nat>,
    reconnects: set<nat>, heartbeats: set<nat>, closes: set<nat>,
    sockets: map<nat, Ready>, suspended: nat, refreshing: nat, unpaired: nat,
    delays: seq<int>, next: nat)

  const INITIAL := State(None, Idle, 0, 0, None, None, None, {}, {}, {}, map[], 0, 0, 0, [], 0)

  datatype Step =
    | AddSubscriber
    | RemoveSubscriber
    | Resume(token: bool, urlValid: bool)
    | OnOpen(id: nat)
    | OnError(id: nat)
    | OnClose(id: nat, code: int, jitter: int)
    | Refreshed(token: bool, jitter: int)
    | ReconnectFires(timer: nat)
    | CloseFires(timer: nat)
    | LoggedOut
    | SocketChanges(id: nat, ready: Ready)

  // ------------------------------------------------------------------ the helpers

  function Gone(timer: Option<nat>): set<nat> { if timer.Some? then {timer.value} else {} }

  function ClearReconnect(s: State): State {
    s.(reconnectTimer := None, reconnects := s.reconnects - Gone(s.reconnectTimer))
  }

  function ClearHeartbeat(s: State): State {
    s.(heartbeat := None, heartbeats := s.heartbeats - Gone(s.heartbeat))
  }

  function StartHeartbeat(s: State): State {
    var c := ClearHeartbeat(s);
    c.(heartbeat := Some(c.next), heartbeats := c.heartbeats + {c.next}, next := c.next + 1)
  }

  function CancelClose(s: State): State {
    s.(closeTimer := None, closes := s.closes - Gone(s.closeTimer))
  }

  function DeferClose(s: State): State {
    s.(closeTimer := Some(s.next), closes := s.closes + {s.next}, next := s.next + 1)
  }

  function ReadyOf(s: State, id: nat): Ready { if id in s.sockets then s.sockets[id] else CLOSED }

  function Disconnect(s: State): State {
    var c := CancelClose(ClearHeartbeat(ClearReconnect(s)));
    var sockets := if c.socket.Some? && ReadyOf(c, c.socket.value) !in {CLOSED, CLOSING}
                   then c.sockets[c.socket.value := CLOSING] else c.sockets;
    c.(socket := None, sockets := sockets, status := Closed)
  }

  lemma DisconnectTwice(s: State)
    ensures Disconnect(Disconnect(s)) == Disconnect(s)
  {
  }

  predicate HasUsableSocket(s: State) {
    s.socket.Some? && ReadyOf(s, s.socket.value) in {OPEN, CONNECTING}
  }

  /** `connect` up to its await. */
  function StartConnect(s: State): State {
    if s.subscribers == 0 || HasUsableSocket(s) then s else
      var c := ClearReconnect(s);
      c.(status := if c.attempt > 0 then Reconnecting else Connecting, suspended := c.suspended + 1)
  }

  function Power(n: nat): nat { if n == 0 then 1 else 2 * Power(n - 1) }

  /** Delay before reconnect attempt n >= 1. */
  function Delay(n: nat, jitter: int): int
    requires 1 <= n
  {
    var d := BASE_DELAY_MS * Power(n - 1) + jitter;
    if d < MAX_DELAY_MS then d else MAX_DELAY_MS
  }

  function ScheduleReconnect(s: State, jitter: int): State {
    if s.reconnectTimer.Some? || s.subscribers == 0 then s else
      s.(attempt := s.attempt + 1, status := Reconnecting,
         reconnectTimer := Some(s.next), reconnects := s.reconnects + {s.next}, next := s.next + 1,
         delays := s.delays + [Delay(s.attempt + 1, jitter)])
  }

  // -------------------------------------------------------------------- the steps

  predicate Enabled(s: State, step: Step) {
    match step
    case Resume(_, _) => s.suspended > 0
    case OnOpen(id) => id in s.sockets
    case OnError(id) => id in s.sockets
    case OnClose(id, _, j) => id in s.sockets && 0 <= j < JITTER_MS
    case Refreshed(_, j) => s.refreshing > 0 && 0 <= j < JITTER_MS
    case ReconnectFires(t) => t in s.reconnects
    case CloseFires(t) => t in s.closes
    case SocketChanges(id, _) => id in s.sockets
    case _ => true
  }

  function Next(s: State, step: Step): State
    requires Enabled(s, step)
  {
    match step
    case AddSubscriber => StartConnect(CancelClose(s.(subscribers := s.subscribers + 1)))
    case RemoveSubscriber =>
      var left := if s.subscribers == 0 then 0 else s.subscribers - 1;
      var c := s.(subscribers := left, unpaired := s.unpaired + if s.subscribers == 0 then 1 else 0);
      if left == 0 then DeferClose(c) else c
    case Resume(token, urlValid) =>
      var c := s.(suspended := s.suspended - 1);
      if !token then Disconnect(c)
      else if c.subscribers == 0 then c
      else if !urlValid then c.(status := Error)
      else c.(socket := Some(c.next), sockets := c.sockets[c.next := CONNECTING], next := c.next + 1)
    case OnOpen(id) =>
      var c := s.(sockets := s.sockets[id := OPEN]);
      if c.socket != Some(id) then c else
        StartHeartbeat(c.(attempt := 0, status := Open, delays := []))
    case OnError(id) => if s.socket != Some(id) then s else s.(status := Error)
    case OnClose(id, code, jitter) =>
      var c := s.(sockets := s.sockets[id := CLOSED]);
      if c.socket != Some(id) then c else
        var d := ClearHeartbeat(c.(socket := None)).(status := Closed);
        if d.subscribers == 0 || code == NORMAL_CLOSURE then d
        else if code == TOKEN_EXPIRED then d.(refreshing := d.refreshing + 1)
        else ScheduleReconnect(d, jitter)
    case Refreshed(token, jitter) =>
      var c := s.(refreshing := s.refreshing - 1);
      if token then ScheduleReconnect(c, jitter) else Disconnect(c)
    case ReconnectFires(t) =>
      StartConnect(s.(reconnects := s.reconnects - {t}, reconnectTimer := None))
    case CloseFires(t) =>
      var c := s.(closes := s.closes - {t});
      if c.subscribers == 0 then Disconnect(c) else c
    case LoggedOut => Disconnect(s)
    case SocketChanges(id, ready) => s.(sockets := s.sockets[id := ready])
  }

  // ------------------------------------------------------------------- invariants

  ghost predicate Timers(s: State) {
    && s.reconnects == Gone(s.reconnectTimer)
    && s.heartbeats == Gone(s.heartbeat)
    && (s.closeTimer.Some? && s.closeTimer.value in s.closes ==> s.subscribers == 0)
    && (s.unpaired == 0 ==> s.closes <= Gone(s.closeTimer))
    && (s.unpaired == 0 && s.subscribers > 0 ==> s.closeTimer == None)
  }

  ghost predicate Identities(s: State) {
    && (s.socket.Some? ==> s.socket.value in s.sockets)
    && (forall id :: id in s.sockets ==> id < s.next)
    && (forall t :: t in s.reconnects ==> t < s.next)
    && (forall t :: t in s.heartbeats ==> t < s.next)
    && (forall t :: t in s.closes ==> t < s.next)
    && (s.closeTimer.Some? ==> s.closeTimer.value < s.next)
  }

  /** A heartbeat or the status 'open' implies a current socket; a client with subscribers
      that calls itself connecting or reconnecting has something that will move it. */
  ghost predicate Honest(s: State) {
    && (s.heartbeat.Some? || s.status.Open? ==> s.socket.Some?)
    && (s.status.Idle? ==> s.subscribers == 0 && s.socket.None?)
    && (s.subscribers > 0 && (s.status.Connecting? || s.status.Reconnecting?) ==>
          s.reconnectTimer.Some? || s.suspended > 0 || s.socket.Some?)
  }

  /** d is what some jitter makes of the n-th delay. */
  ghost predicate IsDelay(d: int, n: nat) {
    1 <= n && exists j :: 0 <= j < JITTER_MS && d == Delay(n, j)
  }

  ghost predicate IsBackoff(delays: seq<int>) {
    forall i :: 0 <= i < |delays| ==> IsDelay(delays[i], i + 1)
  }

  ghost predicate Inv(s: State) {
    Timers(s) && Identities(s) && Honest(s) && |s.delays| == s.attempt && IsBackoff(s.delays)
  }

  // ------------------------------------------------------------- each step keeps them

  lemma DisconnectKeeps(s: State)
    requires Timers(s) && Identities(s) && |s.delays| == s.attempt && IsBackoff(s.delays)
    ensures Inv(Disconnect(s))
  {
  }

  lemma StartConnectKeeps(s: State)
    requires Timers(s) && Identities(s) && |s.delays| == s.attempt && IsBackoff(s.delays)
    requires s.heartbeat.Some? || s.status.Open? ==> s.socket.Some?
    requires s.status.Idle? ==> s.socket.None?
    requires s.subscribers == 0 ==> Honest(s)
    ensures Inv(StartConnect(s))
  {
  }

  lemma ScheduleKeeps(s: State, jitter: int)
    requires Inv(s) && 0 <= jitter < JITTER_MS
    ensures Inv(ScheduleReconnect(s, jitter))
  {
    var n := ScheduleReconnect(s, jitter);
    if n != s {
      assert n.delays[|s.delays|] == Delay(|s.delays| + 1, jitter);
      forall i | 0 <= i < |n.delays| ensures IsDelay(n.delays[i], i + 1) {
        if i < |s.delays| { assert n.delays[i] == s.delays[i]; }
      }
    }
  }

  lemma AddKeeps(s: State)
    requires Inv(s)
    ensures Inv(Next(s, AddSubscriber))
  {
    StartConnectKeeps(CancelClose(s.(subscribers := s.subscribers + 1)));
    hide StartConnect;
  }

  lemma RemoveKeeps(s: State)
    requires Inv(s)
    ensures Inv(Next(s, RemoveSubscriber))
  {
    hide IsBackoff;
  }

  lemma OpenKeeps(s: State, id: nat)
    requires Inv(s) && id in s.sockets
    ensures Inv(Next(s, OnOpen(id)))
  {
  }

  lemma CloseKeeps(s: State, id: nat, code: int, jitter: int)
    requires Inv(s) && id in s.sockets && 0 <= jitter < JITTER_MS
    ensures Inv(Next(s, OnClose(id, code, jitter)))
  {
    var c := s.(sockets := s.sockets[id := CLOSED]);
    if c.socket == Some(id) {
      var d := ClearHeartbeat(c.(socket := None)).(status := Closed);
      assert Inv(d);
      ScheduleKeeps(d, jitter);
    }
  }

  lemma ResumeKeeps(s: State, token: bool, urlValid: bool)
    requires Inv(s) && s.suspended > 0
    ensures Inv(Next(s, Resume(token, urlValid)))
  {
    DisconnectKeeps(s.(suspended := s.suspended - 1));
  }

  lemma RefreshKeeps(s: State, token: bool, jitter: int)
    requires Inv(s) && s.refreshing > 0 && 0 <= jitter < JITTER_MS
    ensures Inv(Next(s, Refreshed(token, jitter)))
  {
    var c := s.(refreshing := s.refreshing - 1);
    assert Inv(c);
    DisconnectKeeps(c);
    ScheduleKeeps(c, jitter);
  }

  lemma TimersKeep(s: State, t: nat)
    requires Inv(s)
    ensures t in s.reconnects ==> Inv(Next(s, ReconnectFires(t)))
    ensures t in s.closes ==> Inv(Next(s, CloseFires(t)))
  {
    if t in s.reconnects { StartConnectKeeps(s.(reconnects := s.reconnects - {t}, reconnectTimer := None)); }
    if t in s.closes { DisconnectKeeps(s.(closes := s.closes - {t})); }
  }

  lemma SocketsKeep(s: State, id: nat, ready: Ready)
    requires Inv(s) && id in s.sockets
    ensures Inv(Next(s, OnError(id))) && Inv(Next(s, SocketChanges(id, ready)))
  {
  }

  lemma StepKeepsInv(s: State, step: Step)
    requires Inv(s) && Enabled(s, step)
    ensures Inv(Next(s, step))
  {
    match step
    case AddSubscriber => AddKeeps(s);
    case RemoveSubscriber => RemoveKeeps(s);
    case Resume(token, urlValid) => ResumeKeeps(s, token, urlValid);
    case OnOpen(id) => OpenKeeps(s, id);
    case OnError(id) => SocketsKeep(s, id, OPEN);
    case OnClose(id, code, jitter) => CloseKeeps(s, id, code, jitter);
    case Refreshed(token, jitter) => RefreshKeeps(s, token, jitter);
    case ReconnectFires(t) => TimersKeep(s, t);
    case CloseFires(t) => TimersKeep(s, t);
    case LoggedOut => DisconnectKeeps(s);
    case SocketChanges(id, ready) => SocketsKeep(s, id, ready);
  }

  /** The state after a run, if every step of it was possible. */
  function After(steps: seq<Step>): Option<State> {
    if steps == [] then Some(INITIAL) else
      var n := |steps| - 1;
      var s := After(steps[..n]);
      if s.Some? && Enabled(s.value, steps[n]) then Some(Next(s.value, steps[n])) else None
  }

  lemma {:induction false} EveryRunKeepsInv(steps: seq<Step>)
    requires After(steps).Some?
    ensures Inv(After(steps).value)
  {
    hide Inv, Enabled, Next;
    if steps == [] {
      InitialInv();
    } else {
      var n := |steps| - 1;
      EveryRunKeepsInv(steps[..n]);
      StepKeepsInv(After(steps[..n]).value, steps[n]);
    }
  }

  lemma InitialInv()
    ensures Inv(INITIAL)
  {
  }

  // ------------------------------------------------------------- what a run guarantees

  lemma {:induction false} PowerGrows(m: nat, n: nat)
    requires m < n
    ensures 1 <= Power(m) && 2 * Power(m) <= Power(n)
  {
    if m == n - 1 {
      if m > 0 { PowerGrows(0, m); }
    } else {
      PowerGrows(m, n - 1);
    }
  }

  /** The delays before jitter, in milliseconds; every later one is the maximum. */
  const FIRST_DELAYS := [1000, 2000, 4000, 8000, 16000]

  /** The first five delays since the last open are 1, 2, 4, 8 and 16 seconds and a jitter
      below 250 ms, all later ones 30 seconds; so they lie between 1 and 30 seconds and
      never decrease. */
  lemma BackoffShape(delays: seq<int>)
    requires IsBackoff(delays)
    ensures forall i :: 0 <= i < |delays| && i < 5 ==> FIRST_DELAYS[i] <= delays[i] < FIRST_DELAYS[i] + 250
    ensures forall i :: 5 <= i < |delays| ==> delays[i] == 30000
    ensures forall i :: 0 <= i < |delays| ==> 1000 <= delays[i] <= 30000
    ensures forall i, k :: 0 <= i < k < |delays| ==> delays[i] <= delays[k]
  {
    assert Power(0) == 1 && Power(1) == 2 && Power(2) == 4 && Power(3) == 8 && Power(4) == 16 && Power(5) == 32;
    forall i | 5 <= i < |delays| ensures 32 <= Power(i) {
      if 5 < i { PowerGrows(5, i); }
    }
    forall i | 0 <= i < |delays|
      ensures if i < 5 then FIRST_DELAYS[i] <= delays[i] < FIRST_DELAYS[i] + 250 else delays[i] == 30000
    {
      assert IsDelay(delays[i], i + 1);
    }
  }

  /** Some run leads here. */
  ghost predicate Reachable(s: State) { exists steps :: After(steps) == Some(s) }

  lemma StepReaches(s: State, step: Step)
    requires Reachable(s) && Enabled(s, step)
    ensures Reachable(Next(s, step))
  {
    hide Enabled, Next;
    var steps :| After(steps) == Some(s);
    assert (steps + [step])[..|steps|] == steps;
    assert After(steps + [step]) == Some(Next(s, step));
  }

  lemma InitialIsReachable()
    ensures Reachable(INITIAL)
  {
    assert After([]) == Some(INITIAL);
  }

  // --------------------------------------------------------- paired subscriptions

  function Additions(steps: seq<Step>): nat {
    if steps == [] then 0 else
      Additions(steps[..|steps| - 1]) + if steps[|steps| - 1].AddSubscriber? then 1 else 0
  }

  function Removals(steps: seq<Step>): nat {
    if steps == [] then 0 else
      Removals(steps[..|steps| - 1]) + if steps[|steps| - 1].RemoveSubscriber? then 1 else 0
  }

  /** At no point of the run have more subscribers left than come: nobody unsubscribes who
      did not subscribe, as the hook's effect makes sure. */
  predicate Paired(steps: seq<Step>) {
    Removals(steps) <= Additions(steps) && (steps != [] ==> Paired(steps[..|steps| - 1]))
  }

  lemma StepCountsSubscribers(s: State, step: Step)
    requires Enabled(s, step)
    ensures var n := Next(s, step);
      && n.unpaired == s.unpaired + (if step.RemoveSubscriber? && s.subscribers == 0 then 1 else 0)
      && n.subscribers == (if step.AddSubscriber? then s.subscribers + 1
                           else if step.RemoveSubscriber? && s.subscribers > 0 then s.subscribers - 1
                           else s.subscribers)
  {
  }

  /** No removal goes unpaired exactly in paired runs, and then the subscriber count is
      the number of additions not yet removed. */
  lemma {:induction false} PairedExactly(steps: seq<Step>)
    requires After(steps).Some?
    ensures var s := After(steps).value;
      && (s.unpaired == 0 <==> Paired(steps))
      && (s.unpaired == 0 ==> s.subscribers == Additions(steps) - Removals(steps))
  {
    hide Enabled, Next;
    if steps != [] {
      var n := |steps| - 1;
      PairedExactly(steps[..n]);
      StepCountsSubscribers(After(steps[..n]).value, steps[n]);
    }
  }

  // ------------------------------------------------------------- what holds throughout

  /** EVERY INTERLEAVING. After any run: at most one reconnect timer and one heartbeat are
      registered; a heartbeat or the status 'open' implies a current socket; with paired
      subscriptions at most one deferred close is pending, and only while nobody
      subscribes; a client with subscribers and nothing in flight says 'closed' or
      'error'; and the delays since the last open back off as they should. */
  lemma EveryInterleaving(steps: seq<Step>)
    requires After(steps).Some?
    ensures var s := After(steps).value;
      && |s.reconnects| <= 1 && |s.heartbeats| <= 1
      && (s.heartbeats != {} || s.status.Open? ==> s.socket.Some?)
      && (Paired(steps) ==> |s.closes| <= 1 && (s.closes != {} ==> s.subscribers == 0))
      && (s.subscribers > 0 && s.socket.None? && s.reconnects == {} && s.suspended == 0 ==>
            s.status.Closed? || s.status.Error?)
      && |s.delays| == s.attempt
      && (forall i :: 0 <= i < |s.delays| ==> BASE_DELAY_MS <= s.delays[i] <= MAX_DELAY_MS)
      && (forall i, j :: 0 <= i < j < |s.delays| ==> s.delays[i] <= s.delays[j])
      && (forall i :: 5 <= i < |s.delays| ==> s.delays[i] == MAX_DELAY_MS)
  {
    EveryRunKeepsInv(steps);
    PairedExactly(steps);
    var s := After(steps).value;
    hide After, Paired;
    BackoffShape(s.delays);
    hide IsBackoff;
    AtMostOne(s.closes, s.closeTimer);
  }

  lemma AtMostOne(live: set<nat>, timer: Option<nat>)
    ensures live <= Gone(timer) ==> |live| <= 1
  {
    if live <= Gone(timer) && live != {} { assert live == Gone(timer); }
  }
}
