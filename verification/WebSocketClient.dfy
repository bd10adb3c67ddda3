/** The shared websocket client itself: its methods and callbacks, each proved to be the
    corresponding step of the protocol, so that every state of it is one some run leads to. */
module WebSocketClient {
  import opened WebSocketProtocol
  import opened WebSocketRecovery
  import opened Wrappers

  class SharedWebSocketClient {
    var socket: Option<nat>
    var status: Status
    var subscribers: nat
    var reconnectAttempt: nat
    var reconnectTimer: Option<nat>
    var heartbeatTimer: Option<nat>
    var closeTimer: Option<nat>

    // The browser: its registered timers by purpose, its sockets, its next identity.
    var reconnects: set<nat>
    var heartbeats: set<nat>
    var closes: set<nat>
    var sockets: map<nat, Ready>
    var nextId: nat

    // Calls awaiting something, and the history of delays.
    ghost var suspended: nat
    ghost var refreshing: nat
    ghost var unpaired: nat
    ghost var delays: seq<int>

    ghost function View(): State reads this {
      State(socket, status, subscribers, reconnectAttempt, reconnectTimer, heartbeatTimer, closeTimer,
            reconnects, heartbeats, closes, sockets, suspended, refreshing, unpaired, delays, nextId)
    }

    /** Some interleaving of callbacks leads to this client. */
    ghost predicate Valid() reads this { Reachable(View()) }

    constructor ()
      ensures Valid() && View() == INITIAL
    {
      socket, status, subscribers, reconnectAttempt := None, Idle, 0, 0;
      reconnectTimer, heartbeatTimer, closeTimer := None, None, None;
      reconnects, heartbeats, closes, sockets, nextId := {}, {}, {}, map[], 0;
      suspended, refreshing, unpaired, delays := 0, 0, 0, [];
      new;
      InitialIsReachable();
    }

    method ClearReconnectTimer()
      modifies this
      ensures View() == ClearReconnect(old(View()))
    {
      if reconnectTimer.Some? {
        reconnects := reconnects - {reconnectTimer.value};
        reconnectTimer := None;
      }
      assert reconnects == old(reconnects) - Gone(old(reconnectTimer));
    }

    method ClearHeartbeatTimer()
      modifies this
      ensures View() == ClearHeartbeat(old(View()))
    {
      if heartbeatTimer.Some? {
        heartbeats := heartbeats - {heartbeatTimer.value};
        heartbeatTimer := None;
      }
      assert heartbeats == old(heartbeats) - Gone(old(heartbeatTimer));
    }

    method CancelDeferredClose()
      modifies this
      ensures View() == CancelClose(old(View()))
    {
      if closeTimer.Some? {
        closes := closes - {closeTimer.value};
        closeTimer := None;
      }
      assert closes == old(closes) - Gone(old(closeTimer));
    }

    method DisconnectNow()
      modifies this
      ensures View() == Disconnect(old(View()))
    {
      ClearReconnectTimer();
      ClearHeartbeatTimer();
      CancelDeferredClose();
      var current := socket;
      socket := None;
      if current.Some? && current.value in sockets && sockets[current.value] !in {CLOSED, CLOSING} {
        sockets := sockets[current.value := CLOSING];
      }
      status := Closed;
    }

    /** `connect` up to the await for a usable token. */
    method Connect() returns (awaiting: bool)
      modifies this
      ensures View() == StartConnect(old(View()))
      ensures awaiting == (old(subscribers) > 0 && !HasUsableSocket(old(View())))
    {
      if subscribers == 0 {
        return false;
      }
      if socket.Some? && socket.value in sockets && sockets[socket.value] in {OPEN, CONNECTING} {
        return false;
      }
      ClearReconnectTimer();
      status := if reconnectAttempt > 0 then Reconnecting else Connecting;
      suspended := suspended + 1;
      awaiting := true;
    }

    /** `connect` after the await. Without a token the store logs out, which disconnects
        through its subscription, and then `connect` disconnects as well. */
    method ResumeConnect(token: bool, urlValid: bool)
      requires Valid() && suspended > 0
      modifies this
      ensures View() == Next(old(View()), Resume(token, urlValid)) && Valid()
    {
      StepReaches(View(), Resume(token, urlValid));
      hide Reachable;
      suspended := suspended - 1;
      DisconnectTwice(View());
      if !token {
        hide Disconnect;
        DisconnectNow();
        DisconnectNow();
        return;
      }
      if subscribers == 0 {
        return;
      }
      if !urlValid {
        status := Error;
        return;
      }
      sockets := sockets[nextId := CONNECTING];
      socket := Some(nextId);
      nextId := nextId + 1;
    }

    method Opened(id: nat)
      requires Valid() && id in sockets
      modifies this
      ensures View() == Next(old(View()), OnOpen(id)) && Valid()
    {
      StepReaches(View(), OnOpen(id));
      hide Reachable;
      sockets := sockets[id := OPEN];
      if socket != Some(id) {
        return;
      }
      hide StartHeartbeat;
      reconnectAttempt, delays := 0, [];
      status := Open;
      StartHeartbeatTimer();
    }

    method StartHeartbeatTimer()
      modifies this
      ensures View() == StartHeartbeat(old(View()))
    {
      ClearHeartbeatTimer();
      heartbeatTimer, heartbeats := Some(nextId), heartbeats + {nextId};
      nextId := nextId + 1;
    }

    method Failed(id: nat)
      requires Valid() && id in sockets
      modifies this
      ensures View() == Next(old(View()), OnError(id)) && Valid()
    {
      StepReaches(View(), OnError(id));
      hide Reachable;
      if socket != Some(id) {
        return;
      }
      status := Error;
    }

    method ClosedBy(id: nat, code: int, jitter: int)
      requires Valid() && id in sockets && 0 <= jitter < JITTER_MS
      modifies this
      ensures View() == Next(old(View()), OnClose(id, code, jitter)) && Valid()
      ensures old(Loses(View(), id)) && code != 1000 && code != 4001 ==> reconnects != {}
    {
      hide Reachable, Delay;
      StepReaches(View(), OnClose(id, code, jitter));
      LossSchedules(View(), id, code, jitter);
      sockets := sockets[id := CLOSED];
      if socket != Some(id) {
        return;
      }
      socket := None;
      ClearHeartbeatTimer();
      status := Closed;
      if subscribers > 0 && code != NORMAL_CLOSURE {
        if code == TOKEN_EXPIRED {
          refreshing := refreshing + 1;
          return;
        }
        Schedule(jitter);
      }
    }

    method TokenRefreshed(token: bool, jitter: int)
      requires Valid() && refreshing > 0 && 0 <= jitter < JITTER_MS
      modifies this
      ensures View() == Next(old(View()), Refreshed(token, jitter)) && Valid()
    {
      StepReaches(View(), Refreshed(token, jitter));
      hide Reachable;
      refreshing := refreshing - 1;
      if !token {
        DisconnectNow();
        return;
      }
      Schedule(jitter);
    }

    method Schedule(jitter: int)
      requires 0 <= jitter < JITTER_MS
      modifies this
      ensures View() == ScheduleReconnect(old(View()), jitter)
    {
      if reconnectTimer.Some? || subscribers == 0 {
        return;
      }
      reconnectAttempt := reconnectAttempt + 1;
      var delay := Delay(reconnectAttempt, jitter);
      status := Reconnecting;
      reconnectTimer, reconnects := Some(nextId), reconnects + {nextId};
      nextId := nextId + 1;
      delays := delays + [delay];
    }

    method AddSubscriberNow() returns (awaiting: bool)
      requires Valid()
      modifies this
      ensures View() == Next(old(View()), AddSubscriber) && Valid()
    {
      StepReaches(View(), AddSubscriber);
      hide Reachable;
      subscribers := subscribers + 1;
      CancelDeferredClose();
      awaiting := Connect();
    }

    method RemoveSubscriberNow()
      requires Valid()
      modifies this
      ensures View() == Next(old(View()), RemoveSubscriber) && Valid()
    {
      StepReaches(View(), RemoveSubscriber);
      hide Reachable;
      unpaired := unpaired + if subscribers == 0 then 1 else 0;
      subscribers := if subscribers - 1 < 0 then 0 else subscribers - 1;
      if subscribers == 0 {
        hide DeferClose;
        CloseLater();
      }
    }

    method CloseLater()
      modifies this
      ensures View() == DeferClose(old(View()))
    {
      closeTimer, closes := Some(nextId), closes + {nextId};
      nextId := nextId + 1;
    }

    method ReconnectTimerFired(timer: nat) returns (awaiting: bool)
      requires Valid() && timer in reconnects
      modifies this
      ensures View() == Next(old(View()), ReconnectFires(timer)) && Valid()
    {
      StepReaches(View(), ReconnectFires(timer));
      hide Reachable;
      reconnects := reconnects - {timer};
      reconnectTimer := None;
      awaiting := Connect();
    }

    method CloseTimerFired(timer: nat)
      requires Valid() && timer in closes
      modifies this
      ensures View() == Next(old(View()), CloseFires(timer)) && Valid()
    {
      StepReaches(View(), CloseFires(timer));
      hide Reachable;
      closes := closes - {timer};
      if subscribers == 0 {
        DisconnectNow();
      }
    }

    /** The store's subscription, when the user is no longer authenticated. */
    method LoggedOutNow()
      requires Valid()
      modifies this
      ensures View() == Next(old(View()), LoggedOut) && Valid()
      ensures reconnects == {} && heartbeats == {} && socket == None && status == Closed
    {
      StepReaches(View(), LoggedOut);
      LogoutEnds(View());
      hide Reachable;
      DisconnectNow();
    }

    /** WHAT A CALLER RELIES ON, after any interleaving of calls and callbacks. */
    lemma Guarantees()
      requires Valid()
      ensures |reconnects| <= 1 && |heartbeats| <= 1
      ensures heartbeats != {} || status.Open? ==> socket.Some?
      ensures unpaired == 0 ==> |closes| <= 1 && (closes != {} ==> subscribers == 0)
      ensures subscribers > 0 && socket.None? && reconnects == {} && suspended == 0 ==> status.Closed? || status.Error?
      ensures forall i :: 0 <= i < |delays| ==> BASE_DELAY_MS <= delays[i] <= MAX_DELAY_MS
      ensures forall i, k :: 0 <= i < k < |delays| ==> delays[i] <= delays[k]
      ensures subscribers == 0 && (socket.Some? || reconnects != {} || heartbeats != {}) ==> closes != {}
    {
      var steps :| After(steps) == Some(View());
      PairedExactly(steps);
      EveryInterleaving(steps);
      NoIdleConnection(steps);
    }

    /** `send` succeeds only through an open current socket. */
    method Send() returns (sent: bool)
      ensures sent <==> socket.Some? && ReadyOf(View(), socket.value) == OPEN
    {
      sent := socket.Some? && socket.value in sockets && sockets[socket.value] == OPEN;
    }
  }
}
