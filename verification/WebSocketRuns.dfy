/** What the client does with sockets over whole runs: a superseded socket stays superseded
    and its events do nothing, and exactly when a socket is left open with nobody to close
    it. */
module WebSocketRuns {
  import opened WebSocketProtocol
  import opened Wrappers

  lemma {:induction false} PrefixesArePossible(steps: seq<Step>, k: nat)
    requires After(steps).Some? && k <= |steps|
    ensures After(steps[..k]).Some?
    ensures k < |steps| ==>
      && Enabled(After(steps[..k]).value, steps[k])
      && After(steps[..k + 1]) == Some(Next(After(steps[..k]).value, steps[k]))
    decreases |steps| - k
  {
    hide Enabled, Next;
    if k == |steps| {
      assert steps[..k] == steps;
    } else {
      PrefixesArePossible(steps, k + 1);
      assert steps[..k + 1][..k] == steps[..k] && steps[..k + 1][k] == steps[k];
    }
  }

  // ------------------------------------------------------------------ superseded sockets

  /** A socket of this client that is not the current one. */
  predicate Superseded(s: State, id: nat) { id in s.sockets && s.socket != Some(id) }

  lemma StepKeepsSuperseded(s: State, step: Step, id: nat)
    requires Identities(s) && Enabled(s, step) && Superseded(s, id)
    ensures Superseded(Next(s, step), id)
  {
  }

  /** Once superseded, a socket is never current again. */
  lemma {:induction false} SupersededForGood(steps: seq<Step>, k: nat, id: nat)
    requires After(steps).Some? && k <= |steps|
    requires After(steps[..k]).Some? && Superseded(After(steps[..k]).value, id)
    ensures Superseded(After(steps).value, id)
  {
    hide Enabled, Next, Superseded;
    if k == |steps| {
      assert steps[..k] == steps;
    } else {
      var n := |steps| - 1;
      assert steps[..n][..k] == steps[..k];
      SupersededForGood(steps[..n], k, id);
      EveryRunKeepsInv(steps[..n]);
      StepKeepsSuperseded(After(steps[..n]).value, steps[n], id);
    }
  }

  /** An event of a socket that is not the current one. */
  predicate Stray(s: State, step: Step) {
    (step.OnOpen? || step.OnError? || step.OnClose?) && s.socket != Some(step.id)
  }

  /** The run without the events of superseded sockets. */
  function Effective(steps: seq<Step>): (r: seq<Step>)
    ensures |r| <= |steps|
  {
    if steps == [] then [] else
      var n := |steps| - 1;
      var s := After(steps[..n]);
      if s.Some? && Stray(s.value, steps[n]) then Effective(steps[..n])
      else Effective(steps[..n]) + [steps[n]]
  }

  /** Equal but for the states of sockets that are not current. */
  ghost predicate Alike(s: State, t: State) {
    && t == s.(sockets := t.sockets)
    && t.sockets.Keys == s.sockets.Keys
    && (s.socket.Some? ==> ReadyOf(t, s.socket.value) == ReadyOf(s, s.socket.value))
  }

  lemma StrayKeepsAlike(s: State, t: State, step: Step)
    requires Alike(s, t) && Enabled(s, step) && Stray(s, step)
    ensures Alike(Next(s, step), t)
  {
  }

  lemma DisconnectAlike(s: State, t: State)
    requires Alike(s, t)
    ensures Alike(Disconnect(s), Disconnect(t))
  {
  }

  lemma StartConnectAlike(s: State, t: State)
    requires Alike(s, t)
    ensures Alike(StartConnect(s), StartConnect(t))
  {
  }

  lemma ScheduleAlike(s: State, t: State, jitter: int)
    requires Alike(s, t)
    ensures Alike(ScheduleReconnect(s, jitter), ScheduleReconnect(t, jitter))
  {
  }

  lemma AddAlike(s: State, t: State)
    requires Alike(s, t)
    ensures Alike(Next(s, AddSubscriber), Next(t, AddSubscriber))
  {
    var c, d := CancelClose(s.(subscribers := s.subscribers + 1)), CancelClose(t.(subscribers := t.subscribers + 1));
    assert Alike(c, d);
    hide StartConnect, CancelClose;
    StartConnectAlike(c, d);
  }

  lemma RemoveAlike(s: State, t: State)
    requires Alike(s, t)
    ensures Alike(Next(s, RemoveSubscriber), Next(t, RemoveSubscriber))
  {
  }

  lemma ResumeAlike(s: State, t: State, token: bool, urlValid: bool)
    requires Alike(s, t) && s.suspended > 0
    ensures Alike(Next(s, Resume(token, urlValid)), Next(t, Resume(token, urlValid)))
  {
    DisconnectAlike(s.(suspended := s.suspended - 1), t.(suspended := t.suspended - 1));
    hide Disconnect;
  }

  lemma CurrentOpensAlike(s: State, t: State, id: nat)
    requires Alike(s, t) && id in s.sockets && s.socket == Some(id)
    ensures Alike(Next(s, OnOpen(id)), Next(t, OnOpen(id))) && Alike(Next(s, OnError(id)), Next(t, OnError(id)))
  {
  }

  lemma CurrentClosesAlike(s: State, t: State, id: nat, code: int, jitter: int)
    requires Alike(s, t) && id in s.sockets && s.socket == Some(id) && 0 <= jitter < JITTER_MS
    ensures Alike(Next(s, OnClose(id, code, jitter)), Next(t, OnClose(id, code, jitter)))
  {
    var c, d := s.(sockets := s.sockets[id := CLOSED]), t.(sockets := t.sockets[id := CLOSED]);
    var c' := ClearHeartbeat(c.(socket := None)).(status := Closed);
    var d' := ClearHeartbeat(d.(socket := None)).(status := Closed);
    assert Alike(c', d');
    ScheduleAlike(c', d', jitter);
    hide ScheduleReconnect;
  }

  lemma RefreshAlike(s: State, t: State, token: bool, jitter: int)
    requires Alike(s, t) && s.refreshing > 0 && 0 <= jitter < JITTER_MS
    ensures Alike(Next(s, Refreshed(token, jitter)), Next(t, Refreshed(token, jitter)))
  {
    var c, d := s.(refreshing := s.refreshing - 1), t.(refreshing := t.refreshing - 1);
    DisconnectAlike(c, d);
    ScheduleAlike(c, d, jitter);
    hide Disconnect, ScheduleReconnect;
  }

  lemma TimersAlike(s: State, t: State, timer: nat)
    requires Alike(s, t)
    ensures timer in s.reconnects ==> Alike(Next(s, ReconnectFires(timer)), Next(t, ReconnectFires(timer)))
    ensures timer in s.closes ==> Alike(Next(s, CloseFires(timer)), Next(t, CloseFires(timer)))
  {
    StartConnectAlike(s.(reconnects := s.reconnects - {timer}, reconnectTimer := None),
                      t.(reconnects := t.reconnects - {timer}, reconnectTimer := None));
    DisconnectAlike(s.(closes := s.closes - {timer}), t.(closes := t.closes - {timer}));
    hide Disconnect, StartConnect;
  }

  lemma SocketChangesAlike(s: State, t: State, id: nat, ready: Ready)
    requires Alike(s, t) && id in s.sockets
    ensures Alike(Next(s, SocketChanges(id, ready)), Next(t, SocketChanges(id, ready)))
  {
  }

  lemma StepKeepsAlike(s: State, t: State, step: Step)
    requires Alike(s, t) && Enabled(s, step) && !Stray(s, step)
    ensures Enabled(t, step) && Alike(Next(s, step), Next(t, step))
  {
    assert Enabled(t, step);
    hide Next, Alike;
    match step
    case AddSubscriber => AddAlike(s, t);
    case RemoveSubscriber => RemoveAlike(s, t);
    case Resume(token, urlValid) => ResumeAlike(s, t, token, urlValid);
    case OnOpen(id) => CurrentOpensAlike(s, t, id);
    case OnError(id) => CurrentOpensAlike(s, t, id);
    case OnClose(id, code, jitter) => CurrentClosesAlike(s, t, id, code, jitter);
    case Refreshed(token, jitter) => RefreshAlike(s, t, token, jitter);
    case ReconnectFires(timer) => TimersAlike(s, t, timer);
    case CloseFires(timer) => TimersAlike(s, t, timer);
    case LoggedOut => LogoutAlike(s, t);
    case SocketChanges(id, ready) => SocketChangesAlike(s, t, id, ready);
  }

  lemma LogoutAlike(s: State, t: State)
    requires Alike(s, t)
    ensures Alike(Next(s, LoggedOut), Next(t, LoggedOut))
  {
    DisconnectAlike(s, t);
    hide Disconnect;
  }

  /** STRAY EVENTS DO NOTHING. Taking every open, error and close of a superseded socket
      out of a run leaves a possible run, and leaves every field of the client as it was;
      what else differs are the states of sockets it no longer refers to. */
  lemma {:induction false} StrayEventsDoNothing(steps: seq<Step>)
    requires After(steps).Some?
    ensures After(Effective(steps)).Some?
    ensures Alike(After(steps).value, After(Effective(steps)).value)
  {
    hide Enabled, Next, Alike, Stray;
    if steps == [] {
      SameIsAlike(INITIAL);
    } else {
      var n := |steps| - 1;
      StrayEventsDoNothing(steps[..n]);
      var s, e := After(steps[..n]).value, Effective(steps[..n]);
      var t := After(e).value;
      if Stray(s, steps[n]) {
        StrayKeepsAlike(s, t, steps[n]);
      } else {
        StepKeepsAlike(s, t, steps[n]);
        assert (e + [steps[n]])[..|e|] == e;
      }
    }
  }

  lemma SameIsAlike(s: State)
    ensures Alike(s, s)
  {
  }

  // --------------------------------------------------------------------- leaked sockets

  predicate Lives(ready: Ready) { ready in {CONNECTING, OPEN} }

  /** A socket that lives although the client does not refer to it any more. */
  predicate Orphan(s: State, id: nat) { id in s.sockets && Lives(s.sockets[id]) && s.socket != Some(id) }

  ghost predicate NoOrphan(s: State) { forall id :: id in s.sockets ==> !Orphan(s, id) }

  /** A socket that is closing or closed never lives again. */
  predicate BrowserObeys(s: State, step: Step) {
    match step
    case OnOpen(id) => id in s.sockets ==> Lives(s.sockets[id])
    case SocketChanges(id, ready) => id in s.sockets && Lives(ready) ==> Lives(s.sockets[id])
    case _ => true
  }

  /** A resumed connect that finds a socket in use. */
  predicate Replaces(s: State, step: Step) {
    step == Resume(true, true) && s.subscribers > 0 && HasUsableSocket(s)
  }

  lemma StepLeaksExactly(s: State, step: Step)
    requires Identities(s) && Enabled(s, step) && BrowserObeys(s, step) && NoOrphan(s)
    ensures NoOrphan(Next(s, step)) <==> !Replaces(s, step)
  {
    var n := Next(s, step);
    if Replaces(s, step) {
      assert Orphan(n, s.socket.value);
    } else {
      forall id | id in n.sockets ensures !Orphan(n, id) {
        assert id in s.sockets ==> !Orphan(s, id);
      }
    }
  }

  ghost predicate Obeyed(steps: seq<Step>) {
    forall k :: 0 <= k < |steps| ==>
      After(steps[..k]).Some? && BrowserObeys(After(steps[..k]).value, steps[k])
  }

  /** No resumed connect of the run finds a socket in use. */
  ghost predicate NeverReplaces(steps: seq<Step>) {
    forall k :: 0 <= k < |steps| ==> After(steps[..k]).Some? && !Replaces(After(steps[..k]).value, steps[k])
  }

  ghost predicate NeverOrphans(steps: seq<Step>) {
    forall k :: 0 <= k <= |steps| ==> After(steps[..k]).Some? && NoOrphan(After(steps[..k]).value)
  }

  /** WHEN A SOCKET LEAKS. In every run, no socket is ever left alive without a reference
      if and only if no resumed connect finds a socket in use. */
  lemma LeaksExactly(steps: seq<Step>)
    requires After(steps).Some? && Obeyed(steps)
    ensures NeverOrphans(steps) <==> NeverReplaces(steps)
  {
    hide NoOrphan, Replaces, BrowserObeys, Enabled, Next, Inv;
    forall k: nat | k <= |steps| ensures After(steps[..k]).Some? { PrefixesArePossible(steps, k); }
    if NeverReplaces(steps) {
      forall k: nat | k <= |steps| ensures NoOrphan(After(steps[..k]).value) { StaysOrphanFree(steps, k); }
    }
    if NeverOrphans(steps) {
      forall k: nat | k < |steps| ensures !Replaces(After(steps[..k]).value, steps[k]) {
        OrphanFreeStep(steps, k);
        assert NoOrphan(After(steps[..k]).value) && NoOrphan(After(steps[..k + 1]).value);
      }
    }
  }

  /** The step law at a point of a run. */
  lemma OrphanFreeStep(steps: seq<Step>, k: nat)
    requires After(steps).Some? && Obeyed(steps) && k < |steps|
    ensures After(steps[..k]).Some? && After(steps[..k + 1]).Some?
    ensures NoOrphan(After(steps[..k]).value) ==>
      (NoOrphan(After(steps[..k + 1]).value) <==> !Replaces(After(steps[..k]).value, steps[k]))
  {
    PrefixesArePossible(steps, k);
    EveryRunKeepsInv(steps[..k]);
    var s := After(steps[..k]).value;
    assert BrowserObeys(s, steps[k]) && Identities(s);
    hide NoOrphan, Replaces, Enabled, Next, BrowserObeys, Identities, After;
    if NoOrphan(s) { StepLeaksExactly(s, steps[k]); }
  }

  lemma {:induction false} StaysOrphanFree(steps: seq<Step>, k: nat)
    requires After(steps).Some? && Obeyed(steps) && NeverReplaces(steps) && k <= |steps|
    ensures After(steps[..k]).Some? && NoOrphan(After(steps[..k]).value)
  {
    PrefixesArePossible(steps, k);
    if k == 0 {
      assert steps[..0] == [];
    } else {
      StaysOrphanFree(steps, k - 1);
      OrphanFreeStep(steps, k - 1);
    }
  }

  // --------------------------------------------------- one suspended connect at a time

  /** A suspended connect has no socket to replace. */
  predicate NothingToReplace(s: State) { s.suspended > 0 ==> !HasUsableSocket(s) }

  lemma StepKeepsNothingToReplace(s: State, step: Step)
    requires Identities(s) && Enabled(s, step) && BrowserObeys(s, step) && NothingToReplace(s)
    requires s.suspended <= 1 && Next(s, step).suspended <= 1
    ensures NothingToReplace(Next(s, step))
  {
  }

  ghost predicate OneAtATime(steps: seq<Step>) {
    forall k :: 0 <= k <= |steps| ==> After(steps[..k]).Some? && After(steps[..k]).value.suspended <= 1
  }

  lemma {:induction false} StaysNothingToReplace(steps: seq<Step>, k: nat)
    requires After(steps).Some? && Obeyed(steps) && OneAtATime(steps) && k <= |steps|
    ensures After(steps[..k]).Some? && NothingToReplace(After(steps[..k]).value)
  {
    PrefixesArePossible(steps, k);
    if k == 0 {
      assert steps[..0] == [];
    } else {
      var n := k - 1;
      StaysNothingToReplace(steps, n);
      PrefixesArePossible(steps, n);
      EveryRunKeepsInv(steps[..n]);
      var s := After(steps[..n]).value;
      assert BrowserObeys(s, steps[n]) && Identities(s) && s.suspended <= 1;
      assert After(steps[..k]).value.suspended <= 1;
      hide Enabled, Next, BrowserObeys, Identities, After, NothingToReplace;
      StepKeepsNothingToReplace(s, steps[n]);
    }
  }

  /** NO LEAK. If at most one call is suspended in `connect` at a time, a resumed connect
      never finds a socket in use, and no socket is ever left alive without a reference. */
  lemma OneConnectLeaksNothing(steps: seq<Step>)
    requires After(steps).Some? && Obeyed(steps) && OneAtATime(steps)
    ensures NeverReplaces(steps) && NeverOrphans(steps)
  {
    hide NoOrphan, Enabled, Next;
    forall k: nat | k < |steps| ensures After(steps[..k]).Some? && !Replaces(After(steps[..k]).value, steps[k]) {
      StaysNothingToReplace(steps, k);
      PrefixesArePossible(steps, k);
      NothingReplaced(After(steps[..k]).value, steps[k]);
    }
    LeaksExactly(steps);
  }

  lemma NothingReplaced(s: State, step: Step)
    requires NothingToReplace(s) && Enabled(s, step)
    ensures !Replaces(s, step)
  {
  }

  // --------------------------------------------------------------- two concrete runs

  lemma OneMoreStep(steps: seq<Step>, s: State, step: Step)
    requires After(steps) == Some(s) && Enabled(s, step)
    ensures After(steps + [step]) == Some(Next(s, step))
  {
    assert (steps + [step])[..|steps|] == steps;
  }

  /** The state after four steps, from the states in between. */
  lemma AfterFour(steps: seq<Step>, s1: State, s2: State, s3: State)
    requires |steps| == 4
    requires Enabled(INITIAL, steps[0]) && s1 == Next(INITIAL, steps[0])
    requires Enabled(s1, steps[1]) && s2 == Next(s1, steps[1])
    requires Enabled(s2, steps[2]) && s3 == Next(s2, steps[2]) && Enabled(s3, steps[3])
    ensures After(steps) == Some(Next(s3, steps[3]))
  {
    EmptyRun();
    hide After, Enabled, Next;
    OneMoreStep([], INITIAL, steps[0]);
    assert steps[..1] == [] + [steps[0]];
    OneMoreStep(steps[..1], s1, steps[1]);
    assert steps[..2] == steps[..1] + [steps[1]];
    OneMoreStep(steps[..2], s2, steps[2]);
    assert steps[..3] == steps[..2] + [steps[2]];
    OneMoreStep(steps[..3], s3, steps[3]);
    assert steps == steps[..3] + [steps[3]];
  }

  lemma EmptyRun()
    ensures After([]) == Some(INITIAL)
  {
  }

  /** Two subscribers arriving while the first waits for its token each open a socket; the
      second replaces the first, which stays open with nobody left to close it. */
  lemma TwoSuspendedConnectsLeakSocket()
    ensures var s := After([AddSubscriber, AddSubscriber, Resume(true, true), OnOpen(0), Resume(true, true)]);
      && s.Some? && s.value.socket == Some(2) && s.value.status == Open
      && s.value.sockets == map[0 := OPEN, 2 := CONNECTING]
  {
    hide After;
    var s1 := Next(INITIAL, AddSubscriber);
    var s2 := Next(s1, AddSubscriber);
    var s3 := Next(s2, Resume(true, true));
    var run := [AddSubscriber, AddSubscriber, Resume(true, true), OnOpen(0)];
    AfterFour(run, s1, s2, s3);
    OneMoreStep(run, Next(s3, OnOpen(0)), Resume(true, true));
    assert run + [Resume(true, true)]
        == [AddSubscriber, AddSubscriber, Resume(true, true), OnOpen(0), Resume(true, true)];
    assert Next(Next(s3, OnOpen(0)), Resume(true, true)).sockets == map[0 := OPEN, 2 := CONNECTING];
  }

  /** A removal that no addition pairs, which the hook never makes, overwrites the identity
      of the deferred-close timer; the forgotten timer survives the next subscription. */
  lemma UnpairedRemovalLeaksTimer()
    ensures var run := [AddSubscriber, RemoveSubscriber, RemoveSubscriber, AddSubscriber];
      && !Paired(run) && After(run).Some?
      && After(run).value.subscribers == 1 && After(run).value.closes != {}
  {
    hide After, Paired;
    var s1 := Next(INITIAL, AddSubscriber);
    var s2 := Next(s1, RemoveSubscriber);
    var s3 := Next(s2, RemoveSubscriber);
    var run := [AddSubscriber, RemoveSubscriber, RemoveSubscriber, AddSubscriber];
    AfterFour(run, s1, s2, s3);
    PairedExactly(run);
    assert 0 in Next(s3, AddSubscriber).closes;
  }

  /** In a paired run a deferred close fires only while nobody subscribes. */
  lemma PairedClosesFireAlone(steps: seq<Step>, t: nat)
    requires After(steps).Some? && Paired(steps) && Enabled(After(steps).value, CloseFires(t))
    ensures After(steps).value.subscribers == 0
    ensures var n := Next(After(steps).value, CloseFires(t));
            n.status.Closed? && n.socket.None? && n.closes == {}
  {
    EveryRunKeepsInv(steps);
    PairedExactly(steps);
  }
}
