/** The detection consumer: poll, up to `maxAttempts` processing attempts, a dead-letter
    write if none succeeds, then a commit of the offset; restarts resume at the committed
    offset. Nobody looks at whether a dead letter is delivered: the flush may time out, with
    the record still queued and delivered or dropped later, or return in time because the
    delivery has failed; a restart loses the queue. Every await and every broker call is a
    step of its own, so a crash can fall between any two. */
module DetectionConsumer {
  import opened Collections
  import opened Wrappers

  /** `parses[o]` says whether the message at offset o is valid JSON. */
  datatype Topic = Topic(parses: seq<bool>, maxAttempts: int)

  datatype Phase =
    | Polling
    | Attempting(offset: nat, tries: nat)
    | Processed(offset: nat)
    | Failed(offset: nat)
    | DeadLettered(offset: nat)
    | Stopped

  /** Counts per offset: transactions committed for it; dead letters delivered to their
      topic, still in the producer's queue, and dropped by it; and, among the committed
      transactions, those whose commit raised all the same. */
  datatype State = State(
    committed: nat, position: nat, phase: Phase,
    applied: multiset<nat>, dlq: multiset<nat>, queued: multiset<nat>, dropped: multiset<nat>,
    unacked: multiset<nat>)

  datatype Step =
    | Poll
    | AttemptSucceeds
    | AttemptFails
    | AttemptUnacked
    | DlqDelivered
    | DlqTimesOut
    | DlqDropped
    | CommitSucceeds
    | CommitUnacked
    | DeliveredLate(offset: nat)
    | DroppedLate(offset: nat)
    | Stop
    | Restart

  const INITIAL := State(0, 0, Polling, multiset{}, multiset{}, multiset{}, multiset{}, multiset{})

  predicate Enabled(c: Topic, s: State, step: Step) {
    match step
    case Poll => s.phase.Polling? && s.position < |c.parses|
    case AttemptSucceeds => s.phase.Attempting?
    case AttemptFails => s.phase.Attempting?
    case AttemptUnacked => s.phase.Attempting?
    case DlqDelivered => s.phase.Failed?
    case DlqTimesOut => s.phase.Failed?
    case DlqDropped => s.phase.Failed?
    case CommitSucceeds => s.phase.Processed? || s.phase.DeadLettered?
    case CommitUnacked => s.phase.Processed? || s.phase.DeadLettered?
    case DeliveredLate(o) => o in s.queued
    case DroppedLate(o) => o in s.queued
    case Stop => true
    case Restart => s.phase.Stopped?
  }

  /** The attempt loop: another try, or giving up once all are used. */
  function TryFrom(c: Topic, offset: nat, tries: nat): Phase {
    if tries < c.maxAttempts then Attempting(offset, tries) else Failed(offset)
  }

  /** The same counts, with n more for o. */
  function Plus(m: multiset<nat>, o: nat, n: nat): multiset<nat> { m[o := m[o] + n] }

  function Next(c: Topic, s: State, step: Step): State
    requires Enabled(c, s, step)
  {
    match step
    case Poll =>
      var o := s.position;
      s.(position := o + 1, phase := if c.parses[o] then TryFrom(c, o, 0) else Failed(o))
    case AttemptSucceeds =>
      s.(applied := Plus(s.applied, s.phase.offset, 1), phase := Processed(s.phase.offset))
    case AttemptFails =>
      s.(phase := TryFrom(c, s.phase.offset, s.phase.tries + 1))
    case AttemptUnacked =>
      var o := s.phase.offset;
      s.(applied := Plus(s.applied, o, 1), unacked := Plus(s.unacked, o, 1), phase := TryFrom(c, o, s.phase.tries + 1))
    case DlqDelivered =>
      s.(dlq := Plus(s.dlq, s.phase.offset, 1), phase := DeadLettered(s.phase.offset))
    case DlqTimesOut =>
      s.(queued := Plus(s.queued, s.phase.offset, 1), phase := DeadLettered(s.phase.offset))
    case DlqDropped =>
      s.(dropped := Plus(s.dropped, s.phase.offset, 1), phase := DeadLettered(s.phase.offset))
    case CommitSucceeds => s.(committed := s.phase.offset + 1, phase := Polling)
    case CommitUnacked => s.(committed := s.phase.offset + 1, phase := Stopped)
    case DeliveredLate(o) => s.(dlq := Plus(s.dlq, o, 1), queued := s.queued - multiset{o})
    case DroppedLate(o) => s.(dropped := Plus(s.dropped, o, 1), queued := s.queued - multiset{o})
    case Stop => s.(phase := Stopped)
    case Restart =>
      s.(position := s.committed, phase := Polling, dropped := s.dropped + s.queued, queued := multiset{})
  }

  /** The state after a run, if every step of it was possible. */
  function After(c: Topic, steps: seq<Step>): Option<State> {
    if steps == [] then Some(INITIAL) else
      var n := |steps| - 1;
      var s := After(c, steps[..n]);
      if s.Some? && Enabled(c, s.value, steps[n]) then Some(Next(c, s.value, steps[n])) else None
  }

  // -------------------------------------------------------------------- coverage

  /** Applied, dead-lettered, or at least handed to the dead-letter producer. */
  predicate Handled(s: State, o: nat) {
    o in s.applied || o in s.dlq || o in s.queued || o in s.dropped
  }

  /** Dead letters produced for o, wherever they ended. */
  function Letters(s: State, o: nat): nat { s.dlq[o] + Undelivered(s, o) }

  /** Dead letters for o that did not reach their topic, or not yet. */
  function Undelivered(s: State, o: nat): nat { s.queued[o] + s.dropped[o] }

  function Working(phase: Phase): Option<nat> {
    match phase
    case Attempting(o, _) => Some(o)
    case Processed(o) => Some(o)
    case Failed(o) => Some(o)
    case DeadLettered(o) => Some(o)
    case _ => None
  }

  ghost predicate Covered(c: Topic, s: State) {
    && (forall o: nat :: o < s.committed ==> Handled(s, o))
    && (s.phase.Polling? ==> s.position == s.committed)
    && (Working(s.phase).Some? ==> Working(s.phase).value == s.committed && s.position == s.committed + 1)
    && (s.phase.Processed? ==> s.phase.offset in s.applied)
    && (s.phase.DeadLettered? ==> Letters(s, s.phase.offset) > 0)
    && (forall o: nat :: o in s.unacked ==> o in s.applied)
  }

  lemma StepKeepsCovered(c: Topic, s: State, step: Step)
    requires Covered(c, s) && Enabled(c, s, step)
    ensures Covered(c, Next(c, s, step)) && s.committed <= Next(c, s, step).committed
  {
    var n := Next(c, s, step);
    forall o: nat | o < n.committed ensures Handled(n, o) {
      assert o < s.committed ==> Handled(s, o);
    }
  }

  /** NO MESSAGE IS PASSED OVER. Over every run, crashes at any point and restarts
      included, each offset below the committed one has been applied by a committed
      transaction, or a dead letter was produced for it. */
  lemma {:induction false} EveryRunIsCovered(c: Topic, steps: seq<Step>)
    requires After(c, steps).Some?
    ensures Covered(c, After(c, steps).value)
  {
    hide Covered, Enabled, Next;
    if steps == [] {
      NothingToCover(c);
    } else {
      var n := |steps| - 1;
      EveryRunIsCovered(c, steps[..n]);
      StepKeepsCovered(c, After(c, steps[..n]).value, steps[n]);
    }
  }

  lemma NothingToCover(c: Topic)
    ensures Covered(c, INITIAL)
  {
  }

  // ------------------------------------------------------------ what a message ends as

  function Total(s: State, o: nat): nat { s.applied[o] + Letters(s, o) }

  /** The message at o has its outcome but not yet its commit. */
  predicate Settled(phase: Phase, o: nat) { phase == Processed(o) || phase == DeadLettered(o) }

  /** How often the run stopped between an outcome of o and its commit, so that o is done
      again. */
  function Redone(c: Topic, steps: seq<Step>, o: nat): nat {
    if steps == [] then 0 else
      var n := |steps| - 1;
      var s := After(c, steps[..n]);
      Redone(c, steps[..n], o) + if s.Some? && steps[n].Stop? && Settled(s.value.phase, o) then 1 else 0
  }

  /** This step is the outcome of o. */
  predicate Settles(s: State, step: Step, o: nat) {
    && (step.AttemptSucceeds? || step.DlqDelivered? || step.DlqTimesOut? || step.DlqDropped?)
    && Working(s.phase) == Some(o)
  }

  lemma StepTotals(c: Topic, s: State, step: Step, o: nat)
    requires Enabled(c, s, step)
    ensures var n := Next(c, s, step);
      Total(n, o) + s.unacked[o] == Total(s, o) + n.unacked[o] + if Settles(s, step, o) then 1 else 0
  {
  }

  /** o is below the committed offset, or has its outcome. */
  predicate Past(s: State, o: nat) { o < s.committed || Settled(s.phase, o) }

  lemma StepPasses(c: Topic, s: State, step: Step, o: nat)
    requires Enabled(c, s, step) && (Working(s.phase).Some? ==> Working(s.phase).value == s.committed)
    ensures var n := Next(c, s, step);
      (if Past(s, o) then 1 else 0) + (if Settles(s, step, o) then 1 else 0)
      == (if Past(n, o) then 1 else 0) + if step.Stop? && Settled(s.phase, o) then 1 else 0
  {
    hide Plus;
  }

  lemma {:induction false} OutcomesSoFar(c: Topic, steps: seq<Step>, o: nat)
    requires After(c, steps).Some?
    ensures var s := After(c, steps).value;
      Total(s, o) == s.unacked[o] + Redone(c, steps, o) + if Past(s, o) then 1 else 0
  {
    hide Enabled, Next, Total, Settled, Past, Settles, Handled;
    if steps == [] {
      NoOutcomes(o);
    } else {
      var n := |steps| - 1;
      OutcomesSoFar(c, steps[..n], o);
      EveryRunIsCovered(c, steps[..n]);
      StepTotals(c, After(c, steps[..n]).value, steps[n], o);
      StepPasses(c, After(c, steps[..n]).value, steps[n], o);
    }
  }

  lemma NoOutcomes(o: nat)
    ensures Total(INITIAL, o) == INITIAL.unacked[o] == 0 && !Past(INITIAL, o)
  {
  }

  /** CONSERVATION. In every run, for every offset below the committed one: committed
      transactions + dead letters = 1 + commits that took effect but raised + stops between
      an outcome and its commit. */
  lemma OutcomesAreConserved(c: Topic, steps: seq<Step>, o: nat)
    requires After(c, steps).Some? && o < After(c, steps).value.committed
    ensures Total(After(c, steps).value, o) == 1 + After(c, steps).value.unacked[o] + Redone(c, steps, o)
  {
    hide After, Redone, Total;
    OutcomesSoFar(c, steps, o);
  }

  /** EXACTLY ONCE. In every run a committed message has one outcome, applied once or
      dead-lettered once and not both, if and only if no commit of its transaction raised
      after taking effect and no stop came between its outcome and its commit. */
  lemma ExactlyOnce(c: Topic, steps: seq<Step>, o: nat)
    requires After(c, steps).Some? && o < After(c, steps).value.committed
    ensures var s := After(c, steps).value;
      (s.applied[o] == 1 && Letters(s, o) == 0) || (s.applied[o] == 0 && Letters(s, o) == 1)
      <==> o !in s.unacked && Redone(c, steps, o) == 0
  {
    hide After, Redone;
    OutcomesAreConserved(c, steps, o);
  }

  /** WHAT IS LOST. In every run a committed message is neither applied nor in the
      dead-letter topic if and only if all of its outcomes are dead letters that were not
      delivered. */
  lemma LostExactlyUndelivered(c: Topic, steps: seq<Step>, o: nat)
    requires After(c, steps).Some? && o < After(c, steps).value.committed
    ensures var s := After(c, steps).value;
      o !in s.applied && o !in s.dlq <==> Undelivered(s, o) == 1 + s.unacked[o] + Redone(c, steps, o)
  {
    hide After, Redone;
    OutcomesAreConserved(c, steps, o);
  }

  /** Without undelivered dead letters nothing below the committed offset is lost. */
  lemma NoLossWhenDelivered(c: Topic, steps: seq<Step>)
    requires After(c, steps).Some?
    ensures var s := After(c, steps).value;
      s.queued == s.dropped == multiset{} ==>
        forall o: nat :: o < s.committed ==> o in s.applied || o in s.dlq
  {
    EveryRunIsCovered(c, steps);
    var s := After(c, steps).value;
    hide After;
    if s.queued == s.dropped == multiset{} {
      forall o: nat | o < s.committed ensures o in s.applied || o in s.dlq { assert Handled(s, o); }
    }
  }

  lemma {:induction false} NothingUndelivered(c: Topic, steps: seq<Step>)
    requires After(c, steps).Some? && DlqTimesOut !in steps && DlqDropped !in steps
    ensures After(c, steps).value.queued == After(c, steps).value.dropped == multiset{}
  {
    if steps != [] {
      var n := |steps| - 1;
      assert steps[n] in steps && forall x :: x in steps[..n] ==> x in steps;
      NothingUndelivered(c, steps[..n]);
    }
  }

  /** So nothing is lost in runs in which every flush delivers its dead letter. */
  lemma NoLossWithoutFailures(c: Topic, steps: seq<Step>)
    requires After(c, steps).Some? && DlqTimesOut !in steps && DlqDropped !in steps
    ensures var s := After(c, steps).value; forall o: nat :: o < s.committed ==> o in s.applied || o in s.dlq
  {
    NothingUndelivered(c, steps);
    NoLossWhenDelivered(c, steps);
  }

  lemma {:induction false} UnackedIsApplied(c: Topic, steps: seq<Step>, o: nat)
    requires After(c, steps).Some?
    ensures After(c, steps).value.unacked[o] <= After(c, steps).value.applied[o]
  {
    if steps != [] { UnackedIsApplied(c, steps[..|steps| - 1], o); }
  }

  /** Nothing committed is done again before a restart. */
  lemma {:induction false} NothingRedoneInSession(c: Topic, steps: seq<Step>, o: nat)
    requires After(c, steps).Some? && Restart !in steps
    ensures Redone(c, steps, o) > 0 ==> After(c, steps).value.phase.Stopped? && After(c, steps).value.committed <= o
  {
    hide Covered;
    if steps != [] {
      var n := |steps| - 1;
      assert steps[n] in steps && forall x :: x in steps[..n] ==> x in steps;
      hide Enabled, Next, Settled;
      NothingRedoneInSession(c, steps[..n], o);
      EveryRunIsCovered(c, steps[..n]);
      StopStays(c, After(c, steps[..n]).value, steps[n], o);
    }
  }

  lemma StopStays(c: Topic, s: State, step: Step, o: nat)
    requires Covered(c, s) && Enabled(c, s, step) && !step.Restart?
    ensures s.phase.Stopped? ==> Next(c, s, step).phase.Stopped? && Next(c, s, step).committed == s.committed
    ensures step.Stop? && Settled(s.phase, o) ==>
      Next(c, s, step).phase.Stopped? && Next(c, s, step).committed == o
  {
    hide Plus, Handled;
  }

  /** Within a session, then, a committed message is lost exactly if its dead letter is
      undelivered and no attempt at it committed behind an exception, and has one outcome
      exactly if none did. */
  lemma WithinSession(c: Topic, steps: seq<Step>, o: nat)
    requires After(c, steps).Some? && Restart !in steps && o < After(c, steps).value.committed
    ensures var s := After(c, steps).value;
      && Total(s, o) == 1 + s.unacked[o]
      && (o !in s.applied && o !in s.dlq <==> Undelivered(s, o) > 0 && o !in s.unacked)
  {
    hide After, Redone;
    NothingRedoneInSession(c, steps, o);
    OutcomesAreConserved(c, steps, o);
    UnackedIsApplied(c, steps, o);
  }

  // ---------------------------------------------------------------- three concrete runs

  lemma OneMoreStep(c: Topic, steps: seq<Step>, s: State, step: Step)
    requires After(c, steps) == Some(s) && Enabled(c, s, step)
    ensures After(c, steps + [step]) == Some(Next(c, s, step))
  {
    assert (steps + [step])[..|steps|] == steps;
  }

  /** The state after three steps, from the states in between. */
  lemma AfterThree(c: Topic, steps: seq<Step>, s1: State, s2: State)
    requires |steps| == 3
    requires Enabled(c, INITIAL, steps[0]) && s1 == Next(c, INITIAL, steps[0])
    requires Enabled(c, s1, steps[1]) && s2 == Next(c, s1, steps[1]) && Enabled(c, s2, steps[2])
    ensures After(c, steps) == Some(Next(c, s2, steps[2]))
  {
    EmptyRun(c);
    hide After, Enabled, Next;
    OneMoreStep(c, [], INITIAL, steps[0]);
    assert steps[..1] == [] + [steps[0]];
    OneMoreStep(c, steps[..1], s1, steps[1]);
    assert steps[..2] == steps[..1] + [steps[1]];
    OneMoreStep(c, steps[..2], s2, steps[2]);
    assert steps == steps[..2] + [steps[2]];
  }

  lemma EmptyRun(c: Topic)
    ensures After(c, []) == Some(INITIAL)
  {
  }

  /** A dead letter that is not delivered is a lost message: nobody looks, the offset is
      committed, and neither the tables nor the dead-letter topic have it; whether the
      flush timed out or returned because the delivery had failed. */
  lemma UndeliveredLetterLosesMessage(drop: bool)
    ensures var c := Topic([false], 3);
            var s := After(c, [Poll, if drop then DlqDropped else DlqTimesOut, CommitSucceeds]);
            s.Some? && s.value.committed == 1 && 0 !in s.value.applied && 0 !in s.value.dlq
  {
    hide After;
    var c := Topic([false], 3);
    var dead := if drop then DlqDropped else DlqTimesOut;
    var s1 := Next(c, INITIAL, Poll);
    AfterThree(c, [Poll, dead, CommitSucceeds], s1, Next(c, s1, dead));
  }

  /** The consumer at offset 0 after n transactions for it. */
  function AfterCrash(n: nat): State {
    State(0, 0, Polling, Plus(multiset{}, 0, n), multiset{}, multiset{}, multiset{}, multiset{})
  }

  const ONE_MESSAGE := Topic([true], 3)

  lemma FirstTry()
    ensures After(ONE_MESSAGE, [Poll, AttemptSucceeds, Stop, Restart]) == Some(AfterCrash(1))
  {
    hide After;
    var c := ONE_MESSAGE;
    var run := [Poll, AttemptSucceeds, Stop];
    var s1 := Next(c, INITIAL, Poll);
    var s2 := Next(c, s1, AttemptSucceeds);
    AfterThree(c, run, s1, s2);
    OneMoreStep(c, run, Next(c, s2, Stop), Restart);
    var none: multiset<nat> := multiset{};
    assert none + none == none;
    assert run + [Restart] == [Poll, AttemptSucceeds, Stop, Restart];
  }

  /** A crash between the two commits applies a message twice, with every commit
      acknowledged. */
  lemma CrashAppliesTwice()
    ensures var s := After(ONE_MESSAGE, [Poll, AttemptSucceeds, Stop, Restart, Poll, AttemptSucceeds, CommitSucceeds]);
      s.Some? && s.value.committed == 1 && s.value.applied[0] == 2 && s.value.unacked == multiset{}
  {
    hide After;
    var c := ONE_MESSAGE;
    var run := [Poll, AttemptSucceeds, Stop, Restart];
    FirstTry();
    var s4 := AfterCrash(1);
    OneMoreStep(c, run, s4, Poll);
    var s5 := Next(c, s4, Poll);
    OneMoreStep(c, run + [Poll], s5, AttemptSucceeds);
    OneMoreStep(c, run + [Poll] + [AttemptSucceeds], Next(c, s5, AttemptSucceeds), CommitSucceeds);
    assert run + [Poll] + [AttemptSucceeds] + [CommitSucceeds]
        == [Poll, AttemptSucceeds, Stop, Restart, Poll, AttemptSucceeds, CommitSucceeds];
  }

  // -------------------------------------------------------------------- the class

  datatype Attempt = Succeeds | Raises | RaisesAfterCommit

  /** What becomes of a dead letter by the time its flush returns. */
  datatype LetterReply = ProduceRaises | Delivered | TimesOut | DeliveryFails

  /** What one poll returns and what the world answers while its message is handled. */
  datatype PollReply =
    | Nothing
    | EndOfPartition
    | FatalError
    | Message(attempts: seq<Attempt>, letter: LetterReply, commitWorks: bool, commitTakesEffect: bool)

  // What the consumer does with a script of answers, as steps.

  function OutcomeOf(attempts: seq<Attempt>, attempt: nat): Attempt {
    if attempt < |attempts| then attempts[attempt] else Raises
  }

  function AttemptStep(outcome: Attempt): Step {
    match outcome
    case Succeeds => AttemptSucceeds
    case Raises => AttemptFails
    case RaisesAfterCommit => AttemptUnacked
  }

  /** How many attempts the topic's consumer makes at most. */
  function Bound(c: Topic): nat { if c.maxAttempts < 0 then 0 else c.maxAttempts }

  /** The first of these attempts that succeeds, or the bound if none below it does. */
  function FirstSuccess(attempts: seq<Attempt>, from: nat, bound: nat): (k: nat)
    requires from <= bound
    ensures from <= k <= bound
    ensures forall j :: from <= j < k ==> !OutcomeOf(attempts, j).Succeeds?
    ensures k < bound ==> OutcomeOf(attempts, k).Succeeds?
    decreases bound - from
  {
    if from == bound || OutcomeOf(attempts, from).Succeeds? then from else FirstSuccess(attempts, from + 1, bound)
  }

  /** How many of the first k attempts commit their transaction and raise all the same. */
  function Behind(attempts: seq<Attempt>, k: nat): nat {
    |set j: nat | j < k && OutcomeOf(attempts, j).RaisesAfterCommit?|
  }

  lemma BehindGrows(attempts: seq<Attempt>, k: nat)
    ensures Behind(attempts, k + 1)
      == Behind(attempts, k) + if OutcomeOf(attempts, k).RaisesAfterCommit? then 1 else 0
    ensures Behind(attempts, 0) == 0
  {
    var before := set j: nat | j < k && OutcomeOf(attempts, j).RaisesAfterCommit?;
    var after := set j: nat | j < k + 1 && OutcomeOf(attempts, j).RaisesAfterCommit?;
    assert after == before + if OutcomeOf(attempts, k).RaisesAfterCommit? then {k} else {};
    assert (set j: nat | j < 0 && OutcomeOf(attempts, j).RaisesAfterCommit?) == {};
  }

  lemma PlusNothing(m: multiset<nat>, o: nat)
    ensures Plus(m, o, 0) == m
  {
  }

  /** How often the transaction of a message is committed by its attempts. */
  function TimesApplied(attempts: seq<Attempt>, bound: nat): nat {
    var k := FirstSuccess(attempts, 0, bound);
    Behind(attempts, k) + if k < bound then 1 else 0
  }

  predicate SucceedsWithin(attempts: seq<Attempt>, bound: nat) {
    exists k: nat :: k < bound && OutcomeOf(attempts, k).Succeeds?
  }

  /** Where the attempt loop stands: no attempt before this one succeeded, this one did if
      the message is processed, and the commits so far are counted. */
  ghost predicate Tried(
      c: Topic, o: nat, attempts: seq<Attempt>, attempt: nat, processed: bool,
      before: multiset<nat>, applied: multiset<nat>)
  {
    && attempt <= Bound(c)
    && (forall j :: 0 <= j < attempt ==> !OutcomeOf(attempts, j).Succeeds?)
    && (processed ==> attempt < Bound(c) && OutcomeOf(attempts, attempt).Succeeds?)
    && applied == Plus(before, o, Behind(attempts, attempt) + if processed then 1 else 0)
  }

  lemma NothingTried(c: Topic, o: nat, attempts: seq<Attempt>, applied: multiset<nat>)
    ensures Tried(c, o, attempts, 0, false, applied, applied)
  {
    BehindGrows(attempts, 0);
  }

  lemma OneMoreTried(
      c: Topic, o: nat, attempts: seq<Attempt>, attempt: nat, before: multiset<nat>, applied: multiset<nat>)
    requires Tried(c, o, attempts, attempt, false, before, applied) && attempt < c.maxAttempts
    ensures var outcome := OutcomeOf(attempts, attempt);
            var now := Plus(applied, o, if outcome.Raises? then 0 else 1);
            if outcome.Succeeds? then Tried(c, o, attempts, attempt, true, before, now)
            else Tried(c, o, attempts, attempt + 1, false, before, now)
  {
    BehindGrows(attempts, attempt);
    hide Behind, OutcomeOf;
  }

  lemma AllTried(
      c: Topic, o: nat, attempts: seq<Attempt>, attempt: nat, processed: bool,
      before: multiset<nat>, applied: multiset<nat>)
    requires Tried(c, o, attempts, attempt, processed, before, applied) && (processed || attempt >= c.maxAttempts)
    ensures processed <==> SucceedsWithin(attempts, Bound(c))
    ensures applied == Plus(before, o, TimesApplied(attempts, Bound(c)))
  {
    hide Behind, OutcomeOf;
    assert attempt == FirstSuccess(attempts, 0, Bound(c));
  }

  /** An exception has left the polling loop. */
  predicate Ends(steps: seq<Step>) { Stop in steps || CommitUnacked in steps }

  function AttemptSteps(attempts: seq<Attempt>, attempt: nat, maxAttempts: int): (r: seq<Step>)
    ensures Restart !in r && !Ends(r)
    decreases maxAttempts - attempt
  {
    if attempt >= maxAttempts then [] else
      var outcome := OutcomeOf(attempts, attempt);
      [AttemptStep(outcome)] + if outcome.Succeeds? then [] else AttemptSteps(attempts, attempt + 1, maxAttempts)
  }

  function DlqStep(msg: PollReply): Step
    requires msg.Message?
  {
    match msg.letter
    case ProduceRaises => Stop
    case Delivered => DlqDelivered
    case TimesOut => DlqTimesOut
    case DeliveryFails => DlqDropped
  }

  function CommitStep(msg: PollReply): Step
    requires msg.Message?
  {
    if msg.commitWorks then CommitSucceeds else if msg.commitTakesEffect then CommitUnacked else Stop
  }

  function TrySteps(msg: PollReply, parses: bool, maxAttempts: int): (r: seq<Step>)
    requires msg.Message?
    ensures Restart !in r && !Ends(r)
  {
    [Poll] + if parses then AttemptSteps(msg.attempts, 0, maxAttempts) else []
  }

  function SettleSteps(msg: PollReply, processed: bool): (r: seq<Step>)
    requires msg.Message?
    ensures Restart !in r
    ensures Ends(r) <==> (!processed && msg.letter.ProduceRaises?) || !msg.commitWorks
  {
    if processed then [CommitStep(msg)]
    else if msg.letter.ProduceRaises? then [DlqStep(msg)]
    else [DlqStep(msg), CommitStep(msg)]
  }

  function MessageSteps(msg: PollReply, parses: bool, maxAttempts: int): (r: seq<Step>)
    requires msg.Message?
    ensures Restart !in r
  {
    var tries := TrySteps(msg, parses, maxAttempts);
    tries + SettleSteps(msg, AttemptSucceeds in tries)
  }

  /** What one poll makes the loop do, with the consumer at this position. */
  function TurnSteps(c: Topic, position: nat, msg: PollReply): (r: seq<Step>)
    ensures Restart !in r
  {
    match msg
    case FatalError => [Stop]
    case Message(_, _, _, _) =>
      if position < |c.parses| then MessageSteps(msg, c.parses[position], c.maxAttempts) else []
    case _ => []
  }

  function TurnPosition(c: Topic, position: nat, msg: PollReply): nat {
    if msg.Message? && position < |c.parses| then position + 1 else position
  }

  function Joined(a: seq<Step>, b: seq<Step>): seq<Step> { a + b }

  /** What the polls from the i-th on make it do. */
  function ListenSteps(c: Topic, position: nat, polls: seq<PollReply>, i: nat): (r: seq<Step>)
    ensures Restart !in r
    decreases |polls| - i
  {
    if i >= |polls| then [] else
      var steps := TurnSteps(c, position, polls[i]);
      Joined(steps, if Ends(steps) then [] else ListenSteps(c, TurnPosition(c, position, polls[i]), polls, i + 1))
  }

  lemma EndsJoin(a: seq<Step>, b: seq<Step>)
    ensures Ends(a + b) <==> Ends(a) || Ends(b)
  {
  }

  lemma NoStepsDoNotEnd()
    ensures !Ends([]) && Ends([Stop])
  {
  }

  lemma JoinedLaws(a: seq<Step>, b: seq<Step>, d: seq<Step>)
    ensures Joined(Joined(a, b), d) == Joined(a, Joined(b, d)) && Joined(a, []) == a
    ensures Ends(Joined(b, d)) <==> Ends(b) || Ends(d)
  {
  }

  // -------------------------------------------------------- what ends the polling loop

  lemma {:induction false} AttemptsSucceedExactly(attempts: seq<Attempt>, attempt: nat, maxAttempts: int)
    ensures AttemptSucceeds in AttemptSteps(attempts, attempt, maxAttempts)
      <==> exists k: nat :: attempt <= k < maxAttempts && OutcomeOf(attempts, k).Succeeds?
    decreases maxAttempts - attempt
  {
    hide OutcomeOf;
    if attempt < maxAttempts { AttemptsSucceedExactly(attempts, attempt + 1, maxAttempts); }
  }

  /** What ends it at this offset: an error of the broker, a dead letter the producer does
      not take, or a commit that raises. */
  predicate Breaks(c: Topic, o: nat, msg: PollReply) {
    msg.FatalError? ||
    (msg.Message? && o < |c.parses| &&
     (!msg.commitWorks ||
      (msg.letter.ProduceRaises? && !(c.parses[o] && SucceedsWithin(msg.attempts, Bound(c))))))
  }

  lemma TurnEndsExactly(c: Topic, o: nat, msg: PollReply)
    ensures Ends(TurnSteps(c, o, msg)) <==> Breaks(c, o, msg)
  {
    hide OutcomeOf, AttemptSteps;
    NoStepsDoNotEnd();
    if msg.Message? && o < |c.parses| {
      AttemptsSucceedExactly(msg.attempts, 0, c.maxAttempts);
      var tries := TrySteps(msg, c.parses[o], c.maxAttempts);
      EndsJoin(tries, SettleSteps(msg, AttemptSucceeds in tries));
    }
  }

  /** Where the consumer is after the first i polls, if none ended the loop. */
  function PositionAt(c: Topic, position: nat, polls: seq<PollReply>, i: nat): nat
    requires i <= |polls|
  {
    if i == 0 then position else TurnPosition(c, PositionAt(c, position, polls, i - 1), polls[i - 1])
  }

  lemma {:induction false} ListenEndsExactly(c: Topic, position: nat, polls: seq<PollReply>, i: nat)
    requires i <= |polls|
    ensures Ends(ListenSteps(c, PositionAt(c, position, polls, i), polls, i))
      <==> exists k: nat :: i <= k < |polls| && Breaks(c, PositionAt(c, position, polls, k), polls[k])
    decreases |polls| - i
  {
    hide Breaks, TurnSteps, Ends;
    NoStepsDoNotEnd();
    if i < |polls| {
      var o := PositionAt(c, position, polls, i);
      var steps := TurnSteps(c, o, polls[i]);
      TurnEndsExactly(c, o, polls[i]);
      ListenEndsExactly(c, position, polls, i + 1);
      assert PositionAt(c, position, polls, i + 1) == TurnPosition(c, o, polls[i]);
      EndsJoin(steps, if Ends(steps) then [] else ListenSteps(c, TurnPosition(c, o, polls[i]), polls, i + 1));
    }
  }

  class KafkaEventConsumer {
    const topic: Topic
    var committed: nat
    var position: nat
    var applied: multiset<nat>
    var dlq: multiset<nat>
    /** Dead letters in the producer's queue, and those it dropped. */
    var queued: multiset<nat>
    var dropped: multiset<nat>
    var running: bool
    ghost var unacked: multiset<nat>
    ghost var phase: Phase
    ghost var trace: seq<Step>

    ghost function View(): State
      reads `committed, `position, `phase, `applied, `dlq, `queued, `dropped, `unacked
    {
      State(committed, position, phase, applied, dlq, queued, dropped, unacked)
    }

    /** The fields are where some run of the step machine leads. */
    ghost predicate Valid()
      reads `committed, `position, `phase, `applied, `dlq, `queued, `dropped, `unacked, `trace
    {
      After(topic, trace) == Some(View())
    }

    constructor (topic: Topic)
      ensures Valid() && this.topic == topic && phase == Polling && trace == []
    {
      this.topic := topic;
      committed, position, running := 0, 0, false;
      applied, dlq, unacked := multiset{}, multiset{}, multiset{};
      queued, dropped := multiset{}, multiset{};
      phase, trace := Polling, [];
    }

    ghost method Record(s: State, step: Step)
      requires After(topic, trace) == Some(s) && Enabled(topic, s, step) && Next(topic, s, step) == View()
      modifies this`trace
      ensures Valid() && trace == old(trace) + [step]
    {
      trace := trace + [step];
      assert trace[..|trace| - 1] == old(trace);
    }

    /** One call of the processing callback. */
    method Attempt(o: nat, tries: nat, outcome: Attempt)
      requires Valid() && phase == Attempting(o, tries)
      modifies this`applied, this`unacked, this`phase, this`trace
      ensures Valid() && phase == if outcome.Succeeds? then Processed(o) else TryFrom(topic, o, tries + 1)
      ensures trace == old(trace) + [AttemptStep(outcome)]
      ensures applied == Plus(old(applied), o, if outcome.Raises? then 0 else 1)
    {
      hide After, TryFrom;
      ghost var s := View();
      if !outcome.Raises? {
        applied := Plus(applied, o, 1);
      }
      if outcome.RaisesAfterCommit? {
        unacked := Plus(unacked, o, 1);
      }
      phase := if outcome.Succeeds? then Processed(o) else TryFrom(topic, o, tries + 1);
      Record(s, AttemptStep(outcome));
    }

    /** Up to `maxAttempts` attempts; the first success ends the loop. The message is
        processed exactly if a permitted attempt succeeds, and applied once for that and
        once for every earlier commit behind an exception. */
    method Attempts(o: nat, attempts: seq<Attempt>) returns (processed: bool)
      requires Valid() && phase == TryFrom(topic, o, 0)
      modifies this`applied, this`unacked, this`phase, this`trace
      ensures Valid() && phase == if processed then Processed(o) else Failed(o)
      ensures processed <==> SucceedsWithin(attempts, Bound(topic))
      ensures applied == Plus(old(applied), o, TimesApplied(attempts, Bound(topic)))
      ensures trace == old(trace) + AttemptSteps(attempts, 0, topic.maxAttempts)
      ensures processed <==> AttemptSucceeds in AttemptSteps(attempts, 0, topic.maxAttempts)
    {
      hide Valid, Tried, TimesApplied, SucceedsWithin;
      processed := false;
      var attempt := 0;
      ghost var all := AttemptSteps(attempts, 0, topic.maxAttempts);
      ghost var left := all;
      NothingTried(topic, o, attempts, applied);
      while attempt < topic.maxAttempts && !processed
        invariant 0 <= attempt && Valid()
        invariant phase == if processed then Processed(o) else TryFrom(topic, o, attempt)
        invariant left == if processed then [] else AttemptSteps(attempts, attempt, topic.maxAttempts)
        invariant trace + left == old(trace) + all
        invariant AttemptSucceeds in all <==> processed || AttemptSucceeds in left
        invariant Tried(topic, o, attempts, attempt, processed, old(applied), applied)
        decreases topic.maxAttempts - attempt, !processed
      {
        var outcome := OutcomeOf(attempts, attempt);
        ghost var rest := if outcome.Succeeds? then [] else AttemptSteps(attempts, attempt + 1, topic.maxAttempts);
        assert left == [AttemptStep(outcome)] + rest;
        Associative(trace, [AttemptStep(outcome)], rest);
        OneMoreTried(topic, o, attempts, attempt, old(applied), applied);
        hide AttemptSteps, OutcomeOf, Plus;
        Attempt(o, attempt, outcome);
        processed := outcome.Succeeds?;
        attempt := if processed then attempt else attempt + 1;
        left := rest;
      }
      assert trace + [] == trace;
      AllTried(topic, o, attempts, attempt, processed, old(applied), applied);
    }

    /** Produce and flush; a dead letter that is not delivered is not noticed. */
    method SendToDlq(o: nat, msg: PollReply) returns (raised: bool)
      requires Valid() && phase == Failed(o) && msg.Message?
      modifies this`dlq, this`queued, this`dropped, this`phase, this`trace
      ensures Valid() && raised == msg.letter.ProduceRaises?
      ensures phase == if raised then Stopped else DeadLettered(o)
      ensures dlq == Plus(old(dlq), o, if msg.letter.Delivered? then 1 else 0)
      ensures queued == Plus(old(queued), o, if msg.letter.TimesOut? then 1 else 0)
      ensures dropped == Plus(old(dropped), o, if msg.letter.DeliveryFails? then 1 else 0)
      ensures trace == old(trace) + [DlqStep(msg)]
    {
      hide After, Plus, TryFrom;
      PlusNothing(dlq, o);
      PlusNothing(queued, o);
      PlusNothing(dropped, o);
      if msg.letter.ProduceRaises? {
        Fail();
        return true;
      }
      ghost var s := View();
      phase := DeadLettered(o);
      match msg.letter {
        case Delivered =>
          dlq := Plus(dlq, o, 1);
          Record(s, DlqDelivered);
        case TimesOut =>
          queued := Plus(queued, o, 1);
          Record(s, DlqTimesOut);
        case DeliveryFails =>
          dropped := Plus(dropped, o, 1);
          Record(s, DlqDropped);
      }
      raised := false;
    }

    /** The producer, on its own thread, gets a queued dead letter through or gives it up. */
    method QueuedLetterEnds(o: nat, delivered: bool)
      requires Valid() && o in queued
      modifies this`dlq, this`queued, this`dropped, this`trace
      ensures Valid() && trace == old(trace) + [if delivered then DeliveredLate(o) else DroppedLate(o)]
      ensures Letters(View(), o) == old(Letters(View(), o))
    {
      hide After;
      ghost var s := View();
      queued := queued - multiset{o};
      if delivered {
        dlq := Plus(dlq, o, 1);
        Record(s, DeliveredLate(o));
      } else {
        dropped := Plus(dropped, o, 1);
        Record(s, DroppedLate(o));
      }
    }

    method Commit(o: nat, msg: PollReply) returns (raised: bool)
      requires Valid() && (phase == Processed(o) || phase == DeadLettered(o)) && msg.Message?
      modifies this`committed, this`phase, this`trace
      ensures Valid() && raised == !msg.commitWorks
      ensures phase == if raised then Stopped else Polling
      ensures committed == if msg.commitWorks || msg.commitTakesEffect then o + 1 else old(committed)
      ensures trace == old(trace) + [CommitStep(msg)]
    {
      hide After;
      ghost var s := View();
      if msg.commitWorks {
        committed, phase := o + 1, Polling;
        Record(s, CommitSucceeds);
      } else if msg.commitTakesEffect {
        committed, phase := o + 1, Stopped;
        Record(s, CommitUnacked);
      } else {
        phase := Stopped;
        Record(s, Stop);
      }
      raised := !msg.commitWorks;
    }

    /** An exception, or an error of the broker, ends the loop. */
    ghost method Fail()
      requires Valid()
      modifies this`phase, this`trace
      ensures Valid() && phase == Stopped && trace == old(trace) + [Stop]
    {
      hide After;
      ghost var s := View();
      phase := Stopped;
      Record(s, Stop);
    }

    /** Takes the next message off the topic and tries to process it. */
    method Process(msg: PollReply) returns (processed: bool)
      requires Valid() && phase == Polling && msg.Message? && position < |topic.parses|
      modifies this`position, this`applied, this`unacked, this`phase, this`trace
      ensures Valid() && phase == if processed then Processed(old(position)) else Failed(old(position))
      ensures position == old(position) + 1
      ensures processed <==> topic.parses[old(position)] && SucceedsWithin(msg.attempts, Bound(topic))
      ensures applied == Plus(old(applied), old(position),
        if topic.parses[old(position)] then TimesApplied(msg.attempts, Bound(topic)) else 0)
      ensures var steps := TrySteps(msg, topic.parses[old(position)], topic.maxAttempts);
              trace == old(trace) + steps && processed == (AttemptSucceeds in steps)
    {
      hide After, AttemptSteps;
      ghost var s := View();
      var o := position;
      position := position + 1;
      processed := false;
      if topic.parses[o] {
        phase := TryFrom(topic, o, 0);
        Record(s, Poll);
        processed := Attempts(o, msg.attempts);
        Associative(old(trace), [Poll], AttemptSteps(msg.attempts, 0, topic.maxAttempts));
      } else {
        phase := Failed(o);
        Record(s, Poll);
        assert [Poll] + [] == [Poll];
      }
    }

    /** Commits the offset, after a dead-letter write for a message that failed. */
    method Settle(o: nat, msg: PollReply, processed: bool) returns (raised: bool)
      requires Valid() && msg.Message? && phase == if processed then Processed(o) else Failed(o)
      modifies this`committed, this`dlq, this`queued, this`dropped, this`phase, this`trace
      ensures Valid() && phase == if raised then Stopped else Polling
      ensures dlq == Plus(old(dlq), o, if !processed && msg.letter.Delivered? then 1 else 0)
      ensures queued == Plus(old(queued), o, if !processed && msg.letter.TimesOut? then 1 else 0)
      ensures dropped == Plus(old(dropped), o, if !processed && msg.letter.DeliveryFails? then 1 else 0)
      ensures committed == if (processed || !msg.letter.ProduceRaises?) && (msg.commitWorks || msg.commitTakesEffect)
                           then o + 1 else old(committed)
      ensures raised <==> (!processed && msg.letter.ProduceRaises?) || !msg.commitWorks
      ensures trace == old(trace) + SettleSteps(msg, processed) && raised == Ends(SettleSteps(msg, processed))
    {
      hide Valid, Ends;
      if !processed {
        raised := SendToDlq(o, msg);
        if raised {
          return;
        }
      }
      raised := Commit(o, msg);
      Associative(old(trace), [DlqStep(msg)], [CommitStep(msg)]);
      assert [DlqStep(msg)] + [CommitStep(msg)] == [DlqStep(msg), CommitStep(msg)];
    }

    /** One message, from its poll to its commit or to the exception that ends the loop. It
        is applied as often as its attempts commit; dead-lettered once, if the broker takes
        it, exactly when none of them succeeds; and committed unless the broker fails. */
    method Handle(msg: PollReply) returns (raised: bool)
      requires Valid() && phase == Polling && msg.Message? && position < |topic.parses|
      modifies this
      ensures Valid() && phase == if raised then Stopped else Polling
      ensures var o := old(position);
              var processed := topic.parses[o] && SucceedsWithin(msg.attempts, Bound(topic));
        && position == o + 1
        && applied == Plus(old(applied), o, if topic.parses[o] then TimesApplied(msg.attempts, Bound(topic)) else 0)
        && dlq == Plus(old(dlq), o, if !processed && msg.letter.Delivered? then 1 else 0)
        && queued == Plus(old(queued), o, if !processed && msg.letter.TimesOut? then 1 else 0)
        && dropped == Plus(old(dropped), o, if !processed && msg.letter.DeliveryFails? then 1 else 0)
        && committed == (if (processed || !msg.letter.ProduceRaises?) && (msg.commitWorks || msg.commitTakesEffect)
                         then o + 1 else old(committed))
        && (raised <==> (!processed && msg.letter.ProduceRaises?) || !msg.commitWorks)
      ensures var steps := MessageSteps(msg, topic.parses[old(position)], topic.maxAttempts);
              trace == old(trace) + steps && raised == Ends(steps)
    {
      hide Valid, Ends, TrySteps, SettleSteps;
      ghost var tries := TrySteps(msg, topic.parses[position], topic.maxAttempts);
      var o := position;
      var processed := Process(msg);
      raised := Settle(o, msg, processed);
      Associative(old(trace), tries, SettleSteps(msg, processed));
      EndsJoin(tries, SettleSteps(msg, processed));
    }

    lemma NothingIsPassedOver()
      requires Valid()
      ensures phase == Polling ==> position == committed
      ensures forall o: nat :: o < committed ==> Handled(View(), o)
    {
      EveryRunIsCovered(topic, trace);
    }

    /** One turn of the polling loop. */
    method Turn(msg: PollReply) returns (goOn: bool)
      requires Valid() && phase == Polling
      modifies this
      ensures Valid() && phase == if goOn then Polling else Stopped
      ensures position == TurnPosition(topic, old(position), msg)
      ensures var steps := TurnSteps(topic, old(position), msg);
              trace == Joined(old(trace), steps) && goOn == !Ends(steps)
    {
      hide Valid, Ends, MessageSteps;
      NoStepsDoNotEnd();
      assert trace + [] == trace;
      if msg.FatalError? {
        Fail();
        return false;
      }
      if msg.Message? && position < |topic.parses| {
        var raised := Handle(msg);
        return !raised;
      }
      goOn := true;
    }

    /** The polling loop over a finite script of poll results. */
    method Listen(polls: seq<PollReply>)
      requires Valid() && phase == Polling
      modifies this
      ensures Valid() && trace == Joined(old(trace), ListenSteps(topic, old(position), polls, 0))
      ensures phase == if Ends(ListenSteps(topic, old(position), polls, 0)) then Stopped else Polling
    {
      hide Valid, Ends, TurnSteps, TurnPosition, Joined;
      running := true;
      var i := 0;
      ghost var all := ListenSteps(topic, position, polls, 0);
      ghost var left := all;
      NoStepsDoNotEnd();
      while running && i < |polls|
        invariant 0 <= i <= |polls| && Valid() && phase == if running then Polling else Stopped
        invariant left == if running then ListenSteps(topic, position, polls, i) else []
        invariant Joined(trace, left) == Joined(old(trace), all)
        invariant Ends(all) <==> !running || Ends(left)
      {
        ghost var steps := TurnSteps(topic, position, polls[i]);
        ghost var onward := TurnPosition(topic, position, polls[i]);
        ghost var later := if Ends(steps) then [] else ListenSteps(topic, onward, polls, i + 1);
        assert left == Joined(steps, later);
        hide ListenSteps;
        JoinedLaws(trace, steps, later);
        var goOn := Turn(polls[i]);
        running, left, i := goOn, later, i + 1;
      }
      JoinedLaws(trace, [], []);
    }

    /** Listening takes exactly the steps the script of polls asks for; exactly an error of
        the broker, in a poll, a dead letter or a commit, ends it; and nothing below the
        committed offset was passed over. */
    method StartListening(polls: seq<PollReply>)
      requires Valid() && phase == Polling
      modifies this
      ensures Valid() && trace == Joined(old(trace), ListenSteps(topic, old(position), polls, 0))
      ensures var breaks := exists k: nat ::
                k < |polls| && Breaks(topic, PositionAt(topic, old(position), polls, k), polls[k]);
              phase == if breaks then Stopped else Polling
      ensures phase == Polling ==> position == committed
      ensures forall o: nat :: o < committed ==> Handled(View(), o)
    {
      hide Valid, View, Handled, Ends, ListenSteps, Breaks;
      ListenEndsExactly(topic, position, polls, 0);
      Listen(polls);
      NothingIsPassedOver();
    }
  }
}
