/** The notification service's loop. It has the shape of the detection consumer, with one
    difference: an exception is caught inside the polling loop, which then goes on with
    the next message without committing or dead-lettering the one that raised. */
module AlertConsumer {
  import opened Collections
  import opened Wrappers

  const MAX_FORWARDS := 3

  datatype Phase =
    | Polling
    | Forwarding(offset: nat, refused: nat)
    | Refused(offset: nat)
    | Done(offset: nat)
    | Stopped

  /** Offsets forwarded; those with a dead letter delivered to its topic, still in the
      producer's queue, and dropped by it; and those skipped by an exception. */
  datatype State = State(
    committed: nat, position: nat, phase: Phase,
    forwarded: set<nat>, dlq: set<nat>, queued: set<nat>, dropped: set<nat>, skipped: set<nat>)

  datatype Step =
    | Poll(parses: bool)
    | Accepted
    | NotAccepted
    | DlqDelivered
    | DlqTimesOut
    | DlqDropped
    | Commit
    | Exception
    | DeliveredLate(offset: nat)
    | DroppedLate(offset: nat)
    | Stop
    | Restart

  const INITIAL := State(0, 0, Polling, {}, {}, {}, {}, {})

  predicate Enabled(s: State, step: Step) {
    match step
    case Poll(_) => s.phase.Polling?
    case Accepted => s.phase.Forwarding?
    case NotAccepted => s.phase.Forwarding?
    case DlqDelivered => s.phase.Refused?
    case DlqTimesOut => s.phase.Refused?
    case DlqDropped => s.phase.Refused?
    case Commit => s.phase.Done?
    case Exception => s.phase.Forwarding? || s.phase.Refused? || s.phase.Done?
    case DeliveredLate(o) => o in s.queued
    case DroppedLate(o) => o in s.queued
    case Stop => true
    case Restart => s.phase.Stopped?
  }

  function TryFrom(offset: nat, refused: nat): Phase {
    if refused < MAX_FORWARDS then Forwarding(offset, refused) else Refused(offset)
  }

  function Next(s: State, step: Step): State
    requires Enabled(s, step)
  {
    match step
    case Poll(parses) =>
      s.(position := s.position + 1, phase := if parses then TryFrom(s.position, 0) else Refused(s.position))
    case Accepted => s.(forwarded := s.forwarded + {s.phase.offset}, phase := Done(s.phase.offset))
    case NotAccepted => s.(phase := TryFrom(s.phase.offset, s.phase.refused + 1))
    case DlqDelivered => s.(dlq := s.dlq + {s.phase.offset}, phase := Done(s.phase.offset))
    case DlqTimesOut => s.(queued := s.queued + {s.phase.offset}, phase := Done(s.phase.offset))
    case DlqDropped => s.(dropped := s.dropped + {s.phase.offset}, phase := Done(s.phase.offset))
    case Commit => s.(committed := s.phase.offset + 1, phase := Polling)
    case Exception =>
      s.(skipped := if s.phase.Done? then s.skipped else s.skipped + {s.phase.offset}, phase := Polling)
    case DeliveredLate(o) => s.(dlq := s.dlq + {o}, queued := s.queued - {o})
    case DroppedLate(o) => s.(dropped := s.dropped + {o}, queued := s.queued - {o})
    case Stop => s.(phase := Stopped)
    case Restart =>
      s.(position := s.committed, phase := Polling, dropped := s.dropped + s.queued, queued := {})
  }

  function After(steps: seq<Step>): Option<State> {
    if steps == [] then Some(INITIAL) else
      var n := |steps| - 1;
      var s := After(steps[..n]);
      if s.Some? && Enabled(s.value, steps[n]) then Some(Next(s.value, steps[n])) else None
  }

  /** Forwarded, or a dead letter was produced. */
  predicate Handled(s: State, o: nat) { o in s.forwarded || o in s.dlq || o in s.queued || o in s.dropped }

  predicate InHand(phase: Phase) { phase.Forwarding? || phase.Refused? || phase.Done? }

  ghost predicate Accounted(s: State) {
    && s.committed <= s.position
    && (InHand(s.phase) ==> s.phase.offset + 1 == s.position && s.committed <= s.phase.offset)
    && (s.phase.Done? ==> Handled(s, s.phase.offset))
    && (forall o: nat :: o < s.position && !(InHand(s.phase) && s.phase.offset == o) && !s.phase.Stopped? ==>
          Handled(s, o) || o in s.skipped)
    && (forall o: nat :: o < s.committed ==> Handled(s, o) || o in s.skipped)
  }

  /** Every offset below the committed one was handled or skipped by an exception. */
  lemma {:induction false} EveryRunIsAccounted(steps: seq<Step>)
    requires After(steps).Some?
    ensures Accounted(After(steps).value)
  {
    if steps != [] {
      var n := |steps| - 1;
      EveryRunIsAccounted(steps[..n]);
      StepKeepsAccounted(After(steps[..n]).value, steps[n]);
    }
  }

  lemma StepKeepsAccounted(s: State, step: Step)
    requires Accounted(s) && Enabled(s, step)
    ensures Accounted(Next(s, step))
  {
    var n := Next(s, step);
    forall o: nat | Handled(s, o) || o in s.skipped ensures Handled(n, o) || o in n.skipped {}
  }

  /** In one session an offset is not both: what raised is never looked at again. */
  ghost predicate Exclusive(s: State) {
    && (forall o: nat :: o in s.skipped ==> !Handled(s, o) && o < s.position)
    && (forall o: nat :: Handled(s, o) ==> o < s.position)
    && (InHand(s.phase) ==> s.phase.offset !in s.skipped && s.phase.offset + 1 == s.position)
    && (InHand(s.phase) && !s.phase.Done? ==> !Handled(s, s.phase.offset))
  }

  lemma StepKeepsExclusive(s: State, step: Step)
    requires Exclusive(s) && Enabled(s, step) && !step.Restart?
    ensures Exclusive(Next(s, step))
  {
    var n := Next(s, step);
    forall o: nat | Handled(n, o) && !Handled(s, o) ensures InHand(s.phase) && o == s.phase.offset {}
  }

  lemma {:induction false} SessionIsExclusive(steps: seq<Step>)
    requires After(steps).Some? && Restart !in steps
    ensures Exclusive(After(steps).value)
  {
    if steps != [] {
      var n := |steps| - 1;
      assert steps[n] in steps && forall x :: x in steps[..n] ==> x in steps;
      SessionIsExclusive(steps[..n]);
      StepKeepsExclusive(After(steps[..n]).value, steps[n]);
    }
  }

  /** WHEN COVERAGE HOLDS. In a session, everything below the committed offset was
      forwarded or dead-lettered if and only if no message below it raised before that:
      a raised message is made up for only as long as no later one is committed. */
  lemma {:induction false} CoveredExactlyWithoutSkips(steps: seq<Step>)
    requires After(steps).Some? && Restart !in steps
    ensures var s := After(steps).value;
      (forall o: nat :: o < s.committed ==> Handled(s, o)) <==> (forall o: nat :: o in s.skipped ==> s.committed <= o)
  {
    EveryRunIsAccounted(steps);
    SessionIsExclusive(steps);
    var s := After(steps).value;
    hide After;
    if forall o: nat :: o < s.committed ==> Handled(s, o) {
      forall o: nat | o in s.skipped ensures s.committed <= o { assert o < s.committed ==> Handled(s, o); }
    }
  }

  /** This commit of an offset passes over one below it that is not handled. */
  ghost predicate Overtakes(s: State, step: Step) {
    step.Commit? && s.phase.Done? && exists o: nat :: s.committed <= o < s.phase.offset && !Handled(s, o)
  }

  ghost predicate AllHandled(s: State) { forall o: nat :: o < s.committed ==> Handled(s, o) }

  lemma StepCoversExactly(s: State, step: Step)
    requires Accounted(s) && Enabled(s, step)
    ensures AllHandled(Next(s, step)) <==> AllHandled(s) && !Overtakes(s, step)
  {
    var n := Next(s, step);
    HandledMeanwhile(s, step);
    if step.Commit? {
      forall o: nat | AllHandled(n) && s.committed <= o < s.phase.offset ensures Handled(s, o) {
        assert o < n.committed;
      }
      forall o: nat | o < s.committed && AllHandled(n) ensures Handled(s, o) { assert o < n.committed; }
    }
  }

  /** A step handles no offset but the one in hand, and unhandles none. */
  lemma HandledMeanwhile(s: State, step: Step)
    requires Accounted(s) && Enabled(s, step)
    ensures forall o: nat :: o < s.committed || step.Commit? ==> (Handled(Next(s, step), o) <==> Handled(s, o))
    ensures !step.Commit? ==> Next(s, step).committed == s.committed
  {
  }

  ghost predicate NeverOvertakes(steps: seq<Step>)
    decreases |steps|
  {
    steps != [] ==>
      var n := |steps| - 1;
      NeverOvertakes(steps[..n]) && (After(steps[..n]).Some? ==> !Overtakes(After(steps[..n]).value, steps[n]))
  }

  /** WHEN COVERAGE HOLDS, IN EVERY RUN. Restarts included, everything below the committed
      offset was handled if and only if no commit of the run passed over an offset that was
      not. */
  lemma {:induction false} CoveredExactlyWithoutOvertaking(steps: seq<Step>)
    requires After(steps).Some?
    ensures AllHandled(After(steps).value) <==> NeverOvertakes(steps)
  {
    hide Enabled, Next, Overtakes, Accounted, Handled;
    if steps != [] {
      var n := |steps| - 1;
      CoveredExactlyWithoutOvertaking(steps[..n]);
      EveryRunIsAccounted(steps[..n]);
      StepCoversExactly(After(steps[..n]).value, steps[n]);
    }
  }

  /** One refused connection and the alert is gone once the next one is forwarded. */
  lemma ExceptionLosesAlert()
    ensures var s := After([Poll(true), Exception, Poll(true), Accepted, Commit]);
            s.Some? && s.value.committed == 2 && !Handled(s.value, 0)
  {
    var run := [Poll(true), Exception, Poll(true), Accepted, Commit];
    assert run[..4][..3] == run[..3] && run[..3][..2] == run[..2] && run[..2][..1] == run[..1] && run[..1][..0] == [];
    var none: set<nat> := {};
    assert none + {0} == {0} && none + {1} == {1};
    assert After(run[..1]) == Some(State(0, 1, Forwarding(0, 0), {}, {}, {}, {}, {}));
    assert After(run[..2]) == Some(State(0, 1, Polling, {}, {}, {}, {}, {0}));
    assert After(run[..3]) == Some(State(0, 2, Forwarding(1, 0), {}, {}, {}, {}, {0}));
    assert After(run[..4]) == Some(State(0, 2, Done(1), {1}, {}, {}, {}, {0}));
  }

  // -------------------------------------------------------------------- the class

  /** One response of the gateway: its status is 200, or another one, or the call raises. */
  datatype Reply = Ok | OtherStatus | Raises

  /** What becomes of a dead letter by the time its flush returns. */
  datatype LetterReply = ProduceRaises | Delivered | TimesOut | DeliveryFails

  /** What one poll returns and what the world answers while its message is handled.
      `committed` says whether its offset, if commit is called, is committed. */
  datatype PollReply =
    | Nothing
    | PollRaises
    | Cancelled
    | Message(parses: bool, replies: seq<Reply>, letter: LetterReply, committed: bool)

  function ReplyTo(replies: seq<Reply>, attempt: nat): Reply {
    if attempt < |replies| then replies[attempt] else OtherStatus
  }

  /** The first reply from this attempt on that is not another status is v. */
  ghost predicate Decides(replies: seq<Reply>, attempt: nat, v: Reply) {
    exists k: nat :: attempt <= k < 3 && ReplyTo(replies, k) == v
      && forall j: nat :: attempt <= j < k ==> ReplyTo(replies, j).OtherStatus?
  }

  function PostStep(reply: Reply): Step {
    match reply
    case Ok => Accepted
    case Raises => Exception
    case OtherStatus => NotAccepted
  }

  function ForwardSteps(replies: seq<Reply>, attempt: nat): (r: seq<Step>)
    ensures Restart !in r
    decreases MAX_FORWARDS - attempt
  {
    if attempt >= MAX_FORWARDS then [] else
      var reply := ReplyTo(replies, attempt);
      [PostStep(reply)] + if reply.OtherStatus? then ForwardSteps(replies, attempt + 1) else []
  }

  /** How three posts end: the first reply that is not another status decides. */
  function Verdict(replies: seq<Reply>, attempt: nat): (v: Reply)
    ensures v.OtherStatus? ==> forall k :: attempt <= k < MAX_FORWARDS ==> ReplyTo(replies, k).OtherStatus?
    ensures !v.OtherStatus? ==> Decides(replies, attempt, v)
    decreases MAX_FORWARDS - attempt
  {
    if attempt >= MAX_FORWARDS then OtherStatus
    else if ReplyTo(replies, attempt).OtherStatus? then Verdict(replies, attempt + 1)
    else ReplyTo(replies, attempt)
  }

  function CommitStep(msg: PollReply): Step
    requires msg.Message?
  {
    if msg.committed then Commit else Exception
  }

  function LetterStep(letter: LetterReply): Step
    requires !letter.ProduceRaises?
  {
    match letter
    case Delivered => DlqDelivered
    case TimesOut => DlqTimesOut
    case DeliveryFails => DlqDropped
  }

  function SettleSteps(msg: PollReply, verdict: Reply): (r: seq<Step>)
    requires msg.Message?
    ensures Restart !in r
  {
    match verdict
    case Ok => [CommitStep(msg)]
    case Raises => []
    case OtherStatus =>
      if msg.letter.ProduceRaises? then [Exception] else [LetterStep(msg.letter), CommitStep(msg)]
  }

  /** What one message makes the loop do. */
  function MessageSteps(msg: PollReply): (r: seq<Step>)
    requires msg.Message?
    ensures Restart !in r
  {
    if msg.parses
    then [Poll(true)] + ForwardSteps(msg.replies, 0) + SettleSteps(msg, Verdict(msg.replies, 0))
    else [Poll(false)] + SettleSteps(msg, OtherStatus)
  }

  /** What the polls from the i-th on make it do. */
  function ConsumeSteps(polls: seq<PollReply>, i: nat): (r: seq<Step>)
    ensures Restart !in r
    decreases |polls| - i
  {
    if i >= |polls| || polls[i].Cancelled? then []
    else if polls[i].Message? then MessageSteps(polls[i]) + ConsumeSteps(polls, i + 1)
    else ConsumeSteps(polls, i + 1)
  }

  lemma VerdictDecides(replies: seq<Reply>)
    ensures Verdict(replies, 0).Ok? <==> Decides(replies, 0, Ok)
    ensures Verdict(replies, 0).Raises? <==> Decides(replies, 0, Raises)
  {
  }

  /** The first n polls that bring a message before the service is cancelled. */
  function Taken(polls: seq<PollReply>, n: nat): set<nat> {
    set i: nat | i < n && i < |polls| && polls[i].Message? && forall j :: 0 <= j < i ==> !polls[j].Cancelled?
  }

  lemma TakenGrows(polls: seq<PollReply>, n: nat)
    requires n < |polls| && forall j :: 0 <= j < n ==> !polls[j].Cancelled?
    ensures |Taken(polls, n + 1)| == |Taken(polls, n)| + if polls[n].Message? then 1 else 0
    ensures polls[n].Cancelled? ==> Taken(polls, |polls|) == Taken(polls, n)
  {
    assert Taken(polls, n + 1) == Taken(polls, n) + if polls[n].Message? then {n} else {};
  }

  lemma NothingTaken(polls: seq<PollReply>)
    ensures Taken(polls, 0) == {}
  {
  }

  class AlertForwarder {
    var committed: nat
    var position: nat
    var forwarded: set<nat>
    var dlq: set<nat>
    ghost var queued: set<nat>
    ghost var dropped: set<nat>
    ghost var skipped: set<nat>
    ghost var phase: Phase
    ghost var trace: seq<Step>

    ghost function View(): State reads this {
      State(committed, position, phase, forwarded, dlq, queued, dropped, skipped)
    }

    /** The fields are where the steps taken lead. */
    ghost predicate Valid() reads this {
      After(trace) == Some(View()) && Restart !in trace
    }

    constructor ()
      ensures Valid() && phase == Polling && trace == []
    {
      committed, position := 0, 0;
      forwarded, dlq, queued, dropped, skipped := {}, {}, {}, {}, {};
      phase, trace := Polling, [];
    }

    ghost method Record(s: State, step: Step)
      requires After(trace) == Some(s) && Restart !in trace && step != Restart
      requires Enabled(s, step) && Next(s, step) == View()
      modifies this`trace
      ensures Valid() && trace == old(trace) + [step]
    {
      trace := trace + [step];
      assert trace[..|trace| - 1] == old(trace);
    }

    /** The `except` clause of the polling loop. */
    ghost method Skip()
      requires Valid() && InHand(phase)
      modifies this`skipped, this`phase, this`trace
      ensures Valid() && phase == Polling && trace == old(trace) + [Exception]
      ensures skipped == if old(phase).Done? then old(skipped) else old(skipped) + {old(phase).offset}
    {
      hide After;
      var s := View();
      skipped := if phase.Done? then skipped else skipped + {phase.offset};
      phase := Polling;
      Record(s, Exception);
    }

    /** One post; its exception leaves the attempt loop. */
    method Post(o: nat, refused: nat, reply: Reply)
      requires Valid() && phase == Forwarding(o, refused)
      modifies this`forwarded, this`skipped, this`phase, this`trace
      ensures Valid() && forwarded == old(forwarded) + if reply.Ok? then {o} else {}
      ensures skipped == old(skipped) + if reply.Raises? then {o} else {}
      ensures phase == match reply
                       case Ok => Done(o)
                       case Raises => Polling
                       case OtherStatus => TryFrom(o, refused + 1)
      ensures trace == old(trace) + [PostStep(reply)]
    {
      hide After;
      ghost var s := View();
      match reply
      case Ok =>
        forwarded, phase := forwarded + {o}, Done(o);
        Record(s, Accepted);
      case OtherStatus =>
        phase := TryFrom(o, refused + 1);
        Record(s, NotAccepted);
      case Raises =>
        Skip();
    }

    /** Up to three posts. */
    method Forward(o: nat, replies: seq<Reply>) returns (verdict: Reply)
      requires Valid() && phase == TryFrom(o, 0)
      modifies this`forwarded, this`skipped, this`phase, this`trace
      ensures Valid() && verdict == Verdict(replies, 0)
      ensures verdict.Ok? <==> Decides(replies, 0, Ok)
      ensures verdict.Raises? <==> Decides(replies, 0, Raises)
      ensures forwarded == old(forwarded) + if verdict.Ok? then {o} else {}
      ensures skipped == old(skipped) + if verdict.Raises? then {o} else {}
      ensures phase == match verdict case Ok => Done(o) case Raises => Polling case OtherStatus => Refused(o)
      ensures trace == old(trace) + ForwardSteps(replies, 0)
    {
      hide Valid, Decides;
      VerdictDecides(replies);
      verdict := OtherStatus;
      var attempt := 0;
      ghost var all := ForwardSteps(replies, 0);
      while attempt < MAX_FORWARDS
        invariant 0 <= attempt <= MAX_FORWARDS && Valid() && phase == TryFrom(o, attempt)
        invariant verdict == OtherStatus && Verdict(replies, attempt) == Verdict(replies, 0)
        invariant forwarded == old(forwarded) && skipped == old(skipped)
        invariant trace + ForwardSteps(replies, attempt) == old(trace) + all
        decreases MAX_FORWARDS - attempt
      {
        var reply := ReplyTo(replies, attempt);
        Associative(trace, [NotAccepted], ForwardSteps(replies, attempt + 1));
        Post(o, attempt, reply);
        if !reply.OtherStatus? {
          return reply;
        }
        attempt := attempt + 1;
      }
      assert trace + [] == trace;
    }

    /** After the posts: dead-letter what was refused, then commit. */
    method Settle(o: nat, msg: PollReply, verdict: Reply)
      requires Valid() && msg.Message? && !verdict.Raises?
      requires phase == if verdict.Ok? then Done(o) else Refused(o)
      modifies this`committed, this`dlq, this`queued, this`dropped, this`skipped, this`phase, this`trace
      ensures Valid() && phase == Polling && trace == old(trace) + SettleSteps(msg, verdict)
      ensures dlq == old(dlq) + if verdict.OtherStatus? && msg.letter.Delivered? then {o} else {}
      ensures queued == old(queued) + if verdict.OtherStatus? && msg.letter.TimesOut? then {o} else {}
      ensures dropped == old(dropped) + if verdict.OtherStatus? && msg.letter.DeliveryFails? then {o} else {}
      ensures skipped == old(skipped) + if verdict.OtherStatus? && msg.letter.ProduceRaises? then {o} else {}
      ensures committed ==
        if (verdict.Ok? || !msg.letter.ProduceRaises?) && msg.committed then o + 1 else old(committed)
    {
      hide After;
      if verdict.OtherStatus? {
        if msg.letter.ProduceRaises? {
          Skip();
          return;
        }
        SendToDlq(o, msg);
      }
      if !msg.committed {
        Skip();
      } else {
        CommitOffset(o);
      }
      ghost var dead := if msg.letter.ProduceRaises? then Exception else LetterStep(msg.letter);
      Associative(old(trace), [dead], [CommitStep(msg)]);
      assert [dead] + [CommitStep(msg)] == [dead, CommitStep(msg)];
    }

    /** Produce and flush; a dead letter that is not delivered is not noticed. */
    method SendToDlq(o: nat, msg: PollReply)
      requires Valid() && msg.Message? && !msg.letter.ProduceRaises? && phase == Refused(o)
      modifies this`dlq, this`queued, this`dropped, this`phase, this`trace
      ensures Valid() && phase == Done(o)
      ensures dlq == old(dlq) + if msg.letter.Delivered? then {o} else {}
      ensures queued == old(queued) + if msg.letter.TimesOut? then {o} else {}
      ensures dropped == old(dropped) + if msg.letter.DeliveryFails? then {o} else {}
      ensures trace == old(trace) + [LetterStep(msg.letter)]
    {
      hide After;
      ghost var s := View();
      phase := Done(o);
      match msg.letter {
        case Delivered =>
          dlq := dlq + {o};
          Record(s, DlqDelivered);
        case TimesOut =>
          queued := queued + {o};
          Record(s, DlqTimesOut);
        case DeliveryFails =>
          dropped := dropped + {o};
          Record(s, DlqDropped);
      }
    }

    /** The producer, on its own thread, gets a queued dead letter through or gives it up. */
    method QueuedLetterEnds(o: nat, delivered: bool)
      requires Valid() && o in queued
      modifies this`dlq, this`queued, this`dropped, this`trace
      ensures Valid() && trace == old(trace) + [if delivered then DeliveredLate(o) else DroppedLate(o)]
      ensures forall x: nat :: Handled(View(), x) <==> old(Handled(View(), x))
    {
      hide After;
      ghost var s := View();
      queued := queued - {o};
      if delivered {
        dlq := dlq + {o};
        Record(s, DeliveredLate(o));
      } else {
        dropped := dropped + {o};
        Record(s, DroppedLate(o));
      }
    }

    method CommitOffset(o: nat)
      requires Valid() && phase == Done(o)
      modifies this`committed, this`phase, this`trace
      ensures Valid() && phase == Polling && committed == o + 1 && trace == old(trace) + [Commit]
    {
      hide After;
      ghost var s := View();
      committed, phase := o + 1, Polling;
      Record(s, Commit);
    }

    /** One message. It is forwarded exactly if the first decisive reply is a 200, skipped
        exactly if that is an exception or the dead letter cannot be produced, and else
        dead-lettered; unless skipped, its offset is committed if the broker commits. */
    method Handle(msg: PollReply)
      requires Valid() && phase == Polling && msg.Message?
      modifies this
      ensures Valid() && phase == Polling && position == old(position) + 1
      ensures var o := old(position); var v := if msg.parses then Verdict(msg.replies, 0) else OtherStatus;
        && (v.Ok? <==> msg.parses && Decides(msg.replies, 0, Ok))
        && (v.Raises? <==> msg.parses && Decides(msg.replies, 0, Raises))
        && forwarded == old(forwarded) + (if v.Ok? then {o} else {})
        && dlq == old(dlq) + (if v.OtherStatus? && msg.letter.Delivered? then {o} else {})
        && queued == old(queued) + (if v.OtherStatus? && msg.letter.TimesOut? then {o} else {})
        && dropped == old(dropped) + (if v.OtherStatus? && msg.letter.DeliveryFails? then {o} else {})
        && skipped == old(skipped) + (if v.Raises? || (v.OtherStatus? && msg.letter.ProduceRaises?) then {o} else {})
        && committed == (if msg.committed && (v.Ok? || (v.OtherStatus? && !msg.letter.ProduceRaises?)) then o + 1
                         else old(committed))
      ensures trace == old(trace) + MessageSteps(msg)
    {
      hide After, ForwardSteps, Verdict, SettleSteps;
      ghost var s := View();
      var o := position;
      position := position + 1;
      phase := if msg.parses then TryFrom(o, 0) else Refused(o);
      Record(s, Poll(msg.parses));
      hide Valid, Decides;
      VerdictDecides(msg.replies);
      var verdict := OtherStatus;
      ghost var steps := [Poll(msg.parses)];
      if msg.parses {
        verdict := Forward(o, msg.replies);
        Associative(old(trace), steps, ForwardSteps(msg.replies, 0));
        steps := steps + ForwardSteps(msg.replies, 0);
        if verdict.Raises? {
          NothingToSettle(msg, steps);
          return;
        }
      }
      Settle(o, msg, verdict);
      Associative(old(trace), steps, SettleSteps(msg, verdict));
    }

    lemma CoveredWithoutSkips()
      requires Valid()
      ensures (forall o: nat :: o < committed ==> Handled(View(), o))
        <==> (forall o: nat :: o in skipped ==> committed <= o)
    {
      CoveredExactlyWithoutSkips(trace);
    }

    lemma NothingToSettle(msg: PollReply, steps: seq<Step>)
      requires msg.Message?
      ensures steps + SettleSteps(msg, Raises) == steps
    {
    }

    /** The polling loop over a finite script of poll results takes exactly the steps the
        script asks for. It takes every message up to a cancellation, whatever raises. */
    method ConsumeAlerts(polls: seq<PollReply>)
      requires Valid() && phase == Polling
      modifies this
      ensures Valid() && phase == Polling && trace == old(trace) + ConsumeSteps(polls, 0)
      ensures position == old(position) + |Taken(polls, |polls|)|
      ensures (forall o: nat :: o < committed ==> Handled(View(), o))
        <==> (forall o: nat :: o in skipped ==> committed <= o)
    {
      hide Valid, View, Handled, MessageSteps, Taken, Decides, Verdict;
      var i := 0;
      NothingTaken(polls);
      ghost var all := ConsumeSteps(polls, 0);
      while i < |polls|
        invariant 0 <= i <= |polls| && Valid() && phase == Polling
        invariant trace + ConsumeSteps(polls, i) == old(trace) + all
        invariant forall j :: 0 <= j < i ==> !polls[j].Cancelled?
        invariant position == old(position) + |Taken(polls, i)|
      {
        TakenGrows(polls, i);
        if polls[i].Cancelled? {
          break;
        }
        if polls[i].Message? {
          Associative(trace, MessageSteps(polls[i]), ConsumeSteps(polls, i + 1));
          Handle(polls[i]);
        }
        i := i + 1;
      }
      assert trace + [] == trace;
      CoveredWithoutSkips();
    }
  }
}
