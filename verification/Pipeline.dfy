/** The detection consumer and the tables it feeds, together: every attempt of the consumer
    is an attempt of the processing callback on the message at that offset. What the tables
    hold is compared with what the consumer counts, while nothing is deleted. */
module Pipeline {
  import Consumer = DetectionConsumer
  import opened IdentityTables
  import opened Ingestion
  import opened Retention
  import opened Wrappers

  /** The topic's messages, how often each is tried, and the cameras there are. */
  datatype Setting = Setting(topic: Consumer.Topic, messages: seq<Detection>, cameras: set<Id>)

  /** `origin` says for which offset each row was written. */
  datatype Flow = Flow(consumer: Consumer.State, tables: Tables, origin: map<Id, nat>)

  /** A step of the consumer and, for an attempt, what the outside world answers. */
  datatype Event = Event(step: Consumer.Step, world: World)

  function Start(c: Setting): Flow { Flow(Consumer.INITIAL, Tables(c.cameras, map[], map[]), map[]) }

  predicate IsAttempt(step: Consumer.Step) {
    step.AttemptSucceeds? || step.AttemptFails? || step.AttemptUnacked?
  }

  /** The transaction of an attempt is committed. */
  predicate Commits(step: Consumer.Step) { step.AttemptSucceeds? || step.AttemptUnacked? }

  function StepOf(attempt: Consumer.Attempt): Consumer.Step { Consumer.AttemptStep(attempt) }

  /** An attempt of the consumer ends as the callback's attempt at that message does. */
  predicate Possible(c: Setting, f: Flow, e: Event) {
    && Consumer.Enabled(c.topic, f.consumer, e.step)
    && (IsAttempt(e.step) ==>
          && f.consumer.phase.offset < |c.messages|
          && e.step == StepOf(AttemptAt(f.tables, c.messages[f.consumer.phase.offset], e.world))
          && e.world.newId !in f.tables.persons && e.world.rowId !in f.tables.rows)
  }

  function Next(c: Setting, f: Flow, e: Event): Flow
    requires Possible(c, f, e)
  {
    var consumer := Consumer.Next(c.topic, f.consumer, e.step);
    if !Commits(e.step) then f.(consumer := consumer) else
      var o := f.consumer.phase.offset;
      var d := c.messages[o];
      Flow(consumer, Ingestion.Handled(f.tables, d, e.world),
           if d.PersonSeen? then f.origin[e.world.rowId := o] else f.origin)
  }

  function After(c: Setting, events: seq<Event>): Option<Flow> {
    if events == [] then Some(Start(c)) else
      var n := |events| - 1;
      var f := After(c, events[..n]);
      if f.Some? && Possible(c, f.value, events[n]) then Some(Next(c, f.value, events[n])) else None
  }

  function Steps(events: seq<Event>): (r: seq<Consumer.Step>)
    ensures |r| == |events|
  {
    if events == [] then [] else Steps(events[..|events| - 1]) + [events[|events| - 1].step]
  }

  /** The consumer of a flow makes a run of its own. */
  lemma {:induction false} ConsumerRuns(c: Setting, events: seq<Event>)
    requires After(c, events).Some?
    ensures Consumer.After(c.topic, Steps(events)) == Some(After(c, events).value.consumer)
  {
    hide Consumer.Next, Consumer.Enabled;
    if events != [] {
      var n := |events| - 1;
      ConsumerRuns(c, events[..n]);
      var steps := Steps(events);
      assert steps[..n] == Steps(events[..n]) && steps[n] == events[n].step;
    }
  }

  // ------------------------------------------------------------------- rows and offsets

  function RowsFrom(origin: map<Id, nat>, o: nat): set<Id> { set r | r in origin && origin[r] == o }

  lemma OneMoreRow(origin: map<Id, nat>, r: Id, o: nat, x: nat)
    requires r !in origin
    ensures |RowsFrom(origin[r := o], x)| == |RowsFrom(origin, x)| + if x == o then 1 else 0
  {
    assert RowsFrom(origin[r := o], x) == RowsFrom(origin, x) + if x == o then {r} else {};
  }

  lemma CommitCounts(c: Setting, f: Flow, e: Event, x: nat)
    requires Possible(c, f, e) && Commits(e.step)
    ensures var o := f.consumer.phase.offset; var n := Next(c, f, e);
      && n.consumer.applied[x] == f.consumer.applied[x] + (if x == o then 1 else 0)
      && (c.messages[o].PersonSeen? ==> n.origin == f.origin[e.world.rowId := o])
  {
    hide AttemptAt, Ingestion.Handled;
  }

  /** How often a person's row was written for this offset. */
  function Sightings(c: Setting, f: Flow, o: nat): nat {
    if o < |c.messages| && c.messages[o].PersonSeen? then f.consumer.applied[o] else 0
  }

  /** Every row comes from one offset, carries that message's sighting, and each offset has
      as many rows as the consumer counts transactions for it. */
  ghost predicate Traced(c: Setting, f: Flow) {
    && f.origin.Keys == f.tables.rows.Keys
    && (forall r :: r in f.origin ==> RowTraced(c, f, r))
    && (forall o: nat :: |RowsFrom(f.origin, o)| == Sightings(c, f, o))
  }

  ghost predicate RowTraced(c: Setting, f: Flow, r: Id)
    requires r in f.origin && f.origin.Keys == f.tables.rows.Keys
  {
    && f.origin[r] < |c.messages| && c.messages[f.origin[r]].PersonSeen?
    && f.tables.rows[r].camera == c.messages[f.origin[r]].camera
    && f.tables.rows[r].timestamp == c.messages[f.origin[r]].at
  }

  lemma NewRowIsTraced(c: Setting, f: Flow, e: Event)
    requires Traced(c, f) && Possible(c, f, e) && Commits(e.step)
    requires c.messages[f.consumer.phase.offset].PersonSeen?
    ensures var n := Next(c, f, e);
            n.origin.Keys == n.tables.rows.Keys && forall r :: r in n.origin ==> RowTraced(c, n, r)
  {
    hide Sightings, RowsFrom, Consumer.Next, Consumer.Enabled, AttemptAt;
    var n := Next(c, f, e);
    assert n.origin.Keys == n.tables.rows.Keys;
    forall r | r in n.origin ensures RowTraced(c, n, r) {
      if r != e.world.rowId { assert RowTraced(c, f, r); }
    }
  }

  lemma NewRowIsCounted(c: Setting, f: Flow, e: Event, x: nat)
    requires Traced(c, f) && Possible(c, f, e) && Commits(e.step)
    requires c.messages[f.consumer.phase.offset].PersonSeen?
    ensures |RowsFrom(Next(c, f, e).origin, x)| == Sightings(c, Next(c, f, e), x)
  {
    hide RowTraced, AttemptAt, Ingestion.Handled, Next, RowsFrom;
    CommitCounts(c, f, e, x);
    OneMoreRow(f.origin, e.world.rowId, f.consumer.phase.offset, x);
    assert |RowsFrom(f.origin, x)| == Sightings(c, f, x);
  }

  lemma IngestTraces(c: Setting, f: Flow, e: Event)
    requires Traced(c, f) && Possible(c, f, e) && Commits(e.step)
    requires c.messages[f.consumer.phase.offset].PersonSeen?
    ensures Traced(c, Next(c, f, e))
  {
    hide Possible, Next, RowTraced, RowsFrom, Sightings;
    NewRowIsTraced(c, f, e);
    forall x: nat ensures |RowsFrom(Next(c, f, e).origin, x)| == Sightings(c, Next(c, f, e), x) {
      NewRowIsCounted(c, f, e, x);
    }
  }

  lemma OtherStepsTrace(c: Setting, f: Flow, e: Event)
    requires Traced(c, f) && Possible(c, f, e)
    requires Commits(e.step) ==> !c.messages[f.consumer.phase.offset].PersonSeen?
    ensures Traced(c, Next(c, f, e))
  {
    var n := Next(c, f, e);
    forall r | r in n.origin ensures RowTraced(c, n, r) { assert RowTraced(c, f, r); }
    forall x: nat ensures |RowsFrom(n.origin, x)| == Sightings(c, n, x) {
      assert |RowsFrom(f.origin, x)| == Sightings(c, f, x);
      assert RowsFrom(n.origin, x) == RowsFrom(f.origin, x);
    }
  }

  lemma StepKeepsExactness(c: Setting, f: Flow, e: Event)
    requires Coherent(f.tables) && Exact(f.tables) && Possible(c, f, e)
    ensures Coherent(Next(c, f, e).tables) && Exact(Next(c, f, e).tables)
  {
    if Commits(e.step) {
      var d, w := c.messages[f.consumer.phase.offset], e.world;
      if d.PersonSeen? {
        var id := Resolve(d.embeddingLength, w.found, w.newId);
        ExactIsCounted(f.tables);
        hide Coherent, Exact;
        IngestKeepsTables(f.tables, id, d.camera, d.at, w.rowId);
        IngestKeepsExact(f.tables, id, d.camera, d.at, w.rowId);
      }
    }
  }

  lemma ExactIsCounted(t: Tables)
    requires Exact(t)
    ensures Counted(t)
  {
  }

  /** WHAT THE TABLES COUNT. Over every run of the consumer, crashes, unacknowledged commits
      and restarts included: each offset has exactly as many tracking rows as it had
      committed transactions, each with that message's camera and time, and every person's
      counter is the number of its rows. */
  lemma {:induction false} RowsCountTransactions(c: Setting, events: seq<Event>)
    requires After(c, events).Some?
    ensures var f := After(c, events).value; Traced(c, f) && Coherent(f.tables) && Exact(f.tables)
  {
    hide Traced, Coherent, Exact, Possible, Next;
    if events == [] {
      NothingYet(c);
    } else {
      var n := |events| - 1;
      RowsCountTransactions(c, events[..n]);
      var f := After(c, events[..n]).value;
      StepKeepsExactness(c, f, events[n]);
      StepTraces(c, f, events[n]);
    }
  }

  lemma StepTraces(c: Setting, f: Flow, e: Event)
    requires Traced(c, f) && Possible(c, f, e)
    ensures Traced(c, Next(c, f, e))
  {
    hide Traced, Next;
    if Commits(e.step) && c.messages[f.consumer.phase.offset].PersonSeen? {
      IngestTraces(c, f, e);
    } else {
      OtherStepsTrace(c, f, e);
    }
  }

  lemma NothingYet(c: Setting)
    ensures Traced(c, Start(c)) && Coherent(Start(c).tables) && Exact(Start(c).tables)
  {
    forall o: nat ensures RowsFrom(Start(c).origin, o) == {} {}
  }

  /** THE OVERCOUNT. In every run, the rows and dead letters of a committed sighting number
      one, plus one for every commit of its transaction that took effect behind an
      exception, plus one for every stop between its outcome and its commit. */
  lemma OvercountExactly(c: Setting, events: seq<Event>, o: nat)
    requires After(c, events).Some?
    requires o < After(c, events).value.consumer.committed && o < |c.messages| && c.messages[o].PersonSeen?
    ensures var f := After(c, events).value; var s := f.consumer;
            |RowsFrom(f.origin, o)| + Consumer.Letters(s, o)
              == 1 + s.unacked[o] + Consumer.Redone(c.topic, Steps(events), o)
  {
    hide After, Consumer.After, RowsFrom, Consumer.Redone, Consumer.Letters;
    RowsCountTransactions(c, events);
    ConsumerRuns(c, events);
    Consumer.OutcomesAreConserved(c.topic, Steps(events), o);
    var f := After(c, events).value;
    assert |RowsFrom(f.origin, o)| == Sightings(c, f, o);
  }

  /** Within a session only unacknowledged commits overcount. */
  lemma OvercountInSession(c: Setting, events: seq<Event>, o: nat)
    requires After(c, events).Some? && Consumer.Restart !in Steps(events)
    requires o < After(c, events).value.consumer.committed && o < |c.messages| && c.messages[o].PersonSeen?
    ensures var f := After(c, events).value; var s := f.consumer;
            |RowsFrom(f.origin, o)| + Consumer.Letters(s, o) == 1 + s.unacked[o]
  {
    hide After, Consumer.After, RowsFrom, Consumer.Redone, Consumer.Letters;
    OvercountExactly(c, events, o);
    ConsumerRuns(c, events);
    Consumer.NothingRedoneInSession(c.topic, Steps(events), o);
  }
}
