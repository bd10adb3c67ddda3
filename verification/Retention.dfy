/** What holds over whole runs of ingestion, retention jobs and camera changes. */
module Retention {
  import opened IdentityTables
  import opened Wrappers

  ghost predicate IsRun(states: seq<State>, steps: seq<Step>) {
    && |states| == |steps| + 1 && states[0] == INITIAL
    && forall k :: 0 <= k < |steps| ==> Leads(states[k], steps[k], states[k + 1])
  }

  ghost predicate Leads(s: State, step: Step, n: State) {
    Enabled(s, step) && n == Next(s, step)
  }

  /** COHERENCE. In every run, whatever ids the vector store answers and however the
      statements of any number of retention jobs interleave with ingestion, every row's
      person exists and was first seen no later and last seen no earlier than that row,
      and no person has more rows than counted appearances. */
  lemma {:induction false} EveryRunIsCoherent(states: seq<State>, steps: seq<Step>)
    requires IsRun(states, steps)
    ensures forall k :: 0 <= k < |states| ==> Inv(states[k])
  {
    if |steps| > 0 {
      var n := |steps| - 1;
      EveryRunIsCoherent(states[..n + 1], steps[..n]);
      assert states[..n + 1][n] == states[n] && Leads(states[n], steps[n], states[n + 1]);
      StepKeepsInv(states[n], steps[n]);
      assert forall k :: 0 <= k <= n ==> states[..n + 1][k] == states[k];
    }
  }

  /** A retention job's deletes never take a row at or after its cutoff, and keep every
      other field of the rows they leave. They unlink a surviving row from its person
      exactly if the job's first select did not see it and the job deletes that person. */
  lemma OnlyLateRowsAreUnlinked(s: State, j: nat)
    requires Inv(s) && Enabled(s, Apply(j))
    ensures var n := Next(s, Apply(j)); var job := s.jobs[j];
      && (forall r :: r in s.tables.rows && s.tables.rows[r].timestamp >= job.cutoff ==> r in n.tables.rows)
      && (forall r :: r in n.tables.rows ==>
            && r in s.tables.rows
            && n.tables.rows[r].timestamp == s.tables.rows[r].timestamp
            && n.tables.rows[r].camera == s.tables.rows[r].camera
            && (n.tables.rows[r] != s.tables.rows[r] <==>
                  && r !in job.seen
                  && s.tables.rows[r].person.Some? && s.tables.rows[r].person.value in job.personIds))
  {
    var n := Next(s, Apply(j));
    var job := s.jobs[j];
    assert JobSound(s.tables, s.usedRows, job);
    forall r | r in n.tables.rows && r in job.seen ensures n.tables.rows[r] == s.tables.rows[r] {
      if s.tables.rows[r].person.Some? { assert Foreseen(s.tables, job, r, s.tables.rows[r].person.value); }
    }
  }

  // ------------------------------------------------------------------- ownership

  lemma IngestKeepsOwned(t: Tables, id: Id, camera: Id, at: Time, rowId: Id)
    requires Coherent(t) && Owned(t) && rowId !in t.rows
    ensures Owned(Ingested(t, id, camera, at, rowId))
  {
    var n := Ingested(t, id, camera, at, rowId);
    forall p | p in n.persons ensures HasRowAt(n, p, n.persons[p].lastSeen) {
      if p == id && n.persons[p].lastSeen == at {
        assert n.rows[rowId].person == Some(p);
      } else {
        var r :| r in t.rows && t.rows[r].person == Some(p) && t.rows[r].timestamp == t.persons[p].lastSeen;
        assert n.rows[r] == t.rows[r];
      }
    }
  }

  lemma ApplyKeepsOwned(t: Tables, usedRows: set<Id>, job: Job)
    requires Coherent(t) && Owned(t) && JobSound(t, usedRows, job) && job.AllFetched?
    ensures Owned(Purged(t, job.rowIds, job.personIds))
  {
    var n := Purged(t, job.rowIds, job.personIds);
    forall p | p in n.persons ensures HasRowAt(n, p, n.persons[p].lastSeen) {
      var r :| r in t.rows && t.rows[r].person == Some(p) && t.rows[r].timestamp == t.persons[p].lastSeen;
      assert r in job.seen ==> Foreseen(t, job, r, p);
      assert n.rows[r] == t.rows[r];
    }
  }

  lemma StepKeepsOwned(s: State, step: Step)
    requires Inv(s) && Enabled(s, step) && Owned(s.tables) && !step.DropCamera?
    ensures Owned(Next(s, step).tables)
  {
    match step
    case Ingest(n, found, newId, camera, at, rowId) =>
      IngestKeepsOwned(s.tables, Resolve(n, found, newId), camera, at, rowId);
    case Apply(j) =>
      assert JobSound(s.tables, s.usedRows, s.jobs[j]);
      ApplyKeepsOwned(s.tables, s.usedRows, s.jobs[j]);
    case AddCamera(c) =>
      var n := Next(s, step);
      forall p | p in n.tables.persons ensures HasRowAt(n.tables, p, n.tables.persons[p].lastSeen) {
        assert HasRowAt(s.tables, p, s.tables.persons[p].lastSeen);
      }
    case _ =>
  }

  /** OWNERSHIP. As long as no camera is deleted, no interleaving of retention jobs with
      ingestion hollows out an identity: every person keeps a row at its last sighting. */
  lemma {:induction false} NobodyIsHollowedOut(states: seq<State>, steps: seq<Step>)
    requires IsRun(states, steps) && forall k :: 0 <= k < |steps| ==> !steps[k].DropCamera?
    ensures forall k :: 0 <= k < |states| ==> Owned(states[k].tables)
  {
    if |steps| > 0 {
      var n := |steps| - 1;
      NobodyIsHollowedOut(states[..n + 1], steps[..n]);
      EveryRunIsCoherent(states, steps);
      assert states[..n + 1][n] == states[n] && Leads(states[n], steps[n], states[n + 1]);
      StepKeepsOwned(states[n], steps[n]);
      assert forall k :: 0 <= k <= n ==> states[..n + 1][k] == states[k];
    }
  }

  // ---------------------------------------------------------- appearances are exact

  /** The counters say exactly what the rows say. */
  ghost predicate Exact(t: Tables) {
    forall p :: p in t.persons ==>
      && t.persons[p].total == |RowsOf(t, p)|
      && HasRowAt(t, p, t.persons[p].firstSeen)
      && HasRowAt(t, p, t.persons[p].lastSeen)
  }

  lemma IngestKeepsExact(t: Tables, id: Id, camera: Id, at: Time, rowId: Id)
    requires Coherent(t) && Exact(t) && rowId !in t.rows
    ensures Exact(Ingested(t, id, camera, at, rowId))
  {
    var n := Ingested(t, id, camera, at, rowId);
    forall p | p in n.persons
      ensures n.persons[p].total == |RowsOf(n, p)|
      ensures HasRowAt(n, p, n.persons[p].firstSeen) && HasRowAt(n, p, n.persons[p].lastSeen)
    {
      IngestCounts(t, id, camera, at, rowId, p);
      if p == id { assert n.rows[rowId].person == Some(p) && n.rows[rowId].timestamp == at; }
      if p in t.persons {
        var f :| f in t.rows && t.rows[f].person == Some(p) && t.rows[f].timestamp == t.persons[p].firstSeen;
        var l :| l in t.rows && t.rows[l].person == Some(p) && t.rows[l].timestamp == t.persons[p].lastSeen;
        assert n.rows[f] == t.rows[f] && n.rows[l] == t.rows[l];
      }
    }
  }

  /** CONSERVATION. While nothing is deleted, every person's counter is the number of its
      rows, and its first and last sightings are the exact minimum and maximum of their
      timestamps (attained by a row, and bounding all rows). */
  lemma {:induction false} AppearancesAreConserved(states: seq<State>, steps: seq<Step>)
    requires IsRun(states, steps)
    requires forall k :: 0 <= k < |steps| ==> !steps[k].DropCamera? && !steps[k].Apply?
    ensures forall k :: 0 <= k < |states| ==> Exact(states[k].tables) && Coherent(states[k].tables)
  {
    EveryRunIsCoherent(states, steps);
    if |steps| > 0 {
      var n := |steps| - 1;
      AppearancesAreConserved(states[..n + 1], steps[..n]);
      assert states[..n + 1][n] == states[n] && Leads(states[n], steps[n], states[n + 1]);
      StepKeepsExact(states[n], steps[n]);
      assert forall k :: 0 <= k <= n ==> states[..n + 1][k] == states[k];
    }
  }

  lemma StepKeepsExact(s: State, step: Step)
    requires Inv(s) && Enabled(s, step) && Exact(s.tables) && !step.DropCamera? && !step.Apply?
    ensures Exact(Next(s, step).tables)
  {
    match step
    case Ingest(n, found, newId, camera, at, rowId) =>
      IngestKeepsExact(s.tables, Resolve(n, found, newId), camera, at, rowId);
    case AddCamera(c) =>
      var n := Next(s, step).tables;
      forall p | p in n.persons
        ensures RowsOf(n, p) == RowsOf(s.tables, p)
        ensures HasRowAt(n, p, n.persons[p].firstSeen) && HasRowAt(n, p, n.persons[p].lastSeen)
      {
        assert HasRowAt(s.tables, p, n.persons[p].firstSeen) && HasRowAt(s.tables, p, n.persons[p].lastSeen);
      }
    case _ =>
  }

  // ------------------------------------------------------------ the job undisturbed

  /** What a retention run is meant to leave. */
  function Retained(t: Tables, cutoff: Time): Tables {
    t.(persons := map p | p in t.persons && t.persons[p].lastSeen >= cutoff :: t.persons[p],
       rows := map r | r in t.rows && t.rows[r].timestamp >= cutoff :: t.rows[r])
  }

  /** ATOMIC RETENTION. If nothing commits between the job's selects and its deletes, it
      leaves exactly the rows and persons that are not expired, each of them unchanged:
      an expired person has only expired rows, so nobody's surviving row is unlinked. */
  lemma AtomicRetention(s: State, j: nat, cutoff: Time)
    requires Coherent(s.tables) && j !in s.jobs
    ensures var s1 := Next(s, FetchRows(j, cutoff));
            var s2 := Next(s1, FetchPersons(j));
            Next(s2, Apply(j)).tables == Retained(s.tables, cutoff)
  {
    var t := s.tables;
    forall r | r in t.rows && t.rows[r].timestamp >= cutoff
      ensures Unlink(t.rows[r], PersonsBefore(t, cutoff)) == t.rows[r]
    {
      assert RowCoherent(t, t.rows[r]);
    }
    assert t.persons - PersonsBefore(t, cutoff) == Retained(t, cutoff).persons;
    assert Purged(t, RowsBefore(t, cutoff), PersonsBefore(t, cutoff)).rows == Retained(t, cutoff).rows;
  }

  const RACE: seq<Step> := [
    AddCamera(0), Ingest(0, None, 1, 0, 0, 10), FetchRows(0, 100), FetchPersons(0),
    Ingest(512, Some(1), 2, 0, 200, 11), Apply(0)]

  function RaceState(k: nat): State {
    var expired, recent := Row(Some(1), 0, 0), Row(Some(1), 0, 200);
    if k == 0 then INITIAL
    else if k == 1 then State(Tables({0}, map[], map[]), map[], {})
    else if k == 2 then State(Tables({0}, map[1 := Person(0, 0, 1)], map[10 := expired]), map[], {10})
    else if k == 3 then
      State(Tables({0}, map[1 := Person(0, 0, 1)], map[10 := expired]), map[0 := RowsFetched(100, {10}, {10})], {10})
    else if k == 4 then
      State(Tables({0}, map[1 := Person(0, 0, 1)], map[10 := expired]),
            map[0 := AllFetched(100, {10}, {10}, {1})], {10})
    else if k == 5 then
      State(Tables({0}, map[1 := Person(0, 200, 2)], map[10 := expired, 11 := recent]),
            map[0 := AllFetched(100, {10}, {10}, {1})], {10, 11})
    else State(Tables({0}, map[], map[11 := Row(None, 0, 200)]), map[], {10, 11})
  }

  lemma RaceStep(k: nat)
    requires k < |RACE|
    ensures Leads(RaceState(k), RACE[k], RaceState(k + 1))
  {
    var s, n := RaceState(k), RaceState(k + 1);
    assert Enabled(s, RACE[k]);
    if k == 2 {
      assert RowsBefore(s.tables, 100) == {10} && s.tables.rows.Keys == {10};
    } else if k == 3 {
      assert PersonsBefore(s.tables, 100) == {1};
    } else if k == 5 {
      assert Next(s, RACE[k]).tables.rows == n.tables.rows;
      assert Next(s, RACE[k]).tables.persons == n.tables.persons;
      assert Next(s, RACE[k]).jobs == n.jobs;
    }
  }

  /** The guarantee needs that: a sighting committed between select and delete leaves a
      fresh row without its person, and the person, seen after the cutoff, is erased. */
  lemma DisturbedRetentionUnlinksFreshRow()
    ensures exists states: seq<State> ::
      && IsRun(states, RACE)
      && 1 in states[5].tables.persons && states[5].tables.persons[1].lastSeen >= 100
      && 1 !in states[6].tables.persons && states[6].tables.rows == map[11 := Row(None, 0, 200)]
  {
    var states := seq(7, k requires 0 <= k < 7 => RaceState(k));
    forall k | 0 <= k < |RACE| ensures Leads(states[k], RACE[k], states[k + 1]) { RaceStep(k); }
    assert states[5] == RaceState(5) && states[6] == RaceState(6);
    assert IsRun(states, RACE);
  }
}
