/** What ingestion that commits while a retention job is in flight does to that job's
    deletes: exactly which rows lose their person, and whose recent sightings are erased. */
module RetentionRaces {
  import opened IdentityTables
  import opened Retention
  import opened Wrappers

  // ------------------------------------------------------------------- one application

  /** A row the job's first select did not see, linked to a person it is about to delete. */
  predicate Exposed(t: Tables, job: Job, r: Id)
    requires job.AllFetched?
  {
    r in t.rows && r !in job.seen && t.rows[r].person.Some? && t.rows[r].person.value in job.personIds
  }

  /** Exactly the exposed rows are changed by the job's deletes. */
  lemma UnlinkedExactly(s: State, j: nat, r: Id)
    requires Inv(s) && Enabled(s, Apply(j)) && r in Next(s, Apply(j)).tables.rows
    ensures r in s.tables.rows
    ensures Next(s, Apply(j)).tables.rows[r] != s.tables.rows[r] <==> Exposed(s.tables, s.jobs[j], r)
  {
    OnlyLateRowsAreUnlinked(s, j);
  }

  /** An unseen row of p at or after the job's cutoff. */
  predicate LateRowOf(t: Tables, job: Job, p: Id, r: Id) {
    r in t.rows && r !in job.seen && t.rows[r].person == Some(p) && t.rows[r].timestamp >= job.cutoff
  }

  /** Of the persons a job erases, exactly those with a late row were seen after its
      cutoff. */
  lemma ErasedThoughSeenExactly(s: State, j: nat, p: Id)
    requires Inv(s) && Owned(s.tables) && Enabled(s, Apply(j))
    requires p in s.tables.persons && p in s.jobs[j].personIds
    ensures p !in Next(s, Apply(j)).tables.persons
    ensures s.tables.persons[p].lastSeen >= s.jobs[j].cutoff <==> exists r :: LateRowOf(s.tables, s.jobs[j], p, r)
  {
    var t, job := s.tables, s.jobs[j];
    assert JobSound(t, s.usedRows, job);
    if t.persons[p].lastSeen >= job.cutoff {
      assert HasRowAt(t, p, t.persons[p].lastSeen);
      var r :| r in t.rows && t.rows[r].person == Some(p) && t.rows[r].timestamp == t.persons[p].lastSeen;
      assert r in job.seen ==> Foreseen(t, job, r, p);
      assert LateRowOf(t, job, p, r);
    }
    if r :| LateRowOf(t, job, p, r) { assert RowCoherent(t, t.rows[r]); }
  }

  // ------------------------------------------------------------------------ whole runs

  /** The job j whose rows step f selects is still in flight at k. */
  ghost predicate InFlight(states: seq<State>, steps: seq<Step>, j: nat, f: nat, k: nat)
    requires |states| == |steps| + 1 && k <= |steps|
  {
    f < k && steps[f].FetchRows? && steps[f].job == j && forall i :: f < i <= k ==> j in states[i].jobs
  }

  lemma StepKeepsJob(s: State, step: Step, j: nat)
    requires Enabled(s, step) && j in s.jobs && j in Next(s, step).jobs
    ensures Next(s, step).jobs[j].seen == s.jobs[j].seen && Next(s, step).jobs[j].cutoff == s.jobs[j].cutoff
  {
  }

  lemma {:induction false} JobSince(states: seq<State>, steps: seq<Step>, j: nat, f: nat, k: nat)
    requires IsRun(states, steps) && k <= |steps| && InFlight(states, steps, j, f, k)
    ensures states[k].jobs[j].seen == states[f].tables.rows.Keys && states[k].jobs[j].cutoff == steps[f].cutoff
    decreases k - f
  {
    hide Enabled, Next;
    assert Leads(states[k - 1], steps[k - 1], states[k]);
    if k == f + 1 {
      FetchStarts(states[f], steps[f]);
    } else {
      JobSince(states, steps, j, f, k - 1);
      StepKeepsJob(states[k - 1], steps[k - 1], j);
    }
  }

  lemma FetchStarts(s: State, step: Step)
    requires Enabled(s, step) && step.FetchRows?
    ensures Next(s, step).jobs[step.job].seen == s.tables.rows.Keys
    ensures Next(s, step).jobs[step.job].cutoff == step.cutoff
  {
  }

  lemma StepRows(s: State, step: Step, r: Id)
    requires Inv(s) && Enabled(s, step)
    ensures var n := Next(s, step);
      && s.usedRows <= n.usedRows
      && (step.Ingest? ==> step.rowId !in s.usedRows && step.rowId in n.usedRows)
      && (r in n.tables.rows ==>
            if step.Ingest? && step.rowId == r then n.tables.rows[r].timestamp == step.at
            else r in s.tables.rows && n.tables.rows[r].timestamp == s.tables.rows[r].timestamp)
  {
  }

  /** Step m, between f and k, ingested row r. */
  ghost predicate IngestedBetween(steps: seq<Step>, f: nat, m: nat, k: nat, r: Id)
    requires k <= |steps|
  {
    f < m < k && steps[m].Ingest? && steps[m].rowId == r
  }

  /** A row that appeared since f was ingested since f, and carries that sighting's time. */
  lemma {:induction false} NewRowsAreIngested(states: seq<State>, steps: seq<Step>, f: nat, k: nat, r: Id)
    requires IsRun(states, steps) && f <= k <= |steps| && !(f < |steps| && steps[f].Ingest?)
    requires r in states[k].tables.rows && r !in states[f].tables.rows
    ensures exists m: nat :: IngestedBetween(steps, f, m, k, r) && states[k].tables.rows[r].timestamp == steps[m].at
    decreases k - f
  {
    hide Enabled, Next, Inv;
    var n := k - 1;
    EveryRunIsCoherent(states, steps);
    assert Leads(states[n], steps[n], states[k]);
    StepRows(states[n], steps[n], r);
    if steps[n].Ingest? && steps[n].rowId == r {
      assert IngestedBetween(steps, f, n, k, r);
    } else {
      NewRowsAreIngested(states, steps, f, n, r);
      var m: nat :| IngestedBetween(steps, f, m, n, r) && states[n].tables.rows[r].timestamp == steps[m].at;
      assert IngestedBetween(steps, f, m, k, r);
    }
  }

  /** The row a step ingests is new, and keeps its time for as long as it exists. */
  lemma {:induction false} IngestedRowsAreNew(states: seq<State>, steps: seq<Step>, f: nat, m: nat, k: nat)
    requires IsRun(states, steps) && f <= m < k <= |steps| && steps[m].Ingest?
    ensures steps[m].rowId !in states[f].tables.rows && steps[m].rowId in states[k].usedRows
    ensures steps[m].rowId in states[k].tables.rows ==>
      states[k].tables.rows[steps[m].rowId].timestamp == steps[m].at
    decreases k - f
  {
    hide Enabled, Next;
    EveryRunIsCoherent(states, steps);
    var r := steps[m].rowId;
    assert Leads(states[m], steps[m], states[m + 1]);
    StepRows(states[m], steps[m], r);
    UsedRowsGrow(states, steps, f, m);
    assert Inv(states[f]);
    if k > m + 1 {
      assert Leads(states[k - 1], steps[k - 1], states[k]);
      IngestedRowsAreNew(states, steps, f, m, k - 1);
      StepRows(states[k - 1], steps[k - 1], r);
    }
  }

  lemma {:induction false} UsedRowsGrow(states: seq<State>, steps: seq<Step>, f: nat, k: nat)
    requires IsRun(states, steps) && f <= k <= |steps|
    ensures states[f].usedRows <= states[k].usedRows
    decreases k - f
  {
    hide Enabled, Next, Inv;
    if f < k {
      UsedRowsGrow(states, steps, f, k - 1);
      EveryRunIsCoherent(states, steps);
      assert Leads(states[k - 1], steps[k - 1], states[k]);
      StepRows(states[k - 1], steps[k - 1], 0);
    }
  }

  /** WHICH ROWS LOSE THEIR PERSON. In every run, a row that survives a job's deletes is
      changed by them if and only if some step between the job's first select and its
      deletes ingested it and, when they are applied, it is linked to a person the job
      selected. */
  lemma UnlinkedRowsInRuns(states: seq<State>, steps: seq<Step>, j: nat, f: nat, k: nat, r: Id)
    requires IsRun(states, steps) && k < |steps| && InFlight(states, steps, j, f, k) && steps[k] == Apply(j)
    requires r in states[k + 1].tables.rows
    ensures states[k].jobs[j].AllFetched? && r in states[k].tables.rows
    ensures var person := states[k].tables.rows[r].person;
      states[k + 1].tables.rows[r] != states[k].tables.rows[r] <==>
        && person.Some? && person.value in states[k].jobs[j].personIds
        && exists m: nat :: IngestedBetween(steps, f, m, k, r)
  {
    EveryRunIsCoherent(states, steps);
    assert Leads(states[k], steps[k], states[k + 1]);
    UnlinkedExactly(states[k], j, r);
    JobSince(states, steps, j, f, k);
    hide Next, Inv;
    if r !in states[f].tables.rows {
      NewRowsAreIngested(states, steps, f, k, r);
    }
    if m: nat :| IngestedBetween(steps, f, m, k, r) {
      IngestedRowsAreNew(states, steps, f, m, k);
    }
  }

  /** WHOSE RECENT SIGHTING IS ERASED. In every run without camera deletions, a person a
      job erases was last seen at or after its cutoff if and only if some step between the
      job's first select and its deletes ingested a sighting that late, whose row is that
      person's when they are applied. */
  lemma FreshErasuresInRuns(states: seq<State>, steps: seq<Step>, j: nat, f: nat, k: nat, p: Id)
    requires IsRun(states, steps) && k < |steps| && InFlight(states, steps, j, f, k) && steps[k] == Apply(j)
    requires forall i :: 0 <= i < |steps| ==> !steps[i].DropCamera?
    requires p in states[k].tables.persons && states[k].jobs[j].AllFetched? && p in states[k].jobs[j].personIds
    ensures p !in states[k + 1].tables.persons
    ensures states[k].tables.persons[p].lastSeen >= steps[f].cutoff <==>
            exists m: nat, r :: IngestedBetween(steps, f, m, k, r) && steps[m].at >= steps[f].cutoff
                                && r in states[k].tables.rows && states[k].tables.rows[r].person == Some(p)
  {
    EveryRunIsCoherent(states, steps);
    NobodyIsHollowedOut(states, steps);
    assert Leads(states[k], steps[k], states[k + 1]);
    ErasedThoughSeenExactly(states[k], j, p);
    JobSince(states, steps, j, f, k);
    hide Next, Inv, Owned;
    var t, job := states[k].tables, states[k].jobs[j];
    if r :| LateRowOf(t, job, p, r) {
      NewRowsAreIngested(states, steps, f, k, r);
      var m: nat :| IngestedBetween(steps, f, m, k, r) && t.rows[r].timestamp == steps[m].at;
      assert IngestedBetween(steps, f, m, k, r) && steps[m].at >= steps[f].cutoff;
    }
    if m: nat, r :|
      IngestedBetween(steps, f, m, k, r) && steps[m].at >= steps[f].cutoff
      && r in t.rows && t.rows[r].person == Some(p)
    {
      IngestedRowsAreNew(states, steps, f, m, k);
      assert LateRowOf(t, job, p, r);
    }
  }

  // ------------------------------------------------- the same without counting on rows

  /** Between g and k the job j, whose persons step g selects, is in flight. */
  ghost predicate Selected(states: seq<State>, steps: seq<Step>, j: nat, g: nat, k: nat)
    requires |states| == |steps| + 1 && k <= |steps|
  {
    g < k && steps[g] == FetchPersons(j) && forall i :: g < i <= k ==> j in states[i].jobs
  }

  lemma SelectStarts(s: State, j: nat)
    requires Enabled(s, FetchPersons(j))
    ensures var job := Next(s, FetchPersons(j)).jobs[j];
      job.AllFetched? && job.cutoff == s.jobs[j].cutoff && job.personIds == PersonsBefore(s.tables, job.cutoff)
  {
  }

  lemma StepKeepsFetched(s: State, step: Step, j: nat)
    requires Enabled(s, step) && j in s.jobs && s.jobs[j].AllFetched? && j in Next(s, step).jobs
    ensures Next(s, step).jobs[j] == s.jobs[j]
  {
  }

  /** What the person select fetched is what was expired at that point. */
  lemma {:induction false} SelectedSince(states: seq<State>, steps: seq<Step>, j: nat, g: nat, k: nat)
    requires IsRun(states, steps) && k <= |steps| && Selected(states, steps, j, g, k)
    ensures var job := states[k].jobs[j];
      job.AllFetched? && job.personIds == PersonsBefore(states[g].tables, job.cutoff)
    decreases k - g
  {
    hide Enabled, Next;
    assert Leads(states[k - 1], steps[k - 1], states[k]);
    if k == g + 1 {
      SelectStarts(states[g], j);
    } else {
      SelectedSince(states, steps, j, g, k - 1);
      StepKeepsFetched(states[k - 1], steps[k - 1], j);
    }
  }

  /** The step files a sighting under p. */
  predicate Sights(step: Step, p: Id) {
    step.Ingest? && Resolve(step.embeddingLength, step.found, step.newId) == p
  }

  lemma StepLastSeen(s: State, step: Step, p: Id)
    requires Enabled(s, step) && p in Next(s, step).tables.persons
    ensures var last := Next(s, step).tables.persons[p].lastSeen;
      if Sights(step, p) then
        last == if p in s.tables.persons && s.tables.persons[p].lastSeen > step.at
                then s.tables.persons[p].lastSeen else step.at
      else p in s.tables.persons && last == s.tables.persons[p].lastSeen
  {
  }

  /** Step m, between g and k, sights p at or after the cutoff, and p has existed since. */
  ghost predicate SightedSince(
    states: seq<State>, steps: seq<Step>, p: Id, cutoff: Time, g: nat, m: nat, k: nat
  )
    requires |states| == |steps| + 1 && k <= |steps|
  {
    && g < m < k && Sights(steps[m], p) && steps[m].at >= cutoff
    && forall i :: m < i <= k ==> p in states[i].tables.persons
  }

  /** A person that was not recent at g is recent at k exactly through such a step. */
  lemma {:induction false} RecentExactly(
    states: seq<State>, steps: seq<Step>, p: Id, cutoff: Time, g: nat, k: nat
  )
    requires IsRun(states, steps) && g < k <= |steps| && steps[g].FetchPersons?
    requires p in states[g].tables.persons ==> states[g].tables.persons[p].lastSeen < cutoff
    requires p in states[k].tables.persons
    ensures states[k].tables.persons[p].lastSeen >= cutoff
      <==> exists m: nat :: SightedSince(states, steps, p, cutoff, g, m, k)
    decreases k - g
  {
    hide Enabled, Next;
    var n := k - 1;
    assert Leads(states[n], steps[n], states[k]);
    StepLastSeen(states[n], steps[n], p);
    if n > g {
      if p in states[n].tables.persons { RecentExactly(states, steps, p, cutoff, g, n); }
      if m: nat :| SightedSince(states, steps, p, cutoff, g, m, n) {
        if p in states[n].tables.persons { assert SightedSince(states, steps, p, cutoff, g, m, k); }
      }
      if m: nat :| SightedSince(states, steps, p, cutoff, g, m, k) {
        if m < n { assert SightedSince(states, steps, p, cutoff, g, m, n); }
      }
      if Sights(steps[n], p) && steps[n].at >= cutoff { assert SightedSince(states, steps, p, cutoff, g, n, k); }
    }
  }

  /** RECENT SIGHTINGS ERASED, in every run, camera deletions included: a person a job
      erases was last seen at or after its cutoff if and only if some step between the
      job's person select and its deletes filed a sighting that late under that person,
      who has existed ever since. */
  lemma FreshErasuresExactly(states: seq<State>, steps: seq<Step>, j: nat, g: nat, k: nat, p: Id)
    requires IsRun(states, steps) && k < |steps| && Selected(states, steps, j, g, k) && steps[k] == Apply(j)
    requires p in states[k].tables.persons && j in states[k].jobs
    requires states[k].jobs[j].AllFetched? && p in states[k].jobs[j].personIds
    ensures p !in states[k + 1].tables.persons
    ensures var cutoff := states[k].jobs[j].cutoff;
      (states[k].tables.persons[p].lastSeen >= cutoff
       <==> exists m: nat :: SightedSince(states, steps, p, cutoff, g, m, k))
  {
    assert Leads(states[k], steps[k], states[k + 1]);
    SelectedSince(states, steps, j, g, k);
    RecentExactly(states, steps, p, states[k].jobs[j].cutoff, g, k);
  }
}
