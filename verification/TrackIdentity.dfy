/** When one track keeps one person: over all interleavings, exactly which store replaces
    the person a track is cached with, and the discipline under which none does. */
module TrackIdentity {
  import opened Associator
  import opened Gallery
  import opened Vectors
  import opened Wrappers

  /** This step caches a person for the key. */
  predicate Stores(s: State, step: Step, key: Key) {
    step.Store? && step.thread in s.threads && s.threads[step.thread].Storing? && s.threads[step.thread].key == key
  }

  /** This step forgets the key. */
  predicate Drops(step: Step, key: Key) {
    step.Cleanup? && key !in step.active
  }

  predicate Touches(s: State, step: Step, key: Key) { Stores(s, step, key) || Drops(step, key) }

  function CachedFor(s: State, key: Key): Option<PersonId> {
    if key in s.cache then Some(s.cache[key]) else None
  }

  /** Step m, between l and k, stored this id for the key, and nothing touched the key
      from there to k. */
  ghost predicate StoredLast(
      states: seq<State>, steps: seq<Step>, key: Key, l: nat, m: nat, k: nat, id: PersonId)
    requires |states| == |steps| + 1 && k <= |steps|
  {
    && l <= m < k && Stores(states[m], steps[m], key) && states[m].threads[steps[m].thread].id == id
    && forall j :: m < j < k ==> !Touches(states[j], steps[j], key)
  }

  lemma StepCache(c: Metric, s: State, step: Step, key: Key)
    requires Enabled(c, s, step)
    ensures CachedFor(Next(c, s, step), key) ==
      if Stores(s, step, key) then Some(s.threads[step.thread].id)
      else if Drops(step, key) then None
      else CachedFor(s, key)
  {
    hide WellFormed, MatchStep, Fresh;
  }

  /** What a key that was not cached at l is cached with at k was the last to be stored. */
  lemma {:induction false} CachedIsStoredLast(
      c: Metric, states: seq<State>, steps: seq<Step>, key: Key, l: nat, k: nat, id: PersonId)
    requires IsRun(c, states, steps) && l <= k <= |steps| && CachedFor(states[l], key) == None
    ensures CachedFor(states[k], key) == Some(id) <==> exists m: nat :: StoredLast(states, steps, key, l, m, k, id)
    decreases k - l
  {
    hide CachedFor, Enabled, Next, Touches;
    if k > l {
      var n := k - 1;
      CachedIsStoredLast(c, states, steps, key, l, n, id);
      assert Leads(c, states[n], steps[n], states[k]);
      StepCache(c, states[n], steps[n], key);
      StoredLastStep(states, steps, key, l, n, k, id);
    }
  }

  lemma StoredLastStep(states: seq<State>, steps: seq<Step>, key: Key, l: nat, n: nat, k: nat, id: PersonId)
    requires |states| == |steps| + 1 && l <= n < |steps| && k == n + 1
    ensures (exists m: nat :: StoredLast(states, steps, key, l, m, k, id)) <==>
      if Stores(states[n], steps[n], key) then states[n].threads[steps[n].thread].id == id
      else !Drops(steps[n], key) && exists m: nat :: StoredLast(states, steps, key, l, m, n, id)
  {
    if m: nat :| StoredLast(states, steps, key, l, m, k, id) {
      if m < n {
        assert !Touches(states[n], steps[n], key);
        assert StoredLast(states, steps, key, l, m, n, id);
      }
    }
    if Stores(states[n], steps[n], key) && states[n].threads[steps[n].thread].id == id {
      assert StoredLast(states, steps, key, l, n, k, id);
    }
    if !Touches(states[n], steps[n], key) {
      if m: nat :| StoredLast(states, steps, key, l, m, n, id) {
        assert StoredLast(states, steps, key, l, m, k, id);
      }
    }
  }

  // ------------------------------------------------------------ a call and its lookup

  /** Thread t takes no further lookup between l and k. */
  ghost predicate OneCall(steps: seq<Step>, t: nat, l: nat, k: nat)
    requires k <= |steps|
  {
    forall j :: l < j < k ==> !(steps[j].Lookup? && steps[j].thread == t)
  }

  lemma StepThread(c: Metric, s: State, step: Step, t: nat)
    requires Enabled(c, s, step) && !(step.Lookup? && step.thread == t)
    ensures var n := Next(c, s, step);
            t in n.threads ==> t in s.threads && n.threads[t].key == s.threads[t].key
  {
    hide WellFormed, MatchStep, Fresh;
  }

  /** A call suspended at k missed the cache at its lookup, is for that key, and was
      suspended all the while. */
  lemma {:induction false} SuspendedSinceLookup(
      c: Metric, states: seq<State>, steps: seq<Step>, t: nat, l: nat, j: nat, k: nat)
    requires IsRun(c, states, steps) && l < j <= k <= |steps| && OneCall(steps, t, l, k)
    requires steps[l].Lookup? && steps[l].thread == t && t in states[k].threads
    ensures CachedFor(states[l], steps[l].key) == None
    ensures t in states[j].threads && states[j].threads[t].key == steps[l].key == states[k].threads[t].key
    decreases k - l, k - j
  {
    hide Enabled, Next;
    if j < k {
      SuspendedSinceLookup(c, states, steps, t, l, j + 1, k);
      assert Leads(c, states[j], steps[j], states[j + 1]);
      StepThread(c, states[j], steps[j], t);
    } else if l + 1 < k {
      assert Leads(c, states[k - 1], steps[k - 1], states[k]);
      StepThread(c, states[k - 1], steps[k - 1], t);
      SuspendedSinceLookup(c, states, steps, t, l, k - 1, k - 1);
    } else {
      assert Leads(c, states[l], steps[l], states[k]);
      LookupMissed(c, states[l], steps[l]);
    }
  }

  lemma LookupMissed(c: Metric, s: State, step: Step)
    requires Enabled(c, s, step) && step.Lookup? && step.thread in Next(c, s, step).threads
    ensures CachedFor(s, step.key) == None && Next(c, s, step).threads[step.thread].key == step.key
  {
  }

  /** WHEN A TRACK GETS A SECOND PERSON. In every run, a call's store replaces the person
      its track is cached with if and only if between the call's own lookup and its store
      another call stored a different person for that track, the last one to do so, and
      no cleanup has forgotten the track since. */
  lemma SecondPersonExactly(
      c: Metric, states: seq<State>, steps: seq<Step>, t: nat, l: nat, k: nat)
    requires IsRun(c, states, steps) && l < k < |steps| && OneCall(steps, t, l, k)
    requires steps[l].Lookup? && steps[l].thread == t && steps[k] == Store(t)
    ensures t in states[k].threads && states[k].threads[t].Storing?
    ensures var key, id := steps[l].key, states[k].threads[t].id;
      && states[k].threads[t].key == key
      && ((key in states[k].cache && states[k].cache[key] != id) <==>
            exists m: nat, other ::
              StoredLast(states, steps, key, l, m, k, other) && other != id && steps[m].thread != t)
  {
    assert Leads(c, states[k], steps[k], states[k + 1]);
    SuspendedSinceLookup(c, states, steps, t, l, k, k);
    var key, id := steps[l].key, states[k].threads[t].id;
    hide Enabled, Next, StoredLast;
    forall m: nat, other | StoredLast(states, steps, key, l, m, k, other) ensures steps[m].thread != t {
      OthersStore(c, states, steps, t, key, l, m, k, other);
    }
    forall other
      ensures CachedFor(states[k], key) == Some(other) <==>
              exists m: nat :: StoredLast(states, steps, key, l, m, k, other)
    {
      CachedIsStoredLast(c, states, steps, key, l, k, other);
    }
    if key in states[k].cache && states[k].cache[key] != id {
      var other := states[k].cache[key];
      assert CachedFor(states[k], key) == Some(other);
      var m: nat :| StoredLast(states, steps, key, l, m, k, other);
      assert steps[m].thread != t;
    }
    if m: nat, other :|
      StoredLast(states, steps, key, l, m, k, other) && other != id && steps[m].thread != t
    {
      assert CachedFor(states[k], key) == Some(other);
    }
  }

  lemma OthersStore(
      c: Metric, states: seq<State>, steps: seq<Step>, t: nat, key: Key, l: nat, m: nat, k: nat, id: PersonId)
    requires IsRun(c, states, steps) && l < k <= |steps| && OneCall(steps, t, l, k)
    requires steps[l].Lookup? && steps[l].thread == t && t in states[k].threads
    requires StoredLast(states, steps, key, l, m, k, id)
    ensures steps[m].thread != t
  {
    hide Enabled;
    assert Leads(c, states[m], steps[m], states[m + 1]);
    SuspendedSinceLookup(c, states, steps, t, l, m + 1, k);
  }

  // ------------------------------------------------------- one call a track at a time

  /** No lookup is taken while a call for the same track is suspended. */
  ghost predicate Solo(s: State, step: Step) {
    step.Lookup? ==> forall t :: t in s.threads ==> s.threads[t].key != step.key
  }

  /** Suspended calls are for different tracks, none of them cached. */
  ghost predicate Apart(s: State) {
    && (forall t :: t in s.threads ==> s.threads[t].key !in s.cache)
    && (forall t, u :: t in s.threads && u in s.threads && t != u ==> s.threads[t].key != s.threads[u].key)
  }

  lemma StepKeepsApart(c: Metric, s: State, step: Step)
    requires Enabled(c, s, step) && Apart(s) && Solo(s, step)
    ensures Apart(Next(c, s, step))
  {
    hide WellFormed, MatchStep, Fresh;
  }

  lemma {:induction false} SoloRunsStayApart(c: Metric, states: seq<State>, steps: seq<Step>, k: nat)
    requires IsRun(c, states, steps) && k <= |steps|
    requires forall i :: 0 <= i < |steps| ==> Solo(states[i], steps[i])
    ensures Apart(states[k])
  {
    hide Enabled, Next, Apart, Solo;
    if k == 0 {
      NobodySuspended();
    } else {
      SoloRunsStayApart(c, states, steps, k - 1);
      assert Leads(c, states[k - 1], steps[k - 1], states[k]);
      StepKeepsApart(c, states[k - 1], steps[k - 1]);
    }
  }

  lemma NobodySuspended()
    ensures Apart(INITIAL)
  {
  }

  /** ONE TRACK, ONE PERSON. If no lookup is ever taken while a call for the same track is
      suspended, a cached track keeps its person until a cleanup forgets the track. */
  lemma {:induction false} TrackKeepsPerson(
      c: Metric, states: seq<State>, steps: seq<Step>, key: Key, i: nat, k: nat)
    requires IsRun(c, states, steps) && i <= k <= |steps| && key in states[i].cache
    requires forall j :: 0 <= j < |steps| ==> Solo(states[j], steps[j])
    requires forall j :: i <= j < k ==> !Drops(steps[j], key)
    ensures key in states[k].cache && states[k].cache[key] == states[i].cache[key]
    decreases k - i
  {
    if i < k {
      var n := k - 1;
      TrackKeepsPerson(c, states, steps, key, i, n);
      SoloRunsStayApart(c, states, steps, n);
      assert Leads(c, states[n], steps[n], states[k]);
      StepCache(c, states[n], steps[n], key);
      hide Enabled, Next, IsRun, Solo;
      assert CachedFor(states[k], key) == CachedFor(states[n], key);
    }
  }
}
