/** Association of per-camera tracks with gallery persons. `associate` takes its own
    lock twice and the gallery's lock once in between, so calls of several threads
    interleave at those three points. */
module Associator {
  import opened Vectors
  import opened Gallery
  import Stability

  datatype Key = Key(camera: string, track: int)

  /** Where a suspended call of `associate` stands. */
  datatype Pending =
    | Matching(key: Key, embedding: Vec)
    | Storing(key: Key, id: PersonId, isNew: bool)

  /** `reported` counts the calls that have returned "new person". */
  datatype State = State(
    entries: seq<Entry>, cache: map<Key, PersonId>, threads: map<nat, Pending>, reported: nat)

  datatype Step =
    | Lookup(thread: nat, key: Key, embedding: Vec)
    | Match(thread: nat, newId: PersonId)
    | Store(thread: nat)
    | Cleanup(active: set<Key>)

  const INITIAL := State([], map[], map[], 0)

  ghost predicate Enabled(c: Metric, s: State, step: Step) {
    && WellFormed(c, s.entries)
    && match step
       case Lookup(t, _, e) => t !in s.threads && |e| == c.dim
       case Match(t, newId) => t in s.threads && s.threads[t].Matching? && Fresh(s.entries, newId)
                               && |s.threads[t].embedding| == c.dim
       case Store(t) => t in s.threads && s.threads[t].Storing?
       case Cleanup(_) => true
  }

  function KeepActive(cache: map<Key, PersonId>, active: set<Key>): map<Key, PersonId> {
    map k | k in cache && k in active :: cache[k]
  }

  function Next(c: Metric, s: State, step: Step): State
    requires Enabled(c, s, step)
  {
    match step
    case Lookup(t, key, e) =>
      if key in s.cache then s else s.(threads := s.threads[t := Matching(key, e)])
    case Match(t, newId) =>
      var p := s.threads[t];
      var o := MatchStep(c, s.entries, p.embedding, newId);
      s.(entries := o.entries, threads := s.threads[t := Storing(p.key, o.id, o.isNew)])
    case Store(t) =>
      var p := s.threads[t];
      State(s.entries, s.cache[p.key := p.id], s.threads - {t}, s.reported + if p.isNew then 1 else 0)
    case Cleanup(active) =>
      s.(cache := KeepActive(s.cache, active))
  }

  /** Suspended calls that are about to report a new person. */
  function AboutToReport(threads: map<nat, Pending>): set<nat> {
    set t | t in threads && threads[t].Storing? && threads[t].isNew
  }

  ghost predicate Inv(c: Metric, s: State) {
    && WellFormed(c, s.entries)
    && (forall k :: k in s.cache ==> Known(s.entries, s.cache[k]))
    && (forall t :: t in s.threads ==>
          && (s.threads[t].Matching? ==> |s.threads[t].embedding| == c.dim)
          && (s.threads[t].Storing? ==> Known(s.entries, s.threads[t].id)))
    && s.reported + |AboutToReport(s.threads)| == |s.entries|
  }

  /** The persons of `before` are all still there, at the same place. */
  ghost predicate Grows(before: seq<Entry>, after: seq<Entry>) {
    |before| <= |after| && forall i :: 0 <= i < |before| ==> after[i].id == before[i].id
  }

  lemma KnownGrows(before: seq<Entry>, after: seq<Entry>, id: PersonId)
    requires Grows(before, after) && Known(before, id)
    ensures Known(after, id)
  {
    var i :| 0 <= i < |before| && before[i].id == id;
    assert after[i].id == id;
  }

  lemma MatchGrows(c: Metric, entries: seq<Entry>, e: Vec, newId: PersonId)
    requires WellFormed(c, entries) && |e| == c.dim && Fresh(entries, newId)
    ensures var o := MatchStep(c, entries, e, newId);
      && WellFormed(c, o.entries) && Grows(entries, o.entries) && Known(o.entries, o.id)
      && |o.entries| == |entries| + (if o.isNew then 1 else 0)
      && forall id :: Known(entries, id) ==> Known(o.entries, id)
  {
    StepWellFormed(c, entries, e, newId);
    hide MatchStep, WellFormed, Fresh;
    var o := MatchStep(c, entries, e, newId);
    assert Grows(entries, o.entries);
    forall id | Known(entries, id) ensures Known(o.entries, id) { KnownGrows(entries, o.entries, id); }
  }

  lemma MatchKeepsInv(c: Metric, s: State, t: nat, newId: PersonId)
    requires Inv(c, s) && Enabled(c, s, Match(t, newId))
    ensures Inv(c, Next(c, s, Match(t, newId)))
    ensures Grows(s.entries, Next(c, s, Match(t, newId)).entries)
  {
    hide MatchStep, WellFormed, Fresh, Known, Grows;
    var p := s.threads[t];
    MatchGrows(c, s.entries, p.embedding, newId);
    var o := MatchStep(c, s.entries, p.embedding, newId);
    var before := AboutToReport(s.threads);
    assert t !in before;
    assert AboutToReport(s.threads[t := Storing(p.key, o.id, o.isNew)])
        == if o.isNew then before + {t} else before;
  }

  lemma StoreReports(threads: map<nat, Pending>, t: nat)
    requires t in threads && threads[t].Storing?
    ensures |AboutToReport(threads - {t})| == |AboutToReport(threads)| - if threads[t].isNew then 1 else 0
  {
    assert AboutToReport(threads - {t}) == AboutToReport(threads) - {t};
  }

  lemma StoreKeepsInv(c: Metric, s: State, t: nat)
    requires Inv(c, s) && Enabled(c, s, Store(t))
    ensures Inv(c, Next(c, s, Store(t)))
  {
    StoreReports(s.threads, t);
    assert Known(s.entries, s.threads[t].id);
    hide WellFormed, Known, AboutToReport;
  }

  lemma StepKeepsInv(c: Metric, s: State, step: Step)
    requires Inv(c, s) && Enabled(c, s, step)
    ensures Inv(c, Next(c, s, step)) && Grows(s.entries, Next(c, s, step).entries)
  {
    match step
    case Lookup(t, key, e) =>
      hide WellFormed;
      assert AboutToReport(Next(c, s, step).threads) == AboutToReport(s.threads);
    case Match(t, newId) => MatchKeepsInv(c, s, t, newId);
    case Store(t) => StoreKeepsInv(c, s, t);
    case Cleanup(active) => hide WellFormed;
  }

  ghost predicate Leads(c: Metric, s: State, step: Step, n: State) {
    Enabled(c, s, step) && n == Next(c, s, step)
  }

  ghost predicate IsRun(c: Metric, states: seq<State>, steps: seq<Step>) {
    && |states| == |steps| + 1 && states[0] == INITIAL
    && forall k :: 0 <= k < |steps| ==> Leads(c, states[k], steps[k], states[k + 1])
  }

  /** INTERLEAVED SAFETY. In every interleaving, at every point: cached persons exist,
      no person is ever lost, and once no call is suspended the number of calls that
      reported a new person is the number of persons. */
  lemma {:induction false} EveryInterleavingIsSafe(c: Metric, states: seq<State>, steps: seq<Step>)
    requires IsSqrt(c.root) && IsRun(c, states, steps)
    ensures forall k :: 0 <= k < |states| ==>
      && Inv(c, states[k])
      && Grows(states[k].entries, states[|steps|].entries)
      && (states[k].threads == map[] ==> states[k].reported == |states[k].entries|)
  {
    if |steps| > 0 {
      var n := |steps| - 1;
      EveryInterleavingIsSafe(c, states[..n + 1], steps[..n]);
      assert forall k :: 0 <= k <= n ==> states[..n + 1][k] == states[k];
      assert Leads(c, states[n], steps[n], states[n + 1]);
      assert Inv(c, states[n]);
      StepKeepsInv(c, states[n], steps[n]);
    }
  }

  // ----------------------------------------------------- one track, two identities

  const TRACK := Key("cam", 1)
  const EAST: Vec := [1.0, 0.0]
  const NORTH: Vec := [0.0, 1.0]

  const RACE: seq<Step> := [
    Lookup(0, TRACK, EAST), Lookup(1, TRACK, NORTH), Match(0, "a"), Match(1, "b"), Store(0), Store(1)]

  function RaceState(k: nat): State {
    if k == 0 then INITIAL
    else if k == 1 then State([], map[], map[0 := Matching(TRACK, EAST)], 0)
    else if k == 2 then State([], map[], map[0 := Matching(TRACK, EAST), 1 := Matching(TRACK, NORTH)], 0)
    else if k == 3 then State(ONE, map[], map[0 := Storing(TRACK, "a", true), 1 := Matching(TRACK, NORTH)], 0)
    else if k == 4 then State(TWO, map[], map[0 := Storing(TRACK, "a", true), 1 := Storing(TRACK, "b", true)], 0)
    else if k == 5 then State(TWO, map[TRACK := "a"], map[1 := Storing(TRACK, "b", true)], 1)
    else State(TWO, map[TRACK := "b"], map[], 2)
  }

  const ONE: seq<Entry> := [Entry("a", [EAST])]
  const TWO: seq<Entry> := [Entry("a", [EAST]), Entry("b", [NORTH])]

  lemma GalleriesWellFormed(c: Metric)
    requires IsSqrt(c.root) && c.dim == 2
    ensures WellFormed(c, []) && WellFormed(c, ONE) && WellFormed(c, TWO) && Fresh([], "a") && Fresh(ONE, "b")
  {
  }

  /** Orthogonal embeddings make two different persons. */
  lemma OrthogonalIsNew(c: Metric)
    requires IsSqrt(c.root) && c.threshold == 0.75 && c.dim == 2 && WellFormed(c, []) && WellFormed(c, ONE)
    ensures MatchStep(c, [], EAST, "a") == Outcome(ONE, "a", true)
    ensures MatchStep(c, ONE, NORTH, "b") == Outcome(TWO, "b", true)
  {
    hide Dot, Similarity, WellFormed;
    Stability.PlaneVectors(NORTH, NORTH); Stability.PlaneVectors(NORTH, EAST);
    NewExactlyWhenNobodyReaches(c, [], EAST, "a");
    OrthogonalIsUnreached(c);
    NewExactlyWhenNobodyReaches(c, ONE, NORTH, "b");
  }

  lemma OrthogonalIsUnreached(c: Metric)
    requires IsSqrt(c.root) && c.threshold == 0.75 && c.dim == 2
    ensures Similarity(c, NORTH, [EAST]) < c.threshold
  {
    hide Dot, Similarity;
    Stability.PlaneVectors(NORTH, NORTH); Stability.PlaneVectors(NORTH, EAST);
    Stability.SimilarityReaches(c, NORTH, [EAST]);
  }

  lemma RaceLookup(c: Metric, k: nat)
    requires IsSqrt(c.root) && c.dim == 2 && k < 2
    ensures Leads(c, RaceState(k), RACE[k], RaceState(k + 1))
  {
    GalleriesWellFormed(c);
    hide WellFormed, Fresh;
    assert Next(c, RaceState(k), RACE[k]) == RaceState(k + 1);
  }

  lemma RaceMatchEast(c: Metric)
    requires IsSqrt(c.root) && c.threshold == 0.75 && c.dim == 2
    ensures Leads(c, RaceState(2), RACE[2], RaceState(3))
  {
    hide WellFormed, Fresh, MatchStep, IsSqrt;
    GalleriesWellFormed(c);
    OrthogonalIsNew(c);
    assert RaceState(3).threads == RaceState(2).threads[0 := Storing(TRACK, "a", true)];
  }

  lemma RaceMatchNorth(c: Metric)
    requires IsSqrt(c.root) && c.threshold == 0.75 && c.dim == 2
    ensures Leads(c, RaceState(3), RACE[3], RaceState(4))
  {
    hide WellFormed, Fresh, MatchStep, IsSqrt;
    GalleriesWellFormed(c);
    OrthogonalIsNew(c);
    assert RaceState(4).threads == RaceState(3).threads[1 := Storing(TRACK, "b", true)];
  }

  lemma RaceStore(c: Metric, k: nat)
    requires IsSqrt(c.root) && c.dim == 2 && 4 <= k < 6
    ensures Leads(c, RaceState(k), RACE[k], RaceState(k + 1))
  {
    GalleriesWellFormed(c);
    hide WellFormed, Fresh;
    var s, n := RaceState(k), RaceState(k + 1);
    assert n.threads == s.threads - {(k - 4) as nat};
  }

  /** Two threads that miss the cache for the same track can each register a person for
      it; both report "new", and the later store decides which one the cache keeps. */
  lemma RaceSplitsTrack(root: real -> real)
    requires IsSqrt(root)
    ensures exists states: seq<State> ::
      && IsRun(Metric(root, 0.75, 2), states, RACE)
      && states[6].reported == 2 && states[6].cache == map[TRACK := "b"]
  {
    hide Leads;
    var c := Metric(root, 0.75, 2);
    var states := seq(7, k requires 0 <= k < 7 => RaceState(k));
    forall k | 0 <= k < |RACE| ensures Leads(c, states[k], RACE[k], states[k + 1]) {
      if k < 2 {
        RaceLookup(c, k);
      } else if k < 4 {
        RaceMatchEast(c);
        RaceMatchNorth(c);
      } else {
        RaceStore(c, k);
      }
    }
    assert states[6] == RaceState(6);
    assert IsRun(c, states, RACE);
  }

  // --------------------------------------------------------------------- the class

  /** What one uninterrupted call of `associate` does to the state. */
  function Associated(c: Metric, s: State, key: Key, e: Vec, newId: PersonId): State
    requires WellFormed(c, s.entries) && |e| == c.dim && Fresh(s.entries, newId) && 0 !in s.threads
  {
    var looked := Next(c, s, Lookup(0, key, e));
    if key in s.cache then looked else
      var matched := Next(c, looked, Match(0, newId));
      assert Enabled(c, matched, Store(0)) by { StepWellFormed(c, s.entries, e, newId); }
      Next(c, matched, Store(0))
  }

  class MTMCAssociator {
    const gallery: PersonGallery
    var cache: map<Key, PersonId>
    ghost var reported: nat

    ghost function View(): State reads this, gallery {
      State(gallery.entries, cache, map[], reported)
    }

    ghost predicate Valid() reads this, gallery {
      gallery.Valid() && Inv(gallery.metric, View())
    }

    constructor (gallery: PersonGallery)
      requires gallery.Valid() && gallery.entries == []
      ensures Valid() && this.gallery == gallery && View() == INITIAL
    {
      this.gallery := gallery;
      cache, reported := map[], 0;
    }

    method Associate(key: Key, e: Vec, newId: PersonId) returns (id: PersonId, isNew: bool)
      requires Valid() && |e| == gallery.metric.dim && Fresh(gallery.entries, newId)
      modifies this, gallery
      ensures Valid()
      ensures View() == old(Associated(gallery.metric, View(), key, e, newId))
      ensures key in cache && cache[key] == id && Known(gallery.entries, id)
      ensures old(key in cache) ==> !isNew && id == old(cache)[key]
      ensures isNew ==> id == newId && reported == old(reported) + 1
    {
      hide MatchStep, WellFormed, Refines;
      if key in cache {
        return cache[key], false;
      }
      StepWellFormed(gallery.metric, gallery.entries, e, newId);
      ghost var s := View();
      StepKeepsInv(gallery.metric, s, Lookup(0, key, e));
      ghost var s' := Next(gallery.metric, s, Lookup(0, key, e));
      StepKeepsInv(gallery.metric, s', Match(0, newId));
      ghost var s'' := Next(gallery.metric, s', Match(0, newId));
      StepKeepsInv(gallery.metric, s'', Store(0));
      id, isNew := gallery.MatchOrCreate(e, newId);
      cache := cache[key := id];
      reported := reported + if isNew then 1 else 0;
    }

    /** Forgets the tracks that are not active any more, and no others. */
    method CleanupLostTracks(active: set<Key>)
      requires Valid()
      modifies this`cache
      ensures Valid()
      ensures cache == KeepActive(old(cache), active)
    {
      hide Inv;
      var stale := set k | k in cache && k !in active;
      var todo := stale;
      while todo != {}
        invariant todo <= stale
        invariant cache == map k | k in old(cache) && (k in active || k in todo) :: old(cache)[k]
        decreases todo
      {
        var k :| k in todo;
        cache := cache - {k};
        todo := todo - {k};
      }
      assert cache == KeepActive(old(cache), active);
      StepKeepsInv(gallery.metric, old(View()), Cleanup(active));
    }
  }
}
