/** The in-memory re-identification gallery: an insertion-ordered dictionary from
    person ids to a sliding window of their latest embeddings. */
module Gallery {
  import opened Vectors

  type PersonId = string

  const MAX_EMBEDDINGS_PER_PERSON := 10

  /** How a gallery compares: the square root in use, the match threshold and the
      length every embedding has. */
  datatype Metric = Metric(root: real -> real, threshold: real, dim: nat)

  datatype Entry = Entry(id: PersonId, window: seq<Vec>)

  datatype Assignment = Assignment(id: PersonId, embedding: Vec)

  datatype Outcome = Outcome(entries: seq<Entry>, id: PersonId, isNew: bool)

  ghost predicate WellFormed(c: Metric, entries: seq<Entry>) {
    && IsSqrt(c.root)
    && (forall i :: 0 <= i < |entries| ==>
          && entries[i].id != ""
          && 1 <= |entries[i].window| <= MAX_EMBEDDINGS_PER_PERSON
          && SameLength(entries[i].window, c.dim))
    && (forall i, j :: 0 <= i < j < |entries| ==> entries[i].id != entries[j].id)
  }

  ghost predicate Fresh(entries: seq<Entry>, id: PersonId) {
    id != "" && forall i :: 0 <= i < |entries| ==> entries[i].id != id
  }

  ghost predicate Known(entries: seq<Entry>, id: PersonId) {
    exists i :: 0 <= i < |entries| && entries[i].id == id
  }

  function Similarity(c: Metric, e: Vec, w: seq<Vec>): real
    requires IsSqrt(c.root) && |e| == c.dim && w != [] && SameLength(w, c.dim)
  {
    Dot(e, AverageEmbeddings(c.root, w, c.dim))
  }

  /** Index of the person the scan ends on, or -1 when nobody beats the initial -1.0. */
  function Best(c: Metric, e: Vec, entries: seq<Entry>): (b: int)
    requires WellFormed(c, entries) && |e| == c.dim
    ensures -1 <= b < |entries|
  {
    if entries == [] then -1 else
      var n := |entries| - 1;
      var b := Best(c, e, entries[..n]);
      var bestSim := if b == -1 then -1.0 else Similarity(c, e, entries[b].window);
      if Similarity(c, e, entries[n].window) > bestSim then n else b
  }

  /** Appends a sample and drops the oldest one of an overfull window. */
  function Slide(w: seq<Vec>, e: Vec): seq<Vec> {
    var grown := w + [e];
    if |grown| > MAX_EMBEDDINGS_PER_PERSON then grown[1..] else grown
  }

  function MatchStep(c: Metric, entries: seq<Entry>, e: Vec, newId: PersonId): Outcome
    requires WellFormed(c, entries) && |e| == c.dim
  {
    var b := Best(c, e, entries);
    if b != -1 && Similarity(c, e, entries[b].window) >= c.threshold then
      var matched := entries[b];
      Outcome(entries[b := Entry(matched.id, Slide(matched.window, e))], matched.id, false)
    else
      Outcome(entries + [Entry(newId, [e])], newId, true)
  }

  // ------------------------------------------------------------- what is matched

  function Similarities(c: Metric, e: Vec, entries: seq<Entry>): (s: seq<real>)
    requires WellFormed(c, entries) && |e| == c.dim
    ensures |s| == |entries|
    ensures forall j :: 0 <= j < |entries| ==> s[j] == Similarity(c, e, entries[j].window)
  {
    seq(|entries|, j requires 0 <= j < |entries| => Similarity(c, e, entries[j].window))
  }

  /** b is the first position of the largest score, or -1 when no score exceeds -1.0. */
  ghost predicate FirstMaximum(scores: seq<real>, b: int) {
    && -1 <= b < |scores|
    && (b == -1 <==> forall j :: 0 <= j < |scores| ==> scores[j] <= -1.0)
    && (b != -1 ==>
          && scores[b] > -1.0
          && (forall j :: 0 <= j < |scores| ==> scores[j] <= scores[b])
          && (forall j :: 0 <= j < b ==> scores[j] < scores[b]))
  }

  lemma FirstMaximumExtends(scores: seq<real>, b: int, x: real)
    requires FirstMaximum(scores, b)
    ensures FirstMaximum(scores + [x], if x > (if b == -1 then -1.0 else scores[b]) then |scores| else b)
  {
    var longer := scores + [x];
    assert longer[|scores|] == x;
    assert forall j :: 0 <= j < |scores| ==> longer[j] == scores[j];
    if x > (if b == -1 then -1.0 else scores[b]) {
      assert forall j :: 0 <= j < |scores| ==> longer[j] < x;
    }
  }

  lemma SimilaritiesGrow(c: Metric, e: Vec, entries: seq<Entry>)
    requires WellFormed(c, entries) && |e| == c.dim && entries != []
    ensures var n := |entries| - 1;
            Similarities(c, e, entries) == Similarities(c, e, entries[..n]) + [Similarity(c, e, entries[n].window)]
  {
    hide Similarity, IsSqrt;
  }

  lemma ScanStep(c: Metric, e: Vec, entries: seq<Entry>)
    requires WellFormed(c, entries) && |e| == c.dim && entries != []
    ensures var n := |entries| - 1;
            var b := Best(c, e, entries[..n]);
            Best(c, e, entries) ==
              if Similarity(c, e, entries[n].window) > (if b == -1 then -1.0 else Similarities(c, e, entries[..n])[b])
              then n else b
  {
    hide Similarity, IsSqrt;
  }

  lemma {:induction false} ScanFindsFirstMaximum(c: Metric, e: Vec, entries: seq<Entry>)
    requires WellFormed(c, entries) && |e| == c.dim
    ensures FirstMaximum(Similarities(c, e, entries), Best(c, e, entries))
  {
    if entries == [] {
      assert Similarities(c, e, entries) == [];
    } else {
      var n := |entries| - 1;
      hide Similarity, Best, IsSqrt;
      ScanFindsFirstMaximum(c, e, entries[..n]);
      ScanStep(c, e, entries);
      SimilaritiesGrow(c, e, entries);
      hide FirstMaximum;
      var scores := Similarities(c, e, entries[..n]);
      FirstMaximumExtends(scores, Best(c, e, entries[..n]), Similarity(c, e, entries[n].window));
    }
  }

  /** The scan ends on the earliest-inserted person of maximal similarity. */
  lemma BestIsFirstMaximum(c: Metric, e: Vec, entries: seq<Entry>)
    requires WellFormed(c, entries) && |e| == c.dim
    ensures var b := Best(c, e, entries);
      && (b == -1 <==> forall j :: 0 <= j < |entries| ==> Similarity(c, e, entries[j].window) <= -1.0)
      && (b != -1 ==>
            && Similarity(c, e, entries[b].window) > -1.0
            && (forall j :: 0 <= j < |entries| ==>
                  Similarity(c, e, entries[j].window) <= Similarity(c, e, entries[b].window))
            && (forall j :: 0 <= j < b ==>
                  Similarity(c, e, entries[j].window) < Similarity(c, e, entries[b].window)))
  {
    ScanFindsFirstMaximum(c, e, entries);
    var scores := Similarities(c, e, entries);
    hide Similarity, WellFormed, Best;
    assert forall j :: 0 <= j < |entries| ==> Similarity(c, e, entries[j].window) == scores[j];
  }

  /** A call registers a new person exactly when nobody both reaches the threshold
      and beats the scan's initial score. For thresholds above -1 the second part is idle. */
  lemma NewExactlyWhenNobodyReaches(c: Metric, entries: seq<Entry>, e: Vec, newId: PersonId)
    requires WellFormed(c, entries) && |e| == c.dim
    ensures MatchStep(c, entries, e, newId).isNew <==>
            forall j :: 0 <= j < |entries| ==>
              Similarity(c, e, entries[j].window) < c.threshold || Similarity(c, e, entries[j].window) <= -1.0
  {
    BestIsFirstMaximum(c, e, entries);
  }

  /** Whoever is matched is closest, the earliest of those, and reaches the threshold. */
  lemma MatchedIsClosest(c: Metric, entries: seq<Entry>, e: Vec, newId: PersonId)
    requires WellFormed(c, entries) && |e| == c.dim && !MatchStep(c, entries, e, newId).isNew
    ensures var o := MatchStep(c, entries, e, newId);
      exists i :: 0 <= i < |entries| && entries[i].id == o.id
        && Similarity(c, e, entries[i].window) >= c.threshold
        && (forall j :: 0 <= j < |entries| ==>
              Similarity(c, e, entries[j].window) <= Similarity(c, e, entries[i].window))
        && (forall j :: 0 <= j < i ==> Similarity(c, e, entries[j].window) < Similarity(c, e, entries[i].window))
  {
    hide Similarity, IsSqrt;
    BestIsFirstMaximum(c, e, entries);
    var b := Best(c, e, entries);
    assert entries[b].id == MatchStep(c, entries, e, newId).id;
  }

  lemma StepWellFormed(c: Metric, entries: seq<Entry>, e: Vec, newId: PersonId)
    requires WellFormed(c, entries) && |e| == c.dim && Fresh(entries, newId)
    ensures var o := MatchStep(c, entries, e, newId);
      && WellFormed(c, o.entries)
      && Known(o.entries, o.id)
      && |o.entries| == |entries| + (if o.isNew then 1 else 0)
      && (o.isNew ==> o.id == newId)
      && (forall i :: 0 <= i < |entries| ==> o.entries[i].id == entries[i].id)
  {
    hide Similarity, IsSqrt;
    var o := MatchStep(c, entries, e, newId);
    var at := if o.isNew then |entries| else Best(c, e, entries);
    assert o.entries[at].id == o.id;
  }

  // ------------------------------------------------- the windows refine the history

  /** All embeddings ever assigned to `id`, oldest first. */
  function AssignedTo(history: seq<Assignment>, id: PersonId): seq<Vec> {
    if history == [] then [] else
      var n := |history| - 1;
      var before := AssignedTo(history[..n], id);
      if history[n].id == id then before + [history[n].embedding] else before
  }

  function LastTen(s: seq<Vec>): seq<Vec> {
    if |s| <= MAX_EMBEDDINGS_PER_PERSON then s else s[|s| - MAX_EMBEDDINGS_PER_PERSON..]
  }

  /** Every window is the last ten embeddings ever assigned to its person, and
      everybody an embedding was assigned to is still present. */
  ghost predicate Refines(entries: seq<Entry>, history: seq<Assignment>) {
    && (forall i :: 0 <= i < |entries| ==> entries[i].window == LastTen(AssignedTo(history, entries[i].id)))
    && (forall k :: 0 <= k < |history| ==> Known(entries, history[k].id))
  }

  lemma SlideKeepsLastTen(s: seq<Vec>, e: Vec)
    ensures Slide(LastTen(s), e) == LastTen(s + [e])
  {
  }

  lemma {:induction false} NeverAssigned(history: seq<Assignment>, id: PersonId)
    requires forall k :: 0 <= k < |history| ==> history[k].id != id
    ensures AssignedTo(history, id) == []
  {
    if history != [] { NeverAssigned(history[..|history| - 1], id); }
  }

  lemma StepRefines(c: Metric, entries: seq<Entry>, history: seq<Assignment>, e: Vec, newId: PersonId)
    requires WellFormed(c, entries) && |e| == c.dim && Fresh(entries, newId) && Refines(entries, history)
    ensures var o := MatchStep(c, entries, e, newId);
            Refines(o.entries, history + [Assignment(o.id, e)])
  {
    hide Similarity, IsSqrt;
    var o := MatchStep(c, entries, e, newId);
    var longer := history + [Assignment(o.id, e)];
    assert longer[..|history|] == history;
    StepWellFormed(c, entries, e, newId);
    forall i | 0 <= i < |o.entries|
      ensures o.entries[i].window == LastTen(AssignedTo(longer, o.entries[i].id))
    {
      if i == |entries| {
        NeverAssigned(history, newId);
      } else if o.entries[i].id == o.id {
        SlideKeepsLastTen(AssignedTo(history, o.id), e);
      }
    }
    forall k | 0 <= k < |longer|
      ensures Known(o.entries, longer[k].id)
    {
      if k < |history| {
        var i :| 0 <= i < |entries| && entries[i].id == history[k].id;
        assert o.entries[i].id == longer[k].id;
      }
    }
  }

  // --------------------------------------------------------------------- the class

  class PersonGallery {
    const metric: Metric
    var entries: seq<Entry>
    ghost var history: seq<Assignment>

    ghost predicate Valid() reads this {
      WellFormed(metric, entries) && Refines(entries, history)
    }

    constructor (metric: Metric)
      requires IsSqrt(metric.root)
      ensures Valid() && this.metric == metric && entries == [] && history == []
    {
      this.metric := metric;
      entries, history := [], [];
    }

    /** The scan over all persons, in insertion order. */
    method FindBest(e: Vec) returns (best: int, bestSim: real)
      requires Valid() && |e| == metric.dim
      ensures best == Best(metric, e, entries)
      ensures bestSim == if best == -1 then -1.0 else Similarity(metric, e, entries[best].window)
    {
      hide Dot, AverageEmbeddings, AssignedTo, LastTen;
      best, bestSim := -1, -1.0;
      var k := 0;
      while k < |entries|
        invariant 0 <= k <= |entries|
        invariant best == Best(metric, e, entries[..k])
        invariant bestSim == if best == -1 then -1.0 else Similarity(metric, e, entries[best].window)
      {
        var sim := Dot(e, AverageEmbeddings(metric.root, entries[k].window, metric.dim));
        ghost var upto := entries[..k + 1];
        assert upto[..k] == entries[..k];
        if sim > bestSim {
          best, bestSim := k, sim;
        }
        k := k + 1;
      }
      assert entries[..k] == entries;
    }

    /** One locked call. `newId` is the random identifier drawn if nobody matches. */
    method MatchOrCreate(e: Vec, newId: PersonId) returns (id: PersonId, isNew: bool)
      requires Valid() && |e| == metric.dim && Fresh(entries, newId)
      modifies this
      ensures Valid()
      ensures MatchStep(metric, old(entries), e, newId) == Outcome(entries, id, isNew)
      ensures history == old(history) + [Assignment(id, e)]
    {
      hide Dot, AverageEmbeddings, AssignedTo, LastTen, Best, Similarity;
      var best, bestSim := FindBest(e);
      ghost var o := MatchStep(metric, entries, e, newId);
      StepWellFormed(metric, entries, e, newId);
      StepRefines(metric, entries, history, e, newId);
      assert best != -1 ==> entries[best].id != "";
      hide WellFormed, Refines;
      if best != -1 && entries[best].id != "" && bestSim >= metric.threshold {
        id, isNew := entries[best].id, false;
        entries := entries[best := Entry(id, entries[best].window + [e])];
        if |entries[best].window| > MAX_EMBEDDINGS_PER_PERSON {
          entries := entries[best := Entry(id, entries[best].window[1..])];
        }
      } else {
        id, isNew := newId, true;
        entries := entries + [Entry(newId, [e])];
      }
      assert Outcome(entries, id, isNew) == o;
      history := history + [Assignment(id, e)];
    }
  }
}
