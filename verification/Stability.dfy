/** When presenting the same embedding twice in a row yields the same person. */
module Stability {
  import opened Vectors
  import opened Gallery
  import opened Reals

  /** Root-free form of "the average of k samples with sum s reaches threshold t
      against e", where d is e.s and q is s.s. */
  predicate Reaches(t: real, d: real, q: real, k: nat) {
    (k as real * MIN_NORM) * (k as real * MIN_NORM) <= q && 0.0 < d && t * t * q <= d * d
  }

  ghost predicate WindowReaches(c: Metric, e: Vec, w: seq<Vec>)
    requires |e| == c.dim && w != [] && SameLength(w, c.dim)
  {
    var s := Sum(w, c.dim);
    Reaches(c.threshold, Dot(e, s), Dot(s, s), |w|)
  }

  // -------------------------------------------------------- similarity as squares

  lemma SmallMean(root: real -> real, t: real, d: real, q: real, k: nat)
    requires IsSqrt(root) && MIN_NORM < t && 0 < k && 0.0 <= q && d * d <= q
    requires (1.0 / k as real) * root(q) < MIN_NORM
    ensures (1.0 / k as real) * d < t && !Reaches(t, d, q, k)
  {
    var n, kr := root(q), k as real;
    assert kr * ((1.0 / kr) * n) == n;
    Times(kr, (1.0 / kr) * n, MIN_NORM);
    if n < d { SquareIncreasing(n, d); }
    Times(kr, n / kr, MIN_NORM);
    SquareOrder(n, kr * MIN_NORM);
    assert kr * ((1.0 / kr) * d) == d;
    Times(kr, (1.0 / kr) * d, MIN_NORM);
  }

  lemma Times(k: real, x: real, y: real)
    requires 0.0 < k
    ensures x < y <==> k * x < k * y
  {
    if x < y { PositiveProduct(k, y - x); assert k * (y - x) == k * y - k * x; }
    if y < x { PositiveProduct(k, x - y); assert k * (x - y) == k * x - k * y; }
  }

  lemma LargeMean(root: real -> real, t: real, d: real, q: real, k: nat)
    requires IsSqrt(root) && MIN_NORM < t && 0 < k && 0.0 <= q
    requires MIN_NORM <= (1.0 / k as real) * root(q)
    ensures var m := (1.0 / k as real) * root(q);
            t <= (1.0 / m) * ((1.0 / k as real) * d) <==> Reaches(t, d, q, k)
  {
    var n, kr := root(q), k as real;
    var m := (1.0 / kr) * n;
    assert kr * m == n;
    Times(kr, m, MIN_NORM);
    assert kr * MIN_NORM <= n;
    SquareOrder(n, kr * MIN_NORM);
    var sim := (1.0 / m) * ((1.0 / kr) * d);
    assert n * sim == d by {
      assert n * sim == (kr * m) * ((1.0 / m) * ((1.0 / kr) * d));
      assert (kr * m) * ((1.0 / m) * ((1.0 / kr) * d)) == (m * (1.0 / m)) * (kr * (1.0 / kr)) * d;
      assert m * (1.0 / m) == 1.0;
    }
    Times(n, sim, t);
    PositiveProduct(n, t);
    if 0.0 < d { SquareOrder(d, n * t); }
    assert (n * t) * (n * t) == t * t * (n * n);
  }

  /** The floating comparison `sim >= threshold` of the code, with all its roots and
      divisions, is exactly the root-free condition on dot products. */
  lemma {:induction false} SimilarityReaches(c: Metric, e: Vec, w: seq<Vec>)
    requires IsSqrt(c.root) && |e| == c.dim && Unit(e) && MIN_NORM < c.threshold
    requires w != [] && SameLength(w, c.dim)
    ensures Similarity(c, e, w) >= c.threshold <==> WindowReaches(c, e, w)
  {
    hide Dot, Scale, Sum;
    var s, k := Sum(w, c.dim), |w|;
    var d, q := Dot(e, s), Dot(s, s);
    var m := Mean(w, c.dim);
    DotSelfNonNegative(s);
    CauchySchwarz(e, s);
    NormScale(c.root, 1.0 / k as real, s);
    DotScale(e, 1.0 / k as real, s);
    if Norm(c.root, m) < MIN_NORM {
      SmallMean(c.root, c.threshold, d, q, k);
    } else {
      DotScale(e, 1.0 / Norm(c.root, m), m);
      LargeMean(c.root, c.threshold, d, q, k);
    }
  }

  /** What a unit embedding is compared with is never beyond a cosine, also when the mean
      of a window is too short to be normalised. */
  lemma SimilarityInRange(c: Metric, e: Vec, w: seq<Vec>)
    requires IsSqrt(c.root) && |e| == c.dim && Unit(e) && w != [] && SameLength(w, c.dim)
    ensures -1.0 <= Similarity(c, e, w) <= 1.0
  {
    var m := Mean(w, c.dim);
    var n := Norm(c.root, m);
    DotSelfNonNegative(m);
    if n < MIN_NORM {
      SquareOrder(n, 1.0);
    } else {
      NormalizedIsUnit(c.root, m);
    }
    hide Dot, Mean;
    CosineInRange(e, AverageEmbeddings(c.root, w, c.dim));
  }

  // ------------------------------------------------------------ the pull of a sample

  /** The similarity from d = e.s, the length n of s, and the number k of samples. */
  function MeanCosine(d: real, n: real, k: real): real
    requires 0.0 < k && 0.0 <= n
  {
    if n < k * MIN_NORM then d / k else d / n
  }

  lemma Quotients(a: real, p: real, b: real, q: real)
    requires 0.0 < p && 0.0 < q && a * q <= b * p
    ensures a / p <= b / q
  {
    var x := b / q;
    assert (x * p) * q == (x * q) * p && x * q == b;
    if x * p < a { Strict(q, x * p, a); }
    QuotientOrder(a, p, x);
  }

  lemma SmallBefore(d: real, n: real, n': real, k: real)
    requires 1.0 <= k <= 9.0 && 0.0 <= n < k * MIN_NORM && 0.0 <= n' && -n <= d <= n
    requires n' * n' == n * n + 2.0 * d + 1.0
    ensures MeanCosine(d + 1.0, n', k + 1.0) >= MeanCosine(d, n, k)
  {
    assert (1.0 + n) * (1.0 + n) == n * n + 2.0 * n + 1.0;
    SquareOrder(1.0 + n, n');
    assert (1.0 - n) * (1.0 - n) == n * n - 2.0 * n + 1.0;
    SquareOrder(n', 1.0 - n);
    assert 1.0 - n <= n' <= 1.0 + n;
    QuotientOrder(d, k, MIN_NORM);
    QuotientOrder(MIN_NORM, 1.0, (d + 1.0) / n');
    Quotients(MIN_NORM, 1.0, d + 1.0, n');
  }

  lemma SmallAfter(d: real, n: real, n': real, k: real)
    requires 1.0 <= k <= 9.0 && k * MIN_NORM <= n && 0.0 <= n' < (k + 1.0) * MIN_NORM && -n' <= d + 1.0 <= n'
    requires n * n == n' * n' - 2.0 * (d + 1.0) + 1.0
    ensures MeanCosine(d + 1.0, n', k + 1.0) >= MeanCosine(d, n, k)
  {
    assert (1.0 + n') * (1.0 + n') == n' * n' + 2.0 * n' + 1.0;
    SquareOrder(1.0 + n', n);
    assert n <= 1.0 + n' <= 2.0;
    assert d < -0.5;
    Quotients(d, n, -0.25, 1.0);
    Quotients(-0.25, 1.0, d + 1.0, k + 1.0);
  }

  lemma BothNormal(d: real, n: real, n': real, k: real)
    requires 1.0 <= k && k * MIN_NORM <= n && (k + 1.0) * MIN_NORM <= n' && d * d <= n * n
    requires n' * n' == n * n + 2.0 * d + 1.0
    ensures MeanCosine(d + 1.0, n', k + 1.0) >= MeanCosine(d, n, k)
  {
    CrossProducts(d, n, n');
    Quotients(d, n, d + 1.0, n');
  }

  lemma CrossProducts(d: real, n: real, n': real)
    requires 0.0 < n && 0.0 < n' && d * d <= n * n && n' * n' == n * n + 2.0 * d + 1.0
    ensures d * n' <= (d + 1.0) * n
  {
    var a, b := d * n', (d + 1.0) * n;
    assert a * a == d * d * (n' * n') && b * b == (d + 1.0) * (d + 1.0) * (n * n);
    var room := n * n - d * d;
    assert b * b - a * a == room * (2.0 * d + 1.0);
    if 0.0 <= d {
      NonNegativeProduct(room, 2.0 * d + 1.0);
      NonNegativeProduct(d, n');
      NonNegativeProduct(d + 1.0, n);
      if b < a { SquareIncreasing(b, a); }
    } else if d <= -1.0 {
      NonNegativeProduct(room, -(2.0 * d + 1.0));
      NonNegativeProduct(-d, n');
      NonNegativeProduct(-(d + 1.0), n);
      if b < a { SquareIncreasing(-a, -b); }
    } else {
      NonNegativeProduct(-d, n');
      NonNegativeProduct(d + 1.0, n);
    }
  }

  lemma PullOfRoots(d: real, n: real, n': real, k: real)
    requires 1.0 <= k <= 9.0 && 0.0 <= n && 0.0 <= n' && d * d <= n * n
    requires n' * n' == n * n + 2.0 * d + 1.0
    ensures MeanCosine(d + 1.0, n', k + 1.0) >= MeanCosine(d, n, k)
  {
    Within(d, n);
    assert (d + 1.0) * (d + 1.0) == d * d + 2.0 * d + 1.0;
    Within(d + 1.0, n');
    if n < k * MIN_NORM {
      SmallBefore(d, n, n', k);
    } else if n' < (k + 1.0) * MIN_NORM {
      SmallAfter(d, n, n', k);
    } else {
      BothNormal(d, n, n', k);
    }
  }

  lemma Within(d: real, n: real)
    requires 0.0 <= n && d * d <= n * n
    ensures -n <= d <= n
  {
    if n < d { SquareIncreasing(n, d); }
    if n < -d { SquareIncreasing(n, -d); }
  }

  lemma {:induction false} SimilarityValue(c: Metric, e: Vec, w: seq<Vec>)
    requires IsSqrt(c.root) && |e| == c.dim && w != [] && SameLength(w, c.dim)
    ensures var s := Sum(w, c.dim);
            0.0 <= Dot(s, s) && Similarity(c, e, w) == MeanCosine(Dot(e, s), c.root(Dot(s, s)), |w| as real)
  {
    hide Dot, Scale, Sum;
    var s, k := Sum(w, c.dim), |w| as real;
    var m := Mean(w, c.dim);
    DotSelfNonNegative(s);
    NormScale(c.root, 1.0 / k, s);
    DotScale(e, 1.0 / k, s);
    var n := c.root(Dot(s, s));
    MeanLength(n, k);
    if Norm(c.root, m) >= MIN_NORM {
      DotScale(e, 1.0 / Norm(c.root, m), m);
      hide IsSqrt;
      Cancel(Dot(e, s), n, k);
    }
  }

  lemma MeanLength(n: real, k: real)
    requires 0.0 < k
    ensures (1.0 / k) * n < MIN_NORM <==> n < k * MIN_NORM
  {
    Times(k, (1.0 / k) * n, MIN_NORM);
    assert k * ((1.0 / k) * n) == n;
  }

  lemma Cancel(d: real, n: real, k: real)
    requires 0.0 < k && 0.0 < n && (1.0 / k) * n != 0.0
    ensures (1.0 / ((1.0 / k) * n)) * ((1.0 / k) * d) == d / n
  {
    var i := 1.0 / k;
    assert (1.0 / (i * n)) * (i * d) == (i * d) / (i * n);
    assert (d / n) * (i * n) == i * d;
  }

  lemma {:induction false} SumAppend(w: seq<Vec>, e: Vec, n: nat)
    requires w != [] && SameLength(w, n) && |e| == n
    ensures SameLength(w + [e], n)
    ensures var s := Sum(w, n);
      && Sum(w + [e], n) == Add(s, e)
      && Dot(e, Sum(w + [e], n)) == Dot(e, s) + Dot(e, e)
      && Dot(Sum(w + [e], n), Sum(w + [e], n)) == Dot(s, s) + 2.0 * Dot(e, s) + Dot(e, e)
  {
    var s := Sum(w, n);
    assert (w + [e])[..|w|] == w;
    var u := Add(s, e);
    DotAdd(e, s, e); DotAdd(s, s, e); DotAdd(u, s, e);
    DotCommutes(u, s); DotCommutes(u, e); DotCommutes(s, e);
  }

  /** THE PULL. Appending an embedding to a window below ten samples never takes the
      window further away from it, short means included. */
  lemma AppendingPulls(c: Metric, e: Vec, w: seq<Vec>)
    requires IsSqrt(c.root) && |e| == c.dim && Unit(e)
    requires 0 < |w| < MAX_EMBEDDINGS_PER_PERSON && SameLength(w, c.dim)
    ensures SameLength(w + [e], c.dim) && Similarity(c, e, w + [e]) >= Similarity(c, e, w)
  {
    hide Dot, Sum, Similarity;
    var s := Sum(w, c.dim);
    CauchySchwarz(e, s);
    SimilarityValue(c, e, w);
    SumAppend(w, e, c.dim);
    SimilarityValue(c, e, w + [e]);
    var q, q' := Dot(s, s), Dot(Sum(w + [e], c.dim), Sum(w + [e], c.dim));
    PullOfRoots(Dot(e, s), c.root(q), c.root(q'), |w| as real);
  }

  /** The lone sample of a new person is at cosine 1 from itself. */
  lemma NewPersonIsReached(c: Metric, e: Vec)
    requires IsSqrt(c.root) && |e| == c.dim && Unit(e)
    ensures SameLength([e], c.dim) && Similarity(c, e, [e]) == 1.0
  {
    hide Dot, Similarity;
    SimilarityValue(c, e, [e]);
    RootOrder(c.root, 1.0, 1.0);
  }

  /** A person at least as close as everybody, and closer than everybody before it, is
      the one the scan ends on. */
  lemma ClosestIsBest(c: Metric, entries: seq<Entry>, e: Vec, i: nat)
    requires WellFormed(c, entries) && |e| == c.dim && i < |entries|
    requires -1.0 < Similarity(c, e, entries[i].window)
    requires forall j :: 0 <= j < |entries| ==>
      Similarity(c, e, entries[j].window) <= Similarity(c, e, entries[i].window)
    requires forall j :: 0 <= j < i ==> Similarity(c, e, entries[j].window) < Similarity(c, e, entries[i].window)
    ensures Best(c, e, entries) == i
  {
    BestIsFirstMaximum(c, e, entries);
    hide Similarity, Best, IsSqrt;
  }

  lemma NewPersonIsBest(c: Metric, entries: seq<Entry>, e: Vec, id: PersonId)
    requires WellFormed(c, entries) && |e| == c.dim && Unit(e) && MIN_NORM < c.threshold <= 1.0
    requires Fresh(entries, id) && MatchStep(c, entries, e, id).isNew
    ensures var first := MatchStep(c, entries, e, id);
      && WellFormed(c, first.entries) && |first.entries| == |entries| + 1
      && Best(c, e, first.entries) == |entries|
      && Similarity(c, e, first.entries[|entries|].window) >= c.threshold
  {
    hide Dot, Sum, Similarity, IsSqrt;
    var first := MatchStep(c, entries, e, id);
    StepWellFormed(c, entries, e, id);
    NewPersonIsReached(c, e);
    NewExactlyWhenNobodyReaches(c, entries, e, id);
    assert forall j :: 0 <= j < |entries| ==> first.entries[j] == entries[j];
    ClosestIsBest(c, first.entries, e, |entries|);
  }

  lemma MatchedPersonStaysBest(c: Metric, entries: seq<Entry>, e: Vec, id: PersonId)
    requires WellFormed(c, entries) && |e| == c.dim && Unit(e) && MIN_NORM < c.threshold <= 1.0
    requires Fresh(entries, id) && !MatchStep(c, entries, e, id).isNew
    requires |entries[Best(c, e, entries)].window| < MAX_EMBEDDINGS_PER_PERSON
    ensures var first, b := MatchStep(c, entries, e, id), Best(c, e, entries);
      && WellFormed(c, first.entries) && |first.entries| == |entries| && first.entries[b].id == first.id
      && Best(c, e, first.entries) == b
      && Similarity(c, e, first.entries[b].window) >= c.threshold
  {
    hide Dot, Sum, Similarity, IsSqrt;
    var first, b := MatchStep(c, entries, e, id), Best(c, e, entries);
    StepWellFormed(c, entries, e, id);
    BestIsFirstMaximum(c, e, entries);
    AppendingPulls(c, e, entries[b].window);
    assert first.entries[b].window == entries[b].window + [e];
    assert forall j :: 0 <= j < |entries| && j != b ==> first.entries[j] == entries[j];
    hide Best;
    ClosestIsBest(c, first.entries, e, b);
  }

  /** REPEAT STABILITY. A unit embedding that made a new person, or was added to a
      window not yet full, yields that same person when presented again at once. */
  lemma RepeatIsRecognised(c: Metric, entries: seq<Entry>, e: Vec, id1: PersonId, id2: PersonId)
    requires WellFormed(c, entries) && |e| == c.dim && Unit(e) && MIN_NORM < c.threshold <= 1.0
    requires Fresh(entries, id1)
    requires var first := MatchStep(c, entries, e, id1);
             first.isNew || |entries[Best(c, e, entries)].window| < MAX_EMBEDDINGS_PER_PERSON
    ensures var first := MatchStep(c, entries, e, id1);
      && WellFormed(c, first.entries)
      && !MatchStep(c, first.entries, e, id2).isNew
      && MatchStep(c, first.entries, e, id2).id == first.id
  {
    hide Dot, Sum, Similarity, IsSqrt;
    var first := MatchStep(c, entries, e, id1);
    if first.isNew {
      NewPersonIsBest(c, entries, e, id1);
    } else {
      MatchedPersonStaysBest(c, entries, e, id1);
    }
  }

  /** With a full window the oldest sample is lost, and recognition holds exactly when
      the nine youngest samples together with the new one, or another person, reach. */
  lemma FullWindowRepeat(c: Metric, entries: seq<Entry>, e: Vec, id1: PersonId, id2: PersonId)
    requires WellFormed(c, entries) && |e| == c.dim && Unit(e) && MIN_NORM < c.threshold <= 1.0
    requires Fresh(entries, id1) && !MatchStep(c, entries, e, id1).isNew
    requires |entries[Best(c, e, entries)].window| == MAX_EMBEDDINGS_PER_PERSON
    ensures var first := MatchStep(c, entries, e, id1);
            var b := Best(c, e, entries);
      && WellFormed(c, first.entries)
      && SameLength(entries[b].window[1..] + [e], c.dim)
      && (MatchStep(c, first.entries, e, id2).isNew <==>
            && !WindowReaches(c, e, entries[b].window[1..] + [e])
            && forall j :: 0 <= j < |entries| && j != b ==> !WindowReaches(c, e, entries[j].window))
  {
    hide Dot, Sum, Similarity, WindowReaches;
    var first := MatchStep(c, entries, e, id1);
    var b := Best(c, e, entries);
    StepWellFormed(c, entries, e, id1);
    var slid := entries[b].window[1..] + [e];
    assert first.entries[b].window == slid;
    NewExactlyWhenNobodyReaches(c, first.entries, e, id2);
    forall j | 0 <= j < |first.entries|
      ensures Similarity(c, e, first.entries[j].window) < c.threshold <==> !WindowReaches(c, e, first.entries[j].window)
    {
      SimilarityReaches(c, e, first.entries[j].window);
    }
  }

  /** And it is the same person exactly when the slid window reaches and is the first of
      the closest ones. */
  lemma FullWindowSamePerson(c: Metric, entries: seq<Entry>, e: Vec, id1: PersonId, id2: PersonId)
    requires WellFormed(c, entries) && |e| == c.dim && Unit(e) && MIN_NORM < c.threshold <= 1.0
    requires Fresh(entries, id1) && !MatchStep(c, entries, e, id1).isNew
    requires |entries[Best(c, e, entries)].window| == MAX_EMBEDDINGS_PER_PERSON
    requires Fresh(entries, id2)
    ensures var first := MatchStep(c, entries, e, id1);
            var b := Best(c, e, entries);
      && WellFormed(c, first.entries) && SameLength(entries[b].window[1..] + [e], c.dim)
      && var slid := Similarity(c, e, entries[b].window[1..] + [e]);
         MatchStep(c, first.entries, e, id2).id == first.id <==>
           && slid >= c.threshold
           && (forall j :: 0 <= j < b ==> Similarity(c, e, entries[j].window) < slid)
           && (forall j :: b < j < |entries| ==> Similarity(c, e, entries[j].window) <= slid)
  {
    hide Dot, Sum, Similarity, IsSqrt;
    var first := MatchStep(c, entries, e, id1);
    var b := Best(c, e, entries);
    StepWellFormed(c, entries, e, id1);
    assert first.entries[b].window == entries[b].window[1..] + [e];
    assert forall j :: 0 <= j < |entries| && j != b ==> first.entries[j] == entries[j];
    hide Best;
    BestIsFirstMaximum(c, e, first.entries);
  }

  // ------------------------------------------------- a full window does forget

  /** `states` are the galleries before and after each call of a run from an empty one. */
  ghost predicate IsRun(c: Metric, states: seq<seq<Entry>>, es: seq<Vec>, ids: seq<PersonId>) {
    && |states| == |es| + 1 && |ids| == |es| && states[0] == []
    && forall k :: 0 <= k < |es| ==>
         && WellFormed(c, states[k]) && Fresh(states[k], ids[k]) && |es[k]| == c.dim
         && MatchStep(c, states[k], es[k], ids[k]).entries == states[k + 1]
  }

  function PlaneDot(a: Vec, b: Vec): real
    requires |a| == |b| == 2
  {
    a[0] * b[0] + a[1] * b[1]
  }

  lemma PlaneVectors(a: Vec, b: Vec)
    requires |a| == |b| == 2
    ensures Dot(a, b) == PlaneDot(a, b)
    ensures Add(a, b) == [a[0] + b[0], a[1] + b[1]]
  {
    assert a == [a[0], a[1]] && b == [b[0], b[1]];
    DotInPlane(a[0], a[1], b[0], b[1]);
    AddInPlane(a[0], a[1], b[0], b[1]);
    hide Dot, Add;
  }

  lemma DotInPlane(x1: real, y1: real, x2: real, y2: real)
    ensures Dot([x1, y1], [x2, y2]) == PlaneDot([x1, y1], [x2, y2])
  {
    assert [x1, y1][1..] == [y1] && [x2, y2][1..] == [y2];
    assert Dot([y1], [y2]) == y1 * y2;
  }

  lemma AddInPlane(x1: real, y1: real, x2: real, y2: real)
    ensures Add([x1, y1], [x2, y2]) == [x1 + x2, y1 + y2]
  {
    assert [x1, y1][1..] == [y1] && [x2, y2][1..] == [y2];
    assert Add([y1], [y2]) == [y1 + y2];
  }

  ghost predicate LonePerson(c: Metric, w: seq<Vec>, s: Vec) {
    && IsSqrt(c.root) && c.dim == 2 && c.threshold == 0.75
    && 0 < |w| <= MAX_EMBEDDINGS_PER_PERSON && SameLength(w, 2) && s == Sum(w, 2)
  }

  ghost predicate PlaneReaches(e: Vec, s: Vec, k: nat)
    requires |e| == |s| == 2
  {
    Reaches(0.75, PlaneDot(e, s), PlaneDot(s, s), k)
  }

  /** One call against a gallery that holds a single person. */
  lemma LoneCall(c: Metric, w: seq<Vec>, s: Vec, e: Vec)
    requires LonePerson(c, w, s) && |e| == 2 && PlaneDot(e, e) == 1.0
    ensures var g := [Entry("a", w)];
      && WellFormed(c, g) && Fresh(g, "b") && Unit(e)
      && MatchStep(c, g, e, "b").isNew == !PlaneReaches(e, s, |w|)
      && (PlaneReaches(e, s, |w|) ==> MatchStep(c, g, e, "b").entries == [Entry("a", Slide(w, e))])
  {
    hide Similarity, IsSqrt, Dot, PlaneDot, Sum, Slide, Reaches;
    var g := [Entry("a", w)];
    PlaneVectors(e, e);
    PlaneVectors(e, s);
    PlaneVectors(s, s);
    SimilarityReaches(c, e, w);
    assert WindowReaches(c, e, w) == PlaneReaches(e, s, |w|);
    hide WindowReaches, PlaneReaches;
    assert g[0].window == w;
    NewExactlyWhenNobodyReaches(c, g, e, "b");
  }

  lemma LonePersonGrows(c: Metric, w: seq<Vec>, s: Vec, e: Vec)
    requires LonePerson(c, w, s) && |e| == 2 && |w| < MAX_EMBEDDINGS_PER_PERSON
    ensures LonePerson(c, w + [e], [s[0] + e[0], s[1] + e[1]])
  {
    hide IsSqrt, Sum;
    SumAppend(w, e, 2);
    PlaneVectors(s, e);
  }

  const DRIFT: seq<Vec> := [
    [1.0, 0.0], [0.8, 0.6], [0.8, 0.6], [8.0 / 17.0, 15.0 / 17.0], [8.0 / 17.0, 15.0 / 17.0],
    [0.28, 0.96], [0.28, 0.96], [0.28, 0.96], [0.28, 0.96], [0.28, 0.96], [0.96, 0.28], [0.96, 0.28]]

  /** The gallery after the first k calls on DRIFT. */
  function Drifted(k: nat): seq<Entry>
    requires k <= |DRIFT|
  {
    if k == 0 then []
    else if k <= 10 then [Entry("a", DRIFT[..k])]
    else if k == 11 then [Entry("a", DRIFT[1..11])]
    else [Entry("a", DRIFT[1..11]), Entry("b", [DRIFT[11]])]
  }

  function DriftId(k: nat): PersonId { if k == 0 then "a" else "b" }

  ghost predicate DriftCall(c: Metric, k: nat)
    requires k < |DRIFT| && c.dim == 2
  {
    && WellFormed(c, Drifted(k)) && Fresh(Drifted(k), DriftId(k))
    && MatchStep(c, Drifted(k), DRIFT[k], DriftId(k)).entries == Drifted(k + 1)
    && MatchStep(c, Drifted(k), DRIFT[k], DriftId(k)).isNew == (k == 0 || k == 11)
  }

  lemma DriftStep(c: Metric, k: nat, s: Vec)
    requires 1 <= k < 10 && LonePerson(c, DRIFT[..k], s) && PlaneReaches(DRIFT[k], s, k)
    ensures LonePerson(c, DRIFT[..k + 1], [s[0] + DRIFT[k][0], s[1] + DRIFT[k][1]]) && DriftCall(c, k)
  {
    hide Similarity, MatchStep, WellFormed, Sum;
    assert DRIFT[..k] + [DRIFT[k]] == DRIFT[..k + 1];
    LoneCall(c, DRIFT[..k], s, DRIFT[k]);
    LonePersonGrows(c, DRIFT[..k], s, DRIFT[k]);
  }

  /** The sum of a window of plane vectors, split at its oldest sample. */
  lemma {:induction false} OldestSample(w: seq<Vec>)
    requires 2 <= |w| && SameLength(w, 2)
    ensures SameLength(w[1..], 2)
    ensures Sum(w, 2) == [w[0][0] + Sum(w[1..], 2)[0], w[0][1] + Sum(w[1..], 2)[1]]
  {
    var n := |w| - 1;
    var last := w[n];
    if n == 1 {
      PlaneVectors(w[0], last);
      assert w[..1] == [w[0]] && w[1..] == [last];
    } else {
      OldestSample(w[..n]);
      assert w[..n][1..] == w[1..][..n - 1];
      PlaneVectors(Sum(w[..n], 2), last);
      PlaneVectors(Sum(w[1..][..n - 1], 2), last);
    }
  }

  lemma DriftStart(c: Metric)
    requires IsSqrt(c.root) && c.dim == 2 && c.threshold == 0.75
    ensures LonePerson(c, DRIFT[..1], [1.0, 0.0]) && DriftCall(c, 0)
  {
    assert DRIFT[..1] == [DRIFT[0]];
    assert Drifted(1) == [Entry("a", [DRIFT[0]])];
  }

  lemma Drift1To4(c: Metric)
    requires LonePerson(c, DRIFT[..1], [1.0, 0.0])
    ensures LonePerson(c, DRIFT[..4], [261.0 / 85.0, 177.0 / 85.0])
    ensures DriftCall(c, 1) && DriftCall(c, 2) && DriftCall(c, 3)
  {
    hide Sum, Similarity, LonePerson, DriftCall;
    DriftStep(c, 1, [1.0, 0.0]);
    DriftStep(c, 2, [9.0 / 5.0, 3.0 / 5.0]);
    DriftStep(c, 3, [13.0 / 5.0, 6.0 / 5.0]);
  }

  lemma Drift4To7(c: Metric)
    requires LonePerson(c, DRIFT[..4], [261.0 / 85.0, 177.0 / 85.0])
    ensures LonePerson(c, DRIFT[..7], [1743.0 / 425.0, 2076.0 / 425.0])
    ensures DriftCall(c, 4) && DriftCall(c, 5) && DriftCall(c, 6)
  {
    hide Sum, Similarity, LonePerson, DriftCall;
    DriftStep(c, 4, [261.0 / 85.0, 177.0 / 85.0]);
    DriftStep(c, 5, [301.0 / 85.0, 252.0 / 85.0]);
    DriftStep(c, 6, [1624.0 / 425.0, 1668.0 / 425.0]);
  }

  lemma Drift7To10(c: Metric)
    requires LonePerson(c, DRIFT[..7], [1743.0 / 425.0, 2076.0 / 425.0])
    ensures LonePerson(c, DRIFT[..10], [84.0 / 17.0, 132.0 / 17.0])
    ensures DriftCall(c, 7) && DriftCall(c, 8) && DriftCall(c, 9)
  {
    hide Sum, Similarity, LonePerson, DriftCall;
    DriftStep(c, 7, [1743.0 / 425.0, 2076.0 / 425.0]);
    DriftStep(c, 8, [1862.0 / 425.0, 2484.0 / 425.0]);
    DriftStep(c, 9, [1981.0 / 425.0, 2892.0 / 425.0]);
  }

  lemma DriftFills(c: Metric)
    requires IsSqrt(c.root) && c.dim == 2 && c.threshold == 0.75
    ensures LonePerson(c, DRIFT[..10], [84.0 / 17.0, 132.0 / 17.0])
    ensures forall k :: 0 <= k < 10 ==> DriftCall(c, k)
  {
    hide LonePerson, DriftCall;
    DriftStart(c);
    Drift1To4(c);
    Drift4To7(c);
    Drift7To10(c);
  }

  lemma DriftOverflows(c: Metric)
    requires LonePerson(c, DRIFT[..10], [84.0 / 17.0, 132.0 / 17.0])
    ensures DriftCall(c, 10)
  {
    hide Sum, Similarity, MatchStep, WellFormed;
    LoneCall(c, DRIFT[..10], [84.0 / 17.0, 132.0 / 17.0], DRIFT[10]);
    assert Slide(DRIFT[..10], DRIFT[10]) == DRIFT[1..11];
  }

  lemma DriftForgets(c: Metric)
    requires LonePerson(c, DRIFT[..10], [84.0 / 17.0, 132.0 / 17.0])
    ensures DriftCall(c, 11)
  {
    hide Similarity, MatchStep, WellFormed;
    var young := DRIFT[1..10];
    OldestSample(DRIFT[..10]);
    assert DRIFT[..10][1..] == young;
    var r := [67.0 / 17.0, 132.0 / 17.0];
    assert LonePerson(c, young, r);
    hide Sum;
    LoneCall(c, young, r, DRIFT[10]);
    assert young + [DRIFT[10]] == DRIFT[1..11];
    LoneCall(c, DRIFT[1..11], [2083.0 / 425.0, 3419.0 / 425.0], DRIFT[11]);
    assert Drifted(11) == [Entry("a", DRIFT[1..11])];
    LoneNew(c, Drifted(11), DRIFT[11]);
  }

  lemma LoneNew(c: Metric, g: seq<Entry>, e: Vec)
    requires WellFormed(c, g) && |e| == c.dim && |g| == 1 && MatchStep(c, g, e, "b").isNew
    ensures MatchStep(c, g, e, "b").entries == [g[0], Entry("b", [e])]
  {
  }

  /** Repeat stability fails once a window is full, with the default threshold and a
      gallery reached from empty: the eleventh sample is recognised, and the very same
      embedding presented again is registered as somebody new. */
  lemma FullWindowForgets(root: real -> real)
    requires IsSqrt(root)
    ensures exists states, ids ::
      && IsRun(Metric(root, 0.75, 2), states, DRIFT, ids)
      && Unit(DRIFT[10]) && DRIFT[10] == DRIFT[11]
      && !MatchStep(Metric(root, 0.75, 2), states[10], DRIFT[10], ids[10]).isNew
      && MatchStep(Metric(root, 0.75, 2), states[11], DRIFT[11], ids[11]).isNew
  {
    hide Dot, MatchStep, WellFormed, Similarity;
    var c := Metric(root, 0.75, 2);
    DriftFills(c);
    DriftOverflows(c);
    DriftForgets(c);
    PlaneVectors(DRIFT[10], DRIFT[10]);
    var states := seq(13, k requires 0 <= k < 13 => Drifted(k));
    var ids := seq(12, k requires 0 <= k < 12 => DriftId(k));
    forall k | 0 <= k < |DRIFT|
      ensures WellFormed(c, states[k]) && Fresh(states[k], ids[k]) && |DRIFT[k]| == c.dim
      ensures MatchStep(c, states[k], DRIFT[k], ids[k]).entries == states[k + 1]
    {
      assert DriftCall(c, k);
    }
    assert states[0] == [];
    assert IsRun(c, states, DRIFT, ids);
  }
}
