/** Greedy non-maximum suppression. */
module Nms {
  import opened Boxes
  import opened Collections
  import opened Reals

  datatype Detections = Detections(boxes: seq<Corners>, scores: seq<real>)

  ghost predicate Valid(d: Detections) {
    |d.scores| == |d.boxes| && forall i :: 0 <= i < |d.boxes| ==> Ordered(d.boxes[i])
  }

  ghost predicate DistinctScores(d: Detections)
    requires Valid(d)
  {
    forall i, j :: 0 <= i < j < |d.scores| ==> d.scores[i] != d.scores[j]
  }

  /** A picked box i removes box j from the work list. */
  predicate Suppresses(d: Detections, t: real, i: nat, j: nat)
    requires i < |d.boxes| && j < |d.boxes| && Ordered(d.boxes[i]) && Ordered(d.boxes[j])
  {
    !(NmsIou(d.boxes[i], d.boxes[j]) <= t)
  }

  ghost predicate Indices(d: Detections, s: seq<nat>) {
    && (forall k :: 0 <= k < |s| ==> s[k] < |d.boxes|)
    && (forall k, l :: 0 <= k < l < |s| ==> s[k] != s[l])
  }

  ghost predicate Descending(d: Detections, s: seq<nat>)
    requires Valid(d) && Indices(d, s)
  {
    forall k, l :: 0 <= k < l < |s| ==> d.scores[s[k]] >= d.scores[s[l]]
  }

  /** Any answer of the sorting routine: all indices, by descending score. Where scores
      tie, it may put either index first. */
  ghost predicate Ranking(d: Detections, order: seq<nat>) {
    && Valid(d) && Indices(d, order) && Descending(d, order)
    && forall i: nat :: i < |d.boxes| ==> i in order
  }

  function Survivors(d: Detections, t: real, i: nat, rest: seq<nat>): (s: seq<nat>)
    requires Valid(d) && i < |d.boxes| && Indices(d, rest)
    ensures |s| <= |rest| && Indices(d, s)
    ensures forall j :: j in s <==> j in rest && !Suppresses(d, t, i, j)
  {
    if rest == [] then [] else
      var tail := Survivors(d, t, i, rest[1..]);
      if Suppresses(d, t, i, rest[0]) then tail else [rest[0]] + tail
  }

  function Greedy(d: Detections, t: real, order: seq<nat>): seq<nat>
    requires Valid(d) && Indices(d, order)
    decreases |order|
  {
    if order == [] then [] else
      [order[0]] + Greedy(d, t, Survivors(d, t, order[0], order[1..]))
  }

  /** `nms`: picks the head of the work list and filters the rest against it. */
  method Nms(d: Detections, t: real, order: seq<nat>) returns (keep: seq<nat>)
    requires Ranking(d, order)
    ensures keep == Greedy(d, t, order)
    ensures Indices(d, keep) && Apart(d, t, keep)
    ensures forall j: nat :: j < |d.boxes| && j !in keep ==> Outdone(d, t, keep, j)
  {
    hide Suppresses, Descending, Apart, Outdone;
    KeptAreApart(d, t, order);
    keep := [];
    if d.boxes == [] {
      return;
    }
    var rest := order;
    while rest != []
      invariant Indices(d, rest)
      invariant keep + Greedy(d, t, rest) == Greedy(d, t, order)
      decreases |rest|
    {
      var i := rest[0];
      keep := keep + [i];
      rest := Survivors(d, t, i, rest[1..]);
    }
  }

  // ------------------------------------------------------------------- soundness

  lemma SuppressesSymmetric(d: Detections, t: real, i: nat, j: nat)
    requires Valid(d) && i < |d.boxes| && j < |d.boxes|
    ensures Suppresses(d, t, i, j) == Suppresses(d, t, j, i)
  {
    NmsIouSymmetric(d.boxes[i], d.boxes[j]);
  }

  ghost predicate Independent(d: Detections, t: real, s: set<nat>)
    requires Valid(d)
  {
    && (forall i :: i in s ==> i < |d.boxes|)
    && (forall i, j :: i in s && j in s && i != j ==> !Suppresses(d, t, i, j))
  }

  lemma DescendingCons(d: Detections, x: nat, tail: seq<nat>)
    requires Valid(d) && Indices(d, tail) && Descending(d, tail) && x < |d.boxes| && x !in tail
    requires forall j :: j in tail ==> d.scores[x] >= d.scores[j]
    ensures Indices(d, [x] + tail) && Descending(d, [x] + tail)
  {
    var s := [x] + tail;
    forall k, l | 0 <= k < l < |s| ensures s[k] != s[l] {
      assert s[l] == tail[l - 1] && s[l] in tail;
      if 0 < k { assert s[k] == tail[k - 1]; }
    }
    forall k, l | 0 <= k < l < |s| ensures d.scores[s[k]] >= d.scores[s[l]] {
      assert s[l] == tail[l - 1] && s[l] in tail;
      if 0 < k { assert s[k] == tail[k - 1]; }
    }
  }

  lemma HeadIsTop(d: Detections, s: seq<nat>)
    requires Valid(d) && Indices(d, s) && Descending(d, s) && s != []
    ensures Indices(d, s[1..]) && Descending(d, s[1..]) && s[0] !in s[1..]
    ensures forall j :: j in s[1..] ==> d.scores[s[0]] >= d.scores[j]
  {
    forall j | j in s[1..] ensures d.scores[s[0]] >= d.scores[j] {
      var k :| 0 <= k < |s[1..]| && s[1..][k] == j;
      assert s[k + 1] == j;
    }
  }

  lemma {:induction false} SurvivorsDescending(d: Detections, t: real, i: nat, rest: seq<nat>)
    requires Valid(d) && i < |d.boxes| && Indices(d, rest) && Descending(d, rest)
    ensures Descending(d, Survivors(d, t, i, rest))
  {
    if rest != [] {
      HeadIsTop(d, rest);
      hide Suppresses, Descending, Indices;
      SurvivorsDescending(d, t, i, rest[1..]);
      var tail := Survivors(d, t, i, rest[1..]);
      if !Suppresses(d, t, i, rest[0]) { DescendingCons(d, rest[0], tail); }
    }
  }

  ghost predicate NoOverlap(d: Detections, t: real, keep: seq<nat>)
    requires Valid(d) && Indices(d, keep)
  {
    forall i, j :: i in keep && j in keep && i != j ==> !Suppresses(d, t, i, j)
  }

  /** Some kept index of at least j's score suppresses j. */
  ghost predicate Dominated(d: Detections, t: real, keep: seq<nat>, j: nat)
    requires Valid(d) && Indices(d, keep) && j < |d.boxes|
  {
    exists i :: i in keep && Suppresses(d, t, i, j) && d.scores[i] >= d.scores[j]
  }

  /** Kept is what is listed, does not overlap, and dominates everything that is not. */
  ghost predicate SoundAnswer(d: Detections, t: real, order: seq<nat>, keep: seq<nat>)
    requires Valid(d) && Indices(d, order)
  {
    && Indices(d, keep) && Descending(d, keep)
    && (forall i :: i in keep ==> i in order)
    && NoOverlap(d, t, keep)
    && (forall j :: j in order && j !in keep ==> Dominated(d, t, keep, j))
  }

  lemma NoOverlapCons(d: Detections, t: real, i: nat, later: seq<nat>)
    requires Valid(d) && i < |d.boxes| && Indices(d, later) && Indices(d, [i] + later) && NoOverlap(d, t, later)
    requires forall j :: j in later ==> !Suppresses(d, t, i, j)
    ensures NoOverlap(d, t, [i] + later)
  {
    forall j | j in later ensures !Suppresses(d, t, j, i) { SuppressesSymmetric(d, t, i, j); }
  }

  lemma DominatedCons(d: Detections, t: real, i: nat, later: seq<nat>, j: nat)
    requires Valid(d) && i < |d.boxes| && Indices(d, later) && Indices(d, [i] + later) && j < |d.boxes|
    requires Dominated(d, t, later, j) || (Suppresses(d, t, i, j) && d.scores[i] >= d.scores[j])
    ensures Dominated(d, t, [i] + later, j)
  {
    assert i in [i] + later;
    if Dominated(d, t, later, j) {
      var h :| h in later && Suppresses(d, t, h, j) && d.scores[h] >= d.scores[j];
      assert h in [i] + later;
    }
  }

  /** A sound answer for the survivors, behind the pick they survived. */
  lemma SoundCons(d: Detections, t: real, i: nat, rest: seq<nat>, later: seq<nat>)
    requires Valid(d) && i < |d.boxes| && Indices(d, rest) && Indices(d, [i] + rest) && i !in rest
    requires forall j :: j in rest ==> d.scores[i] >= d.scores[j]
    requires SoundAnswer(d, t, Survivors(d, t, i, rest), later)
    ensures SoundAnswer(d, t, [i] + rest, [i] + later)
  {
    assert forall j :: j in [i] + rest ==> j < |d.boxes|;
    hide Suppresses, Descending, Indices, NoOverlap, Dominated;
    DescendingCons(d, i, later);
    NoOverlapCons(d, t, i, later);
    forall j | j in [i] + rest && j !in [i] + later
      ensures Dominated(d, t, [i] + later, j)
    {
      assert j in rest;
      DominatedCons(d, t, i, later, j);
    }
  }

  /** SOUNDNESS, ties or not: valid indices without duplicates in non-increasing score
      order, no kept pair overlaps, and every dropped index is suppressed by a kept one
      of at least its score. */
  lemma {:induction false} GreedyIsSound(d: Detections, t: real, order: seq<nat>)
    requires Valid(d) && Indices(d, order) && Descending(d, order)
    ensures SoundAnswer(d, t, order, Greedy(d, t, order))
    decreases |order|
  {
    if order != [] {
      HeadIsTop(d, order);
      var i, rest := order[0], order[1..];
      assert order == [i] + rest;
      hide SoundAnswer, Descending, Suppresses;
      SurvivorsDescending(d, t, i, rest);
      GreedyIsSound(d, t, Survivors(d, t, i, rest));
      SoundCons(d, t, i, rest, Greedy(d, t, Survivors(d, t, i, rest)));
    }
  }

  // ------------------------------------------------------------------ uniqueness

  /** The declarative specification: an independent set in which every outsider is
      suppressed by a member of strictly higher score. */
  ghost predicate KeptSet(d: Detections, t: real, s: set<nat>)
    requires Valid(d)
  {
    && Independent(d, t, s)
    && forall j: nat :: j < |d.boxes| && j !in s ==>
         exists i :: i in s && Suppresses(d, t, i, j) && d.scores[i] > d.scores[j]
  }

  function Higher(d: Detections, i: nat): set<nat>
    requires i < |d.scores|
  {
    set k: nat | k < |d.scores| && d.scores[k] > d.scores[i]
  }

  lemma {:induction false} KeptSetsAgree(d: Detections, t: real, s: set<nat>, u: set<nat>, i: nat)
    requires Valid(d) && KeptSet(d, t, s) && KeptSet(d, t, u) && i < |d.boxes| && i in s
    ensures i in u
    decreases |Higher(d, i)|
  {
    hide Suppresses;
    if i !in u {
      var h :| h in u && Suppresses(d, t, h, i) && d.scores[h] > d.scores[i];
      assert Higher(d, h) < Higher(d, i) by { assert h in Higher(d, i) && h !in Higher(d, h); }
      SubsetSize(Higher(d, h), Higher(d, i));
      KeptSetsAgree(d, t, u, s, h);
      assert false;
    }
  }

  /** There is at most one kept set. */
  lemma KeptSetUnique(d: Detections, t: real, s: set<nat>, u: set<nat>)
    requires Valid(d) && KeptSet(d, t, s) && KeptSet(d, t, u)
    ensures s == u
  {
    forall i | i in s ensures i in u { KeptSetsAgree(d, t, s, u, i); }
    forall i | i in u ensures i in s { KeptSetsAgree(d, t, u, s, i); }
  }

  ghost function SetOf(s: seq<nat>): set<nat> { set i | i in s }

  lemma SoundIsKept(d: Detections, t: real, order: seq<nat>, keep: seq<nat>)
    requires Ranking(d, order) && DistinctScores(d) && SoundAnswer(d, t, order, keep)
    ensures KeptSet(d, t, SetOf(keep))
  {
    hide Suppresses, Descending;
    forall j: nat | j < |d.boxes| && j !in keep
      ensures exists i :: i in SetOf(keep) && Suppresses(d, t, i, j) && d.scores[i] > d.scores[j]
    {
      assert j in order;
      var i :| i in keep && Suppresses(d, t, i, j) && d.scores[i] >= d.scores[j];
      assert i in SetOf(keep) && i != j;
    }
  }

  /** UNIQUENESS. With distinct scores the survivors are the one and only kept set,
      whatever the sorting routine did. */
  lemma NmsComputesTheKeptSet(d: Detections, t: real, order: seq<nat>, s: set<nat>)
    requires Ranking(d, order) && DistinctScores(d)
    ensures KeptSet(d, t, s) <==> s == SetOf(Greedy(d, t, order))
  {
    GreedyIsSound(d, t, order);
    var keep := Greedy(d, t, order);
    SoundIsKept(d, t, order, keep);
    hide KeptSet;
    if KeptSet(d, t, s) { KeptSetUnique(d, t, s, SetOf(keep)); }
  }

  // ---------------------------------------------------------- in terms of the boxes

  /** What the overlap of two boxes is compared with: t of their union and the constant. */
  function Share(a: Corners, b: Corners, t: real): real {
    t * (CornerArea(a) + CornerArea(b) - Intersection(a, b) + EPSILON)
  }

  lemma SuppressesByOverlap(d: Detections, t: real, i: nat, j: nat)
    requires Valid(d) && i < |d.boxes| && j < |d.boxes|
    ensures Suppresses(d, t, i, j) <==> Intersection(d.boxes[i], d.boxes[j]) > Share(d.boxes[i], d.boxes[j], t)
    ensures Suppresses(d, t, i, j) <==> NmsIou(d.boxes[i], d.boxes[j]) > t
  {
    IntersectionBounds(d.boxes[i], d.boxes[j]);
    hide Intersection, CornerArea;
    var inter := Intersection(d.boxes[i], d.boxes[j]);
    QuotientOrder(inter, CornerArea(d.boxes[i]) + CornerArea(d.boxes[j]) - inter + EPSILON, t);
  }

  /** The boxes of kept detections overlap at most as far as the threshold allows. */
  ghost predicate Apart(d: Detections, t: real, keep: seq<nat>)
    requires Valid(d) && Indices(d, keep)
  {
    forall i, j :: i in keep && j in keep && i != j ==>
      Intersection(d.boxes[i], d.boxes[j]) <= Share(d.boxes[i], d.boxes[j], t)
  }

  /** A kept detection at least as good overlaps j further than that. */
  ghost predicate Outdone(d: Detections, t: real, keep: seq<nat>, j: nat)
    requires Valid(d) && Indices(d, keep) && j < |d.boxes|
  {
    exists i :: i in keep && d.scores[i] >= d.scores[j]
      && Intersection(d.boxes[i], d.boxes[j]) > Share(d.boxes[i], d.boxes[j], t)
      && (t >= 0.0 ==> BboxIou(d.boxes[i], d.boxes[j]) > t)
  }

  lemma DominatedIsOutdone(d: Detections, t: real, keep: seq<nat>, j: nat)
    requires Valid(d) && Indices(d, keep) && j < |d.boxes| && Dominated(d, t, keep, j)
    ensures Outdone(d, t, keep, j)
  {
    hide Suppresses, Intersection, Share, BboxIou, NmsIou;
    var i :| i in keep && Suppresses(d, t, i, j) && d.scores[i] >= d.scores[j];
    SuppressesByOverlap(d, t, i, j);
    if t >= 0.0 { SuppressionIsExact(d.boxes[i], d.boxes[j], t); }
  }

  /** WHAT NMS KEEPS. No two kept boxes intersect in more than the threshold's share of
      their union, and every dropped box does with a kept one that is at least as good. */
  lemma KeptAreApart(d: Detections, t: real, order: seq<nat>)
    requires Ranking(d, order)
    ensures var keep := Greedy(d, t, order);
      && Indices(d, keep) && Apart(d, t, keep)
      && forall j: nat :: j < |d.boxes| && j !in keep ==> Outdone(d, t, keep, j)
  {
    GreedyIsSound(d, t, order);
    var keep := Greedy(d, t, order);
    hide Greedy, Suppresses, Dominated, Outdone, Share;
    forall i, j | i in keep && j in keep && i != j
      ensures Intersection(d.boxes[i], d.boxes[j]) <= Share(d.boxes[i], d.boxes[j], t)
    {
      SuppressesByOverlap(d, t, i, j);
    }
    forall j: nat | j < |d.boxes| && j !in keep ensures Outdone(d, t, keep, j) {
      assert j in order;
      DominatedIsOutdone(d, t, keep, j);
    }
  }

  /** An independent, dominating set, with the overlap ratio written out. */
  ghost predicate KeptByOverlap(d: Detections, t: real, s: set<nat>)
    requires Valid(d)
  {
    && (forall i :: i in s ==> i < |d.boxes|)
    && (forall i, j :: i in s && j in s && i != j ==> NmsIou(d.boxes[i], d.boxes[j]) <= t)
    && (forall j: nat :: j < |d.boxes| && j !in s ==>
          exists i :: i in s && NmsIou(d.boxes[i], d.boxes[j]) > t && d.scores[i] > d.scores[j])
  }

  lemma OverlapKeeps(d: Detections, t: real, s: set<nat>)
    requires Valid(d) && KeptByOverlap(d, t, s)
    ensures KeptSet(d, t, s)
  {
    hide Suppresses, NmsIou;
    forall i, j | i in s && j in s && i != j ensures !Suppresses(d, t, i, j) { SuppressesByOverlap(d, t, i, j); }
    forall j: nat | j < |d.boxes| && j !in s
      ensures exists i :: i in s && Suppresses(d, t, i, j) && d.scores[i] > d.scores[j]
    {
      var i :| i in s && NmsIou(d.boxes[i], d.boxes[j]) > t && d.scores[i] > d.scores[j];
      SuppressesByOverlap(d, t, i, j);
    }
  }

  lemma KeepsOverlap(d: Detections, t: real, s: set<nat>)
    requires Valid(d) && KeptSet(d, t, s)
    ensures KeptByOverlap(d, t, s)
  {
    hide Suppresses, NmsIou;
    forall i, j | i in s && j in s && i != j ensures NmsIou(d.boxes[i], d.boxes[j]) <= t {
      SuppressesByOverlap(d, t, i, j);
    }
    forall j: nat | j < |d.boxes| && j !in s
      ensures exists i :: i in s && NmsIou(d.boxes[i], d.boxes[j]) > t && d.scores[i] > d.scores[j]
    {
      var i :| i in s && Suppresses(d, t, i, j) && d.scores[i] > d.scores[j];
      SuppressesByOverlap(d, t, i, j);
    }
  }

  /** With distinct scores the kept set is the only one whose boxes overlap by at most the
      threshold while every other box overlaps a better one of the set by more. */
  lemma KeptSetByOverlap(d: Detections, t: real, order: seq<nat>, s: set<nat>)
    requires Ranking(d, order) && DistinctScores(d)
    ensures s == SetOf(Greedy(d, t, order)) <==> KeptByOverlap(d, t, s)
  {
    NmsComputesTheKeptSet(d, t, order, s);
    hide KeptSet, KeptByOverlap, Greedy, DistinctScores;
    if KeptSet(d, t, s) { KeepsOverlap(d, t, s); }
    if KeptByOverlap(d, t, s) { OverlapKeeps(d, t, s); }
  }

  // ------------------------------------------- permuted inputs, and a second pass

  /** `e` lists the detections of `d` in the order given by `p`. */
  ghost predicate Rearranged(d: Detections, e: Detections, p: seq<nat>)
    requires Valid(d) && Valid(e)
  {
    && |p| == |e.boxes| && Indices(d, p)
    && forall k :: 0 <= k < |p| ==> e.boxes[k] == d.boxes[p[k]] && e.scores[k] == d.scores[p[k]]
  }

  lemma SuppressesMoved(d: Detections, e: Detections, t: real, p: seq<nat>, i: nat, j: nat)
    requires Valid(d) && Valid(e) && Rearranged(d, e, p) && i < |p| && j < |p|
    ensures Suppresses(e, t, i, j) == Suppresses(d, t, p[i], p[j])
  {
  }

  ghost predicate ImageOf(p: seq<nat>, keep: seq<nat>, image: seq<nat>) {
    && |image| == |keep|
    && forall k :: 0 <= k < |keep| ==> keep[k] < |p| && image[k] == p[keep[k]]
  }

  lemma ImageMembers(p: seq<nat>, keep: seq<nat>, image: seq<nat>, a: nat)
    requires ImageOf(p, keep, image) && a < |p|
    ensures a in keep ==> p[a] in image
    ensures (forall k, l :: 0 <= k < l < |p| ==> p[k] != p[l]) && p[a] in image ==> a in keep
  {
    if a in keep {
      var k :| 0 <= k < |keep| && keep[k] == a;
      assert image[k] == p[a];
    }
    if p[a] in image {
      var k :| 0 <= k < |image| && image[k] == p[a];
      assert keep[k] in keep;
    }
  }

  lemma ImageIndependent(d: Detections, e: Detections, t: real, p: seq<nat>, keep: seq<nat>, image: seq<nat>)
    requires Valid(d) && Valid(e) && Indices(e, keep) && NoOverlap(e, t, keep)
    requires Rearranged(d, e, p) && ImageOf(p, keep, image)
    ensures Independent(d, t, SetOf(image))
  {
    hide Suppresses;
    forall i, j | i in image && j in image && i != j ensures !Suppresses(d, t, i, j) {
      var a :| 0 <= a < |image| && image[a] == i;
      var b :| 0 <= b < |image| && image[b] == j;
      assert keep[a] in keep && keep[b] in keep;
      SuppressesMoved(d, e, t, p, keep[a], keep[b]);
    }
  }

  lemma ImageDominates(d: Detections, e: Detections, t: real, p: seq<nat>, keep: seq<nat>, image: seq<nat>, b: nat)
    requires Valid(d) && Valid(e) && DistinctScores(d) && Indices(e, keep)
    requires Rearranged(d, e, p) && ImageOf(p, keep, image) && b < |p| && b !in keep && Dominated(e, t, keep, b)
    ensures exists i :: i in SetOf(image) && Suppresses(d, t, i, p[b]) && d.scores[i] > d.scores[p[b]]
  {
    hide Suppresses;
    var a :| a in keep && Suppresses(e, t, a, b) && e.scores[a] >= e.scores[b];
    ImageMembers(p, keep, image, a);
    SuppressesMoved(d, e, t, p, a, b);
    assert p[a] in SetOf(image) && p[a] != p[b];
  }

  /** The image of a sound answer for the rearranged input is a kept set of the original. */
  lemma PullBack(d: Detections, e: Detections, t: real, p: seq<nat>, order': seq<nat>, keep: seq<nat>, image: seq<nat>)
    requires Valid(d) && DistinctScores(d) && Ranking(e, order') && SoundAnswer(e, t, order', keep)
    requires Rearranged(d, e, p) && (forall i: nat :: i < |d.boxes| ==> i in p) && ImageOf(p, keep, image)
    ensures Indices(d, image) && Descending(d, image) && KeptSet(d, t, SetOf(image))
  {
    ImageIndependent(d, e, t, p, keep, image);
    hide Suppresses, Independent, NoOverlap, Dominated;
    forall j: nat | j < |d.boxes| && j !in SetOf(image)
      ensures exists i :: i in SetOf(image) && Suppresses(d, t, i, j) && d.scores[i] > d.scores[j]
    {
      assert j in p;
      var b: nat :| b < |p| && p[b] == j;
      ImageMembers(p, keep, image, b);
      assert b in order';
      ImageDominates(d, e, t, p, keep, image, b);
    }
  }

  lemma TailMembers(d: Detections, s: seq<nat>)
    requires Valid(d) && Indices(d, s) && s != []
    ensures forall i :: i in s[1..] <==> i in s && i != s[0]
  {
  }

  lemma SameHead(d: Detections, a: seq<nat>, b: seq<nat>)
    requires Valid(d) && DistinctScores(d) && Indices(d, a) && Indices(d, b) && a != [] && b != []
    requires a[0] in b && b[0] in a
    requires forall j :: j in a && j != a[0] ==> d.scores[a[0]] >= d.scores[j]
    requires forall j :: j in b && j != b[0] ==> d.scores[b[0]] >= d.scores[j]
    ensures a[0] == b[0]
  {
  }

  /** With distinct scores, a set of indices has one descending listing. */
  lemma {:induction false} SameSetSameOrder(d: Detections, a: seq<nat>, b: seq<nat>)
    requires Valid(d) && DistinctScores(d) && Indices(d, a) && Indices(d, b)
    requires Descending(d, a) && Descending(d, b)
    requires forall i :: i in a <==> i in b
    ensures a == b
  {
    if b != [] { assert b[0] in b; }
    if a != [] {
      assert a[0] in b && b != [] && b[0] in a;
      HeadIsTop(d, a);
      HeadIsTop(d, b);
      TailMembers(d, a);
      TailMembers(d, b);
      hide Indices, Descending, DistinctScores, Valid;
      SameHead(d, a, b);
      SameSetSameOrder(d, a[1..], b[1..]);
      SplitHead(a);
      SplitHead(b);
    }
  }

  lemma SplitHead(s: seq<nat>)
    requires s != []
    ensures s == [s[0]] + s[1..]
  {
  }

  /** Permuting the input permutes the output, element by element. */
  lemma NmsFollowsPermutation(
      d: Detections, e: Detections, t: real, p: seq<nat>, order: seq<nat>, order': seq<nat>)
    requires Ranking(d, order) && Ranking(e, order') && DistinctScores(d)
    requires Rearranged(d, e, p) && forall i: nat :: i < |d.boxes| ==> i in p
    ensures var kept, kept' := Greedy(d, t, order), Greedy(e, t, order');
      && Indices(e, kept')
      && kept == seq(|kept'|, k requires 0 <= k < |kept'| => p[kept'[k]])
  {
    GreedyIsSound(d, t, order);
    GreedyIsSound(e, t, order');
    hide Suppresses, Greedy, KeptSet, Descending, NoOverlap, Dominated;
    var kept, kept' := Greedy(d, t, order), Greedy(e, t, order');
    assert forall k :: 0 <= k < |kept'| ==> kept'[k] < |p|;
    hide Indices, DistinctScores, Ranking, SetOf, SoundAnswer, Rearranged;
    var image := seq(|kept'|, k requires 0 <= k < |kept'| => p[kept'[k]]);
    PullBack(d, e, t, p, order', kept', image);
    NmsComputesTheKeptSet(d, t, order, SetOf(image));
    SameMembers(kept, image);
    SameSetSameOrder(d, kept, image);
  }

  lemma SameMembers(a: seq<nat>, b: seq<nat>)
    requires SetOf(a) == SetOf(b)
    ensures forall i :: i in a <==> i in b
  {
    forall i ensures i in a <==> i in b {
      assert i in a <==> i in SetOf(a);
      assert i in b <==> i in SetOf(b);
    }
  }

  lemma {:induction false} AllSurvive(d: Detections, t: real, i: nat, rest: seq<nat>)
    requires Valid(d) && i < |d.boxes| && Indices(d, rest)
    requires forall j :: j in rest ==> !Suppresses(d, t, i, j)
    ensures Survivors(d, t, i, rest) == rest
  {
    hide Suppresses;
    if rest != [] { AllSurvive(d, t, i, rest[1..]); }
  }

  /** A list without overlaps is kept whole. */
  lemma {:induction false} GreedyKeepsAll(d: Detections, t: real, order: seq<nat>)
    requires Valid(d) && Indices(d, order) && NoOverlap(d, t, order)
    ensures Greedy(d, t, order) == order
  {
    if order != [] {
      hide Suppresses;
      var i, rest := order[0], order[1..];
      assert forall j :: j in rest ==> j in order && j != i;
      AllSurvive(d, t, i, rest);
      GreedyKeepsAll(d, t, rest);
    }
  }

  function Identity(n: nat): seq<nat> { seq(n, k requires 0 <= k < n => k) }

  lemma IdentityListing(d: Detections, e: Detections, kept: seq<nat>)
    requires Valid(d) && Valid(e) && DistinctScores(d) && Indices(d, kept) && Descending(d, kept)
    requires Rearranged(d, e, kept)
    ensures DistinctScores(e) && Indices(e, Identity(|e.boxes|)) && Descending(e, Identity(|e.boxes|))
    ensures forall i: nat :: i in Identity(|e.boxes|) <==> i < |e.boxes|
  {
    var all := Identity(|e.boxes|);
    forall i: nat ensures i in all <==> i < |e.boxes| {
      if i < |e.boxes| { assert all[i] == i; }
    }
  }

  lemma SurvivorsDoNotOverlap(d: Detections, e: Detections, t: real, kept: seq<nat>, order': seq<nat>)
    requires Valid(d) && Valid(e) && Indices(d, kept) && NoOverlap(d, t, kept)
    requires Rearranged(d, e, kept) && Indices(e, order')
    ensures NoOverlap(e, t, order')
  {
    hide Suppresses;
    forall i, j | i in order' && j in order' && i != j ensures !Suppresses(e, t, i, j) {
      SuppressesMoved(d, e, t, kept, i, j);
      assert kept[i] in kept && kept[j] in kept && kept[i] != kept[j];
    }
  }

  /** Running `nms` on its own survivors keeps all of them, ties or not, in whatever order
      the sorting routine lists them; with distinct scores, in the order they are in. */
  lemma NmsIsIdempotent(d: Detections, e: Detections, t: real, order: seq<nat>, order': seq<nat>)
    requires Ranking(d, order) && Ranking(e, order')
    requires Indices(d, Greedy(d, t, order)) && Rearranged(d, e, Greedy(d, t, order))
    ensures Greedy(e, t, order') == order'
    ensures DistinctScores(d) ==> order' == Identity(|e.boxes|)
  {
    GreedyIsSound(d, t, order);
    hide Greedy, Descending, NoOverlap, Dominated, Indices, DistinctScores;
    var kept := Greedy(d, t, order);
    SurvivorsDoNotOverlap(d, e, t, kept, order');
    GreedyKeepsAll(e, t, order');
    if DistinctScores(d) {
      IdentityListing(d, e, kept);
      assert forall i: nat :: i in order' ==> i < |e.boxes| by { InRange(e, order'); }
      SameSetSameOrder(e, order', Identity(|e.boxes|));
    }
  }

  lemma InRange(d: Detections, s: seq<nat>)
    requires Indices(d, s)
    ensures forall i :: i in s ==> i < |d.boxes|
  {
  }
}
