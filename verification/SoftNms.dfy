/** Soft non-maximum suppression. The loop multiplies scores in place and removes
    indices while it walks over a copy of the list; the specification recomputes every
    score from the original one and filters. */
module SoftNms {
  import opened Boxes
  import opened Nms
  import opened Reals

  /** The Gaussian decay as a function of the overlap; all that is used of it is that it
      never enlarges a score nor wipes it out. */
  ghost predicate IsDecay(decay: real -> real) {
    forall x :: 0.0 < decay(x) <= 1.0
  }

  datatype Settings = Settings(decay: real -> real, floor: real)

  /** The score of j after the boxes in `picks` have decayed it, in that order. */
  function Decayed(d: Detections, c: Settings, picks: seq<nat>, j: nat): real
    requires Valid(d) && Indices(d, picks) && j < |d.boxes|
  {
    if picks == [] then d.scores[j] else
      var n := |picks| - 1;
      Decayed(d, c, picks[..n], j) * c.decay(NmsIou(d.boxes[picks[n]], d.boxes[j]))
  }

  function Scores(d: Detections, c: Settings, picks: seq<nat>, left: seq<nat>): seq<real>
    requires Valid(d) && Indices(d, picks) && Indices(d, left)
  {
    seq(|left|, k requires 0 <= k < |left| => Decayed(d, c, picks, left[k]))
  }

  /** The library's argmax: the first position of the largest value. */
  function ArgMax(values: seq<real>): (m: nat)
    requires values != []
    ensures m < |values|
    ensures forall k :: 0 <= k < |values| ==> values[k] <= values[m]
    ensures forall k :: 0 <= k < m ==> values[k] < values[m]
  {
    var n := |values| - 1;
    if n == 0 then 0 else
      var m := ArgMax(values[..n]);
      assert forall k :: 0 <= k < n ==> values[..n][k] == values[k];
      if values[n] > values[m] then n else m
  }

  /** The indices whose score is not below the floor. */
  function AboveFloor(d: Detections, c: Settings, picks: seq<nat>, left: seq<nat>): (s: seq<nat>)
    requires Valid(d) && Indices(d, picks) && Indices(d, left)
    ensures |s| <= |left| && Indices(d, s)
    ensures forall j :: j in s <==> j in left && Decayed(d, c, picks, j) >= c.floor
  {
    if left == [] then [] else
      var n := |left| - 1;
      var s := AboveFloor(d, c, picks, left[..n]);
      if Decayed(d, c, picks, left[n]) < c.floor then s else s + [left[n]]
  }

  function Without(s: seq<nat>, m: nat): seq<nat>
    requires m < |s|
  {
    s[..m] + s[m + 1..]
  }

  lemma WithoutIndices(d: Detections, s: seq<nat>, m: nat)
    requires Valid(d) && Indices(d, s) && m < |s|
    ensures Indices(d, Without(s, m)) && s[m] !in Without(s, m)
    ensures forall j :: j in Without(s, m) <==> j in s && j != s[m]
  {
    forall j | j in s && j != s[m] ensures j in Without(s, m) {
      var k :| 0 <= k < |s| && s[k] == j;
      assert Without(s, m)[if k < m then k else k - 1] == j;
    }
  }

  ghost predicate Disjoint(a: seq<nat>, b: seq<nat>) { forall j :: j in a ==> j !in b }

  lemma PickIndices(d: Detections, picks: seq<nat>, left: seq<nat>, m: nat)
    requires Valid(d) && Indices(d, picks) && Indices(d, left) && Disjoint(picks, left) && m < |left|
    ensures Indices(d, picks + [left[m]]) && Indices(d, Without(left, m))
    ensures Disjoint(picks + [left[m]], Without(left, m))
  {
    WithoutIndices(d, left, m);
    assert left[m] in left;
  }

  /** The specification: repeatedly take the first best index, decay, filter. */
  function Soft(d: Detections, c: Settings, picks: seq<nat>, left: seq<nat>): seq<nat>
    requires Valid(d) && Indices(d, picks) && Indices(d, left) && Disjoint(picks, left)
    decreases |left|
  {
    if left == [] then picks else
      var m := ArgMax(Scores(d, c, picks, left));
      PickIndices(d, picks, left, m);
      var picks' := picks + [left[m]];
      Soft(d, c, picks', AboveFloor(d, c, picks', Without(left, m)))
  }

  // ------------------------------------------------------------------ the method

  function RemoveFirst(s: seq<nat>, x: nat): seq<nat> {
    if s == [] then [] else if s[0] == x then s[1..] else [s[0]] + RemoveFirst(s[1..], x)
  }

  lemma RemoveHead(x: nat, rest: seq<nat>)
    ensures RemoveFirst([x] + rest, x) == rest
  {
    assert ([x] + rest)[1..] == rest;
  }

  lemma RemoveBehind(head: nat, rest: seq<nat>, x: nat)
    requires head != x
    ensures RemoveFirst([head] + rest, x) == [head] + RemoveFirst(rest, x)
  {
    assert ([head] + rest)[1..] == rest;
  }

  lemma {:induction false} RemoveBetween(a: seq<nat>, x: nat, b: seq<nat>)
    requires x !in a
    ensures RemoveFirst(a + [x] + b, x) == a + b
  {
    hide RemoveFirst;
    if a == [] {
      RemoveHead(x, b);
      assert a + [x] + b == [x] + b && a + b == b;
    } else {
      var rest := a[1..];
      RemoveBetween(rest, x, b);
      RemoveBehind(a[0], rest + [x] + b, x);
      assert a == [a[0]] + rest;
      assert a + [x] + b == [a[0]] + (rest + [x] + b) && a + b == [a[0]] + (rest + b);
    }
  }

  lemma AboveFloorNone(d: Detections, c: Settings, picks: seq<nat>)
    requires Valid(d) && Indices(d, picks)
    ensures AboveFloor(d, c, picks, []) == []
  {
  }

  lemma AboveFloorNext(d: Detections, c: Settings, picks: seq<nat>, left: seq<nat>, k: nat)
    requires Valid(d) && Indices(d, picks) && Indices(d, left) && k < |left|
    ensures var s := AboveFloor(d, c, picks, left[..k]);
      && left[k] !in s
      && AboveFloor(d, c, picks, left[..k + 1])
           == if Decayed(d, c, picks, left[k]) < c.floor then s else s + [left[k]]
  {
    assert left[..k + 1][..k] == left[..k];
  }

  /** State of the inner loop after k of the listed indices: their scores `v` are
      decayed, the others are not yet, and `left` has been filtered so far. */
  ghost predicate Progress(
      d: Detections, c: Settings, picks: seq<nat>, i: nat, indices: seq<nat>, k: nat, v: seq<real>, left: seq<nat>)
    requires Valid(d) && Indices(d, picks) && Indices(d, picks + [i]) && Indices(d, indices) && k <= |indices|
  {
    && |v| == |d.boxes|
    && left == AboveFloor(d, c, picks + [i], indices[..k]) + indices[k..]
    && (forall l :: 0 <= l < k ==> v[indices[l]] == Decayed(d, c, picks + [i], indices[l]))
    && (forall l :: k <= l < |indices| ==> v[indices[l]] == Decayed(d, c, picks, indices[l]))
  }

  function DecayOne(d: Detections, c: Settings, i: nat, j: nat, score: real): real
    requires Valid(d) && i < |d.boxes| && j < |d.boxes|
  {
    score * c.decay(NmsIou(d.boxes[i], d.boxes[j]))
  }

  lemma DecayedNext(d: Detections, c: Settings, picks: seq<nat>, i: nat, j: nat)
    requires Valid(d) && Indices(d, picks) && Indices(d, picks + [i]) && i < |d.boxes| && j < |d.boxes|
    ensures Decayed(d, c, picks + [i], j) == DecayOne(d, c, i, j, Decayed(d, c, picks, j))
  {
    assert (picks + [i])[..|picks|] == picks;
  }

  lemma ProgressStep(
      d: Detections, c: Settings, picks: seq<nat>, i: nat, indices: seq<nat>, k: nat, v: seq<real>, left: seq<nat>)
    requires Valid(d) && Indices(d, picks) && Indices(d, picks + [i]) && i < |d.boxes|
    requires Indices(d, indices) && k < |indices|
    requires Progress(d, c, picks, i, indices, k, v, left)
    ensures var j := indices[k];
            var score := DecayOne(d, c, i, j, v[j]);
            Progress(d, c, picks, i, indices, k + 1, v[j := score],
                     if score < c.floor then RemoveFirst(left, j) else left)
  {
    hide AboveFloor, Decayed, DecayOne;
    var j, rest := indices[k], indices[k + 1..];
    var s := AboveFloor(d, c, picks + [i], indices[..k]);
    DecayedNext(d, c, picks, i, j);
    AboveFloorNext(d, c, picks + [i], indices, k);
    assert indices[k..] == [j] + rest;
    assert left == s + [j] + rest;
    RemoveBetween(s, j, rest);
  }

  lemma ProgressStart(
      d: Detections, c: Settings, picks: seq<nat>, i: nat, indices: seq<nat>, v: seq<real>)
    requires Valid(d) && |v| == |d.boxes|
    requires Indices(d, picks) && Indices(d, picks + [i]) && Indices(d, indices)
    requires forall j :: j in indices ==> v[j] == Decayed(d, c, picks, j)
    ensures Progress(d, c, picks, i, indices, 0, v, indices)
  {
    hide Decayed;
    AboveFloorNone(d, c, picks + [i]);
    hide AboveFloor;
    assert indices[..0] == [];
  }

  lemma ProgressDone(
      d: Detections, c: Settings, picks: seq<nat>, i: nat, indices: seq<nat>, v: seq<real>, left: seq<nat>)
    requires Valid(d) && Indices(d, picks) && Indices(d, picks + [i]) && Indices(d, indices)
    requires Progress(d, c, picks, i, indices, |indices|, v, left)
    ensures left == AboveFloor(d, c, picks + [i], indices)
    ensures forall j :: j in left ==> v[j] == Decayed(d, c, picks + [i], j)
  {
    hide Decayed;
    assert indices[..|indices|] == indices;
    forall j | j in left ensures v[j] == Decayed(d, c, picks + [i], j) {
      var l :| 0 <= l < |indices| && indices[l] == j;
    }
  }

  /** The inner loop: decays in place every index still in the list, and drops from the
      list those that fall below the floor. */
  method DecayAll(d: Detections, c: Settings, scores: array<real>, i: nat, indices: seq<nat>, ghost picks: seq<nat>)
      returns (left: seq<nat>)
    requires Valid(d) && scores.Length == |d.boxes| && i < |d.boxes|
    requires Indices(d, indices) && Indices(d, picks) && Indices(d, picks + [i])
    requires forall j :: j in indices ==> scores[j] == Decayed(d, c, picks, j)
    modifies scores
    ensures Indices(d, left) && left == AboveFloor(d, c, picks + [i], indices)
    ensures forall j :: j in left ==> scores[j] == Decayed(d, c, picks + [i], j)
  {
    hide AboveFloor, Decayed, NmsIou, Progress;
    left := indices;
    var k := 0;
    ProgressStart(d, c, picks, i, indices, scores[..]);
    while k < |indices|
      invariant 0 <= k <= |indices|
      invariant Progress(d, c, picks, i, indices, k, scores[..], left)
    {
      ghost var v := scores[..];
      ProgressStep(d, c, picks, i, indices, k, v, left);
      var j := indices[k];
      assert 0 <= j < |d.boxes|;
      hide Indices, RemoveFirst;
      scores[j] := scores[j] * c.decay(NmsIou(d.boxes[i], d.boxes[j]));
      assert scores[j] == DecayOne(d, c, i, j, v[j]);
      assert scores[..] == v[j := DecayOne(d, c, i, j, v[j])];
      if scores[j] < c.floor {
        left := RemoveFirst(left, j);
      }
      k := k + 1;
    }
    ProgressDone(d, c, picks, i, indices, scores[..], left);
  }

  method SoftNms(d: Detections, c: Settings) returns (keep: seq<nat>)
    requires Valid(d)
    ensures keep == Soft(d, c, [], Identity(|d.boxes|))
  {
    hide AboveFloor, ArgMax;
    var n := |d.boxes|;
    keep := [];
    if n == 0 {
      return;
    }
    var scores := new real[n](k requires 0 <= k < n => d.scores[k]);
    var indices: seq<nat> := Identity(n);
    while indices != []
      invariant Indices(d, keep) && Indices(d, indices) && Disjoint(keep, indices)
      invariant forall j :: j in indices ==> scores[j] == Decayed(d, c, keep, j)
      invariant Soft(d, c, keep, indices) == Soft(d, c, [], Identity(n))
      decreases |indices|
    {
      var values := seq(|indices|, k requires 0 <= k < |indices| && 0 <= indices[k] < scores.Length reads scores =>
                                     scores[indices[k]]);
      assert values == Scores(d, c, keep, indices);
      var m := ArgMax(values);
      var i := indices[m];
      PickIndices(d, keep, indices, m);
      WithoutIndices(d, indices, m);
      ghost var picks := keep;
      keep := keep + [i];
      indices := Without(indices, m);
      indices := DecayAll(d, c, scores, i, indices, picks);
    }
  }

  // ------------------------------------------------------------------ guarantees

  /** The score of j once the first m picks of `out` were made. */
  function ScoreAfter(d: Detections, c: Settings, out: seq<nat>, m: nat, j: nat): real
    requires Valid(d) && Indices(d, out) && m <= |out| && j < |d.boxes|
  {
    Decayed(d, c, out[..m], j)
  }

  /** j's score is at or above the floor after each pick beyond the first a, up to the
      first b. */
  ghost predicate StaysAbove(d: Detections, c: Settings, out: seq<nat>, a: nat, b: nat, j: nat)
    requires Valid(d) && Indices(d, out) && b <= |out| && j < |d.boxes|
  {
    forall m :: a < m <= b ==> ScoreAfter(d, c, out, m, j) >= c.floor
  }

  /** Some pick beyond the first a brings j below the floor, where it was not before. */
  ghost predicate FallsBelow(d: Detections, c: Settings, out: seq<nat>, a: nat, j: nat)
    requires Valid(d) && Indices(d, out) && j < |d.boxes|
  {
    exists m :: a < m <= |out| && ScoreAfter(d, c, out, m, j) < c.floor && StaysAbove(d, c, out, a, m - 1, j)
  }

  /** What a run that already made the picks out[..a] and has `left` to choose from
      answers. */
  ghost predicate SoftAnswer(d: Detections, c: Settings, a: nat, left: seq<nat>, out: seq<nat>)
    requires Valid(d) && Indices(d, left)
  {
    && Indices(d, out) && a <= |out|
    && (forall k :: a <= k < |out| ==> out[k] in left)
    && (forall m, k :: a <= m < k < |out| ==> ScoreAfter(d, c, out, m, out[k]) <= ScoreAfter(d, c, out, m, out[m]))
    && (forall k :: a <= k < |out| ==> StaysAbove(d, c, out, a, k, out[k]))
    && (forall j :: j in left && j !in out ==> FallsBelow(d, c, out, a, j))
  }

  lemma {:induction false} SoftIsSound(d: Detections, c: Settings, picks: seq<nat>, left: seq<nat>)
    requires Valid(d) && Indices(d, picks) && Indices(d, left) && Disjoint(picks, left)
    ensures var out := Soft(d, c, picks, left);
            SoftAnswer(d, c, |picks|, left, out) && out[..|picks|] == picks
    decreases |left|
  {
    if left != [] {
      hide Decayed, AboveFloor, Scores, SoftAnswer;
      var m := ArgMax(Scores(d, c, picks, left));
      PickIndices(d, picks, left, m);
      WithoutIndices(d, left, m);
      var picks' := picks + [left[m]];
      var left' := AboveFloor(d, c, picks', Without(left, m));
      SoftIsSound(d, c, picks', left');
      BestIsMaximal(d, c, picks, left, m);
      var out := Soft(d, c, picks', left');
      PickIsRound(d, c, picks, left, m, left', out);
      SoftRound(d, c, |picks|, left, left', out);
    }
  }

  lemma BestIsMaximal(d: Detections, c: Settings, picks: seq<nat>, left: seq<nat>, m: nat)
    requires Valid(d) && Indices(d, picks) && Indices(d, left) && left != []
    requires m == ArgMax(Scores(d, c, picks, left))
    ensures forall j :: j in left ==> Decayed(d, c, picks, j) <= Decayed(d, c, picks, left[m])
  {
    hide Decayed;
    var values := Scores(d, c, picks, left);
    forall j | j in left ensures Decayed(d, c, picks, j) <= Decayed(d, c, picks, left[m]) {
      var k :| 0 <= k < |left| && left[k] == j;
      assert values[k] <= values[m];
    }
  }

  lemma StaysEarlier(d: Detections, c: Settings, out: seq<nat>, a: nat, b: nat, j: nat)
    requires Valid(d) && Indices(d, out) && a < b <= |out| && j < |d.boxes|
    requires StaysAbove(d, c, out, a + 1, b, j) && ScoreAfter(d, c, out, a + 1, j) >= c.floor
    ensures StaysAbove(d, c, out, a, b, j)
  {
  }

  lemma FallsLater(d: Detections, c: Settings, out: seq<nat>, a: nat, j: nat)
    requires Valid(d) && Indices(d, out) && a < |out| && j < |d.boxes|
    requires FallsBelow(d, c, out, a + 1, j) && ScoreAfter(d, c, out, a + 1, j) >= c.floor
    ensures FallsBelow(d, c, out, a, j)
  {
    hide ScoreAfter;
    var m :| a + 1 < m <= |out| && ScoreAfter(d, c, out, m, j) < c.floor && StaysAbove(d, c, out, a + 1, m - 1, j);
    assert StaysAbove(d, c, out, a, m - 1, j);
  }

  lemma FallsAtOnce(d: Detections, c: Settings, out: seq<nat>, a: nat, j: nat)
    requires Valid(d) && Indices(d, out) && a < |out| && j < |d.boxes|
    requires ScoreAfter(d, c, out, a + 1, j) < c.floor
    ensures FallsBelow(d, c, out, a, j)
  {
    hide ScoreAfter;
    assert StaysAbove(d, c, out, a, a, j);
  }

  /** What a round in front of an answer says of a later pick. */
  lemma RoundKeeps(d: Detections, c: Settings, out: seq<nat>, a: nat, k: nat)
    requires Valid(d) && Indices(d, out) && a < k < |out|
    requires StaysAbove(d, c, out, a + 1, k, out[k]) && ScoreAfter(d, c, out, a + 1, out[k]) >= c.floor
    requires ScoreAfter(d, c, out, a, out[k]) <= ScoreAfter(d, c, out, a, out[a])
    ensures StaysAbove(d, c, out, a, k, out[k])
  {
    StaysEarlier(d, c, out, a, k, out[k]);
  }

  /** The a-th pick of `out` is the best of `left`, and `left'` is what of the rest it
      leaves at or above the floor. */
  ghost predicate IsRound(d: Detections, c: Settings, a: nat, left: seq<nat>, left': seq<nat>, out: seq<nat>)
    requires Valid(d) && Indices(d, left) && Indices(d, left') && Indices(d, out) && a < |out|
  {
    && out[a] in left
    && (forall j :: j in left ==> ScoreAfter(d, c, out, a, j) <= ScoreAfter(d, c, out, a, out[a]))
    && (forall j :: j in left' <==> j in left && j != out[a] && ScoreAfter(d, c, out, a + 1, j) >= c.floor)
  }

  lemma PickIsRound(d: Detections, c: Settings, picks: seq<nat>, left: seq<nat>, b: nat, left': seq<nat>, out: seq<nat>)
    requires Valid(d) && Indices(d, picks) && Indices(d, left) && b < |left| && Indices(d, out)
    requires Indices(d, picks + [left[b]]) && Indices(d, Without(left, b))
    requires forall j :: j in left ==> Decayed(d, c, picks, j) <= Decayed(d, c, picks, left[b])
    requires left' == AboveFloor(d, c, picks + [left[b]], Without(left, b))
    requires |out| > |picks| && out[..|picks| + 1] == picks + [left[b]]
    ensures out[..|picks|] == picks && Indices(d, left') && IsRound(d, c, |picks|, left, left', out)
  {
    WithoutIndices(d, left, b);
    hide Decayed, AboveFloor, Without;
    var a := |picks|;
    assert out[..a] == out[..a + 1][..a] == picks;
    assert out[a] == out[..a + 1][a] == left[b];
  }

  lemma RoundKept(d: Detections, c: Settings, a: nat, left: seq<nat>, left': seq<nat>, out: seq<nat>, k: nat)
    requires Valid(d) && Indices(d, left) && Indices(d, left') && Indices(d, out) && a <= k < |out|
    requires IsRound(d, c, a, left, left', out) && SoftAnswer(d, c, a + 1, left', out)
    ensures out[k] in left && StaysAbove(d, c, out, a, k, out[k])
    ensures ScoreAfter(d, c, out, a, out[k]) <= ScoreAfter(d, c, out, a, out[a])
  {
    hide ScoreAfter;
    if a < k {
      assert out[k] in left';
      StaysEarlier(d, c, out, a, k, out[k]);
    }
  }

  lemma RoundDropped(d: Detections, c: Settings, a: nat, left: seq<nat>, left': seq<nat>, out: seq<nat>, j: nat)
    requires Valid(d) && Indices(d, left) && Indices(d, left') && Indices(d, out) && a < |out| && j < |d.boxes|
    requires IsRound(d, c, a, left, left', out) && SoftAnswer(d, c, a + 1, left', out)
    requires j in left && j !in out
    ensures FallsBelow(d, c, out, a, j)
  {
    hide ScoreAfter;
    if j in left' {
      FallsLater(d, c, out, a, j);
    } else {
      assert out[a] in out;
      FallsAtOnce(d, c, out, a, j);
    }
  }

  /** One round in front of a sound answer gives a sound answer. */
  lemma SoftRound(d: Detections, c: Settings, a: nat, left: seq<nat>, left': seq<nat>, out: seq<nat>)
    requires Valid(d) && Indices(d, left) && Indices(d, left') && Indices(d, out) && a < |out|
    requires IsRound(d, c, a, left, left', out) && SoftAnswer(d, c, a + 1, left', out)
    ensures SoftAnswer(d, c, a, left, out)
  {
    hide StaysAbove, FallsBelow, ScoreAfter, IsRound;
    forall k | a <= k < |out|
      ensures out[k] in left && StaysAbove(d, c, out, a, k, out[k])
      ensures ScoreAfter(d, c, out, a, out[k]) <= ScoreAfter(d, c, out, a, out[a])
    {
      RoundKept(d, c, a, left, left', out, k);
    }
    forall j | j in left && j !in out ensures FallsBelow(d, c, out, a, j) {
      RoundDropped(d, c, a, left, left', out, j);
    }
  }

  /** SOFT-NMS. Every index is kept at most once; at every pick the picked score is
      maximal among all later picks; a kept index never fell below the floor before it
      was picked; and every index that is not kept did fall below it after some pick. */
  lemma SoftNmsGuarantee(d: Detections, c: Settings)
    requires Valid(d)
    ensures var out := Soft(d, c, [], Identity(|d.boxes|));
      && Indices(d, out)
      && (forall m, k :: 0 <= m < k < |out| ==> ScoreAfter(d, c, out, m, out[k]) <= ScoreAfter(d, c, out, m, out[m]))
      && (forall k :: 0 <= k < |out| ==> StaysAbove(d, c, out, 0, k, out[k]))
      && (forall j: nat :: j < |d.boxes| && j !in out ==> FallsBelow(d, c, out, 0, j))
  {
    var all := Identity(|d.boxes|);
    SoftIsSound(d, c, [], all);
    forall j: nat | j < |d.boxes| ensures j in all { assert all[j] == j; }
  }

  /** At every pick from the a-th on, the pick is the best of all that are neither picked
      nor below the floor by then. */
  ghost predicate BestFirst(d: Detections, c: Settings, a: nat, left: seq<nat>, out: seq<nat>)
    requires Valid(d) && Indices(d, left) && Indices(d, out)
  {
    forall m: nat, j :: a <= m < |out| && j in left && j !in out[..m] && StaysAbove(d, c, out, a, m, j) ==>
      ScoreAfter(d, c, out, m, j) <= ScoreAfter(d, c, out, m, out[m])
  }

  lemma BestFirstRound(
      d: Detections, c: Settings, picks: seq<nat>, left: seq<nat>, b: nat, left': seq<nat>, out: seq<nat>)
    requires Valid(d) && Indices(d, picks) && Indices(d, left) && b < |left|
    requires Indices(d, picks + [left[b]]) && Indices(d, left') && Indices(d, out)
    requires forall j :: j in left ==> Decayed(d, c, picks, j) <= Decayed(d, c, picks, left[b])
    requires forall j :: j in left && j != left[b] && Decayed(d, c, picks + [left[b]], j) >= c.floor ==> j in left'
    requires BestFirst(d, c, |picks| + 1, left', out)
    requires |out| > |picks| && out[..|picks| + 1] == picks + [left[b]]
    ensures BestFirst(d, c, |picks|, left, out)
  {
    hide Decayed, NmsIou;
    var a := |picks|;
    assert out[..a] == out[..a + 1][..a] == picks;
    assert out[a] == out[..a + 1][a] == left[b];
    forall m: nat, j | a <= m < |out| && j in left && j !in out[..m] && StaysAbove(d, c, out, a, m, j)
      ensures ScoreAfter(d, c, out, m, j) <= ScoreAfter(d, c, out, m, out[m])
    {
      if m > a {
        assert out[..m][a] == left[b];
        assert ScoreAfter(d, c, out, a + 1, j) >= c.floor;
        assert j in left' && StaysAbove(d, c, out, a + 1, m, j);
      }
    }
  }

  /** BEST FIRST. What is picked is the best of all that is left, not only of what is
      picked later. */
  lemma {:induction false} PicksAreBest(d: Detections, c: Settings, picks: seq<nat>, left: seq<nat>)
    requires Valid(d) && Indices(d, picks) && Indices(d, left) && Disjoint(picks, left)
    ensures var out := Soft(d, c, picks, left); Indices(d, out) && BestFirst(d, c, |picks|, left, out)
    decreases |left|
  {
    SoftIsSound(d, c, picks, left);
    if left != [] {
      hide Decayed, Scores, SoftAnswer, BestFirst;
      var m := ArgMax(Scores(d, c, picks, left));
      PickIndices(d, picks, left, m);
      WithoutIndices(d, left, m);
      var picks' := picks + [left[m]];
      var left' := AboveFloor(d, c, picks', Without(left, m));
      SoftIsSound(d, c, picks', left');
      PicksAreBest(d, c, picks', left');
      BestIsMaximal(d, c, picks, left, m);
      assert SoftAnswer(d, c, |picks'|, left', Soft(d, c, picks', left'));
      BestFirstRound(d, c, picks, left, m, left', Soft(d, c, picks', left'));
    }
  }

  lemma DecayedSign(d: Detections, c: Settings, picks: seq<nat>, i: nat, j: nat)
    requires Valid(d) && IsDecay(c.decay) && j < |d.boxes| && i < |d.boxes|
    requires Indices(d, picks) && Indices(d, picks + [i])
    ensures var before, after := Decayed(d, c, picks, j), Decayed(d, c, picks + [i], j);
      && (0.0 <= before ==> 0.0 <= after <= before)
      && (before < 0.0 ==> after < 0.0)
  {
    hide Decayed, DecayOne;
    DecayedNext(d, c, picks, i, j);
    DecayOneShrinks(d, c, i, j, Decayed(d, c, picks, j));
  }

  lemma DecayOneShrinks(d: Detections, c: Settings, i: nat, j: nat, x: real)
    requires Valid(d) && IsDecay(c.decay) && j < |d.boxes| && i < |d.boxes|
    ensures var y := DecayOne(d, c, i, j, x);
            (0.0 <= x ==> 0.0 <= y <= x) && (x < 0.0 ==> y < 0.0)
  {
    hide NmsIou;
    Shrink(x, c.decay(NmsIou(d.boxes[i], d.boxes[j])));
  }

  lemma Shrink(x: real, f: real)
    requires 0.0 < f <= 1.0
    ensures 0.0 <= x ==> 0.0 <= x * f <= x
    ensures x < 0.0 ==> x * f < 0.0
  {
    if 0.0 <= x {
      MonotoneFactor(x, 0.0, f);
      MonotoneFactor(x, f, 1.0);
    } else {
      PositiveProduct(-x, f);
      assert (-x) * f == -(x * f);
    }
  }

  lemma {:induction false} DecayedNonNegative(d: Detections, c: Settings, picks: seq<nat>, j: nat)
    requires Valid(d) && IsDecay(c.decay) && Indices(d, picks) && j < |d.boxes| && 0.0 <= d.scores[j]
    ensures 0.0 <= Decayed(d, c, picks, j)
  {
    if picks != [] {
      var n := |picks| - 1;
      assert picks == picks[..n] + [picks[n]];
      DecayedNonNegative(d, c, picks[..n], j);
      DecayedSign(d, c, picks[..n], picks[n], j);
    }
  }

  lemma NextPickScore(d: Detections, c: Settings, out: seq<nat>, m: nat)
    requires Valid(d) && IsDecay(c.decay) && Indices(d, out) && m + 1 < |out|
    requires 0.0 <= c.floor || 0.0 <= d.scores[out[m + 1]]
    requires ScoreAfter(d, c, out, m, out[m + 1]) <= ScoreAfter(d, c, out, m, out[m])
    requires ScoreAfter(d, c, out, m + 1, out[m + 1]) >= c.floor
    ensures ScoreAfter(d, c, out, m + 1, out[m + 1]) <= ScoreAfter(d, c, out, m, out[m])
  {
    var j := out[m + 1];
    assert out[..m + 1] == out[..m] + [out[m]];
    DecayedSign(d, c, out[..m], out[m], j);
    if c.floor < 0.0 { DecayedNonNegative(d, c, out[..m], j); }
  }

  lemma StillAbove(d: Detections, c: Settings, out: seq<nat>, k: nat)
    requires Valid(d) && Indices(d, out) && 0 < k < |out| && StaysAbove(d, c, out, 0, k, out[k])
    ensures ScoreAfter(d, c, out, k, out[k]) >= c.floor
  {
  }

  /** The scores at pick time never increase along the output, for confidences (scores
      that are not negative) as well as for any scores with a floor that is not negative. */
  lemma PickScoresNeverIncrease(d: Detections, c: Settings, m: nat)
    requires Valid(d) && IsDecay(c.decay)
    requires 0.0 <= c.floor || forall j :: 0 <= j < |d.scores| ==> 0.0 <= d.scores[j]
    ensures var out := Soft(d, c, [], Identity(|d.boxes|));
            Indices(d, out)
            && (m + 1 < |out| ==> ScoreAfter(d, c, out, m + 1, out[m + 1]) <= ScoreAfter(d, c, out, m, out[m]))
  {
    hide Soft, ScoreAfter, IsDecay, Ordered;
    SoftNmsGuarantee(d, c);
    var out := Soft(d, c, [], Identity(|d.boxes|));
    if m + 1 < |out| {
      StillAbove(d, c, out, m + 1);
      hide StaysAbove, FallsBelow, Indices;
      NextPickScore(d, c, out, m);
    }
  }

  // ----------------------------------------------------- in terms of scores and boxes

  /** The product of what each of these boxes leaves of another one's score. */
  function Kept(decay: real -> real, others: seq<Corners>, b: Corners): real
    requires Ordered(b) && forall k :: 0 <= k < |others| ==> Ordered(others[k])
  {
    if others == [] then 1.0 else decay(NmsIou(others[0], b)) * Kept(decay, others[1..], b)
  }

  function BoxesOf(d: Detections, picks: seq<nat>): seq<Corners>
    requires Valid(d) && Indices(d, picks)
  {
    seq(|picks|, k requires 0 <= k < |picks| => d.boxes[picks[k]])
  }

  lemma {:induction false} KeptGrows(decay: real -> real, others: seq<Corners>, last: Corners, b: Corners)
    requires Ordered(b) && Ordered(last) && forall k :: 0 <= k < |others| ==> Ordered(others[k])
    ensures Kept(decay, others + [last], b) == Kept(decay, others, b) * decay(NmsIou(last, b))
  {
    hide NmsIou, Ordered;
    var all := others + [last];
    if others == [] {
      assert all[1..] == [];
    } else {
      KeptGrows(decay, others[1..], last, b);
      assert all[0] == others[0] && all[1..] == others[1..] + [last];
      ProductsRegroup(decay(NmsIou(others[0], b)), Kept(decay, others[1..], b), decay(NmsIou(last, b)));
    }
  }

  lemma ProductsRegroup(x: real, y: real, z: real)
    ensures x * (y * z) == (x * y) * z
  {
  }

  /** THE SCORE. After any picks a score is the detection's own, times what each picked box
      leaves of it for its overlap. */
  lemma {:induction false} ScoreIsProduct(d: Detections, c: Settings, picks: seq<nat>, j: nat)
    requires Valid(d) && Indices(d, picks) && j < |d.boxes|
    ensures Decayed(d, c, picks, j) == d.scores[j] * Kept(c.decay, BoxesOf(d, picks), d.boxes[j])
  {
    hide NmsIou, Ordered;
    if picks != [] {
      var n := |picks| - 1;
      var before, f := BoxesOf(d, picks[..n]), c.decay(NmsIou(d.boxes[picks[n]], d.boxes[j]));
      ScoreIsProduct(d, c, picks[..n], j);
      assert BoxesOf(d, picks) == before + [d.boxes[picks[n]]];
      KeptGrows(c.decay, before, d.boxes[picks[n]], d.boxes[j]);
      ProductsRegroup(d.scores[j], Kept(c.decay, before, d.boxes[j]), f);
    }
  }

  // -------------------------------------------------------------- the first two picks

  lemma ScoresAtFirst(d: Detections, c: Settings)
    requires Valid(d)
    ensures Scores(d, c, [], Identity(|d.boxes|)) == d.scores
  {
  }

  lemma FirstIndices(d: Detections, m: nat)
    requires Valid(d) && m < |d.boxes|
    ensures var rest := Without(Identity(|d.boxes|), m);
      Indices(d, [m]) && Indices(d, rest) && Disjoint([m], rest)
  {
    var all := Identity(|d.boxes|);
    assert all[m] == m && [] + [m] == [m];
    PickIndices(d, [], all, m);
  }

  lemma FirstRound(d: Detections, c: Settings, m: nat)
    requires Valid(d) && d.boxes != [] && m == ArgMax(d.scores)
    requires Indices(d, [m]) && Indices(d, Without(Identity(|d.boxes|), m))
    requires Disjoint([m], AboveFloor(d, c, [m], Without(Identity(|d.boxes|), m)))
    ensures Soft(d, c, [], Identity(|d.boxes|))
      == Soft(d, c, [m], AboveFloor(d, c, [m], Without(Identity(|d.boxes|), m)))
  {
    hide AboveFloor, Decayed, Ordered, ArgMax, Without, Scores;
    ScoresAtFirst(d, c);
    assert Identity(|d.boxes|)[m] == m && [] + [m] == [m];
  }

  /** The first pick is the first of the best detections. */
  lemma FirstPickIsBest(d: Detections, c: Settings)
    requires Valid(d) && d.boxes != []
    ensures var out := Soft(d, c, [], Identity(|d.boxes|));
      && out != [] && out[0] < |d.boxes|
      && (forall j: nat :: j < |d.boxes| ==> d.scores[j] <= d.scores[out[0]])
      && (forall j: nat :: j < out[0] ==> d.scores[j] < d.scores[out[0]])
  {
    hide AboveFloor, Decayed, Ordered, Soft, Without;
    var m := ArgMax(d.scores);
    FirstIndices(d, m);
    FirstRound(d, c, m);
    var left := AboveFloor(d, c, [m], Without(Identity(|d.boxes|), m));
    SoftIsSound(d, c, [m], left);
    assert Soft(d, c, [m], left)[..1][0] == m;
  }

  lemma LastPick(d: Detections, c: Settings, picks: seq<nat>, j: nat)
    requires Valid(d) && Indices(d, picks) && Indices(d, picks + [j]) && Indices(d, [j]) && j !in picks
    ensures Soft(d, c, picks, [j]) == picks + [j]
  {
    hide Decayed, Ordered;
    assert Without([j], 0) == [];
    AboveFloorNone(d, c, picks + [j]);
  }

  lemma OnlyFirst(d: Detections, c: Settings, picks: seq<nat>, j: nat)
    requires Valid(d) && Indices(d, picks) && Indices(d, [j]) && j < |d.boxes|
    ensures AboveFloor(d, c, picks, [j]) == if Decayed(d, c, picks, j) >= c.floor then [j] else []
  {
    hide Decayed, Ordered;
    AboveFloorNone(d, c, picks);
    assert [j][..0] == [];
  }

  /** Of two boxes the better one comes first, and the other one follows if and only if
      what the overlap leaves of its score reaches the floor. */
  lemma TwoBoxes(d: Detections, c: Settings, best: nat, other: nat)
    requires Valid(d) && |d.boxes| == 2 && best < 2 && other == 1 - best
    requires d.scores[best] > d.scores[other] || (d.scores[best] == d.scores[other] && best == 0)
    ensures Soft(d, c, [], Identity(2))
      == [best] + if d.scores[other] * c.decay(NmsIou(d.boxes[best], d.boxes[other])) >= c.floor then [other] else []
  {
    hide AboveFloor, ArgMax, NmsIou, Ordered, Soft, Decayed, Without;
    BestOfTwo(d.scores, best);
    PairIndices(best, other);
    FirstIndices(d, best);
    OnlyFirst(d, c, [best], other);
    DecayedOnce(d, c, best, other);
    FirstRound(d, c, best);
    hide Disjoint, Identity;
    LastPick(d, c, [best], other);
    NoneLeft(d, c, [best]);
  }

  lemma BestOfTwo(scores: seq<real>, best: nat)
    requires |scores| == 2 && best < 2
    requires scores[best] > scores[1 - best] || (scores[best] == scores[1 - best] && best == 0)
    ensures ArgMax(scores) == best
  {
    var m := ArgMax(scores);
    assert scores[best] <= scores[m] && (0 < m ==> scores[0] < scores[m]);
  }

  lemma PairIndices(best: nat, other: nat)
    requires best < 2 && other == 1 - best
    ensures Without(Identity(2), best) == [other] && [best] + [other] == [best, other] && [best] + [] == [best]
  {
  }

  lemma DecayedOnce(d: Detections, c: Settings, i: nat, j: nat)
    requires Valid(d) && i < |d.boxes| && j < |d.boxes| && Indices(d, [i])
    ensures Decayed(d, c, [i], j) == d.scores[j] * c.decay(NmsIou(d.boxes[i], d.boxes[j]))
  {
    hide NmsIou, Ordered;
    assert [i][..0] == [];
  }

  lemma NoneLeft(d: Detections, c: Settings, picks: seq<nat>)
    requires Valid(d) && Indices(d, picks)
    ensures Soft(d, c, picks, []) == picks
  {
  }

  // ------------------------------------------------------ boxes that no pick touches

  lemma {:induction false} NothingLost(decay: real -> real, others: seq<Corners>, b: Corners)
    requires Ordered(b) && decay(0.0) == 1.0
    requires forall k :: 0 <= k < |others| ==> Ordered(others[k]) && Intersection(others[k], b) == 0.0
    ensures Kept(decay, others, b) == 1.0
  {
    hide Intersection, CornerArea, Ordered;
    if others != [] {
      NothingLost(decay, others[1..], b);
      NoOverlapNoRatio(others[0], b);
    }
  }

  lemma NoOverlapNoRatio(a: Corners, b: Corners)
    requires Ordered(a) && Ordered(b) && Intersection(a, b) == 0.0
    ensures NmsIou(a, b) == 0.0
  {
    IntersectionBounds(a, b);
    hide Intersection, CornerArea;
    QuotientOrder(0.0, CornerArea(a) + CornerArea(b) + EPSILON, 0.0);
  }

  /** A detection whose box meets that of no pick, other than its own, keeps its score. */
  lemma UntouchedScore(d: Detections, c: Settings, out: seq<nat>, m: nat, j: nat)
    requires Valid(d) && Indices(d, out) && m <= |out| && j < |d.boxes| && c.decay(0.0) == 1.0
    requires forall k :: 0 <= k < m ==> Intersection(d.boxes[out[k]], d.boxes[j]) == 0.0
    ensures ScoreAfter(d, c, out, m, j) == d.scores[j]
  {
    ScoreIsProduct(d, c, out[..m], j);
    NothingLost(c.decay, BoxesOf(d, out[..m]), d.boxes[j]);
  }

  /** UNTOUCHED. With no decay where there is no overlap, a detection whose box meets that
      of no other pick is kept if and only if it is the first pick or its confidence
      reaches the floor. */
  lemma UntouchedIsKept(d: Detections, c: Settings, j: nat)
    requires Valid(d) && j < |d.boxes| && c.decay(0.0) == 1.0
    requires var out := Soft(d, c, [], Identity(|d.boxes|));
      forall i :: i in out && i < |d.boxes| && i != j ==> Intersection(d.boxes[i], d.boxes[j]) == 0.0
    ensures var out := Soft(d, c, [], Identity(|d.boxes|));
      out != [] && (j in out <==> j == out[0] || d.scores[j] >= c.floor)
  {
    hide Soft, Intersection, ScoreAfter;
    SoftNmsGuarantee(d, c);
    FirstPickIsBest(d, c);
    UntouchedStays(d, c, Soft(d, c, [], Identity(|d.boxes|)), j);
  }

  lemma UntouchedStays(d: Detections, c: Settings, out: seq<nat>, j: nat)
    requires Valid(d) && Indices(d, out) && j < |d.boxes| && c.decay(0.0) == 1.0 && out != []
    requires forall i :: i in out && i < |d.boxes| && i != j ==> Intersection(d.boxes[i], d.boxes[j]) == 0.0
    requires j in out ==> exists k :: 0 <= k < |out| && out[k] == j && StaysAbove(d, c, out, 0, k, j)
    requires j !in out ==> FallsBelow(d, c, out, 0, j)
    ensures j in out <==> j == out[0] || d.scores[j] >= c.floor
  {
    hide Intersection, ScoreAfter;
    assert out[0] in out;
    if j in out && j != out[0] {
      var k :| 0 <= k < |out| && out[k] == j && StaysAbove(d, c, out, 0, k, j);
      assert ScoreAfter(d, c, out, k, j) >= c.floor;
      UntouchedScore(d, c, out, k, j);
    } else if j !in out {
      var m :| 0 < m <= |out| && ScoreAfter(d, c, out, m, j) < c.floor && StaysAbove(d, c, out, 0, m - 1, j);
      UntouchedScore(d, c, out, m, j);
    }
  }
}
