/** Embedding vectors over exact reals: dot product, sum, mean and the
    normalised average a gallery compares against.

    The Euclidean norm needs a square root. It enters as a parameter `root`, the
    library routine, of which only its defining law (`IsSqrt`) is used. */
module Vectors {
  import opened Reals

  type Vec = seq<real>

  /** Below this norm a mean is returned without being normalised. */
  const MIN_NORM := 0.000000000001

  ghost predicate IsSqrt(root: real -> real) {
    forall x :: 0.0 <= x ==> 0.0 <= root(x) && root(x) * root(x) == x
  }

  function Dot(a: Vec, b: Vec): real
    requires |a| == |b|
  {
    if a == [] then 0.0 else a[0] * b[0] + Dot(a[1..], b[1..])
  }

  function Add(a: Vec, b: Vec): (r: Vec)
    requires |a| == |b|
    ensures |r| == |a|
  {
    if a == [] then [] else [a[0] + b[0]] + Add(a[1..], b[1..])
  }

  function Scale(c: real, a: Vec): (r: Vec)
    ensures |r| == |a|
  {
    if a == [] then [] else [c * a[0]] + Scale(c, a[1..])
  }

  predicate SameLength(w: seq<Vec>, n: nat) {
    forall i :: 0 <= i < |w| ==> |w[i]| == n
  }

  /** Element-wise sum of a non-empty list of samples. */
  function Sum(w: seq<Vec>, n: nat): (r: Vec)
    requires w != [] && SameLength(w, n)
    ensures |r| == n
  {
    if |w| == 1 then w[0] else Add(Sum(w[..|w| - 1], n), w[|w| - 1])
  }

  function Norm(root: real -> real, v: Vec): real {
    root(Dot(v, v))
  }

  function L2Normalize(root: real -> real, v: Vec): (r: Vec)
    requires IsSqrt(root)
    ensures |r| == |v|
  {
    var n := Norm(root, v);
    if n < MIN_NORM then v else Scale(1.0 / n, v)
  }

  function Mean(w: seq<Vec>, n: nat): (r: Vec)
    requires w != [] && SameLength(w, n)
    ensures |r| == n
  {
    Scale(1.0 / |w| as real, Sum(w, n))
  }

  /** The averaged and normalised representative of a window of samples. */
  function AverageEmbeddings(root: real -> real, w: seq<Vec>, n: nat): (r: Vec)
    requires IsSqrt(root)
    requires SameLength(w, n)
    ensures |r| == if w == [] then 0 else n
  {
    if w == [] then [] else L2Normalize(root, Mean(w, n))
  }

  ghost predicate Unit(v: Vec) { Dot(v, v) == 1.0 }

  // ---------------------------------------------------------------- linearity

  lemma {:induction false} DotCommutes(a: Vec, b: Vec)
    requires |a| == |b|
    ensures Dot(a, b) == Dot(b, a)
  {
    if a != [] { DotCommutes(a[1..], b[1..]); }
  }

  lemma {:induction false} DotAdd(a: Vec, b: Vec, c: Vec)
    requires |a| == |b| == |c|
    ensures Dot(a, Add(b, c)) == Dot(a, b) + Dot(a, c)
  {
    if a != [] {
      DotAdd(a[1..], b[1..], c[1..]);
      assert Add(b, c)[1..] == Add(b[1..], c[1..]);
    }
  }

  lemma {:induction false} DotScale(a: Vec, k: real, b: Vec)
    requires |a| == |b|
    ensures Dot(a, Scale(k, b)) == k * Dot(a, b)
  {
    if a != [] {
      DotScale(a[1..], k, b[1..]);
      assert Scale(k, b)[1..] == Scale(k, b[1..]);
      assert a[0] * (k * b[0]) == k * (a[0] * b[0]);
    }
  }

  lemma {:induction false} DotSelfNonNegative(a: Vec)
    ensures 0.0 <= Dot(a, a)
  {
    if a != [] {
      DotSelfNonNegative(a[1..]);
      assert 0.0 <= a[0] * a[0];
    }
  }

  lemma {:induction false} ZeroNormIsOrthogonal(a: Vec, b: Vec)
    requires |a| == |b| && Dot(b, b) == 0.0
    ensures Dot(a, b) == 0.0
  {
    if a != [] {
      DotSelfNonNegative(b[1..]);
      NonNegativeSquare(b[0]);
      ZeroProduct(b[0], b[0]);
      ZeroNormIsOrthogonal(a[1..], b[1..]);
    }
  }

  lemma Expand(x: real, y: real, p: real, q: real, r: real, ca: real, cb: real, cc: real)
    requires ca == x * p + y * q && cb == x * q + y * r && cc == x * ca + y * cb
    ensures cc == x * x * p + 2.0 * x * y * q + y * y * r
  {
    assert x * ca == x * x * p + x * y * q;
    assert y * cb == x * y * q + y * y * r;
  }

  /** Square of a linear combination x*a + y*b. */
  lemma {:induction false} CombinationNorm(x: real, a: Vec, y: real, b: Vec)
    requires |a| == |b|
    ensures var c := Add(Scale(x, a), Scale(y, b));
            Dot(c, c) == x * x * Dot(a, a) + 2.0 * x * y * Dot(a, b) + y * y * Dot(b, b)
  {
    hide Dot, Add, Scale;
    var xa, yb := Scale(x, a), Scale(y, b);
    var c := Add(xa, yb);
    DotAdd(c, xa, yb);
    DotScale(c, x, a); DotScale(c, y, b);
    DotCommutes(c, a); DotCommutes(c, b);
    DotAdd(a, xa, yb); DotAdd(b, xa, yb);
    DotScale(a, x, a); DotScale(a, y, b);
    DotScale(b, x, a); DotScale(b, y, b);
    DotCommutes(a, b);
    Expand(x, y, Dot(a, a), Dot(a, b), Dot(b, b), Dot(a, c), Dot(b, c), Dot(c, c));
  }

  lemma Discriminant(A: real, B: real, d: real, c: real)
    requires 0.0 < B && 0.0 <= c
    requires c == B * B * A + 2.0 * B * (-d) * d + (-d) * (-d) * B
    ensures d * d <= A * B
  {
    assert c == B * (A * B - d * d);
    if A * B < d * d { PositiveProduct(B, d * d - A * B); }
  }

  /** Cauchy-Schwarz, without square roots. */
  lemma {:induction false} CauchySchwarz(a: Vec, b: Vec)
    requires |a| == |b|
    ensures Dot(a, b) * Dot(a, b) <= Dot(a, a) * Dot(b, b)
  {
    hide Dot, Add, Scale;
    var A, B, d := Dot(a, a), Dot(b, b), Dot(a, b);
    DotSelfNonNegative(b);
    if B == 0.0 {
      ZeroNormIsOrthogonal(a, b);
    } else {
      var c := Add(Scale(B, a), Scale(-d, b));
      DotSelfNonNegative(c);
      CombinationNorm(B, a, -d, b);
      Discriminant(A, B, d, Dot(c, c));
    }
  }

  // ------------------------------------------------------------ element by element

  /** The i-th elements of all samples, added up. */
  function Column(w: seq<Vec>, n: nat, i: nat): real
    requires SameLength(w, n) && i < n
  {
    if w == [] then 0.0 else Column(w[..|w| - 1], n, i) + w[|w| - 1][i]
  }

  lemma {:induction false} AddAt(a: Vec, b: Vec, i: nat)
    requires |a| == |b| && i < |a|
    ensures Add(a, b)[i] == a[i] + b[i]
  {
    if i > 0 { AddAt(a[1..], b[1..], i - 1); }
  }

  lemma {:induction false} ScaleAt(c: real, a: Vec, i: nat)
    requires i < |a|
    ensures Scale(c, a)[i] == c * a[i]
  {
    if i > 0 { ScaleAt(c, a[1..], i - 1); }
  }

  lemma {:induction false} SumAt(w: seq<Vec>, n: nat, i: nat)
    requires w != [] && SameLength(w, n) && i < n
    ensures Sum(w, n)[i] == Column(w, n, i)
  {
    if |w| == 1 {
      assert w[..0] == [];
    } else {
      SumAt(w[..|w| - 1], n, i);
      AddAt(Sum(w[..|w| - 1], n), w[|w| - 1], i);
    }
  }

  lemma MeanAt(w: seq<Vec>, n: nat, i: nat)
    requires w != [] && SameLength(w, n) && i < n
    ensures Mean(w, n)[i] == (1.0 / |w| as real) * Column(w, n, i)
  {
    hide Sum, Scale;
    SumAt(w, n, i);
    ScaleAt(1.0 / |w| as real, Sum(w, n), i);
  }

  /** Each element of an average is that of the samples, added up and divided by their
      number (`MeanAt`), and divided by the norm of the mean unless that is below 1e-12. */
  lemma AverageAt(root: real -> real, w: seq<Vec>, n: nat, i: nat)
    requires IsSqrt(root) && w != [] && SameLength(w, n) && i < n
    ensures var m := Mean(w, n);
      AverageEmbeddings(root, w, n)[i]
        == if Norm(root, m) < 0.000000000001 then m[i] else (1.0 / Norm(root, m)) * m[i]
  {
    hide Mean, Norm, Scale;
    var m := Mean(w, n);
    if Norm(root, m) >= MIN_NORM { ScaleAt(1.0 / Norm(root, m), m, i); }
  }

  lemma {:induction false} DotOfZeros(a: Vec, b: Vec)
    requires |a| == |b| && forall k :: 0 <= k < |b| ==> b[k] == 0.0
    ensures Dot(a, b) == 0.0
  {
    if a != [] { DotOfZeros(a[1..], b[1..]); }
  }

  /** What one element adds to a dot product; with none added it is zero. */
  lemma {:induction false} DotAt(a: Vec, b: Vec, i: nat, x: real)
    requires |a| == |b| && i < |a|
    ensures Dot(a, b[i := b[i] + x]) == Dot(a, b) + a[i] * x
  {
    var c := b[i := b[i] + x];
    if i == 0 {
      assert c[1..] == b[1..];
      assert a[0] * (b[0] + x) == a[0] * b[0] + a[0] * x;
    } else {
      assert c[1..] == b[1..][i - 1 := b[1..][i - 1] + x];
      DotAt(a[1..], b[1..], i - 1, x);
    }
  }

  // ------------------------------------------------------------ order of roots

  lemma RootOrder(root: real -> real, x: real, m: real)
    requires IsSqrt(root) && 0.0 <= x && 0.0 <= m
    ensures root(x) < m <==> x < m * m
    ensures m <= root(x) <==> m * m <= x
    ensures root(m * m) == m
  {
    NonNegativeSquare(m);
    SquareOrder(root(x), m);
    SquareOrder(root(m * m), m);
  }

  lemma ScaledRoot(root: real -> real, k: real, d: real, vu: real, uu: real)
    requires IsSqrt(root) && 0.0 <= k && 0.0 <= d && vu == k * d && uu == k * vu
    ensures uu == k * k * d && root(uu) == k * root(d)
  {
    var n := root(d);
    var m := k * n;
    if 0.0 < k && 0.0 < n { PositiveProduct(k, n); }
    assert uu == m * m by {
      assert m * m == k * k * (n * n);
    }
    RootOrder(root, 0.0, m);
  }

  lemma {:induction false} NormScale(root: real -> real, k: real, v: Vec)
    requires IsSqrt(root) && 0.0 <= k
    ensures Norm(root, Scale(k, v)) == k * Norm(root, v)
    ensures Dot(Scale(k, v), Scale(k, v)) == k * k * Dot(v, v)
  {
    var u := Scale(k, v);
    DotScale(u, k, v); DotCommutes(u, v); DotScale(v, k, v);
    DotSelfNonNegative(v);
    ScaledRoot(root, k, Dot(v, v), Dot(v, u), Dot(u, u));
  }

  // ------------------------------------------------------------- normalisation

  lemma {:induction false} ScaleByOne(v: Vec)
    ensures Scale(1.0, v) == v
  {
    if v != [] { ScaleByOne(v[1..]); }
  }

  lemma Reciprocal(n: real, d: real)
    requires 0.0 < n && n * n == d
    ensures (1.0 / n) * (1.0 / n) * d == 1.0
  {
    var k := 1.0 / n;
    assert k * n == 1.0;
    assert k * k * d == (k * n) * (k * n);
  }

  /** A vector that is not close to zero is made a unit vector, and normalising that one
      again changes nothing. */
  lemma NormalizedIsUnit(root: real -> real, v: Vec)
    requires IsSqrt(root) && MIN_NORM <= Norm(root, v)
    ensures Unit(L2Normalize(root, v))
    ensures L2Normalize(root, L2Normalize(root, v)) == L2Normalize(root, v)
  {
    var n := Norm(root, v);
    DotSelfNonNegative(v);
    NormScale(root, 1.0 / n, v);
    Reciprocal(n, Dot(v, v));
    var u := L2Normalize(root, v);
    RootOrder(root, 1.0, 1.0);
    assert Norm(root, u) == 1.0;
    ScaleByOne(u);
  }

  /** The cosine of a unit vector and one no longer than that lies in [-1, 1]. */
  lemma CosineInRange(a: Vec, b: Vec)
    requires |a| == |b| && Unit(a) && Dot(b, b) <= 1.0
    ensures -1.0 <= Dot(a, b) <= 1.0
  {
    CauchySchwarz(a, b);
    var d := Dot(a, b);
    if 1.0 < d { SquareIncreasing(1.0, d); }
    if d < -1.0 { SquareIncreasing(1.0, -d); }
  }
}
