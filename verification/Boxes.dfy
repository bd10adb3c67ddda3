/** The three intersection-over-union formulas of the repository: on boxes given by
    origin and size, on boxes given by corners, and the one inside `nms`, whose
    denominator carries a small constant. */
module Boxes {
  import opened Reals

  const EPSILON := 0.000000001

  datatype Corners = Corners(x1: real, y1: real, x2: real, y2: real)

  datatype BoundingBox = BoundingBox(left: real, top: real, width: real, height: real)

  function Max(a: real, b: real): real { if a < b then b else a }
  function Min(a: real, b: real): real { if b < a then b else a }

  function CornersOf(b: BoundingBox): Corners {
    Corners(b.left, b.top, b.left + b.width, b.top + b.height)
  }

  predicate Ordered(a: Corners) { a.x1 <= a.x2 && a.y1 <= a.y2 }

  function CornerArea(a: Corners): real { (a.x2 - a.x1) * (a.y2 - a.y1) }

  /** Clamped length of the intersection of two intervals. */
  function Overlap(a1: real, a2: real, b1: real, b2: real): real {
    Max(0.0, Min(a2, b2) - Max(a1, b1))
  }

  /** Clamped intersection area, as the origin-and-size form and `nms` compute it. */
  function Intersection(a: Corners, b: Corners): real {
    Overlap(a.x1, a.x2, b.x1, b.x2) * Overlap(a.y1, a.y2, b.y1, b.y2)
  }

  function Ratio(inter: real, union: real): real {
    if union > 0.0 then inter / union else 0.0
  }

  /** `BoundingBox.iou` of the domain entity. */
  function EntityIou(a: BoundingBox, b: BoundingBox): real {
    var x1, y1 := Max(a.left, b.left), Max(a.top, b.top);
    var x2, y2 := Min(a.left + a.width, b.left + b.width), Min(a.top + a.height, b.top + b.height);
    var inter := Max(0.0, x2 - x1) * Max(0.0, y2 - y1);
    var union := a.width * a.height + b.width * b.height - inter;
    Ratio(inter, union)
  }

  /** `bbox_iou`, with its early exit for boxes that do not meet. */
  function BboxIou(a: Corners, b: Corners): real {
    var x1, y1, x2, y2 := Max(a.x1, b.x1), Max(a.y1, b.y1), Min(a.x2, b.x2), Min(a.y2, b.y2);
    if x2 <= x1 || y2 <= y1 then 0.0 else
      var inter := (x2 - x1) * (y2 - y1);
      Ratio(inter, CornerArea(a) + CornerArea(b) - inter)
  }

  // ---------------------------------------------------------------- intersection

  lemma IntersectionBounds(a: Corners, b: Corners)
    requires Ordered(a) && Ordered(b)
    ensures 0.0 <= Intersection(a, b) <= CornerArea(a)
    ensures Intersection(a, b) <= CornerArea(b)
    ensures Intersection(a, b) == Intersection(b, a)
  {
    IntersectionFits(a, b);
    IntersectionFits(b, a);
    IntersectionSymmetric(a, b);
    hide Intersection, CornerArea;
  }

  lemma IntersectionFits(a: Corners, b: Corners)
    requires Ordered(a) && Ordered(b)
    ensures 0.0 <= Intersection(a, b) <= CornerArea(a)
  {
    OverlapBounds(a.x1, a.x2, b.x1, b.x2);
    OverlapBounds(a.y1, a.y2, b.y1, b.y2);
    hide Overlap;
    ProductOrder(Overlap(a.x1, a.x2, b.x1, b.x2), Overlap(a.y1, a.y2, b.y1, b.y2), a.x2 - a.x1, a.y2 - a.y1);
  }

  lemma IntersectionSymmetric(a: Corners, b: Corners)
    ensures Intersection(a, b) == Intersection(b, a)
  {
    OverlapSymmetric(a.x1, a.x2, b.x1, b.x2);
    OverlapSymmetric(a.y1, a.y2, b.y1, b.y2);
    hide Overlap;
  }

  lemma OverlapSymmetric(a1: real, a2: real, b1: real, b2: real)
    ensures Overlap(a1, a2, b1, b2) == Overlap(b1, b2, a1, a2)
  {
  }

  lemma OverlapBounds(a1: real, a2: real, b1: real, b2: real)
    requires a1 <= a2 && b1 <= b2
    ensures 0.0 <= Overlap(a1, a2, b1, b2) <= a2 - a1 && Overlap(a1, a2, b1, b2) <= b2 - b1
  {
  }

  /** A point strictly inside a box. */
  predicate Inside(x: real, y: real, a: Corners) { a.x1 < x < a.x2 && a.y1 < y < a.y2 }

  lemma CommonPoint(a1: real, a2: real, b1: real, b2: real)
    requires a1 <= a2 && b1 <= b2
    ensures Overlap(a1, a2, b1, b2) > 0.0 <==> exists x: real :: Between(x, a1, a2, b1, b2)
  {
    if Overlap(a1, a2, b1, b2) > 0.0 {
      assert Between((Max(a1, b1) + Min(a2, b2)) / 2.0, a1, a2, b1, b2);
    }
  }

  predicate Between(x: real, a1: real, a2: real, b1: real, b2: real) { a1 < x < a2 && b1 < x < b2 }

  /** Two boxes intersect exactly if some point lies inside both. */
  lemma IntersectsExactly(a: Corners, b: Corners)
    requires Ordered(a) && Ordered(b)
    ensures Intersection(a, b) > 0.0 <==> exists x, y :: Inside(x, y, a) && Inside(x, y, b)
  {
    forall x, y | Inside(x, y, a) && Inside(x, y, b) ensures Intersection(a, b) > 0.0 {
      InsideBoth(x, y, a, b);
    }
    if Intersection(a, b) > 0.0 {
      var w, h := Overlap(a.x1, a.x2, b.x1, b.x2), Overlap(a.y1, a.y2, b.y1, b.y2);
      if w == 0.0 || h == 0.0 { EmptyProduct(w, h); }
      CommonPoint(a.x1, a.x2, b.x1, b.x2);
      CommonPoint(a.y1, a.y2, b.y1, b.y2);
      var x :| Between(x, a.x1, a.x2, b.x1, b.x2);
      var y :| Between(y, a.y1, a.y2, b.y1, b.y2);
      assert Inside(x, y, a) && Inside(x, y, b);
    }
  }

  lemma InsideBoth(x: real, y: real, a: Corners, b: Corners)
    requires Inside(x, y, a) && Inside(x, y, b)
    ensures Intersection(a, b) > 0.0
  {
    PositiveProduct(Overlap(a.x1, a.x2, b.x1, b.x2), Overlap(a.y1, a.y2, b.y1, b.y2));
  }

  /** A box inside another one is their whole intersection. */
  lemma ContainedIsIntersection(a: Corners, b: Corners)
    requires Ordered(a) && b.x1 <= a.x1 && a.x2 <= b.x2 && b.y1 <= a.y1 && a.y2 <= b.y2
    ensures Intersection(a, b) == (a.x2 - a.x1) * (a.y2 - a.y1)
  {
    assert Overlap(a.x1, a.x2, b.x1, b.x2) == a.x2 - a.x1;
    assert Overlap(a.y1, a.y2, b.y1, b.y2) == a.y2 - a.y1;
  }

  // ------------------------------------------------------- the two exact forms agree

  lemma {:induction false} EmptyProduct(x: real, y: real)
    requires x == 0.0 || y == 0.0
    ensures x * y == 0.0
  {
  }

  lemma AreaFromCorners(b: BoundingBox)
    ensures CornerArea(CornersOf(b)) == b.width * b.height
  {
    var c := CornersOf(b);
    assert c.x2 - c.x1 == b.width && c.y2 - c.y1 == b.height;
  }

  /** With no early exit, the corner formula is the ratio of the clamped intersection. */
  lemma BboxIouIsClamped(a: Corners, b: Corners)
    ensures BboxIou(a, b) == Ratio(Intersection(a, b), CornerArea(a) + CornerArea(b) - Intersection(a, b))
  {
    hide CornerArea;
    var w, h := Min(a.x2, b.x2) - Max(a.x1, b.x1), Min(a.y2, b.y2) - Max(a.y1, b.y1);
    hide Min, Max;
    assert Intersection(a, b) == Max(0.0, w) * Max(0.0, h);
    ClampedProduct(w, h);
    hide Intersection, Overlap;
    ZeroRatio(CornerArea(a) + CornerArea(b));
  }

  lemma ZeroRatio(u: real)
    ensures Ratio(0.0, u) == 0.0
  {
  }

  lemma ClampedProduct(w: real, h: real)
    ensures Max(0.0, w) * Max(0.0, h) == if w <= 0.0 || h <= 0.0 then 0.0 else w * h
  {
    if w <= 0.0 || h <= 0.0 { EmptyProduct(Max(0.0, w), Max(0.0, h)); }
  }

  /** The entity's formula is the corner formula on its corners, for every pair of
      boxes, degenerate and inverted ones included. */
  lemma ExactFormsAgree(a: BoundingBox, b: BoundingBox)
    ensures EntityIou(a, b) == BboxIou(CornersOf(a), CornersOf(b))
  {
    AreaFromCorners(a);
    AreaFromCorners(b);
    EntityIouIsClamped(a, b);
    BboxIouIsClamped(CornersOf(a), CornersOf(b));
    hide CornerArea, Intersection, EntityIou, BboxIou;
  }

  lemma EntityIouIsClamped(a: BoundingBox, b: BoundingBox)
    ensures var i := Intersection(CornersOf(a), CornersOf(b));
            EntityIou(a, b) == Ratio(i, a.width * a.height + b.width * b.height - i)
  {
    hide Min, Max;
  }

  lemma BboxIouIsRatio(a: Corners, b: Corners)
    requires Ordered(a) && Ordered(b)
    ensures var i := Intersection(a, b); var u := CornerArea(a) + CornerArea(b) - i;
            0.0 <= u && BboxIou(a, b) == if 0.0 < u then i / u else 0.0
  {
    IntersectionBounds(a, b);
    BboxIouIsClamped(a, b);
    hide CornerArea, Intersection, BboxIou;
  }

  lemma IouSymmetric(a: Corners, b: Corners)
    ensures BboxIou(a, b) == BboxIou(b, a)
  {
    BboxIouIsClamped(a, b);
    BboxIouIsClamped(b, a);
    IntersectionSymmetric(a, b);
    hide CornerArea, BboxIou, Intersection, Ratio;
  }

  lemma IouInUnitInterval(a: Corners, b: Corners)
    requires Ordered(a) && Ordered(b)
    ensures 0.0 <= BboxIou(a, b) <= 1.0
  {
    IntersectionBounds(a, b);
    BboxIouIsRatio(a, b);
    hide Intersection, CornerArea, BboxIou;
    var i := Intersection(a, b);
    var u := CornerArea(a) + CornerArea(b) - i;
    if 0.0 < u {
      QuotientOrder(i, u, 1.0);
      QuotientOrder(i, u, 0.0);
    }
  }

  /** Two factors, one no larger than the other's, with equal positive products. */
  lemma EqualProducts(w: real, h: real, W: real, H: real)
    requires 0.0 <= w <= W && 0.0 <= h <= H && 0.0 < W && 0.0 < H && w * h == W * H
    ensures w == W && h == H
  {
    if w < W {
      MonotoneFactor(w, h, H);
      Strict(H, w, W);
    } else if h < H {
      Strict(W, h, H);
    }
  }

  lemma PositiveArea(a: Corners)
    requires a.x1 < a.x2 && a.y1 < a.y2
    ensures 0.0 < CornerArea(a)
  {
    PositiveProduct(a.x2 - a.x1, a.y2 - a.y1);
  }

  /** Among boxes of positive size, the ratio is 1 exactly for a box and itself. */
  lemma IouOneIsEquality(a: Corners, b: Corners)
    requires a.x1 < a.x2 && a.y1 < a.y2 && b.x1 < b.x2 && b.y1 < b.y2
    ensures BboxIou(a, b) == 1.0 <==> a == b
  {
    IntersectionBounds(a, b);
    BboxIouIsRatio(a, b);
    var i := Intersection(a, b);
    var A, B := CornerArea(a), CornerArea(b);
    var u := A + B - i;
    PositiveArea(a);
    QuotientOrder(i, u, 1.0);
    if a == b { assert i == A; }
    if BboxIou(a, b) == 1.0 {
      FullIntersection(a, b);
    }
  }

  lemma FullIntersection(a: Corners, b: Corners)
    requires a.x1 < a.x2 && a.y1 < a.y2 && b.x1 < b.x2 && b.y1 < b.y2
    requires Intersection(a, b) == CornerArea(a) == CornerArea(b)
    ensures a == b
  {
    var w, h := Overlap(a.x1, a.x2, b.x1, b.x2), Overlap(a.y1, a.y2, b.y1, b.y2);
    OverlapBounds(a.x1, a.x2, b.x1, b.x2);
    OverlapBounds(a.y1, a.y2, b.y1, b.y2);
    EqualProducts(w, h, a.x2 - a.x1, a.y2 - a.y1);
    EqualProducts(w, h, b.x2 - b.x1, b.y2 - b.y1);
  }

  // --------------------------------------------------------- the form used by nms

  /** Overlap ratio as `nms` and `soft_nms` compute it. */
  function NmsIou(a: Corners, b: Corners): real
    requires Ordered(a) && Ordered(b)
  {
    IntersectionBounds(a, b);
    var inter := Intersection(a, b);
    inter / (CornerArea(a) + CornerArea(b) - inter + EPSILON)
  }

  lemma NmsIouSymmetric(a: Corners, b: Corners)
    requires Ordered(a) && Ordered(b)
    ensures NmsIou(a, b) == NmsIou(b, a)
  {
    IntersectionBounds(a, b);
  }

  /** The intersection exceeds the threshold's share of the union, but not by more than
      the threshold's share of the constant. */
  predicate BarelyAbove(inter: real, union: real, t: real) {
    t * union < inter <= t * union + t * EPSILON
  }

  /** The constant only ever shrinks the ratio: what `nms` suppresses against a
      non-negative threshold overlaps above it exactly, too; it spares a pair the exact
      ratio would suppress precisely when their intersection is barely above. */
  lemma SuppressionIsExact(a: Corners, b: Corners, t: real)
    requires Ordered(a) && Ordered(b) && 0.0 <= t
    ensures NmsIou(a, b) > t ==> BboxIou(a, b) > t
    ensures var i := Intersection(a, b); var u := CornerArea(a) + CornerArea(b) - i;
            BboxIou(a, b) > t >= NmsIou(a, b) <==> BarelyAbove(i, u, t)
    ensures NmsIou(a, b) <= BboxIou(a, b)
    ensures 0.0 <= NmsIou(a, b) < 1.0
  {
    IntersectionBounds(a, b);
    BboxIouIsRatio(a, b);
    hide Intersection, CornerArea, BboxIou, BarelyAbove;
    ShrunkRatio(Intersection(a, b), CornerArea(a) + CornerArea(b) - Intersection(a, b), t);
  }

  lemma ShrunkRatio(i: real, u: real, t: real)
    requires 0.0 <= i <= u && 0.0 <= t
    ensures var q, s := (if 0.0 < u then i / u else 0.0), i / (u + EPSILON);
            (s > t ==> q > t) && s <= q && 0.0 <= s < 1.0 && (q > t >= s <==> BarelyAbove(i, u, t))
  {
    QuotientOrder(i, u + EPSILON, 0.0);
    QuotientOrder(i, u + EPSILON, 1.0);
    QuotientOrder(i, u + EPSILON, t);
    assert t * (u + EPSILON) == t * u + t * EPSILON;
    if 0.0 < u {
      var q := i / u;
      QuotientOrder(i, u, 0.0);
      QuotientOrder(i, u, q);
      QuotientOrder(i, u, t);
      assert q * (u + EPSILON) == q * u + q * EPSILON;
      QuotientOrder(i, u + EPSILON, q);
    }
  }
}
