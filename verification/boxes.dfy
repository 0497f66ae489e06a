/** Points and axis-aligned bounding boxes in the collection's X (east), Y (north), Z (up) frame,
    and the two reductions of downhole_collection.py: the box of a hole's trajectory points and
    the combination of many boxes into one. */
module Boxes {
  import opened Wrappers
  import opened Extrema

  datatype Point = Point(x: real, y: real, z: real)

  datatype Axis = X | Y | Z

  function Coord(p: Point, a: Axis): real {
    match a
    case X => p.x
    case Y => p.y
    case Z => p.z
  }

  function Add(p: Point, q: Point): Point {
    Point(p.x + q.x, p.y + q.y, p.z + q.z)
  }

  /** A bounding box as the six named bounds of the source's bbox dictionaries. */
  datatype Box = Box(xmin: real, xmax: real, ymin: real, ymax: real, zmin: real, zmax: real)

  function Lower(b: Box, a: Axis): real {
    match a
    case X => b.xmin
    case Y => b.ymin
    case Z => b.zmin
  }

  function Upper(b: Box, a: Axis): real {
    match a
    case X => b.xmax
    case Y => b.ymax
    case Z => b.zmax
  }

  /** The box as the list [xmin, xmax, ymin, ymax, zmin, zmax]. */
  function Bounds(b: Box): seq<real> {
    [b.xmin, b.xmax, b.ymin, b.ymax, b.zmin, b.zmax]
  }

  /** min <= max on every axis. */
  predicate Proper(b: Box) {
    b.xmin <= b.xmax && b.ymin <= b.ymax && b.zmin <= b.zmax
  }

  predicate Contains(b: Box, p: Point) {
    b.xmin <= p.x <= b.xmax && b.ymin <= p.y <= b.ymax && b.zmin <= p.z <= b.zmax
  }

  predicate Encloses(outer: Box, inner: Box) {
    && outer.xmin <= inner.xmin && inner.xmax <= outer.xmax
    && outer.ymin <= inner.ymin && inner.ymax <= outer.ymax
    && outer.zmin <= inner.zmin && inner.zmax <= outer.zmax
  }

  /** The degenerate box of a single point. */
  function PointBox(p: Point): Box {
    Box(p.x, p.x, p.y, p.y, p.z, p.z)
  }

  function Coords(ps: seq<Point>, a: Axis): (r: seq<real>)
    ensures |r| == |ps|
    ensures forall i :: 0 <= i < |ps| ==> r[i] == Coord(ps[i], a)
  {
    seq(|ps|, i requires 0 <= i < |ps| => Coord(ps[i], a))
  }

  function Lowers(right: seq<Box>, a: Axis): (r: seq<real>)
    ensures |r| == |right|
    ensures forall i :: 0 <= i < |right| ==> r[i] == Lower(right[i], a)
  {
    seq(|right|, i requires 0 <= i < |right| => Lower(right[i], a))
  }

  function Uppers(right: seq<Box>, a: Axis): (r: seq<real>)
    ensures |r| == |right|
    ensures forall i :: 0 <= i < |right| ==> r[i] == Upper(right[i], a)
  {
    seq(|right|, i requires 0 <= i < |right| => Upper(right[i], a))
  }

  /** Per-axis min/max of a non-empty point list (downhole_collection.py lines 195-202): the
      tightest box that contains every point — each bound is some point's coordinate. */
  function BoxOf(ps: seq<Point>): (b: Box)
    requires |ps| > 0
    ensures forall i :: 0 <= i < |ps| ==> Contains(b, ps[i])
    ensures Proper(b)
    ensures b.xmin in Coords(ps, X) && b.xmax in Coords(ps, X)
    ensures b.ymin in Coords(ps, Y) && b.ymax in Coords(ps, Y)
    ensures b.zmin in Coords(ps, Z) && b.zmax in Coords(ps, Z)
  {
    var xs, ys, zs := Coords(ps, X), Coords(ps, Y), Coords(ps, Z);
    var b := Box(Least(xs), Greatest(xs), Least(ys), Greatest(ys), Least(zs), Greatest(zs));
    assert Contains(b, ps[0]);
    b
  }

  /** The box of two points spans them on every axis. */
  lemma BoxOfPair(p: Point, q: Point)
    ensures BoxOf([p, q]) == Box(Min(p.x, q.x), Max(p.x, q.x), Min(p.y, q.y), Max(p.y, q.y), Min(p.z, q.z), Max(p.z, q.z))
  {
    var ps := [p, q];
    assert Coords(ps, X) == [p.x, q.x] && Coords(ps, Y) == [p.y, q.y] && Coords(ps, Z) == [p.z, q.z];
    assert Contains(BoxOf(ps), ps[0]) && Contains(BoxOf(ps), ps[1]);
  }

  /** `_combine_bounding_boxes`: an empty list raises ValueError; otherwise the elementwise min of
      the minima and max of the maxima — a box enclosing every input whose bounds are each some
      input's bound, and a proper box when every input is one. */
  function CombineBoundingBoxes(bboxes: seq<Box>): (r: Result<Box>)
    ensures r.Success? <==> |bboxes| > 0
    ensures r.Success? ==> forall i :: 0 <= i < |bboxes| ==> Encloses(r.value, bboxes[i])
    ensures r.Success? ==>
              && r.value.xmin in Lowers(bboxes, X) && r.value.xmax in Uppers(bboxes, X)
              && r.value.ymin in Lowers(bboxes, Y) && r.value.ymax in Uppers(bboxes, Y)
              && r.value.zmin in Lowers(bboxes, Z) && r.value.zmax in Uppers(bboxes, Z)
    ensures r.Success? && (forall i :: 0 <= i < |bboxes| ==> Proper(bboxes[i])) ==> Proper(r.value)
  {
    if |bboxes| == 0 then
      Failure("bboxes list is empty")
    else
      var b := Box(Least(Lowers(bboxes, X)), Greatest(Uppers(bboxes, X)),
                   Least(Lowers(bboxes, Y)), Greatest(Uppers(bboxes, Y)),
                   Least(Lowers(bboxes, Z)), Greatest(Uppers(bboxes, Z)));
      assert Encloses(b, bboxes[0]);
      Success(b)
  }

  /** The combined box depends only on which boxes are given, not on their order or repetition. */
  lemma CombineDependsOnlyOnElements(left: seq<Box>, right: seq<Box>)
    requires forall b :: b in left <==> b in right
    ensures CombineBoundingBoxes(left) == CombineBoundingBoxes(right)
  {
    if |right| > 0 { assert right[0] in left; }
    if |left| > 0 {
      assert left[0] in right;
      forall a: Axis
        ensures forall v :: v in Lowers(left, a) <==> v in Lowers(right, a)
        ensures forall v :: v in Uppers(left, a) <==> v in Uppers(right, a)
      {
        SameBoxesSameBounds(left, right, a);
        SameBoxesSameBounds(right, left, a);
      }
      LeastDependsOnlyOnElements(Lowers(left, X), Lowers(right, X));
      LeastDependsOnlyOnElements(Lowers(left, Y), Lowers(right, Y));
      LeastDependsOnlyOnElements(Lowers(left, Z), Lowers(right, Z));
      GreatestDependsOnlyOnElements(Uppers(left, X), Uppers(right, X));
      GreatestDependsOnlyOnElements(Uppers(left, Y), Uppers(right, Y));
      GreatestDependsOnlyOnElements(Uppers(left, Z), Uppers(right, Z));
    }
  }

  lemma SameBoxesSameBounds(left: seq<Box>, right: seq<Box>, a: Axis)
    requires forall b :: b in left ==> b in right
    ensures forall v :: v in Lowers(left, a) ==> v in Lowers(right, a)
    ensures forall v :: v in Uppers(left, a) ==> v in Uppers(right, a)
  {
    forall v | v in Lowers(left, a) ensures v in Lowers(right, a) {
      var i :| 0 <= i < |left| && Lowers(left, a)[i] == v;
      assert left[i] in left;
      var j :| 0 <= j < |right| && right[j] == left[i];
      assert Lowers(right, a)[j] == v;
    }
    forall v | v in Uppers(left, a) ensures v in Uppers(right, a) {
      var i :| 0 <= i < |left| && Uppers(left, a)[i] == v;
      assert left[i] in left;
      var j :| 0 <= j < |right| && right[j] == left[i];
      assert Uppers(right, a)[j] == v;
    }
  }

  /** Order independence: any permutation of the input gives the same combined box
      (for example combine([a, b, c]) == combine([c, a, b])). */
  lemma CombineIsOrderIndependent(left: seq<Box>, right: seq<Box>)
    requires multiset(left) == multiset(right)
    ensures CombineBoundingBoxes(left) == CombineBoundingBoxes(right)
  {
    forall b ensures b in left <==> b in right {
      assert b in left <==> b in multiset(left);
      assert b in right <==> b in multiset(right);
    }
    CombineDependsOnlyOnElements(left, right);
  }

  /** Each bound of a combined box is the min (or max) of that bound over the inputs. */
  lemma CombinedBounds(bboxes: seq<Box>, a: Axis)
    requires |bboxes| > 0
    ensures Lower(CombineBoundingBoxes(bboxes).value, a) == Least(Lowers(bboxes, a))
    ensures Upper(CombineBoundingBoxes(bboxes).value, a) == Greatest(Uppers(bboxes, a))
  {
  }

  lemma LowersConcat(left: seq<Box>, right: seq<Box>, a: Axis)
    ensures Lowers(left + right, a) == Lowers(left, a) + Lowers(right, a)
    ensures Uppers(left + right, a) == Uppers(left, a) + Uppers(right, a)
  {
  }

  lemma BoundsOfPair(l: Box, r: Box, a: Axis)
    ensures Least(Lowers([l, r], a)) == Min(Lower(l, a), Lower(r, a))
    ensures Greatest(Uppers([l, r], a)) == Max(Upper(l, a), Upper(r, a))
  {
    assert Lowers([l, r], a) == [Lower(l, a)] + [Lower(r, a)];
    LeastConcat([Lower(l, a)], [Lower(r, a)]);
    assert Uppers([l, r], a) == [Upper(l, a)] + [Upper(r, a)];
    GreatestConcat([Upper(l, a)], [Upper(r, a)]);
  }

  /** One axis of associativity. */
  lemma CombineConcatAxis(left: seq<Box>, right: seq<Box>, a: Axis)
    requires |left| > 0 && |right| > 0
    ensures
      var pair := [CombineBoundingBoxes(left).value, CombineBoundingBoxes(right).value];
      && Lower(CombineBoundingBoxes(left + right).value, a) == Lower(CombineBoundingBoxes(pair).value, a)
      && Upper(CombineBoundingBoxes(left + right).value, a) == Upper(CombineBoundingBoxes(pair).value, a)
  {
    var l, r := CombineBoundingBoxes(left).value, CombineBoundingBoxes(right).value;
    CombinedBounds(left + right, a);
    CombinedBounds(left, a);
    CombinedBounds(right, a);
    CombinedBounds([l, r], a);
    LowersConcat(left, right, a);
    LeastConcat(Lowers(left, a), Lowers(right, a));
    GreatestConcat(Uppers(left, a), Uppers(right, a));
    BoundsOfPair(l, r, a);
  }

  /** Associativity: combining a concatenation equals combining the two partial results. */
  lemma CombineIsAssociative(left: seq<Box>, right: seq<Box>)
    requires |left| > 0 && |right| > 0
    ensures CombineBoundingBoxes(left + right).Success?
    ensures CombineBoundingBoxes(left + right) ==
            CombineBoundingBoxes([CombineBoundingBoxes(left).value, CombineBoundingBoxes(right).value])
  {
    CombineConcatAxis(left, right, X);
    CombineConcatAxis(left, right, Y);
    CombineConcatAxis(left, right, Z);
  }
}
