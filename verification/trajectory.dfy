/** The per-hole trajectory of `_compute_hole_bounding_box` (downhole_collection.py lines
    129-202): keep the complete survey rows, sort them by depth, integrate straight segments from
    the collar, and reduce the stations to a box. */
module Trajectory {
  import opened Wrappers
  import opened Extrema
  import opened Boxes

  /** Sine and cosine of an angle given in degrees (numpy's sin and cos after deg2rad). Their
      values are not modelled: every property below holds for any pair of functions, and the
      ones that need particular values say so in their preconditions. */
  datatype Trig = Trig(sinDeg: real -> real, cosDeg: real -> real)

  /** One row of the (depth, dip, azimuth) frame; any cell may be missing. */
  datatype Sample = Sample(depth: Option<real>, dip: Option<real>, azimuth: Option<real>)

  /** A survey station: a row whose three cells are all present. */
  datatype Station = Station(depth: real, dip: real, azimuth: real)

  /** The i-th cell of a column; a column shorter than the frame reads as missing. */
  function At(column: seq<Option<real>>, i: nat): Option<real> {
    if i < |column| then column[i] else None
  }

  function Max3(a: nat, b: nat, c: nat): nat {
    if a >= b && a >= c then a else if b >= c then b else c
  }

  /** The frame built from the three columns: row i holds the i-th cell of each. */
  function Frame(depths: seq<Option<real>>, dips: seq<Option<real>>, azimuths: seq<Option<real>>): (r: seq<Sample>)
    ensures |r| == Max3(|depths|, |dips|, |azimuths|)
    ensures forall i :: 0 <= i < |r| ==> r[i] == Sample(At(depths, i), At(dips, i), At(azimuths, i))
  {
    var n := Max3(|depths|, |dips|, |azimuths|);
    seq(n, i requires 0 <= i < n => Sample(At(depths, i), At(dips, i), At(azimuths, i)))
  }

  predicate Complete(s: Sample) {
    s.depth.Some? && s.dip.Some? && s.azimuth.Some?
  }

  function ToStation(s: Sample): Station
    requires Complete(s)
  {
    Station(s.depth.value, s.dip.value, s.azimuth.value)
  }

  /** The sample a station was read from. */
  function FromStation(st: Station): Sample {
    Sample(Some(st.depth), Some(st.dip), Some(st.azimuth))
  }

  /** `dropna(subset=["depth", "dip", "azimuth"])`: the complete rows, in frame order. */
  function DropIncomplete(samples: seq<Sample>): (r: seq<Station>)
    ensures |r| <= |samples|
  {
    if samples == [] then []
    else
      var last := samples[|samples| - 1];
      DropIncomplete(samples[..|samples| - 1]) + (if Complete(last) then [ToStation(last)] else [])
  }

  /** Dropping distributes over concatenation, so the kept rows stay in frame order. */
  lemma {:induction false} DropIncompleteConcat(a: seq<Sample>, b: seq<Sample>)
    ensures DropIncomplete(a + b) == DropIncomplete(a) + DropIncomplete(b)
  {
    if b == [] {
      assert a + b == a;
    } else {
      var init := b[..|b| - 1];
      assert (a + b)[..|a + b| - 1] == a + init;
      assert (a + b)[|a + b| - 1] == b[|b| - 1];
      DropIncompleteConcat(a, init);
    }
  }

  /** A row with a missing cell is dropped alone: the rows around it are all kept. */
  lemma MissingValueDropsOnlyItsRow(before: seq<Sample>, s: Sample, after: seq<Sample>)
    requires !Complete(s)
    ensures DropIncomplete(before + [s] + after) == DropIncomplete(before) + DropIncomplete(after)
  {
    var upTo := before + [s];
    assert DropIncomplete([s]) == [] by {
      assert [s][..0] == [];
    }
    DropIncompleteConcat(before, [s]);
    assert DropIncomplete(upTo) == DropIncomplete(before);
    DropIncompleteConcat(upTo, after);
  }

  /** Rows that are all incomplete leave no station. */
  lemma {:induction false} DropIncompleteOfIncomplete(samples: seq<Sample>)
    requires forall i :: 0 <= i < |samples| ==> !Complete(samples[i])
    ensures DropIncomplete(samples) == []
  {
    if samples != [] {
      DropIncompleteOfIncomplete(samples[..|samples| - 1]);
    }
  }

  /** A station is kept exactly when a complete row carries its three values. */
  lemma {:induction false} DropIncompleteMembers(samples: seq<Sample>, st: Station)
    ensures st in DropIncomplete(samples) <==> FromStation(st) in samples
  {
    if samples != [] {
      var init, last := samples[..|samples| - 1], samples[|samples| - 1];
      assert samples == init + [last];
      DropIncompleteMembers(init, st);
      if Complete(last) {
        assert ToStation(last) == st <==> last == FromStation(st);
      }
    }
  }

  predicate SortedByDepth(ss: seq<Station>) {
    forall i, j :: 0 <= i < j < |ss| ==> ss[i].depth <= ss[j].depth
  }

  /** Insert a station after every station of smaller or equal depth. */
  function InsertByDepth(st: Station, sorted: seq<Station>): (r: seq<Station>)
    requires SortedByDepth(sorted)
    ensures SortedByDepth(r)
    ensures multiset(r) == multiset(sorted) + multiset{st}
  {
    if sorted == [] then [st]
    else if st.depth < sorted[0].depth then
      ConsSorted(st, sorted);
      [st] + sorted
    else
      var rest := InsertByDepth(st, sorted[1..]);
      assert sorted == [sorted[0]] + sorted[1..];
      DepthsAtLeast(sorted[0].depth, rest, sorted[1..], st);
      ConsSorted(sorted[0], rest);
      [sorted[0]] + rest
  }

  /** A station no deeper than every station of a sorted sequence can go in front of it. */
  lemma ConsSorted(st: Station, ss: seq<Station>)
    requires SortedByDepth(ss)
    requires forall k :: 0 <= k < |ss| ==> st.depth <= ss[k].depth
    ensures SortedByDepth([st] + ss)
  {
    var r := [st] + ss;
    forall i, j | 0 <= i < j < |r|
      ensures r[i].depth <= r[j].depth
    {
      assert r[j] == ss[j - 1];
      if i > 0 {
        assert r[i] == ss[i - 1];
      }
    }
  }

  /** Every station of a sequence holding the stations of `s` plus `st` is at least as deep
      as `lo` when `st` and every station of `s` are. */
  lemma DepthsAtLeast(lo: real, r: seq<Station>, s: seq<Station>, st: Station)
    requires multiset(r) == multiset(s) + multiset{st}
    requires lo <= st.depth && forall k :: 0 <= k < |s| ==> lo <= s[k].depth
    ensures forall k :: 0 <= k < |r| ==> lo <= r[k].depth
  {
    forall k | 0 <= k < |r|
      ensures lo <= r[k].depth
    {
      assert r[k] in multiset(r);
      if r[k] != st {
        assert r[k] in multiset(s);
        var j :| 0 <= j < |s| && s[j] == r[k];
      }
    }
  }

  /** `sort_values("depth")`: a permutation of the stations, ascending by depth. */
  function SortByDepth(ss: seq<Station>): (r: seq<Station>)
    ensures SortedByDepth(r)
    ensures multiset(r) == multiset(ss)
  {
    if ss == [] then []
    else
      assert ss == ss[..|ss| - 1] + [ss[|ss| - 1]];
      InsertByDepth(ss[|ss| - 1], SortByDepth(ss[..|ss| - 1]))
  }

  /** The stations the trajectory is integrated over (lines 151-164). */
  function SurveyStations(depths: seq<Option<real>>, dips: seq<Option<real>>, azimuths: seq<Option<real>>): (r: seq<Station>)
    ensures SortedByDepth(r)
    ensures |r| <= Max3(|depths|, |dips|, |azimuths|)
  {
    var kept := DropIncomplete(Frame(depths, dips, azimuths));
    assert |multiset(SortByDepth(kept))| == |multiset(kept)|;
    SortByDepth(kept)
  }

  /** The stations used are exactly those of the rows whose depth, dip and azimuth are all
      present, each as many times as it occurs, ordered ascending by depth. */
  lemma SurveyStationsSpec(depths: seq<Option<real>>, dips: seq<Option<real>>, azimuths: seq<Option<real>>)
    ensures SortedByDepth(SurveyStations(depths, dips, azimuths))
    ensures multiset(SurveyStations(depths, dips, azimuths)) == multiset(DropIncomplete(Frame(depths, dips, azimuths)))
    ensures forall st :: st in SurveyStations(depths, dips, azimuths) <==>
              exists i: nat :: At(depths, i) == Some(st.depth) && At(dips, i) == Some(st.dip) && At(azimuths, i) == Some(st.azimuth)
  {
    var frame := Frame(depths, dips, azimuths);
    var ss := SurveyStations(depths, dips, azimuths);
    forall st
      ensures st in ss <==>
              exists i: nat :: At(depths, i) == Some(st.depth) && At(dips, i) == Some(st.dip) && At(azimuths, i) == Some(st.azimuth)
    {
      assert st in ss <==> st in multiset(ss);
      assert st in DropIncomplete(frame) <==> st in multiset(DropIncomplete(frame));
      DropIncompleteMembers(frame, st);
      StationInFrame(depths, dips, azimuths, st);
    }
  }

  /** A complete row of the frame is a row index holding all three values. */
  lemma StationInFrame(depths: seq<Option<real>>, dips: seq<Option<real>>, azimuths: seq<Option<real>>, st: Station)
    ensures FromStation(st) in Frame(depths, dips, azimuths) <==>
              exists i: nat :: At(depths, i) == Some(st.depth) && At(dips, i) == Some(st.dip) && At(azimuths, i) == Some(st.azimuth)
  {
    var frame := Frame(depths, dips, azimuths);
    if FromStation(st) in frame {
      var i :| 0 <= i < |frame| && frame[i] == FromStation(st);
      assert At(depths, i) == Some(st.depth) && At(dips, i) == Some(st.dip) && At(azimuths, i) == Some(st.azimuth);
    }
    if exists i: nat :: At(depths, i) == Some(st.depth) && At(dips, i) == Some(st.dip) && At(azimuths, i) == Some(st.azimuth) {
      var i: nat :| At(depths, i) == Some(st.depth) && At(dips, i) == Some(st.dip) && At(azimuths, i) == Some(st.azimuth);
      assert i < |depths|;
      assert frame[i] == FromStation(st);
    }
  }

  function Depths(ss: seq<Station>): (r: seq<real>)
    ensures |r| == |ss| && forall i :: 0 <= i < |ss| ==> r[i] == ss[i].depth
  {
    seq(|ss|, i requires 0 <= i < |ss| => ss[i].depth)
  }

  /** `np.diff(depths, prepend=0.0)`: segment lengths, the first measured from the collar at depth 0. */
  function Steps(depths: seq<real>): (r: seq<real>)
    ensures |r| == |depths|
  {
    seq(|depths|, i requires 0 <= i < |depths| => depths[i] - (if i == 0 then 0.0 else depths[i - 1]))
  }

  function Sum(xs: seq<real>): real {
    if xs == [] then 0.0 else Sum(xs[..|xs| - 1]) + xs[|xs| - 1]
  }

  /** The steps telescope: the first k+1 steps add up to the k-th depth, so the collar is the
      implicit station at depth 0. */
  lemma {:induction false} StepsTelescope(depths: seq<real>, k: nat)
    requires k < |depths|
    ensures Sum(Steps(depths)[..k + 1]) == depths[k]
  {
    var steps := Steps(depths);
    assert steps[..k + 1][..k] == steps[..k];
    if k > 0 {
      StepsTelescope(depths, k - 1);
    } else {
      assert steps[..0] == [];
    }
  }

  /** The X/Y/Z increment of one segment: the step splits into a horizontal part
      `step * sin(dip)` and a downward part `step * cos(dip)`; the horizontal part splits into
      north `* cos(azimuth)` (Y) and east `* sin(azimuth)` (X); Z points up. */
  function Increment(step: real, st: Station, trig: Trig): (r: Point)
    ensures step == 0.0 ==> r == Point(0.0, 0.0, 0.0)
    ensures trig.sinDeg(st.dip) == 0.0 ==> r.x == 0.0 && r.y == 0.0
    ensures trig.cosDeg(st.dip) == 0.0 ==> r.z == 0.0
  {
    var horiz := step * trig.sinDeg(st.dip);
    var down := step * trig.cosDeg(st.dip);
    Point(horiz * trig.sinDeg(st.azimuth), horiz * trig.cosDeg(st.azimuth), -down)
  }

  function Increments(ss: seq<Station>, trig: Trig): (r: seq<Point>)
    ensures |r| == |ss|
  {
    var step := Steps(Depths(ss));
    seq(|ss|, i requires 0 <= i < |ss| => Increment(step[i], ss[i], trig))
  }

  function PointSum(ps: seq<Point>): Point {
    if ps == [] then Point(0.0, 0.0, 0.0) else Add(PointSum(ps[..|ps| - 1]), ps[|ps| - 1])
  }

  /** `np.cumsum` on each axis. */
  function CumSum(ps: seq<Point>): (r: seq<Point>)
    ensures |r| == |ps|
  {
    seq(|ps|, i requires 0 <= i < |ps| => PointSum(ps[..i + 1]))
  }

  /** The collar followed by the collar plus each cumulative increment (lines 185-193). */
  function TrajectoryPoints(collar: Point, ss: seq<Station>, trig: Trig): (r: seq<Point>)
    ensures |r| == |ss| + 1 && r[0] == collar
  {
    var cum := CumSum(Increments(ss, trig));
    [collar] + seq(|cum|, i requires 0 <= i < |cum| => Add(collar, cum[i]))
  }

  /** `_compute_hole_bounding_box`: the box of the hole's trajectory. It always contains the
      collar and has min <= max on every axis, whatever the survey rows hold. */
  function HoleBoundingBox(collar: Point, depths: seq<Option<real>>, dips: seq<Option<real>>,
                           azimuths: seq<Option<real>>, trig: Trig): (b: Box)
    ensures Contains(b, collar)
    ensures Proper(b)
  {
    BoxOf(TrajectoryPoints(collar, SurveyStations(depths, dips, azimuths), trig))
  }

  /** The box contains every point of the trajectory and each of its bounds is reached by one. */
  lemma HoleBoxIsTightAroundTrajectory(collar: Point, depths: seq<Option<real>>, dips: seq<Option<real>>,
                                       azimuths: seq<Option<real>>, trig: Trig)
    ensures var ps := TrajectoryPoints(collar, SurveyStations(depths, dips, azimuths), trig);
            var b := HoleBoundingBox(collar, depths, dips, azimuths, trig);
            && (forall k :: 0 <= k < |ps| ==> Contains(b, ps[k]))
            && b.xmin in Coords(ps, X) && b.xmax in Coords(ps, X)
            && b.ymin in Coords(ps, Y) && b.ymax in Coords(ps, Y)
            && b.zmin in Coords(ps, Z) && b.zmax in Coords(ps, Z)
  {
  }

  /** A hole with no complete survey row still gets a box: the degenerate box of its collar. */
  lemma HoleWithoutSurveyHasCollarBox(collar: Point, depths: seq<Option<real>>, dips: seq<Option<real>>,
                                      azimuths: seq<Option<real>>, trig: Trig)
    requires forall i: nat :: !(At(depths, i).Some? && At(dips, i).Some? && At(azimuths, i).Some?)
    ensures HoleBoundingBox(collar, depths, dips, azimuths, trig) == PointBox(collar)
  {
    var frame := Frame(depths, dips, azimuths);
    assert forall i :: 0 <= i < |frame| ==> !Complete(frame[i]) by {
      forall i | 0 <= i < |frame| ensures !Complete(frame[i]) {
        assert frame[i] == Sample(At(depths, i), At(dips, i), At(azimuths, i));
      }
    }
    DropIncompleteOfIncomplete(frame);
    var ps := TrajectoryPoints(collar, SurveyStations(depths, dips, azimuths), trig);
    assert ps == [collar];
  }

  /** sin 0 = 0 and cos 0 = 1. */
  predicate ZeroAngleFacts(trig: Trig) {
    trig.sinDeg(0.0) == 0.0 && trig.cosDeg(0.0) == 1.0
  }

  /** A segment with dip 0 goes straight down by its step. */
  lemma VerticalIncrement(step: real, st: Station, trig: Trig)
    requires ZeroAngleFacts(trig) && st.dip == 0.0
    ensures Increment(step, st, trig) == Point(0.0, 0.0, -step)
  {
    var horiz := step * trig.sinDeg(st.dip);
    assert horiz == 0.0;
    assert horiz * trig.sinDeg(st.azimuth) == 0.0 && horiz * trig.cosDeg(st.azimuth) == 0.0;
  }

  /** Partial sums of increments that only go down: X and Y stay 0 and Z is minus the partial
      sum of the steps. */
  lemma {:induction false} PlumbPartialSum(incs: seq<Point>, steps: seq<real>, k: nat)
    requires |incs| == |steps| && k <= |incs|
    requires forall i :: 0 <= i < |incs| ==> incs[i] == Point(0.0, 0.0, -steps[i])
    ensures PointSum(incs[..k]) == Point(0.0, 0.0, -Sum(steps[..k]))
  {
    if k > 0 {
      PlumbPartialSum(incs, steps, k - 1);
      var prefix, stepPrefix := incs[..k], steps[..k];
      assert prefix[..k - 1] == incs[..k - 1];
      assert stepPrefix[..k - 1] == steps[..k - 1];
      assert PointSum(prefix) == Add(PointSum(incs[..k - 1]), incs[k - 1]);
      assert Sum(stepPrefix) == Sum(steps[..k - 1]) + steps[k - 1];
    } else {
      assert incs[..0] == [] && steps[..0] == [];
    }
  }

  /** With every dip 0 the increments are straight down: their partial sums move only Z, by
      minus the partial sums of the steps. */
  lemma VerticalPartialSum(ss: seq<Station>, trig: Trig, k: nat)
    requires ZeroAngleFacts(trig)
    requires forall i :: 0 <= i < |ss| ==> ss[i].dip == 0.0
    requires k <= |ss|
    ensures PointSum(Increments(ss, trig)[..k]) == Point(0.0, 0.0, -Sum(Steps(Depths(ss))[..k]))
  {
    var incs, steps := Increments(ss, trig), Steps(Depths(ss));
    forall i | 0 <= i < |incs|
      ensures incs[i] == Point(0.0, 0.0, -steps[i])
    {
      VerticalIncrement(steps[i], ss[i], trig);
    }
    PlumbPartialSum(incs, steps, k);
  }

  /** A vertical hole (every dip 0) never leaves the collar's X and Y, and station k sits at
      `collar.z - depth[k]`. */
  lemma VerticalTrajectory(collar: Point, ss: seq<Station>, trig: Trig)
    requires ZeroAngleFacts(trig)
    requires forall i :: 0 <= i < |ss| ==> ss[i].dip == 0.0
    ensures forall k :: 0 <= k < |ss| ==>
              TrajectoryPoints(collar, ss, trig)[k + 1] == Point(collar.x, collar.y, collar.z - ss[k].depth)
  {
    var ps := TrajectoryPoints(collar, ss, trig);
    var cum := CumSum(Increments(ss, trig));
    forall k | 0 <= k < |ss|
      ensures ps[k + 1] == Point(collar.x, collar.y, collar.z - ss[k].depth)
    {
      assert ps[k + 1] == Add(collar, cum[k]);
      VerticalPartialSum(ss, trig, k + 1);
      StepsTelescope(Depths(ss), k);
    }
  }

  /** The box of points on the vertical line through `top`, from `top` down to elevation `bottom`,
      when some point reaches `bottom`. */
  lemma BoxOfPlumbLine(ps: seq<Point>, top: Point, bottom: real)
    requires |ps| > 0 && ps[0] == top
    requires forall j :: 0 <= j < |ps| ==> ps[j].x == top.x && ps[j].y == top.y && bottom <= ps[j].z <= top.z
    requires exists j :: 0 <= j < |ps| && ps[j].z == bottom
    ensures BoxOf(ps) == Box(top.x, top.x, top.y, top.y, bottom, top.z)
  {
    var b := BoxOf(ps);
    var xs, ys, zs := Coords(ps, X), Coords(ps, Y), Coords(ps, Z);
    MemberBetween(xs, top.x, top.x, b.xmin);
    MemberBetween(xs, top.x, top.x, b.xmax);
    MemberBetween(ys, top.y, top.y, b.ymin);
    MemberBetween(ys, top.y, top.y, b.ymax);
    MemberBetween(zs, bottom, top.z, b.zmin);
    MemberBetween(zs, bottom, top.z, b.zmax);
    var j :| 0 <= j < |ps| && ps[j].z == bottom;
    assert Contains(b, ps[j]) && Contains(b, ps[0]);
  }

  lemma MemberBetween(xs: seq<real>, lo: real, hi: real, m: real)
    requires forall j :: 0 <= j < |xs| ==> lo <= xs[j] <= hi
    requires m in xs
    ensures lo <= m <= hi
  {
  }

  /** The stations of a hole whose dips are all 0 and whose depths are all non-negative. */
  lemma VerticalStations(depths: seq<Option<real>>, dips: seq<Option<real>>, azimuths: seq<Option<real>>)
    requires forall i :: 0 <= i < |dips| ==> dips[i] == None || dips[i] == Some(0.0)
    requires forall i :: 0 <= i < |depths| && depths[i].Some? ==> depths[i].value >= 0.0
    ensures var ss := SurveyStations(depths, dips, azimuths);
            forall k :: 0 <= k < |ss| ==> ss[k].dip == 0.0 && ss[k].depth >= 0.0
  {
    var ss := SurveyStations(depths, dips, azimuths);
    SurveyStationsSpec(depths, dips, azimuths);
    forall k | 0 <= k < |ss| ensures ss[k].dip == 0.0 && ss[k].depth >= 0.0 {
      var st := ss[k];
      assert st in ss;
      var i: nat :| At(depths, i) == Some(st.depth) && At(dips, i) == Some(st.dip) && At(azimuths, i) == Some(st.azimuth);
      assert dips[i] == Some(st.dip) && depths[i] == Some(st.depth);
    }
  }

  /** The box of a vertical hole: X and Y collapse onto the collar, and Z runs from the collar
      down to the deepest complete station (the collar alone when there is none). */
  lemma VerticalHoleBox(collar: Point, depths: seq<Option<real>>, dips: seq<Option<real>>,
                        azimuths: seq<Option<real>>, trig: Trig)
    requires ZeroAngleFacts(trig)
    requires forall i :: 0 <= i < |dips| ==> dips[i] == None || dips[i] == Some(0.0)
    requires forall i :: 0 <= i < |depths| && depths[i].Some? ==> depths[i].value >= 0.0
    ensures var ss := SurveyStations(depths, dips, azimuths);
            var deepest := if ss == [] then 0.0 else Greatest(Depths(ss));
            HoleBoundingBox(collar, depths, dips, azimuths, trig)
              == Box(collar.x, collar.x, collar.y, collar.y, collar.z - deepest, collar.z)
  {
    var ss := SurveyStations(depths, dips, azimuths);
    VerticalStations(depths, dips, azimuths);
    VerticalTrajectory(collar, ss, trig);
    var ps := TrajectoryPoints(collar, ss, trig);
    var deepest := if ss == [] then 0.0 else Greatest(Depths(ss));
    assert deepest >= 0.0 by {
      if ss != [] { assert Depths(ss)[0] >= 0.0; }
    }
    forall j | 0 <= j < |ps|
      ensures ps[j].x == collar.x && ps[j].y == collar.y
      ensures collar.z - deepest <= ps[j].z <= collar.z
    {
      if j > 0 {
        assert ps[j] == Point(collar.x, collar.y, collar.z - ss[j - 1].depth);
        assert Depths(ss)[j - 1] <= deepest;
      }
    }
    if ss != [] {
      var k :| 0 <= k < |ss| && Depths(ss)[k] == deepest;
      assert ps[k + 1].z == collar.z - deepest;
    } else {
      assert ps[0].z == collar.z - deepest;
    }
    BoxOfPlumbLine(ps, collar, collar.z - deepest);
  }

  lemma VerticalScenarioFrame(d1: real, d2: real, a1: real, a2: real)
    ensures Frame([Some(d1), Some(d2)], [Some(0.0), Some(0.0)], [Some(a1), Some(a2)])
         == [Sample(Some(d1), Some(0.0), Some(a1)), Sample(Some(d2), Some(0.0), Some(a2))]
  {
    var depths, dips, azimuths := [Some(d1), Some(d2)], [Some(0.0), Some(0.0)], [Some(a1), Some(a2)];
    var frame := Frame(depths, dips, azimuths);
    assert |frame| == 2;
    assert frame[0] == Sample(At(depths, 0), At(dips, 0), At(azimuths, 0));
    assert frame[1] == Sample(At(depths, 1), At(dips, 1), At(azimuths, 1));
  }

  lemma VerticalScenarioKept(d1: real, d2: real, a1: real, a2: real)
    ensures DropIncomplete([Sample(Some(d1), Some(0.0), Some(a1)), Sample(Some(d2), Some(0.0), Some(a2))])
         == [Station(d1, 0.0, a1), Station(d2, 0.0, a2)]
  {
    var frame := [Sample(Some(d1), Some(0.0), Some(a1)), Sample(Some(d2), Some(0.0), Some(a2))];
    var first := frame[..1];
    assert first[..0] == [];
    assert DropIncomplete(first) == [Station(d1, 0.0, a1)];
    assert frame[..|frame| - 1] == first;
  }

  lemma VerticalScenarioSorted(d1: real, d2: real, a1: real, a2: real)
    requires d1 <= d2
    ensures SortByDepth([Station(d1, 0.0, a1), Station(d2, 0.0, a2)])
         == [Station(d1, 0.0, a1), Station(d2, 0.0, a2)]
  {
    var ss := [Station(d1, 0.0, a1), Station(d2, 0.0, a2)];
    assert ss[..1] == [Station(d1, 0.0, a1)] && ss[..1][..0] == [];
    assert SortByDepth(ss[..1]) == [Station(d1, 0.0, a1)];
    assert InsertByDepth(Station(d2, 0.0, a2), [Station(d1, 0.0, a1)]) == ss;
  }

  /** The stations of a two-row vertical survey whose rows are already in depth order. */
  lemma VerticalScenarioStations(d1: real, d2: real, a1: real, a2: real)
    requires d1 <= d2
    ensures SurveyStations([Some(d1), Some(d2)], [Some(0.0), Some(0.0)], [Some(a1), Some(a2)])
            == [Station(d1, 0.0, a1), Station(d2, 0.0, a2)]
  {
    VerticalScenarioFrame(d1, d2, a1, a2);
    VerticalScenarioKept(d1, d2, a1, a2);
    VerticalScenarioSorted(d1, d2, a1, a2);
  }

  lemma TwoStationsDeepest(s1: Station, s2: Station)
    requires s1.depth <= s2.depth
    ensures Greatest(Depths([s1, s2])) == s2.depth
  {
    var ds := Depths([s1, s2]);
    assert ds == [s1.depth, s2.depth] && ds[1..] == [s2.depth];
  }

  /** Two vertical stations at depths 0 <= d1 <= d2, whatever their azimuths: the box is the
      collar's X and Y, and Z from `collar.z - d2` up to `collar.z` (a collar at elevation 100
      with stations at 5 and 15 gives Z [85, 100]). */
  lemma VerticalHoleScenario(collar: Point, d1: real, d2: real, a1: real, a2: real, trig: Trig)
    requires ZeroAngleFacts(trig)
    requires 0.0 <= d1 <= d2
    ensures HoleBoundingBox(collar, [Some(d1), Some(d2)], [Some(0.0), Some(0.0)], [Some(a1), Some(a2)], trig)
            == Box(collar.x, collar.x, collar.y, collar.y, collar.z - d2, collar.z)
  {
    var depths, dips, azimuths := [Some(d1), Some(d2)], [Some(0.0), Some(0.0)], [Some(a1), Some(a2)];
    VerticalScenarioStations(d1, d2, a1, a2);
    TwoStationsDeepest(Station(d1, 0.0, a1), Station(d2, 0.0, a2));
    TwoVerticalRows(d1, d2);
    VerticalHoleBoxDeepest(collar, depths, dips, azimuths, trig, d2);
  }

  /** Two present depths, both non-negative, and two dips of 0. */
  lemma TwoVerticalRows(d1: real, d2: real)
    requires 0.0 <= d1 && 0.0 <= d2
    ensures var dips := [Some(0.0), Some(0.0)]; forall i :: 0 <= i < |dips| ==> dips[i] == None || dips[i] == Some(0.0)
    ensures var depths := [Some(d1), Some(d2)]; forall i :: 0 <= i < |depths| && depths[i].Some? ==> depths[i].value >= 0.0
  {
  }

  /** `VerticalHoleBox` for a hole with at least one complete station, given its greatest depth. */
  lemma VerticalHoleBoxDeepest(collar: Point, depths: seq<Option<real>>, dips: seq<Option<real>>,
                        azimuths: seq<Option<real>>, trig: Trig, deepest: real)
    requires ZeroAngleFacts(trig)
    requires forall i :: 0 <= i < |dips| ==> dips[i] == None || dips[i] == Some(0.0)
    requires forall i :: 0 <= i < |depths| && depths[i].Some? ==> depths[i].value >= 0.0
    requires var ss := SurveyStations(depths, dips, azimuths); ss != [] && Greatest(Depths(ss)) == deepest
    ensures HoleBoundingBox(collar, depths, dips, azimuths, trig)
            == Box(collar.x, collar.x, collar.y, collar.y, collar.z - deepest, collar.z)
  {
    VerticalHoleBox(collar, depths, dips, azimuths, trig);
  }

  /** One step of the integration: each trajectory point is the previous one plus that
      segment's increment, so the points are the collar followed by the running sums. */
  lemma TrajectoryStep(collar: Point, ss: seq<Station>, trig: Trig, k: nat)
    requires k < |ss|
    ensures TrajectoryPoints(collar, ss, trig)[k + 1]
            == Add(TrajectoryPoints(collar, ss, trig)[k], Increments(ss, trig)[k])
  {
    var incs := Increments(ss, trig);
    var ps := TrajectoryPoints(collar, ss, trig);
    assert incs[..k + 1][..k] == incs[..k];
    assert PointSum(incs[..k + 1]) == Add(PointSum(incs[..k]), incs[k]);
    assert ps[k + 1] == Add(collar, PointSum(incs[..k + 1]));
    if k == 0 {
      assert incs[..0] == [];
    } else {
      assert ps[k] == Add(collar, PointSum(incs[..k]));
    }
  }

  /** One complete row (depth d, dip 90, azimuth az) yields exactly that one station. */
  lemma HorizontalScenarioStations(d: real, az: real)
    ensures SurveyStations([Some(d)], [Some(90.0)], [Some(az)]) == [Station(d, 90.0, az)]
  {
    var frame := Frame([Some(d)], [Some(90.0)], [Some(az)]);
    assert frame[0] == Sample(At([Some(d)], 0), At([Some(90.0)], 0), At([Some(az)], 0));
    assert frame == [Sample(Some(d), Some(90.0), Some(az))];
    assert frame[..0] == [];
    var st := Station(d, 90.0, az);
    assert DropIncomplete(frame) == [st];
    assert [st][..0] == [];
    assert SortByDepth([st]) == InsertByDepth(st, []);
  }

  /** A horizontal segment of length d at an azimuth whose sine is `sin` and cosine `cos`
      moves d * sin east and d * cos north. */
  lemma HorizontalScenarioIncrements(d: real, az: real, sin: real, cos: real, trig: Trig)
    requires trig.sinDeg(90.0) == 1.0 && trig.cosDeg(90.0) == 0.0
    requires trig.sinDeg(az) == sin && trig.cosDeg(az) == cos
    ensures Increments([Station(d, 90.0, az)], trig) == [Point(d * sin, d * cos, 0.0)]
  {
    var ss := [Station(d, 90.0, az)];
    assert Steps(Depths(ss)) == [d];
    var horiz := d * trig.sinDeg(90.0);
    assert horiz == d * 1.0 == d;
    assert d * trig.cosDeg(90.0) == d * 0.0 == 0.0;
    assert Increment(d, ss[0], trig) == Point(d * sin, d * cos, 0.0);
    assert Increments(ss, trig)[0] == Increment(d, ss[0], trig);
  }

  /** The trajectory of that one horizontal station: the collar, then the collar moved by
      the segment's increment. */
  lemma HorizontalScenarioTrajectory(collar: Point, d: real, az: real, sin: real, cos: real, trig: Trig)
    requires trig.sinDeg(90.0) == 1.0 && trig.cosDeg(90.0) == 0.0
    requires trig.sinDeg(az) == sin && trig.cosDeg(az) == cos
    ensures TrajectoryPoints(collar, [Station(d, 90.0, az)], trig)
         == [collar, Point(collar.x + d * sin, collar.y + d * cos, collar.z)]
  {
    HorizontalScenarioIncrements(d, az, sin, cos, trig);
    var incs := [Point(d * sin, d * cos, 0.0)];
    assert incs[..1] == incs && incs[..0] == [];
    assert PointSum(incs) == Add(PointSum(incs[..0]), incs[0]);
    assert CumSum(incs)[0] == incs[0];
  }

  /** A horizontal segment at a due-north azimuth (sine 0, cosine 1, as azimuth 0 has)
      ends d north of the collar, at the collar's easting and elevation. */
  lemma NorthTrajectory(collar: Point, d: real, az: real, trig: Trig)
    requires trig.sinDeg(90.0) == 1.0 && trig.cosDeg(90.0) == 0.0
    requires trig.sinDeg(az) == 0.0 && trig.cosDeg(az) == 1.0
    ensures TrajectoryPoints(collar, [Station(d, 90.0, az)], trig)
         == [collar, Point(collar.x, collar.y + d, collar.z)]
  {
    var sin, cos := trig.sinDeg(az), trig.cosDeg(az);
    HorizontalScenarioTrajectory(collar, d, az, sin, cos, trig);
    assert d * sin == 0.0 && d * cos == d;
  }

  /** One station at depth d >= 0, dip 90 (horizontal) and a due-north azimuth: the box
      stretches d along +Y and is flat in X and Z. */
  lemma HorizontalNorthScenario(collar: Point, d: real, az: real, trig: Trig)
    requires trig.sinDeg(90.0) == 1.0 && trig.cosDeg(90.0) == 0.0
    requires trig.sinDeg(az) == 0.0 && trig.cosDeg(az) == 1.0
    requires 0.0 <= d
    ensures HoleBoundingBox(collar, [Some(d)], [Some(90.0)], [Some(az)], trig)
            == Box(collar.x, collar.x, collar.y, collar.y + d, collar.z, collar.z)
  {
    HorizontalScenarioStations(d, az);
    NorthTrajectory(collar, d, az, trig);
    BoxOfPair(collar, Point(collar.x, collar.y + d, collar.z));
  }

  /** A horizontal segment at a due-east azimuth (sine 1, cosine 0, as azimuth 90 has)
      ends d east of the collar, at the collar's northing and elevation. */
  lemma EastTrajectory(collar: Point, d: real, az: real, trig: Trig)
    requires trig.sinDeg(90.0) == 1.0 && trig.cosDeg(90.0) == 0.0
    requires trig.sinDeg(az) == 1.0 && trig.cosDeg(az) == 0.0
    ensures TrajectoryPoints(collar, [Station(d, 90.0, az)], trig)
         == [collar, Point(collar.x + d, collar.y, collar.z)]
  {
    var sin, cos := trig.sinDeg(az), trig.cosDeg(az);
    HorizontalScenarioTrajectory(collar, d, az, sin, cos, trig);
    assert d * sin == d && d * cos == 0.0;
  }

  /** One station at depth d >= 0, dip 90 (horizontal) and a due-east azimuth: the box
      stretches d along +X and is flat in Y and Z. */
  lemma HorizontalEastScenario(collar: Point, d: real, az: real, trig: Trig)
    requires trig.sinDeg(90.0) == 1.0 && trig.cosDeg(90.0) == 0.0
    requires trig.sinDeg(az) == 1.0 && trig.cosDeg(az) == 0.0
    requires 0.0 <= d
    ensures HoleBoundingBox(collar, [Some(d)], [Some(90.0)], [Some(az)], trig)
            == Box(collar.x, collar.x + d, collar.y, collar.y, collar.z, collar.z)
  {
    HorizontalScenarioStations(d, az);
    EastTrajectory(collar, d, az, trig);
    BoxOfPair(collar, Point(collar.x + d, collar.y, collar.z));
  }
}
