/** The aggregate `DownholeCollection` of downhole_collection.py: the hole collars, the ordered
    list of measurement-table adapters, the variant filter over that list and the collection's
    bounding box. */
module Collection {
  import opened Wrappers
  import opened Boxes
  import opened Tables
  import opened Trajectory

  /** One row of HoleCollars: the hole's identifier, the index that joins it to measurement rows,
      and the collar position. */
  datatype Collar = Collar(holeIndex: int, holeId: string, x: real, y: real, z: real)

  function CollarPoint(c: Collar): Point {
    Point(c.x, c.y, c.z)
  }

  /** Raw tabular input and column mappings are only handed to the adapter factory. */
  type RawTable = map<string, seq<Option<real>>>
  type ColumnMapping = map<string, string>

  /** `MeasurementTableFactory.create`, and the mapping `ColumnMapping()` used when none is given. */
  datatype Factory = Factory(create: (RawTable, ColumnMapping) -> MeasurementTable, defaultMapping: ColumnMapping)

  /** What `add_measurement_table` accepts: a ready adapter, or a DataFrame to convert. */
  datatype TableInput = AdapterInput(adapter: MeasurementTable) | FrameInput(frame: RawTable)

  /** The adapter `add_measurement_table` stores for an input (lines 100-103). */
  function Adapt(input: TableInput, columnMapping: Option<ColumnMapping>, factory: Factory): MeasurementTable {
    match input
    case AdapterInput(adapter) => adapter
    case FrameInput(frame) => factory.create(frame, columnMapping.GetOr(factory.defaultMapping))
  }

  /** The adapters stored for a list of inputs: one per input, in input order, a ready adapter
      stored as it is. */
  function AdaptAll(inputs: seq<TableInput>, columnMapping: Option<ColumnMapping>, factory: Factory): (r: seq<MeasurementTable>)
    ensures |r| == |inputs|
    ensures forall i :: 0 <= i < |inputs| && inputs[i].AdapterInput? ==> r[i] == inputs[i].adapter
    ensures forall i :: 0 <= i < |inputs| ==> r[i] == Adapt(inputs[i], columnMapping, factory)
  {
    seq(|inputs|, i requires 0 <= i < |inputs| => Adapt(inputs[i], columnMapping, factory))
  }

  /** The entries matching the filter, in list order. */
  function Filtered(ms: seq<MeasurementTable>, filter: seq<TableClass>): (r: seq<MeasurementTable>)
    ensures |r| <= |ms|
    ensures forall i :: 0 <= i < |r| ==> Matches(r[i], filter)
  {
    if ms == [] then []
    else
      var last := ms[|ms| - 1];
      Filtered(ms[..|ms| - 1], filter) + (if Matches(last, filter) then [last] else [])
  }

  /** Filtering distributes over concatenation: the kept entries keep their relative order. */
  lemma {:induction false} FilteredConcat(a: seq<MeasurementTable>, b: seq<MeasurementTable>, filter: seq<TableClass>)
    ensures Filtered(a + b, filter) == Filtered(a, filter) + Filtered(b, filter)
  {
    if b == [] {
      assert a + b == a;
    } else {
      var init := b[..|b| - 1];
      assert (a + b)[..|a + b| - 1] == a + init;
      assert (a + b)[|a + b| - 1] == b[|b| - 1];
      FilteredConcat(a, init, filter);
    }
  }

  /** Every matching entry is kept as often as it occurs, and nothing else is kept. */
  lemma {:induction false} FilteredCount(ms: seq<MeasurementTable>, filter: seq<TableClass>, t: MeasurementTable)
    ensures multiset(Filtered(ms, filter))[t] == if Matches(t, filter) then multiset(ms)[t] else 0
    ensures t in Filtered(ms, filter) <==> t in ms && Matches(t, filter)
  {
    if ms != [] {
      var init, last := ms[..|ms| - 1], ms[|ms| - 1];
      assert ms == init + [last];
      FilteredCount(init, filter, t);
    }
    assert t in Filtered(ms, filter) <==> t in multiset(Filtered(ms, filter));
    assert t in ms <==> t in multiset(ms);
  }

  /** The result is empty exactly when no entry matches. */
  lemma FilteredIsEmpty(ms: seq<MeasurementTable>, filter: seq<TableClass>)
    ensures Filtered(ms, filter) == [] <==> forall i :: 0 <= i < |ms| ==> !Matches(ms[i], filter)
  {
    var r := Filtered(ms, filter);
    if r != [] {
      FilteredCount(ms, filter, r[0]);
      var i :| 0 <= i < |ms| && ms[i] == r[0];
    }
    forall i | 0 <= i < |ms| && Matches(ms[i], filter) ensures r != [] {
      FilteredCount(ms, filter, ms[i]);
    }
  }

  /** When every entry matches (for example with the base class as filter) the whole list comes back. */
  lemma {:induction false} FilteredAllMatch(ms: seq<MeasurementTable>, filter: seq<TableClass>)
    requires forall i :: 0 <= i < |ms| ==> Matches(ms[i], filter)
    ensures Filtered(ms, filter) == ms
  {
    if ms != [] {
      FilteredAllMatch(ms[..|ms| - 1], filter);
    }
  }

  /** The per-hole box of one collar against one table (lines 243-253). */
  function HoleBox(t: MeasurementTable, c: Collar, trig: Trig): (r: Box)
    ensures Contains(r, CollarPoint(c)) && Proper(r)
  {
    HoleBoundingBox(CollarPoint(c), DepthValues(t, c.holeIndex), DipValues(t, c.holeIndex),
                    AzimuthValues(t, c.holeIndex), trig)
  }

  /** `HoleBox` for a fixed trigonometry, as a function of (table, collar). */
  function HoleBoxOf(trig: Trig): (MeasurementTable, Collar) -> Box {
    (t: MeasurementTable, c: Collar) => HoleBox(t, c, trig)
  }

  /** The box of one table against each collar, in collar order. */
  function TableBoxes(t: MeasurementTable, collars: seq<Collar>, box: (MeasurementTable, Collar) -> Box): (r: seq<Box>)
    ensures |r| == |collars|
  {
    seq(|collars|, k requires 0 <= k < |collars| => box(t, collars[k]))
  }

  /** The boxes of every (table, collar) pair, tables in the outer loop, as the nested loops of
      `get_bounding_box` append them. */
  function PairBoxes(tables: seq<MeasurementTable>, collars: seq<Collar>, box: (MeasurementTable, Collar) -> Box): seq<Box> {
    if tables == [] then []
    else PairBoxes(tables[..|tables| - 1], collars, box) + TableBoxes(tables[|tables| - 1], collars, box)
  }

  /** One box per (table, collar) pair. */
  lemma {:induction false} PairBoxesLength(tables: seq<MeasurementTable>, collars: seq<Collar>, box: (MeasurementTable, Collar) -> Box)
    ensures |PairBoxes(tables, collars, box)| == |tables| * |collars|
  {
    if tables != [] {
      var m, n := |tables| - 1, |collars|;
      PairBoxesLength(tables[..m], collars, box);
      assert m * n + n == (m + 1) * n;
    }
  }

  /** Extending the collars by one appends that collar's box. */
  lemma TableBoxesSnoc(t: MeasurementTable, collars: seq<Collar>, k: nat, box: (MeasurementTable, Collar) -> Box)
    requires k < |collars|
    ensures TableBoxes(t, collars[..k + 1], box) == TableBoxes(t, collars[..k], box) + [box(t, collars[k])]
  {
    var left, right := TableBoxes(t, collars[..k + 1], box), TableBoxes(t, collars[..k], box) + [box(t, collars[k])];
    forall j | 0 <= j < k + 1
      ensures left[j] == right[j]
    {
      assert collars[..k + 1][j] == collars[j];
    }
  }

  /** A box comes from one table exactly when it is that table's box against some collar. */
  lemma TableBoxesMembers(t: MeasurementTable, collars: seq<Collar>, box: (MeasurementTable, Collar) -> Box, b: Box)
    ensures b in TableBoxes(t, collars, box) <==> exists k :: 0 <= k < |collars| && b == box(t, collars[k])
  {
    var boxes := TableBoxes(t, collars, box);
    if exists k :: 0 <= k < |collars| && b == box(t, collars[k]) {
      var k :| 0 <= k < |collars| && b == box(t, collars[k]);
      assert boxes[k] == b;
    }
  }

  /** A box is produced exactly when it is the box of some table against some collar. */
  lemma {:induction false} PairBoxesMembers(tables: seq<MeasurementTable>, collars: seq<Collar>,
                                            box: (MeasurementTable, Collar) -> Box, b: Box)
    ensures b in PairBoxes(tables, collars, box) <==>
              exists i, k :: 0 <= i < |tables| && 0 <= k < |collars| && b == box(tables[i], collars[k])
  {
    if tables != [] {
      var init, last := tables[..|tables| - 1], tables[|tables| - 1];
      PairBoxesMembers(init, collars, box, b);
      TableBoxesMembers(last, collars, box, b);
      assert PairBoxes(tables, collars, box) == PairBoxes(init, collars, box) + TableBoxes(last, collars, box);
      if b in PairBoxes(tables, collars, box) {
        if b in PairBoxes(init, collars, box) {
          var i, k :| 0 <= i < |init| && 0 <= k < |collars| && b == box(init[i], collars[k]);
          assert tables[i] == init[i];
        } else {
          var k :| 0 <= k < |collars| && b == box(last, collars[k]);
          assert tables[|tables| - 1] == last;
        }
      }
      if exists i, k :: 0 <= i < |tables| && 0 <= k < |collars| && b == box(tables[i], collars[k]) {
        var i, k :| 0 <= i < |tables| && 0 <= k < |collars| && b == box(tables[i], collars[k]);
        if i < |init| {
          assert init[i] == tables[i];
        }
      }
    }
  }

  /** `combine(bboxes) if bboxes else []`, as a list of six values. */
  function CombinedOrEmpty(bboxes: seq<Box>): (r: seq<real>)
    ensures |r| == if bboxes == [] then 0 else 6
  {
    if bboxes != [] then Bounds(CombineBoundingBoxes(bboxes).value) else []
  }

  /** The collection's box (lines 234-256): the per-hole boxes of every distance table against
      every collar, combined, as [xmin, xmax, ymin, ymax, zmin, zmax]; [] when there are none. */
  function BoundingBox(collars: seq<Collar>, ms: seq<MeasurementTable>, trig: Trig): (r: seq<real>)
    ensures |r| == 0 || |r| == 6
  {
    CombinedOrEmpty(PairBoxes(Filtered(ms, [DistanceTable]), collars, HoleBoxOf(trig)))
  }

  /** The box that a six-value list [xmin, xmax, ymin, ymax, zmin, zmax] stands for. */
  function FromBounds(r: seq<real>): Box
    requires |r| == 6
  {
    Box(r[0], r[1], r[2], r[3], r[4], r[5])
  }

  /** Only distance tables pass the filter `[DistanceTable]`. */
  lemma DistanceFilter(ms: seq<MeasurementTable>)
    ensures forall t :: Matches(t, [DistanceTable]) <==> t.variant == Distance
    ensures Filtered(ms, [DistanceTable]) == [] <==> forall i :: 0 <= i < |ms| ==> ms[i].variant != Distance
  {
    forall t ensures Matches(t, [DistanceTable]) <==> t.variant == Distance {
      assert IsInstance(t, [DistanceTable][0]) <==> t.variant == Distance;
    }
    FilteredIsEmpty(ms, [DistanceTable]);
  }

  /** The combination of a list of proper boxes: empty exactly for no boxes, otherwise six values
      with min <= max on every axis. */
  lemma CombinedOrEmptyShape(bboxes: seq<Box>)
    requires forall j :: 0 <= j < |bboxes| ==> Proper(bboxes[j])
    ensures var r := CombinedOrEmpty(bboxes);
            && (r == [] <==> bboxes == [])
            && (r != [] ==> |r| == 6 && r[0] <= r[1] && r[2] <= r[3] && r[4] <= r[5])
  {
    if bboxes != [] {
      var b := CombineBoundingBoxes(bboxes).value;
      assert Proper(b);
      assert CombinedOrEmpty(bboxes) == Bounds(b);
    }
  }

  /** The box is empty exactly when there is no collar or no distance table; otherwise it has six
      values with min <= max on every axis. */
  lemma BoundingBoxShape(collars: seq<Collar>, ms: seq<MeasurementTable>, trig: Trig)
    ensures var r := BoundingBox(collars, ms, trig);
            && (r == [] <==> collars == [] || forall i :: 0 <= i < |ms| ==> ms[i].variant != Distance)
            && (r != [] ==> |r| == 6 && r[0] <= r[1] && r[2] <= r[3] && r[4] <= r[5])
  {
    var ds := Filtered(ms, [DistanceTable]);
    var bboxes := PairBoxes(ds, collars, HoleBoxOf(trig));
    DistanceFilter(ms);
    PairBoxesLength(ds, collars, HoleBoxOf(trig));
    if |ds| > 0 && |collars| > 0 {
      assert |ds| * |collars| >= |collars|;
    }
    forall j | 0 <= j < |bboxes| ensures Proper(bboxes[j]) {
      PairBoxesMembers(ds, collars, HoleBoxOf(trig), bboxes[j]);
      var i, k :| 0 <= i < |ds| && 0 <= k < |collars| && bboxes[j] == HoleBoxOf(trig)(ds[i], collars[k]);
      assert bboxes[j] == HoleBox(ds[i], collars[k], trig);
    }
    CombinedOrEmptyShape(bboxes);
  }

  /** The combination encloses each of its inputs. */
  lemma CombinedOrEmptyEncloses(bboxes: seq<Box>, n: nat)
    requires n < |bboxes|
    ensures var r := CombinedOrEmpty(bboxes);
            |r| == 6 && Encloses(FromBounds(r), bboxes[n])
  {
  }

  /** The box encloses the box of every distance table against every collar, and so every collar. */
  lemma BoundingBoxEnclosesEveryHole(collars: seq<Collar>, ms: seq<MeasurementTable>, trig: Trig, i: nat, k: nat)
    requires i < |ms| && ms[i].variant == Distance && k < |collars|
    ensures var r := BoundingBox(collars, ms, trig);
            && |r| == 6
            && Encloses(FromBounds(r), HoleBox(ms[i], collars[k], trig))
            && Contains(FromBounds(r), CollarPoint(collars[k]))
  {
    var ds := Filtered(ms, [DistanceTable]);
    DistanceFilter(ms);
    FilteredCount(ms, [DistanceTable], ms[i]);
    var j :| 0 <= j < |ds| && ds[j] == ms[i];
    var hb := HoleBox(ms[i], collars[k], trig);
    assert hb == HoleBoxOf(trig)(ds[j], collars[k]);
    var bboxes := PairBoxes(ds, collars, HoleBoxOf(trig));
    PairBoxesMembers(ds, collars, HoleBoxOf(trig), hb);
    var n :| 0 <= n < |bboxes| && bboxes[n] == hb;
    CombinedOrEmptyEncloses(bboxes, n);
  }

  /** Interval tables take no part: appending one leaves the box unchanged. */
  lemma BoundingBoxIgnoresIntervalTables(collars: seq<Collar>, ms: seq<MeasurementTable>, t: MeasurementTable, trig: Trig)
    requires t.variant == Interval
    ensures BoundingBox(collars, ms + [t], trig) == BoundingBox(collars, ms, trig)
  {
    DistanceFilter(ms);
    assert !Matches(t, [DistanceTable]);
    assert (ms + [t])[..|ms + [t]| - 1] == ms;
    assert Filtered(ms + [t], [DistanceTable]) == Filtered(ms, [DistanceTable]);
  }

  /** The box depends only on which tables the collection holds, not on their order or repetition. */
  lemma BoundingBoxDependsOnlyOnTables(collars: seq<Collar>, ms: seq<MeasurementTable>, ms': seq<MeasurementTable>, trig: Trig)
    requires forall t :: t in ms <==> t in ms'
    ensures BoundingBox(collars, ms, trig) == BoundingBox(collars, ms', trig)
  {
    var ds, ds' := Filtered(ms, [DistanceTable]), Filtered(ms', [DistanceTable]);
    forall t ensures t in ds <==> t in ds' {
      FilteredCount(ms, [DistanceTable], t);
      FilteredCount(ms', [DistanceTable], t);
    }
    SameTablesSameBoxes(ds, ds', collars, HoleBoxOf(trig));
    SameTablesSameBoxes(ds', ds, collars, HoleBoxOf(trig));
    var bs, bs' := PairBoxes(ds, collars, HoleBoxOf(trig)), PairBoxes(ds', collars, HoleBoxOf(trig));
    CombineDependsOnlyOnElements(bs, bs');
  }

  lemma SameTablesSameBoxes(ds: seq<MeasurementTable>, ds': seq<MeasurementTable>, collars: seq<Collar>,
                            box: (MeasurementTable, Collar) -> Box)
    requires forall t :: t in ds ==> t in ds'
    ensures forall b :: b in PairBoxes(ds, collars, box) ==> b in PairBoxes(ds', collars, box)
  {
    forall b | b in PairBoxes(ds, collars, box) ensures b in PairBoxes(ds', collars, box) {
      PairBoxesMembers(ds, collars, box, b);
      PairBoxesMembers(ds', collars, box, b);
      var i, k :| 0 <= i < |ds| && 0 <= k < |collars| && b == box(ds[i], collars[k]);
      assert ds[i] in ds';
      var i' :| 0 <= i' < |ds'| && ds'[i'] == ds[i];
    }
  }

  /** Reordering the measurement tables does not change the box. */
  lemma BoundingBoxIsOrderIndependent(collars: seq<Collar>, ms: seq<MeasurementTable>, ms': seq<MeasurementTable>, trig: Trig)
    requires multiset(ms) == multiset(ms')
    ensures BoundingBox(collars, ms, trig) == BoundingBox(collars, ms', trig)
  {
    forall t ensures t in ms <==> t in ms' {
      assert t in ms <==> t in multiset(ms);
      assert t in ms' <==> t in multiset(ms');
    }
    BoundingBoxDependsOnlyOnTables(collars, ms, ms', trig);
  }

  /** A distance table holding two vertical survey rows of one hole. */
  function VerticalTable(h: int, d1: real, d2: real, a1: real, a2: real): MeasurementTable {
    MeasurementTable(Distance, [Row(h, Some(d1), Some(0.0), Some(a1)), Row(h, Some(d2), Some(0.0), Some(a2))])
  }

  lemma VerticalTableColumns(h: int, d1: real, d2: real, a1: real, a2: real)
    ensures var t := VerticalTable(h, d1, d2, a1, a2);
            && DepthValues(t, h) == [Some(d1), Some(d2)]
            && DipValues(t, h) == [Some(0.0), Some(0.0)]
            && AzimuthValues(t, h) == [Some(a1), Some(a2)]
  {
    var t := VerticalTable(h, d1, d2, a1, a2);
    var rows := t.rows;
    var first := rows[..1];
    assert first[..0] == [];
    assert RowsOf(first, h) == [rows[0]];
    assert rows[..|rows| - 1] == first;
    assert HoleRows(t, h) == rows;
  }

  lemma OneTablePairBoxes(c: Collar, t: MeasurementTable, trig: Trig)
    requires t.variant == Distance
    ensures PairBoxes(Filtered([t], [DistanceTable]), [c], HoleBoxOf(trig)) == [HoleBox(t, c, trig)]
  {
    DistanceFilter([t]);
    assert [t][..0] == [];
    assert Filtered([t], [DistanceTable]) == [t];
    assert [t][..|[t]| - 1] == [];
    assert TableBoxes(t, [c], HoleBoxOf(trig)) == [HoleBox(t, c, trig)];
  }

  /** Combining a single box gives that box. */
  lemma CombineOne(b: Box)
    ensures CombineBoundingBoxes([b]) == Success(b)
  {
    assert Lowers([b], X) == [b.xmin] && Uppers([b], X) == [b.xmax];
    assert Lowers([b], Y) == [b.ymin] && Uppers([b], Y) == [b.ymax];
    assert Lowers([b], Z) == [b.zmin] && Uppers([b], Z) == [b.zmax];
  }

  /** One collar and one distance table whose rows for that hole are two vertical stations at
      depths 0 <= d1 <= d2: the collection's box is [x, x, y, y, z - d2, z] (a collar at
      (0, 0, 100) with rows at depths 5 and 15 gives [0, 0, 0, 0, 85, 100]). `VerticalTable`
      is such a table. */
  lemma CollectionScenario(c: Collar, t: MeasurementTable, d1: real, d2: real, a1: real, a2: real, trig: Trig)
    requires ZeroAngleFacts(trig)
    requires 0.0 <= d1 <= d2
    requires t.variant == Distance
    requires DepthValues(t, c.holeIndex) == [Some(d1), Some(d2)]
    requires DipValues(t, c.holeIndex) == [Some(0.0), Some(0.0)]
    requires AzimuthValues(t, c.holeIndex) == [Some(a1), Some(a2)]
    ensures BoundingBox([c], [t], trig) == [c.x, c.x, c.y, c.y, c.z - d2, c.z]
  {
    var b := Box(c.x, c.x, c.y, c.y, c.z - d2, c.z);
    VerticalHoleScenario(CollarPoint(c), d1, d2, a1, a2, trig);
    assert HoleBox(t, c, trig) == b;
    BoundingBoxOfOne(c, t, trig, b);
  }

  /** One collar and one distance table: the collection's box is that hole's box. */
  lemma BoundingBoxOfOne(c: Collar, t: MeasurementTable, trig: Trig, b: Box)
    requires t.variant == Distance && HoleBox(t, c, trig) == b
    ensures BoundingBox([c], [t], trig) == [b.xmin, b.xmax, b.ymin, b.ymax, b.zmin, b.zmax]
  {
    OneTablePairBoxes(c, t, trig);
    CombineOne(HoleBox(t, c, trig));
  }

  class DownholeCollection {
    /** HoleCollars: one row per hole, read-only once the collection is built. */
    const collars: seq<Collar>
    /** The measurement tables, in the order they were added. */
    var measurements: seq<MeasurementTable>

    /** Starts from an empty list and adds the given inputs one by one, in order (lines 80-84). */
    constructor (collars: seq<Collar>, measurements: seq<TableInput>, columnMapping: Option<ColumnMapping>, factory: Factory)
      ensures this.collars == collars
      ensures this.measurements == AdaptAll(measurements, columnMapping, factory)
    {
      this.collars := collars;
      this.measurements := [];
      new;
      for i := 0 to |measurements|
        invariant this.measurements == AdaptAll(measurements[..i], columnMapping, factory)
      {
        AddMeasurementTable(measurements[i], columnMapping, factory);
        assert measurements[..i + 1] == measurements[..i] + [measurements[i]];
      }
      assert measurements[..|measurements|] == measurements;
    }

    /** Appends exactly one adapter at the end; every earlier entry is unchanged (lines 100-104). */
    method AddMeasurementTable(input: TableInput, columnMapping: Option<ColumnMapping>, factory: Factory)
      modifies this
      ensures measurements == old(measurements) + [Adapt(input, columnMapping, factory)]
      ensures input.AdapterInput? ==> measurements[|measurements| - 1] == input.adapter
    {
      var adapter: MeasurementTable;
      if input.FrameInput? {
        adapter := factory.create(input.frame, columnMapping.GetOr(factory.defaultMapping));
      } else {
        adapter := input.adapter;
      }
      measurements := measurements + [adapter];
    }

    /** All entries when no filter is given; otherwise the entries that are an instance of some
        class of the filter, in list order (lines 120-127). */
    method GetMeasurementTables(filter: Option<seq<TableClass>>) returns (r: seq<MeasurementTable>)
      ensures filter.None? ==> r == measurements
      ensures filter.Some? ==> r == Filtered(measurements, filter.value)
    {
      if filter.None? {
        return measurements;
      }
      var results: seq<MeasurementTable> := [];
      for i := 0 to |measurements|
        invariant results == Filtered(measurements[..i], filter.value)
      {
        var m := measurements[i];
        assert measurements[..i + 1][..i] == measurements[..i];
        if Matches(m, filter.value) {
          results := results + [m];
        }
      }
      assert measurements[..|measurements|] == measurements;
      return results;
    }

    /** The per-hole boxes of one table against each collar, in collar order (lines 240-254). */
    method CollectTableBoxes(mt: MeasurementTable, trig: Trig) returns (bboxes: seq<Box>)
      ensures bboxes == TableBoxes(mt, collars, HoleBoxOf(trig))
    {
      bboxes := [];
      for k := 0 to |collars|
        invariant bboxes == TableBoxes(mt, collars[..k], HoleBoxOf(trig))
      {
        var c := collars[k];
        var bbox := HoleBox(mt, c, trig);
        TableBoxesSnoc(mt, collars, k, HoleBoxOf(trig));
        bboxes := bboxes + [bbox];
      }
      assert collars[..|collars|] == collars;
    }

    /** The collection's box: every distance table against every collar (lines 234-256). */
    method GetBoundingBox(trig: Trig) returns (r: seq<real>)
      ensures r == BoundingBox(collars, measurements, trig)
    {
      var tables := GetMeasurementTables(Some([DistanceTable]));
      var bboxes: seq<Box> := [];
      for i := 0 to |tables|
        invariant bboxes == PairBoxes(tables[..i], collars, HoleBoxOf(trig))
      {
        var more := CollectTableBoxes(tables[i], trig);
        assert tables[..i + 1][..i] == tables[..i];
        bboxes := bboxes + more;
      }
      assert tables[..|tables|] == tables;
      if bboxes != [] {
        var combined := CombineBoundingBoxes(bboxes);
        r := Bounds(combined.value);
      } else {
        r := [];
      }
    }
  }
}
