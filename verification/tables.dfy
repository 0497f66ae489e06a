/** The measurement-table adapters the collection holds. The adapter classes themselves
    (tables.py) are not part of this model: an adapter is reduced to its variant and its rows,
    and its per-hole queries `get_depth_values`, `get_dip_values` and `get_azimuth_values`
    become lookups on those rows. */
module Tables {
  import opened Wrappers

  /** The two concrete adapter classes. */
  datatype Variant = Distance | Interval

  /** One row of a measurement table. `depth` is the distance along the hole for a distance
      table and the top of the interval for an interval table; any cell may be missing. */
  datatype Row = Row(holeIndex: int, depth: Option<real>, dip: Option<real>, azimuth: Option<real>)

  datatype MeasurementTable = MeasurementTable(variant: Variant, rows: seq<Row>)

  /** The classes a caller may pass as a filter: the abstract base class or one of its two
      subclasses. */
  datatype TableClass = MeasurementTableAdapter | DistanceTable | IntervalTable

  /** `isinstance(t, cls)`: every adapter is an instance of the base class. */
  predicate IsInstance(t: MeasurementTable, cls: TableClass) {
    match cls
    case MeasurementTableAdapter => true
    case DistanceTable => t.variant == Distance
    case IntervalTable => t.variant == Interval
  }

  /** `any(isinstance(t, cls) for cls in filter)`. */
  predicate Matches(t: MeasurementTable, filter: seq<TableClass>) {
    exists i :: 0 <= i < |filter| && IsInstance(t, filter[i])
  }

  /** The rows of one hole, in table order. */
  function HoleRows(t: MeasurementTable, holeIndex: int): seq<Row> {
    RowsOf(t.rows, holeIndex)
  }

  function RowsOf(rows: seq<Row>, holeIndex: int): seq<Row> {
    if rows == [] then []
    else RowsOf(rows[..|rows| - 1], holeIndex)
         + (if rows[|rows| - 1].holeIndex == holeIndex then [rows[|rows| - 1]] else [])
  }

  /** `get_depth_values(filter_to_hole_index=holeIndex)`. */
  function DepthValues(t: MeasurementTable, holeIndex: int): seq<Option<real>> {
    var rows := HoleRows(t, holeIndex);
    seq(|rows|, i requires 0 <= i < |rows| => rows[i].depth)
  }

  /** `get_dip_values(filter_to_hole_index=holeIndex)`. */
  function DipValues(t: MeasurementTable, holeIndex: int): seq<Option<real>> {
    var rows := HoleRows(t, holeIndex);
    seq(|rows|, i requires 0 <= i < |rows| => rows[i].dip)
  }

  /** `get_azimuth_values(filter_to_hole_index=holeIndex)`. */
  function AzimuthValues(t: MeasurementTable, holeIndex: int): seq<Option<real>> {
    var rows := HoleRows(t, holeIndex);
    seq(|rows|, i requires 0 <= i < |rows| => rows[i].azimuth)
  }
}
