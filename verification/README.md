# DownholeCollection — a Dafny model

This project models the `DownholeCollection` aggregate of the evo data converters
(`packages/common/src/evo/data_converters/common/objects/downhole_collection/downhole_collection.py`). A downhole collection owns one table of hole collars and an ordered list of
measurement-table adapters. Each adapter is either a *distance table* (one depth per row) or an
*interval table* (top/base per row). The collection supports three operations: appending
adapters, listing them with an optional variant filter, and computing the collection's 3D
bounding box.

The box is built by integrating each hole's survey (depth, dip from vertical, azimuth clockwise
from north) as straight segments from the collar:

- rows with a missing depth, dip or azimuth are dropped;
- the remaining rows are sorted by depth;
- segment lengths are forward differences from depth 0 at the collar;
- each segment is projected onto X (east), Y (north) and Z (up), and the projections are summed
  cumulatively from the collar;
- the collar is prepended, and the points are reduced to a per-hole box.

One per-hole box is made for every (distance table, collar) pair. These boxes are then combined
into `[xmin, xmax, ymin, ymax, zmin, zmax]`. When there are no pairs the result is `[]`.

Modules:

- `Wrappers` (wrappers.dfy): `Option` for missing cells, `Result` for the `ValueError` path.
- `Extrema` (extrema.dfy): `min`/`max` of a non-empty sequence, characterised as the attained
  lower and upper bound.
- `Boxes` (boxes.dfy): points, boxes, the box of a point list, and `_combine_bounding_boxes`.
- `Tables` (tables.dfy): adapters as a datatype with a variant tag and rows. It also holds the
  `isinstance` filter test and the per-hole lookups `get_depth_values`, `get_dip_values` and
  `get_azimuth_values`.
- `Trajectory` (trajectory.dfy): `_compute_hole_bounding_box`, step by step.
- `Collection` (collection.dfy): the class `DownholeCollection` (its constructor,
  `add_measurement_table`, `get_measurement_tables` and `get_bounding_box`) and the
  functions and lemmas that specify it.

Coordinates are `real`. A missing cell (NaN / None) is `None`.

Sine and cosine of degrees are a parameter `Trig` made of two arbitrary functions. Every
structural property holds whatever values they return. The two example properties that need
actual values say so in their preconditions:

- the vertical hole needs sin 0 = 0 and cos 0 = 1;
- the horizontal holes also need sin 90 = 1 and cos 90 = 0, plus the sine and cosine of their
  azimuth (0 and 1 for north, 1 and 0 for east).

A hole without any complete survey row is not skipped: it contributes the degenerate box of its
collar (lines 190-193 and 254).

The docstring of `get_bounding_box` (lines 225-231) says the box is computed from the collar
positions and is always a list of six floats. The code (lines 235-256) integrates the
trajectories of the distance tables and returns `[]` when there is no distance table, even when
collars exist. The model follows the code (`Collection.BoundingBoxShape`).

## Model

| member | source | states |
|---|---|---|
| `Collection.DownholeCollection.constructor` | packages/common/src/evo/data_converters/common/objects/downhole_collection/downhole_collection.py:80-84 | The collection keeps the given collars and starts from an empty list. It appends the given inputs one by one, in order, so the list is exactly the adapted inputs. |
| `Collection.Adapt` | packages/common/src/evo/data_converters/common/objects/downhole_collection/downhole_collection.py:100-103 | The adapter stored for one input: a ready adapter as it is; a DataFrame handed to the factory with the given column mapping, or the default mapping when none is given. |
| `Collection.AdaptAll` | packages/common/src/evo/data_converters/common/objects/downhole_collection/downhole_collection.py:82-84 | Construction stores one adapter per input, in input order. A ready adapter is stored as it is. |
| `Collection.DownholeCollection.AddMeasurementTable` | packages/common/src/evo/data_converters/common/objects/downhole_collection/downhole_collection.py:100-104 | Exactly one adapter is appended at the end and every earlier entry is unchanged. A ready adapter is stored as it is; a DataFrame goes through the factory with the given mapping or the default one. |
| `Collection.DownholeCollection.GetMeasurementTables` | packages/common/src/evo/data_converters/common/objects/downhole_collection/downhole_collection.py:120-127 | With no filter it returns the whole list, and the collection is not changed. With a filter it returns the filtered list (see the Filtered lemmas below). |
| `Tables.IsInstance` | packages/common/src/evo/data_converters/common/objects/downhole_collection/downhole_collection.py:125 | `isinstance`: every adapter is an instance of the base class `MeasurementTableAdapter`; besides that, a distance table is an instance of `DistanceTable` only and an interval table of `IntervalTable` only. |
| `Tables.Matches` | packages/common/src/evo/data_converters/common/objects/downhole_collection/downhole_collection.py:125 | An adapter passes the filter when it is an instance of at least one class in it (`any(...)`). |
| `Collection.Filtered` | packages/common/src/evo/data_converters/common/objects/downhole_collection/downhole_collection.py:123-127 | The loop's result: the entries that match the filter, in list order. The contract states that every returned entry matches and that the result is no longer than the list. |
| `Collection.FilteredConcat` | packages/common/src/evo/data_converters/common/objects/downhole_collection/downhole_collection.py:123-127 | Filtering distributes over concatenation, so the kept entries stay in their original relative order. |
| `Collection.FilteredCount` | packages/common/src/evo/data_converters/common/objects/downhole_collection/downhole_collection.py:123-127 | A matching entry is kept exactly as many times as it occurs; a non-matching one never is. An entry is returned if and only if it is in the list and matches. |
| `Collection.FilteredIsEmpty` | packages/common/src/evo/data_converters/common/objects/downhole_collection/downhole_collection.py:123-127 | The result is empty if and only if no entry is an instance of any class in the filter. |
| `Collection.FilteredAllMatch` | packages/common/src/evo/data_converters/common/objects/downhole_collection/downhole_collection.py:124-126 | When every entry matches (for example the base class as filter), the whole list comes back unchanged. |
| `Trajectory.Frame` | packages/common/src/evo/data_converters/common/objects/downhole_collection/downhole_collection.py:151-156 | The per-hole frame: one row per position up to the longest of the three columns; row i holds the i-th depth, dip and azimuth, a missing or absent cell as None. |
| `Trajectory.DropIncomplete` | packages/common/src/evo/data_converters/common/objects/downhole_collection/downhole_collection.py:157 | `dropna` on depth, dip and azimuth: the rows with all three present, in frame order, as stations; never more stations than rows. |
| `Trajectory.DropIncompleteConcat` | packages/common/src/evo/data_converters/common/objects/downhole_collection/downhole_collection.py:151-157 | Dropping incomplete rows distributes over concatenation, so the kept rows keep their order. |
| `Trajectory.MissingValueDropsOnlyItsRow` | packages/common/src/evo/data_converters/common/objects/downhole_collection/downhole_collection.py:151-157 | A row with a missing depth, dip or azimuth is removed alone; the rows before and after it are all kept. |
| `Trajectory.DropIncompleteMembers` | packages/common/src/evo/data_converters/common/objects/downhole_collection/downhole_collection.py:151-157 | A station is kept if and only if some row has all three of its values present. |
| `Trajectory.InsertByDepth` | packages/common/src/evo/data_converters/common/objects/downhole_collection/downhole_collection.py:159-160 | Inserting a station into a depth-sorted list keeps it sorted and adds exactly that station. |
| `Trajectory.SortByDepth` | packages/common/src/evo/data_converters/common/objects/downhole_collection/downhole_collection.py:159-160 | The result is ascending by depth and is a permutation of the input. |
| `Trajectory.SurveyStations` | packages/common/src/evo/data_converters/common/objects/downhole_collection/downhole_collection.py:151-160 | The stations the trajectory uses: the complete rows sorted by depth. The contract states they are ascending by depth and no more than the frame's rows. |
| `Trajectory.SurveyStationsSpec` | packages/common/src/evo/data_converters/common/objects/downhole_collection/downhole_collection.py:151-164 | The stations used for a hole are ascending by depth. They are the complete rows with the same multiplicities. A station is used if and only if some row index holds its depth, dip and azimuth. |
| `Trajectory.Steps` | packages/common/src/evo/data_converters/common/objects/downhole_collection/downhole_collection.py:168 | `np.diff(depth, prepend=0.0)`: one step per station; step 0 is the first depth (from the collar at depth 0), step i is depth i minus depth i-1. |
| `Trajectory.StepsTelescope` | packages/common/src/evo/data_converters/common/objects/downhole_collection/downhole_collection.py:166-168 | The first k+1 steps sum to the k-th depth, so the collar is the implicit station at depth 0. |
| `Trajectory.Increment` | packages/common/src/evo/data_converters/common/objects/downhole_collection/downhole_collection.py:170-183 | One segment: horizontal = step * sin(dip), down = step * cos(dip); X gains horizontal * sin(azimuth), Y gains horizontal * cos(azimuth), Z loses down. The contract states that a zero step does not move, that sin(dip) = 0 gives no X or Y movement and that cos(dip) = 0 gives no Z movement. |
| `Trajectory.Increments` | packages/common/src/evo/data_converters/common/objects/downhole_collection/downhole_collection.py:168-183 | The increment of every station with its own step, one per station, in depth order. |
| `Trajectory.CumSum` | packages/common/src/evo/data_converters/common/objects/downhole_collection/downhole_collection.py:186-188 | `np.cumsum` on each axis: entry i is the sum of the first i+1 increments; one entry per increment. |
| `Trajectory.TrajectoryPoints` | packages/common/src/evo/data_converters/common/objects/downhole_collection/downhole_collection.py:185-193 | The trajectory: the collar, then the collar plus each cumulative increment; one point more than stations, starting at the collar. |
| `Trajectory.VerticalIncrement` | packages/common/src/evo/data_converters/common/objects/downhole_collection/downhole_collection.py:170-183 | A segment with dip 0 moves straight down by its step: no X or Y change. |
| `Trajectory.VerticalPartialSum` | packages/common/src/evo/data_converters/common/objects/downhole_collection/downhole_collection.py:173-188 | With all dips 0, the cumulative increments move only Z, by minus the cumulative steps. |
| `Trajectory.VerticalTrajectory` | packages/common/src/evo/data_converters/common/objects/downhole_collection/downhole_collection.py:166-193 | With all dips 0, X and Y stay at the collar, and station k is at `collar_z - depth[k]`. |
| `Trajectory.VerticalHoleBox` | packages/common/src/evo/data_converters/common/objects/downhole_collection/downhole_collection.py:151-202 | For a vertical hole with non-negative depths, the box is the collar's X and Y on both sides. Z runs from the collar down to the deepest complete station, or is the collar alone when there is none. |
| `Trajectory.VerticalHoleScenario` | packages/common/src/evo/data_converters/common/objects/downhole_collection/downhole_collection.py:151-202 | Two vertical stations at depths 0 <= d1 <= d2, with any azimuths, give the collar's X and Y and Z from z - d2 to z. A collar at elevation 100 with stations at 5 and 15 gives Z [85, 100]. |
| `Trajectory.TrajectoryStep` | packages/common/src/evo/data_converters/common/objects/downhole_collection/downhole_collection.py:185-193 | Each trajectory point is the previous point plus that segment's increment, so the points after the collar are the running sums of the increments. |
| `Trajectory.NorthTrajectory` | packages/common/src/evo/data_converters/common/objects/downhole_collection/downhole_collection.py:170-188 | A horizontal segment (dip 90) of length d at a due-north azimuth ends d north of the collar, with easting and elevation unchanged. |
| `Trajectory.HorizontalNorthScenario` | packages/common/src/evo/data_converters/common/objects/downhole_collection/downhole_collection.py:170-202 | One station at depth d >= 0, dip 90 and a due-north azimuth (sine 0, cosine 1, as azimuth 0 has) gives Y from y to y + d; X and Z stay at the collar. |
| `Trajectory.EastTrajectory` | packages/common/src/evo/data_converters/common/objects/downhole_collection/downhole_collection.py:170-188 | A horizontal segment of length d at a due-east azimuth ends d east of the collar, along +X, with northing and elevation unchanged. |
| `Trajectory.HorizontalEastScenario` | packages/common/src/evo/data_converters/common/objects/downhole_collection/downhole_collection.py:170-202 | One station at depth d >= 0, dip 90 and a due-east azimuth (sine 1, cosine 0, as azimuth 90 has) gives X from x to x + d; Y and Z stay at the collar. Azimuth is measured clockwise from north. |
| `Trajectory.HoleBoundingBox` | packages/common/src/evo/data_converters/common/objects/downhole_collection/downhole_collection.py:190-202 | Every per-hole box contains its collar and has min <= max on every axis, whatever the survey rows hold. |
| `Trajectory.HoleBoxIsTightAroundTrajectory` | packages/common/src/evo/data_converters/common/objects/downhole_collection/downhole_collection.py:185-202 | The per-hole box contains every trajectory point, and each bound is reached by some point. |
| `Trajectory.HoleWithoutSurveyHasCollarBox` | packages/common/src/evo/data_converters/common/objects/downhole_collection/downhole_collection.py:190-193 | A hole with no complete row gets the degenerate box of its collar. |
| `Boxes.BoxOf` | packages/common/src/evo/data_converters/common/objects/downhole_collection/downhole_collection.py:195-202 | The per-axis min/max of a non-empty point list contains every point, is proper, and each bound is some point's coordinate. |
| `Extrema.Least` | packages/common/src/evo/data_converters/common/objects/downhole_collection/downhole_collection.py:214-219 | The min of a non-empty sequence occurs in it and is below every element. |
| `Extrema.Greatest` | packages/common/src/evo/data_converters/common/objects/downhole_collection/downhole_collection.py:215-220 | The max of a non-empty sequence occurs in it and is above every element. |
| `Boxes.BoxOfPair` | packages/common/src/evo/data_converters/common/objects/downhole_collection/downhole_collection.py:195-202 | The box of two points spans them on every axis: min and max of each coordinate. |
| `Boxes.CombineBoundingBoxes` | packages/common/src/evo/data_converters/common/objects/downhole_collection/downhole_collection.py:211-221 | An empty list is an error (ValueError). Otherwise the result is the box of the per-axis minima of the lower bounds and maxima of the upper bounds: it encloses every input, each bound is some input's bound, and the result is proper when every input is. |
| `Boxes.CombineDependsOnlyOnElements` | packages/common/src/evo/data_converters/common/objects/downhole_collection/downhole_collection.py:214-221 | The result depends only on which boxes are given, not on their order or repetition. |
| `Boxes.CombineIsOrderIndependent` | packages/common/src/evo/data_converters/common/objects/downhole_collection/downhole_collection.py:214-221 | Any permutation of the input gives the same result. |
| `Boxes.CombineIsAssociative` | packages/common/src/evo/data_converters/common/objects/downhole_collection/downhole_collection.py:214-221 | Combining a concatenation equals combining the two partial results. |
| `Tables.DepthValues` | packages/common/src/evo/data_converters/common/objects/downhole_collection/downhole_collection.py:243 | `get_depth_values(filter_to_hole_index=...)`: the depth cells of the table's rows for that hole, in table order. |
| `Tables.DipValues` | packages/common/src/evo/data_converters/common/objects/downhole_collection/downhole_collection.py:244 | `get_dip_values(...)`: the dip cells of that hole's rows, in table order. |
| `Tables.AzimuthValues` | packages/common/src/evo/data_converters/common/objects/downhole_collection/downhole_collection.py:245 | `get_azimuth_values(...)`: the azimuth cells of that hole's rows, in table order. |
| `Collection.HoleBox` | packages/common/src/evo/data_converters/common/objects/downhole_collection/downhole_collection.py:243-253 | The box of one collar against one table: `_compute_hole_bounding_box` on the collar's coordinates and that hole's depth, dip and azimuth cells. It contains the collar and is proper. |
| `Collection.PairBoxes` | packages/common/src/evo/data_converters/common/objects/downhole_collection/downhole_collection.py:238-254 | The boxes the nested loops append: for each table in order, one box per collar in collar order. |
| `Collection.PairBoxesLength` | packages/common/src/evo/data_converters/common/objects/downhole_collection/downhole_collection.py:238-254 | The nested loops produce one box per (table, collar) pair. |
| `Collection.TableBoxesMembers` | packages/common/src/evo/data_converters/common/objects/downhole_collection/downhole_collection.py:240-254 | A box comes from one table exactly when it is that table's box against some collar. |
| `Collection.PairBoxesMembers` | packages/common/src/evo/data_converters/common/objects/downhole_collection/downhole_collection.py:238-254 | A box is produced if and only if it is the box of some table against some collar. |
| `Collection.DownholeCollection.CollectTableBoxes` | packages/common/src/evo/data_converters/common/objects/downhole_collection/downhole_collection.py:240-254 | The inner loop appends one box per collar, in collar order. |
| `Collection.CombinedOrEmpty` | packages/common/src/evo/data_converters/common/objects/downhole_collection/downhole_collection.py:256 | `combine(bboxes) if bboxes else []` as a list: empty exactly when there is no box, otherwise six values, the bounds of the combined box. |
| `Collection.BoundingBox` | packages/common/src/evo/data_converters/common/objects/downhole_collection/downhole_collection.py:234-256 | The collection's box: the pair boxes of the distance tables against all collars, combined, or `[]`; it has either no value or six. |
| `Collection.DownholeCollection.GetBoundingBox` | packages/common/src/evo/data_converters/common/objects/downhole_collection/downhole_collection.py:234-256 | The method computes the collection's box as specified by `BoundingBox`. Only distance tables are used, every collar is paired with every one of them, and the result is `[]` when there are no boxes. |
| `Collection.BoundingBoxShape` | packages/common/src/evo/data_converters/common/objects/downhole_collection/downhole_collection.py:234-256 | The result is `[]` if and only if there is no collar or no distance table. Otherwise it has six values with min <= max on every axis. |
| `Collection.BoundingBoxEnclosesEveryHole` | packages/common/src/evo/data_converters/common/objects/downhole_collection/downhole_collection.py:238-256 | The result encloses the box of every distance table against every collar, and so contains every collar. |
| `Collection.BoundingBoxIgnoresIntervalTables` | packages/common/src/evo/data_converters/common/objects/downhole_collection/downhole_collection.py:235 | Appending an interval table leaves the result unchanged. |
| `Collection.BoundingBoxDependsOnlyOnTables` | packages/common/src/evo/data_converters/common/objects/downhole_collection/downhole_collection.py:234-256 | The result depends only on which tables are held, not on their order or repetition. |
| `Collection.BoundingBoxIsOrderIndependent` | packages/common/src/evo/data_converters/common/objects/downhole_collection/downhole_collection.py:234-256 | Reordering the measurement tables does not change the result. |
| `Collection.CollectionScenario` | packages/common/src/evo/data_converters/common/objects/downhole_collection/downhole_collection.py:234-256 | One collar and one distance table whose rows for that hole are two vertical stations at depths 0 <= d1 <= d2 give [x, x, y, y, z - d2, z]. A collar at (0, 0, 100) with rows at 5 and 15 gives [0, 0, 0, 0, 85, 100]. |

## Left out

- Collection metadata is not modelled: name, uuid, coordinate reference system, description,
  tags and extensions. It has no behaviour in this file.
- The adapter classes, `MeasurementTableFactory`, `ColumnMapping` and `HoleCollars` (tables.py,
  column_mapping.py, hole_collars.py) are not part of this model. An adapter is a variant tag plus
  rows. The factory and the default mapping are a parameter (`Factory`). A DataFrame and a
  mapping are opaque maps handed to that parameter.
- `Collection.DownholeCollection.AddMeasurementTable`, `Collection.DownholeCollection.constructor`,
  `Collection.DownholeCollection.GetBoundingBox`: the table factory and the adapter queries never
  fail in the model. In the source, `create` (line 101) can raise, so nothing is appended and the
  constructor's loop (lines 83-84) stops part way. `_prepare_dataframe` and the `get_*_values`
  calls (lines 239 and 243-245) can raise too. Those exceptions are not modelled.
- `_prepare_dataframe` (line 239) is a caching step inside the adapter and is not modelled.
- `isinstance` knows only the base class and the two variants. User-defined subclasses are not
  modelled.
- Adapters are values, so object identity and aliasing between the list and the caller are not
  captured. "Stored as is" means equal as a value.
- `measurements=None` and `measurements=[]` are both an empty input sequence.
- IEEE floating point is not modelled: NaN propagation through min/max, `astype(float)`, and
  rounding in the cumulative sums. Coordinates are exact reals, and missing cells are `None`.
- The actual values of `sin`, `cos` and `deg2rad` are not modelled. Trigonometry is the
  `Trig` parameter.
- `SortByDepth` is a stable insertion sort. pandas' default `sort_values` (quicksort) does not
  promise stability, so for rows of equal depth the source may pair a different row's dip and
  azimuth with the non-zero step.
- Building the frame from the three per-hole series aligns them by pandas index. The model pairs
  them by position and reads a shorter series as missing. The three series come from the same
  table rows, so they have the same length.
- `GetBoundingBox` runs the inner loop over collars in the helper method `CollectTableBoxes`.
  The order of the appended boxes is the same as in the source's nested loop.
