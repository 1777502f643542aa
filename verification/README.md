# Air-quality drone: a Dafny model

This project models the core of an air-quality mapping system in two parts.

The first part is the drone planner (aqmaps). It orders the sensors to visit with 2-opt on a matrix of leg lengths. It then flies to each sensor in turn with a bounded beam search over 10-degree moves. A move is legal only if it crosses no edge of a no-fly zone. The legs are finally joined into one flight line. The model covers these pieces:

- the no-fly-zone crossing test;
- the search path records (`Path`);
- the sensor records and their GeoJSON markers.

The second part is the heat-map generator (heatmap). It turns up to ten lines of comma-separated predictions into coloured rectangles of a 10 x 10 grid. It maps each value to one of eight colours in buckets of 32.

Modules, one per file:

- `Planar`: points, lines ax + by + c = 0, Cramer's-rule intersection, and bounding boxes with a tolerance.
- `GeoJson`: features, point and polygon geometries, and string and number properties.
- `NoFlyZone`: `NoFlyZone.isCrossedByMove`. The edge test comes in two versions, chosen by an `EdgeTest` argument:
  - `AsWritten`: the code's test (`EdgeCrossedAsWritten`);
  - `Completed`: the corrected test (`EdgeCrossed`; see Findings).
- `Paths`: `Path`.
- `Frontier`: sorted sequences and the capped merge of two sorted queues.
- `BeamSearch`: `Drone.findPath`.
- `Tour`: `Drone.twoOpt` and the distance matrix and rotation of `Drone.selectVistOrder`.
- `Drone`: `Drone.checkMoveLegality` and `Drone.visitSensors`.
- `Sensors`: `Sensor`.
- `Heatmap`: the heat-map `App`. This includes the parts of `Integer.parseInt`, `String.strip` and `String.split` that it relies on.

Coordinates are Dafny reals. The trigonometric step and the Euclidean distance are passed in as functions (`StepFn`, `DistanceFn`). The model therefore makes no claim about floating-point rounding.

Two facts of the code shape the model:

- `checkMoveLegality` has no confinement-area test. Drone.java line 242 leaves it as a TODO, so the model has none either.
- `findPath` does not filter routes by `maxMoves`. The filter at Drone.java line 78 is commented out, so the model has no such filter.

Which members use which edge test:

- `NoFlyZone.IsCrossedByMoveWithOffset`, `NoFlyZone.IsCrossedByMove`, `NoFlyZone.Crosses` and `NoFlyZone.CrossesMonotone` take the test as an argument. They hold for both tests.
- `Drone.CheckMoveLegalityAsWritten` is the code's `checkMoveLegality`. `Drone.LegalAsWrittenIsZoneScan` shows it equals `Drone.Legal(AsWritten, ...)`.
- `Drone.CheckMoveLegality` uses the completed test only.
- `Drone.DroneMover` and `Drone.VisitSensors` take the test as an argument. With `AsWritten` they fly the program's legality test, and with `Completed` the corrected one.

## Model

| member | source | states |
|---|---|---|
| Planar.Intersection | C2/aqmaps/src/main/java/uk/ac/ed/inf/aqmaps/NoFlyZone.java:62-64 | the point computed from the two line equations lies on both lines whenever they are not parallel |
| Planar.IntersectionUnique | C2/aqmaps/src/main/java/uk/ac/ed/inf/aqmaps/NoFlyZone.java:62-64 | no other point lies on both non-parallel lines, so the crossing test examines the one true meeting point |
| Planar.AlongInBox | C2/aqmaps/src/main/java/uk/ac/ed/inf/aqmaps/NoFlyZone.java:66-69 | every point between a segment's ends passes that segment's box test, for any non-negative tolerance |
| NoFlyZone.LineThrough | C2/aqmaps/src/main/java/uk/ac/ed/inf/aqmaps/NoFlyZone.java:35-37 | both coefficients of the line through two points vanish exactly when the points coincide |
| NoFlyZone.LineThroughEndpoints | C2/aqmaps/src/main/java/uk/ac/ed/inf/aqmaps/NoFlyZone.java:35-37 | the line built from two points passes through both of them |
| NoFlyZone.IsCrossedByMoveWithOffset | C2/aqmaps/src/main/java/uk/ac/ed/inf/aqmaps/NoFlyZone.java:26-84 | under either edge test (the code's, or the corrected one of Findings), reports a crossing iff some edge between consecutive boundary points passes that test; a boundary of fewer than two points is never crossed |
| NoFlyZone.IsCrossedByMove | C2/aqmaps/src/main/java/uk/ac/ed/inf/aqmaps/NoFlyZone.java:15-19 | the public overload decides the same crossing relation, under either edge test, with tolerance 1e-10 |
| NoFlyZone.CrossesMonotone | C2/aqmaps/src/main/java/uk/ac/ed/inf/aqmaps/NoFlyZone.java:66-69 | under either edge test, widening the tolerance never turns a crossing into a miss |
| NoFlyZone.TouchingRingEdgeCrosses | C2/aqmaps/src/main/java/uk/ac/ed/inf/aqmaps/NoFlyZone.java:62-71 | under either edge test, a move that shares a point with a non-parallel edge of the zone is reported as crossing |
| NoFlyZone.ParallelCrossingIsCollinear | C2/aqmaps/src/main/java/uk/ac/ed/inf/aqmaps/NoFlyZone.java:72-77 | a crossing reported for parallel lines puts both edge endpoints on the move's line |
| NoFlyZone.EdgeCrossedSymmetric | C2/aqmaps/src/main/java/uk/ac/ed/inf/aqmaps/NoFlyZone.java:62-77 | the corrected edge test does not depend on which segment is the move and which the edge, when both are proper segments or both are points |
| NoFlyZone.MoveAlongEdgeCrosses | C2/aqmaps/src/main/java/uk/ac/ed/inf/aqmaps/NoFlyZone.java:72-77 | a move lying on an edge between its endpoints is reported by the corrected test |
| NoFlyZone.AsWrittenMissesInteriorMove | C2/aqmaps/src/main/java/uk/ac/ed/inf/aqmaps/NoFlyZone.java:72-77 | as written, a move lying strictly inside an edge, with neither edge endpoint in the move's box, is not reported |
| NoFlyZone.AsWrittenMissesMoveAlongEdge | C2/aqmaps/src/main/java/uk/ac/ed/inf/aqmaps/NoFlyZone.java:72-77 | on the edge from p to p+(3,0), the move from p+(1,0) to p+(2,0) is missed as written, and found with the roles swapped or by the corrected test |
| NoFlyZone.AsWrittenImpliesCompleted | C2/aqmaps/src/main/java/uk/ac/ed/inf/aqmaps/NoFlyZone.java:72-77 | everything the code as written reports for one edge, the corrected test reports too |
| NoFlyZone.CrossesAsWrittenImpliesCompleted | C2/aqmaps/src/main/java/uk/ac/ed/inf/aqmaps/NoFlyZone.java:26-84 | every zone the code reports as crossed, the corrected scan reports as crossed too |
| NoFlyZone.ParallelCrossingIsEndpointOnSegment | C2/aqmaps/src/main/java/uk/ac/ed/inf/aqmaps/NoFlyZone.java:72-77 | for a proper move and edge on parallel lines, the code reports a crossing iff an edge endpoint lies on the move's line within the move's box; the corrected test also iff a move endpoint lies on the edge's line within the edge's box |
| NoFlyZone.CommonPointCoincident | C2/aqmaps/src/main/java/uk/ac/ed/inf/aqmaps/NoFlyZone.java:72-73 | two parallel lines through a common point pass both coincidence cross-checks |
| NoFlyZone.PointMoveCrossesOnlyOnEdgeLine | C2/aqmaps/src/main/java/uk/ac/ed/inf/aqmaps/NoFlyZone.java:72-77 | at tolerance 0 the corrected test reports a zero-length move only from a point on the edge's line |
| Drone.DroneLineNegated | C2/aqmaps/src/main/java/uk/ac/ed/inf/aqmaps/Drone.java:256-262 | the drone's line coefficients are those of the zone test negated |
| Drone.NegatedLinesAgree | C2/aqmaps/src/main/java/uk/ac/ed/inf/aqmaps/Drone.java:265-267 | negating both lines changes neither the determinant, nor coincidence, nor the intersection point |
| Drone.EdgeBlocksMoveAsWrittenIsZeroOffset | C2/aqmaps/src/main/java/uk/ac/ed/inf/aqmaps/Drone.java:265-282 | the drone's inner edge test is the zone's written test with zero tolerance |
| Drone.CheckMoveLegalityAsWritten | C2/aqmaps/src/main/java/uk/ac/ed/inf/aqmaps/Drone.java:237-287 | a move is legal iff no edge of any zone blocks it under the written test |
| Drone.LegalAsWrittenIsZoneScan | C2/aqmaps/src/main/java/uk/ac/ed/inf/aqmaps/Drone.java:244-287 | the written legality test is exactly "no zone is crossed under the written edge test at zero tolerance" |
| Drone.CheckMoveLegality | C2/aqmaps/src/main/java/uk/ac/ed/inf/aqmaps/Drone.java:237-287 | corrected: a move is legal iff it crosses no zone under the corrected edge test at zero tolerance |
| Drone.LegalMoveIsLegalAsWritten | C2/aqmaps/src/main/java/uk/ac/ed/inf/aqmaps/Drone.java:276-282 | every move legal under the corrected test is legal as written |
| Drone.AsWrittenAllowsMoveAlongEdge | C2/aqmaps/src/main/java/uk/ac/ed/inf/aqmaps/Drone.java:276-280 | a move along the interior of a zone edge is legal as written but illegal under the corrected test |
| Drone.JoinLegs | C2/aqmaps/src/main/java/uk/ac/ed/inf/aqmaps/Drone.java:47-54 | the flight line starts at the start position, has one point per move of every leg plus one, and ends with the tail of the last leg |
| Drone.JoinLegsEnd | C2/aqmaps/src/main/java/uk/ac/ed/inf/aqmaps/Drone.java:47-54 | the joined line ends where the last leg ends |
| Drone.JoinLegsMoves | C2/aqmaps/src/main/java/uk/ac/ed/inf/aqmaps/Drone.java:47-54 | joining chained legs made of legal moves gives a line made of legal moves |
| Drone.JoinLegsPassesEnds | C2/aqmaps/src/main/java/uk/ac/ed/inf/aqmaps/Drone.java:47-54 | every leg's end point appears on the joined line |
| Drone.TotalMovesAtLeast | C2/aqmaps/src/main/java/uk/ac/ed/inf/aqmaps/Drone.java:50-54 | n legs of at least one move each contribute at least n moves |
| Drone.AppendLeg | C2/aqmaps/src/main/java/uk/ac/ed/inf/aqmaps/Drone.java:45 | appending the leg home keeps the legs chained and made of legal moves |
| Drone.SensorLegs | C2/aqmaps/src/main/java/uk/ac/ed/inf/aqmaps/Drone.java:36-44 | one leg per sensor in visiting order, each starting where the previous ended, each of at least one legal move, each ending within read distance of its sensor |
| Drone.EverySensorRead | C2/aqmaps/src/main/java/uk/ac/ed/inf/aqmaps/Drone.java:38-44 | every sensor, not only the visited order, has a point of the line within read distance |
| Drone.SensorIsVisited | C2/aqmaps/src/main/java/uk/ac/ed/inf/aqmaps/Drone.java:194-196 | every sensor index occurs in the visiting order |
| Drone.VisitSensors | C2/aqmaps/src/main/java/uk/ac/ed/inf/aqmaps/Drone.java:31-60 | for the code's legality test or the corrected one: the flight line starts at the start position, is made of moves legal under that test, ends within the ending distance of the start, passes within read distance of every sensor and has at least one move per sensor |
| Drone.FlyInOrder | C2/aqmaps/src/main/java/uk/ac/ed/inf/aqmaps/Drone.java:36-54 | for a fixed visiting order of the sensors: the flight line starts at the start position, is made of the mover's legal moves, ends within the ending distance of the start, passes within read distance of every sensor and has at least one move per sensor |
| BeamSearch.Compare | C2/aqmaps/src/main/java/uk/ac/ed/inf/aqmaps/Drone.java:90-102 | the comparator returns -1, 0 or 1, negative exactly when the first route's estimate is smaller and positive exactly when it is larger |
| BeamSearch.CompareIsKeyOrder | C2/aqmaps/src/main/java/uk/ac/ed/inf/aqmaps/Drone.java:139 | the merge's "comparator below zero" test is strict order on the estimate key |
| BeamSearch.MovesFrom | C2/aqmaps/src/main/java/uk/ac/ed/inf/aqmaps/Drone.java:121-130 | every candidate is the polled route extended by one legal move at an allowed angle |
| BeamSearch.MovesFromComplete | C2/aqmaps/src/main/java/uk/ac/ed/inf/aqmaps/Drone.java:121-130 | every legal move at an allowed angle is among the candidates |
| BeamSearch.MovesFromEmpty | C2/aqmaps/src/main/java/uk/ac/ed/inf/aqmaps/Drone.java:121-130 | with no legal move at any allowed angle there are no candidates |
| BeamSearch.NextFrontier | C2/aqmaps/src/main/java/uk/ac/ed/inf/aqmaps/Drone.java:113-146 | the next search space is sorted and holds min(100, unpolled routes + candidates) routes drawn from the unpolled routes and the polled one's candidates; no route left out has a smaller estimate than a kept one; each kept route is an unpolled route or an extension of the polled one |
| BeamSearch.NextFrontierValid | C2/aqmaps/src/main/java/uk/ac/ed/inf/aqmaps/Drone.java:113-146 | a round keeps every route a valid route from the start |
| BeamSearch.NoFirstMoveEndsSearch | C2/aqmaps/src/main/java/uk/ac/ed/inf/aqmaps/Drone.java:121-146 | if the start has no legal move the search space empties after the first round |
| BeamSearch.FindPath | C2/aqmaps/src/main/java/uk/ac/ed/inf/aqmaps/Drone.java:87-151 | a found route starts at the start, is made of legal moves, ends within the accepted error of the goal and has more than the minimum number of moves; an accepted start is returned as is; a start with no legal move gives no route |
| Frontier.Insert | C2/aqmaps/src/main/java/uk/ac/ed/inf/aqmaps/Drone.java:129 | adding to a queue keeps it sorted by estimate and adds exactly that one element |
| Frontier.SortBy | C2/aqmaps/src/main/java/uk/ac/ed/inf/aqmaps/Drone.java:119-130 | the move queue is sorted and holds exactly the candidates |
| Frontier.MergeAll | C2/aqmaps/src/main/java/uk/ac/ed/inf/aqmaps/Drone.java:136-144 | the uncapped merge holds exactly the elements of both queues |
| Frontier.MergeAllSorted | C2/aqmaps/src/main/java/uk/ac/ed/inf/aqmaps/Drone.java:136-144 | merging two sorted queues by their heads gives a sorted queue |
| Frontier.MergeIsPrefix | C2/aqmaps/src/main/java/uk/ac/ed/inf/aqmaps/Drone.java:136-144 | the capped merge is the first min(limit, total) elements of the full merge |
| Frontier.MergeKeepsBest | C2/aqmaps/src/main/java/uk/ac/ed/inf/aqmaps/Drone.java:134-146 | the capped merge keeps min(limit, total) elements, is sorted, takes only elements of the two queues, and no dropped element has a smaller estimate than a kept one |
| Paths.NewPath | C2/aqmaps/src/main/java/uk/ac/ed/inf/aqmaps/Path.java:16-22 | a new path has no cost, the distance to the goal as heuristic, and no positions or angles |
| Paths.Extend | C2/aqmaps/src/main/java/uk/ac/ed/inf/aqmaps/Path.java:24-37 | an extension moves by the step, keeps the goal, adds the move length to the cost, recomputes the heuristic and appends one position and one angle |
| Paths.AllPositions | C2/aqmaps/src/main/java/uk/ac/ed/inf/aqmaps/Path.java:39-46 | the positions list has one entry per move and ends with the current position |
| Paths.AllMoveAngles | C2/aqmaps/src/main/java/uk/ac/ed/inf/aqmaps/Path.java:48-55 | the angles list has one entry per move |
| Paths.EndPosition | C2/aqmaps/src/main/java/uk/ac/ed/inf/aqmaps/Path.java:57-59 | the end position is the last listed position, and a root lists none |
| Paths.CompareTo | C2/aqmaps/src/main/java/uk/ac/ed/inf/aqmaps/Path.java:65-73 | the comparison is -1, 0 or 1 exactly as cost plus heuristic is smaller, equal or larger |
| Paths.CompareToAntisymmetric | C2/aqmaps/src/main/java/uk/ac/ed/inf/aqmaps/Path.java:65-73 | swapping the arguments negates the comparison |
| Paths.CompareToTransitive | C2/aqmaps/src/main/java/uk/ac/ed/inf/aqmaps/Path.java:65-73 | the comparison is transitive, strictly so when one step is strict |
| Paths.ExtendAllConsistent | C2/aqmaps/src/main/java/uk/ac/ed/inf/aqmaps/Path.java:24-37 | repeated extension keeps the goal and keeps every cost and heuristic consistent with the positions |
| Paths.ExtendAllLists | C2/aqmaps/src/main/java/uk/ac/ed/inf/aqmaps/Path.java:35-55 | repeated extension appends exactly the given angles and one position per angle |
| Paths.ExtendAllCost | C2/aqmaps/src/main/java/uk/ac/ed/inf/aqmaps/Path.java:24-33 | repeated extension adds one move length per angle to the cost |
| Paths.RootExtendAllCost | C2/aqmaps/src/main/java/uk/ac/ed/inf/aqmaps/Path.java:16-33 | a path's cost is its number of moves times the move length |
| Sensors.NewSensor | C2/aqmaps/src/main/java/uk/ac/ed/inf/aqmaps/Sensor.java:30-32 | the short constructor stores its arguments, no marker symbol, colour #aaaaaa and size medium |
| Sensors.SetMarkerColor | C2/aqmaps/src/main/java/uk/ac/ed/inf/aqmaps/Sensor.java:54-56 | only the marker colour changes |
| Sensors.SetMarkerSymbol | C2/aqmaps/src/main/java/uk/ac/ed/inf/aqmaps/Sensor.java:50-52 | only the marker symbol changes |
| Sensors.ToGeojsonFeature | C2/aqmaps/src/main/java/uk/ac/ed/inf/aqmaps/Sensor.java:59-69 | the feature is a point at the sensor with exactly size, location, rgb-string and marker-color, both colours equal to the marker colour, plus marker-symbol exactly when a symbol is set |
| Sensors.ReadMarker | C2/aqmaps/src/main/java/uk/ac/ed/inf/aqmaps/Sensor.java:59-69 | a marker read back from a feature has the feature's position and the colour held under both colour keys |
| Sensors.ReadMarkerRoundTrip | C2/aqmaps/src/main/java/uk/ac/ed/inf/aqmaps/Sensor.java:59-69 | reading a sensor's feature gives back its position, colour, size, location and symbol |
| Sensors.NewSensorFeature | C2/aqmaps/src/main/java/uk/ac/ed/inf/aqmaps/Sensor.java:30-32 | a freshly built sensor's feature is grey, medium and has no symbol |
| Sensors.RecolorChangesOnlyColor | C2/aqmaps/src/main/java/uk/ac/ed/inf/aqmaps/Sensor.java:54-56 | recolouring changes only the two colour properties of the feature |
| Sensors.SymbolChangesOnlySymbol | C2/aqmaps/src/main/java/uk/ac/ed/inf/aqmaps/Sensor.java:50-52 | setting or clearing the symbol adds, replaces or removes only the marker-symbol property of the feature |
| Tour.Identity | C2/aqmaps/src/main/java/uk/ac/ed/inf/aqmaps/Drone.java:207-210 | the initial tour visits 0, 1, ..., n-1 in order |
| Tour.PermutationDistinct | C2/aqmaps/src/main/java/uk/ac/ed/inf/aqmaps/Drone.java:206-232 | a tour never visits a stop twice |
| Tour.ReverseRange | C2/aqmaps/src/main/java/uk/ac/ed/inf/aqmaps/Drone.java:221-225 | the swap loop reverses exactly positions i..j and leaves the rest unchanged |
| Tour.ReversedPermutation | C2/aqmaps/src/main/java/uk/ac/ed/inf/aqmaps/Drone.java:221-225 | reversing a segment keeps the tour a permutation of the stops |
| Tour.PathCostReverse | C2/aqmaps/src/main/java/uk/ac/ed/inf/aqmaps/Drone.java:221-225 | with a symmetric matrix a reversed segment costs what it did before |
| Tour.ReversalCost | C2/aqmaps/src/main/java/uk/ac/ed/inf/aqmaps/Drone.java:217-225 | the reversal changes the tour cost by exactly the two new links minus the two old ones that the test compares |
| Tour.ImprovingReversalLowersCost | C2/aqmaps/src/main/java/uk/ac/ed/inf/aqmaps/Drone.java:217-225 | a reversal the test accepts strictly lowers the tour cost |
| Tour.Sweep | C2/aqmaps/src/main/java/uk/ac/ed/inf/aqmaps/Drone.java:216-225 | for one i, the tour stays a permutation; it is strictly cheaper when some reversal was made, and otherwise unchanged with no j passing the test |
| Tour.Pass | C2/aqmaps/src/main/java/uk/ac/ed/inf/aqmaps/Drone.java:214-228 | one pass keeps a permutation; it lowers the cost when it reports an improvement, and otherwise no reversal it tries improves the tour |
| Tour.TwoOpt | C2/aqmaps/src/main/java/uk/ac/ed/inf/aqmaps/Drone.java:206-232 | the result is a permutation of the stops, costs no more than the identity tour, and no reversal the test tries improves it |
| Tour.DroneIndex | C2/aqmaps/src/main/java/uk/ac/ed/inf/aqmaps/Drone.java:187-192 | the index found is the last position of the start point, or 0 when it is absent |
| Tour.VisitIndicesIsRotation | C2/aqmaps/src/main/java/uk/ac/ed/inf/aqmaps/Drone.java:194-196 | the visiting order followed by the start point is the tour rotated to end at the start point |
| Tour.VisitIndicesArePermutation | C2/aqmaps/src/main/java/uk/ac/ed/inf/aqmaps/Drone.java:194-196 | the visiting order holds every sensor index exactly once |
| Tour.CostMatrix | C2/aqmaps/src/main/java/uk/ac/ed/inf/aqmaps/Drone.java:173-184 | the matrix is square, symmetric, zero on the diagonal, and holds the leg length between each pair |
| Tour.SelectVisitOrder | C2/aqmaps/src/main/java/uk/ac/ed/inf/aqmaps/Drone.java:159-199 | the returned tour is a permutation of the n+1 stops that no tried reversal improves and that costs no more than the identity; the visiting order is that tour read from the stop after the drone's position; every sensor is visited exactly once, in that order |
| Heatmap.AirQualityColor | C1/heatmap/src/main/java/uk/ac/ed/inf/heatmap/App.java:92-111 | a value has a colour iff it is in [0, 256), and that colour is the palette entry of its 32-wide bucket |
| Heatmap.SameColorIffSameBucket | C1/heatmap/src/main/java/uk/ac/ed/inf/heatmap/App.java:92-111 | two readable values share a colour exactly when they share a bucket |
| Heatmap.ParseInt | C1/heatmap/src/main/java/uk/ac/ed/inf/heatmap/App.java:71 | an accepted string is an optional sign followed by digits, and its value fits in 32 bits |
| Heatmap.ParseIntRoundTrip | C1/heatmap/src/main/java/uk/ac/ed/inf/heatmap/App.java:71 | parsing the decimal text of any 32-bit integer gives it back |
| Heatmap.ParseIntRejectsWide | C1/heatmap/src/main/java/uk/ac/ed/inf/heatmap/App.java:71 | the decimal text of a value outside 32 bits is rejected |
| Heatmap.StripIsTrimmedInfix | C1/heatmap/src/main/java/uk/ac/ed/inf/heatmap/App.java:71 | stripping removes only leading and trailing whitespace, and what is left begins and ends with a non-whitespace character |
| Heatmap.StripEmptyIffBlank | C1/heatmap/src/main/java/uk/ac/ed/inf/heatmap/App.java:42 | a line strips to the empty string exactly when it is all whitespace |
| Heatmap.SplitAll | C1/heatmap/src/main/java/uk/ac/ed/inf/heatmap/App.java:47 | splitting gives at least one piece and no piece contains a comma |
| Heatmap.JoinSplitAll | C1/heatmap/src/main/java/uk/ac/ed/inf/heatmap/App.java:47 | joining the split pieces with commas gives back the line |
| Heatmap.SplitAllJoin | C1/heatmap/src/main/java/uk/ac/ed/inf/heatmap/App.java:47 | splitting comma-free pieces joined with commas gives back the pieces |
| Heatmap.JavaSplit | C1/heatmap/src/main/java/uk/ac/ed/inf/heatmap/App.java:47 | a line without a comma is one value; otherwise the values are the pieces minus trailing empty ones, and the last value is not empty |
| Heatmap.CellColor | C1/heatmap/src/main/java/uk/ac/ed/inf/heatmap/App.java:70-72 | an entry that yields a colour yields a palette colour |
| Heatmap.RowCellsMembership | C1/heatmap/src/main/java/uk/ac/ed/inf/heatmap/App.java:55 | a row's cells are exactly its columns below the grid width and the value count whose entries have a colour |
| Heatmap.RowsRead | C1/heatmap/src/main/java/uk/ac/ed/inf/heatmap/App.java:38-45 | the loop reads no more rows than the grid height and no more than there are lines |
| Heatmap.ReadRowsMembership | C1/heatmap/src/main/java/uk/ac/ed/inf/heatmap/App.java:38-47 | row r is read exactly when it is below the grid height and no line up to and including it is missing or blank; a read row holds the colours of that line's comma-separated values |
| Heatmap.GridCellsMembership | C1/heatmap/src/main/java/uk/ac/ed/inf/heatmap/App.java:55-81 | the cells drawn for a list of rows are exactly the coloured entries of each row below the grid width, at their own row and column |
| Heatmap.GridCellsOrdered | C1/heatmap/src/main/java/uk/ac/ed/inf/heatmap/App.java:38-81 | cells of successive rows come row by row, left to right |
| Heatmap.HeatmapMembership | C1/heatmap/src/main/java/uk/ac/ed/inf/heatmap/App.java:38-81 | a cell is drawn iff its row is read, its column is within the grid width and the row's values, and its entry parses to a value with a colour |
| Heatmap.HeatmapOrdered | C1/heatmap/src/main/java/uk/ac/ed/inf/heatmap/App.java:38-81 | cells come row by row, left to right, so no grid position is drawn twice, and all lie inside the 10 x 10 grid |
| Heatmap.CellRing | C1/heatmap/src/main/java/uk/ac/ed/inf/heatmap/App.java:59-63 | each rectangle is a closed ring of five positions with all four corners of its cell, lying within the cell |
| Heatmap.GridTilesArea | C1/heatmap/src/main/java/uk/ac/ed/inf/heatmap/App.java:18-31 | neighbouring cells share edges, and the grid spans exactly the confinement area |
| Heatmap.CellFeature | C1/heatmap/src/main/java/uk/ac/ed/inf/heatmap/App.java:64-75 | the rectangle feature carries the cell's ring and exactly the rgb-string, fill and fill-opacity properties |
| Heatmap.ProducedColor | C1/heatmap/src/main/java/uk/ac/ed/inf/heatmap/App.java:70-72 | a drawn cell's entry, stripped, parses to an integer in [0, 256), and the cell's colour is the palette entry of that integer's 32-wide bucket |
| Heatmap.FeaturesColoured | C1/heatmap/src/main/java/uk/ac/ed/inf/heatmap/App.java:70-76 | every output feature belongs to a drawn cell, has rgb-string and fill equal to its colour, and has opacity 0.75 |

## Left out

- Floating point: coordinates, costs and distances are exact reals. IEEE rounding, including the 1e-10 tolerance's purpose of absorbing rounding error, is not modelled.
- `Math.cos`, `Math.sin` and `Math.sqrt` are parameters (`StepFn`, `DistanceFn`). Contracts hold for any choice of them.
- BeamSearch.FindPath: the search runs for at most `fuel` rounds and answers `OutOfFuel` beyond that. The source loops until the queue empties or a route is accepted, and a search that never terminates is not modelled.
- Java's `PriorityQueue` does not fix the order of equal estimates. The model breaks ties by insertion order, so the particular route returned among equal estimates may differ.
- Tour.CostMatrix: the leg lengths that `selectVistOrder` gets from `findPath(...).length` are a parameter `legLength`. The method does not call the search for each pair, and a `null` search result (a crash in the source) is not modelled.
- Tour.TwoOpt: requires a square, symmetric, non-negative matrix, which is what its only caller builds. It uses unbounded integers, so 32-bit overflow of the link sums is not modelled.
- Drone.VisitSensors: it returns `None` where the source would dereference a `null` path. `sensor.visit()` and `Sensor.getPosition` are called by Drone.java but are not defined in the Sensor.java modelled here; the position is taken as (longitude, latitude) and visiting is not modelled.
- The drone's `maxMoves` field is stored but never read by the code, so it is not modelled.
- The aqmaps `App` (argument parsing, web-server reads, file output) and `What3WordsData` are not part of this model.
- Heatmap: file reading, console messages and the GeoJSON text output are not modelled. The input is a sequence of lines and the output a sequence of features.
- Heatmap.ParseInt: only ASCII digits are accepted. Java's `Integer.parseInt` also accepts other Unicode decimal digits.
- Heatmap.IsWhitespace: it covers the ASCII whitespace of `Character.isWhitespace`. The Unicode space separators are not included.
- NoFlyZone.EdgeCrossedSymmetric: symmetry is not proved when exactly one segment is a single point. A zero-length edge's line has all coefficients zero, so the code's coincidence and endpoint checks accept that point anywhere in the move's box, even off the move's line. The corrected test keeps this branch as the code has it. With the roles swapped, the point must lie on the edge's line.
- `NoFlyZone` objects wrap a GeoJSON polygon. The model keeps only the outer ring's coordinates.

## Findings

| source | as written | input that shows it | evidently intended | confidence | as-written member | corrected member |
|---|---|---|---|---|---|---|
| C2/aqmaps/src/main/java/uk/ac/ed/inf/aqmaps/NoFlyZone.java:72-77 | for a move on the same line as an edge, only the edge's endpoints are tested against the move's box | edge from (0,0) to (3,0), move from (1,0) to (2,0): the move lies on the edge but neither edge endpoint is in the move's box, so no crossing is reported | report a crossing whenever the two collinear segments overlap, which also needs the move's endpoints tested against the edge's box | not executed | NoFlyZone.AsWrittenMissesMoveAlongEdge | NoFlyZone.MoveAlongEdgeCrosses |
| C2/aqmaps/src/main/java/uk/ac/ed/inf/aqmaps/Drone.java:276-280 | the same one-sided collinear test decides move legality | zone boundary [(0,0), (3,0)], move from (1,0) to (2,0): judged legal although it runs along the zone's edge | a move along a zone edge is illegal | not executed | Drone.AsWrittenAllowsMoveAlongEdge | Drone.CheckMoveLegality |
