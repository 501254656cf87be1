# Verification of the positioning network

This project models the pure-C middle of the firmware for an ultra-wideband positioning
network, one gateway and several anchors, and proves what it is relied on for. `dafny verify
dfyconfig.toml` checks everything.

**Anchor survey.** The gateway enumerates the anchors, ranges every ordered pair, solves their
geometry and pushes the answer back. `SurveyTable` and `SurveyEdges` are its working set;
`Gateway` is the step machine as a transition system with its invariant, `GatewayRuns` bounds
every run, `GatewayOutcome` accounts for every node and for the persisted survey, and `GaugeRuns`
follows the operator's gauge to the solver. `RangeOutcome` and `ApplyOutcome` say what becomes of
each pair and each node, and `SurveyResult` what the result is worth. `GatewayMachine` is the same
machine as it runs, with mutable statics, proved to make exactly those transitions. `AnchorNode`
and `AnchorMachine` are the anchor's side in the same two forms. `SurveyNetwork` joins one gateway
and any anchors over a radio that loses, repeats, reorders and delays frames past their session,
with reboots at both ends, and proves that they agree.

**Geometry.** `LinearSolver` (elimination in place), `Trilateration` and `PlanarTrilateration`,
`Recovery` (when they succeed, and which answer is right), `Seeding`, `SeedingGauge` and
`SurveyLayout` (initial placement), `ExactSeed` (what it does with exact ranges), `ParameterMap`,
`Refinement` and `DampedSystem` (damped least squares with a pinned gauge), `TableCost` (its cost
in terms of the measurements), `CostDescent` and `DampedProgress` (why its steps go downhill, and
when it must improve a fit). Arithmetic is over the reals; the square root is a parameter, any
function that is a square root on non-negative numbers.

**Seats.** `SeatTable` (the table in place), `SeatRuns` (its invariant, allocation), `SeatTenancy`
and `SeatBeacons` (what a granted tag sees until its lease runs out).

**The rest.** `BeaconGuard` (wrapping time), `Samples`, `FilteredMean` and `BatchStats` (robust
statistics in integers), `Crc32` with `ByteRegister`, and `CalRecords` (integrity of a stored
record), `Wire`, `AposFrames` and `MacFrames` (both frame families), `FrameOffsets` (where their
fields lie).

The transition functions are the specification of the classes: a class method's contract equates
its new state with the function of its old state, and the properties are proved of the function.

## What the proofs found

- A SETPOS is accepted after the window's deadline, until something asks whether the window is
  open (`AnchorNode.SetPosOutsideWindow`), although the header says an anchor outside its window
  transmits nothing. Every frame that is not the survey's asks, so beside a live gateway, whose
  beacon is heard each superframe, that lasts about one superframe; with no such frame it lasts
  until a RANGE_CMD or the end of the session (`AnchorNode.LateSetPosTaken`).
- A RANGE_CMD or SETPOS does not only push the window's deadline out, as its comment says: it sets
  it to 60 s from now. In a window of 120 s a command at 1 s makes one at 62 s go unanswered
  (`AnchorNode.RenewalShortensExample`); `AnchorNode.CommandsAnswered` has the exact condition.
- Trilateration tolerates a tenth of the first radius, where a comment says of the smallest
  (`Recovery.Trilaterate3Succeeds`).
- The seed keeps the three gauge distances only if they close a triangle
  (`SeedingGauge.GaugeKeepsDistances`); otherwise the plane node is put on the x axis at a
  wrong distance.
- The beacon builder writes more than eleven slots without complaint, and no parser reads the
  result (`MacFrames.BeaconRoundTrip`).
- The `up` address of the gauge is compared in 32 bits but looked up in 16. The command takes
  65537 beside an origin of 1 (`GaugeRuns.WideUpExample`); the solver then refuses the gauge,
  exactly when the low 16 bits collide (`GaugeRuns.ResolvedGaugeIsValid`). It never refuses one
  whose `up` fits 16 bits, which the shell makes sure of (`GaugeRuns.GaugeIsAccepted`).
- The agreement of gateway and anchors needs two things the code does not ensure: sessions are
  never reused, which drawing them at random only makes likely, and no SURVEY_BEGIN of an earlier
  session reaches an anchor that has confirmed in the current one. Such a frame and a SETPOS of
  its session would replace confirmed coordinates (`SurveyNetwork.StaleBeginOverwrites`). Every
  other frame of an earlier session may arrive at any time, and the session tests reject it.
- After a silence of more than half the 32-bit range the beacon guard may forbid what is allowed,
  and never the reverse (`BeaconGuard.WrongExactlyWhen`).
- A comment in the seat code speaks of twelve seats; there are eleven, as the header says.

## Model

| member | source | states |
|---|---|---|
| SurveyTable.AddPeerKeeps | src/apos_table.c:50-89 | Registration keeps addresses and identifiers pairwise distinct, is refused as a duplicate exactly when a different board already holds the address, and otherwise changes that one row |
| SurveyTable.AddPeerTwice | src/apos_table.c:50-89 | A board that answers enumeration again keeps its row, and its later answer, at the same or another address, has the effect it would have had alone; only if another board holds that address does the first answer stand |
| SurveyTable.AddMeasKeeps | src/apos_table.c:91-118 | A report about two known anchors is always kept (the store never overflows), replaces an earlier one for the same ordered pair and leaves every other alone |
| SurveyTable.PairOfBijection | src/apos_gw.c:359-368 | Every cursor position below n(n-1) names an ordered pair of distinct nodes, and its own number |
| SurveyTable.PairIndexBijection | src/apos_gw.c:359-368 | Every ordered pair of distinct nodes is named by exactly one cursor position below n(n-1) |
| SurveyTable.KeysFit | src/apos_table.c:91-118 | Distinct ordered pairs of n anchors number at most n(n-1) |
| SurveyTable.Table.PutPeer | src/apos_table.c:50-89 | The in-place update of the peer rows and its answer, for every outcome |
| SurveyTable.Table.PutMeas | src/apos_table.c:91-118 | The in-place update of the measurement rows and its answer, for every outcome |
| SurveyTable.Table.IndexOfEui | src/apos_table.c:23-35 | Finds the first row of a board, or says there is none |
| SurveyTable.Table.IndexOfAddr | src/apos_table.c:37-48 | Finds the first row of an address, or says there is none |
| SurveyTable.Table.Clear | src/apos_table.c:15-21 | Leaves no peers and no measurements |
| SurveyEdges.Search | src/apos_table.c:121-138 | Finds the first stored measurement of an ordered pair that rests on enough samples and is positive |
| SurveyEdges.Symmetrise | src/apos_table.c:148-197 | Writes the edges of all unordered pairs in row order, cut off at the capacity |
| SurveyEdges.MissingPairs | src/apos_table.c:249-265 | Counts the unordered pairs measured in neither direction |
| SurveyEdges.EdgesAndHoles | src/apos_table.c:148-265 | Edges plus missing pairs are all n(n-1)/2 unordered pairs: each pair is one or the other |
| SurveyEdges.EdgesFitBuffer | src/apos_table.c:148-197 | Eight anchors never need more than the 28 edges there is room for |
| SurveyEdges.OrderDoesNotMatter | src/apos_table.c:121-197 | The edges depend on which measurements were stored, not on the order they arrived in |
| SurveyEdges.EdgeBounds | src/apos_table.c:140-197 | A two-way edge lies between its two distances with a deviation no larger than either (floored); a one-way edge is that distance with its deviation doubled; all are positive |
| SurveyEdges.MergeKeepsMisfit | src/apos_table.c:170-190 | Merging the two directions of a pair loses nothing a fit could use: at every distance the misfits of the two measurements and that of the merged edge, each in units of its deviation, differ by the same constant |
| SurveyEdges.Quality | src/apos_table.c:199-247 | The two quality figures are the largest reciprocal difference (-1 if there is none) and the largest deviation over all usable measurements, and the difference cannot overflow |
| LinearSolver.SwapKeepsSolutions | src/apos_geom.c:613-625 | Exchanging two equations keeps the solution set |
| LinearSolver.EliminateKeepsSolutions | src/apos_geom.c:626-636 | Subtracting a multiple of the pivot equation keeps the solution set |
| LinearSolver.ReduceColumn | src/apos_geom.c:602-637 | One column of elimination keeps the solution set and leaves nothing to read below the pivot, or finds every candidate pivot too small |
| LinearSolver.BackSubstitute | src/apos_geom.c:638-645 | Back substitution solves the triangular system without reading below the diagonal |
| LinearSolver.ClearingKeepsDominance | src/apos_geom.c:626-636 | If in each remaining column the diagonal outweighs everything beside it by the smallest pivot, clearing one column leaves the others so |
| LinearSolver.SolveDense | src/apos_geom.c:600-647 | When it succeeds the vector left in place solves the original system and is its only solution; it always succeeds on a matrix dominant by columns; when it fails, an equivalent system has a column without a large enough pivot |
| LinearSolver.UniqueIsRegular | src/apos_geom.c:600-647 | A system the solver can have succeeded on sends only the zero vector to zero |
| Trilateration.Trilaterate3Sound | src/apos_geom.c:86-140 | Both points returned are at the three radii, up to one excess common to the three squared distances, which is 0 unless the spheres just miss (within a tenth of the first radius) |
| Trilateration.Trilaterate3Complete | src/apos_geom.c:86-140 | Whenever a point at the three radii exists, the call succeeds, that point is one of the two returned, and both are exact |
| Trilateration.Trilaterate3Mirrored | src/apos_geom.c:86-140 | The two points are mirror images in the plane of the centres |
| PlanarTrilateration.Trilaterate2Sound | src/apos_geom.c:149-183 | Both points returned are at the two radii, up to a common excess that is 0 unless the circles just miss |
| PlanarTrilateration.Trilaterate2Complete | src/apos_geom.c:149-183 | Whenever a point at both radii exists, it is one of the two returned |
| PlanarTrilateration.Trilaterate2Mirrored | src/apos_geom.c:149-183 | The two points are mirror images in the line of the centres |
| Recovery.FrameIffSpanning | src/apos_geom.c:86-119 | A frame is found exactly when the first two centres are at least a micrometre apart and the third is at least that far from their line |
| Recovery.Trilaterate3Succeeds | src/apos_geom.c:86-140 | Trilateration in space answers if and only if the centres so span a plane and some point exceeds the three squared radii alike, by no more than a hundredth of the first: exact meetings and near misses, nothing else |
| Recovery.Trilaterate2Succeeds | src/apos_geom.c:149-183 | Likewise in the plane, for two centres at least a micrometre apart |
| Recovery.FourthTells | src/apos_geom.c:373-386 | A point on four spheres whose centres are not in one plane is found, and is the one of the two intersections of the first three that disagrees less with the fourth |
| Recovery.ThirdTells | src/apos_geom.c:327-340 | A point on three circles whose centres are not on one line is found, and is the one of the two intersections of the first two that disagrees less with the third |
| Seeding.GreedyExplained | src/apos_geom.c:476-516 | Turn by turn: each turn is taken by the untried unplaced node with the most placed neighbours, the first of equals; it is placed from those placed before it, or trilateration failed and it gets no second turn; at the end every node without a turn has too few placed neighbours |
| Seeding.PlacedAtRange3 | src/apos_geom.c:302-407 | A node placed in 3D is at the first three of its measured distances to placed neighbours, up to the common excess |
| Seeding.PlacedAtRange2 | src/apos_geom.c:302-407 | A node placed in 2D is at the first two of its measured distances and at z = 0 |
| SeedingGauge.SeedExplained | src/apos_geom.c:409-516 | The whole seed: the gauge by definition, every other placed node in an order that starts from the gauge alone, and everything at z = 0 in 2D |
| SeedingGauge.GaugeKeepsDistances | src/apos_geom.c:423-448 | The seed keeps the three measured gauge distances if and only if they close a triangle, and plane.y is positive if and only if they close a proper one |
| SeedingGauge.OpenTriangleExample | src/apos_geom.c:443-448 | Distances 1, 3, 1 do not close and the plane node is put at (4.5, 0, 0) |
| SeedingGauge.UpIsAbove | src/apos_geom.c:453-474 | The up node of a 3D gauge is never below the plane of the other three |
| SeedingGauge.GaugeLayoutIs | src/apos_geom.c:423-474 | Exactly the gauge nodes are placed, at their defining coordinates |
| ExactSeed.Place3Recovers | src/apos_geom.c:345-386 | A node at the exact distances of its first four placed neighbours, not in one plane, is placed exactly where it is |
| ExactSeed.Place2Recovers | src/apos_geom.c:309-340 | So is a node of the plane, from three neighbours not on one line |
| ExactSeed.Place3Guesses | src/apos_geom.c:387-406 | With exactly three neighbours a node is marked as a guess, at their distances and never on the other side of their plane than the placed nodes are on the whole; a true position strictly on that side is the one found |
| ExactSeed.Place2Guesses | src/apos_geom.c:341-345 | Likewise with exactly two neighbours in the plane, for the line through them |
| ExactSeed.GaugeIsRight | src/apos_geom.c:423-474 | From exact ranges of a layout in general position in the gauge's own frame, every gauge node is put where it is |
| ExactSeed.SeedIsRight | src/apos_geom.c:409-516 | From such ranges the whole seed puts every node where it is, as long as those it had to guess are, and leaves out only nodes with fewer than three (in 2D, two) ranges to the others |
| SurveyLayout.FindEdge | src/apos_geom.c:35-43 | Finds the first edge that joins two nodes, in either direction |
| SurveyLayout.ListNeighbours | src/apos_geom.c:231-258 | Lists the placed neighbours of a node in edge order, up to the capacity |
| SurveyLayout.FindBest | src/apos_geom.c:485-503 | Chooses the untried unplaced node with the most placed neighbours, the first of equals |
| SurveyLayout.Layout.SetNode | src/apos_geom.c:288-299 | Placing a node keeps the counters equal to the numbers of placed and of ambiguous nodes |
| SurveyLayout.Layout.PlaceFromNeighbours | src/apos_geom.c:302-407 | Places one node from its placed neighbours, or changes nothing |
| SurveyLayout.Layout.PlaceGauge | src/apos_geom.c:423-474 | Places the gauge nodes, or reports that they lack the edges |
| SurveyLayout.Layout.Seed | src/apos_geom.c:409-516 | Terminates with the greedy layout and exact counters; refuses exactly the invalid gauges, and reports missing data exactly when the gauge cannot be placed |
| ParameterMap.BuildMap | src/apos_geom.c:527-556 | Numbers the free coordinates node by node |
| ParameterMap.MapIsBijection | src/apos_geom.c:26-30 | The columns number exactly the free coordinates, each once, and there are as many as the formula says, at most 18 |
| ParameterMap.ApplyStep | src/apos_geom.c:649-663 | Moves each free coordinate by its own column of the step |
| ParameterMap.MovedIsPinned | src/apos_geom.c:649-663 | No step moves a pinned coordinate: the origin, the two off-axis coordinates of xaxis, z of plane, every z in 2D, and anything unplaced |
| Refinement.CostOf | src/apos_geom.c:573-594 | Computes the weighted sum of squared residuals of the usable edges |
| TableCost.EdgeCostIs | src/apos_geom.c:567-594 | What an edge costs times its variance is the square of its misfit in metres, for deviations of a tenth of a millimetre or more; smaller ones count as that |
| TableCost.CostIsTableMiss | src/apos_geom.c:567-594 | Lowering the cost of the merged edges is lowering, by exactly as much, the sum over all directed measurements of the squared misfit in units of its own deviation (of twice that, for a pair measured one way): the two differ by one constant over all layouts of the same placed anchors |
| Refinement.Assemble | src/apos_geom.c:898-944 | Fills the normal equations: each entry is the sum over the edges of products of gradients, each column touched once per edge |
| Refinement.Damp | src/apos_geom.c:946-955 | Raises each diagonal entry in proportion (by the damping itself where it is not positive) and changes nothing else |
| Refinement.Trial | src/apos_geom.c:898-967 | A trial layout is the current one moved by a step that solves the damped normal equations |
| Refinement.Descend | src/apos_geom.c:880-991 | Over all rounds either nothing changes or the cost ends strictly lower, and no pinned coordinate moves; if at one of the dampings from 0.001 to 10^12 the first step is found and improves the fit, the final cost is strictly lower |
| Refinement.Diagnose | src/apos_geom.c:790-843 | The RMS is over the usable edges and the worst residual is the largest of them |
| Refinement.Refine | src/apos_geom.c:845-995 | Refuses exactly the invalid gauges, reports no data exactly when no edge is usable, and otherwise leaves the layout as it was or strictly better, the latter where a reachable damping improves it, with everything pinned in place and its counters exact |
| Refinement.Solve | src/apos_geom.c:997-1006 | Seeding then refining succeeds exactly when the gauge is valid and can be placed; then the result fits no worse than the seed, the gauge is still where it was defined, and the RMS and worst residual are those of the result |
| Refinement.RefinedKeepsGauge | src/apos_geom.c:845-995 | A refined seed has origin at 0, xaxis on the x axis, plane at z = 0, unplaced nodes blank, and as many free parameters as the formula says |
| DampedSystem.NormalIsSemidefinite | src/apos_geom.c:898-944 | The undamped normal matrix is positive semidefinite, whatever the layout |
| DampedSystem.DampedIsDefinite | src/apos_geom.c:946-955 | With positive damping the matrix is positive definite |
| DampedSystem.DampedIsRegular | src/apos_geom.c:946-963 | So no positive damping leaves the system singular |
| DampedSystem.StepPointsDownhill | src/apos_geom.c:946-967 | Every step the damped system yields has a positive product with its right-hand side, unless that is zero |
| CostDescent.CostMajorised | src/apos_geom.c:898-955 | The right-hand side is the direction in which the cost falls: moving a layout along any step whatever changes the cost by at most the weighted squared strain of the edges, less twice the step's product with the right-hand side |
| DampedProgress.StrainBound | src/apos_geom.c:558-594 | The strain a step puts on the edges is at most twelve times its squared length times the sum of the edges' weights |
| DampedProgress.StepGains | src/apos_geom.c:946-963 | The product of a damped step with the right-hand side is at least the damping times its squared length, times the least diagonal entry the damping multiplies |
| DampedProgress.DampedStepImproves | src/apos_geom.c:946-977 | A step found with enough damping strictly lowers the cost wherever the right-hand side is not zero, so its trial is accepted |
| DampedProgress.DampedIsDominant | src/apos_geom.c:946-963 | With enough damping the system is dominant by columns, so the solver never finds it singular |
| DampedProgress.RaisingDampingSucceeds | src/apos_geom.c:957-990 | Wherever the right-hand side is not zero, from an explicit threshold on the solver finds a step and the step lowers the cost |
| DampedProgress.RefinementImproves | src/apos_geom.c:845-995 | So a layout whose right-hand side is not zero and whose threshold is within the cap of 10^12 is one that refining improves |
| CostDescent.BuiltMapMaps | src/apos_geom.c:527-556 | The parameter map that is built numbers coordinates below the parameter count, no two alike, as the descent results ask |
| Gateway.OnRangeRspStores | src/apos_gw.c:659-725 | A response is stored under the ordered pair at the cursor, which no earlier response has used |
| Gateway.OnRxKeeps | src/apos_gw.c:1190-1217 | Every received frame, of any content at any moment, keeps the invariant of the step machine |
| Gateway.StepKeeps | src/apos_gw.c:1274-1310 | Every step keeps it: distinct peers, measurements only of pairs already passed, the frame in flight is for the cursor, each node before the apply cursor counted once |
| Gateway.DoSolveKeeps | src/apos_gw.c:593-657 | After a solve, a result always has one node for each peer |
| Gateway.StartEnumKeeps | src/apos_gw.c:251-280 | Starting an enumeration keeps the invariant |
| Gateway.StartRunKeeps | src/apos_gw.c:418-452 | Starting a run keeps the invariant |
| Gateway.StartApplyKeeps | src/apos_gw.c:811-862 | Starting an apply keeps the invariant, the session, the table and the result |
| GatewayRuns.StepProgress | src/apos_gw.c:1274-1310 | A step past its deadline and with the time it asks for (the long budget for the solve and the flash write, the short one otherwise) lowers a weighted count of the work left; no other step raises it, and every transmission lowers it |
| GatewayRuns.AlwaysReturnsToIdle | src/apos_gw.c:1274-1310 | Over any run from a state with the invariant, however frames arrive and however many steps come early or short of time, the machine is idle once as many due steps have come as that count says, and it never tries more frames than that |
| GatewayRuns.TrafficIsBounded | src/apos_gw.c:727-807 | Over any run an ordered pair is commanded on the air at most twice (20 tries) and a node is sent its coordinates on the air at most four times (40 tries) |
| SurveyNetwork.EveryNodeIsCounted | src/apos_gw.c:986-1188 | After any run from power-up, the last apply has counted each node the cursor passed once, as taken, failed or skipped; the skipped ones are exactly as many as were never placed; and when it is over that is every node |
| GatewayOutcome.StepTallies | src/apos_gw.c:986-1188 | Every step of an apply keeps that tally, and the apply ends only past the last node |
| GatewayOutcome.RxTallies | src/apos_gw.c:939-984 | So does every received frame, and none ends the apply |
| GaugeRuns.SetGaugeDesignates | src/apos_gw.c:158-193 | The command accepts exactly three distinct non-zero addresses with an up that is unset or apart from them, and otherwise changes nothing |
| GaugeRuns.ResolvedGaugeIsValid | src/apos_gw.c:457-493 | A gauge so designated, once it resolves, is one the solver accepts if and only if up is unset or its low 16 bits are still apart from the other three |
| GaugeRuns.GaugeIsAccepted | src/apos_gw.c:158-657 | After any run from power-up the gauge that resolves is refused by the solver if and only if the low 16 bits of up are another gauge address; never while up fits 16 bits |
| GaugeRuns.WideUpExample | src/apos_gw.c:158-193 | An up of 65537 beside an origin of 1 is accepted, and resolves to the origin |
| GatewayOutcome.OnlyUnplacedAreSkipped | src/apos_gw.c:1104-1115 | A skipped node was not placed, and a placed node is never skipped |
| GatewayOutcome.RxCounts | src/apos_gw.c:939-984 | A success is counted only for the node at the cursor, on the word of its own anchor |
| GatewayOutcome.RxKeepsSurvey | src/apos_gw.c:1190-1217 | No received frame changes the result; peers are added only while enumerating, measurements only while ranging |
| GatewayOutcome.StepKeepsSurvey | src/apos_gw.c:1274-1310 | No step changes the table or the session, and none but a solve changes the result |
| GatewayOutcome.GaugeResolves | src/apos_gw.c:457-493 | The gauge resolves exactly when every address it names answered enumeration |
| GatewayOutcome.ResolvedRows | src/apos_gw.c:457-493 | When it does, the rows at origin, xaxis and plane hold the addresses so designated; the survey is in 2D if and only if up is -1, and otherwise the row at up holds its address |
| GatewayOutcome.EnumRspRegisters | src/apos_gw.c:284-357 | An answer to enumeration puts the anchor in the table as it describes itself unless eight others are there, and ends the survey exactly when another board holds its address |
| RangeOutcome.RangingStarts | src/apos_gw.c:1221-1272 | Ranging starts exactly after the third round of a run with three anchors (four in 3D), with nothing measured or counted yet |
| RangeOutcome.RangingEnds | src/apos_gw.c:740-772 | A ranging gateway leaves that phase by one way: all pairs passed and time for the solve. It then has a result if and only if the gauge resolves and the solver answered, which is the solver's with each placed node lifted by the height offset |
| RangeOutcome.RxKeepsRanging | src/apos_gw.c:659-725 | No received frame ends ranging, adds an anchor or makes a result |
| RangeOutcome.EveryPairSettled | src/apos_gw.c:659-807 | Over any run of frames and steps from the start of ranging to the solve, every ordered pair has a stored measurement, or had a response refused (under ten exchanges, or not positive), or was twice commanded in vain, or could not be transmitted ten times in a row |
| ApplyOutcome.EveryNodeSettled | src/apos_gw.c:986-1188 | Over any run from an apply to its end, every placed node has acknowledged its coordinates (taken or not), or let four timeouts pass, or could not be transmitted to ten times in a row; an unplaced one was sent nothing |
| SurveyResult.GaugeInResult | src/apos_gw.c:593-657 | In the result of a survey the anchor designated origin is at (0, 0, zoff), the one designated xaxis has y = 0 and z = zoff, the one designated plane has z = zoff, and in 2D so has every placed one |
| SurveyResult.AcceptedMeans | src/apos_gw.c:495-591 | A result is accepted if and only if every anchor was placed without a guess, the squared misses of the edges have a root mean below 50 mm, and no edge misses by more than three times that plus 50 mm |
| SurveyResult.LiftKeepsMiss | src/apos_gw.c:618-640 | Lifting the result changes no edge's miss |
| SurveyResult.TableIsExact | src/apos_table.c:121-197 | If every measurement that counts is the true distance, so is every edge |
| SurveyResult.ExactSurveyIsRight | src/apos_gw.c:593-657 | From exact ranges of anchors in general position, in the gauge's frame, an accepted survey gives every anchor where it is, lifted by the height offset |
| GatewayOutcome.SavedSurvey | src/apos_gw.c:873-937 | A survey is persisted exactly when the gauge resolves now and its origin was placed, and then starts with that origin |
| GatewayOutcome.SavedRows | src/apos_gw.c:873-937 | After the origin every other placed node follows in index order, each exactly once |
| GatewayMachine.Machine.OnRx | src/apos_gw.c:1190-1217 | The whole state after any received frame |
| GatewayMachine.Machine.StepEnum | src/apos_gw.c:1221-1272 | One enumeration step: a broadcast, the switch to ranging, or the end |
| GatewayMachine.Machine.FindGauge | src/apos_gw.c:457-493 | The gauge addresses as node indices, if all are known |
| GatewayMachine.Machine.RunSolver | src/apos_gw.c:602-617 | What the solver answers for the table as it stands: an answer if and only if the table's edges place the resolved gauge, and then a layout that refines the seed |
| GatewayMachine.Machine.DoSolve | src/apos_gw.c:593-657 | The result, its height shift and its acceptance |
| GatewayMachine.Machine.StepRange | src/apos_gw.c:740-807 | One ranging step: wait, retry, retire, command, or solve with an answer exactly when the table's edges place the gauge |
| GatewayMachine.Machine.SkipNodes | src/apos_gw.c:1104-1115 | Passes over the unplaced nodes, counting each |
| GatewayMachine.Machine.ListSurvey | src/apos_gw.c:899-921 | The two passes give the origin and then the other placed nodes in order |
| GatewayMachine.Machine.CollectSurvey | src/apos_gw.c:873-921 | The rows to persist, or none when the gauge does not resolve to a placed origin |
| GatewayMachine.Machine.PersistSurvey | src/apos_gw.c:873-937 | What is stored, and when nothing is |
| GatewayMachine.Machine.StepApply | src/apos_gw.c:986-1188 | One apply step: wait, retry, give up, re-open, send, persist or end |
| GatewayMachine.Machine.Step | src/apos_gw.c:1274-1310 | A step of the running gateway is the protocol model's transition for the answer the geometry solver gave, sends at most the one frame returned, and keeps the invariant |
| AnchorNode.RangingStaysInWindow | src/apos_node.c:452-475 | Over any timed run of frames, a ranging batch starts only with an open window and its own non-zero session, and never later after the last accepted gateway frame than the longer of the announced window and 60 s |
| AnchorNode.RangeCmdAnswered | src/apos_node.c:434-555 | A RANGE_CMD is answered if and only if it is from the gateway to this anchor, in the non-zero session of a window not past its deadline, about one of addresses 1 to 4 other than its own; the reply goes to the gateway in that session about that peer with the batch, and extends the window by 60 s |
| AnchorNode.SurveyBeginAnswered | src/apos_node.c:189-259 | A SURVEY_BEGIN is answered, with what the anchor knows of itself, if and only if it is from the gateway to this anchor, of a non-zero session, and the identifier is known; then the window is open for the announced time |
| AnchorNode.SetPosAnswered | src/apos_node.c:261-314 | A SETPOS is acknowledged if and only if it is from the gateway to this anchor in the session at hand; the coordinates are then in use, and in flash if and only if the acknowledgement says so |
| AnchorNode.CommandsAnswered | src/apos_node.c:84-119 | Over any run after an accepted SURVEY_BEGIN in which nothing ends or replaces the session, a proper RANGE_CMD is answered if and only if no question about the window, the last one its own, came later than the announced time or, once the session's first SETPOS or RANGE_CMD was heard, 60 s after the latest of those |
| AnchorNode.AnsweredAtFirst | src/apos_node.c:84-119 | So in such a run every proper RANGE_CMD is answered up to the announced time, or to 60 s if that is sooner |
| AnchorNode.RenewalShortensExample | src/apos_node.c:113-119 | In a window of 120 s a RANGE_CMD at 1 s makes one at 62 s go unanswered, which is answered without it |
| AnchorNode.SetPosOutsideWindow | src/apos_node.c:261-280 | A SETPOS takes effect with no window open if and only if it names the session of a window that has expired but was not asked about since (or session 0 with none open) |
| AnchorNode.LateSetPosTaken | src/apos_node.c:84-119 | Over any run of frames after the deadline that opens no window, a SETPOS of the session is still taken if and only if nothing closed the window before: no frame that is not the survey's, no RANGE_CMD of any session, no end of its own |
| AnchorNode.BeaconClosesExample | src/uwb_slave.c:354-368 | With session 5 and deadline 1000 a SETPOS at 2000 is taken, and is not once a beacon was heard at 1001 |
| AnchorNode.LateSetPosExample | src/apos_node.c:261-280 | A SETPOS one second past the deadline takes effect and re-opens the window |
| AnchorMachine.Node.OnRx | src/apos_node.c:557-600 | Any survey frame is dispatched as the protocol model says, and on any other frame the window is asked for |
| AnchorMachine.Node.HandleRangeCmd | src/apos_node.c:434-555 | The window tests, the batch measured, and the statistics reported of exactly that batch |
| SurveyNetwork.SurveyAgreement | src/apos_gw.c:939-1188 | Over whole runs with loss, duplication, reordering, frames of earlier sessions and reboots at both ends: all SETPOS frames to one address in one session agree; every node counted as taken is held by its anchor, in use and in flash; every stored measurement came from its initiator about its responder |
| SurveyNetwork.StaleBeginOverwrites | src/apos_node.c:189-314 | The one delivery left out of those runs: a SURVEY_BEGIN of an old session and then a SETPOS of it replace what an anchor has confirmed |
| SurveyNetwork.StaleIgnored | src/apos_gw.c:284-984 | No frame of another session changes the gateway |
| SurveyNetwork.NextKeeps | src/apos_gw.c:939-1188 | Every event of the network keeps the invariant behind the agreement |
| BatchStats.Stats | src/apos_node.c:344-432 | At least one exchange is kept, the mean is within 300 mm of the median, and the deviation is the exact floor root of the mean squared deviation (0 for a single one) and at most 300 |
| BatchStats.ScatterOfKept | src/apos_node.c:398-420 | The mean squared deviation from the truncated mean is at most 300 squared |
| BatchStats.MeanNearMedian | src/apos_node.c:373-398 | At least one exchange is kept and the truncated mean is within 300 mm of the median |
| BatchStats.KeptExactly | src/apos_node.c:373-396 | Each exchange is kept, as often as it occurs, if it is within 300 mm of the median, and no other is |
| BatchStats.FloorRoot | src/apos_node.c:417-427 | The counting loop finds the exact integer square root |
| BatchStats.Collect | src/apos_node.c:477-512 | The batch holds, in order, the exchanges that worked among those tried: no more than asked for or 64, and none started at or past the deadline |
| Samples.SortInPlace | src/cal_math.c:78-90 | Insertion sort in place |
| Samples.SortSorts | src/cal_math.c:78-90 | Sorting gives an ascending permutation |
| Samples.MajorityHoldsMedian | src/cal_math.c:92-95 | A range that holds more than half of the samples holds their median |
| FilteredMean.Compute | src/cal_math.c:97-140 | Answers for 1 to 128 samples and no others, always rests on more than half of them, and returns a mean that fits 32 bits whenever no intermediate value leaves them |
| FilteredMean.CloseSamplesAreSafe | src/cal_math.c:103-132 | No intermediate value leaves 32 bits for samples within 357,913,941 of each other |
| FilteredMean.MajorityIsKept | src/cal_math.c:97-140 | More than half of the samples are always kept, so the all-rejected answer is never given |
| FilteredMean.KeptExactly | src/cal_math.c:121-133 | Each sample is kept, as often as it occurs, if it is within six spreads of the median, and no other is |
| FilteredMean.SpreadIsMedian | src/cal_math.c:103-119 | The spread is the least distance from the median, 1 at least, within which half of the samples lie |
| FilteredMean.MeanIsRobust | src/cal_math.c:97-140 | If more than half of the samples lie in [lo, hi], the mean is at most six widths outside it, whatever the rest are |
| FilteredMean.SpreadOfMajority | src/cal_math.c:109-119 | If more than half of the samples lie in [lo, hi], the median absolute deviation is at most its width |
| Crc32.Compute | src/cal_math.c:5-18 | The nested loops compute the checksum |
| Crc32.ByteStepInjective | src/cal_math.c:10-16 | A byte step is injective in the register |
| Crc32.ByteStepSeparates | src/cal_math.c:10-16 | Four byte steps are injective in the four bytes |
| Crc32.BurstIsDetected | src/cal_math.c:5-18 | Messages of any length that differ only within four consecutive bytes have different checksums |
| Crc32.ResidueMeansValid | src/cal_math.c:5-18 | Four bytes after a message drive the register to one fixed value if and only if they are its checksum |
| Crc32.KnownAnswer | src/cal_math.c:146-149 | The check value of the standard for the digits 1 to 9 |
| CalRecords.CalRecord.Finalize | src/cal_math.c:23-30 | The record after finalising: its identity, its padding and its checksum |
| CalRecords.CalRecord.IsValid | src/cal_math.c:32-44 | When a record is accepted |
| CalRecords.FinalizedIsValid | src/cal_math.c:23-44 | A finalised record validates for its own radio option and no other |
| CalRecords.CorruptionIsRejected | src/cal_math.c:23-44 | Whatever happens to four consecutive bytes of a finalised record, the checksum included, it no longer validates |
| CalRecords.BytesOfFromBytes | src/cal_math.h:27-38 | Any 24 bytes are a record that lies in memory as those bytes |
| BeaconGuard.Guard.Beacon | src/beacon_guard.c:28-33 | A heard beacon re-anchors the prediction |
| BeaconGuard.Guard.TxAllowed | src/beacon_guard.c:35-57 | The loop rolls the prediction forward and answers |
| BeaconGuard.RunsAsUnbounded | src/beacon_guard.c:28-57 | Over any run of beacons and questions, 32-bit arithmetic gives the answers of unbounded time: everything until a beacon is heard, then whatever is clear of the five predicted windows, then everything |
| BeaconGuard.AskTracks | src/beacon_guard.c:35-57 | One question is answered as unbounded time would have it, and leaves a state that still tracks the last beacon |
| BeaconGuard.QuestionsDoNotMatter | src/beacon_guard.c:35-57 | After any number of questions a guard answers like one that has just heard the beacon, and stays locked exactly until the fifth window has passed |
| BeaconGuard.SignedDiffIsExact | src/beacon_guard.c:9-15 | The signed difference is the true difference for times less than half the range apart |
| BeaconGuard.AskIsAsSeen | src/beacon_guard.c:9-57 | However long ago the beacon was heard, a question is answered as unbounded time would answer it for the nearest time with the same 32 bits |
| BeaconGuard.WrongExactlyWhen | src/beacon_guard.c:9-57 | The answer differs from that of unbounded time if and only if the fifth window has passed and the time so seen falls in one of the five windows; and it never allows what is forbidden |
| BeaconGuard.LeapExample | src/beacon_guard.c:9-15 | A silence of a whole 32-bit period is not noticed: an old prediction still blocks |
| SeatTable.Table.constructor | src/gw_core.c:16-20 | An empty table with the cursor at the start of the pool |
| SeatTable.Table.IndexOfAddr | src/gw_core.c:30-36 | Finds the seat of a non-zero address |
| SeatTable.Table.IndexOfEui | src/gw_core.c:38-44 | Finds the live seat of an identifier |
| SeatTable.Table.TakeAddr | src/gw_core.c:46-56 | Takes the first address from the cursor that no seat holds |
| SeatTable.Table.Join | src/gw_core.c:70-89 | A known tag keeps its seat and address, a new one gets the first free seat, and a full table refuses |
| SeatTable.Table.Keepalive | src/gw_core.c:91-97 | Renews the lease of the seat that holds the address |
| SeatTable.Table.Release | src/gw_core.c:99-104 | Frees the seat that holds the address |
| SeatTable.Table.Tick | src/gw_core.c:106-115 | Ages every lease by one superframe and frees the seats that run out |
| SeatTable.Table.BuildSlotMap | src/gw_core.c:22-28 | Announces the seated address of each slot, or the broadcast address |
| SeatRuns.AllocSucceeds | src/gw_core.c:46-56 | With a seat free, at most ten addresses are passed over, so the fallback is never reached |
| SeatRuns.AfterKeeps | src/gw_core.c:70-115 | Every operation keeps live addresses and identifiers pairwise distinct, addresses in the pool, and seats live exactly while their lease is 1 to 50 |
| SeatRuns.RunKeeps | src/gw_core.c:70-115 | So does every run |
| SeatRuns.RunsFromPowerUp | src/gw_core.c:16-115 | So every run from power-up on has them |
| SeatTenancy.NoEarlyReuse | src/gw_core.c:46-56 | Of any 5935 successive allocations no two issue the same address |
| SeatTenancy.TenancyOver | src/gw_core.c:70-115 | A tenant keeps its seat exactly while its lease runs, and its address is seated nowhere afterwards until it is issued again |
| SeatTenancy.GrantedSlot | src/gw_core.c:22-115 | A granted tag finds its own slot and no other until it is released or its 50th superframe without a renewal, and none after that |
| SeatTenancy.TicksOnly | src/gw_core.c:106-115 | Left alone, a lease of n superframes runs out at the n-th |
| SeatTenancy.LookUp | src/uwb_frame_802_15_4z.c:249-254 | Finds the first slot that announces an address |
| SeatBeacons.BeaconShowsSeats | src/gw_core.c:22-28 | The beacon of any reachable seat table is readable and reads as its slot map |
| SeatBeacons.GrantedSlotOnAir | src/gw_core.c:22-115 | From a join to any later parsed beacon: the granted tag reads its own slot while its lease runs and none after |
| Wire.DecodeOfEncode | src/apos_frame.c:25-81 | Consecutive little-endian fields are read back as they were written |
| Wire.EncodeOfDecode | src/apos_frame.c:25-81 | Whatever bytes are read as fields, writing those fields gives the same bytes |
| Wire.PutU16 | src/apos_frame.c:25-29 | Two bytes are written, low byte first, and nothing else |
| Wire.PutU32 | src/apos_frame.c:36-42 | Four bytes are written, low byte first, and nothing else |
| AposFrames.RoundTrip | src/apos_frame.c:163-397 | Every survey message survives the wire with its source and destination, signed means included, and no parser of another subtype takes it |
| AposFrames.TrailingBytesRefused | src/apos_frame.c:150-160 | A frame with anything after it is refused |
| AposFrames.ParsedIsFaithful | src/apos_frame.c:163-397 | What a parser accepts is a message in range that encodes to the payload it came from (flag bytes aside) |
| FrameOffsets.SurveyHeaderAt | src/apos_frame.c:84-148 | Addresses, type and subtype of every survey message are at their places; the opening and closing ones are broadcast |
| FrameOffsets.SurveyBeginAt | src/apos_frame.c:163-175 | The length of the frame and the byte positions of each field |
| FrameOffsets.EnumRspAt | src/apos_frame.c:192-214 | The length of the frame and the byte positions of each field |
| FrameOffsets.RangeCmdAt | src/apos_frame.c:236-250 | The length of the frame and the byte positions of each field |
| FrameOffsets.RangeRspAt | src/apos_frame.c:267-288 | The length of the frame and the byte positions of each field |
| FrameOffsets.SetPosAt | src/apos_frame.c:311-324 | The length of the frame and the byte positions of each field |
| FrameOffsets.SetPosAckAt | src/apos_frame.c:340-354 | The length of the frame and the byte positions of each field |
| FrameOffsets.SurveyEndAt | src/apos_frame.c:373-384 | The length of the frame and the byte positions of each field |
| AposFrames.BuildSurveyBegin | src/apos_frame.c:163-175 | A buffer too short is refused and left alone; otherwise the frame is written at its start and nothing else changes |
| AposFrames.BuildEnumRsp | src/apos_frame.c:192-214 | A buffer too short is refused and left alone; otherwise the frame is written at its start and nothing else changes |
| AposFrames.BuildRangeCmd | src/apos_frame.c:236-250 | A buffer too short is refused and left alone; otherwise the frame is written at its start and nothing else changes |
| AposFrames.BuildRangeRsp | src/apos_frame.c:267-288 | A buffer too short is refused and left alone; otherwise the frame is written at its start and nothing else changes |
| AposFrames.BuildSetPos | src/apos_frame.c:311-324 | A buffer too short is refused and left alone; otherwise the frame is written at its start and nothing else changes |
| AposFrames.BuildSetPosAck | src/apos_frame.c:340-354 | A buffer too short is refused and left alone; otherwise the frame is written at its start and nothing else changes |
| AposFrames.BuildSurveyEnd | src/apos_frame.c:373-384 | A buffer too short is refused and left alone; otherwise the frame is written at its start and nothing else changes |
| MacFrames.FixedRoundTrip | src/uwb_frame_802_15_4z.c:258-396 | Join, grant, keepalive, release, position and response frames survive the wire, and no parser of another kind takes them |
| FrameOffsets.HeaderAt | src/uwb_frame_802_15_4z.c:46-80 | Frame control, network, addresses and type are at their places in every frame of both families |
| FrameOffsets.FixedTypeAt | src/uwb_frame_802_15_4z.c:107-376 | Each kind of frame carries its own type byte |
| FrameOffsets.JoinAt | src/uwb_frame_802_15_4z.c:258-267 | The length of the frame and the byte positions of each field |
| FrameOffsets.GrantAt | src/uwb_frame_802_15_4z.c:285-298 | The length of the frame and the byte positions of each field |
| FrameOffsets.KeepaliveAt | src/uwb_frame_802_15_4z.c:320-329 | The length of the frame and the byte positions of each field |
| FrameOffsets.PosAt | src/uwb_frame_802_15_4z.c:363-376 | The length of the frame and the byte positions of each field |
| FrameOffsets.ResponseAt | src/uwb_frame_802_15_4z.c:107-118 | The length of the frame and the byte positions of each field |
| MacFrames.BuildJoin | src/uwb_frame_802_15_4z.c:258-267 | A buffer too short is refused and left alone; otherwise the frame is written at its start and nothing else changes |
| MacFrames.BuildGrant | src/uwb_frame_802_15_4z.c:285-298 | A buffer too short is refused and left alone; otherwise the frame is written at its start and nothing else changes |
| MacFrames.BuildKeepalive | src/uwb_frame_802_15_4z.c:320-329 | A buffer too short is refused and left alone; otherwise the frame is written at its start and nothing else changes |
| MacFrames.BuildRelease | src/uwb_frame_802_15_4z.c:347-353 | A buffer too short is refused and left alone; otherwise the frame is written at its start and nothing else changes |
| MacFrames.BuildPos | src/uwb_frame_802_15_4z.c:363-376 | A buffer too short is refused and left alone; otherwise the frame is written at its start and nothing else changes |
| MacFrames.BuildResponse | src/uwb_frame_802_15_4z.c:107-118 | A buffer too short is refused and left alone; otherwise the frame is written at its start and nothing else changes |
| MacFrames.BeaconRoundTrip | src/uwb_frame_802_15_4z.c:217-247 | A beacon is read back if and only if it has at most eleven slots |
| FrameOffsets.BeaconAt | src/uwb_frame_802_15_4z.c:217-229 | The beacon's version, counter and each of its slots are at their places |
| MacFrames.BuildBeacon | src/uwb_frame_802_15_4z.c:217-229 | The beacon is written slot by slot at the start of the buffer |
| MacFrames.ReadBeaconSlots | src/uwb_frame_802_15_4z.c:236-247 | The slots are read into the caller's array |
| MacFrames.MultiPollRoundTrip | src/uwb_frame_802_15_4z.c:82-157 | A multi-poll of one to four anchors is read back as it was built |
| FrameOffsets.MultiPollAt | src/uwb_frame_802_15_4z.c:82-105 | The multi-poll's count, each address and delay, and its time are at their places |
| MacFrames.BuildMultiPoll | src/uwb_frame_802_15_4z.c:82-105 | The multi-poll is written anchor by anchor; none or more than four anchors are refused |

## Left out

- The vendored radio driver, interrupts and timestamps: a transmission is a boolean outcome and an exchange an arbitrary distance or none.
- Wi-Fi, MQTT, shell, settings storage and JSON: persistence is a success flag.
- Floating-point rounding, overflow and NaN; the survey protocol carries coordinates as reals, the frame codecs as 32-bit patterns.
- Planarity, collinearity, per-node residuals, redundancy and the smallest eigenvalue: reported, never decided on.
- The reply stagger hashed from an anchor's identifier, and the second attempt at a failed reply: only whether a reply gets out is modelled.
- Frame sequence numbers, which nothing reads, and the MQTT trigger.
- The plain discovery frame, which is built but never parsed, and the null-pointer tests of the builders and parsers.
- `cal_solve_step`, `disc_schedule.c`, `tag_id.c` and `cal_solve.c`: easy members.
- FilteredMean.Compute: asks that no distance from the median and not six times the spread leave 32 bits, where the code's arithmetic is undefined.
- BatchStats.Stats: asks that every distance from the median fit 32 bits, for the same reason.
- CostDescent.CostMajorised: leaves out layouts with a usable edge of a length strictly between zero and 0.000001, which the code drops from the normal equations but not from the cost; there the bound can fail.
- DampedProgress.RefinementImproves: says nothing of a layout whose threshold lies above the cap of the damping.
- BeaconGuard.WrongExactlyWhen: asks that the five windows fit in half the 32-bit range, as they do eight times over.
- Refinement.Descend: the cost falls or nothing moves; that the rounds converge to a minimum is not claimed by the code.
- TableCost.CostIsTableMiss: asks for deviations of 1 mm and more; smaller ones the code raises to that.
- ExactSeed.SeedIsRight: asks that no three anchors be on one line and no four in one plane (in 2D, no two together and no three on one line), where a further range need not choose the right intersection, and that the nodes with no further range were guessed right (`ExactSeed.Place3Guesses` says when they are).
- AnchorNode.CommandsAnswered: covers the time from one SURVEY_BEGIN to the next or to the end of the session.
- GatewayMachine.Machine.ListSurvey: the bound of eight rows is left out of the loop, since there are never more than eight peers.
