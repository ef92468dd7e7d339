# Verified model of the planning and control core

This project models the driving core of the repository, from the road map to the commands of the controller, and
proves what each part keeps. Three processes are covered: the behaviour planner's map and route queries, the Frenet
planner with its merge state machine, and the model-predictive controller, together with the packets that join them.

| file | what it models |
|---|---|
| QueueOrder, RoadGraph, RoadSearch, StopSearch, MapQueries, MGeoLoader | the two priority-queue searches over the link graph, the tables they run on, and their answers told without the search |
| RouteManager, RouteOffset | the route polyline, its projection and the inverse lookup |
| Wrappers, RealMath, Angles | optional values; real arithmetic, angles and square roots; laws of the angle functions |
| VehicleModel, Tangents, Constraints, CostFunction, MpcSolver, CostGap | the solver: bicycle model, time-varying linear models, projection, cost, projected gradient descent with line search |
| MpcLoop | time alignment of a received path, the standstill watchdog, one control cycle |
| Collision, TrajectoryCheck, Prediction | oriented boxes, the separating-axis test, the two sweeps that use it, and where obstacles are predicted |
| MergeSelector, TravelBound, RoundaboutGap, EntryTiming | travel time, the roundabout gap search, and what its times mean for vehicle and traffic |
| LockedPath, MergeMachine, MergeSafety, MergeCommitment, FrenetPlanner | the merge state machine of one planning cycle, what every run of cycles keeps, and when exactly it commits |
| RefLine, FrenetConverter, RoadMotion, Polynomial | smoothing and resampling, road and plane coordinates, boundary-value polynomials |
| PlannerLoop | which path the planner sends when planning fails |
| ByteCodec, PathPacket, ObjectPacket, Handover | the packets byte by byte, and the way of a stop path from planner to controller |

Reals stand for doubles. Sine, cosine, tangent, arc tangent, square root and hypotenuse are parameters; a lemma that
needs a law of theirs names it as a premise. Code that updates state is modelled by classes, arrays and loops whose
contracts tie them to functions, and the properties are proved about those functions. Candidate generation, object
tracking, the highway gap selector and everything received from outside enter a planning cycle as its inputs. A single
precision float is a 32-bit word between two conversions that are parameters; everything else about the packets is
concrete, down to byte order.

## What the code does not do

These follow from the code as it is; each has a proof.

- `findForwardDistance` returns at the first expanded predecessor of the target, so its distance need not be the
  shortest (RoadSearch.ForwardNotAlwaysShortest). RoadSearch.Outrun is the exact condition, read off the map
  (RoadSearch.ForwardShortestUnlessOutrun); how far the distance can overshoot is bounded (RoadSearch.ForwardOvershoot).
- `findNextStopLine` overwrites its best stop line without comparing, so a farther stop line can replace the nearest
  (StopSearch.AnswerNotAlwaysNearest). StopSearch.Overshadowed is the exact condition, read off the map
  (StopSearch.NearestUnlessOvershadowed); with a comparison the answer would always be the nearest
  (MapLoader.MGeoLoader.SearchStopsGuarded). Where every stop link in range begins 1e9 or more ahead, none is found
  (MapLoader.MGeoLoader.FindNextStopLine).
- The linear rollout clips the speed to [0, 100] and the nonlinear one to the configured range, and only the linear one
  normalizes the yaw of a standing vehicle. The cost the solver reports is the nonlinear cost when these differences do
  not show; VehicleModel.LtvRolloutExact says exactly when the two rollouts agree. At a top speed below 100 the costs
  can differ (CostGap.CostNotAlwaysTrueCost).
- The planner's limit on resending an old plan counts planning passes, not time: passes without a vehicle state do not
  age the plan (PlannerLoop.OldPlanAfterAnyGap).
- The limit also covers stop paths: after a blocked pass, an unblocked failure sends the stop path made at the earlier
  pose (PlannerLoop.OldStopPathIsResent), at most four planning passes old (PlannerLoop.SentPathIsRecent).
- `initialize` keeps points 1e-6 apart, but `projectEgo` skips segments whose squared length is under 1e-9, so the point
  it reports need not be the nearest of the route (Route.NotAlwaysNearest); Route.NearestUnlessMissed says exactly when
  it is.
- The clearing time of the gap search is taken from a squared speed, so a vehicle that rolls backwards is credited with
  the same speed forwards: the assumed drive may not have left the zone by then (EntryTiming.ReversingClearsLate).
  EntryTiming.EntersTooSlow is the exact condition (EntryTiming.ClearsUnlessTooSlow).
- A candidate that ends before the conflict is extended from the conflict on: the stretch between is neither checked nor
  sent, and the samples after it come too early (LockedPath.ExtensionJoins).
- A `load` that fails at a stop line clears the links and the stop lines but leaves the two tables built from them. No
  query reaches them, since every query starts from a link (MapLoader.MGeoLoader.Load).

In both searches the order in which links of equal cost are labelled is part of these conditions. The queue takes the
lesser name first, but links of no length are reached in turn at one cost; RoadGraph.Trail gives the order for every
map, and where all links have length it is the order of names (RoadGraph.NamesDecide).

## Model

| member | source | states |
|---|---|---|
| MapLoader.PopTop | src/behavior_planner/src/map/mgeo_loader.cpp:217-219 | the entry taken is the first by cost and then by name |
| QueueOrder.PrecedesIsTotal | src/behavior_planner/src/map/mgeo_loader.cpp:217-219 | of two different names exactly one comes before the other in the order that decides among equal costs |
| QueueOrder.PrecedesIsTransitive | src/behavior_planner/src/map/mgeo_loader.cpp:217-219 | that order is transitive |
| RoadGraph.FirstIsLabel | src/behavior_planner/src/map/mgeo_loader.cpp:238-244 | what either search takes off its queue first within the horizon is stale, or carries the least cost of any walk to that link and leads everything not yet labelled: no link is ever expanded at a worse cost or out of turn |
| RoadGraph.FirstEntryLeads | src/behavior_planner/src/map/mgeo_loader.cpp:238-259 | whatever is not labelled yet is entered no earlier, in cost and then in the order of the queue, also over links of no length, which are reached in turn at one cost |
| RoadGraph.EveryLinkHasLabel | src/behavior_planner/src/map/mgeo_loader.cpp:238-262 | every link that some walk reaches has a least cost and an earliest way in |
| RoadGraph.LeadsIsTotal | src/behavior_planner/src/map/mgeo_loader.cpp:217-219 | of any two reachable links one is labelled before the other; the order is read off the map alone, from costs, lengths and names |
| RoadGraph.NamesDecide | src/behavior_planner/src/map/mgeo_loader.cpp:217-219 | where every link has length, links of equal cost are labelled in the order of their names |
| RoadGraph.LeadsIsAntisymmetric | src/behavior_planner/src/map/mgeo_loader.cpp:217-219 | no two links are labelled each before the other |
| RoadGraph.DropKeeps | src/behavior_planner/src/map/mgeo_loader.cpp:241-243 | skipping a stale or too distant entry loses no walk: the search invariant (queue sound, labels exact and in order, nothing in range forgotten) is kept |
| RoadGraph.CutKeeps | src/behavior_planner/src/map/mgeo_loader.cpp:298-302 | once a stop line is remembered, pruning at its distance keeps the invariant for everything nearer |
| RoadGraph.SettleKeeps | src/behavior_planner/src/map/mgeo_loader.cpp:244-249 | labelling a link whose end is out of range, has no successors or is a stop line keeps the invariant |
| RoadGraph.ExpandKeeps | src/behavior_planner/src/map/mgeo_loader.cpp:244-259 | labelling a link and queueing everything that leaves its end keeps the invariant |
| RoadGraph.StartKeeps | src/behavior_planner/src/map/mgeo_loader.cpp:225-236 | queueing the links that leave the current link establishes the invariant |
| RoadGraph.DryQueueIsComplete | src/behavior_planner/src/map/mgeo_loader.cpp:238-262 | when the queue runs dry every link that some walk enters within range has been labelled at most at that cost |
| RoadSearch.OutgoingGrows | src/behavior_planner/src/map/mgeo_loader.cpp:116-121 | the adjacency table stays, per node and without repetition, exactly the links that leave the node |
| RoadSearch.DryMeansNone | src/behavior_planner/src/map/mgeo_loader.cpp:238-262 | an empty queue and no hit mean that no walk reaches the target within range |
| RoadSearch.EnteredFirst | src/behavior_planner/src/map/mgeo_loader.cpp:250-257 | the first expanded predecessor of the target is labelled before every other link through which the target is in range, ties included |
| RoadSearch.ForwardSoundAndComplete | src/behavior_planner/src/map/mgeo_loader.cpp:199-262 | a distance is found exactly when some walk to the target is within range, and is the length of such a walk |
| RoadSearch.ForwardOvershoot | src/behavior_planner/src/map/mgeo_loader.cpp:251-256 | the distance found exceeds that of any walk to the target, in range or not, by at most the difference in length of two links that enter the start node of the target |
| RoadSearch.ForwardIsUnique | src/behavior_planner/src/map/mgeo_loader.cpp:199-262 | the outcome is the only one: map and query determine the distance found, or that none is |
| RoadSearch.ForwardShortestUnlessOutrun | src/behavior_planner/src/map/mgeo_loader.cpp:250-257 | for all maps and queries the distance found is the shortest if and only if the target leaves the end of the current link within range, or the in-range link into its start node that is labelled first ends no later than every other such link |
| RoadSearch.ForwardShortestIfEntriesEqual | src/behavior_planner/src/map/mgeo_loader.cpp:251-256 | a corollary: where all links into the start node of the target are equally long the distance found is the shortest |
| RoadSearch.ForwardNotAlwaysShortest | src/behavior_planner/src/map/mgeo_loader.cpp:251-256 | a concrete map on which the distance found is not the shortest, because the search returns at the first expanded predecessor |
| MapQueries.ForwardAnswers | src/behavior_planner/src/map/mgeo_loader.cpp:222-262 | the distance search answers the query told by lists of links: both directions of the if-and-only-if, and the length |
| MapQueries.StopsAnswer | src/behavior_planner/src/map/mgeo_loader.cpp:276-326 | beyond the current link the stop-line search answers the query told by lists of links |
| RoadSearch.ReadLink | src/behavior_planner/src/map/mgeo_loader.cpp:96-113 | the length of a link is that of the line through those of its points that can be read |
| RoadSearch.NotShorterThanStraight | src/behavior_planner/src/map/mgeo_loader.cpp:96-113 | that length is no less than the straight way between the ends of the line |
| RoadSearch.LengthElsewhere | src/behavior_planner/src/map/mgeo_loader.cpp:96-113 | and does not depend on where the line lies |
| MapLoader.MGeoLoader.Load | src/behavior_planner/src/map/mgeo_loader.cpp:55-146 | later records of an id win, the adjacency and stop-line tables are exact, and success means that there is a link; files that cannot be read leave every table empty; a stop-line record that cannot be read leaves no link and no stop line, and leaves behind the adjacency of the links and the stop lines indexed so far |
| MapLoader.MGeoLoader.FindForwardDistance | src/behavior_planner/src/map/mgeo_loader.cpp:199-262 | the query on the loaded tables, with its same-link, unknown-link and no-successor cases, ends in the outcome that the search lemmas describe; told without the search, a distance is found exactly when some list of links leads within range from the end of the current link to the beginning of the other, and it is what is left of the current link, nothing when it lies behind, plus the lengths of such a list plus the offset on the other link |
| MapLoader.MGeoLoader.SearchTarget | src/behavior_planner/src/map/mgeo_loader.cpp:238-262 | the distance loop keeps the invariant, expands no link twice and terminates |
| MapLoader.MGeoLoader.FindNextStopLine | src/behavior_planner/src/map/mgeo_loader.cpp:264-327 | a stop line is returned exactly when some walk within range meets one (and begins nearer than the initial best distance), with the first stop line recorded for the node where it does; told without the search, the distance is what is left of the current link plus the lengths of a list of links that passes no earlier stop line |
| MapLoader.MGeoLoader.SearchStops | src/behavior_planner/src/map/mgeo_loader.cpp:295-326 | the stop-line loop with its two pruning tests terminates with that outcome |
| MapLoader.MGeoLoader.Visit | src/behavior_planner/src/map/mgeo_loader.cpp:305-321 | one expansion, with the unguarded overwrite of the best stop line, keeps the invariant and the record of what was overwritten |
| StopSearch.AnswerIsAWalk | src/behavior_planner/src/map/mgeo_loader.cpp:264-327 | the distance returned is the length of a walk whose first stop line is the one returned |
| StopSearch.FirstStopIsAnArrival | src/behavior_planner/src/map/mgeo_loader.cpp:310-316 | every walk to a stop line in range passes a first stop line at no greater distance, so stopping the expansion there loses none |
| StopSearch.NearestIsMinimal | src/behavior_planner/src/map/mgeo_loader.cpp:264-327 | the answer is the nearest stop line exactly when it equals the least distance over all stop links in range |
| StopSearch.NearestUnlessOvershadowed | src/behavior_planner/src/map/mgeo_loader.cpp:310-316 | for all maps the answer is the nearest stop line if and only if no farther stop link begins before the nearest stop line and is labelled after every nearest link |
| StopSearch.AnswerIsUnique | src/behavior_planner/src/map/mgeo_loader.cpp:298-326 | the outcome determines the stop link the answer comes from, and the distance |
| MapLoader.MGeoLoader.SearchStopsGuarded | src/behavior_planner/src/map/mgeo_loader.cpp:295-326 | a variant, not the source: the loop with the missing comparison added (lines 311-315) terminates, its answer is the nearest stop line on every map, and it answers exactly when one in range lies nearer than the initial best distance |
| StopSearch.AnswerNotAlwaysNearest | src/behavior_planner/src/map/mgeo_loader.cpp:311-315 | a concrete map on which the answer is 11 while a stop line lies 5 ahead |
| Route.FootIsNearest | src/behavior_planner/src/map/route_manager.cpp:77-81 | the clamped foot on a segment is no farther from the position than any point of the segment |
| Route.BestSegmentIsNearest | src/behavior_planner/src/map/route_manager.cpp:69-88 | the scan ends with the first segment whose foot is nearest, skipping the short ones |
| Route.RoutePointOnSegment | src/behavior_planner/src/map/route_manager.cpp:120-144 | the route point at the arc length of a fraction of a segment is that fraction of the segment: getRoutePoint inverts the arc length |
| Route.NearestUnlessMissed | src/behavior_planner/src/map/route_manager.cpp:62-144 | the route point at the projected arc length is no farther from the position than any point of the whole route if and only if no segment that is too short or too far passes nearer than every other segment, or than the first point where there is no other |
| Route.NearestWhenNoneSkipped | src/behavior_planner/src/map/route_manager.cpp:62-144 | where no segment is too short and one is near enough, it is no farther than any point of the route |
| Route.NotAlwaysNearest | src/behavior_planner/src/map/route_manager.cpp:69-75 | a concrete route that initialize keeps and projectEgo skips, on which the start is reported for a position at the other end |
| Route.ProjectionIsNearest | src/behavior_planner/src/map/route_manager.cpp:62-144 | against the segments that are considered the projected point is nearest whatever is skipped |
| RouteOffset.OffsetIsSigned | src/behavior_planner/src/map/route_manager.cpp:84-85 | the reported offset is the distance from the line of the best segment, positive exactly on its left |
| RouteOffset.ProjectionLeadsBack | src/behavior_planner/src/map/route_manager.cpp:62-144 | a round trip: from the route point at the reported arc length, the reported offset to the left leads back to the position, wherever that projects strictly inside the segment |
| Route.RouteManager.Initialize | src/behavior_planner/src/map/route_manager.cpp:9-39 | the polyline, arc lengths and link of each segment are those of the route, and every spacing is at least the minimum |
| Route.RouteManager.ProjectEgo | src/behavior_planner/src/map/route_manager.cpp:62-97 | the scan with best-so-far variables yields the projection on that nearest segment, or the start of the route when all are too far |
| Route.RouteManager.GetRoutePoint | src/behavior_planner/src/map/route_manager.cpp:120-144 | the interpolated point of the table, or none without a route |
| RealMath.Normalize | src/mpc_controller/src/global/utils.hpp:12-16 | the two loops end in [-PI, PI], and leave exactly the angles already there alone |
| RealMath.NormalizedByWholeTurns | src/mpc_controller/src/global/utils.hpp:12-16 | normalization changes an angle by whole turns only |
| VehicleModel.PredictTrajectory | src/mpc_controller/src/model/vehicle_model.cpp:41-66 | the loop yields the iterated nonlinear step |
| Tangents.StepFollowsHeading | src/mpc_controller/src/model/vehicle_model.cpp:11-36 | one step covers speed times sample time along the heading and nothing sideways, turns a moving vehicle by that distance times the curvature of its steering angle up to whole turns, and gains the acceleration within the speed bounds |
| Tangents.MirroredRollout | src/mpc_controller/src/model/vehicle_model.cpp:41-66 | over every horizon, steering the other way from the mirrored start drives the mirrored course |
| VehicleModel.BuildLTVModels | src/mpc_controller/src/model/vehicle_model.cpp:166-185 | one model per control, each taken at the state that the nonlinear rollout has there |
| VehicleModel.PredictTrajectoryLTV | src/mpc_controller/src/solver/mpc_solver.cpp:27-60 | the loop yields the iterated linear step, wrapped and clipped |
| VehicleModel.LtvStepExact | src/mpc_controller/src/model/vehicle_model.cpp:77-160 | the linear step at its own linearisation point equals the nonlinear step if and only if a standing yaw is normalized and both speed ranges clip the next speed alike |
| VehicleModel.LinearElsewhere | src/mpc_controller/src/model/vehicle_model.cpp:77-160 | at the state it was taken a model is affine in the control: steering enters through the finite squared secant, acceleration through the sample time |
| Tangents.ModelIsTangent | src/mpc_controller/src/model/vehicle_model.cpp:77-160 | the state matrix is the derivative of the nonlinear step: at any other state a model misplaces the vehicle by at most a second-order term in the differences of yaw and speed, and is exact in yaw and speed while the vehicle drives |
| Tangents.GainIsTangent | src/mpc_controller/src/model/vehicle_model.cpp:111-119 | the steering gain is the slope of the yaw step in the steering angle, but for the constant that keeps the squared secant finite |
| VehicleModel.LtvRolloutExact | src/mpc_controller/src/solver/mpc_solver.cpp:27-60 | for every horizon the linear rollout through the models of a control sequence is its nonlinear rollout if and only if every step agrees |
| VehicleModel.AgreesBelowSpeedBound | src/mpc_controller/src/model/vehicle_model.cpp:11-36 | a condition on the inputs alone under which every step agrees: a normalized yaw, no reverse, and no way to outrun the speed bound within the horizon |
| Constraints.ProjectControls | src/mpc_controller/src/solver/mpc_solver.cpp:10-20 | the in-place pass projects each control against the projection of its predecessor |
| Constraints.ProjectOneIsNearest | src/mpc_controller/src/constraints/constraints.cpp:5-24 | a projected control is inside the box and within the rate of its predecessor, and nearer to the one asked for than any other such control |
| Constraints.ProjectedIsFeasible | src/mpc_controller/src/solver/mpc_solver.cpp:10-20 | after projection every control obeys the boxes and every steering change the rate, the first one counted from the previous control |
| Constraints.FeasibleIffUnchanged | src/mpc_controller/src/solver/mpc_solver.cpp:10-20 | the sequences that projection leaves alone are exactly the feasible ones |
| CostFunction.ComputeTotalCost | src/mpc_controller/src/cost/cost_function.cpp:75-140 | the accumulating loop yields the sum of the stage costs and the terminal cost |
| CostFunction.TotalCostNonNegative | src/mpc_controller/src/cost/cost_function.cpp:75-140 | with non-negative weights and a positive sample time no cost is negative |
| CostFunction.PathErrorInAnyAxes | src/mpc_controller/src/cost/cost_function.cpp:7-15 | the path error is the weighted squared distance from the reference, in whatever axes it is taken |
| CostFunction.ZeroCostIffTracked | src/mpc_controller/src/cost/cost_function.cpp:75-140 | with positive weights the cost is zero if and only if every state is on its reference sample, headed along it and at its speed, the last state on the sample of the last step, and no input is used at all |
| CostFunction.HalvedSampleTime | src/mpc_controller/src/cost/cost_function.cpp:61-116 | the promise behind the scaling: sampling twice as often, the error terms of a held error and the rate term of a change spread over both halves cost what they cost before |
| MpcSolver.EvalCost | src/mpc_controller/src/solver/mpc_solver.cpp:67-88 | the cost along the linear rollout when the models fit the controls, along the nonlinear one otherwise |
| MpcSolver.ComputeGradient | src/mpc_controller/src/solver/mpc_solver.cpp:100-130 | every component is the central difference of the linear-rollout cost in its own input |
| MpcSolver.SlopeIsDerivative | src/mpc_controller/src/solver/mpc_solver.cpp:112-127 | where the cost is quadratic in an input the central difference is its derivative |
| MpcSolver.StepsDownhill | src/mpc_controller/src/solver/mpc_solver.cpp:206-212 | before projection a step moves no input uphill, both inputs in proportion, all of it at the first control and less the later the control |
| MpcSolver.WarmStart | src/mpc_controller/src/solver/mpc_solver.cpp:164-170 | the previous solution shifted by one step, or the previous control held |
| MpcSolver.FirstHalvingIsFirst | src/mpc_controller/src/solver/mpc_solver.cpp:206-226 | the step length chosen is the first sufficient one among the halvings tried, and none is chosen exactly when none of them is sufficient |
| MpcSolver.LineSearch | src/mpc_controller/src/solver/mpc_solver.cpp:201-226 | the loop accepts at that step length the projected gradient step, with the models taken at it and its cost, and rejects only when every halving tried fails |
| MpcSolver.SolveMPC | src/mpc_controller/src/solver/mpc_solver.cpp:138-257 | the whole solver: its three outcomes, and for a solution the controls at the end of the descent that problem and warm start determine, with its stopping rules, their nonlinear prediction and their cost at their own models |
| MpcSolver.StepsDescend | src/mpc_controller/src/solver/mpc_solver.cpp:187-242 | every step the solver accepts is the projected gradient step from where the one before it ended, lowers the cost by more than 1e-4 times step length times squared gradient, and goes forward |
| MpcSolver.DescentPays | src/mpc_controller/src/solver/mpc_solver.cpp:187-242 | over the whole descent the cost falls by more than the sum of these decreases, taken at the actual gradients |
| MpcSolver.StationaryStays | src/mpc_controller/src/solver/mpc_solver.cpp:187-242 | from a feasible sequence without a slope no step is accepted, whatever the settings |
| MpcSolver.SolvedGuarantees | src/mpc_controller/src/solver/mpc_solver.cpp:161-257 | a chain of such steps leads from the projected warm start to the returned controls; the returned cost is at most that of the projected warm start less all their decreases, and the returned sequence obeys every limit |
| MpcSolver.CostIsTrueCost | src/mpc_controller/src/solver/mpc_solver.cpp:178-257 | the returned cost is the nonlinear cost of the returned prediction whenever the two rollouts of the returned controls agree |
| MpcSolver.CostIsTrueCostBelowSpeedBound | src/mpc_controller/src/solver/mpc_solver.cpp:178-257 | with the speed bound out of reach over the horizon this holds for every solved problem |
| CostGap.CostNotAlwaysTrueCost | src/mpc_controller/src/solver/mpc_solver.cpp:178-257 | a concrete problem at the top speed, with the configured limits, weights and vehicle and a horizon of one step, on which every solution without a warm start, for all solver settings, reports 2.516 less than its nonlinear cost |
| MpcLoop.ToReferencePath | src/mpc_controller/src/main.cpp:35-61 | the loop yields the interpolation of the path at each control time, and nothing for an empty path or a bad sample time |
| MpcLoop.AlignedAtOwnRate | src/mpc_controller/src/main.cpp:35-61 | at equal sample times alignment copies the path and then holds its last sample |
| MpcLoop.UniformMotionKept | src/mpc_controller/src/main.cpp:35-61 | whatever the two sample times, a path that moves at constant rates is reproduced exactly between its first and last sample, and held before and after; yaw included |
| MpcLoop.OneSampleStandsStill | src/mpc_controller/src/main.cpp:35-61 | a one-sample path becomes that sample over the whole horizon |
| MpcLoop.TopSpeedIsGreatest | src/mpc_controller/src/main.cpp:126-127 | the reference speed tested is the greatest in the horizon, and zero at least |
| MpcLoop.StopPathIsNoIntent | src/mpc_controller/src/main.cpp:124-139 | a one-sample path, or one without speed, is never taken for an intent to drive |
| MpcLoop.IntentExactly | src/mpc_controller/src/main.cpp:124-139 | the vehicle stands with intent if and only if some sample of the horizon exceeds the speed threshold, the two ends of the horizon are farther apart than the progress threshold, and its own speed is below that of standing either way |
| MpcLoop.CommandDelivers | src/mpc_controller/src/main.cpp:179-201 | a round trip: throttle less brake, read back as fractions of the limits, is the acceleration held to its range, and the steering the angle held to its |
| MpcLoop.WatchKeeps | src/mpc_controller/src/main.cpp:93-98 | in every run a launch comes on the last of the configured number of consecutive stopped-with-intent cycles, and a boost only within the configured number of cycles after a launch, the vehicle standing with intent throughout |
| MpcLoop.WatchActs | src/mpc_controller/src/main.cpp:137-151 | in every run a cycle launches if and only if the configured number of cycles, itself included, stood with intent, none of the others boosted and no launch still followed up; it boosts if and only if a launch is followed up, its own included |
| MpcLoop.Controller.ArmWatchdog | src/mpc_controller/src/main.cpp:137-151 | the standstill test, and that a launch forgets warm start and previous control |
| MpcLoop.Controller.Solve | src/mpc_controller/src/main.cpp:153-177 | only a solution replaces warm start and previous control, whose steering stays inside the box |
| MpcLoop.Controller.Step | src/mpc_controller/src/main.cpp:111-200 | one control cycle: the problem solved, what it is warm-started with, the command sent, and what is remembered; the run invariant is kept |
| MpcLoop.SteeringStaysInBox | src/mpc_controller/src/main.cpp:170-174 | the remembered steering angle is inside the steering box in every cycle, resets included |
| Collision.CoveredWithinRadius | src/frenet_planner/src/frenet_planner/frenet/collision_checker.cpp:39-44 | no point of a box is farther from its centre along any axis than the projected radius |
| Collision.SharedPointNotSeparated | src/frenet_planner/src/frenet_planner/frenet/collision_checker.cpp:46-51 | no axis whatever separates boxes that share a point |
| Collision.OverlapIffShared | src/frenet_planner/src/frenet_planner/frenet/collision_checker.cpp:53-68 | for all boxes and headings the four-axis test holds if and only if the two closed rectangles share a point |
| TrajectoryCheck.CartesianTrajectoryClear | src/frenet_planner/src/frenet_planner/frenet_planner.cpp:152-176 | clear exactly when no pose at its time hits any obstacle, both boxes inflated; otherwise the obstacle reported is the first one hit by the first pose that hits any |
| TrajectoryCheck.CandidateSampleCheck | src/frenet_planner/src/frenet_planner/frenet/collision_checker.cpp:92-110 | the same for a candidate's samples with only the ego box inflated |
| TrajectoryCheck.OverlapGrows | src/frenet_planner/src/frenet_planner/frenet/collision_checker.cpp:53-68 | enlarging a box never ends an overlap |
| TrajectoryCheck.ClearPassesSampleCheck | src/frenet_planner/src/frenet_planner/frenet/collision_checker.cpp:92-110 | a pose sequence that the commit check lets through passes the candidate check as well |
| TrajectoryCheck.ClearMeansApart | src/frenet_planner/src/frenet_planner/frenet_planner.cpp:152-176 | on a clear trajectory the inflated rectangles of ego and obstacle have no point in common at any sample |
| Prediction.GoesStraight | src/frenet_planner/src/frenet_planner/frenet/collision_checker.cpp:21-24 | an obstacle without a turn rate is predicted its speed times the time along its heading and nothing sideways |
| Prediction.SetsOutAlongHeading | src/frenet_planner/src/frenet_planner/frenet/collision_checker.cpp:16-20 | a turning one sets out along its heading at its speed, up to a second-order term in the angle turned |
| Prediction.TurnsAboutCentre | src/frenet_planner/src/frenet_planner/frenet/collision_checker.cpp:16-20 | it stays on the circle whose signed radius to its left is speed over turn rate, at a right angle to its heading throughout |
| Prediction.PredictionsCompose | src/frenet_planner/src/frenet_planner/frenet/collision_checker.cpp:14-25 | predicting over two times in a row is predicting over their sum |
| Prediction.ClearKeepsDistance | src/frenet_planner/src/frenet_planner/frenet_planner.cpp:152-176 | on a clear trajectory every point of the bare vehicle keeps more than twice the margin of its time from every point of every bare predicted obstacle |
| MergeSelector.TimesMeet | src/frenet_planner/src/frenet_planner/frenet/merge_selector.cpp:21-26 | at the distance where the target speed is reached the square-root branch and the cruising branch give the same time |
| MergeSelector.TravelTimeCovers | src/frenet_planner/src/frenet_planner/frenet/merge_selector.cpp:13-27 | the accelerate-then-cruise drive covers exactly the distance in the travel time |
| MergeSelector.ReachedIffNotBefore | src/frenet_planner/src/frenet_planner/frenet/merge_selector.cpp:13-27 | a distance is covered by a given time if and only if the time is not before the travel time, and exactly covered at no other time |
| MergeSelector.TravelTimeIncreases | src/frenet_planner/src/frenet_planner/frenet/merge_selector.cpp:13-27 | a greater distance takes strictly longer |
| TravelBound.DriveIsUnderEnvelope | src/frenet_planner/src/frenet_planner/frenet/merge_selector.cpp:13-27 | the drive never exceeds its own speed envelope |
| TravelBound.NeverAhead | src/frenet_planner/src/frenet_planner/frenet/merge_selector.cpp:13-27 | no course of positions under the speed envelope, continuous or not, is ahead of the drive at any time |
| TravelBound.NoCourseIsFaster | src/frenet_planner/src/frenet_planner/frenet/merge_selector.cpp:13-27 | no course under the speed envelope covers the distance before the travel time: it is a minimum |
| RoundaboutGap.ClosestApproachIsFirstMinimum | src/frenet_planner/src/frenet_planner/frenet/merge_selector.cpp:51-71 | the predicted closest approach is the first least miss over the prediction grid |
| RoundaboutGap.FindClosestApproach | src/frenet_planner/src/frenet_planner/frenet/merge_selector.cpp:51-71 | the prediction loop yields that approach |
| RoundaboutGap.ArrivalsExactly | src/frenet_planner/src/frenet_planner/frenet/merge_selector.cpp:38-74 | the arrivals are exactly those of the vehicles that move and come within the conflict radius at some prediction step, at the first step where they are nearest |
| RoundaboutGap.SortArrivals | src/frenet_planner/src/frenet_planner/frenet/merge_selector.cpp:75-76 | the arrivals in order of time, none lost |
| RoundaboutGap.NeighboursDecide | src/frenet_planner/src/frenet_planner/frenet/merge_selector.cpp:111-127 | testing the two neighbours of an entry time is equivalent to testing every arrival |
| RoundaboutGap.SearchEntry | src/frenet_planner/src/frenet_planner/frenet/merge_selector.cpp:109-136 | the grid loop stops at the first entry time that passes the two-neighbour test, or passes none |
| RoundaboutGap.SearchDecides | src/frenet_planner/src/frenet_planner/frenet/merge_selector.cpp:109-138 | the search answers about all arrivals: the first grid time that leaves every vehicle its room, or no grid time does |
| RoundaboutGap.FindRoundaboutGap | src/frenet_planner/src/frenet_planner/frenet/merge_selector.cpp:30-139 | the selector as a whole ends in the result of such a search over the arrivals of all relevant vehicles |
| RoundaboutGap.GapMeaning | src/frenet_planner/src/frenet_planner/frenet/merge_selector.cpp:30-139 | a safe result leaves the front gap after every earlier and the clearing time plus rear gap before every later arrival, at the earliest grid time that does; a confirmed unsafe one means that no grid time does |
| EntryTiming.ArrivesAtConflict | src/frenet_planner/src/frenet_planner/frenet/merge_selector.cpp:79-81 | in terms of the position of the vehicle: the first entry time is the least time at which the assumed drive has brought it to the conflict |
| EntryTiming.DriveResumes | src/frenet_planner/src/frenet_planner/frenet/merge_selector.cpp:13-27 | what the drive covers from some time on is what it covers when taken up at the speed it has then |
| EntryTiming.SlowerTakesLonger | src/frenet_planner/src/frenet_planner/frenet/merge_selector.cpp:13-27 | the travel time from a lower speed is strictly longer |
| EntryTiming.EntrySpeedIsReached | src/frenet_planner/src/frenet_planner/frenet/merge_selector.cpp:84-87 | the speed the clearing time is taken from is that of the drive at the conflict, held to the target, unless the vehicle rolls backwards and does not reach its target speed before the conflict |
| EntryTiming.ClearsUnlessTooSlow | src/frenet_planner/src/frenet_planner/frenet/merge_selector.cpp:84-91 | the drive leaves the zone within the clearing time if and only if the vehicle does not roll backwards, or reaches its target speed before the conflict, or the configured floor is long enough |
| EntryTiming.ReversingClearsLate | src/frenet_planner/src/frenet_planner/frenet/merge_selector.cpp:84-91 | a concrete vehicle that rolls backwards, for which the drive covers 2 of 6 within the clearing time |
| EntryTiming.SafeEntryIsDriven | src/frenet_planner/src/frenet_planner/frenet/merge_selector.cpp:109-136 | at the entry time of a safe result the drive has reached the conflict, and with that exception it has left the zone the clearing time later |
| EntryTiming.GapsToVehicles | src/frenet_planner/src/frenet_planner/frenet/merge_selector.cpp:30-139 | a safe result keeps the front gap and the rear gap to every vehicle that arrives; a confirmed unsafe one means that at every grid time some vehicle would be too close |
| MergeMachine.ValidateZones | src/frenet_planner/src/frenet_planner/frenet_planner.cpp:242-267 | one zone out of order switches the highway policy off |
| MergeMachine.ZoneOrder | src/frenet_planner/src/frenet_planner/frenet_planner.cpp:242-257 | in an accepted zone the conflicts lie between start and completion and each clears before the next begins |
| MergeMachine.ValidExactly | src/frenet_planner/src/frenet_planner/frenet_planner.cpp:242-257 | a zone is accepted if and only if it starts at no negative arc length, has a conflict, and its conflicts lie in order between start and completion |
| LockedPath.ExtendMergePathThroughConflict | src/frenet_planner/src/frenet_planner/frenet_planner.cpp:107-122 | the loop appends exactly the points at equal steps up to the completion of the zone |
| LockedPath.ExtensionExactly | src/frenet_planner/src/frenet_planner/frenet_planner.cpp:107-122 | the appended points are exactly the reference points one step of speed times sample time after the other, up to the completion of the zone |
| LockedPath.ExtensionJoins | src/frenet_planner/src/frenet_planner/frenet_planner.cpp:111-112 | the extension takes up where the candidate ends, with one sample time to the step, if and only if the candidate does not end before the conflict |
| LockedPath.NearestIsNearest | src/frenet_planner/src/frenet_planner/frenet_planner.cpp:124-150 | the replay goes on at the first nearest point that is not behind the last one |
| LockedPath.ReplayIsNearest | src/frenet_planner/src/frenet_planner/frenet_planner.cpp:124-150 | in terms of distances in the plane: no point from the last one on is nearer to the vehicle, and none before it as near |
| LockedPath.RemainingPath | src/frenet_planner/src/frenet_planner/frenet_planner.cpp:124-150 | what is replayed is the rest of the locked path from that point |
| LockedPath.BestIsCheapest | src/frenet_planner/src/frenet_planner/frenet/cost.cpp:42-53 | the selected candidate is the first cheapest of the valid ones, and none is selected exactly when none is valid |
| Planner.FrenetPlanner.ReplayLocked | src/frenet_planner/src/frenet_planner/frenet_planner.cpp:387-454 | the block that leaves, replays or gives up a locked trajectory |
| Planner.FrenetPlanner.StepMerge | src/frenet_planner/src/frenet_planner/frenet_planner.cpp:683-813 | activation, the hold of a locked gap, a fresh judgement, and the reset outside the merge area |
| Planner.FrenetPlanner.CheckCandidates | src/frenet_planner/src/frenet_planner/frenet_planner.cpp:1071-1090 | while committing, exactly the valid candidates whose extended trajectory is clear stay valid |
| Planner.FrenetPlanner.SelectAndCommit | src/frenet_planner/src/frenet_planner/frenet_planner.cpp:1092-1122 | the best candidate, the commitment to its extended trajectory, or the retreat to waiting |
| Planner.FrenetPlanner.PlanCycle | src/frenet_planner/src/frenet_planner/frenet_planner.cpp:316-1222 | one planning cycle equals the step function, and keeps the invariants over the whole history: every commitment confirmed, and every cycle deciding as its inputs and the history demand |
| MergeSafety.PlanConsistent | src/frenet_planner/src/frenet_planner/frenet_planner.cpp:340-1222 | every step keeps: the gap is locked exactly in COMMIT and CROSS, a pending commitment is an unlocked WAIT, COMMIT has a non-empty locked path, and a highway merge has an existing checkpoint |
| MergeSafety.CheckpointPresent | src/frenet_planner/src/frenet_planner/frenet_planner.cpp:713-719 | read off the invariant, whose preservation is PlanConsistent: an active highway merge finds its checkpoint, so the reset for a missing zone is never taken |
| MergeSafety.CommitsToClearTrajectory | src/frenet_planner/src/frenet_planner/frenet_planner.cpp:1071-1090 | a commitment locks, and sends, the extension of a valid candidate that passed the clearance check in the same cycle |
| MergeSafety.CommittedCyclesAreClear | src/frenet_planner/src/frenet_planner/frenet_planner.cpp:387-454 | a cycle that stays committed replays the same trajectory, never going back, and whatever it sends is clear |
| MergeSafety.CheckpointsOnlyAdvance | src/frenet_planner/src/frenet_planner/frenet_planner.cpp:391-404 | while a merge is active its kind and zone are fixed, and its checkpoint never goes back and advances by one only when a locked conflict is reached |
| MergeSafety.PlanRemembers | src/frenet_planner/src/frenet_planner/frenet_planner.cpp:779-809 | the count of confirmations is always backed by that many last cycles that found the same gap at the same conflict confirmed and safe |
| MergeSafety.EveryRunIsSafe | src/frenet_planner/src/frenet_planner/frenet_planner.cpp:1205-1218 | in every run from a fresh planner every commitment is the last of the configured number (at least one) of such cycles in a row |
| MergeCommitment.JudgeAsks | src/frenet_planner/src/frenet_planner/frenet_planner.cpp:778-809 | a judged gap goes on approaching beyond the commit distance of its conflict and waits within it, and asks for a commitment exactly when it is within and confirmed often enough |
| MergeCommitment.PlanDecides | src/frenet_planner/src/frenet_planner/frenet_planner.cpp:779-1122 | every cycle keeps the count of confirmations exact and decides as the history demands |
| MergeCommitment.EveryRunDecides | src/frenet_planner/src/frenet_planner/frenet_planner.cpp:779-1122 | in every run from a fresh planner a cycle commits if and only if its conflict is no farther than the commit distance, the configured number of cycles in a row found the same gap safe with none of them committed or turned back before, nothing is being avoided, and some valid candidate stays clear through the conflict; it turns back if and only if all but the last holds before the stop line |
| MergeCommitment.MergesBeginAndEnd | src/frenet_planner/src/frenet_planner/frenet_planner.cpp:676-701 | a merge begins exactly where the roundabout is near or, failing that, in the first highway zone of the position, and ends exactly where the completion of its kind lies behind |
| MergeCommitment.LowSpeedExactly | src/frenet_planner/src/frenet_planner/frenet_planner.cpp:376-458 | a cycle takes the low-speed path if and only if the vehicle all but stands, no merge is active, and neither the roundabout nor a highway zone is near |
| MergeCommitment.LookAheadBrakes | src/frenet_planner/src/frenet_planner/frenet_planner.cpp:671-675 | beyond the lookahead and a constant, the approach distance at a speed holds what braking from it takes |
| MergeCommitment.CommittedOutcome | src/frenet_planner/src/frenet_planner/frenet_planner.cpp:405-452 | before its conflict a committed cycle sends the rest of the locked path while that is clear, fails for the time being when it is exhausted, gives up the lock when it is blocked before the stop line, and past that fails as blocked with the lock kept |
| MergeCommitment.SelectFails | src/frenet_planner/src/frenet_planner/frenet_planner.cpp:1092-1145 | choosing fails exactly when no valid candidate is left, none that stays clear while committing, and counts as blocked exactly when some had passed the curvature test and none the collision test |
| MergeCommitment.ReachedConflict | src/frenet_planner/src/frenet_planner/frenet_planner.cpp:391-404 | a locked conflict that is reached gives way to the next of its zone if and only if there is one, and is crossed otherwise |
| MergeCommitment.HeldTimesRunDown | src/frenet_planner/src/frenet_planner/frenet_planner.cpp:730-737 | over any number of cycles a held gap keeps everything but its times, which run down to zero, those of absent vehicles excepted |
| MergeCommitment.ClearPathKeepsDistance | src/frenet_planner/src/frenet_planner/frenet_planner.cpp:152-176 | on a path that the planner found clear every point of the vehicle keeps more than twice the margin from every point of every obstacle, predicted to the time of the sample |
| RefLine.CumulativeArcLength | src/frenet_planner/src/frenet_planner/frenet/ref_line.cpp:12-21 | arc lengths start at zero, grow by the distances of neighbours and never fall |
| RefLine.WindowIsRange | src/frenet_planner/src/frenet_planner/frenet/ref_line.cpp:46-56 | the points within half a window of a point are those between the two pointers |
| RefLine.SlideTo | src/frenet_planner/src/frenet_planner/frenet/ref_line.cpp:46-57 | after both pointers have advanced the running sums are the direct sums over the window, which holds at least the point itself |
| RefLine.SmoothWaypoints | src/frenet_planner/src/frenet_planner/frenet/ref_line.cpp:39-59 | every output is the plain mean over the points within half a window of arc length, and the mean is never empty |
| RefLine.Seek | src/frenet_planner/src/frenet_planner/frenet/ref_line.cpp:62-79 | the pointer stops at the first segment that brackets the arc length |
| RefLine.ResampleUniform | src/frenet_planner/src/frenet_planner/frenet/ref_line.cpp:62-79 | every output lies on the segment that brackets its arc length at a fraction in [0, 1], and the segments never go back |
| FrenetConverter.FrenetRoundTrip | src/frenet_planner/src/frenet_planner/math/frenet_converter.cpp:22-141 | with 1 - kappa d > 0, converting to the plane and back recovers d, both derivatives, speed and acceleration along the road |
| FrenetConverter.CartesianRoundTrip | src/frenet_planner/src/frenet_planner/math/frenet_converter.cpp:22-141 | converting to the road and back recovers the plane state when the reference point is the foot of the perpendicular |
| FrenetConverter.RatesRoundTrip | src/frenet_planner/src/frenet_planner/math/frenet_converter.cpp:77-90 | the time and arc-length derivative adapters undo each other both ways for non-zero speed |
| FrenetConverter.SampleRoundTrip | src/frenet_planner/src/frenet_planner/math/frenet_converter.cpp:176-189 | the chain a path sample goes through returns its time derivatives |
| FrenetConverter.SpeedIsLength | src/frenet_planner/src/frenet_planner/math/frenet_converter.cpp:58-59 | the speed in the plane is the length of the velocity along and across the road, with its sign |
| RoadMotion.PlacedToTheLeft | src/frenet_planner/src/frenet_planner/math/frenet_converter.cpp:36-40 | the plane point lies at the offset straight to the left of the reference point |
| RoadMotion.RoundACircle | src/frenet_planner/src/frenet_planner/math/frenet_converter.cpp:42-59 | round a circular road at a constant offset the vehicle goes round the same centre, its radius less by the offset and its speed in proportion |
| RoadMotion.StretchFallsAtRate | src/frenet_planner/src/frenet_planner/math/frenet_converter.cpp:54 | the bracketed term is the rate at which the stretch factor falls along the road |
| RoadMotion.HeadingOpensAtRate | src/frenet_planner/src/frenet_planner/math/frenet_converter.cpp:61-62 | the heading offset changes at the turn rate of the vehicle less that of the road |
| RoadMotion.OffsetBendsAtRate | src/frenet_planner/src/frenet_planner/math/frenet_converter.cpp:51-56 | the curvature gives the offset the second derivative asked for |
| RoadMotion.AccelIsRateOfSpeed | src/frenet_planner/src/frenet_planner/math/frenet_converter.cpp:64-67 | the acceleration is the rate of the speed: the product rule holds for speed along the road times stretch factor |
| Polynomial.QuinticMeetsEnds | src/frenet_planner/src/frenet_planner/math/polynomial.cpp:3-23 | position, velocity and acceleration at both ends, for every non-zero horizon |
| Polynomial.QuinticIsUnique | src/frenet_planner/src/frenet_planner/math/polynomial.cpp:3-23 | every quintic is recovered from its six end conditions |
| Polynomial.QuarticMeetsEnds | src/frenet_planner/src/frenet_planner/math/polynomial.cpp:25-41 | the five end conditions other than the end position |
| Polynomial.ShiftedReadsOn | src/frenet_planner/src/frenet_planner/math/polynomial.cpp:45-69 | the shifted polynomial reads the same position, velocity, acceleration and jerk from the shifted time on |
| Polynomial.JerkCostIsIntegral | src/frenet_planner/src/frenet_planner/math/polynomial.cpp:105-113 | the closed form vanishes at zero and grows at the rate of the squared jerk, so it is its integral |
| Polynomial.JerkCostMeasuresJerk | src/frenet_planner/src/frenet_planner/math/polynomial.cpp:105-113 | the cost is never negative, and zero exactly on curves without jerk |
| Polynomial.JerkCostAdds | src/frenet_planner/src/frenet_planner/math/polynomial.cpp:105-113 | the cost over S + T is the cost over S plus the cost over T of the polynomial shifted by S |
| Polynomial.QuarticIsQuintic | src/frenet_planner/src/frenet_planner/math/polynomial.cpp:74-123 | the quartic formulas are those of the quintic without its last coefficient |
| PlannerLoop.Loop.Wait | src/frenet_planner/src/main.cpp:77-97 | without a vehicle state a stop path at the last known pose goes out, if any |
| PlannerLoop.Loop.Pass | src/frenet_planner/src/main.cpp:134-173 | the path sent is that of the last pass that replaced the remembered one, a reading of the history alone |
| PlannerLoop.SentPathIsRecent | src/frenet_planner/src/main.cpp:134-168 | a path sent again is a plan of at most five, or a stop path of at most four, planning passes ago, with no collision-blocked pass since |
| PlannerLoop.OriginExactly | src/frenet_planner/src/main.cpp:134-168 | for plans and stop paths alike: an earlier pass supplies the path sent if and only if it replaced the remembered path, only waiting and unblocked failing passes follow, and at most five failures lie in a row |
| PlannerLoop.DrivesOnExactly | src/frenet_planner/src/main.cpp:134-168 | an earlier plan is sent if and only if nothing but at most five unblocked failures lies between |
| PlannerLoop.OldStopPathIsResent | src/frenet_planner/src/main.cpp:148-161 | after a blocked pass an unblocked failure sends the stop path made at the earlier pose |
| PlannerLoop.OldPlanAfterAnyGap | src/frenet_planner/src/main.cpp:77-97 | the limit counts planning passes only: after any number of passes without a vehicle state the old plan is sent again |
| ByteCodec.BytesRoundTrip | src/mpc_controller/src/udp_network/receiver/planned_path_receiver.cpp:23-28 | a value is read back from its little-endian bytes |
| ByteCodec.ReadBack | src/mpc_controller/src/udp_network/receiver/planned_path_receiver.cpp:23-28 | any word is read back from the offset it was written at |
| PathPacket.Send | src/frenet_planner/src/udp_network/sender/planned_path_sender.cpp:28-70 | the appended buffer is the packet of fixed layout and length |
| PathPacket.PlannedPathReceiver.ParseData | src/mpc_controller/src/udp_network/receiver/planned_path_receiver.cpp:32-69 | a short or foreign packet changes nothing, any other replaces the stored path; a count out of range yields no samples |
| PathPacket.SendReceive | src/mpc_controller/src/udp_network/receiver/planned_path_receiver.cpp:32-63 | receiving what was sent yields the first 32 samples and every header field, each rounded once to single precision |
| PathPacket.ExactWhenRepresentable | src/mpc_controller/src/udp_network/receiver/planned_path_receiver.cpp:32-63 | up to 32 samples that single precision represents arrive unchanged |
| ObjectPacket.WriteSlot | src/object_udp_bridge/src/bridge_node.cpp:40-63 | the puts fill the slot at its offset and touch nothing else |
| ObjectPacket.ObjectCallback | src/object_udp_bridge/src/bridge_node.cpp:115-146 | the preallocated buffer ends as the packet of the first 20 objects, pedestrians before vehicles before obstacles, with at least one slot |
| ObjectPacket.ObjectInfoReceiver.ParseData | src/frenet_planner/src/udp_network/receiver/object_info_receiver.cpp:35-97 | the slot loop with its sentinel yields the objects up to the first zero id; a packet without room for a slot changes nothing |
| ObjectPacket.SendReceive | src/frenet_planner/src/udp_network/receiver/object_info_receiver.cpp:35-68 | parsing a packet of the bridge yields exactly the first min(n, 20) objects with ids from 1 and the type of their list, n = 0 included |
| ObjectPacket.SpeedArrives | src/frenet_planner/src/udp_network/receiver/object_info_receiver.cpp:62-68 | the conversions to km/h and back cancel: the speed arrives as the length of the velocity |
| Handover.StopPathIsObeyed | src/mpc_controller/src/main.cpp:35-61 | a stop path sent by the planner reaches the controller as a reference at rest at the pose of the vehicle over the whole horizon, and is never taken for an intent to drive |
| Handover.BlockedPassStops | src/frenet_planner/src/main.cpp:144-156 | after a collision-blocked pass, whatever came before, the controller's reference rests at the pose of that pass |

## Left out

- Floating-point rounding and overflow, and the numeric values of the angle functions: reals and premises instead. The
  planner's count of failures is unbounded here and an int there.
- Sockets, threads, ROS, YAML and JSON parsing, logging, debug output, dashboard and visualizer.
- findNearestLink, the sorted stop list of the route and its lookup, link info, speed limits: plain scans and lookups.
- Candidate generation and its curvature and acceleration filters, avoidance and following, object tracking, leader
  selection, and the path of the low-speed fallback: inputs of a cycle, or members that would only be easy.
- FindHighwayMergeGap: the gap it reports is an input of the cycle; the state machine is proved for any gap.
- FilterByCollision beyond its sample check: the pass that coasts stopped candidates on. Of its per-path check the model
  has the boxes, the times and the order of the tests.
- The elapsed time of a locked path, which is reset but never read.
- FindClosestS (Newton iteration), curvature relaxation, heading and curvature of the reference line, and the geometric
  fallback for samples slower than 0.1 m/s: the reference point is a parameter of the conversions.
- GPS, IMU and localisation, the ego packet, BehaviorDecision, the scorer and the hard-rule filter.
- Reference lines with fewer than two resampled points, which BuildRefLine excludes.
- The lateral values and the sample time that go out with a path: they pass through the packet, not the loop model.
- Optimality of the controller's solution: the code bounds its iterations and promises descent only.
- MapLoader.MGeoLoader.Load: takes records, not files; speed limits, widths, lane changes and signals of a link, which
  no search reads, are not kept.
- Planner.FrenetPlanner.PlanCycle: candidates, avoidance, following, the projection of the ego and the answer of the gap
  selector are inputs of the cycle, because they come from other parts of the planner.
- RoadSearch.ForwardShortestIfEntriesEqual: is one-sided; the exact condition is RoadSearch.ForwardShortestUnlessOutrun.
- Route.ProjectionIsNearest: leaves out the skipped segments; Route.NearestUnlessMissed takes in all of them.
- Polynomial.QuinticMeetsEnds: needs a non-zero horizon, as the formulas divide by its powers.
- FrenetConverter.FrenetRoundTrip: needs 1 - kappa d > 0 and a fixed reference point; the search for the closest arc
  length is not part of this model.
