# Milesage last-mile optimizer: a verified model of its routing bookkeeping

Milesage assigns delivery stops to a fleet of vehicles and returns routes that
start and end at a depot. This project models, in Dafny, the deterministic
parts of that pipeline and proves what they guarantee:

- the nearest-neighbour router `run_naive_solution`, its route metrics, and
  the input checks that `run_ortools_solution` makes before it builds a model
  (module `VrpSolver`);
- the parameter advisor `auto_configure_parameters` and the relaxation
  ladder `run_vrp_with_auto_relaxation`, with the OR-Tools solver as an
  opaque function parameter (module `AutoConfig`);
- `parse_time_window`, `normalize_dataframe` and the two matrix builders
  (module `DataUtils`), with the Python `int()`, `str()`, `str.split` and
  string ordering they rely on (module `Text`);
- the column-based clustering helpers and the aggregation of per-cluster
  solutions (module `Clustering`);
- the CSV export flattening (module `ExportUtils`) and the route colour
  palette (module `Visualization`).

Each source file is one module. Where the source changes state step by step
(the router's loops, the matrix fill, the relaxation ladder, depot marking,
the cluster split, the aggregation, the export, the palette doubling) the
model is a method with loops, proved against a specification function or
predicate; the properties are then lemmas about those specifications.

Python's set iteration order is not fixed, so the router's scan over
`unvisited` picks an arbitrary remaining element. Its specification is
therefore "a nearest feasible candidate", and ties may go either way.

## Model

| member | source | states |
|---|---|---|
| `Text.ParseIntOfIntToString` | clustering.py:138 | Python `int()` reads back what `str()` writes for every integer |
| `Text.ParseIntOfZeroPad2` | data_utils.py:83-85 | `int()` reads back the two-digit zero-padded hour |
| `Text.NatToStringValue` | clustering.py:138 | the decimal digits written for a natural number have that value |
| `Text.SplitCount` | data_utils.py:163 | `str.split(sep)` gives one more part than there are separators |
| `Text.SplitPartsFree` | data_utils.py:163 | no part of a split contains the separator |
| `Text.SplitTwo` | data_utils.py:163 | splitting `a + sep + b` with separator-free `a`, `b` gives exactly `[a, b]` |
| `Text.LessIrreflexive` | clustering.py:72 | Python's string order is irreflexive |
| `Text.LessTransitive` | clustering.py:72 | Python's string order is transitive |
| `Text.LessTotal` | clustering.py:72 | any two different strings are ordered one way or the other |
| `Text.LessAsymmetric` | clustering.py:72 | the string order is asymmetric |
| `DataUtils.ParseTimeWindowNonString` | data_utils.py:157-158 | missing values and non-strings parse to None |
| `DataUtils.ParseTimeWindowParts` | data_utils.py:161-166 | "H:M" whose parts parse as integers h and m gives h·60 + m |
| `DataUtils.ParseTimeWindowOneColon` | data_utils.py:163-167 | a string that parses has exactly one ':'; any other split gives None |
| `DataUtils.ParseTimeWindowOfHour` | data_utils.py:83-85 | round trip: `f"{h:02d}:00"` parses back to h·60 |
| `DataUtils.NormalizeDataframe` | data_utils.py:172-213 | the stop id, latitude and longitude mappings are checked first, in that order, each failing with the source's message; a stop id, latitude or longitude column the table lacks fails as pandas' KeyError does |
| `DataUtils.NormalizeAccepted` | data_utils.py:192-262 | a table that passes keeps every row, ids are the cells as text, coordinates are the numeric values of their cells and in range, some row is a depot and at least two are not |
| `DataUtils.NormalizeLaterChecks` | data_utils.py:207-213 | non-numeric coordinates are rejected before out-of-range ones |
| `DataUtils.NormalizeFinalChecks` | data_utils.py:215-262 | with the coordinates accepted: a missing depot flag column is a KeyError, no depot row is rejected with the depot message, fewer than two customers with the customers message, and otherwise the table is normalised exactly when its mapped optional columns exist |
| `DataUtils.NormalizeDepotRule` | data_utils.py:216-225 | depot flag from the mapped column, else stop id equal to the given depot id, else only row 0 |
| `DataUtils.NormalizeDefaults` | data_utils.py:236-257 | unmapped demand and service time are 0, unmapped time windows None, mapped ones parsed |
| `DataUtils.DistanceMatrixShape` | data_utils.py:113-128 | the matrix is n×n, zero on the diagonal, haversine of the two rows elsewhere |
| `DataUtils.DistanceMatrixSymmetric` | data_utils.py:113-128 | an order-independent distance gives a symmetric matrix |
| `DataUtils.BuildDistanceMatrix` | data_utils.py:103-128 | the double loop fills a fresh n×n array with exactly the matrix above |
| `DataUtils.TimeMatrixProperties` | data_utils.py:131-144 | the time matrix has the same shape, each entry converts back to the distance at the given speed, and zero diagonal and symmetry carry over |
| `VrpSolver.FirstDepotFrom` | vrp_solver.py:53 | the depot chosen is a depot row and no row before it is one |
| `VrpSolver.PickNearest` | vrp_solver.py:77-118 | no candidate is returned exactly when none is feasible; otherwise the one returned is feasible, unvisited and at least as close as every feasible one |
| `VrpSolver.UpdateState` | vrp_solver.py:127-140 | load grows by the demand only with capacity in use; the clock moves to arrival (waiting for the earliest time) plus service only with a duration in use |
| `VrpSolver.ExtendInterior` | vrp_solver.py:123-124 | appending a greedy choice keeps the route greedy and removes exactly that stop from the unvisited set |
| `VrpSolver.FillVehicle` | vrp_solver.py:70-144 | one vehicle's route is depot-bracketed, greedy at every step, and closed only when no stop is left or none is feasible; the unvisited set loses exactly its stops |
| `VrpSolver.BuildRoutes` | vrp_solver.py:66-144 | at most n_vehicles routes, each greedy over the customers the earlier ones left; fewer routes only once every customer is visited |
| `VrpSolver.ComputeMetrics` | vrp_solver.py:146-179 | details and totals are the per-route leg sums, service and demand sums, in vehicle order |
| `VrpSolver.MeasureRoute` | vrp_solver.py:155-175 | one route's detail: distance and travel time summed over its legs, service time and demand summed over its inner stops, n_stops = length − 2 |
| `VrpSolver.RunNaiveSolution` | vrp_solver.py:14-186 | too few stops or vehicles gives the error record; otherwise the routes form a greedy plan over the customers with their details, totals and used-vehicle count |
| `VrpSolver.OrToolsPrecheck` | vrp_solver.py:219-238 | fewer than two stops and fewer than one vehicle give their distinct error records with no routes and zero totals; otherwise the solver proceeds |
| `VrpSolver.InteriorSteps` | vrp_solver.py:77-124 | every stop of a route was the nearest feasible unvisited candidate when it was appended |
| `VrpSolver.PlanSteps` | vrp_solver.py:66-144 | each route of the plan starts while customers remain and is greedy over what the earlier routes left |
| `VrpSolver.PlanWithin` | vrp_solver.py:54-58 | every route index is a row of the frame and only customers are visited |
| `VrpSolver.PlanShape` | vrp_solver.py:71-144 | every route starts and ends at the depot and has only customers in between |
| `VrpSolver.InteriorDistinct` | vrp_solver.py:81-124 | no stop repeats within a route |
| `VrpSolver.PlanNoRepeats` | vrp_solver.py:54-125 | no customer appears twice anywhere in the plan |
| `VrpSolver.NotRevisited` | vrp_solver.py:124 | a later route holds no stop of an earlier one |
| `VrpSolver.LoadIsDemand` | vrp_solver.py:128-129 | with capacity in use the running load is the demand delivered so far |
| `VrpSolver.RouteCapacity` | vrp_solver.py:61-129 | with capacity in use a route's summed demand never exceeds the capacity |
| `VrpSolver.RouteTimes` | vrp_solver.py:89-140 | with a duration in use every stop is reached by its latest time and served no earlier than its earliest, and the vehicle is back before closing and within the maximum duration |
| `VrpSolver.PlanConstraints` | vrp_solver.py:61-112 | the capacity and duration guarantees hold for every route of the plan |
| `VrpSolver.DetailsCount` | vrp_solver.py:151-185 | there is one detail per route longer than depot→depot, as many as n_vehicles_used |
| `VrpSolver.DetailsSound` | vrp_solver.py:151-175 | each detail is its vehicle's route with that route's sums and n_stops = length − 2, in increasing vehicle order |
| `VrpSolver.DetailsComplete` | vrp_solver.py:151-175 | every route that left the depot has its detail |
| `AutoConfig.ColumnMax` | auto_config.py:44 | the maximum is a present value no smaller than any other; None only for an all-missing column |
| `AutoConfig.RoundPer25Nearest` | auto_config.py:63 | `int(n/25.0 + 0.5)` is n/25 rounded to the nearest integer |
| `AutoConfig.AutoConfigure` | auto_config.py:12-97 | vehicles in [1, 50]; capacity used exactly with demand data, else 10^9; time windows exactly when both columns exist and one has a value; open at 8, speed 45 |
| `AutoConfig.AutoVehicles` | auto_config.py:63 | one vehicle below 13 stops, fifty from 1238 on, n/25 rounded to nearest in between |
| `AutoConfig.AutoCapacity` | auto_config.py:42-73 | with demand data the capacity is the larger of 1.5·max demand and 30·average demand |
| `AutoConfig.AutoHours` | auto_config.py:76-83 | 10 hours and close at 20 with time windows, otherwise 9 and 18 |
| `AutoConfig.Args` | auto_config.py:127-139 | the solver gets a capacity exactly when use_capacity is set and a capacity is present; the maximum duration is passed through unchanged |
| `AutoConfig.Ladder` | auto_config.py:141-202 | the ladder has 8 attempts when the capacity stage runs and 5 otherwise, the first being the configuration as given |
| `AutoConfig.RunFrom` | auto_config.py:141-205 | running the ladder from attempt k calls the solver at least once more and never more often than the ladder has attempts |
| `AutoConfig.RunWithAutoRelaxation` | auto_config.py:100-205 | the method's solution, configuration, report and call count are the ladder's outcome |
| `AutoConfig.RelaxHours` | auto_config.py:164-205 | entered with the configuration as given after every earlier stage failed, the hours stages and the last resort give the ladder's outcome |
| `AutoConfig.RelaxFirstSuccess` | auto_config.py:141-205 | at most 8 solver calls; the returned configuration was the last one tried, every earlier one failed, success reports that stage's relaxation and total failure reports all_failed |
| `AutoConfig.RelaxUnrelaxed` | auto_config.py:142-144 | success on the first call returns the configuration unchanged and no report |
| `AutoConfig.LadderCapacity` | auto_config.py:147-162 | capacities 1.5×, 2× and 3× the original in order, then back to the original for the hours stages |
| `AutoConfig.LadderHours` | auto_config.py:164-173 | hours stages add 2, 4, 6 hours and move closing by as much, capped at 23, with window (open·60, close·60) |
| `AutoConfig.LadderFinal` | auto_config.py:127-191 | the last resort passes no capacity but the same hours and window as the +6 hours stage, and repeats that call when it had no capacity |
| `AutoConfig.DisabledNeedsCapacity` | auto_config.py:186-202 | without capacity in use the last resort can never be the stage that succeeds |
| `Clustering.ClusterIds` | clustering.py:70-74 | `map(value_to_cluster)` gives one cluster id per row |
| `Clustering.RankStrict` | clustering.py:72 | a value sorting before another gets a smaller id |
| `Clustering.RankInjective` | clustering.py:72 | different values get different ids |
| `Clustering.RankBelow` | clustering.py:72 | every id is below the number of distinct values |
| `Clustering.RankOnto` | clustering.py:72 | every number below the number of distinct values is some value's id |
| `Clustering.ClusterIdsOrder` | clustering.py:70-74 | rows share an id exactly when they share a value, and ids follow the value order |
| `Clustering.ClusterIdsRange` | clustering.py:70-74 | the ids are exactly 0..k−1 for k distinct values |
| `Clustering.MarkClusterDepots` | clustering.py:76-83 | a row is a depot afterwards exactly when it was, or it is the first row of a cluster that had none |
| `Clustering.MarkedHasDepots` | clustering.py:76-83 | every cluster has a depot, existing flags are kept, only first rows are newly marked |
| `Clustering.ApplyColumnBasedClustering` | clustering.py:57-85 | the id column is the rank column and the depot flags satisfy the three guarantees above |
| `Clustering.SplitByCluster` | clustering.py:88-108 | no cluster column gives {0: all rows}; otherwise one part per distinct id holding that id's rows |
| `Clustering.PartRows` | clustering.py:106 | a part holds exactly its id's rows, in their original order |
| `Clustering.AggregateClusterSolutions` | clustering.py:111-148 | the result is the combination of the clusters in order and n_clusters counts all of them |
| `Clustering.CombinedSkipsErrors` | clustering.py:126-147 | an errored cluster adds nothing but the cluster count |
| `Clustering.CombinedAppend` | clustering.py:126-140 | the combination is additive over runs of clusters: totals add, details concatenate in order |
| `Clustering.TagKeepsFields` | clustering.py:135-140 | each copied detail keeps its fields and gains the cluster id and the label "C{cid}-V{vid}" |
| `Clustering.LabelInjective` | clustering.py:138 | for non-negative cluster ids the label determines both the cluster and the vehicle |
| `ExportUtils.ExportRoutes` | export_utils.py:15-49 | the rows are the export specification of the route details in order; no route_details gives none |
| `ExportUtils.RouteRowsContents` | export_utils.py:29-46 | one row per in-range stop index in route order; stop_sequence is the position; vehicle (default 'Unknown'), distance and time repeat; stop fields come from the frame row |
| `ExportUtils.RowsOfAllKept` | export_utils.py:33-34 | when every stop index names a frame row there is one row per stop, numbered 0, 1, 2, ... |
| `ExportUtils.AllRowsAppend` | export_utils.py:29 | the export of consecutive details is the concatenation of their exports |
| `Visualization.PaletteIsRgb` | visualization.py:26-39 | twelve colours, each three components in 0..255 |
| `Visualization.Repeated` | visualization.py:41-43 | the doubled palette has at least n entries, entry i being palette[i mod 12] |
| `Visualization.GetRouteColors` | visualization.py:15-45 | n ≥ 0 gives exactly n colours, entry i = palette[i mod 12]; negative n slices from the end as Python does; every entry is RGB |
| `Visualization.PaletteDistinct` | visualization.py:26-39 | the twelve palette colours are pairwise different |
| `Visualization.FewRoutesDistinct` | visualization.py:26-45 | up to twelve routes get the first palette entries in order, all different |

## Left out

- The OR-Tools model, search and solution extraction (vrp_solver.py:242-416): a foreign, stateful library. In the ladder the solver is a function parameter, so the model assumes it gives the same answer to the same arguments.
- The haversine formula (data_utils.py:13-36) is floating-point trigonometry; the distance is a function parameter. Float32 storage and float rounding are not modelled: the model computes with exact reals.
- Floating-point infinity and NaN are not modelled. The router's `float('inf')` start is an explicit "no candidate yet" case, and a NaN in a time window behaves like a missing one.
- `DataUtils.BuildTimeMatrix`: requires a nonzero speed, because numpy's division by zero yields infinities that the model has no values for.
- Python `int()` is modelled on ASCII digits and signs and on the ASCII white space it strips (space, tab, line feed, vertical tab, form feed, carriage return and the separators 0x1C–0x1F); underscores, non-ASCII digits and non-ASCII white space are not. `pd.to_numeric` is modelled on plain decimal literals; exponents are not. A float cell carries its printed form instead of a model of Python's float formatting.
- pandas index labels are assumed to be positions 0..n−1, as they are after normalisation; the router's stop indices are these positions.
- `ExportUtils.ExportRoutes`: stop indices are natural numbers, so the negative-index case of `df.iloc` is not modelled.
- `Clustering.ApplyColumnBasedClustering`: cluster column values are strings ordered as Python orders strings; mixed-type columns and NaN values are not modelled.
- `Clustering.SplitByCluster` returns a map, which has no order; the source builds its dict in sorted id order (clustering.py:105), and `Clustering.AggregateClusterSolutions` takes that iteration order as its input sequence of clusters (clustering.py:126). `Clustering.MarkClusterDepots` visits the distinct ids in an arbitrary order; its result does not depend on it.
- `AutoConfig.RunWithAutoRelaxation`: a configuration key holding None is treated as absent; in the source `None + 2` would raise for a present-but-None maximum duration.
- `AutoConfig.AutoConfigure`: the demand and time columns are numeric with missing values; other column contents are not modelled.
- The k-means clustering, synthetic data generation, Streamlit UI, PDF and map generation, scenario persistence, utilisation statistics and the command-line front end are outside the model.

Three behaviours of the code that a reader might not expect:

- The vehicle count is n/25 rounded to the nearest integer (auto_config.py:63), not its ceiling; `AutoConfig.AutoVehicles` states the rounding.
- Relaxation is not monotone: the capacity returns to its original value after the capacity stage (auto_config.py:161-162), as `AutoConfig.LadderCapacity` states.
- The comment at auto_config.py:186 announces that capacity and time windows are disabled as a last resort, but the solver call takes only the capacity argument from the configuration flags (auto_config.py:127-139), so time windows stay in force. `AutoConfig.LadderFinal` and `AutoConfig.DisabledNeedsCapacity` show that, without capacity in use, the last call repeats the +6 hours call.
