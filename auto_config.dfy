/**
 * Suggested solver parameters from a dataset's size and columns, and the
 * relaxation ladder that re-runs an opaque solver with looser parameters until
 * it reports no error.
 */
module AutoConfig {
  import opened Wrappers
  import VrpSolver

  // ---------------------------------------------------------------------
  // auto_configure_parameters
  // ---------------------------------------------------------------------

  /** The statistics the suggestion reads: row count and numeric columns, None standing for a missing value. */
  datatype StatsFrame = StatsFrame(nRows: nat, columns: map<string, seq<Option<real>>>)

  /** `Series.sum()`: missing values are skipped. */
  function ColumnSum(xs: seq<Option<real>>): real {
    if xs == [] then 0.0
    else ColumnSum(xs[..|xs| - 1]) + (if xs[|xs| - 1].Some? then xs[|xs| - 1].value else 0.0)
  }

  /** `Series.max()` over the present values; None when there is none. */
  function ColumnMax(xs: seq<Option<real>>): (r: Option<real>)
    ensures r.Some? ==> exists k :: 0 <= k < |xs| && xs[k] == Some(r.value)
    ensures r.Some? ==> forall k :: 0 <= k < |xs| && xs[k].Some? ==> xs[k].value <= r.value
    ensures r.None? ==> forall k :: 0 <= k < |xs| ==> xs[k].None?
  {
    if xs == [] then None
    else
      var m := ColumnMax(xs[..|xs| - 1]);
      var x := xs[|xs| - 1];
      if x.None? then m
      else if m.None? || m.value < x.value then x
      else m
  }

  /** `Series.notna().any()`. */
  predicate AnyPresent(xs: seq<Option<real>>) {
    exists k :: 0 <= k < |xs| && xs[k].Some?
  }

  /** A column name counts only when it is a non-empty string naming a column. */
  predicate DemandColumnGiven(df: StatsFrame, demandColumn: Option<string>) {
    demandColumn.Some? && demandColumn.value != "" && demandColumn.value in df.columns
  }

  predicate HasDemandData(df: StatsFrame, demandColumn: Option<string>) {
    DemandColumnGiven(df, demandColumn) && ColumnSum(df.columns[demandColumn.value]) > 0.0
  }

  predicate HasTimeWindows(df: StatsFrame, earliestColumn: Option<string>, latestColumn: Option<string>) {
    && earliestColumn.Some? && latestColumn.Some?
    && earliestColumn.value in df.columns && latestColumn.value in df.columns
    && (AnyPresent(df.columns[earliestColumn.value]) || AnyPresent(df.columns[latestColumn.value]))
  }

  datatype Suggestion = Suggestion(
    nVehicles: int,
    vehicleCapacity: real,
    maxRouteHours: real,
    depotOpenHour: int,
    depotCloseHour: int,
    speedKmh: int,
    useCapacity: bool,
    useTimeWindows: bool)

  /** `int(n / 25.0 + 0.5)` for a row count: n/25 rounded to the nearest integer, halves up. */
  function RoundPer25(n: nat): nat {
    (2 * n + 25) / 50
  }

  lemma RoundPer25Nearest(n: nat)
    ensures RoundPer25(n) as real <= n as real / 25.0 + 0.5 < RoundPer25(n) as real + 1.0
  {
    var k := RoundPer25(n);
    var r := (2 * n + 25) % 50;
    assert 2 * n + 25 == 50 * k + r && 0 <= r < 50;
    assert (2 * n + 25) as real == 50.0 * k as real + r as real;
    assert n as real / 25.0 + 0.5 == (2 * n + 25) as real / 50.0;
  }

  const Unlimited: real := 1000000000.0

  /** auto_configure_parameters. */
  function AutoConfigure(df: StatsFrame, demandColumn: Option<string>, earliestColumn: Option<string>, latestColumn: Option<string>): (r: Suggestion)
    ensures 1 <= r.nVehicles <= 50
    ensures r.useCapacity <==> HasDemandData(df, demandColumn)
    ensures r.useTimeWindows <==> HasTimeWindows(df, earliestColumn, latestColumn)
    ensures !r.useCapacity ==> r.vehicleCapacity == Unlimited
    ensures r.depotOpenHour == 8 && r.speedKmh == 45
  {
    var n := df.nRows;
    var tw := HasTimeWindows(df, earliestColumn, latestColumn);
    var vehicles := if RoundPer25(n) < 1 then 1 else if RoundPer25(n) > 50 then 50 else RoundPer25(n);
    var capacity :=
      if HasDemandData(df, demandColumn) then
        var col := df.columns[demandColumn.value];
        var total := ColumnSum(col);
        var base := total / (if n > 1 then n else 1) as real * 30.0;
        var maxDemand := ColumnMax(col).GetOr(0.0);
        if base > maxDemand * 1.5 then base else maxDemand * 1.5
      else Unlimited;
    Suggestion(vehicles, capacity, if tw then 10.0 else 9.0, 8, if tw then 20 else 18, 45,
               HasDemandData(df, demandColumn), tw)
  }

  /**
   * The vehicle count is n/25 rounded to the nearest integer, clamped to
   * [1, 50]: one vehicle below 13 rows, fifty from 1238 rows on.
   */
  lemma AutoVehicles(df: StatsFrame, demandColumn: Option<string>, earliestColumn: Option<string>, latestColumn: Option<string>)
    ensures var v := AutoConfigure(df, demandColumn, earliestColumn, latestColumn).nVehicles;
            && (df.nRows < 13 ==> v == 1)
            && (df.nRows >= 1238 ==> v == 50)
            && (13 <= df.nRows < 1238 ==> v as real <= df.nRows as real / 25.0 + 0.5 < v as real + 1.0)
  {
    RoundPer25Nearest(df.nRows);
  }

  /**
   * With demand data the capacity is the larger of 1.5 times the largest
   * demand and thirty stops' worth of the average demand.
   */
  lemma AutoCapacity(df: StatsFrame, demandColumn: Option<string>, earliestColumn: Option<string>, latestColumn: Option<string>)
    requires HasDemandData(df, demandColumn)
    ensures var r := AutoConfigure(df, demandColumn, earliestColumn, latestColumn);
            var col := df.columns[demandColumn.value];
            var n := if df.nRows > 1 then df.nRows else 1;
            && ColumnMax(col).Some?
            && r.vehicleCapacity >= ColumnMax(col).value * 1.5
            && r.vehicleCapacity >= ColumnSum(col) / n as real * 30.0
            && (r.vehicleCapacity == ColumnMax(col).value * 1.5 || r.vehicleCapacity == ColumnSum(col) / n as real * 30.0)
  {
    var col := df.columns[demandColumn.value];
    if ColumnMax(col).None? {
      NoneSumsToZero(col);
    }
  }

  lemma {:induction false} NoneSumsToZero(xs: seq<Option<real>>)
    requires forall k :: 0 <= k < |xs| ==> xs[k].None?
    ensures ColumnSum(xs) == 0.0
  {
    if xs != [] {
      NoneSumsToZero(xs[..|xs| - 1]);
    }
  }

  /** Time windows lengthen the day: 10 hours and closing at 20, otherwise 9 hours and closing at 18. */
  lemma AutoHours(df: StatsFrame, demandColumn: Option<string>, earliestColumn: Option<string>, latestColumn: Option<string>)
    ensures var r := AutoConfigure(df, demandColumn, earliestColumn, latestColumn);
            && (r.useTimeWindows ==> r.maxRouteHours == 10.0 && r.depotCloseHour == 20)
            && (!r.useTimeWindows ==> r.maxRouteHours == 9.0 && r.depotCloseHour == 18)
  {
  }

  // ---------------------------------------------------------------------
  // run_vrp_with_auto_relaxation
  // ---------------------------------------------------------------------

  /** The configuration dictionary; None is an absent key. */
  datatype Config = Config(
    nVehicles: int,
    vehicleCapacity: Option<real>,
    useCapacity: Option<bool>,
    useTimeWindows: Option<bool>,
    maxRouteHours: Option<real>,
    depotOpenHour: Option<int>,
    depotCloseHour: Option<int>,
    depotTimeWindow: Option<(int, int)>,
    strategy: Option<string>,
    metaheuristic: Option<string>,
    timeLimit: Option<int>)

  /** The positional arguments the solver receives. */
  datatype SolverArgs = SolverArgs(
    nVehicles: int,
    capacity: Option<real>,
    maxHours: Option<real>,
    window: (int, int),
    strategy: string,
    metaheuristic: string,
    timeLimit: int)

  type Solver = SolverArgs -> VrpSolver.Solution

  /** `try_solve`: capacity goes to the solver only while `use_capacity` is set; the other keys have defaults. */
  function Args(c: Config): (a: SolverArgs)
    ensures a.capacity.Some? <==> c.useCapacity == Some(true) && c.vehicleCapacity.Some?
    ensures a.maxHours == c.maxRouteHours
  {
    SolverArgs(
      c.nVehicles,
      if c.useCapacity == Some(true) then c.vehicleCapacity else None,
      c.maxRouteHours,
      c.depotTimeWindow.GetOr((480, 1200)),
      c.strategy.GetOr("PATH_CHEAPEST_ARC"),
      c.metaheuristic.GetOr("GUIDED_LOCAL_SEARCH"),
      c.timeLimit.GetOr(30))
  }

  predicate Succeeds(solve: Solver, c: Config) {
    solve(Args(c)).error.None?
  }

  /** What the third component of the result reports. */
  datatype RelaxationInfo =
    | CapacityRelaxed(capacityFactor: real, relaxedCapacity: real, hoursKept: Option<real>)
    | HoursRelaxed(capacityKept: Option<real>, relaxedHours: real, relaxedClose: int)
    | ConstraintsDisabled(finalHours: real, finalClose: int)
    | AllFailed

  /** The capacity stage runs when `use_capacity` is set and the capacity is truthy. */
  predicate CapacityStageRuns(c: Config) {
    c.useCapacity == Some(true) && c.vehicleCapacity.Some? && c.vehicleCapacity.value != 0.0
  }

  const Factors: seq<real> := [1.5, 2.0, 3.0]
  const ExtraHours: seq<int> := [2, 4, 6]

  function BaseHours(c: Config): real { c.maxRouteHours.GetOr(9.0) }
  function BaseClose(c: Config): int { c.depotCloseHour.GetOr(18) }
  function Open(c: Config): int { c.depotOpenHour.GetOr(8) }

  function Min(a: int, b: int): int { if a < b then a else b }

  /** One attempt of the ladder: the configuration tried and what is reported if it succeeds. */
  datatype Stage = Stage(config: Config, onSuccess: Option<RelaxationInfo>)

  /** The configuration with the capacity scaled by `factor`. */
  function CapacityConfig(c: Config, factor: real): Config
    requires CapacityStageRuns(c)
  {
    c.(vehicleCapacity := Some(c.vehicleCapacity.value * factor))
  }

  /** Two configurations that agree on every key but the capacity agree once both capacities are set alike. */
  lemma SameBesidesCapacity(c: Config, d: Config)
    requires c.vehicleCapacity == d.vehicleCapacity
    requires c.(vehicleCapacity := None) == d.(vehicleCapacity := None)
    ensures c == d
  {
    assert c.(vehicleCapacity := None).nVehicles == d.(vehicleCapacity := None).nVehicles;
  }

  function CapacityStage(c: Config, factor: real): Stage
    requires CapacityStageRuns(c)
  {
    Stage(CapacityConfig(c, factor), Some(CapacityRelaxed(factor, c.vehicleCapacity.value * factor, c.maxRouteHours)))
  }

  /** The configuration with the day lengthened by `extra` hours and the depot closing later, at most at 23. */
  function HoursConfig(c: Config, extra: int): Config {
    var close := Min(23, BaseClose(c) + extra);
    c.(maxRouteHours := Some(BaseHours(c) + extra as real),
       depotCloseHour := Some(close),
       depotTimeWindow := Some((Open(c) * 60, close * 60)))
  }

  function HoursStage(c: Config, extra: int): Stage {
    Stage(HoursConfig(c, extra), Some(HoursRelaxed(c.vehicleCapacity, BaseHours(c) + extra as real, Min(23, BaseClose(c) + extra))))
  }

  function FinalConfig(c: Config): Config {
    HoursConfig(c, 6).(useCapacity := Some(false), useTimeWindows := Some(false))
  }

  function FinalStage(c: Config): Stage {
    Stage(FinalConfig(c), Some(ConstraintsDisabled(BaseHours(c) + 6.0, Min(23, BaseClose(c) + 6))))
  }

  /** Every configuration the ladder would try, in order. */
  function Ladder(c: Config): (l: seq<Stage>)
    ensures |l| == (if CapacityStageRuns(c) then 8 else 5)
    ensures l[0] == Stage(c, None)
  {
    [Stage(c, None)]
    + (if CapacityStageRuns(c) then [CapacityStage(c, Factors[0]), CapacityStage(c, Factors[1]), CapacityStage(c, Factors[2])] else [])
    + [HoursStage(c, ExtraHours[0]), HoursStage(c, ExtraHours[1]), HoursStage(c, ExtraHours[2]), FinalStage(c)]
  }

  /** The outcome of running the ladder from stage `k` on: the first stage that succeeds, or the last failure. */
  datatype Outcome = Outcome(solution: VrpSolver.Solution, config: Config, info: Option<RelaxationInfo>, calls: nat)

  function RunFrom(solve: Solver, l: seq<Stage>, k: nat): (o: Outcome)
    requires k < |l|
    ensures k < o.calls <= |l|
    decreases |l| - k
  {
    var s := solve(Args(l[k].config));
    if s.error.None? then Outcome(s, l[k].config, l[k].onSuccess, k + 1)
    else if k == |l| - 1 then Outcome(s, l[k].config, Some(AllFailed), k + 1)
    else RunFrom(solve, l, k + 1)
  }

  function Relax(solve: Solver, c: Config): Outcome {
    RunFrom(solve, Ladder(c), 0)
  }

  /** Skipping stages that fail does not change the outcome. */
  lemma {:induction false} RunFromSkip(solve: Solver, l: seq<Stage>, j: nat, k: nat)
    requires j <= k < |l|
    requires forall i :: j <= i < k ==> !Succeeds(solve, l[i].config)
    ensures RunFrom(solve, l, j) == RunFrom(solve, l, k)
    decreases k - j
  {
    if j < k {
      RunFromSkip(solve, l, j + 1, k);
    }
  }

  /**
   * run_vrp_with_auto_relaxation: the configuration copy is updated stage by
   * stage and the solver called once per stage until one reports no error.
   */
  method RunWithAutoRelaxation(solve: Solver, initial: Config)
    returns (solution: VrpSolver.Solution, config: Config, info: Option<RelaxationInfo>, ghost calls: nat)
    ensures solution == Relax(solve, initial).solution
    ensures config == Relax(solve, initial).config && info == Relax(solve, initial).info
    ensures calls == Relax(solve, initial).calls
  {
    ghost var l := Ladder(initial);
    config := initial;
    solution := solve(Args(config));
    calls := 1;
    if solution.error.None? {
      return solution, config, None, calls;
    }

    if config.useCapacity == Some(true) && config.vehicleCapacity.Some? && config.vehicleCapacity.value != 0.0 {
      var originalCapacity := config.vehicleCapacity.value;
      for i := 0 to |Factors|
        invariant calls == i + 1
        invariant originalCapacity == initial.vehicleCapacity.value
        invariant forall j :: 0 <= j < calls ==> !Succeeds(solve, l[j].config)
        invariant config.vehicleCapacity.Some? && config == initial.(vehicleCapacity := config.vehicleCapacity)
      {
        var factor := Factors[i];
        config := config.(vehicleCapacity := Some(originalCapacity * factor));
        assert config == CapacityConfig(initial, factor) by {
          assert config.vehicleCapacity == Some(initial.vehicleCapacity.value * factor);
          assert CapacityConfig(initial, factor).vehicleCapacity == Some(initial.vehicleCapacity.value * factor);
          SameBesidesCapacity(config, CapacityConfig(initial, factor));
        }
        solution := solve(Args(config));
        calls := calls + 1;
        assert l[i + 1] == CapacityStage(initial, factor);
        assert config == l[i + 1].config;
        if solution.error.None? {
          info := Some(CapacityRelaxed(factor, config.vehicleCapacity.value, config.maxRouteHours));
          RunFromSkip(solve, l, 0, i + 1);
          return;
        }
      }
      config := config.(vehicleCapacity := Some(originalCapacity));
    }
    assert config == initial;
    solution, config, info, calls := RelaxHours(solve, initial, calls);
  }

  /**
   * Steps 3 and 4 of run_vrp_with_auto_relaxation, entered with the
   * configuration as given once every earlier stage has failed: the day is
   * lengthened three times, then the capacity is dropped.
   */
  method RelaxHours(solve: Solver, initial: Config, ghost first: nat)
    returns (solution: VrpSolver.Solution, config: Config, info: Option<RelaxationInfo>, ghost calls: nat)
    requires first == |Ladder(initial)| - 4
    requires forall j :: 0 <= j < first ==> !Succeeds(solve, Ladder(initial)[j].config)
    ensures solution == Relax(solve, initial).solution
    ensures config == Relax(solve, initial).config && info == Relax(solve, initial).info
    ensures calls == Relax(solve, initial).calls
  {
    ghost var l := Ladder(initial);
    config := initial;
    calls := first;

    var originalMaxHours := config.maxRouteHours.GetOr(9.0);
    var originalCloseHour := config.depotCloseHour.GetOr(18);
    var depotOpen := config.depotOpenHour.GetOr(8);
    for i := 0 to |ExtraHours|
      invariant calls == first + i
      invariant forall j :: 0 <= j < calls ==> !Succeeds(solve, l[j].config)
      invariant i == 0 ==> config == initial
      invariant i > 0 ==> config == HoursConfig(initial, ExtraHours[i - 1])
    {
      var extraHours := ExtraHours[i];
      var newCloseHour := Min(23, originalCloseHour + extraHours);
      config := config.(maxRouteHours := Some(originalMaxHours + extraHours as real),
                        depotCloseHour := Some(newCloseHour),
                        depotTimeWindow := Some((depotOpen * 60, newCloseHour * 60)));
      solution := solve(Args(config));
      calls := calls + 1;
      assert l[first + i] == HoursStage(initial, extraHours);
      assert config == l[first + i].config;
      if solution.error.None? {
        info := Some(HoursRelaxed(config.vehicleCapacity, config.maxRouteHours.value, newCloseHour));
        RunFromSkip(solve, l, 0, first + i);
        return;
      }
    }

    config := config.(useCapacity := Some(false), useTimeWindows := Some(false));
    var closeHour := Min(23, originalCloseHour + 6);
    config := config.(maxRouteHours := Some(originalMaxHours + 6 as real),
                      depotCloseHour := Some(closeHour),
                      depotTimeWindow := Some((depotOpen * 60, closeHour * 60)));
    solution := solve(Args(config));
    calls := calls + 1;
    assert l[calls - 1] == FinalStage(initial);
    RunFromSkip(solve, l, 0, calls - 1);
    if solution.error.None? {
      info := Some(ConstraintsDisabled(originalMaxHours + 6 as real, closeHour));
      return;
    }
    info := Some(AllFailed);
  }

  // ---------------------------------------------------------------------
  // What the ladder guarantees
  // ---------------------------------------------------------------------

  /**
   * The outcome comes from the first stage that succeeds and is reported as a
   * relaxation of that stage; when none succeeds the last failure is
   * returned with AllFailed. At most eight solver calls happen.
   */
  lemma RelaxFirstSuccess(solve: Solver, c: Config)
    ensures var o := Relax(solve, c);
            var l := Ladder(c);
            && o.calls <= 8
            && o.config == l[o.calls - 1].config
            && o.solution == solve(Args(o.config))
            && (forall i :: 0 <= i < o.calls - 1 ==> !Succeeds(solve, l[i].config))
            && (o.solution.error.None? ==> o.info == l[o.calls - 1].onSuccess)
            && (o.solution.error.Some? ==> o.calls == |l| && o.info == Some(AllFailed))
  {
    RelaxInduction(solve, Ladder(c), 0);
  }

  lemma {:induction false} RelaxInduction(solve: Solver, l: seq<Stage>, k: nat)
    requires k < |l|
    ensures var o := RunFrom(solve, l, k);
            && o.config == l[o.calls - 1].config
            && o.solution == solve(Args(o.config))
            && (forall i :: k <= i < o.calls - 1 ==> !Succeeds(solve, l[i].config))
            && (o.solution.error.None? ==> o.info == l[o.calls - 1].onSuccess)
            && (o.solution.error.Some? ==> o.calls == |l| && o.info == Some(AllFailed))
    decreases |l| - k
  {
    if !Succeeds(solve, l[k].config) && k < |l| - 1 {
      RelaxInduction(solve, l, k + 1);
    }
  }

  /** Success at the first call returns the configuration as given and no relaxation. */
  lemma RelaxUnrelaxed(solve: Solver, c: Config)
    requires Succeeds(solve, c)
    ensures Relax(solve, c) == Outcome(solve(Args(c)), c, None, 1)
  {
  }

  /**
   * The capacity stage tries 1.5, 2 and 3 times the original capacity in that
   * order; afterwards the capacity is back at the original, so the hours
   * stages run with less capacity than the last capacity attempt.
   */
  lemma LadderCapacity(c: Config)
    requires CapacityStageRuns(c)
    ensures var l := Ladder(c);
            && l[1].config.vehicleCapacity == Some(c.vehicleCapacity.value * 1.5)
            && l[2].config.vehicleCapacity == Some(c.vehicleCapacity.value * 2.0)
            && l[3].config.vehicleCapacity == Some(c.vehicleCapacity.value * 3.0)
            && (forall i :: 4 <= i < 7 ==> l[i].config.vehicleCapacity == c.vehicleCapacity)
  {
  }

  /** Stage `st` lengthens the day of `c` by `extra` hours and moves the depot's closing by as much, capped at 23. */
  predicate LengthenedBy(c: Config, st: Stage, extra: int) {
    var close := Min(23, BaseClose(c) + extra);
    && st.config.maxRouteHours == Some(BaseHours(c) + extra as real)
    && st.config.depotCloseHour == Some(close)
    && Args(st.config).window == (Open(c) * 60, close * 60)
  }

  /** The hours stages add 2, 4 and 6 hours, in that order, right after the capacity stage. */
  lemma LadderHours(c: Config)
    ensures var l := Ladder(c);
            var h := |l| - 4;
            && LengthenedBy(c, l[h], 2) && LengthenedBy(c, l[h + 1], 4) && LengthenedBy(c, l[h + 2], 6)
            && l[h].config.vehicleCapacity == c.vehicleCapacity
  {
  }

  /**
   * The last resort passes no capacity to the solver but the same hours and
   * depot window as the +6 hours stage: clearing `use_time_windows` reaches
   * the solver not at all. Without capacity in the +6 hours call the last
   * call repeats it exactly.
   */
  lemma LadderFinal(c: Config)
    ensures var l := Ladder(c);
            var a := Args(l[|l| - 1].config);
            var b := Args(l[|l| - 2].config);
            && a.capacity.None?
            && a == b.(capacity := None)
            && (b.capacity.None? ==> a == b)
  {
  }

  /**
   * With a deterministic solver, the last resort can only be what succeeds
   * when the +6 hours stage was passing a capacity.
   */
  lemma DisabledNeedsCapacity(solve: Solver, c: Config)
    requires !(c.useCapacity == Some(true) && c.vehicleCapacity.Some?)
    ensures !Relax(solve, c).info.Some? || !Relax(solve, c).info.value.ConstraintsDisabled?
  {
    RelaxFirstSuccess(solve, c);
    LadderFinal(c);
  }
}
