/** The `Clock_drift` object: the stations, the correlations and the processing parameters of
    one inversion, and the steps that update them in place between two runs of the external
    measurement. Every step is proved against the specification functions of the other
    modules. */
module Inversion {
  import opened Values
  import opened Text
  import opened Buckets
  import opened Entities
  import opened Queries
  import Apriori
  import opened Measurement
  import opened Design
  import Solve
  import opened Outliers
  import opened Inclusion
  import opened Offsets
  import opened Repository
  import opened Pipeline

  class ClockDrift {
    var stations: seq<Station>
    var correlations: seq<Correlation>
    var processingParameters: seq<ProcessingParameters>
    var referenceTime: int      // seconds since the epoch
    var iteration: int
    var matrix: Option<DesignMatrix>

    /** The object before its stations and correlations are read. */
    constructor (referenceTime: int, ps: seq<ProcessingParameters>)
      ensures this.referenceTime == referenceTime && processingParameters == ps
      ensures stations == [] && correlations == [] && iteration == 0 && matrix == None
    {
      this.referenceTime := referenceTime;
      processingParameters := ps;
      stations := [];
      correlations := [];
      iteration := 0;
      matrix := None;
    }

    /** `set_stations`: the rows after the header line of the station table; a station is
        kept when the correlation directory holds a file naming it, and numbered in the
        order kept. */
    method SetStations(lines: seq<string>, files: seq<string>, parse: FloatParser) returns (r: Result<()>)
      modifies this
      ensures correlations == old(correlations) && processingParameters == old(processingParameters)
      ensures referenceTime == old(referenceTime) && iteration == old(iteration) && matrix == old(matrix)
      ensures r.Ok? <==> StationsOf(TableRows(lines), files, parse).Ok?
      ensures r.Ok? ==> stations == StationsOf(TableRows(lines), files, parse).value && Indexed(stations)
      ensures r.Err? ==> stations == old(stations)
    {
      var ss := StationsOf(TableRows(lines), files, parse);
      if ss.Err? {
        return Err(ss.error);
      }
      StationsOfFacts(TableRows(lines), files, parse);
      stations := ss.value;
      return Ok(());
    }

    /** `set_correlations`: one correlation per `.sac` file of the (sorted) listing and per
        parameter set, for files whose stations are known and not both uncorrected. */
    method SetCorrelations(dir: string, files: seq<string>, trace: TraceReader, distance: Distance, parse: FloatParser)
      returns (r: Result<()>)
      modifies this
      ensures stations == old(stations) && processingParameters == old(processingParameters)
      ensures referenceTime == old(referenceTime) && iteration == old(iteration) && matrix == old(matrix)
      ensures r.Ok? <==> CorrelationsOf(stations, processingParameters, dir, files, referenceTime, trace, distance, parse).Ok?
      ensures r.Ok? ==> correlations == CorrelationsOf(stations, processingParameters, dir, files, referenceTime, trace, distance, parse).value
      ensures r.Ok? ==> forall k :: 0 <= k < |correlations| ==> WellFormed(stations, processingParameters, referenceTime, correlations[k])
      ensures r.Err? ==> correlations == old(correlations)
    {
      var cs := CorrelationsOf(stations, processingParameters, dir, files, referenceTime, trace, distance, parse);
      if cs.Err? {
        return Err(cs.error);
      }
      CorrelationsOfFacts(stations, processingParameters, dir, files, referenceTime, trace, distance, parse);
      correlations := cs.value;
      return Ok(());
    }

    /** `calculate_dt_ins`. */
    method CalculateDtIns(lag: Apriori.Lag) returns (r: Result<()>)
      modifies this
      ensures stations == old(stations) && processingParameters == old(processingParameters)
      ensures referenceTime == old(referenceTime) && iteration == old(iteration) && matrix == old(matrix)
      ensures r.Ok? <==> DtInsOk(stations, old(correlations), processingParameters, lag)
      ensures r.Ok? ==> correlations == DtInsAll(stations, old(correlations), processingParameters, lag)
    {
      var cs;
      r, cs := DtInsStep(stations, correlations, processingParameters, lag);
      correlations := cs;
    }

    /** `calculate_tapp_4_allcorrelations`: the measured correlations, then the periods of
        every station counted over them. */
    method CalculateTApp(lag: Apriori.Lag, measure: Routine, parse: FloatParser, daysApart: int) returns (r: Result<()>)
      modifies this
      ensures processingParameters == old(processingParameters)
      ensures referenceTime == old(referenceTime) && iteration == old(iteration) && matrix == old(matrix)
      ensures r.Ok? <==> TAppOk(old(stations), old(correlations), processingParameters, lag, measure, parse)
      ensures r.Ok? ==> && correlations == TAppAll(old(stations), old(correlations), processingParameters, lag, measure, parse)
                        && AllMeasured(correlations)
                        && stations == PeriodsAll(correlations, old(stations), daysApart)
      ensures r.Err? ==> stations == old(stations)
    {
      var cs;
      r, cs := TAppStep(stations, correlations, processingParameters, lag, measure, parse);
      correlations := cs;
      if r.Err? {
        return;
      }
      TAppAllFacts(stations, old(correlations), processingParameters, lag, measure, parse);
      stations := AllStationPeriods(correlations, stations, daysApart);
    }

    /** `no_corr_per_avg_date` of the station at position `k`. */
    method NoCorrPerAvgDate(k: nat, daysApart: int)
      requires k < |stations| && AllMeasured(correlations)
      modifies this
      ensures correlations == old(correlations) && processingParameters == old(processingParameters)
      ensures referenceTime == old(referenceTime) && iteration == old(iteration) && matrix == old(matrix)
      ensures stations == old(stations)[k := WithPeriods(correlations, old(stations)[k], daysApart)]
    {
      var s := StationPeriods(correlations, stations[k], daysApart);
      stations := stations[k := s];
    }

    /** `stations_with_few_corrs`. */
    method StationsWithFewCorrs(minPeriods: int, minObs: int, minLand: int, daysApart: int) returns (ghost passes: nat)
      requires AllMeasured(correlations) && forall k :: 0 <= k < |stations| ==> HasPeriods(stations[k])
      modifies this
      ensures correlations == old(correlations) && processingParameters == old(processingParameters)
      ensures referenceTime == old(referenceTime) && iteration == old(iteration) && matrix == old(matrix)
      ensures stations == Filtered(AllIncluded(old(stations)), correlations, minPeriods, minObs, minLand, daysApart)
      ensures passes == |old(stations)| - Included(stations) + 1
    {
      stations, passes := FilterStations(stations, correlations, minPeriods, minObs, minLand, daysApart);
    }

    /** `build_matrices`: when some correlation has no apparent shift to read, first
        `calculate_tapp_4_allcorrelations` with its default of 50 days; then the observations
        of every parameter set, the headers and the all-zero columns removed. With no
        observation at all, `np.asarray([])` is one-dimensional and `pd.DataFrame` rejects it
        against the headers and the empty index, so the call raises. */
    method BuildMatrices(lag: Apriori.Lag, measure: Routine, parse: FloatParser) returns (r: Result<()>)
      requires Indexed(stations)
      modifies this
      ensures processingParameters == old(processingParameters)
      ensures referenceTime == old(referenceTime) && iteration == old(iteration)
      ensures old(AllMeasured(correlations)) ==> correlations == old(correlations) && stations == old(stations)
      ensures !old(AllMeasured(correlations)) && TAppOk(old(stations), old(correlations), processingParameters, lag, measure, parse) ==>
                && correlations == TAppAll(old(stations), old(correlations), processingParameters, lag, measure, parse)
                && stations == PeriodsAll(correlations, old(stations), DefaultDaysApart)
      ensures r.Ok? <==> && (old(AllMeasured(correlations)) || TAppOk(old(stations), old(correlations), processingParameters, lag, measure, parse))
                         && AllMeasured(correlations) && Observations(stations, correlations, processingParameters).Ok?
                         && Observations(stations, correlations, processingParameters).value != []
      ensures ((old(AllMeasured(correlations)) || TAppOk(old(stations), old(correlations), processingParameters, lag, measure, parse))
               && Observations(stations, correlations, processingParameters) == Ok([]))
              ==> r == Err(EmptyDesign)
      ensures r.Ok? ==> var headers := HeaderNames(stations, 2 * |stations|);
                        && Indexed(stations) && |headers| == 2 * |stations|
                        && matrix == Some(Reduce(headers, Observations(stations, correlations, processingParameters).value))
      ensures r.Err? ==> matrix == old(matrix)
    {
      if !AllMeasured(correlations) {
        ghost var before := stations;
        r := CalculateTApp(lag, measure, parse, DefaultDaysApart);
        if r.Err? {
          return;
        }
        PeriodsAllFacts(correlations, before, DefaultDaysApart);
      }
      var obs := CollectObservations(stations, correlations, processingParameters);
      if obs.Err? {
        return Err(obs.error);
      }
      if obs.value == [] {
        return Err(EmptyDesign);
      }
      HeadersIndexed(stations, 2 * |stations|);
      matrix := Some(Reduce(HeaderNames(stations, 2 * |stations|), obs.value));
      return Ok(());
    }

    /** The part of `solve_eq` after the design is built: `lstsq` gives one value per kept
        column; each is appended to its station, and stations that need correction but got
        no a value receive zeros. */
    method SolveWith(lstsq: DesignMatrix -> seq<real>) returns (r: Result<()>)
      requires matrix.Some?
      modifies this
      ensures correlations == old(correlations) && processingParameters == old(processingParameters)
      ensures referenceTime == old(referenceTime) && matrix == old(matrix)
      ensures r.Ok? <==> SolveOk(old(stations), matrix.value, lstsq)
      ensures r.Ok? ==> stations == Solved(old(stations), matrix.value, lstsq) && iteration == old(iteration) + 1
      ensures r.Err? ==> iteration == old(iteration)
      ensures r.Err? && !Fits(lstsq(matrix.value), matrix.value) ==> r == Err(ShapeMismatch) && stations == old(stations)
      ensures r.Err? && Fits(lstsq(matrix.value), matrix.value) ==>
                var p := Walked(old(stations), matrix.value, lstsq);
                p.error.Some? && r == Err(p.error.value) && stations == p.stations
    {
      var d := matrix.value;
      var xs := lstsq(d);
      if |xs| != |d.columns| {
        return Err(ShapeMismatch);
      }
      var p := Solve.WalkColumns(stations, xs, d.columns);
      if p.error.Some? {
        stations := p.stations;
        return Err(p.error.value);
      }
      stations := Solve.Backfill(p.stations, p.solved);
      iteration := iteration + 1;
      return Ok(());
    }

    /** `solve_eq`: the design is built first when there is none yet. */
    method SolveEq(lstsq: DesignMatrix -> seq<real>, lag: Apriori.Lag, measure: Routine, parse: FloatParser)
      returns (r: Result<()>)
      requires matrix.None? ==> Indexed(stations)
      modifies this
      ensures processingParameters == old(processingParameters) && referenceTime == old(referenceTime)
      ensures old(matrix).Some? ==>
                && matrix == old(matrix) && correlations == old(correlations)
                && (r.Ok? <==> SolveOk(old(stations), matrix.value, lstsq))
                && (r.Ok? ==> stations == Solved(old(stations), matrix.value, lstsq))
      ensures r.Ok? ==> matrix.Some? && iteration == old(iteration) + 1
      ensures old(matrix).None? && r.Ok? ==> matrix.value.observations != []
      ensures r.Err? ==> iteration == old(iteration)
    {
      if matrix.None? {
        r := BuildMatrices(lag, measure, parse);
        if r.Err? {
          return;
        }
      }
      r := SolveWith(lstsq);
    }

    /** `remove_outiers`: for every ordered pair of different stations, test each correlation
        of the pair at `at` against the prediction of the pair's drift models. The sweep
        succeeds exactly when the station codes are distinct and every correlation of a pair
        can be tested, and then leaves the correlations as `Swept` describes. */
    method RemoveOutliers(maxError: real, at: int) returns (r: Result<()>)
      modifies this
      ensures stations == old(stations) && processingParameters == old(processingParameters)
      ensures referenceTime == old(referenceTime) && iteration == old(iteration) && matrix == old(matrix)
      ensures r.Ok? <==> DistinctCodes(stations) && SweepOk(stations, old(correlations), at, maxError)
      ensures r.Ok? ==> correlations == Swept(stations, old(correlations), at, maxError)
    {
      var cs;
      r, cs := Sweep(stations, correlations, maxError, at);
      correlations := cs;
    }

    /** `calculate_aprioridt_4_allcorrelations` (`SingleSided`) and
        `calculate_aprioridt_4_allcorrelations_corrected` (`Split`): for every pair of stations
        and every parameter set, write the group's apriori estimate into its correlations. It
        succeeds exactly when the station codes are distinct and every group it reaches can be
        estimated, and then leaves the correlations as `AprioriAll` describes. */
    method CalculateAprioriAll(lag: Apriori.Lag, policy: Apriori.Policy) returns (r: Result<()>)
      modifies this
      ensures stations == old(stations) && processingParameters == old(processingParameters)
      ensures referenceTime == old(referenceTime) && iteration == old(iteration) && matrix == old(matrix)
      ensures r.Ok? <==> DistinctCodes(stations) && Apriori.AprioriOk(stations, old(correlations), processingParameters, lag, policy)
      ensures r.Ok? ==> correlations == Apriori.AprioriAll(stations, old(correlations), processingParameters, lag, policy)
    {
      var cs;
      r, cs := AprioriSweep(stations, correlations, processingParameters, lag, policy);
      correlations := cs;
    }
  }

  /** `calculate_tapp_4_allcorrelations(days_apart=50)`, as `build_matrices` calls it. */
  const DefaultDaysApart := 50

  /** `file.readlines()[1:]`: the rows after the header line. */
  function TableRows(lines: seq<string>): seq<string>
  {
    if lines == [] then [] else lines[1..]
  }

  /** `sol.loc['values'] = x` accepts a solution with one value per column. */
  predicate Fits(xs: seq<real>, d: DesignMatrix)
  {
    |xs| == |d.columns|
  }

  /** The column walk of `solve_eq` on the solution of `d`. */
  function Walked(stations: seq<Station>, d: DesignMatrix, lstsq: DesignMatrix -> seq<real>): Solve.Progress
    requires Fits(lstsq(d), d)
  {
    Solve.Replay(Solve.Progress(stations, [], None), lstsq(d), d.columns, |d.columns|)
  }

  /** `solve_eq` gets through: the solution fits and every header names a known station. */
  predicate SolveOk(stations: seq<Station>, d: DesignMatrix, lstsq: DesignMatrix -> seq<real>)
  {
    Fits(lstsq(d), d) && Walked(stations, d, lstsq).error.None?
  }

  /** The stations after `solve_eq`: the walk, then zeros for the correcting stations that
      were not recorded as solved. */
  function Solved(stations: seq<Station>, d: DesignMatrix, lstsq: DesignMatrix -> seq<real>): seq<Station>
    requires SolveOk(stations, d, lstsq)
  {
    var p := Walked(stations, d, lstsq);
    Solve.Backfill(p.stations, p.solved)
  }

  /** The apriori check of `calculate_dt_ins`: the uncorrected all-pairs driver runs each time
      the loop meets a correlation whose estimate is still missing. Correlations the driver
      does not reach stay unset, so it may run again; that second run changes nothing. */
  method PrepareApriori(stations: seq<Station>, cs0: seq<Correlation>, ps: seq<ProcessingParameters>, lag: Apriori.Lag)
    returns (r: Result<()>, cs: seq<Correlation>)
    ensures r.Ok? <==> AprioriReady(stations, cs0, ps, lag)
    ensures r.Ok? ==> cs == Readied(stations, cs0, ps, lag)
  {
    cs := cs0;
    ghost var called := false;
    var k := 0;
    while k < |cs|
      invariant 0 <= k <= |cs| == |cs0|
      invariant !called ==> cs == cs0 && forall m :: 0 <= m < k ==> !cs0[m].apriori1.Unset?
      invariant called ==> && AnyUnset(cs0) && DistinctCodes(stations)
                           && Apriori.AprioriOk(stations, cs0, ps, lag, Apriori.SingleSided)
                           && cs == Apriori.AprioriAll(stations, cs0, ps, lag, Apriori.SingleSided)
    {
      if cs[k].apriori1.Unset? {
        if called {
          Apriori.AprioriAllTwice(stations, cs0, ps, lag, Apriori.SingleSided);
        }
        r, cs := AprioriSweep(stations, cs, ps, lag, Apriori.SingleSided);
        if r.Err? {
          assert !called;
          return;
        }
        called := true;
      }
      k := k + 1;
    }
    return Ok(()), cs;
  }

  /** `calculate_dt_ins` on the correlations `cs0`: the apriori check, then the offsets of
      every correlation. */
  method DtInsStep(stations: seq<Station>, cs0: seq<Correlation>, ps: seq<ProcessingParameters>, lag: Apriori.Lag)
    returns (r: Result<()>, cs: seq<Correlation>)
    ensures r.Ok? <==> DtInsOk(stations, cs0, ps, lag)
    ensures r.Ok? ==> cs == DtInsAll(stations, cs0, ps, lag)
  {
    r, cs := PrepareApriori(stations, cs0, ps, lag);
    if r.Err? {
      return;
    }
    r, cs := ComputeOffsets(stations, cs);
  }

  /** The offset check of `calculate_tapp_4_allcorrelations`: `calculate_dt_ins` runs when the
      loop meets a correlation whose offset list still holds the marker string. After one run
      no list holds it, so the run happens at most once. */
  method PrepareOffsets(stations: seq<Station>, cs0: seq<Correlation>, ps: seq<ProcessingParameters>, lag: Apriori.Lag)
    returns (r: Result<()>, cs: seq<Correlation>)
    ensures r.Ok? <==> OffsetsReady(stations, cs0, ps, lag)
    ensures r.Ok? ==> cs == WithOffsets(stations, cs0, ps, lag)
  {
    cs := cs0;
    ghost var called := false;
    var k := 0;
    while k < |cs|
      invariant 0 <= k <= |cs| == |cs0|
      invariant !called ==> cs == cs0 && forall m :: 0 <= m < k ==> !cs0[m].dtIns1.NotCalculated? && !cs0[m].dtIns2.NotCalculated?
      invariant called ==> NeedsOffsets(cs0) && DtInsOk(stations, cs0, ps, lag) && cs == DtInsAll(stations, cs0, ps, lag)
      invariant called ==> !NeedsOffsets(cs)
    {
      if cs[k].dtIns1.NotCalculated? || cs[k].dtIns2.NotCalculated? {
        assert !called;
        r, cs := DtInsStep(stations, cs, ps, lag);
        if r.Err? {
          return;
        }
        DtInsAllFacts(stations, cs0, ps, lag);
        called := true;
      }
      k := k + 1;
    }
    return Ok(()), cs;
  }

  /** `calculate_tapp_4_allcorrelations` up to its station loop: the offset check, then the
      measurement of every correlation. */
  method TAppStep(stations: seq<Station>, cs0: seq<Correlation>, ps: seq<ProcessingParameters>, lag: Apriori.Lag,
                  measure: Routine, parse: FloatParser)
    returns (r: Result<()>, cs: seq<Correlation>)
    ensures r.Ok? <==> TAppOk(stations, cs0, ps, lag, measure, parse)
    ensures r.Ok? ==> cs == TAppAll(stations, cs0, ps, lag, measure, parse)
  {
    r, cs := PrepareOffsets(stations, cs0, ps, lag);
    if r.Err? {
      return;
    }
    r, cs := MeasureAll(cs, measure, parse);
  }

  /** The two loops of `remove_outiers` over the stations, on the correlations `cs0`. On an
      error, `cs` holds the correlations as far as the sweep got. */
  method Sweep(stations: seq<Station>, cs0: seq<Correlation>, maxError: real, at: int)
    returns (r: Result<()>, cs: seq<Correlation>)
    ensures r.Ok? <==> DistinctCodes(stations) && SweepOk(stations, cs0, at, maxError)
    ensures r.Ok? ==> cs == Swept(stations, cs0, at, maxError)
  {
    ghost var want := FlagsOf(stations, cs0, at, maxError);
    ghost var done: set<(string, string)> := {};
    cs := cs0;
    var i := 0;
    while i < |stations|
      invariant 0 <= i <= |stations|
      invariant SweptSoFar(cs0, want, cs, done, {})
      invariant PairsDone(stations, done, i, 0)
    {
      var j := 0;
      while j < |stations|
        invariant 0 <= j <= |stations|
        invariant SweptSoFar(cs0, want, cs, done, {})
        invariant PairsDone(stations, done, i, j)
      {
        if i != j {
          var x, y := stations[i].code, stations[j].code;
          if x == y {
            return Err(SameStation), cs;
          }
          assert Queries.Covered(stations, {x, y});
          r, cs := SweepPair(stations, cs, x, y, maxError, at, cs0, want, done);
          if r.Err? {
            return;
          }
          PairsNext(stations, done, i, j);
          done := done + {(stations[i].code, stations[j].code), (stations[j].code, stations[i].code)};
        } else {
          PairsSelf(stations, done, i, j);
        }
        j := j + 1;
      }
      PairsRow(stations, done, i);
      i := i + 1;
    }
    PairsAll(stations, done);
    SweepDone(stations, cs0, want, cs, done, at, maxError);
    return Ok(()), cs;
  }

  /** The ordered pairs of different stations before (i, j) have different codes and have
      been processed, and every processed pair is one of two different listed codes. */
  predicate PairsDone(stations: seq<Station>, done: set<(string, string)>, i: nat, j: nat)
  {
    && (forall p :: p in done ==> p.0 != p.1 && Listed(stations, p.0) && Listed(stations, p.1))
    && (forall i', j' :: 0 <= i' < |stations| && 0 <= j' < |stations| && i' != j' && (i' < i || (i' == i && j' < j)) ==>
          stations[i'].code != stations[j'].code && (stations[i'].code, stations[j'].code) in done)
  }

  lemma PairsNext(stations: seq<Station>, done: set<(string, string)>, i: nat, j: nat)
    requires PairsDone(stations, done, i, j) && i < |stations| && j < |stations| && stations[i].code != stations[j].code
    ensures PairsDone(stations, done + {(stations[i].code, stations[j].code), (stations[j].code, stations[i].code)}, i, j + 1)
  {
    assert Listed(stations, stations[i].code) && Listed(stations, stations[j].code);
  }

  lemma PairsSelf(stations: seq<Station>, done: set<(string, string)>, i: nat, j: nat)
    requires PairsDone(stations, done, i, j) && i == j
    ensures PairsDone(stations, done, i, j + 1)
  {
  }

  lemma PairsRow(stations: seq<Station>, done: set<(string, string)>, i: nat)
    requires PairsDone(stations, done, i, |stations|)
    ensures PairsDone(stations, done, i + 1, 0)
  {
  }

  lemma PairsAll(stations: seq<Station>, done: set<(string, string)>)
    requires PairsDone(stations, done, |stations|, 0)
    ensures DistinctCodes(stations)
    ensures forall p :: p in done ==> p.0 != p.1 && Listed(stations, p.0) && Listed(stations, p.1)
    ensures forall i, j :: 0 <= i < |stations| && 0 <= j < |stations| && i != j ==>
              (stations[i].code, stations[j].code) in done
  {
  }

  /** The body of the sweep for the pair `x`, `y`: the stations of the pair's first
      correlation give the coefficients, and each correlation of the pair is tested. */
  method SweepPair(stations: seq<Station>, cs: seq<Correlation>, x: string, y: string, maxError: real, at: int,
                   ghost cs0: seq<Correlation>, ghost want: seq<Result<Correlation>>, ghost done: set<(string, string)>)
    returns (r: Result<()>, cs': seq<Correlation>)
    requires x != y && Queries.Covered(stations, {x, y})
    requires Wanted(stations, cs0, want, at, maxError)
    requires SweptSoFar(cs0, want, cs, done, {})
    ensures r.Ok? ==> SweptSoFar(cs0, want, cs', done + {(x, y), (y, x)}, {})
    ensures r.Err? ==> !SweepOk(stations, cs0, at, maxError)
  {
    cs' := cs;
    SoFarCodes(cs0, want, cs, done, {});
    PairPositionsByCodes(cs, cs0, x, y);
    PairCoefficientsByCodes(stations, cs, cs0, x, y, at);
    var ix := PairPositions(cs, x, y);
    if ix == [] {
      PairSkipped(stations, cs0, want, cs, done, x, y, at, maxError);
      return Ok(()), cs;
    }
    if PairCoefficients(stations, cs0, x, y, at).Err? {
      PairFails(stations, cs0, x, y, at, maxError);
    }
    var s1 :- GetStation(stations, cs[ix[0]].station1);
    var s2 :- GetStation(stations, cs[ix[0]].station2);
    if !s1.included || !s2.included {
      PairSkipped(stations, cs0, want, cs, done, x, y, at, maxError);
      return Ok(()), cs;
    }
    var ab1 :- Coefficients(s1, at);
    var ab2 :- Coefficients(s2, at);
    r, cs' := TestPair(stations, cs, x, y, ix, ab1, ab2, maxError, at, cs0, want, done);
  }

  /** The loop over the correlations of the pair `x`, `y` with the pair's coefficients. */
  method TestPair(stations: seq<Station>, cs: seq<Correlation>, x: string, y: string, ix: seq<nat>,
                  ab1: (real, real), ab2: (real, real), maxError: real, at: int,
                  ghost cs0: seq<Correlation>, ghost want: seq<Result<Correlation>>, ghost done: set<(string, string)>)
    returns (r: Result<()>, cs': seq<Correlation>)
    requires x != y && Queries.Covered(stations, {x, y}) && ix == PairPositions(cs0, x, y)
    requires Wanted(stations, cs0, want, at, maxError)
    requires PairCoefficients(stations, cs0, x, y, at) == Ok(Some((ab1, ab2)))
    requires SweptSoFar(cs0, want, cs, done, {})
    ensures r.Ok? ==> SweptSoFar(cs0, want, cs', done + {(x, y), (y, x)}, {})
    ensures r.Err? ==> !SweepOk(stations, cs0, at, maxError)
  {
    cs' := cs;
    SoFarLoosen(cs0, want, cs, done, {(x, y), (y, x)});
    var m := 0;
    while m < |ix|
      invariant 0 <= m <= |ix|
      invariant SweptSoFar(cs0, want, cs', done, {(x, y), (y, x)})
      invariant Finished(want, cs', ix, m)
    {
      TestFails(stations, cs0, want, cs', done, ix, m, x, y, ab1, ab2, at, maxError);
      var c := CheckOne(cs'[ix[m]], ab1, ab2, at, maxError);
      if c.Err? {
        return Err(c.error), cs';
      }
      TestWrites(stations, cs0, want, cs', done, ix, m, x, y, ab1, ab2, c.value, at, maxError);
      cs' := cs'[ix[m] := c.value];
      m := m + 1;
    }
    PairFinished(cs0, want, cs', done, x, y);
    return Ok(()), cs';
  }

  /** A correlation of the pair that cannot be tested makes the sweep fail. */
  lemma TestFails(stations: seq<Station>, cs0: seq<Correlation>, want: seq<Result<Correlation>>, cs: seq<Correlation>,
                  done: set<(string, string)>, ix: seq<nat>, m: nat, x: string, y: string,
                  ab1: (real, real), ab2: (real, real), at: int, maxError: real)
    requires x != y && Queries.Covered(stations, {x, y}) && ix == PairPositions(cs0, x, y) && m < |ix|
    requires PairCoefficients(stations, cs0, x, y, at) == Ok(Some((ab1, ab2)))
    requires |want| == |cs0| && Wanted(stations, cs0, want, at, maxError)
    requires SweptSoFar(cs0, want, cs, done, {(x, y), (y, x)})
    ensures ix[m] < |cs|
    ensures CheckOne(cs[ix[m]], ab1, ab2, at, maxError).Err? ==> !SweepOk(stations, cs0, at, maxError)
  {
    var k := ix[m];
    assert PairKey(cs0[k]) == {x, y};
    SoFarAt(cs0, want, cs, done, {(x, y), (y, x)}, k);
    MemberStep(stations, cs0, want, cs[k], x, y, k, (ab1, ab2), at, maxError);
  }

  /** Writing the tested value of the next correlation of the pair keeps the state, and that
      value is its flagged value. */
  lemma TestWrites(stations: seq<Station>, cs0: seq<Correlation>, want: seq<Result<Correlation>>, cs: seq<Correlation>,
                   done: set<(string, string)>, ix: seq<nat>, m: nat, x: string, y: string,
                   ab1: (real, real), ab2: (real, real), v: Correlation, at: int, maxError: real)
    requires x != y && ix == PairPositions(cs0, x, y) && m < |ix|
    requires PairCoefficients(stations, cs0, x, y, at) == Ok(Some((ab1, ab2)))
    requires |want| == |cs0| && Wanted(stations, cs0, want, at, maxError)
    requires SweptSoFar(cs0, want, cs, done, {(x, y), (y, x)})
    requires ix[m] < |cs| && CheckOne(cs[ix[m]], ab1, ab2, at, maxError) == Ok(v)
    requires Finished(want, cs, ix, m)
    ensures SweptSoFar(cs0, want, cs[ix[m] := v], done, {(x, y), (y, x)})
    ensures Finished(want, cs[ix[m] := v], ix, m + 1)
  {
    var k := ix[m];
    assert PairKey(cs0[k]) == {x, y};
    assert (cs0[k].station1, cs0[k].station2) in {(x, y), (y, x)};
    SoFarAt(cs0, want, cs, done, {(x, y), (y, x)}, k);
    MemberStep(stations, cs0, want, cs[k], x, y, k, (ab1, ab2), at, maxError);
    SoFarStep(cs0, want, cs, done, {(x, y), (y, x)}, k, v);
  }


  /** A pair whose coefficients cannot be read makes the sweep fail. */
  lemma PairFails(stations: seq<Station>, cs0: seq<Correlation>, x: string, y: string, at: int, maxError: real)
    requires x != y && Queries.Covered(stations, {x, y})
    requires PairCoefficients(stations, cs0, x, y, at).Err?
    ensures !SweepOk(stations, cs0, at, maxError)
  {
    var ix := PairPositions(cs0, x, y);
    assert ix != [];
    var k := ix[0];
    var c := cs0[k];
    assert PairKey(c) == {x, y};
    assert c.station1 != c.station2 by {
      assert x in PairKey(c) && y in PairKey(c);
    }
    PairPositionsByKey(cs0, c.station1, c.station2, x, y);
    assert Flag(stations, cs0, k, at, maxError).Err?;
  }


  /** The loops of the all-pairs apriori driver over the pairs i < j of stations and the
      parameter sets, on the correlations `cs0`. On an error, `cs` holds the correlations as far
      as the driver got. */
  method AprioriSweep(stations: seq<Station>, cs0: seq<Correlation>, ps: seq<ProcessingParameters>,
                      lag: Apriori.Lag, policy: Apriori.Policy)
    returns (r: Result<()>, cs: seq<Correlation>)
    ensures r.Ok? <==> DistinctCodes(stations) && Apriori.AprioriOk(stations, cs0, ps, lag, policy)
    ensures r.Ok? ==> cs == Apriori.AprioriAll(stations, cs0, ps, lag, policy)
  {
    ghost var done: set<(set<string>, ProcessingParameters)> := {};
    cs := cs0;
    var i := 0;
    while i < |stations|
      invariant 0 <= i <= |stations|
      invariant Apriori.AprioriSoFar(stations, cs0, cs, done, {}, lag, policy)
      invariant GroupsDone(stations, ps, done, i, i + 1, 0)
    {
      var j := i + 1;
      while j < |stations|
        invariant i + 1 <= j <= |stations|
        invariant Apriori.AprioriSoFar(stations, cs0, cs, done, {}, lag, policy)
        invariant GroupsDone(stations, ps, done, i, j, 0)
      {
        var x, y := stations[i].code, stations[j].code;
        if x == y {
          return Err(SameStation), cs;
        }
        var pair := PairCorrelations(cs, x, y).value;
        if |pair| == 0 {
          done := PairAbsent(stations, cs0, cs, ps, done, i, j, lag, policy);
        } else {
          r, cs, done := WritePair(stations, cs, ps, i, j, lag, policy, cs0, done);
          if r.Err? {
            return;
          }
        }
        j := j + 1;
      }
      GroupsRow(stations, ps, done, i);
      i := i + 1;
    }
    GroupsAll(stations, ps, done);
    Apriori.AprioriDone(stations, cs0, cs, ps, done, lag, policy);
    return Ok(()), cs;
  }

  /** The loop over the parameter sets for the pair of stations `i`, `j`. */
  method WritePair(stations: seq<Station>, cs: seq<Correlation>, ps: seq<ProcessingParameters>, i: nat, j: nat,
                   lag: Apriori.Lag, policy: Apriori.Policy,
                   ghost cs0: seq<Correlation>, ghost done: set<(set<string>, ProcessingParameters)>)
    returns (r: Result<()>, cs': seq<Correlation>, ghost done': set<(set<string>, ProcessingParameters)>)
    requires i < j < |stations| && stations[i].code != stations[j].code
    requires Apriori.AprioriSoFar(stations, cs0, cs, done, {}, lag, policy)
    requires GroupsDone(stations, ps, done, i, j, 0)
    ensures r.Ok? ==> Apriori.AprioriSoFar(stations, cs0, cs', done', {}, lag, policy)
    ensures r.Ok? ==> GroupsDone(stations, ps, done', i, j + 1, 0)
    ensures r.Err? ==> !Apriori.AprioriOk(stations, cs0, ps, lag, policy)
  {
    var x, y := stations[i].code, stations[j].code;
    assert Queries.Covered(stations, {x, y});
    cs', done' := cs, done;
    r := Ok(());
    var q := 0;
    while q < |ps|
      invariant 0 <= q <= |ps|
      invariant Apriori.AprioriSoFar(stations, cs0, cs', done', {}, lag, policy)
      invariant GroupsDone(stations, ps, done', i, j, q)
      invariant r.Ok?
    {
      r, cs' := WriteGroup(stations, cs', x, y, ps[q], lag, policy, cs0, ps, done');
      if r.Err? {
        return;
      }
      GroupsAdd(stations, ps, done', i, j, q);
      done' := done' + {({x, y}, ps[q])};
      q := q + 1;
    }
    GroupsNext(stations, ps, done', i, j);
  }

  /** The pairs i' < j' before (i, j) have different codes and have been processed under every
      parameter set, and so has (i, j) under the first `q`; every processed group is that of
      a pair of listed stations and a listed parameter set. */
  predicate GroupsDone(stations: seq<Station>, ps: seq<ProcessingParameters>, done: set<(set<string>, ProcessingParameters)>,
                       i: nat, j: nat, q: nat)
  {
    && (forall e :: e in done ==> Queries.Covered(stations, e.0) && e.1 in ps)
    && (forall i', j' :: 0 <= i' < j' < |stations| && (i' < i || (i' == i && j' < j)) ==>
          stations[i'].code != stations[j'].code)
    && (forall i', j', q' :: 0 <= i' < j' < |stations| && (i' < i || (i' == i && j' < j)) && 0 <= q' < |ps| ==>
          ({stations[i'].code, stations[j'].code}, ps[q']) in done)
    && (forall q' :: 0 <= q' < q && i < j < |stations| && q' < |ps| ==> ({stations[i].code, stations[j].code}, ps[q']) in done)
  }

  lemma GroupsAdd(stations: seq<Station>, ps: seq<ProcessingParameters>, done: set<(set<string>, ProcessingParameters)>,
                  i: nat, j: nat, q: nat)
    requires GroupsDone(stations, ps, done, i, j, q) && i < j < |stations| && q < |ps|
    requires stations[i].code != stations[j].code
    ensures GroupsDone(stations, ps, done + {({stations[i].code, stations[j].code}, ps[q])}, i, j, q + 1)
  {
    assert Queries.Covered(stations, {stations[i].code, stations[j].code});
  }

  lemma GroupsNext(stations: seq<Station>, ps: seq<ProcessingParameters>, done: set<(set<string>, ProcessingParameters)>,
                   i: nat, j: nat)
    requires GroupsDone(stations, ps, done, i, j, |ps|) && i < j < |stations|
    requires stations[i].code != stations[j].code
    ensures GroupsDone(stations, ps, done, i, j + 1, 0)
  {
    forall i', j', q' | 0 <= i' < j' < |stations| && (i' < i || (i' == i && j' < j + 1)) && 0 <= q' < |ps|
      ensures ({stations[i'].code, stations[j'].code}, ps[q']) in done
    {
      if i' == i && j' == j {
        assert q' < |ps|;
      }
    }
  }

  lemma GroupsRow(stations: seq<Station>, ps: seq<ProcessingParameters>, done: set<(set<string>, ProcessingParameters)>, i: nat)
    requires GroupsDone(stations, ps, done, i, |stations|, 0) && i < |stations|
    ensures GroupsDone(stations, ps, done, i + 1, i + 2, 0)
  {
  }

  lemma GroupsAll(stations: seq<Station>, ps: seq<ProcessingParameters>, done: set<(set<string>, ProcessingParameters)>)
    requires GroupsDone(stations, ps, done, |stations|, |stations| + 1, 0)
    ensures DistinctCodes(stations)
    ensures forall e :: e in done ==> Queries.Covered(stations, e.0) && e.1 in ps
    ensures forall i, j, q :: 0 <= i < j < |stations| && 0 <= q < |ps| ==>
              ({stations[i].code, stations[j].code}, ps[q]) in done
  {
  }

  /** A station pair without correlations is processed under every parameter set at once. */
  lemma PairAbsent(stations: seq<Station>, cs0: seq<Correlation>, cs: seq<Correlation>, ps: seq<ProcessingParameters>,
                   done: set<(set<string>, ProcessingParameters)>, i: nat, j: nat, lag: Apriori.Lag, policy: Apriori.Policy)
    returns (done': set<(set<string>, ProcessingParameters)>)
    requires i < j < |stations| && stations[i].code != stations[j].code
    requires Apriori.AprioriSoFar(stations, cs0, cs, done, {}, lag, policy)
    requires GroupsDone(stations, ps, done, i, j, 0)
    requires PairCorrelations(cs, stations[i].code, stations[j].code).value == []
    ensures Apriori.AprioriSoFar(stations, cs0, cs, done', {}, lag, policy)
    ensures GroupsDone(stations, ps, done', i, j + 1, 0)
  {
    var x, y := stations[i].code, stations[j].code;
    done' := done;
    var q := 0;
    while q < |ps|
      invariant 0 <= q <= |ps|
      invariant Apriori.AprioriSoFar(stations, cs0, cs, done', {}, lag, policy)
      invariant GroupsDone(stations, ps, done', i, j, q)
    {
      Apriori.NoPairNoGroup(stations, cs0, cs, done', x, y, ps[q], lag, policy);
      Apriori.GroupVacuous(stations, cs0, cs, done', x, y, ps[q], lag, policy);
      GroupsAdd(stations, ps, done', i, j, q);
      done' := done' + {({x, y}, ps[q])};
      q := q + 1;
    }
    GroupsNext(stations, ps, done', i, j);
  }

  /** One group: the correlations of the pair `x`, `y` holding the parameter object `p` (the
      positions of `correlations_with_parameters(get_correlations_of_stationpair(x, y), p)`,
      as `Apriori.GroupIsQuery` shows). A group of one gets (0, 0); a larger group gets
      its estimate, member by member. */
  method WriteGroup(stations: seq<Station>, cs: seq<Correlation>, x: string, y: string, p: ProcessingParameters,
                    lag: Apriori.Lag, policy: Apriori.Policy,
                    ghost cs0: seq<Correlation>, ghost ps: seq<ProcessingParameters>,
                    ghost done: set<(set<string>, ProcessingParameters)>)
    returns (r: Result<()>, cs': seq<Correlation>)
    requires x != y && Queries.Covered(stations, {x, y}) && p in ps
    requires Apriori.AprioriSoFar(stations, cs0, cs, done, {}, lag, policy)
    ensures r.Ok? ==> Apriori.AprioriSoFar(stations, cs0, cs', done + {({x, y}, p)}, {}, lag, policy)
    ensures r.Err? ==> !Apriori.AprioriOk(stations, cs0, ps, lag, policy)
  {
    cs' := cs;
    Apriori.SoFarKeys(stations, cs0, cs, done, {}, lag, policy);
    var ix := Apriori.GroupPositions(Apriori.Keys(cs), x, y, p);
    if |ix| == 0 {
      Apriori.GroupVacuous(stations, cs0, cs, done, x, y, p, lag, policy);
      return Ok(()), cs;
    }
    if |ix| == 1 {
      Apriori.LoneStep(stations, cs0, cs, done, x, y, p, lag, policy);
      cs' := cs[ix[0] := Apriori.SetApriori(cs[ix[0]], (Value(0.0), Value(0.0)))];
      return Ok(()), cs';
    }
    if Apriori.AprioriGroup(stations, Select(Apriori.Keys(cs), ix), lag, policy).Err? {
      Apriori.GroupFails(stations, cs0, ps, x, y, p, lag, policy);
    }
    var vals :- Apriori.AprioriGroup(stations, Select(Apriori.Keys(cs), ix), lag, policy);
    Apriori.SoFarLoosen(stations, cs0, cs, done, ({x, y}, p), lag, policy);
    var m := 0;
    while m < |ix|
      invariant 0 <= m <= |ix|
      invariant Apriori.AprioriSoFar(stations, cs0, cs', done, {({x, y}, p)}, lag, policy)
      invariant Apriori.GroupFinished(stations, cs0, cs', ix, m, lag, policy)
    {
      Apriori.GroupWriteStep(stations, cs0, cs', done, x, y, p, lag, policy, vals, m);
      cs' := cs'[ix[m] := Apriori.SetApriori(cs'[ix[m]], vals[m])];
      m := m + 1;
    }
    Apriori.GroupClosed(stations, cs0, cs', done, x, y, p, lag, policy);
    return Ok(()), cs';
  }
}
