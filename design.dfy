/** The inversion's linear forms: `Clock_drift.calculate_estimated_shift` and the rows of the
    design matrix built by `Clock_drift.build_matrices`, with the column headers and the removal
    of all-zero columns. */
module Design {
  import opened Values
  import opened Entities
  import opened Queries

  /** The clock-error coefficients (a, b) of a station at a given iteration: the stored values
      when the station needs correction, zero otherwise. `a[iteration]` and `b[iteration]` use
      Python indexing. */
  function Coefficients(s: Station, iteration: int): (r: Result<(real, real)>)
    ensures !s.needsCorrection ==> r == Ok((0.0, 0.0))
    ensures s.needsCorrection ==>
              (r.Ok? <==> PyIndex(|s.a|, iteration).Some? && PyIndex(|s.b|, iteration).Some?)
    ensures r.Err? ==> r.error == IndexOutOfRange
  {
    if !s.needsCorrection then Ok((0.0, 0.0))
    else
      var i := PyIndex(|s.a|, iteration);
      var j := PyIndex(|s.b|, iteration);
      if i.None? || j.None? then Err(IndexOutOfRange)
      else Ok((s.a[i.value], s.b[j.value]))
  }

  /** `calculate_estimated_shift`: twice the difference of the two instrument offsets
      a * t_N_lps + b predicted by the stations' coefficients. */
  function EstimatedShift(stations: seq<Station>, c: Correlation, iteration: int): (r: Result<real>)
    ensures r.Err? ==> r.error in {StationNotFound, IndexOutOfRange}
  {
    var s1 :- GetStation(stations, c.station1);
    var s2 :- GetStation(stations, c.station2);
    var ab1 :- Coefficients(s1, iteration);
    var ab2 :- Coefficients(s2, iteration);
    Ok(2.0 * (Instrument(ab1, c.tNLps) - Instrument(ab2, c.tNLps)))
  }

  /** The instrument offset f(t) = a * t + b. */
  function Instrument(ab: (real, real), t: real): real
  {
    ab.0 * t + ab.1
  }

  /** Swapping the two ends of a correlation negates the estimated shift. */
  lemma EstimatedShiftAntisymmetric(stations: seq<Station>, c: Correlation, iteration: int)
    requires GetStation(stations, c.station1).Ok? && GetStation(stations, c.station2).Ok?
    ensures var swapped := c.(station1 := c.station2, station2 := c.station1);
            var r, q := EstimatedShift(stations, c, iteration), EstimatedShift(stations, swapped, iteration);
            r.Ok? == q.Ok? && (r.Ok? ==> q.value == -r.value)
  {
  }

  /** The row of the design matrix for one correlation, over `n` unknowns: +2t and +2 in the
      (a, b) columns of station 1 when it needs correction, -2t and -2 in those of station 2
      when it does; station 2 is written last, so it wins when both ends are the same. */
  function Row(n: nat, i1: nat, needs1: bool, i2: nat, needs2: bool, t: real): (row: seq<real>)
    ensures |row| == n
  {
    seq(n, j =>
      if needs2 && j == 2 * i2 then -2.0 * t
      else if needs2 && j == 2 * i2 + 1 then -2.0
      else if needs1 && j == 2 * i1 then 2.0 * t
      else if needs1 && j == 2 * i1 + 1 then 2.0
      else 0.0)
  }

  /** `a = np.zeros(n)` followed by the slice and element assignments of `build_matrices`. */
  method BuildRow(n: nat, i1: nat, needs1: bool, i2: nat, needs2: bool, t: real) returns (row: array<real>)
    requires 2 * i1 + 1 < n && 2 * i2 + 1 < n
    ensures fresh(row) && row[..] == Row(n, i1, needs1, i2, needs2, t)
  {
    row := new real[n](_ => 0.0);
    if needs1 {
      row[2 * i1] := 2.0;
      row[2 * i1 + 1] := 2.0;
      row[2 * i1] := 2.0 * t;
    }
    if needs2 {
      row[2 * i2] := -2.0;
      row[2 * i2 + 1] := -2.0;
      row[2 * i2] := -2.0 * t;
    }
  }

  /** The shape promised for every row: the two stations' entries and zeros elsewhere. */
  lemma RowEntries(n: nat, i1: nat, needs1: bool, i2: nat, needs2: bool, t: real)
    requires 2 * i1 + 1 < n && 2 * i2 + 1 < n
    ensures var row := Row(n, i1, needs1, i2, needs2, t);
            (needs2 ==> row[2 * i2] == -2.0 * t && row[2 * i2 + 1] == -2.0) &&
            (needs1 && !(needs2 && i1 == i2) ==> row[2 * i1] == 2.0 * t && row[2 * i1 + 1] == 2.0) &&
            (forall j ::
               (0 <= j < n && !(needs1 && (j == 2 * i1 || j == 2 * i1 + 1)) &&
                !(needs2 && (j == 2 * i2 || j == 2 * i2 + 1)))
               ==> row[j] == 0.0)
  {
  }

  function Dot(u: seq<real>, v: seq<real>): real
    requires |u| == |v|
  {
    if u == [] then 0.0 else Dot(u[..|u| - 1], v[..|v| - 1]) + u[|u| - 1] * v[|v| - 1]
  }

  function Add(u: seq<real>, w: seq<real>): (r: seq<real>)
    requires |u| == |w|
    ensures |r| == |u| && forall j :: 0 <= j < |r| ==> r[j] == u[j] + w[j]
  {
    seq(|u|, j requires 0 <= j < |u| => u[j] + w[j])
  }

  /** A vector of length `n` holding `p` at `j` and `q` at `j + 1`, zero elsewhere. */
  function Pair(n: nat, j: nat, p: real, q: real): (r: seq<real>)
    ensures |r| == n
  {
    seq(n, k => PairEntry(k, j, p, q))
  }

  function PairEntry(k: int, j: nat, p: real, q: real): real
  {
    if k == j then p else if k == j + 1 then q else 0.0
  }

  lemma {:induction false} DotAdd(u: seq<real>, w: seq<real>, v: seq<real>)
    requires |u| == |w| == |v|
    ensures Dot(Add(u, w), v) == Dot(u, v) + Dot(w, v)
  {
    if u != [] {
      var n := |u|;
      assert Add(u, w)[..n - 1] == Add(u[..n - 1], w[..n - 1]);
      DotAdd(u[..n - 1], w[..n - 1], v[..n - 1]);
    }
  }

  lemma PairSnoc(n: nat, j: nat, p: real, q: real)
    requires 0 < n
    ensures Pair(n, j, p, q) == Pair(n - 1, j, p, q) + [PairEntry(n - 1, j, p, q)]
  {
  }

  /** The instrument offset a_i * t + b_i of station `i` under the unknowns `x` =
      [a_0, b_0, a_1, b_1, ...], or 0 when the station does not need correction. */
  function Offset(x: seq<real>, i: nat, needs: bool, t: real): real
    requires 2 * i + 1 < |x|
  {
    if needs then x[2 * i] * t + x[2 * i + 1] else 0.0
  }

  /** For two different stations the row's product with the unknowns is the shift
      2 * (dt_1 - dt_2) that the unknowns predict. */
  lemma RowTimesUnknowns(n: nat, i1: nat, needs1: bool, i2: nat, needs2: bool, t: real, x: seq<real>)
    requires i1 != i2 && |x| == n && 2 * i1 + 1 < n && 2 * i2 + 1 < n
    ensures Dot(Row(n, i1, needs1, i2, needs2, t), x) == 2.0 * (Offset(x, i1, needs1, t) - Offset(x, i2, needs2, t))
  {
    var u, w := Term(n, i1, needs1, 2.0, t), Term(n, i2, needs2, -2.0, t);
    assert Row(n, i1, needs1, i2, needs2, t) == Add(u, w);
    DotAdd(u, w, x);
    StationTerm(n, i1, needs1, 2.0, t, x);
    StationTerm(n, i2, needs2, -2.0, t, x);
  }

  /** A correlation of a station with itself keeps only the station-2 entries: its product
      with the unknowns is -2 * dt, not the zero shift the estimate gives. */
  lemma SelfPairRow(n: nat, i: nat, needs: bool, t: real, x: seq<real>)
    requires |x| == n && 2 * i + 1 < n
    ensures Dot(Row(n, i, needs, i, needs, t), x) == -2.0 * Offset(x, i, needs, t)
  {
    assert Row(n, i, needs, i, needs, t) == Term(n, i, needs, -2.0, t);
    StationTerm(n, i, needs, -2.0, t, x);
  }

  /** The entries one station contributes to a row, scaled by `k`. */
  function Term(n: nat, i: nat, needs: bool, k: real, t: real): seq<real>
  {
    Pair(n, 2 * i, if needs then k * t else 0.0, if needs then k else 0.0)
  }

  lemma StationTerm(n: nat, i: nat, needs: bool, k: real, t: real, x: seq<real>)
    requires |x| == n && 2 * i + 1 < n
    ensures Dot(Term(n, i, needs, k, t), x) == k * Offset(x, i, needs, t)
  {
    if needs {
      assert Term(n, i, needs, k, t) == Pair(n, 2 * i, k * t, k);
      DotPairInside(n, 2 * i, k * t, k, x);
      Scaled(k, x[2 * i], x[2 * i + 1], t);
    } else {
      assert Term(n, i, needs, k, t) == Pair(n, 2 * i, 0.0, 0.0);
      DotPairInside(n, 2 * i, 0.0, 0.0, x);
    }
  }

  lemma Scaled(k: real, a: real, b: real, t: real)
    ensures (k * t) * a + k * b == k * (a * t + b)
  {
  }

  lemma {:induction false} DotPairInside(n: nat, j: nat, p: real, q: real, v: seq<real>)
    requires |v| == n && j + 1 < n
    ensures Dot(Pair(n, j, p, q), v) == p * v[j] + q * v[j + 1]
  {
    if n == j + 2 {
      DotPairEnd(j, p, q, v);
    } else {
      var v' := v[..n - 1];
      DotPairInside(n - 1, j, p, q, v');
      assert v'[j] == v[j] && v'[j + 1] == v[j + 1];
      PairSnoc(n, j, p, q);
      assert v == v' + [v[n - 1]];
      DotSnoc(Pair(n - 1, j, p, q), v', 0.0, v[n - 1]);
      ZeroTimes(0.0, v[n - 1]);
    }
  }

  /** The vector ending in its pair `p`, `q`. */
  lemma DotPairEnd(j: nat, p: real, q: real, v: seq<real>)
    requires |v| == j + 2
    ensures Dot(Pair(j + 2, j, p, q), v) == p * v[j] + q * v[j + 1]
  {
    var z, v0, v1 := Pair(j, j, p, q), v[..j], v[..j + 1];
    DotZeros(z, v0);
    PairSnoc(j + 2, j, p, q);
    PairSnoc(j + 1, j, p, q);
    assert v1 == v0 + [v[j]] && v == v1 + [v[j + 1]];
    DotSnoc(z, v0, p, v[j]);
    DotSnoc(z + [p], v1, q, v[j + 1]);
  }

  lemma {:induction false} DotZeros(u: seq<real>, v: seq<real>)
    requires |u| == |v| && forall k :: 0 <= k < |u| ==> u[k] == 0.0
    ensures Dot(u, v) == 0.0
  {
    if u != [] {
      DotZeros(u[..|u| - 1], v[..|v| - 1]);
      ZeroTimes(u[|u| - 1], v[|v| - 1]);
    }
  }

  /** Stations are numbered by their position, as `set_stations` numbers them. */
  predicate Indexed(stations: seq<Station>)
  {
    forall k :: 0 <= k < |stations| ==> stations[k].index == k
  }

  /** With stations numbered by position and the unknowns holding each correcting station's
      coefficients at `iteration`, the row of a correlation between two different stations
      predicts exactly `calculate_estimated_shift`. */
  lemma RowMatchesEstimate(stations: seq<Station>, c: Correlation, iteration: int, x: seq<real>)
    requires Indexed(stations) && |x| == 2 * |stations|
    requires forall k :: 0 <= k < |stations| && stations[k].needsCorrection ==>
               Coefficients(stations[k], iteration) == Ok((x[2 * k], x[2 * k + 1]))
    requires c.station1 != c.station2
    requires GetStation(stations, c.station1).Ok? && GetStation(stations, c.station2).Ok?
    ensures var s1, s2 := GetStation(stations, c.station1).value, GetStation(stations, c.station2).value;
            EstimatedShift(stations, c, iteration)
              == Ok(Dot(Row(2 * |stations|, s1.index, s1.needsCorrection, s2.index, s2.needsCorrection, c.tNLps), x))
  {
    var s1, s2 := GetStation(stations, c.station1).value, GetStation(stations, c.station2).value;
    var k1 :| 0 <= k1 < |stations| && s1 == stations[k1];
    var k2 :| 0 <= k2 < |stations| && s2 == stations[k2];
    assert s1.index == k1 && s2.index == k2;
    RowTimesUnknowns(2 * |stations|, k1, s1.needsCorrection, k2, s2.needsCorrection, c.tNLps, x);
    OffsetIsInstrument(s1, k1, iteration, x, c.tNLps);
    OffsetIsInstrument(s2, k2, iteration, x, c.tNLps);
    ShiftOfStations(stations, c, iteration, s1, s2);
  }

  lemma ShiftOfStations(stations: seq<Station>, c: Correlation, iteration: int, s1: Station, s2: Station)
    requires GetStation(stations, c.station1) == Ok(s1) && GetStation(stations, c.station2) == Ok(s2)
    requires Coefficients(s1, iteration).Ok? && Coefficients(s2, iteration).Ok?
    ensures EstimatedShift(stations, c, iteration)
              == Ok(2.0 * (Instrument(Coefficients(s1, iteration).value, c.tNLps) - Instrument(Coefficients(s2, iteration).value, c.tNLps)))
  {
  }

  lemma OffsetIsInstrument(s: Station, k: nat, iteration: int, x: seq<real>, t: real)
    requires 2 * k + 1 < |x|
    requires s.needsCorrection ==> Coefficients(s, iteration) == Ok((x[2 * k], x[2 * k + 1]))
    ensures Coefficients(s, iteration).Ok?
    ensures Offset(x, k, s.needsCorrection, t) == Instrument(Coefficients(s, iteration).value, t)
  {
  }

  /** The first station numbered `i`. */
  function StationWithIndex(stations: seq<Station>, i: nat): (r: Option<Station>)
    ensures r.Some? ==> r.value in stations && r.value.index == i
    ensures r.None? <==> forall k :: 0 <= k < |stations| ==> stations[k].index != i
  {
    if stations == [] then None
    else if stations[0].index == i then Some(stations[0])
    else StationWithIndex(stations[1..], i)
  }

  /** The two column headers of a station. */
  function AHeader(code: string): string { "a*t_{N_lps} (" + code + ")" }
  function BHeader(code: string): string { "b (" + code + ")" }

  /** The header loop of `build_matrices` over `i` in `range(count)`: the two headers of the
      first station numbered `i`, nothing when there is none. */
  function HeaderNames(stations: seq<Station>, count: nat): seq<string>
  {
    if count == 0 then []
    else
      HeaderNames(stations, count - 1) +
      match StationWithIndex(stations, count - 1)
      case None => []
      case Some(s) => [AHeader(s.code), BHeader(s.code)]
  }

  /** With stations numbered by position, the headers of the full matrix are the pair
      "a*t_{N_lps} (code)", "b (code)" of every station, in order: column 2i and 2i + 1 belong
      to station i. */
  lemma {:induction false} HeadersIndexed(stations: seq<Station>, count: nat)
    requires Indexed(stations)
    ensures var h := HeaderNames(stations, count);
            var m := if count < |stations| then count else |stations|;
            |h| == 2 * m &&
            forall i :: 0 <= i < m ==> h[2 * i] == AHeader(stations[i].code) && h[2 * i + 1] == BHeader(stations[i].code)
  {
    if count > 0 {
      HeadersIndexed(stations, count - 1);
      var prev := HeaderNames(stations, count - 1);
      if count - 1 < |stations| {
        assert stations[count - 1].index == count - 1;
        assert StationWithIndex(stations, count - 1) == Some(stations[count - 1]);
        HeadersSnoc(stations, prev, count - 1);
      } else {
        assert StationWithIndex(stations, count - 1).None?;
        assert HeaderNames(stations, count) == prev;
      }
    }
  }

  lemma HeadersSnoc(stations: seq<Station>, h: seq<string>, m: nat)
    requires m < |stations| && |h| == 2 * m
    requires forall i :: 0 <= i < m ==> h[2 * i] == AHeader(stations[i].code) && h[2 * i + 1] == BHeader(stations[i].code)
    ensures var h' := h + [AHeader(stations[m].code), BHeader(stations[m].code)];
            |h'| == 2 * (m + 1) &&
            forall i :: 0 <= i < m + 1 ==> h'[2 * i] == AHeader(stations[i].code) && h'[2 * i + 1] == BHeader(stations[i].code)
  {
  }

  /** One accepted correlation of `build_matrices`: its row, its observed shift and the
      columns of the summary table. */
  datatype Observation = Observation(
    row: seq<real>,
    tApp: real,
    station1: string,
    station2: string,
    averageDate: int,
    cplDist: real,
    numberDays: Num,
    estimatedShift: Num)

  /** A correlation enters the inversion when both stations are found and included and its
      latest apparent shift is not NaN. */
  predicate Accepted(stations: seq<Station>, c: Correlation)
    requires Measured(c)
  {
    GetStation(stations, c.station1).Ok? && GetStation(stations, c.station2).Ok? &&
    GetStation(stations, c.station1).value.included && GetStation(stations, c.station2).value.included &&
    LatestResolved(c)
  }

  /** The estimated shift column: NaN after the first measurement, otherwise the shift
      predicted by the latest coefficients. */
  function Estimate(stations: seq<Station>, c: Correlation): (r: Result<Num>)
    requires Measured(c)
    ensures |c.tApp.items| == 1 ==> r == Ok(Unresolved)
    ensures |c.tApp.items| > 1 ==> (r.Ok? <==> EstimatedShift(stations, c, -1).Ok?)
    ensures |c.tApp.items| > 1 && r.Ok? ==> r.value == Value(EstimatedShift(stations, c, -1).value)
  {
    if |c.tApp.items| == 1 then Ok(Unresolved)
    else
      var e :- EstimatedShift(stations, c, -1);
      Ok(Value(e))
  }

  /** The body of the correlation loop of `build_matrices`: `None` when the correlation is
      skipped. */
  function Visit(stations: seq<Station>, c: Correlation): (r: Result<Option<Observation>>)
    requires Measured(c)
    ensures r.Ok? && r.value.Some? ==> |r.value.value.row| == 2 * |stations|
  {
    var s1 :- GetStation(stations, c.station1);
    var s2 :- GetStation(stations, c.station2);
    if !s1.included || !s2.included || !LatestResolved(c) then Ok(None)
    else
      var e :- Estimate(stations, c);
      Ok(Some(Observation(Row(2 * |stations|, s1.index, s1.needsCorrection, s2.index, s2.needsCorrection, c.tNLps),
                          LatestTApp(c).v, c.station1, c.station2, c.averageDate, c.cplDist, c.numberDays, e)))
  }

  /** A correlation raises when one of its stations is unknown, or when it is accepted and
      its estimated shift cannot be computed; otherwise it yields an observation exactly when
      it is accepted, holding the row of its two stations, its latest apparent shift, its
      station codes and its estimated shift. */
  lemma VisitCases(stations: seq<Station>, c: Correlation)
    requires Measured(c)
    ensures var r := Visit(stations, c);
      && (r.Err? <==> GetStation(stations, c.station1).Err? || GetStation(stations, c.station2).Err? ||
                      (Accepted(stations, c) && Estimate(stations, c).Err?))
      && (r.Ok? ==> (r.value.Some? <==> Accepted(stations, c)))
      && (r.Ok? && r.value.Some? ==>
            var o, s1, s2 := r.value.value, GetStation(stations, c.station1).value, GetStation(stations, c.station2).value;
            o.row == Row(2 * |stations|, s1.index, s1.needsCorrection, s2.index, s2.needsCorrection, c.tNLps) &&
            Value(o.tApp) == LatestTApp(c) && o.station1 == c.station1 && o.station2 == c.station2 &&
            o.estimatedShift == Estimate(stations, c).value)
  {
  }

  /** Number of accepted correlations. */
  function AcceptedCount(stations: seq<Station>, cs: seq<Correlation>): nat
    requires AllMeasured(cs)
  {
    if cs == [] then 0
    else AcceptedCount(stations, cs[..|cs| - 1]) + (if Accepted(stations, cs[|cs| - 1]) then 1 else 0)
  }

  /** The correlation loop of `build_matrices` over one parameter set, stopping at the first
      exception. */
  function VisitAll(stations: seq<Station>, cs: seq<Correlation>): (r: Result<seq<Observation>>)
    requires AllMeasured(cs)
    ensures r.Ok? ==> forall m :: 0 <= m < |r.value| ==> |r.value[m].row| == 2 * |stations|
  {
    if cs == [] then Ok([])
    else
      var prev := VisitAll(stations, cs[..|cs| - 1]);
      assert forall k :: 0 <= k < |cs| - 1 ==> cs[..|cs| - 1][k] == cs[k];
      if prev.Err? then Err(prev.error)
      else
        var o :- Visit(stations, cs[|cs| - 1]);
        Ok(prev.value + (if o.Some? then [o.value] else []))
  }

  /** The loop keeps one observation per accepted correlation. */
  lemma {:induction false} VisitAllCount(stations: seq<Station>, cs: seq<Correlation>)
    requires AllMeasured(cs)
    ensures VisitAll(stations, cs).Ok? ==> |VisitAll(stations, cs).value| == AcceptedCount(stations, cs)
  {
    if cs != [] {
      var n := |cs| - 1;
      assert AllMeasured(cs[..n]);
      VisitAllCount(stations, cs[..n]);
      VisitCases(stations, cs[n]);
    }
  }

  /** Both loops of `build_matrices`: for every parameter set in order, its correlations in
      stored order. */
  function Observations(stations: seq<Station>, corrs: seq<Correlation>, ps: seq<ProcessingParameters>): (r: Result<seq<Observation>>)
    requires AllMeasured(corrs)
    ensures r.Ok? ==> forall m :: 0 <= m < |r.value| ==> |r.value[m].row| == 2 * |stations|
  {
    if ps == [] then Ok([])
    else
      var prev :- Observations(stations, corrs, ps[..|ps| - 1]);
      var cur :- VisitAll(stations, WithParameters(corrs, ps[|ps| - 1]));
      Ok(prev + cur)
  }

  /** An exception stops the loops over the parameter sets: the result is that of the
      first failing prefix. */
  lemma {:induction false} ObservationsStop(stations: seq<Station>, corrs: seq<Correlation>, ps: seq<ProcessingParameters>, q: nat)
    requires AllMeasured(corrs) && q <= |ps| && Observations(stations, corrs, ps[..q]).Err?
    ensures Observations(stations, corrs, ps).Err?
    decreases |ps| - q
  {
    if q < |ps| {
      assert ps[..q + 1][..q] == ps[..q];
      ObservationsPrefixFails(stations, corrs, ps[..q + 1]);
      ObservationsStop(stations, corrs, ps, q + 1);
    } else {
      assert ps[..q] == ps;
    }
  }

  lemma ObservationsPrefixFails(stations: seq<Station>, corrs: seq<Correlation>, ps: seq<ProcessingParameters>)
    requires AllMeasured(corrs) && ps != [] && Observations(stations, corrs, ps[..|ps| - 1]).Err?
    ensures Observations(stations, corrs, ps).Err?
  {
  }

  lemma ObservationsSnoc(stations: seq<Station>, corrs: seq<Correlation>, ps: seq<ProcessingParameters>, q: nat)
    requires AllMeasured(corrs) && q < |ps| && Observations(stations, corrs, ps[..q]).Ok?
    ensures var cur := VisitAll(stations, WithParameters(corrs, ps[q]));
            && (cur.Err? ==> Observations(stations, corrs, ps[..q + 1]).Err?)
            && (cur.Ok? ==> Observations(stations, corrs, ps[..q + 1]) == Ok(Observations(stations, corrs, ps[..q]).value + cur.value))
  {
    assert ps[..q + 1][..q] == ps[..q] && ps[..q + 1][q] == ps[q];
  }

  lemma VisitAllSnoc(stations: seq<Station>, cs: seq<Correlation>, m: nat)
    requires AllMeasured(cs) && m < |cs| && AllMeasured(cs[..m]) && VisitAll(stations, cs[..m]).Ok?
    ensures AllMeasured(cs[..m + 1])
    ensures Visit(stations, cs[m]).Err? ==> VisitAll(stations, cs[..m + 1]).Err?
    ensures Visit(stations, cs[m]).Ok? ==>
              var o := Visit(stations, cs[m]).value;
              VisitAll(stations, cs[..m + 1]) == Ok(VisitAll(stations, cs[..m]).value + if o.Some? then [o.value] else [])
  {
    var prefix := cs[..m + 1];
    assert prefix[..m] == cs[..m] && prefix[m] == cs[m];
  }

  /** Once the loop has raised, later correlations change nothing. */
  lemma {:induction false} VisitAllStop(stations: seq<Station>, cs: seq<Correlation>, m: nat)
    requires AllMeasured(cs) && m <= |cs| && AllMeasured(cs[..m]) && VisitAll(stations, cs[..m]).Err?
    ensures VisitAll(stations, cs).Err?
    decreases |cs| - m
  {
    if m < |cs| {
      var prefix := cs[..m + 1];
      assert prefix[..m] == cs[..m];
      assert AllMeasured(prefix);
      assert VisitAll(stations, prefix).Err?;
      VisitAllStop(stations, cs, m + 1);
    } else {
      assert cs[..m] == cs;
    }
  }

  /** The correlation loop of `build_matrices` over one parameter set. */
  method VisitGroup(stations: seq<Station>, cs: seq<Correlation>) returns (r: Result<seq<Observation>>)
    requires AllMeasured(cs)
    ensures r.Ok? <==> VisitAll(stations, cs).Ok?
    ensures r.Ok? ==> r == VisitAll(stations, cs)
  {
    var obs := [];
    for m := 0 to |cs|
      invariant AllMeasured(cs[..m]) && VisitAll(stations, cs[..m]) == Ok(obs)
    {
      var o := Visit(stations, cs[m]);
      VisitAllSnoc(stations, cs, m);
      if o.Err? {
        VisitAllStop(stations, cs, m + 1);
        return Err(o.error);
      }
      obs := obs + if o.value.Some? then [o.value.value] else [];
    }
    assert cs[..|cs|] == cs;
    return Ok(obs);
  }

  /** Both loops of `build_matrices`: the observations of every parameter set in turn. */
  method CollectObservations(stations: seq<Station>, corrs: seq<Correlation>, ps: seq<ProcessingParameters>)
    returns (r: Result<seq<Observation>>)
    requires AllMeasured(corrs)
    ensures r.Ok? <==> Observations(stations, corrs, ps).Ok?
    ensures r.Ok? ==> r == Observations(stations, corrs, ps)
  {
    var obs := [];
    for q := 0 to |ps|
      invariant Observations(stations, corrs, ps[..q]) == Ok(obs)
    {
      var group := WithParameters(corrs, ps[q]);
      var cur := VisitGroup(stations, group);
      ObservationsSnoc(stations, corrs, ps, q);
      if cur.Err? {
        ObservationsStop(stations, corrs, ps, q + 1);
        return Err(cur.error);
      }
      obs := obs + cur.value;
    }
    assert ps[..|ps|] == ps;
    return Ok(obs);
  }

  /** The rows of the observations, one per entry of the observation vector. */
  function Rows(obs: seq<Observation>): (rows: seq<seq<real>>)
    ensures |rows| == |obs| && forall r :: 0 <= r < |rows| ==> rows[r] == obs[r].row
  {
    seq(|obs|, r requires 0 <= r < |obs| => obs[r].row)
  }

  /** The stored design: column headers and rows with every all-zero column removed, and the
      observations (the right-hand side and the summary table). */
  datatype DesignMatrix = DesignMatrix(columns: seq<string>, rows: seq<seq<real>>, observations: seq<Observation>)

  function Reduce(headers: seq<string>, obs: seq<Observation>): (d: DesignMatrix)
    requires forall m :: 0 <= m < |obs| ==> |obs[m].row| == |headers|
    ensures |d.rows| == |d.observations| == |obs|
    ensures forall r :: 0 <= r < |d.rows| ==> |d.rows[r]| == |d.columns|
  {
    var ks := KeptColumns(Rows(obs), |headers|);
    DesignMatrix(Select(headers, ks), seq(|obs|, r requires 0 <= r < |obs| => Select(obs[r].row, ks)), obs)
  }

  /** Removing the zero columns keeps every row's product with the unknowns, so the reduced
      system has the same residuals as the full one. */
  lemma ReducePreservesProducts(headers: seq<string>, obs: seq<Observation>, x: seq<real>, r: nat)
    requires forall m :: 0 <= m < |obs| ==> |obs[m].row| == |headers|
    requires |x| == |headers| && r < |obs|
    ensures Dot(Reduce(headers, obs).rows[r], Select(x, KeptColumns(Rows(obs), |headers|))) == Dot(obs[r].row, x)
  {
    DropZeroColumns(Rows(obs), r, x);
  }

  /** Some row is non-zero in column `j`. */
  predicate NonZeroColumn(rows: seq<seq<real>>, j: nat)
  {
    exists r :: 0 <= r < |rows| && j < |rows[r]| && rows[r][j] != 0.0
  }

  /** `matrix_A.loc[:, (matrix_A != 0).any(axis=0)]`: the columns to keep, in order. */
  function KeptColumns(rows: seq<seq<real>>, width: nat): (ks: seq<nat>)
    ensures forall m :: 0 <= m < |ks| ==> ks[m] < width
  {
    if width == 0 then []
    else KeptColumns(rows, width - 1) + (if NonZeroColumn(rows, width - 1) then [width - 1] else [])
  }

  /** The kept columns are, in increasing order, exactly those in which some row is non-zero. */
  lemma {:induction false} KeptColumnsExact(rows: seq<seq<real>>, width: nat)
    ensures var ks := KeptColumns(rows, width);
            (forall m :: 0 <= m < |ks| ==> ks[m] < width && NonZeroColumn(rows, ks[m])) &&
            (forall m, n :: 0 <= m < n < |ks| ==> ks[m] < ks[n]) &&
            (forall j :: 0 <= j < width && NonZeroColumn(rows, j) ==> j in ks)
  {
    if width > 0 {
      KeptColumnsExact(rows, width - 1);
      var ks' := KeptColumns(rows, width - 1);
      var ks := KeptColumns(rows, width);
      assert ks == ks' + (if NonZeroColumn(rows, width - 1) then [width - 1] else []);
      forall m | 0 <= m < |ks|
        ensures NonZeroColumn(rows, ks[m])
      {
        if m < |ks'| {
          assert ks[m] == ks'[m];
        } else {
          assert NonZeroColumn(rows, width - 1) && ks[m] == width - 1;
        }
      }
    }
  }

  /** Dropping the all-zero columns does not change any row's product with the unknowns. */
  lemma {:induction false} DropZeroColumns(rows: seq<seq<real>>, r: nat, x: seq<real>)
    requires r < |rows| && |rows[r]| == |x|
    ensures var ks := KeptColumns(rows, |x|);
            Dot(rows[r], x) == Dot(Select(rows[r], ks), Select(x, ks))
  {
    DropZeroPrefix(rows, r, x, |x|);
    assert rows[r][..|x|] == rows[r] && x[..|x|] == x;
  }

  lemma {:induction false} DropZeroPrefix(rows: seq<seq<real>>, r: nat, x: seq<real>, w: nat)
    requires r < |rows| && |rows[r]| == |x| && w <= |x|
    ensures var ks := KeptColumns(rows, w);
            Dot(rows[r][..w], x[..w]) == Dot(Select(rows[r], ks), Select(x, ks))
  {
    if w > 0 {
      DropZeroPrefix(rows, r, x, w - 1);
      if NonZeroColumn(rows, w - 1) {
        DropKept(rows, r, x, w);
      } else {
        DropZero(rows, r, x, w);
      }
    }
  }

  lemma DropKept(rows: seq<seq<real>>, r: nat, x: seq<real>, w: nat)
    requires r < |rows| && |rows[r]| == |x| && 0 < w <= |x| && NonZeroColumn(rows, w - 1)
    requires var ks' := KeptColumns(rows, w - 1);
             Dot(rows[r][..w - 1], x[..w - 1]) == Dot(Select(rows[r], ks'), Select(x, ks'))
    ensures var ks := KeptColumns(rows, w);
            Dot(rows[r][..w], x[..w]) == Dot(Select(rows[r], ks), Select(x, ks))
  {
    var v, ks' := rows[r], KeptColumns(rows, w - 1);
    DotPrefixStep(v, x, w);
    assert KeptColumns(rows, w) == ks' + [w - 1];
    DotSelectSnoc(v, x, ks', w - 1);
  }

  lemma DropZero(rows: seq<seq<real>>, r: nat, x: seq<real>, w: nat)
    requires r < |rows| && |rows[r]| == |x| && 0 < w <= |x| && !NonZeroColumn(rows, w - 1)
    requires var ks' := KeptColumns(rows, w - 1);
             Dot(rows[r][..w - 1], x[..w - 1]) == Dot(Select(rows[r], ks'), Select(x, ks'))
    ensures var ks := KeptColumns(rows, w);
            Dot(rows[r][..w], x[..w]) == Dot(Select(rows[r], ks), Select(x, ks))
  {
    var v, ks' := rows[r], KeptColumns(rows, w - 1);
    DotPrefixStep(v, x, w);
    assert KeptColumns(rows, w) == ks';
    assert !(w - 1 < |rows[r]| && rows[r][w - 1] != 0.0);
    ZeroTimes(v[w - 1], x[w - 1]);
  }

  lemma DotPrefixStep(v: seq<real>, x: seq<real>, w: nat)
    requires 0 < w <= |v| == |x|
    ensures Dot(v[..w], x[..w]) == Dot(v[..w - 1], x[..w - 1]) + v[w - 1] * x[w - 1]
  {
    assert v[..w][..w - 1] == v[..w - 1] && x[..w][..w - 1] == x[..w - 1];
  }

  lemma DotSelectSnoc(v: seq<real>, x: seq<real>, ks: seq<nat>, k: nat)
    requires |v| == |x| && k < |v| && forall m :: 0 <= m < |ks| ==> ks[m] < k
    ensures Dot(Select(v, ks + [k]), Select(x, ks + [k])) == Dot(Select(v, ks), Select(x, ks)) + v[k] * x[k]
  {
    SelectSnoc(v, ks, k);
    SelectSnoc(x, ks, k);
    DotSnoc(Select(v, ks), Select(x, ks), v[k], x[k]);
  }

  lemma ZeroTimes(p: real, q: real)
    requires p == 0.0
    ensures p * q == 0.0
  {
  }

  lemma DotSnoc(u: seq<real>, v: seq<real>, p: real, q: real)
    requires |u| == |v|
    ensures Dot(u + [p], v + [q]) == Dot(u, v) + p * q
  {
    var u', v' := u + [p], v + [q];
    assert u'[..|u'| - 1] == u && v'[..|v'| - 1] == v;
    assert u'[|u'| - 1] == p && v'[|v'| - 1] == q;
  }
}
