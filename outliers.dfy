/** The outlier rejection of `Clock_drift.remove_outiers`: for every pair of stations, the
    apparent shift of each of their correlations at one iteration is compared with the shift
    the current drift models predict, and replaced by NaN when the residual is too large. */
module Outliers {
  import opened Values
  import opened Entities
  import opened Queries
  import opened Design

  /** Length of the "Not calculated yet." marker; none of its characters is a number. */
  const MarkerLength := 19

  /** `float(t_app[iteration])`. */
  function Observed(h: History, iteration: int): (r: Result<Num>)
    ensures r.Ok? <==> h.Entries? && PyIndex(|h.items|, iteration).Some?
                       && !h.items[PyIndex(|h.items|, iteration).value].Unset?
    ensures r.Ok? ==> r.value == h.items[PyIndex(|h.items|, iteration).value]
    ensures r.Err? ==> r.error in {IndexOutOfRange, NotANumber}
  {
    match h
    case NotCalculated =>
      if PyIndex(MarkerLength, iteration).None? then Err(IndexOutOfRange) else Err(NotANumber)
    case Entries(items) =>
      var p := PyIndex(|items|, iteration);
      if p.None? then Err(IndexOutOfRange)
      else if items[p.value].Unset? then Err(NotANumber)
      else Ok(items[p.value])
  }

  function Abs(x: real): real
  {
    if x < 0.0 then -x else x
  }

  /** `abs(observed - predicted) > abs(max_error)`; every comparison with NaN is false. */
  predicate Outlier(observed: Num, predicted: real, maxError: real)
  {
    observed.Value? && Abs(observed.v - predicted) > Abs(maxError)
  }

  /** The shift the drift models of the pair predict at `t`. */
  function Predicted(ab1: (real, real), ab2: (real, real), t: real): real
  {
    2.0 * (Instrument(ab1, t) - Instrument(ab2, t))
  }

  /** The test of one correlation of the pair. */
  function CheckOne(c: Correlation, ab1: (real, real), ab2: (real, real), iteration: int, maxError: real): Result<Correlation>
  {
    var observed :- Observed(c.tApp, iteration);
    if Outlier(observed, Predicted(ab1, ab2, c.tNLps), maxError) then
      Ok(c.(tApp := Entries(c.tApp.items[PyIndex(|c.tApp.items|, iteration).value := Unresolved])))
    else Ok(c)
  }

  /** The test raises exactly when `t_app[iteration]` cannot be read as a float. Otherwise
      only that entry may change: it becomes NaN when the residual exceeds the bound, and
      nothing changes when it does not. */
  lemma CheckOneExact(c: Correlation, ab1: (real, real), ab2: (real, real), iteration: int, maxError: real)
    ensures CheckOne(c, ab1, ab2, iteration, maxError).Ok? <==> Observed(c.tApp, iteration).Ok?
    ensures Observed(c.tApp, iteration).Ok? ==>
              var r := CheckOne(c, ab1, ab2, iteration, maxError).value;
              var p := PyIndex(|c.tApp.items|, iteration).value;
              var outlier := Outlier(c.tApp.items[p], Predicted(ab1, ab2, c.tNLps), maxError);
              && r.(tApp := c.tApp) == c
              && r.tApp.Entries? && |r.tApp.items| == |c.tApp.items|
              && (forall q :: 0 <= q < |c.tApp.items| && q != p ==> r.tApp.items[q] == c.tApp.items[q])
              && (outlier ==> r.tApp.items[p] == Unresolved)
              && (!outlier ==> r == c)
  {
  }

  /** A second test of the same correlation changes nothing: an entry already replaced by
      NaN is never an outlier. */
  lemma CheckOneTwice(c: Correlation, ab1: (real, real), ab2: (real, real), iteration: int, maxError: real)
    requires CheckOne(c, ab1, ab2, iteration, maxError).Ok?
    ensures var once := CheckOne(c, ab1, ab2, iteration, maxError).value;
            CheckOne(once, ab1, ab2, iteration, maxError) == Ok(once)
  {
    var once := CheckOne(c, ab1, ab2, iteration, maxError).value;
    var p := PyIndex(|c.tApp.items|, iteration).value;
    if once != c {
      assert once.tApp.items[p] == Unresolved;
      assert Observed(once.tApp, iteration) == Ok(Unresolved);
    }
  }

  /** The pair query depends only on the set of the two codes. */
  lemma PairPositionsByKey(cs: seq<Correlation>, x: string, y: string, x': string, y': string)
    requires {x, y} == {x', y'}
    ensures PairPositions(cs, x, y) == PairPositions(cs, x', y')
  {
    forall c: Correlation
      ensures InPair(c, x, y) == InPair(c, x', y')
    {
      assert x in {x', y'} && y in {x', y'} && x' in {x, y} && y' in {x, y};
    }
    PositionsCongruent(cs, cs, c => InPair(c, x, y), c => InPair(c, x', y'));
  }

  /** The pair query reads only the codes of the correlations. */
  lemma PairPositionsByCodes(cs: seq<Correlation>, ds: seq<Correlation>, x: string, y: string)
    requires |cs| == |ds| && forall m :: 0 <= m < |cs| ==> PairKey(cs[m]) == PairKey(ds[m])
    ensures PairPositions(cs, x, y) == PairPositions(ds, x, y)
  {
    forall m | 0 <= m < |cs|
      ensures InPair(cs[m], x, y) == InPair(ds[m], x, y)
    {
      assert cs[m].station1 in PairKey(ds[m]) && cs[m].station2 in PairKey(ds[m]);
      assert ds[m].station1 in PairKey(cs[m]) && ds[m].station2 in PairKey(cs[m]);
    }
    PositionsCongruent(cs, ds, c => InPair(c, x, y), c => InPair(c, x, y));
  }

  /** What the pair `x`, `y` contributes before its correlations are tested: `None` when there
      is nothing to test (no correlation, or a station of the first correlation excluded),
      otherwise the coefficients of the first correlation's station 1 and station 2, in that
      orientation, for every correlation of the pair. */
  function PairCoefficients(stations: seq<Station>, cs: seq<Correlation>, x: string, y: string, iteration: int): Result<Option<((real, real), (real, real))>>
  {
    var ix := PairPositions(cs, x, y);
    if ix == [] then Ok(None)
    else
      var s1 :- GetStation(stations, cs[ix[0]].station1);
      var s2 :- GetStation(stations, cs[ix[0]].station2);
      if !s1.included || !s2.included then Ok(None)
      else
        var ab1 :- Coefficients(s1, iteration);
        var ab2 :- Coefficients(s2, iteration);
        Ok(Some((ab1, ab2)))
  }

  lemma PairCoefficientsByCodes(stations: seq<Station>, cs: seq<Correlation>, ds: seq<Correlation>, x: string, y: string, iteration: int)
    requires |cs| == |ds| && forall m :: 0 <= m < |cs| ==> cs[m].station1 == ds[m].station1 && cs[m].station2 == ds[m].station2
    ensures PairCoefficients(stations, cs, x, y, iteration) == PairCoefficients(stations, ds, x, y, iteration)
  {
    PairPositionsByCodes(cs, ds, x, y);
  }

  /** What the sweep leaves in correlation `k` once its pair has been processed. A
      correlation of a station with itself belongs to no pair. */
  function Flag(stations: seq<Station>, cs: seq<Correlation>, k: nat, iteration: int, maxError: real): Result<Correlation>
    requires k < |cs|
  {
    var c := cs[k];
    if c.station1 == c.station2 then Ok(c)
    else
      var co :- PairCoefficients(stations, cs, c.station1, c.station2, iteration);
      if co.None? then Ok(c) else CheckOne(c, co.value.0, co.value.1, iteration, maxError)
  }

  /** Every correlation of a processed pair can be tested. */
  predicate SweepOk(stations: seq<Station>, cs: seq<Correlation>, iteration: int, maxError: real)
  {
    forall k :: 0 <= k < |cs| && Covered(stations, PairKey(cs[k])) ==> Flag(stations, cs, k, iteration, maxError).Ok?
  }

  /** The correlations after the sweep over all ordered pairs of different stations. */
  function Swept(stations: seq<Station>, cs: seq<Correlation>, iteration: int, maxError: real): (r: seq<Correlation>)
    requires SweepOk(stations, cs, iteration, maxError)
    ensures |r| == |cs|
  {
    seq(|cs|, k requires 0 <= k < |cs| =>
      if Covered(stations, PairKey(cs[k])) then Flag(stations, cs, k, iteration, maxError).value else cs[k])
  }

  /** The sweep changes only `t_app[iteration]`, only of correlations between two listed
      stations that are both included, and there exactly where the residual against the
      prediction from the pair's first correlation exceeds the bound. */
  lemma SweptExact(stations: seq<Station>, cs: seq<Correlation>, iteration: int, maxError: real, k: nat)
    requires SweepOk(stations, cs, iteration, maxError) && k < |cs|
    ensures var r := Swept(stations, cs, iteration, maxError)[k];
            var c := cs[k];
            && r.(tApp := c.tApp) == c
            && (!Covered(stations, PairKey(c)) ==> r == c)
            && (Covered(stations, PairKey(c)) && c.station1 != c.station2 ==>
                  var co := PairCoefficients(stations, cs, c.station1, c.station2, iteration).value;
                  && (co.None? ==> r == c)
                  && (co.Some? ==>
                        var p := PyIndex(|c.tApp.items|, iteration).value;
                        var outlier := Outlier(c.tApp.items[p], Predicted(co.value.0, co.value.1, c.tNLps), maxError);
                        && Observed(c.tApp, iteration).Ok?
                        && (outlier ==> r.tApp.items[p] == Unresolved && |r.tApp.items| == |c.tApp.items|)
                        && (forall q :: 0 <= q < |c.tApp.items| && q != p ==> r.tApp.items[q] == c.tApp.items[q])
                        && (!outlier ==> r == c)))
  {
    var c := cs[k];
    if Covered(stations, PairKey(c)) && c.station1 != c.station2 {
      var co := PairCoefficients(stations, cs, c.station1, c.station2, iteration).value;
      if co.Some? {
        CheckOneExact(c, co.value.0, co.value.1, iteration, maxError);
      }
    } else if Covered(stations, PairKey(c)) {
      assert Flag(stations, cs, k, iteration, maxError) == Ok(c);
    }
  }

  /** A second sweep changes nothing. */
  lemma SweptTwice(stations: seq<Station>, cs: seq<Correlation>, iteration: int, maxError: real)
    requires SweepOk(stations, cs, iteration, maxError)
    ensures var once := Swept(stations, cs, iteration, maxError);
            SweepOk(stations, once, iteration, maxError) && Swept(stations, once, iteration, maxError) == once
  {
    var once := Swept(stations, cs, iteration, maxError);
    forall k | 0 <= k < |cs|
      ensures once[k].station1 == cs[k].station1 && once[k].station2 == cs[k].station2
    {
      SweptExact(stations, cs, iteration, maxError, k);
    }
    forall k | 0 <= k < |cs| && Covered(stations, PairKey(once[k]))
      ensures Flag(stations, once, k, iteration, maxError) == Ok(once[k])
    {
      FlagAgain(stations, cs, once, k, iteration, maxError);
    }
  }

  /** Testing again a correlation that already holds its flagged value leaves it. */
  lemma FlagAgain(stations: seq<Station>, cs: seq<Correlation>, once: seq<Correlation>, k: nat, iteration: int, maxError: real)
    requires SweepOk(stations, cs, iteration, maxError) && once == Swept(stations, cs, iteration, maxError)
    requires k < |cs| && Covered(stations, PairKey(cs[k]))
    requires forall m :: 0 <= m < |cs| ==> once[m].station1 == cs[m].station1 && once[m].station2 == cs[m].station2
    ensures Flag(stations, once, k, iteration, maxError) == Ok(once[k])
  {
    var c := cs[k];
    if c.station1 != c.station2 {
      PairCoefficientsByCodes(stations, cs, once, c.station1, c.station2, iteration);
      var co := PairCoefficients(stations, cs, c.station1, c.station2, iteration).value;
      if co.Some? {
        CheckOneTwice(c, co.value.0, co.value.1, iteration, maxError);
      }
    }
  }

  /** `want[k]` is the flagged value of `cs[k]` for every `k`. The quantifier is triggered
      by the flag term alone, so that a proof unfolds the flag of a position only where it
      asks for it. */
  predicate Wanted(stations: seq<Station>, cs: seq<Correlation>, want: seq<Result<Correlation>>,
                   iteration: int, maxError: real)
  {
    |want| == |cs| &&
    forall k {:trigger Flag(stations, cs, k, iteration, maxError)} :: 0 <= k < |cs| ==>
      want[k] == Flag(stations, cs, k, iteration, maxError)
  }

  lemma WantedAt(stations: seq<Station>, cs: seq<Correlation>, want: seq<Result<Correlation>>,
                 k: nat, iteration: int, maxError: real)
    requires Wanted(stations, cs, want, iteration, maxError) && k < |cs|
    ensures k < |want| && want[k] == Flag(stations, cs, k, iteration, maxError)
  {
  }

  /** The flagged value of every correlation. */
  lemma FlagsOf(stations: seq<Station>, cs: seq<Correlation>, iteration: int, maxError: real)
    returns (want: seq<Result<Correlation>>)
    ensures Wanted(stations, cs, want, iteration, maxError)
  {
    want := seq(|cs|, k requires 0 <= k < |cs| => Flag(stations, cs, k, iteration, maxError));
  }

  /** The state part-way through the sweep, against the correlations `cs0` it started from and
      their flagged values `want`: correlations whose (station 1, station 2) codes are in `done`
      hold their flagged value; those whose codes are in `loose` (the pair being processed)
      hold either; all others are untouched. Only `t_app` ever differs. */
  predicate SweptSoFar(cs0: seq<Correlation>, want: seq<Result<Correlation>>, cs: seq<Correlation>,
                       done: set<(string, string)>, loose: set<(string, string)>)
  {
    |cs| == |cs0| && |want| == |cs0| &&
    forall k :: 0 <= k < |cs| ==>
      && cs[k].(tApp := cs0[k].tApp) == cs0[k]
      && ((cs0[k].station1, cs0[k].station2) in done ==> want[k].Ok? && cs[k] == want[k].value)
      && ((cs0[k].station1, cs0[k].station2) in loose ==> cs[k] == cs0[k] || (want[k].Ok? && cs[k] == want[k].value))
      && ((cs0[k].station1, cs0[k].station2) !in done && (cs0[k].station1, cs0[k].station2) !in loose ==> cs[k] == cs0[k])
  }

  /** Testing a correlation of the pair `x`, `y` with the pair's coefficients gives its flagged
      value, whether it was still untouched or had been flagged already. */
  lemma MemberStep(stations: seq<Station>, cs0: seq<Correlation>, want: seq<Result<Correlation>>, c: Correlation,
                   x: string, y: string, k: nat, co: ((real, real), (real, real)), iteration: int, maxError: real)
    requires |want| == |cs0| && Wanted(stations, cs0, want, iteration, maxError)
    requires x != y && k < |cs0| && PairKey(cs0[k]) == {x, y}
    requires PairCoefficients(stations, cs0, x, y, iteration) == Ok(Some(co))
    requires c == cs0[k] || (want[k].Ok? && c == want[k].value)
    ensures CheckOne(c, co.0, co.1, iteration, maxError) == want[k]
    ensures want[k] == Flag(stations, cs0, k, iteration, maxError)
    ensures want[k].Ok? ==> want[k].value.(tApp := cs0[k].tApp) == cs0[k]
  {
    WantedAt(stations, cs0, want, k, iteration, maxError);
    var d := cs0[k];
    assert d.station1 != d.station2 by {
      assert x in PairKey(d) && y in PairKey(d);
    }
    PairPositionsByKey(cs0, d.station1, d.station2, x, y);
    assert Flag(stations, cs0, k, iteration, maxError) == CheckOne(d, co.0, co.1, iteration, maxError);
    CheckOneExact(d, co.0, co.1, iteration, maxError);
    if c != d {
      CheckOneTwice(d, co.0, co.1, iteration, maxError);
    }
  }

  /** A pair with nothing to test leaves each of its correlations as its flagged value. */
  lemma SkipStep(stations: seq<Station>, cs0: seq<Correlation>, x: string, y: string, k: nat, iteration: int, maxError: real)
    requires x != y && k < |cs0| && PairKey(cs0[k]) == {x, y}
    requires PairCoefficients(stations, cs0, x, y, iteration) == Ok(None)
    ensures Flag(stations, cs0, k, iteration, maxError) == Ok(cs0[k])
  {
    var d := cs0[k];
    assert d.station1 != d.station2 by {
      assert x in PairKey(d) && y in PairKey(d);
    }
    PairPositionsByKey(cs0, d.station1, d.station2, x, y);
  }

  /** When every pair of different stations has been processed, in both orders, the state is
      the sweep. */
  lemma SweepDone(stations: seq<Station>, cs0: seq<Correlation>, want: seq<Result<Correlation>>, cs: seq<Correlation>,
                  done: set<(string, string)>, iteration: int, maxError: real)
    requires Wanted(stations, cs0, want, iteration, maxError)
    requires SweptSoFar(cs0, want, cs, done, {})
    requires forall p :: p in done ==> p.0 != p.1 && Listed(stations, p.0) && Listed(stations, p.1)
    requires forall i, j :: 0 <= i < |stations| && 0 <= j < |stations| && i != j ==>
               (stations[i].code, stations[j].code) in done
    ensures SweepOk(stations, cs0, iteration, maxError) && cs == Swept(stations, cs0, iteration, maxError)
  {
    forall k | 0 <= k < |cs0|
      ensures want[k] == Flag(stations, cs0, k, iteration, maxError)
      ensures Covered(stations, PairKey(cs0[k])) <==> (cs0[k].station1, cs0[k].station2) in done
    {
      WantedAt(stations, cs0, want, k, iteration, maxError);
      CoveredIffDone(stations, done, cs0[k]);
    }
  }

  /** Once every ordered pair of different listed codes is processed, a correlation's pair is
      processed exactly when both its stations are listed with different codes. */
  lemma CoveredIffDone(stations: seq<Station>, done: set<(string, string)>, c: Correlation)
    requires forall p :: p in done ==> p.0 != p.1 && Listed(stations, p.0) && Listed(stations, p.1)
    requires forall i, j :: 0 <= i < |stations| && 0 <= j < |stations| && i != j ==>
               (stations[i].code, stations[j].code) in done
    ensures Covered(stations, PairKey(c)) <==> (c.station1, c.station2) in done
  {
    if Covered(stations, PairKey(c)) {
      var i, j :| 0 <= i < |stations| && 0 <= j < |stations| && stations[i].code != stations[j].code
                  && {stations[i].code, stations[j].code} == PairKey(c);
      assert stations[i].code in PairKey(c) && stations[j].code in PairKey(c);
      assert c.station1 in {stations[i].code, stations[j].code} && c.station2 in {stations[i].code, stations[j].code};
      assert (c.station1, c.station2) == (stations[i].code, stations[j].code) ||
             (c.station1, c.station2) == (stations[j].code, stations[i].code);
    }
    if (c.station1, c.station2) in done {
      var i :| 0 <= i < |stations| && stations[i].code == c.station1;
      var j :| 0 <= j < |stations| && stations[j].code == c.station2;
    }
  }

  /** Some station of the list has this code. */
  predicate Listed(stations: seq<Station>, code: string)
  {
    exists i :: 0 <= i < |stations| && stations[i].code == code
  }

  /** A pair with nothing to test is processed: its correlations keep their values. */
  lemma PairSkipped(stations: seq<Station>, cs0: seq<Correlation>, want: seq<Result<Correlation>>, cs: seq<Correlation>,
                    done: set<(string, string)>, x: string, y: string, iteration: int, maxError: real)
    requires Wanted(stations, cs0, want, iteration, maxError)
    requires SweptSoFar(cs0, want, cs, done, {})
    requires x != y && PairCoefficients(stations, cs0, x, y, iteration) == Ok(None)
    ensures SweptSoFar(cs0, want, cs, done + {(x, y), (y, x)}, {})
  {
    forall k | 0 <= k < |cs0| && (cs0[k].station1, cs0[k].station2) in {(x, y), (y, x)}
      ensures want[k] == Ok(cs0[k]) && cs[k] == cs0[k]
    {
      assert PairKey(cs0[k]) == {x, y};
      WantedAt(stations, cs0, want, k, iteration, maxError);
      SkipStep(stations, cs0, x, y, k, iteration, maxError);
    }
  }

  /** While a pair is processed its correlations may hold either value. */
  lemma SoFarLoosen(cs0: seq<Correlation>, want: seq<Result<Correlation>>, cs: seq<Correlation>,
                    done: set<(string, string)>, loose: set<(string, string)>)
    requires SweptSoFar(cs0, want, cs, done, {})
    ensures SweptSoFar(cs0, want, cs, done, loose)
  {
  }

  /** The first `m` correlations of the pair hold their flagged values. */
  predicate Finished(want: seq<Result<Correlation>>, cs: seq<Correlation>, ix: seq<nat>, m: nat)
  {
    m <= |ix| && forall n :: 0 <= n < m ==> ix[n] < |want| && ix[n] < |cs| && want[ix[n]].Ok? && cs[ix[n]] == want[ix[n]].value
  }

  /** Once every correlation of the pair holds its flagged value, the pair is processed. */
  lemma PairFinished(cs0: seq<Correlation>, want: seq<Result<Correlation>>, cs: seq<Correlation>,
                     done: set<(string, string)>, x: string, y: string)
    requires x != y
    requires SweptSoFar(cs0, want, cs, done, {(x, y), (y, x)})
    requires Finished(want, cs, PairPositions(cs0, x, y), |PairPositions(cs0, x, y)|)
    ensures SweptSoFar(cs0, want, cs, done + {(x, y), (y, x)}, {})
  {
    var ix := PairPositions(cs0, x, y);
    forall k | 0 <= k < |cs0| && (cs0[k].station1, cs0[k].station2) in {(x, y), (y, x)}
      ensures want[k].Ok? && cs[k] == want[k].value
    {
      assert {cs0[k].station1, cs0[k].station2} == {x, y};
      var n :| 0 <= n < |ix| && ix[n] == k;
    }
  }

  /** Part-way through the sweep, the codes of every correlation are those it started with. */
  lemma SoFarCodes(cs0: seq<Correlation>, want: seq<Result<Correlation>>, cs: seq<Correlation>,
                   done: set<(string, string)>, loose: set<(string, string)>)
    requires SweptSoFar(cs0, want, cs, done, loose)
    ensures |cs| == |cs0| && forall m :: 0 <= m < |cs| ==> cs[m].station1 == cs0[m].station1 && cs[m].station2 == cs0[m].station2
  {
    forall m | 0 <= m < |cs|
      ensures cs[m].station1 == cs0[m].station1 && cs[m].station2 == cs0[m].station2
    {
      assert cs[m].(tApp := cs0[m].tApp) == cs0[m];
    }
  }

  /** Writing the flagged value of a correlation of a pair being processed keeps the state. */
  lemma SoFarStep(cs0: seq<Correlation>, want: seq<Result<Correlation>>, cs: seq<Correlation>,
                  done: set<(string, string)>, loose: set<(string, string)>, k: nat, v: Correlation)
    requires SweptSoFar(cs0, want, cs, done, loose)
    requires k < |cs| && want[k] == Ok(v) && v.(tApp := cs0[k].tApp) == cs0[k]
    requires (cs0[k].station1, cs0[k].station2) in done || (cs0[k].station1, cs0[k].station2) in loose
    ensures SweptSoFar(cs0, want, cs[k := v], done, loose)
  {
  }

  /** Every correlation is untouched or holds its flagged value. */
  lemma SoFarAt(cs0: seq<Correlation>, want: seq<Result<Correlation>>, cs: seq<Correlation>,
                done: set<(string, string)>, loose: set<(string, string)>, k: nat)
    requires SweptSoFar(cs0, want, cs, done, loose) && k < |cs|
    ensures k < |cs0| && k < |want|
    ensures cs[k] == cs0[k] || (want[k].Ok? && cs[k] == want[k].value)
  {
  }
}
