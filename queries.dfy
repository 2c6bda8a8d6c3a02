/** The look-ups and list filters of the repository: `Clock_drift.get_station`,
    `Clock_drift.get_correlations_of_stationpair` and the module functions
    `correlations_with_parameters`, `correlations_of_station`,
    `correlations_with_average_date` and `min_number_correlations`.
    Each filter keeps the input order. */
module Queries {
  import opened Values
  import opened Entities

  /** The positions of `s` whose element satisfies `keep`, in increasing order. */
  function Positions<T>(s: seq<T>, keep: T -> bool): (ix: seq<nat>)
    ensures forall m :: 0 <= m < |ix| ==> ix[m] < |s| && keep(s[ix[m]])
    ensures forall m, n :: 0 <= m < n < |ix| ==> ix[m] < ix[n]
    ensures forall k :: 0 <= k < |s| && keep(s[k]) ==> k in ix
  {
    if s == [] then []
    else
      var pre := Positions(s[..|s| - 1], keep);
      pre + (if keep(s[|s| - 1]) then [|s| - 1] else [])
  }

  function Select<T>(s: seq<T>, ix: seq<nat>): (r: seq<T>)
    requires forall m :: 0 <= m < |ix| ==> ix[m] < |s|
    ensures |r| == |ix| && forall m :: 0 <= m < |ix| ==> r[m] == s[ix[m]]
  {
    seq(|ix|, m requires 0 <= m < |ix| => s[ix[m]])
  }

  /** Positions depend only on which elements are kept. */
  lemma {:induction false} PositionsCongruent<T, U>(s: seq<T>, t: seq<U>, f: T -> bool, g: U -> bool)
    requires |s| == |t| && forall k :: 0 <= k < |s| ==> f(s[k]) == g(t[k])
    ensures Positions(s, f) == Positions(t, g)
  {
    if s != [] {
      PositionsCongruent(s[..|s| - 1], t[..|t| - 1], f, g);
    }
  }

  /** Selecting with indices that all lie in a prefix reads only the prefix. */
  lemma SelectPrefix<T>(s: seq<T>, n: nat, ix: seq<nat>)
    requires n <= |s| && forall m :: 0 <= m < |ix| ==> ix[m] < n
    ensures Select(s, ix) == Select(s[..n], ix)
  {
  }

  lemma SelectSnoc<T>(s: seq<T>, ix: seq<nat>, k: nat)
    requires k < |s| && forall m :: 0 <= m < |ix| ==> ix[m] < |s|
    ensures Select(s, ix + [k]) == Select(s, ix) + [s[k]]
  {
  }

  /** Filtering the result of a filter selects the positions kept by both tests. */
  lemma {:induction false} PositionsCompose<T>(s: seq<T>, f: T -> bool, g: T -> bool, both: T -> bool)
    requires forall k :: 0 <= k < |s| ==> both(s[k]) == (f(s[k]) && g(s[k]))
    ensures var p := Positions(s, f);
            Select(p, Positions(Select(s, p), g)) == Positions(s, both)
  {
    if s != [] {
      var s' := s[..|s| - 1];
      PositionsCompose(s', f, g, both);
      if f(s[|s| - 1]) {
        ComposeKept(s, f, g, both);
      } else {
        PositionsSnoc(s, f);
        PositionsSnoc(s, both);
        var p' := Positions(s', f);
        SelectPrefix(s, |s| - 1, p');
        assert Select(s, p') == Select(s', p');
        assert Positions(s, f) == p' + [] == p';
        assert !both(s[|s| - 1]);
        assert Positions(s, both) == Positions(s', both) + [] == Positions(s', both);
      }
    }
  }

  /** The step of `PositionsCompose` for a last element that the first test keeps. */
  lemma ComposeKept<T>(s: seq<T>, f: T -> bool, g: T -> bool, both: T -> bool)
    requires s != [] && f(s[|s| - 1])
    requires forall k :: 0 <= k < |s| ==> both(s[k]) == (f(s[k]) && g(s[k]))
    requires var s' := s[..|s| - 1];
             var p' := Positions(s', f);
             Select(p', Positions(Select(s', p'), g)) == Positions(s', both)
    ensures var p := Positions(s, f);
            Select(p, Positions(Select(s, p), g)) == Positions(s, both)
  {
    ComposedSnoc(s, f, g);
    PositionsSnoc(s, both);
  }

  /** The composed filter over `s` is the one over all but the last element, followed by the
      last position when both tests keep it. */
  lemma ComposedSnoc<T>(s: seq<T>, f: T -> bool, g: T -> bool)
    requires s != [] && f(s[|s| - 1])
    ensures var s' := s[..|s| - 1];
            var p' := Positions(s', f);
            var p := Positions(s, f);
            Select(p, Positions(Select(s, p), g))
              == Select(p', Positions(Select(s', p'), g)) + (if g(s[|s| - 1]) then [|s| - 1] else [])
  {
    var n := |s|;
    var s', e := s[..n - 1], s[n - 1];
    var p' := Positions(s', f);
    var q' := Positions(Select(s', p'), g);
    var p := Positions(s, f);
    KeptSelection(s, f, g);
    SelectPrefix(p, |p'|, q');
    assert p[..|p'|] == p';
    if g(e) {
      SelectSnoc(p, q', |p'|);
    }
  }

  /** When the first test keeps the last element, the second test over the kept elements
      sees the earlier kept elements and then the last one. */
  lemma KeptSelection<T>(s: seq<T>, f: T -> bool, g: T -> bool)
    requires s != [] && f(s[|s| - 1])
    ensures var s' := s[..|s| - 1];
            var p' := Positions(s', f);
            && Positions(s, f) == p' + [|s| - 1]
            && Positions(Select(s, Positions(s, f)), g)
               == Positions(Select(s', p'), g) + (if g(s[|s| - 1]) then [|p'|] else [])
  {
    var p' := Positions(s[..|s| - 1], f);
    PositionsSnoc(s, f);
    var sel := Select(s, Positions(s, f));
    SelectedSnoc(s, p', sel);
    PositionsSnoc(sel, g);
  }

  lemma PositionsSnoc<T>(s: seq<T>, keep: T -> bool)
    requires s != []
    ensures Positions(s, keep) == Positions(s[..|s| - 1], keep) + (if keep(s[|s| - 1]) then [|s| - 1] else [])
  {
  }

  lemma SelectedSnoc<T>(s: seq<T>, p': seq<nat>, sel: seq<T>)
    requires s != [] && forall m :: 0 <= m < |p'| ==> p'[m] < |s| - 1
    requires sel == Select(s, p' + [|s| - 1])
    ensures sel != [] && sel[..|sel| - 1] == Select(s[..|s| - 1], p') && sel[|sel| - 1] == s[|s| - 1]
  {
    SelectSnoc(s, p', |s| - 1);
    SelectPrefix(s, |s| - 1, p');
  }

  /** The elements of `s` that satisfy `keep`, in their original order. */
  function Filter<T>(s: seq<T>, keep: T -> bool): (r: seq<T>)
    ensures r == Select(s, Positions(s, keep))
    ensures forall m :: 0 <= m < |r| ==> r[m] in s && keep(r[m])
    ensures forall k :: 0 <= k < |s| && keep(s[k]) ==> s[k] in r
  {
    var ix := Positions(s, keep);
    var r := Select(s, ix);
    forall k | 0 <= k < |s| && keep(s[k]) ensures s[k] in r {
      var m :| 0 <= m < |ix| && ix[m] == k;
      assert r[m] == s[k];
    }
    r
  }

  /** No two stations share a code. */
  predicate DistinctCodes(stations: seq<Station>)
  {
    forall k, m :: 0 <= k < m < |stations| ==> stations[k].code != stations[m].code
  }

  /** Position of the first station with `code`, or `|stations|`. */
  function StationPos(stations: seq<Station>, code: string): (k: nat)
    ensures k <= |stations|
    ensures k < |stations| ==> stations[k].code == code
    ensures forall m :: 0 <= m < k ==> stations[m].code != code
  {
    if stations == [] then 0
    else if stations[0].code == code then 0
    else 1 + StationPos(stations[1..], code)
  }

  /** `get_station`: the first station with this code; raises when there is none. */
  function GetStation(stations: seq<Station>, code: string): (r: Result<Station>)
    ensures r.Ok? <==> exists k :: 0 <= k < |stations| && stations[k].code == code
    ensures r.Err? ==> r.error == StationNotFound
    ensures r.Ok? ==> r.value.code == code
    ensures r.Ok? ==> exists k :: 0 <= k < |stations| && r.value == stations[k] &&
                        forall m :: 0 <= m < k ==> stations[m].code != code
  {
    var k := StationPos(stations, code);
    if k < |stations| then Ok(stations[k]) else Err(StationNotFound)
  }

  /** The test of `get_correlations_of_stationpair`: both codes are endpoints of `c`. */
  predicate InPair(c: Correlation, x: string, y: string)
  {
    (x == c.station1 || x == c.station2) && (y == c.station1 || y == c.station2)
  }

  /** Positions of the correlations between `x` and `y`: for two different codes, exactly those
      whose endpoint set is `{x, y}`, in either orientation. */
  function PairPositions(corrs: seq<Correlation>, x: string, y: string): (ix: seq<nat>)
    ensures forall m :: 0 <= m < |ix| ==> ix[m] < |corrs|
    ensures forall m, n :: 0 <= m < n < |ix| ==> ix[m] < ix[n]
    ensures x != y ==> forall k :: 0 <= k < |corrs| ==>
              (k in ix <==> {corrs[k].station1, corrs[k].station2} == {x, y})
  {
    var ix := Positions(corrs, c => InPair(c, x, y));
    assert forall k :: 0 <= k < |corrs| && k in ix ==> InPair(corrs[k], x, y);
    ix
  }

  /** `get_correlations_of_stationpair`: raises for two equal codes; otherwise the correlations
      whose endpoints are the two stations, in stored order. */
  function PairCorrelations(corrs: seq<Correlation>, x: string, y: string): (r: Result<seq<Correlation>>)
    ensures r.Err? <==> x == y
    ensures r.Err? ==> r.error == SameStation
    ensures r.Ok? ==> r.value == Select(corrs, PairPositions(corrs, x, y))
    ensures r.Ok? ==> forall m :: 0 <= m < |r.value| ==>
              r.value[m] in corrs && {r.value[m].station1, r.value[m].station2} == {x, y}
    ensures r.Ok? ==> forall k :: 0 <= k < |corrs| && {corrs[k].station1, corrs[k].station2} == {x, y} ==>
              corrs[k] in r.value
  {
    if x == y then Err(SameStation)
    else
      var ix := PairPositions(corrs, x, y);
      var r := Select(corrs, ix);
      forall k | 0 <= k < |corrs| && {corrs[k].station1, corrs[k].station2} == {x, y} ensures corrs[k] in r {
        var m :| 0 <= m < |ix| && ix[m] == k;
        assert r[m] == corrs[k];
      }
      Ok(r)
  }

  /** The endpoint codes of a correlation. */
  function PairKey(c: Correlation): set<string>
  {
    {c.station1, c.station2}
  }

  /** Two stations of the list with different codes have exactly these codes. */
  predicate Covered(stations: seq<Station>, key: set<string>)
  {
    exists i, j :: 0 <= i < |stations| && 0 <= j < |stations| && stations[i].code != stations[j].code
                   && {stations[i].code, stations[j].code} == key
  }

  /** `correlations_with_parameters`: the correlations holding this very parameter object. */
  function WithParameters(corrs: seq<Correlation>, p: ProcessingParameters): (r: seq<Correlation>)
    ensures forall m :: 0 <= m < |r| ==> r[m] in corrs && r[m].params == p
    ensures forall k :: 0 <= k < |corrs| && corrs[k].params == p ==> corrs[k] in r
  {
    Filter(corrs, (c: Correlation) => c.params == p)
  }

  /** `correlations_of_station`: the correlations with the station at either end. */
  function OfStation(corrs: seq<Correlation>, code: string): (r: seq<Correlation>)
    ensures forall m :: 0 <= m < |r| ==> r[m] in corrs && (r[m].station1 == code || r[m].station2 == code)
    ensures forall k :: 0 <= k < |corrs| && (corrs[k].station1 == code || corrs[k].station2 == code) ==>
              corrs[k] in r
  {
    Filter(corrs, (c: Correlation) => Touches(c, code))
  }

  /** `correlations_with_average_date`. */
  function WithAverageDate(corrs: seq<Correlation>, date: int): (r: seq<Correlation>)
    ensures forall m :: 0 <= m < |r| ==> r[m] in corrs && r[m].averageDate == date
    ensures forall k :: 0 <= k < |corrs| && corrs[k].averageDate == date ==> corrs[k] in r
  {
    Filter(corrs, (c: Correlation) => c.averageDate == date)
  }

  /** Every correlation has a measured apparent shift (so `t_app[-1]` can be read). */
  predicate AllMeasured(corrs: seq<Correlation>)
  {
    forall k :: 0 <= k < |corrs| ==> Measured(corrs[k])
  }

  /** Number of correlations touching `code` whose latest apparent shift is resolved. */
  function ResolvedCount(corrs: seq<Correlation>, code: string): (n: nat)
    requires AllMeasured(corrs)
    ensures n <= |corrs|
  {
    if corrs == [] then 0
    else
      var c := corrs[|corrs| - 1];
      ResolvedCount(corrs[..|corrs| - 1], code) + (if LatestResolved(c) && Touches(c, code) then 1 else 0)
  }

  /** Some station needs correction. */
  predicate AnyNeedsCorrection(stations: seq<Station>)
  {
    exists k :: 0 <= k < |stations| && stations[k].needsCorrection
  }

  /** `min_number_correlations`: the stations that need correction and have fewer than
      `minNoCorr` correlations with a resolved latest shift, in station order. The shifts are
      read only while counting for a station that needs correction, so without one the list
      is empty whatever the correlations hold. */
  function MinNumberCorrelations(stations: seq<Station>, corrs: seq<Correlation>, minNoCorr: int): (r: seq<Station>)
    requires AnyNeedsCorrection(stations) ==> AllMeasured(corrs)
    ensures !AnyNeedsCorrection(stations) ==> r == []
    ensures forall m :: 0 <= m < |r| ==>
              r[m] in stations && r[m].needsCorrection && ResolvedCount(corrs, r[m].code) < minNoCorr
    ensures forall k ::
              (0 <= k < |stations| && stations[k].needsCorrection && ResolvedCount(corrs, stations[k].code) < minNoCorr)
              ==> stations[k] in r
  {
    if !AnyNeedsCorrection(stations) then []
    else Filter(stations, (s: Station) => s.needsCorrection && ResolvedCount(corrs, s.code) < minNoCorr)
  }
}
