/** The apriori shift of a group of correlations of one station pair under one
    parameter set (`calculate_apriori_dt` and `calculate_apriori_dt_corrected`):
    after consistency checks, the lag between the earliest and the latest
    correlation gives a drift rate, and each correlation is assigned the drift
    accumulated since the earliest date, on one side of the pair or split. */
module Apriori {
  import opened Values
  import opened Entities
  import opened Queries

  /** `SingleSided` is `calculate_apriori_dt`, `Split` is `calculate_apriori_dt_corrected`. */
  datatype Policy = SingleSided | Split

  /** Where the drift goes: all on station 1, all on station 2 (with `sign` +1 or -1),
      or half of its negation on each. */
  datatype Side = OnStation1(sign: int) | OnStation2(sign: int) | Halves

  /** The fields of a correlation the apriori estimate reads; the estimate writes only the
      apriori fields, so these stay fixed while the groups are processed. */
  datatype Key = Key(station1: string, station2: string, averageDate: int, filePath: string,
                     params: ProcessingParameters)

  function KeyOf(c: Correlation): Key
  {
    Key(c.station1, c.station2, c.averageDate, c.filePath, c.params)
  }

  function Keys(corrs: seq<Correlation>): (ks: seq<Key>)
    ensures |ks| == |corrs| && forall m :: 0 <= m < |ks| ==> ks[m] == KeyOf(corrs[m])
  {
    seq(|corrs|, m requires 0 <= m < |corrs| => KeyOf(corrs[m]))
  }

  /** The lag routine: band-pass both traces (files named by the first two arguments) between
      the two frequencies, cross-correlate them and return the best lag converted to seconds. */
  type Lag = (string, string, real, real) -> real

  predicate FreqminsAgree(g: seq<Key>)
  {
    |g| >= 1 && forall k :: 0 <= k < |g| ==> g[k].params.freqmin == g[0].params.freqmin
  }

  predicate FreqmaxsAgree(g: seq<Key>)
  {
    |g| >= 1 && forall k :: 0 <= k < |g| ==> g[k].params.freqmax == g[0].params.freqmax
  }

  predicate StationsAgree(g: seq<Key>)
  {
    |g| >= 1 && forall k :: 0 <= k < |g| ==> g[k].station1 == g[0].station1 && g[k].station2 == g[0].station2
  }

  /** `avg_dates.index(min(avg_dates))`: the first correlation with the earliest date. */
  function Earliest(g: seq<Key>): (k: nat)
    requires |g| >= 1
    ensures k < |g|
    ensures forall m :: 0 <= m < |g| ==> g[k].averageDate <= g[m].averageDate
    ensures forall m :: 0 <= m < k ==> g[m].averageDate > g[k].averageDate
  {
    if |g| == 1 then 0
    else
      var k := Earliest(g[..|g| - 1]);
      if g[|g| - 1].averageDate < g[k].averageDate then |g| - 1 else k
  }

  /** `avg_dates.index(max(avg_dates))`: the first correlation with the latest date. */
  function Latest(g: seq<Key>): (k: nat)
    requires |g| >= 1
    ensures k < |g|
    ensures forall m :: 0 <= m < |g| ==> g[k].averageDate >= g[m].averageDate
    ensures forall m :: 0 <= m < k ==> g[m].averageDate < g[k].averageDate
  {
    if |g| == 1 then 0
    else
      var k := Latest(g[..|g| - 1]);
      if g[|g| - 1].averageDate > g[k].averageDate then |g| - 1 else k
  }

  function Neg(x: Num): Num
  {
    if x.Value? then Value(-x.v) else x
  }

  function Half(x: Num): Num
  {
    if x.Value? then Value(x.v / 2.0) else x
  }

  /** The station look-ups and the branch of the assignment loop; they depend only on the
      two codes, which are the same for the whole group. */
  function SideOf(stations: seq<Station>, code1: string, code2: string, policy: Policy): (r: Result<Side>)
    ensures r.Ok? && r.value.Halves? ==> policy == Split
    ensures r.Ok? && !r.value.Halves? ==> r.value.sign == (if policy == SingleSided then 1 else -1)
    ensures r.Err? ==> r.error in {StationNotFound, NoStationNeedsCorrection}
  {
    match policy
    case SingleSided =>
      var s1 :- GetStation(stations, code1);
      if s1.needsCorrection then Ok(OnStation1(1))
      else
        var s2 :- GetStation(stations, code2);
        if s2.needsCorrection then Ok(OnStation2(1)) else Err(NoStationNeedsCorrection)
    case Split =>
      var s1 :- GetStation(stations, code1);
      var s2 :- GetStation(stations, code2);
      if s1.needsCorrection then
        if s2.needsCorrection then Ok(Halves) else Ok(OnStation1(-1))
      else if s2.needsCorrection then Ok(OnStation2(-1))
      else Err(NoStationNeedsCorrection)
  }

  /** `(apriori_dt1, apriori_dt2)` for a drift `dt`. */
  function Apply(side: Side, dt: Num): (Num, Num)
  {
    match side
    case OnStation1(sign) => (if sign == 1 then dt else Neg(dt), Value(0.0))
    case OnStation2(sign) => (Value(0.0), if sign == 1 then dt else Neg(dt))
    case Halves => (Half(Neg(dt)), Half(Neg(dt)))
  }

  /** `dt = (t - earliest_date) * shift_rate` with `shift_rate = time_shift / delta_t`. When the
      group spans no time the division is a NumPy float division by zero (inf or nan), so every
      `dt` is NaN. */
  function Drift(date: int, earliest: int, latest: int, timeShift: real): Num
  {
    if latest == earliest then Unresolved
    else Value((date - earliest) as real * (timeShift / (latest - earliest) as real))
  }

  /** The time shift measured between the earliest and the latest correlation of the group. */
  function GroupShift(g: seq<Key>, lag: Lag): real
    requires |g| >= 1
  {
    lag(g[Earliest(g)].filePath, g[Latest(g)].filePath, g[0].params.freqmin, g[0].params.freqmax)
  }

  /** The apriori pairs `calculate_apriori_dt(_corrected)` writes into the group, in group order. */
  function AprioriGroup(stations: seq<Station>, g: seq<Key>, lag: Lag, policy: Policy): (r: Result<seq<(Num, Num)>>)
    ensures r.Err? && r.error == ParametersDiffer <==> !FreqminsAgree(g) || !FreqmaxsAgree(g)
    ensures r.Err? && r.error == TooFewCorrelations <==> FreqminsAgree(g) && FreqmaxsAgree(g) && |g| < 2
    ensures r.Err? && r.error == StationsDiffer <==> FreqminsAgree(g) && FreqmaxsAgree(g) && |g| >= 2 && !StationsAgree(g)
    ensures r.Ok? ==> |g| >= 2 && StationsAgree(g) && |r.value| == |g|
  {
    if !FreqminsAgree(g) || !FreqmaxsAgree(g) then Err(ParametersDiffer)
    else if |g| < 2 then Err(TooFewCorrelations)
    else if !StationsAgree(g) then Err(StationsDiffer)
    else
      var side :- SideOf(stations, g[0].station1, g[0].station2, policy);
      var t0, t1 := g[Earliest(g)].averageDate, g[Latest(g)].averageDate;
      var ts := GroupShift(g, lag);
      Ok(seq(|g|, k requires 0 <= k < |g| => Apply(side, Drift(g[k].averageDate, t0, t1, ts))))
  }

  /** The drift is linear in the date: zero at the earliest date and the measured shift at the
      latest; the correlation at the earliest date gets (0, 0) and the one at the latest date
      gets the whole shift. */
  lemma DriftEndpoints(earliest: int, latest: int, timeShift: real)
    requires latest != earliest
    ensures Drift(earliest, earliest, latest, timeShift) == Value(0.0)
    ensures Drift(latest, earliest, latest, timeShift) == Value(timeShift)
  {
    var d := (latest - earliest) as real;
    assert d * (timeShift / d) == timeShift;
  }

  /** Under either policy the pair of a successfully estimated group that spans time is
      zero for its earliest correlations, and the single-sided policy puts the full drift on
      station 1 if it needs correction, otherwise on station 2. */
  lemma {:induction false} AprioriGroupShape(stations: seq<Station>, g: seq<Key>, lag: Lag, policy: Policy, k: nat)
    requires AprioriGroup(stations, g, lag, policy).Ok? && k < |g|
    requires g[Earliest(g)].averageDate != g[Latest(g)].averageDate
    ensures var p := AprioriGroup(stations, g, lag, policy).value[k];
            var dt := Drift(g[k].averageDate, g[Earliest(g)].averageDate, g[Latest(g)].averageDate, GroupShift(g, lag));
            && dt.Value?
            && (g[k].averageDate == g[Earliest(g)].averageDate ==> p == (Value(0.0), Value(0.0)))
            && (policy == SingleSided ==>
                  var s1 := GetStation(stations, g[0].station1);
                  if s1.Ok? && s1.value.needsCorrection then p == (dt, Value(0.0))
                  else p == (Value(0.0), dt) && GetStation(stations, g[0].station2).value.needsCorrection)
  {
    var t0, t1 := g[Earliest(g)].averageDate, g[Latest(g)].averageDate;
    GroupEntry(stations, g, lag, policy, k);
    if g[k].averageDate == t0 {
      DriftEndpoints(t0, t1, GroupShift(g, lag));
    }
  }

  /** The corrected policy: half of the negated drift on each side when both stations need
      correction, otherwise the whole negated drift on the one that does. */
  lemma {:induction false} SplitPolicy(stations: seq<Station>, g: seq<Key>, lag: Lag, k: nat)
    requires AprioriGroup(stations, g, lag, Split).Ok? && k < |g|
    ensures var p := AprioriGroup(stations, g, lag, Split).value[k];
            var dt := Drift(g[k].averageDate, g[Earliest(g)].averageDate, g[Latest(g)].averageDate, GroupShift(g, lag));
            var s1 := GetStation(stations, g[0].station1).value;
            var s2 := GetStation(stations, g[0].station2).value;
            && (s1.needsCorrection || s2.needsCorrection)
            && (s1.needsCorrection && s2.needsCorrection ==> p == (Half(Neg(dt)), Half(Neg(dt))))
            && (s1.needsCorrection && !s2.needsCorrection ==> p == (Neg(dt), Value(0.0)))
            && (!s1.needsCorrection && s2.needsCorrection ==> p == (Value(0.0), Neg(dt)))
  {
    GroupEntry(stations, g, lag, Split, k);
  }

  /** The two policies assign opposite total shifts to every correlation of a group that
      spans time: the single-sided one `dt`, the corrected one `-dt`. */
  lemma {:induction false} PoliciesOpposite(stations: seq<Station>, g: seq<Key>, lag: Lag, k: nat)
    requires AprioriGroup(stations, g, lag, SingleSided).Ok? && AprioriGroup(stations, g, lag, Split).Ok?
    requires k < |g| && g[Earliest(g)].averageDate != g[Latest(g)].averageDate
    ensures var a := AprioriGroup(stations, g, lag, SingleSided).value[k];
            var b := AprioriGroup(stations, g, lag, Split).value[k];
            a.0.Value? && a.1.Value? && b.0.Value? && b.1.Value? &&
            b.0.v + b.1.v == -(a.0.v + a.1.v)
  {
    var dt := Drift(g[k].averageDate, g[Earliest(g)].averageDate, g[Latest(g)].averageDate, GroupShift(g, lag));
    GroupEntry(stations, g, lag, SingleSided, k);
    GroupEntry(stations, g, lag, Split, k);
    assert dt.Value?;
  }

  /** Entry `k` of an estimated group is its drift placed on the side the policy chooses. This
      only unfolds the definition of `AprioriGroup`, as a step for the lemmas below. */
  lemma GroupEntry(stations: seq<Station>, g: seq<Key>, lag: Lag, policy: Policy, k: nat)
    requires AprioriGroup(stations, g, lag, policy).Ok? && k < |g|
    ensures SideOf(stations, g[0].station1, g[0].station2, policy).Ok?
    ensures AprioriGroup(stations, g, lag, policy).value[k]
            == Apply(SideOf(stations, g[0].station1, g[0].station2, policy).value,
                     Drift(g[k].averageDate, g[Earliest(g)].averageDate, g[Latest(g)].averageDate, GroupShift(g, lag)))
  {
  }

  /** A group whose dates all coincide gets NaN on the drift side. */
  lemma {:induction false} ZeroSpan(stations: seq<Station>, g: seq<Key>, lag: Lag, policy: Policy, k: nat)
    requires AprioriGroup(stations, g, lag, policy).Ok? && k < |g|
    requires g[Earliest(g)].averageDate == g[Latest(g)].averageDate
    ensures var p := AprioriGroup(stations, g, lag, policy).value[k];
            p.0 == Unresolved || p.1 == Unresolved
  {
    GroupEntry(stations, g, lag, policy, k);
  }

  /** The pair test of `get_correlations_of_stationpair`, on a key. */
  predicate KeyInPair(q: Key, x: string, y: string)
  {
    (x == q.station1 || x == q.station2) && (y == q.station1 || y == q.station2)
  }

  /** Positions of the group `calculate_aprioridt_4_allcorrelations` hands to the estimate for
      the codes `x`, `y` and the parameter set `p`. */
  function GroupPositions(ks: seq<Key>, x: string, y: string, p: ProcessingParameters): (ix: seq<nat>)
    ensures forall m :: 0 <= m < |ix| ==> ix[m] < |ks| && ks[ix[m]].params == p && KeyInPair(ks[ix[m]], x, y)
    ensures forall m, n :: 0 <= m < n < |ix| ==> ix[m] < ix[n]
    ensures forall k :: 0 <= k < |ks| && KeyInPair(ks[k], x, y) && ks[k].params == p ==> k in ix
  {
    Positions(ks, (q: Key) => KeyInPair(q, x, y) && q.params == p)
  }

  /** The group is exactly `correlations_with_parameters(get_correlations_of_stationpair(x, y), p)`. */
  lemma {:induction false} GroupIsQuery(corrs: seq<Correlation>, x: string, y: string, p: ProcessingParameters)
    requires x != y
    ensures Select(corrs, GroupPositions(Keys(corrs), x, y, p)) == WithParameters(PairCorrelations(corrs, x, y).value, p)
  {
    var f := (c: Correlation) => InPair(c, x, y);
    var g := (c: Correlation) => c.params == p;
    var pp := Positions(corrs, f);
    var pair := Select(corrs, pp);
    var qq := Positions(pair, g);
    var fg := (c: Correlation) => InPair(c, x, y) && c.params == p;
    PositionsCompose(corrs, f, g, fg);
    var both := Positions(corrs, fg);
    PositionsCongruent(corrs, Keys(corrs), fg, (q: Key) => KeyInPair(q, x, y) && q.params == p);
    assert GroupPositions(Keys(corrs), x, y, p) == both;
    assert Select(corrs, both) == Select(pair, qq);
    assert PairCorrelations(corrs, x, y).value == pair;
    assert WithParameters(pair, p) == Select(pair, qq);
  }

  /** `k`'s position within the increasing index list `ix`. */
  function IndexOf(ix: seq<nat>, k: nat): (m: nat)
    requires k in ix
    ensures m < |ix| && ix[m] == k
  {
    if ix[0] == k then 0 else 1 + IndexOf(ix[1..], k)
  }

  /** The apriori pair the all-pairs driver writes into correlation `k`: the estimate of the
      group of correlations with the same endpoints and the same parameter object, or (0, 0)
      when `k` is alone in its group. */
  function Written(stations: seq<Station>, ks: seq<Key>, k: nat, lag: Lag, policy: Policy): Result<(Num, Num)>
    requires k < |ks|
  {
    var ix := GroupPositions(ks, ks[k].station1, ks[k].station2, ks[k].params);
    assert k in ix;
    if |ix| == 1 then Ok((Value(0.0), Value(0.0)))
    else
      var vals :- AprioriGroup(stations, Select(ks, ix), lag, policy);
      Ok(vals[IndexOf(ix, k)])
  }

  function SetApriori(c: Correlation, v: (Num, Num)): Correlation
  {
    c.(apriori1 := v.0, apriori2 := v.1)
  }

  /** For two different codes, the group seen from any of its members is the same group. */
  lemma {:induction false} GroupOfMember(ks: seq<Key>, x: string, y: string, p: ProcessingParameters, k: nat)
    requires x != y && k in GroupPositions(ks, x, y, p)
    ensures k < |ks|
    ensures GroupPositions(ks, ks[k].station1, ks[k].station2, ks[k].params) == GroupPositions(ks, x, y, p)
  {
    var m := IndexOf(GroupPositions(ks, x, y, p), k);
    var q := ks[k];
    assert {q.station1, q.station2} == {x, y};
    PositionsCongruent(ks, ks, (r: Key) => KeyInPair(r, q.station1, q.station2) && r.params == q.params,
                       (r: Key) => KeyInPair(r, x, y) && r.params == p);
  }

  /** `k`'s position in an increasing index list is where it is. */
  lemma {:induction false} IndexOfAt(ix: seq<nat>, m: nat)
    requires m < |ix| && forall a, b :: 0 <= a < b < |ix| ==> ix[a] < ix[b]
    ensures IndexOf(ix, ix[m]) == m
  {
    if ix[0] != ix[m] {
      IndexOfAt(ix[1..], m - 1);
    }
  }

  /** For two different codes, the pair test on a key is the test on the endpoint set. */
  lemma KeyInPairIff(c: Correlation, x: string, y: string)
    requires x != y
    ensures KeyInPair(KeyOf(c), x, y) <==> PairKey(c) == {x, y}
  {
    if PairKey(c) == {x, y} {
      assert x in PairKey(c) && y in PairKey(c);
    }
  }

  /** The all-pairs driver reaches a correlation when two different stations of the list have
      its endpoint codes and its parameter object is in the list of parameter sets. */
  predicate Handled(stations: seq<Station>, ps: seq<ProcessingParameters>, c: Correlation)
  {
    Covered(stations, PairKey(c)) && c.params in ps
  }

  /** Every group the driver reaches can be estimated. */
  predicate AprioriOk(stations: seq<Station>, cs: seq<Correlation>, ps: seq<ProcessingParameters>, lag: Lag, policy: Policy)
  {
    forall k :: 0 <= k < |cs| && Handled(stations, ps, cs[k]) ==> Written(stations, Keys(cs), k, lag, policy).Ok?
  }

  /** `calculate_aprioridt_4_allcorrelations(_corrected)`: the correlations after every
      station pair and every parameter set has been processed. */
  function AprioriAll(stations: seq<Station>, cs: seq<Correlation>, ps: seq<ProcessingParameters>, lag: Lag, policy: Policy): (r: seq<Correlation>)
    requires AprioriOk(stations, cs, ps, lag, policy)
  {
    seq(|cs|, k requires 0 <= k < |cs| =>
      if Handled(stations, ps, cs[k]) then SetApriori(cs[k], Written(stations, Keys(cs), k, lag, policy).value) else cs[k])
  }

  /** The driver writes only the apriori pair, and leaves a correlation it does not reach as
      it is. */
  lemma AprioriAllShape(stations: seq<Station>, cs: seq<Correlation>, ps: seq<ProcessingParameters>, lag: Lag, policy: Policy, k: nat)
    requires AprioriOk(stations, cs, ps, lag, policy) && k < |cs|
    ensures var r := AprioriAll(stations, cs, ps, lag, policy);
      && |r| == |cs| && Keys(r) == Keys(cs)
      && r[k] == SetApriori(cs[k], (r[k].apriori1, r[k].apriori2))
      && (!Handled(stations, ps, cs[k]) ==> r[k] == cs[k])
  {
    var r := AprioriAll(stations, cs, ps, lag, policy);
    assert Keys(r) == Keys(cs);
  }

  /** A reached correlation alone in its group gets (0, 0). */
  lemma AprioriAllLone(stations: seq<Station>, cs: seq<Correlation>, ps: seq<ProcessingParameters>, lag: Lag, policy: Policy, k: nat)
    requires AprioriOk(stations, cs, ps, lag, policy) && k < |cs| && Handled(stations, ps, cs[k])
    requires |GroupPositions(Keys(cs), cs[k].station1, cs[k].station2, cs[k].params)| == 1
    ensures AprioriAll(stations, cs, ps, lag, policy)[k] == SetApriori(cs[k], (Value(0.0), Value(0.0)))
  {
  }

  /** A reached correlation in a larger group gets the group's estimate at its position, where
      the group is exactly the correlations of its station pair
      (`get_correlations_of_stationpair`) holding its parameter object
      (`correlations_with_parameters`). */
  lemma AprioriAllGroup(stations: seq<Station>, cs: seq<Correlation>, ps: seq<ProcessingParameters>, lag: Lag, policy: Policy, k: nat)
    requires AprioriOk(stations, cs, ps, lag, policy) && k < |cs| && Handled(stations, ps, cs[k])
    requires |GroupPositions(Keys(cs), cs[k].station1, cs[k].station2, cs[k].params)| >= 2
    ensures var c := cs[k];
      var ix := GroupPositions(Keys(cs), c.station1, c.station2, c.params);
      var r := AprioriAll(stations, cs, ps, lag, policy);
      && c.station1 != c.station2
      && Select(cs, ix) == WithParameters(PairCorrelations(cs, c.station1, c.station2).value, c.params)
      && AprioriGroup(stations, Select(Keys(cs), ix), lag, policy).Ok?
      && (r[k].apriori1, r[k].apriori2) == AprioriGroup(stations, Select(Keys(cs), ix), lag, policy).value[IndexOf(ix, k)]
  {
    var c := cs[k];
    HandledDistinct(stations, ps, c);
    GroupIsQuery(cs, c.station1, c.station2, c.params);
    var ix := GroupPositions(Keys(cs), c.station1, c.station2, c.params);
    var w := Written(stations, Keys(cs), k, lag, policy);
    assert w.Ok?;
    assert w.value == AprioriGroup(stations, Select(Keys(cs), ix), lag, policy).value[IndexOf(ix, k)];
  }

  /** The endpoint codes of a reached correlation are different. */
  lemma HandledDistinct(stations: seq<Station>, ps: seq<ProcessingParameters>, c: Correlation)
    requires Handled(stations, ps, c)
    ensures c.station1 != c.station2
  {
    var i, j :| 0 <= i < |stations| && 0 <= j < |stations| && stations[i].code != stations[j].code
                && {stations[i].code, stations[j].code} == PairKey(c);
  }

  /** A second run of the driver changes nothing: it reads only the fields it does not write. */
  lemma AprioriAllTwice(stations: seq<Station>, cs: seq<Correlation>, ps: seq<ProcessingParameters>, lag: Lag, policy: Policy)
    requires AprioriOk(stations, cs, ps, lag, policy)
    ensures AprioriOk(stations, AprioriAll(stations, cs, ps, lag, policy), ps, lag, policy)
    ensures AprioriAll(stations, AprioriAll(stations, cs, ps, lag, policy), ps, lag, policy) == AprioriAll(stations, cs, ps, lag, policy)
  {
    var r := AprioriAll(stations, cs, ps, lag, policy);
    assert Keys(r) == Keys(cs);
    assert forall k :: 0 <= k < |r| ==> PairKey(r[k]) == PairKey(cs[k]) && r[k].params == cs[k].params;
  }

  /** The state part-way through the driver, against the correlations `cs0` it started from:
      only apriori pairs ever change; the correlations of the groups in `done` hold the pair
      written for them; those of a group in `loose` (the group being written) may hold either;
      all others are untouched. */
  predicate AprioriSoFar(stations: seq<Station>, cs0: seq<Correlation>, cs: seq<Correlation>,
                         done: set<(set<string>, ProcessingParameters)>, loose: set<(set<string>, ProcessingParameters)>,
                         lag: Lag, policy: Policy)
  {
    && |cs| == |cs0|
    && (forall k :: 0 <= k < |cs| ==>
          && cs[k] == SetApriori(cs0[k], (cs[k].apriori1, cs[k].apriori2))
          && ((PairKey(cs0[k]), cs0[k].params) !in done && (PairKey(cs0[k]), cs0[k].params) !in loose ==> cs[k] == cs0[k]))
    && (forall k {:trigger Written(stations, Keys(cs0), k, lag, policy)} ::
          0 <= k < |cs| && (PairKey(cs0[k]), cs0[k].params) in done ==>
            Written(stations, Keys(cs0), k, lag, policy).Ok?
            && cs[k] == SetApriori(cs0[k], Written(stations, Keys(cs0), k, lag, policy).value))
  }

  /** Part-way through, the fields the driver reads are those it started from. */
  lemma SoFarKeys(stations: seq<Station>, cs0: seq<Correlation>, cs: seq<Correlation>,
                  done: set<(set<string>, ProcessingParameters)>, loose: set<(set<string>, ProcessingParameters)>,
                  lag: Lag, policy: Policy)
    requires AprioriSoFar(stations, cs0, cs, done, loose, lag, policy)
    ensures Keys(cs) == Keys(cs0)
    ensures forall k :: 0 <= k < |cs| ==> PairKey(cs[k]) == PairKey(cs0[k]) && cs[k].params == cs0[k].params
  {
    assert forall k :: 0 <= k < |cs| ==> KeyOf(cs[k]) == KeyOf(cs0[k]);
  }

  /** While a group is written its correlations may hold either value. */
  lemma SoFarLoosen(stations: seq<Station>, cs0: seq<Correlation>, cs: seq<Correlation>,
                    done: set<(set<string>, ProcessingParameters)>, e: (set<string>, ProcessingParameters),
                    lag: Lag, policy: Policy)
    requires AprioriSoFar(stations, cs0, cs, done, {}, lag, policy)
    ensures AprioriSoFar(stations, cs0, cs, done, {e}, lag, policy)
  {
  }

  /** A group without members is processed as soon as it is looked at. */
  lemma GroupVacuous(stations: seq<Station>, cs0: seq<Correlation>, cs: seq<Correlation>,
                     done: set<(set<string>, ProcessingParameters)>, x: string, y: string, p: ProcessingParameters,
                     lag: Lag, policy: Policy)
    requires x != y && AprioriSoFar(stations, cs0, cs, done, {}, lag, policy)
    requires GroupPositions(Keys(cs0), x, y, p) == []
    ensures AprioriSoFar(stations, cs0, cs, done + {({x, y}, p)}, {}, lag, policy)
  {
    forall k | 0 <= k < |cs0|
      ensures (PairKey(cs0[k]), cs0[k].params) != ({x, y}, p)
    {
      GroupMembers(cs0, x, y, p, k);
    }
  }

  /** A station pair without correlations has no group under any parameter set. */
  lemma NoPairNoGroup(stations: seq<Station>, cs0: seq<Correlation>, cs: seq<Correlation>,
                      done: set<(set<string>, ProcessingParameters)>, x: string, y: string, p: ProcessingParameters,
                      lag: Lag, policy: Policy)
    requires x != y && AprioriSoFar(stations, cs0, cs, done, {}, lag, policy)
    requires PairCorrelations(cs, x, y).value == []
    ensures GroupPositions(Keys(cs0), x, y, p) == []
  {
    SoFarKeys(stations, cs0, cs, done, {}, lag, policy);
    GroupIsQuery(cs, x, y, p);
    assert WithParameters([], p) == [];
  }

  /** The first `m` members of the group at the positions `ix` hold the pair written for them. */
  predicate GroupFinished(stations: seq<Station>, cs0: seq<Correlation>, cs: seq<Correlation>, ix: seq<nat>, m: nat,
                          lag: Lag, policy: Policy)
  {
    m <= |ix| &&
    forall n :: 0 <= n < m ==>
      && ix[n] < |cs0| && ix[n] < |cs|
      && Written(stations, Keys(cs0), ix[n], lag, policy).Ok?
      && cs[ix[n]] == SetApriori(cs0[ix[n]], Written(stations, Keys(cs0), ix[n], lag, policy).value)
  }

  /** Writing the estimate of the next member of a larger group keeps the state. */
  lemma GroupWriteStep(stations: seq<Station>, cs0: seq<Correlation>, cs: seq<Correlation>,
                       done: set<(set<string>, ProcessingParameters)>, x: string, y: string, p: ProcessingParameters,
                       lag: Lag, policy: Policy, vals: seq<(Num, Num)>, m: nat)
    requires x != y
    requires var ix := GroupPositions(Keys(cs0), x, y, p);
             |ix| >= 2 && m < |ix| && AprioriGroup(stations, Select(Keys(cs0), ix), lag, policy) == Ok(vals)
    requires AprioriSoFar(stations, cs0, cs, done, {({x, y}, p)}, lag, policy)
    requires GroupFinished(stations, cs0, cs, GroupPositions(Keys(cs0), x, y, p), m, lag, policy)
    ensures var ix := GroupPositions(Keys(cs0), x, y, p);
      && ix[m] < |cs| && m < |vals|
      && AprioriSoFar(stations, cs0, cs[ix[m] := SetApriori(cs[ix[m]], vals[m])], done, {({x, y}, p)}, lag, policy)
      && GroupFinished(stations, cs0, cs[ix[m] := SetApriori(cs[ix[m]], vals[m])], ix, m + 1, lag, policy)
  {
    var ix := GroupPositions(Keys(cs0), x, y, p);
    var k := ix[m];
    MemberWritten(stations, cs0, x, y, p, lag, policy, vals, m);
    GroupMembers(cs0, x, y, p, k);
    SoFarWrite(stations, cs0, cs, done, {({x, y}, p)}, lag, policy, k, vals[m]);
    FinishedWrite(stations, cs0, cs, ix, m, lag, policy, vals[m]);
  }

  /** Writing the pair written for a correlation of a processed or loose group keeps the state. */
  lemma SoFarWrite(stations: seq<Station>, cs0: seq<Correlation>, cs: seq<Correlation>,
                   done: set<(set<string>, ProcessingParameters)>, loose: set<(set<string>, ProcessingParameters)>,
                   lag: Lag, policy: Policy, k: nat, v: (Num, Num))
    requires AprioriSoFar(stations, cs0, cs, done, loose, lag, policy)
    requires k < |cs0| && Written(stations, Keys(cs0), k, lag, policy) == Ok(v)
    requires (PairKey(cs0[k]), cs0[k].params) in done || (PairKey(cs0[k]), cs0[k].params) in loose
    ensures SetApriori(cs[k], v) == SetApriori(cs0[k], v)
    ensures AprioriSoFar(stations, cs0, cs[k := SetApriori(cs[k], v)], done, loose, lag, policy)
  {
    var cs' := cs[k := SetApriori(cs[k], v)];
    assert cs[k] == SetApriori(cs0[k], (cs[k].apriori1, cs[k].apriori2));
    forall j | 0 <= j < |cs'|
      ensures cs'[j] == SetApriori(cs0[j], (cs'[j].apriori1, cs'[j].apriori2))
      ensures (PairKey(cs0[j]), cs0[j].params) !in done && (PairKey(cs0[j]), cs0[j].params) !in loose ==> cs'[j] == cs0[j]
    {
      if j != k {
        assert cs'[j] == cs[j];
      }
    }
    forall j | 0 <= j < |cs'| && (PairKey(cs0[j]), cs0[j].params) in done
      ensures Written(stations, Keys(cs0), j, lag, policy).Ok?
      ensures cs'[j] == SetApriori(cs0[j], Written(stations, Keys(cs0), j, lag, policy).value)
    {
      if j != k {
        assert cs'[j] == cs[j];
      }
    }
  }

  /** Writing the pair of the next member of an increasing position list extends the finished
      prefix. */
  lemma FinishedWrite(stations: seq<Station>, cs0: seq<Correlation>, cs: seq<Correlation>, ix: seq<nat>, m: nat,
                      lag: Lag, policy: Policy, v: (Num, Num))
    requires GroupFinished(stations, cs0, cs, ix, m, lag, policy) && m < |ix|
    requires forall a, b :: 0 <= a < b < |ix| ==> ix[a] < ix[b]
    requires ix[m] < |cs0| && ix[m] < |cs| && Written(stations, Keys(cs0), ix[m], lag, policy) == Ok(v)
    requires SetApriori(cs[ix[m]], v) == SetApriori(cs0[ix[m]], v)
    ensures GroupFinished(stations, cs0, cs[ix[m] := SetApriori(cs[ix[m]], v)], ix, m + 1, lag, policy)
  {
  }

  /** Once every member of the group holds its pair, the group is processed. */
  lemma GroupClosed(stations: seq<Station>, cs0: seq<Correlation>, cs: seq<Correlation>,
                    done: set<(set<string>, ProcessingParameters)>, x: string, y: string, p: ProcessingParameters,
                    lag: Lag, policy: Policy)
    requires x != y && AprioriSoFar(stations, cs0, cs, done, {({x, y}, p)}, lag, policy)
    requires GroupFinished(stations, cs0, cs, GroupPositions(Keys(cs0), x, y, p), |GroupPositions(Keys(cs0), x, y, p)|, lag, policy)
    ensures AprioriSoFar(stations, cs0, cs, done + {({x, y}, p)}, {}, lag, policy)
  {
    var ix := GroupPositions(Keys(cs0), x, y, p);
    forall k | 0 <= k < |cs0| && (PairKey(cs0[k]), cs0[k].params) == ({x, y}, p)
      ensures Written(stations, Keys(cs0), k, lag, policy).Ok?
      ensures cs[k] == SetApriori(cs0[k], Written(stations, Keys(cs0), k, lag, policy).value)
    {
      GroupMembers(cs0, x, y, p, k);
      var n :| 0 <= n < |ix| && ix[n] == k;
    }
  }

  /** A group of one gets (0, 0) and is then processed. */
  lemma LoneStep(stations: seq<Station>, cs0: seq<Correlation>, cs: seq<Correlation>,
                 done: set<(set<string>, ProcessingParameters)>, x: string, y: string, p: ProcessingParameters,
                 lag: Lag, policy: Policy)
    requires x != y && AprioriSoFar(stations, cs0, cs, done, {}, lag, policy)
    requires |GroupPositions(Keys(cs0), x, y, p)| == 1
    ensures var k := GroupPositions(Keys(cs0), x, y, p)[0];
      && k < |cs|
      && AprioriSoFar(stations, cs0, cs[k := SetApriori(cs[k], (Value(0.0), Value(0.0)))], done + {({x, y}, p)}, {}, lag, policy)
  {
    var ix := GroupPositions(Keys(cs0), x, y, p);
    var k := ix[0];
    LoneWritten(stations, cs0, x, y, p, lag, policy);
    GroupMembers(cs0, x, y, p, k);
    var cs' := cs[k := SetApriori(cs[k], (Value(0.0), Value(0.0)))];
    assert GroupFinished(stations, cs0, cs', ix, 1, lag, policy);
    GroupClosed(stations, cs0, cs', done, x, y, p, lag, policy);
  }

  /** A larger group of a pair of listed stations whose estimate fails makes the driver fail. */
  lemma GroupFails(stations: seq<Station>, cs0: seq<Correlation>, ps: seq<ProcessingParameters>,
                   x: string, y: string, p: ProcessingParameters, lag: Lag, policy: Policy)
    requires x != y && Covered(stations, {x, y}) && p in ps
    requires var ix := GroupPositions(Keys(cs0), x, y, p);
             |ix| >= 2 && AprioriGroup(stations, Select(Keys(cs0), ix), lag, policy).Err?
    ensures !AprioriOk(stations, cs0, ps, lag, policy)
  {
    var k := GroupPositions(Keys(cs0), x, y, p)[0];
    FailingGroup(stations, cs0, x, y, p, lag, policy);
    GroupMembers(cs0, x, y, p, k);
    assert Handled(stations, ps, cs0[k]);
  }

  /** The group of the codes `x`, `y` (different) and the parameter set `p` is made of the
      correlations with these endpoints and this parameter object. */
  lemma GroupMembers(cs0: seq<Correlation>, x: string, y: string, p: ProcessingParameters, k: nat)
    requires x != y && k < |cs0|
    ensures k in GroupPositions(Keys(cs0), x, y, p) <==> PairKey(cs0[k]) == {x, y} && cs0[k].params == p
  {
    KeyInPairIff(cs0[k], x, y);
  }

  /** Within a group of one, the driver writes (0, 0). */
  lemma LoneWritten(stations: seq<Station>, cs0: seq<Correlation>, x: string, y: string, p: ProcessingParameters, lag: Lag, policy: Policy)
    requires x != y && |GroupPositions(Keys(cs0), x, y, p)| == 1
    ensures var k := GroupPositions(Keys(cs0), x, y, p)[0];
            k < |cs0| && Written(stations, Keys(cs0), k, lag, policy) == Ok((Value(0.0), Value(0.0)))
  {
    var ks := Keys(cs0);
    var k := GroupPositions(ks, x, y, p)[0];
    GroupOfMember(ks, x, y, p, k);
  }

  /** Within a larger group, the driver writes the group's estimate at the member's position. */
  lemma MemberWritten(stations: seq<Station>, cs0: seq<Correlation>, x: string, y: string, p: ProcessingParameters,
                      lag: Lag, policy: Policy, vals: seq<(Num, Num)>, m: nat)
    requires x != y
    requires var ix := GroupPositions(Keys(cs0), x, y, p);
             |ix| >= 2 && m < |ix| && AprioriGroup(stations, Select(Keys(cs0), ix), lag, policy) == Ok(vals)
    ensures var k := GroupPositions(Keys(cs0), x, y, p)[m];
            k < |cs0| && m < |vals| && Written(stations, Keys(cs0), k, lag, policy) == Ok(vals[m])
  {
    var ks := Keys(cs0);
    var ix := GroupPositions(ks, x, y, p);
    GroupOfMember(ks, x, y, p, ix[m]);
    IndexOfAt(ix, m);
    WrittenInGroup(stations, ks, ix[m], ix, lag, policy, vals);
  }

  lemma WrittenInGroup(stations: seq<Station>, ks: seq<Key>, k: nat, ix: seq<nat>, lag: Lag, policy: Policy,
                       vals: seq<(Num, Num)>)
    requires k < |ks| && ix == GroupPositions(ks, ks[k].station1, ks[k].station2, ks[k].params)
    requires k in ix && |ix| >= 2 && AprioriGroup(stations, Select(ks, ix), lag, policy) == Ok(vals)
    ensures IndexOf(ix, k) < |vals| && Written(stations, ks, k, lag, policy) == Ok(vals[IndexOf(ix, k)])
  {
  }

  /** A larger group whose estimate fails makes the driver's outcome fail. */
  lemma FailingGroup(stations: seq<Station>, cs0: seq<Correlation>, x: string, y: string, p: ProcessingParameters,
                     lag: Lag, policy: Policy)
    requires x != y
    requires var ix := GroupPositions(Keys(cs0), x, y, p);
             |ix| >= 2 && AprioriGroup(stations, Select(Keys(cs0), ix), lag, policy).Err?
    ensures var k := GroupPositions(Keys(cs0), x, y, p)[0];
            k < |cs0| && Written(stations, Keys(cs0), k, lag, policy).Err?
  {
    var ks := Keys(cs0);
    var ix := GroupPositions(ks, x, y, p);
    GroupOfMember(ks, x, y, p, ix[0]);
  }

  /** A correlation the driver reaches belongs to a processed group. */
  lemma HandledDone(stations: seq<Station>, ps: seq<ProcessingParameters>, done: set<(set<string>, ProcessingParameters)>, c: Correlation)
    requires forall i, j, q :: 0 <= i < j < |stations| && 0 <= q < |ps| ==>
               ({stations[i].code, stations[j].code}, ps[q]) in done
    requires Handled(stations, ps, c)
    ensures (PairKey(c), c.params) in done
  {
    var i, j :| 0 <= i < |stations| && 0 <= j < |stations| && stations[i].code != stations[j].code
                && {stations[i].code, stations[j].code} == PairKey(c);
    var q :| 0 <= q < |ps| && ps[q] == c.params;
    if i < j {
      assert ({stations[i].code, stations[j].code}, ps[q]) in done;
    } else {
      assert {stations[j].code, stations[i].code} == PairKey(c);
      assert ({stations[j].code, stations[i].code}, ps[q]) in done;
    }
  }

  /** When every pair of different stations has been processed under every parameter set,
      the state is the driver's result. */
  lemma AprioriDone(stations: seq<Station>, cs0: seq<Correlation>, cs: seq<Correlation>, ps: seq<ProcessingParameters>,
                    done: set<(set<string>, ProcessingParameters)>, lag: Lag, policy: Policy)
    requires AprioriSoFar(stations, cs0, cs, done, {}, lag, policy)
    requires forall e :: e in done ==> Covered(stations, e.0) && e.1 in ps
    requires forall i, j, q :: 0 <= i < j < |stations| && 0 <= q < |ps| ==>
               ({stations[i].code, stations[j].code}, ps[q]) in done
    ensures AprioriOk(stations, cs0, ps, lag, policy)
    ensures cs == AprioriAll(stations, cs0, ps, lag, policy)
  {
    forall k | 0 <= k < |cs0|
      ensures Handled(stations, ps, cs0[k]) <==> (PairKey(cs0[k]), cs0[k].params) in done
    {
      if Handled(stations, ps, cs0[k]) {
        HandledDone(stations, ps, done, cs0[k]);
      }
    }
  }
}
