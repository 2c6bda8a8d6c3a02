/** The inclusion filter's bookkeeping: the observation periods of a station
    (`Clock_drift.no_corr_per_avg_date`), their recount after a station is dropped
    (`recount_correlations_removing_station`) and the criterion a station must meet to stay
    in the inversion (`Clock_drift.stations_with_few_corrs`). */
module Inclusion {
  import opened Values
  import opened Entities
  import opened Queries
  import opened Buckets

  /** A correlation of the station that still counts: its latest apparent shift is resolved
      and it does not involve the station being removed. */
  predicate Counts(c: Correlation, code: string, removed: Option<string>)
    requires Measured(c)
  {
    Touches(c, code) && LatestResolved(c) && (removed.None? || !Touches(c, removed.value))
  }

  /** The day keys of the counting correlations of the station, in correlation order
      (`dates_of_correlations_with_t_app`, and the date loop of the recount). */
  function Dates(corrs: seq<Correlation>, code: string, removed: Option<string>): (days: seq<int>)
    requires AllMeasured(corrs)
    ensures |days| <= |corrs|
  {
    if corrs == [] then []
    else
      var c := corrs[|corrs| - 1];
      Dates(corrs[..|corrs| - 1], code, removed) + (if Counts(c, code, removed) then [DayOf(c.averageDate)] else [])
  }

  /** Without a station to remove, there is one date per correlation of the station with a
      resolved latest shift. */
  lemma {:induction false} DatesCount(corrs: seq<Correlation>, code: string)
    requires AllMeasured(corrs)
    ensures |Dates(corrs, code, None)| == ResolvedCount(corrs, code)
  {
    if corrs != [] {
      DatesCount(corrs[..|corrs| - 1], code);
    }
  }

  /** Removing a station can only drop dates, and drops none when no correlation involves it;
      every remaining date is the day of a counting correlation. */
  lemma {:induction false} DatesRemoving(corrs: seq<Correlation>, code: string, removed: string)
    requires AllMeasured(corrs)
    ensures |Dates(corrs, code, Some(removed))| <= |Dates(corrs, code, None)|
    ensures (forall k :: 0 <= k < |corrs| ==> !Touches(corrs[k], removed)) ==>
              Dates(corrs, code, Some(removed)) == Dates(corrs, code, None)
    ensures forall d :: d in Dates(corrs, code, Some(removed)) ==>
              exists k :: 0 <= k < |corrs| && Counts(corrs[k], code, Some(removed)) && d == DayOf(corrs[k].averageDate)
  {
    if corrs != [] {
      var n := |corrs| - 1;
      DatesRemoving(corrs[..n], code, removed);
      forall d | d in Dates(corrs, code, Some(removed))
        ensures exists k :: 0 <= k < |corrs| && Counts(corrs[k], code, Some(removed)) && d == DayOf(corrs[k].averageDate)
      {
        if d in Dates(corrs[..n], code, Some(removed)) {
          var k :| 0 <= k < n && Counts(corrs[..n][k], code, Some(removed)) && d == DayOf(corrs[..n][k].averageDate);
          assert corrs[..n][k] == corrs[k];
        } else {
          assert Counts(corrs[n], code, Some(removed)) && d == DayOf(corrs[n].averageDate);
        }
      }
    }
  }

  /** `no_corr_per_avg_date`: the sorted day keys of the station's resolved correlations,
      grouped into periods, become `no_corr_per_avg_date`. */
  function WithPeriods(corrs: seq<Correlation>, s: Station, daysApart: int): Station
    requires AllMeasured(corrs)
  {
    s.(noCorrPerAvgDate := Some(PeriodsOf(Sort(Dates(corrs, s.code, None)), daysApart)))
  }

  /** The periods of a station: the sentinel exactly when it has no resolved correlation;
      otherwise every resolved correlation is counted in exactly one period, and every period
      counts at least one. Nothing else of the station changes. */
  lemma WithPeriodsFacts(corrs: seq<Correlation>, s: Station, daysApart: int)
    requires AllMeasured(corrs)
    ensures var r := WithPeriods(corrs, s, daysApart);
      && r.(noCorrPerAvgDate := s.noCorrPerAvgDate) == s
      && r.noCorrPerAvgDate.Some?
      && (r.noCorrPerAvgDate.value == NoCorrelations <==> ResolvedCount(corrs, s.code) == 0)
      && (r.noCorrPerAvgDate.value.Counted? ==>
            && Total(r.noCorrPerAvgDate.value.buckets) == ResolvedCount(corrs, s.code)
            && forall k :: 0 <= k < |r.noCorrPerAvgDate.value.buckets| ==> r.noCorrPerAvgDate.value.buckets[k].count >= 1)
  {
    var days := Sort(Dates(corrs, s.code, None));
    DatesCount(corrs, s.code);
    assert |days| == |multiset(days)| == |multiset(Dates(corrs, s.code, None))|;
    PeriodsOfFacts(days, daysApart);
  }

  /** `recount_correlations_removing_station`: a station without correlations is left as it
      is; when none of its correlations counts any more, the sentinel is written to
      `no_corr_per_avg_date` (not to `updated_no_corr_per_date`); otherwise the periods of the
      remaining dates become `updated_no_corr_per_date`. */
  function Recounted(corrs: seq<Correlation>, s: Station, removed: string, daysApart: int): Station
    requires AllMeasured(corrs)
  {
    if OfStation(corrs, s.code) == [] then s
    else
      var days := Sort(Dates(corrs, s.code, Some(removed)));
      if days == [] then s.(noCorrPerAvgDate := Some(NoCorrelations))
      else s.(updatedNoCorrPerDate := Some(Counted(Bucketize(days, daysApart))))
  }

  /** The recount changes only the two period fields of a station, and nothing at all for a
      station none of whose correlations is in the list. */
  lemma RecountedShape(corrs: seq<Correlation>, s: Station, removed: string, daysApart: int)
    requires AllMeasured(corrs)
    ensures var r := Recounted(corrs, s, removed, daysApart);
      && r.(noCorrPerAvgDate := s.noCorrPerAvgDate, updatedNoCorrPerDate := s.updatedNoCorrPerDate) == s
      && ((forall k :: 0 <= k < |corrs| ==> !Touches(corrs[k], s.code)) ==> r == s)
  {
    if OfStation(corrs, s.code) != [] {
      assert OfStation(corrs, s.code)[0] in corrs;
    }
  }

  /** When the station has correlations but none of them counts any more, only the sentinel
      is written, to `no_corr_per_avg_date`; `updated_no_corr_per_date` keeps its value. */
  lemma RecountedSentinel(corrs: seq<Correlation>, s: Station, removed: string, daysApart: int)
    requires AllMeasured(corrs)
    requires exists k :: 0 <= k < |corrs| && Touches(corrs[k], s.code)
    requires Dates(corrs, s.code, Some(removed)) == []
    ensures Recounted(corrs, s, removed, daysApart) == s.(noCorrPerAvgDate := Some(NoCorrelations))
  {
    var k :| 0 <= k < |corrs| && Touches(corrs[k], s.code);
    assert corrs[k] in OfStation(corrs, s.code);
  }

  /** When some correlation still counts, the updated periods count every one of them exactly
      once, each period at least one, and `no_corr_per_avg_date` keeps its value. */
  lemma RecountedCounts(corrs: seq<Correlation>, s: Station, removed: string, daysApart: int)
    requires AllMeasured(corrs)
    requires Dates(corrs, s.code, Some(removed)) != []
    ensures var r := Recounted(corrs, s, removed, daysApart);
      && r.noCorrPerAvgDate == s.noCorrPerAvgDate
      && r.updatedNoCorrPerDate.Some? && r.updatedNoCorrPerDate.value.Counted?
      && Total(r.updatedNoCorrPerDate.value.buckets) == |Dates(corrs, s.code, Some(removed))|
      && forall k :: 0 <= k < |r.updatedNoCorrPerDate.value.buckets| ==> r.updatedNoCorrPerDate.value.buckets[k].count >= 1
  {
    var dates := Dates(corrs, s.code, Some(removed));
    var days := Sort(dates);
    assert |days| == |multiset(days)| == |multiset(dates)| == |dates|;
    DatesHaveStation(corrs, s.code, removed);
    BucketCounts(days, daysApart);
  }

  /** The recount's sentinel is never read: for a station the filter has already seen
      (`updated_no_corr_per_date` exists), losing every counting correlation leaves the
      periods the filter reads unchanged, so such a station is judged on its old periods. */
  lemma SentinelUnread(corrs: seq<Correlation>, s: Station, removed: string, daysApart: int)
    requires AllMeasured(corrs) && s.updatedNoCorrPerDate.Some?
    requires exists k :: 0 <= k < |corrs| && Touches(corrs[k], s.code)
    requires Dates(corrs, s.code, Some(removed)) == []
    ensures var r := Recounted(corrs, s, removed, daysApart);
            HasPeriods(r) && Current(r) == Current(s) && r.noCorrPerAvgDate == Some(NoCorrelations)
  {
    RecountedSentinel(corrs, s, removed, daysApart);
  }

  lemma {:induction false} DatesHaveStation(corrs: seq<Correlation>, code: string, removed: string)
    requires AllMeasured(corrs)
    requires Dates(corrs, code, Some(removed)) != []
    ensures OfStation(corrs, code) != []
  {
    var n := |corrs| - 1;
    if Counts(corrs[n], code, Some(removed)) {
      assert corrs[n] in OfStation(corrs, code);
    } else {
      DatesHaveStation(corrs[..n], code, removed);
      var c := OfStation(corrs[..n], code)[0];
      assert c in corrs[..n];
      var k :| 0 <= k < n && corrs[..n][k] == c;
      assert corrs[k] in OfStation(corrs, code);
    }
  }

  lemma BucketCounts(days: seq<int>, daysApart: int)
    requires days != []
    ensures Total(Bucketize(days, daysApart)) == |days|
    ensures forall k :: 0 <= k < |Bucketize(days, daysApart)| ==> Bucketize(days, daysApart)[k].count >= 1
  {
    BucketizeTotal(days, daysApart);
    BucketizePositive(days, daysApart);
  }

  /** The number of correlations a period needs: different for stations that need correction
      (ocean-bottom) and for land stations. */
  function Threshold(s: Station, minObs: int, minLand: int): int
  {
    if s.needsCorrection then minObs else minLand
  }

  /** The periods the filter reads: `updated_no_corr_per_date`, which takes the value of
      `no_corr_per_avg_date` the first time it is missing. */
  function Current(s: Station): Periods
    requires s.noCorrPerAvgDate.Some? || s.updatedNoCorrPerDate.Some?
  {
    if s.updatedNoCorrPerDate.Some? then s.updatedNoCorrPerDate.value else s.noCorrPerAvgDate.value
  }

  /** The station has at least `minPeriods` periods with enough correlations. */
  predicate Meets(s: Station, minPeriods: int, minObs: int, minLand: int)
    requires s.noCorrPerAvgDate.Some? || s.updatedNoCorrPerDate.Some?
  {
    PeriodsMeeting(Current(s), Threshold(s, minObs, minLand)) >= minPeriods
  }

  /** The counting loop over the keys of the periods dictionary. */
  method CountQualifying(p: Periods, threshold: int) returns (n: nat)
    ensures n == PeriodsMeeting(p, threshold)
  {
    match p
    case NoCorrelations =>
      n := if 0 >= threshold then 1 else 0;
    case Counted(bs) =>
      n := 0;
      var i := 0;
      while i < |bs|
        invariant 0 <= i <= |bs|
        invariant n == CountMeeting(bs[..i], threshold)
      {
        assert bs[..i + 1][..i] == bs[..i];
        if bs[i].count >= threshold {
          n := n + 1;
        }
        i := i + 1;
      }
      assert bs[..|bs|] == bs;
  }

  /** A period qualifies when its count reaches the threshold: none can qualify above the
      largest count, and with a threshold of at most one every counted period qualifies. */
  lemma {:induction false} CountMeetingBounds(bs: seq<Bucket>, threshold: int)
    ensures (forall k :: 0 <= k < |bs| ==> bs[k].count < threshold) ==> CountMeeting(bs, threshold) == 0
    ensures (forall k :: 0 <= k < |bs| ==> bs[k].count >= threshold) ==> CountMeeting(bs, threshold) == |bs|
  {
    if bs != [] {
      CountMeetingBounds(bs[..|bs| - 1], threshold);
    }
  }

  /** Only the sentinel, whose count is zero, can qualify without a correlation: a station
      without resolved correlations meets a positive period threshold only if the per-period
      threshold is not positive. */
  lemma NoCorrelationsMeets(minPeriods: int, threshold: int)
    requires minPeriods > 0
    ensures PeriodsMeeting(NoCorrelations, threshold) >= minPeriods <==> threshold <= 0 && minPeriods == 1
  {
  }

  /** The date loop: the day keys of the counting correlations, in correlation order. */
  method DatesOf(corrs: seq<Correlation>, code: string, removed: Option<string>) returns (days: seq<int>)
    requires AllMeasured(corrs)
    ensures days == Dates(corrs, code, removed)
  {
    days := [];
    for i := 0 to |corrs|
      invariant days == Dates(corrs[..i], code, removed)
    {
      assert corrs[..i + 1][..i] == corrs[..i];
      if Counts(corrs[i], code, removed) {
        days := days + [DayOf(corrs[i].averageDate)];
      }
    }
    assert corrs[..|corrs|] == corrs;
  }

  /** `no_corr_per_avg_date` on one station. */
  method StationPeriods(corrs: seq<Correlation>, s: Station, daysApart: int) returns (r: Station)
    requires AllMeasured(corrs)
    ensures r == WithPeriods(corrs, s, daysApart)
  {
    var dates := DatesOf(corrs, s.code, None);
    var p := CountPeriods(Sort(dates), daysApart);
    r := s.(noCorrPerAvgDate := Some(p));
  }

  /** `recount_correlations_removing_station` on one station. */
  method Recount(corrs: seq<Correlation>, s: Station, removed: string, daysApart: int) returns (r: Station)
    requires AllMeasured(corrs)
    ensures r == Recounted(corrs, s, removed, daysApart)
  {
    if OfStation(corrs, s.code) == [] {
      return s;
    }
    var dates := DatesOf(corrs, s.code, Some(removed));
    var days := Sort(dates);
    if days == [] {
      return s.(noCorrPerAvgDate := Some(NoCorrelations));
    }
    var p := CountPeriods(days, daysApart);
    r := s.(updatedNoCorrPerDate := Some(p));
  }

  /** The station has a periods dictionary the filter can read. */
  predicate HasPeriods(s: Station)
  {
    s.noCorrPerAvgDate.Some? || s.updatedNoCorrPerDate.Some?
  }

  /** `updated_no_corr_per_date` is created from `no_corr_per_avg_date` when it is missing. */
  function Prepared(s: Station): (r: Station)
    requires HasPeriods(s)
    ensures HasPeriods(r) && r.updatedNoCorrPerDate.Some? && Current(r) == Current(s)
  {
    if s.updatedNoCorrPerDate.Some? then s else s.(updatedNoCorrPerDate := s.noCorrPerAvgDate)
  }

  /** Every station of the list still included is recounted without the removed station. */
  function RecountAll(ss: seq<Station>, corrs: seq<Correlation>, removed: string, daysApart: int): (r: seq<Station>)
    requires AllMeasured(corrs)
  {
    seq(|ss|, k requires 0 <= k < |ss| => if ss[k].included then Recounted(corrs, ss[k], removed, daysApart) else ss[k])
  }

  /** The inclusion flags of the stations. */
  function Flags(ss: seq<Station>): (f: seq<bool>)
    ensures |f| == |ss| && forall k :: 0 <= k < |ss| ==> f[k] == ss[k].included
  {
    seq(|ss|, k requires 0 <= k < |ss| => ss[k].included)
  }

  function CountTrue(bs: seq<bool>): (n: nat)
    ensures n <= |bs|
  {
    if bs == [] then 0 else CountTrue(bs[..|bs| - 1]) + (if bs[|bs| - 1] then 1 else 0)
  }

  /** Number of stations still included. */
  function Included(ss: seq<Station>): nat
  {
    CountTrue(Flags(ss))
  }

  /** The station fields the filter may change are the flag and the two period fields. */
  predicate SameStation(s: Station, t: Station)
  {
    t.(included := s.included, noCorrPerAvgDate := s.noCorrPerAvgDate, updatedNoCorrPerDate := s.updatedNoCorrPerDate) == s
  }

  /** One pass of the `for station in self.stations` loop of `stations_with_few_corrs`, from
      position `i`: included stations get `updated_no_corr_per_date` if missing; the first
      that does not meet the criterion is excluded, every station still included is recounted
      without it, and the pass ends asking for a restart. */
  function PassFrom(ss: seq<Station>, corrs: seq<Correlation>, i: nat,
                    minPeriods: int, minObs: int, minLand: int, daysApart: int): (seq<Station>, bool)
    requires AllMeasured(corrs) && i <= |ss| && forall k :: 0 <= k < |ss| ==> HasPeriods(ss[k])
    decreases |ss| - i
  {
    if i == |ss| then (ss, false)
    else if !ss[i].included then PassFrom(ss, corrs, i + 1, minPeriods, minObs, minLand, daysApart)
    else
      var s := Prepared(ss[i]);
      if !Meets(s, minPeriods, minObs, minLand) then
        (RecountAll(ss[i := s.(included := false)], corrs, s.code, daysApart), true)
      else PassFrom(ss[i := s], corrs, i + 1, minPeriods, minObs, minLand, daysApart)
  }

  /** The stations with every flag set, as the first loop of `stations_with_few_corrs` leaves
      them. */
  function AllIncluded(stations: seq<Station>): (r: seq<Station>)
    ensures |r| == |stations| && forall k :: 0 <= k < |r| ==> r[k] == stations[k].(included := true)
    ensures forall k :: 0 <= k < |r| ==> HasPeriods(r[k]) == HasPeriods(stations[k])
  {
    seq(|stations|, k requires 0 <= k < |stations| => stations[k].(included := true))
  }

  /** `stations_with_few_corrs`: passes repeat until one ends without excluding a station; each
      restart excludes one more station, so there are at most |stations| restarts. */
  function Filtered(ss: seq<Station>, corrs: seq<Correlation>,
                    minPeriods: int, minObs: int, minLand: int, daysApart: int): seq<Station>
    requires AllMeasured(corrs) && forall k :: 0 <= k < |ss| ==> HasPeriods(ss[k])
    decreases Included(ss)
  {
    var (r, restart) := PassFrom(ss, corrs, 0, minPeriods, minObs, minLand, daysApart);
    PassFacts(ss, corrs, 0, minPeriods, minObs, minLand, daysApart);
    if restart then Filtered(r, corrs, minPeriods, minObs, minLand, daysApart) else r
  }

  /** Recounting keeps the flags, the periods and every other field but the period fields. */
  lemma RecountAllFacts(ss: seq<Station>, corrs: seq<Correlation>, removed: string, daysApart: int)
    requires AllMeasured(corrs) && forall k :: 0 <= k < |ss| ==> HasPeriods(ss[k])
    ensures var r := RecountAll(ss, corrs, removed, daysApart);
      && |r| == |ss| && Flags(r) == Flags(ss)
      && forall k :: 0 <= k < |r| ==> HasPeriods(r[k]) && SameStation(ss[k], r[k])
  {
    var r := RecountAll(ss, corrs, removed, daysApart);
    forall k | 0 <= k < |r|
      ensures HasPeriods(r[k]) && SameStation(ss[k], r[k])
    {
      if ss[k].included {
        RecountedShape(corrs, ss[k], removed, daysApart);
      }
    }
  }

  /** Clearing a set flag lowers the count by one. */
  lemma {:induction false} CountTrueClear(bs: seq<bool>, i: nat)
    requires i < |bs| && bs[i]
    ensures CountTrue(bs[i := false]) + 1 == CountTrue(bs)
  {
    var n := |bs| - 1;
    if i < n {
      CountTrueClear(bs[..n], i);
      assert bs[i := false][..n] == bs[..n][i := false];
    } else {
      assert bs[i := false][..n] == bs[..n];
    }
  }

  /** What a pass from position `i` may leave: only the flags and the period fields change, no
      clear flag is set, and either exactly one more station is excluded and a restart is asked
      for, or the flags are as they were and every included station from `i` on meets the
      criterion. */
  predicate PassOutcome(ss: seq<Station>, r: seq<Station>, restart: bool, i: nat, minPeriods: int, minObs: int, minLand: int)
  {
    && |r| == |ss|
    && (forall k :: 0 <= k < |r| ==> HasPeriods(r[k]) && SameStation(ss[k], r[k]))
    && (forall k :: 0 <= k < |r| && r[k].included ==> ss[k].included)
    && (restart ==> Included(r) + 1 == Included(ss))
    && (!restart ==> Flags(r) == Flags(ss))
    && (!restart ==> forall k :: 0 <= k < i && k < |ss| ==> r[k] == ss[k])
    && (!restart ==> forall k :: i <= k < |r| && r[k].included ==> Meets(r[k], minPeriods, minObs, minLand))
  }

  /** What one pass does. */
  lemma {:induction false} PassFacts(ss: seq<Station>, corrs: seq<Correlation>, i: nat,
                                     minPeriods: int, minObs: int, minLand: int, daysApart: int)
    requires AllMeasured(corrs) && i <= |ss| && forall k :: 0 <= k < |ss| ==> HasPeriods(ss[k])
    decreases |ss| - i
    ensures PassOutcome(ss, PassFrom(ss, corrs, i, minPeriods, minObs, minLand, daysApart).0,
                        PassFrom(ss, corrs, i, minPeriods, minObs, minLand, daysApart).1, i, minPeriods, minObs, minLand)
  {
    if i < |ss| {
      if !ss[i].included {
        PassFacts(ss, corrs, i + 1, minPeriods, minObs, minLand, daysApart);
        var p := PassFrom(ss, corrs, i + 1, minPeriods, minObs, minLand, daysApart);
        SkipOutcome(ss, p.0, p.1, i, minPeriods, minObs, minLand);
      } else {
        var s := Prepared(ss[i]);
        if !Meets(s, minPeriods, minObs, minLand) {
          ExcludeFacts(ss, corrs, i, s.code, daysApart, minPeriods, minObs, minLand);
        } else {
          var t := ss[i := s];
          PassFacts(t, corrs, i + 1, minPeriods, minObs, minLand, daysApart);
          var p := PassFrom(t, corrs, i + 1, minPeriods, minObs, minLand, daysApart);
          MeetsOutcome(ss, p.0, p.1, i, minPeriods, minObs, minLand);
        }
      }
    }
  }

  lemma SkipOutcome(ss: seq<Station>, r: seq<Station>, restart: bool, i: nat, minPeriods: int, minObs: int, minLand: int)
    requires i < |ss| && !ss[i].included
    requires PassOutcome(ss, r, restart, i + 1, minPeriods, minObs, minLand)
    ensures PassOutcome(ss, r, restart, i, minPeriods, minObs, minLand)
  {
  }

  lemma MeetsOutcome(ss: seq<Station>, r: seq<Station>, restart: bool, i: nat, minPeriods: int, minObs: int, minLand: int)
    requires i < |ss| && HasPeriods(ss[i]) && ss[i].included && Meets(Prepared(ss[i]), minPeriods, minObs, minLand)
    requires PassOutcome(ss[i := Prepared(ss[i])], r, restart, i + 1, minPeriods, minObs, minLand)
    ensures PassOutcome(ss, r, restart, i, minPeriods, minObs, minLand)
  {
    var t := ss[i := Prepared(ss[i])];
    assert Flags(t) == Flags(ss);
    assert SameStation(ss[i], t[i]);
  }

  /** Excluding an included station and recounting the others lowers the count of included
      stations by one and changes nothing else but the period fields. */
  lemma ExcludeFacts(ss: seq<Station>, corrs: seq<Correlation>, i: nat, removed: string, daysApart: int,
                     minPeriods: int, minObs: int, minLand: int)
    requires AllMeasured(corrs) && i < |ss| && ss[i].included && forall k :: 0 <= k < |ss| ==> HasPeriods(ss[k])
    ensures PassOutcome(ss, RecountAll(ss[i := Prepared(ss[i]).(included := false)], corrs, removed, daysApart), true, i,
                        minPeriods, minObs, minLand)
  {
    var t := ss[i := Prepared(ss[i]).(included := false)];
    RecountAllFacts(t, corrs, removed, daysApart);
    assert Flags(t) == Flags(ss)[i := false];
    CountTrueClear(Flags(ss), i);
  }

  /** The filter's outcome: only the flags and the period fields change, a station excluded
      at the start stays excluded, and every station left included has at least `minPeriods`
      periods meeting its obs or land threshold. */
  lemma {:induction false} FilteredFacts(ss: seq<Station>, corrs: seq<Correlation>,
                                         minPeriods: int, minObs: int, minLand: int, daysApart: int)
    requires AllMeasured(corrs) && forall k :: 0 <= k < |ss| ==> HasPeriods(ss[k])
    decreases Included(ss)
    ensures var r := Filtered(ss, corrs, minPeriods, minObs, minLand, daysApart);
      && |r| == |ss|
      && (forall k :: 0 <= k < |r| ==> HasPeriods(r[k]) && SameStation(ss[k], r[k]))
      && (forall k :: 0 <= k < |r| && r[k].included ==> ss[k].included)
      && (forall k :: 0 <= k < |r| && r[k].included ==> Meets(r[k], minPeriods, minObs, minLand))
  {
    var p := PassFrom(ss, corrs, 0, minPeriods, minObs, minLand, daysApart);
    PassFacts(ss, corrs, 0, minPeriods, minObs, minLand, daysApart);
    if p.1 {
      FilteredFacts(p.0, corrs, minPeriods, minObs, minLand, daysApart);
    }
  }

  /** The recount loop of `stations_with_few_corrs` over the stations still included. */
  method RecountIncluded(ss: seq<Station>, corrs: seq<Correlation>, removed: string, daysApart: int) returns (r: seq<Station>)
    requires AllMeasured(corrs)
    ensures r == RecountAll(ss, corrs, removed, daysApart)
  {
    r := ss;
    for t := 0 to |ss|
      invariant |r| == |ss|
      invariant forall k :: 0 <= k < |ss| ==> r[k] == if k < t then RecountAll(ss, corrs, removed, daysApart)[k] else ss[k]
    {
      if r[t].included {
        var u := Recount(corrs, r[t], removed, daysApart);
        r := r[t := u];
      }
    }
  }

  /** One pass of the `for station in self.stations` loop, ending at the first exclusion. */
  method Pass(ss: seq<Station>, corrs: seq<Correlation>, minPeriods: int, minObs: int, minLand: int, daysApart: int)
    returns (r: seq<Station>, restart: bool)
    requires AllMeasured(corrs) && forall k :: 0 <= k < |ss| ==> HasPeriods(ss[k])
    ensures (r, restart) == PassFrom(ss, corrs, 0, minPeriods, minObs, minLand, daysApart)
  {
    r := ss;
    var i := 0;
    while i < |r|
      invariant 0 <= i <= |r| && forall k :: 0 <= k < |r| ==> HasPeriods(r[k])
      invariant PassFrom(r, corrs, i, minPeriods, minObs, minLand, daysApart) == PassFrom(ss, corrs, 0, minPeriods, minObs, minLand, daysApart)
    {
      if !r[i].included {
        i := i + 1;
        continue;
      }
      ghost var r0 := r;
      var s := r[i];
      if s.updatedNoCorrPerDate.None? {
        s := s.(updatedNoCorrPerDate := s.noCorrPerAvgDate);
      }
      r := r[i := s];
      var n := CountQualifying(s.updatedNoCorrPerDate.value, Threshold(s, minObs, minLand));
      assert s == Prepared(r0[i]);
      if n < minPeriods {
        assert r[i := s.(included := false)] == r0[i := s.(included := false)];
        r := r[i := s.(included := false)];
        r := RecountIncluded(r, corrs, s.code, daysApart);
        return r, true;
      }
      i := i + 1;
    }
    return r, false;
  }

  lemma {:induction false} CountTrueAll(bs: seq<bool>)
    requires forall k :: 0 <= k < |bs| ==> bs[k]
    ensures CountTrue(bs) == |bs|
  {
    if bs != [] {
      CountTrueAll(bs[..|bs| - 1]);
    }
  }

  /** `stations_with_few_corrs`: every station is first marked included, then passes run
      until one excludes nobody. The result is `Filtered`, and the number of passes is the
      number of stations excluded plus one. */
  method FilterStations(stations: seq<Station>, corrs: seq<Correlation>,
                        minPeriods: int, minObs: int, minLand: int, daysApart: int)
    returns (ss: seq<Station>, ghost passes: nat)
    requires AllMeasured(corrs) && forall k :: 0 <= k < |stations| ==> HasPeriods(stations[k])
    ensures ss == Filtered(AllIncluded(stations), corrs, minPeriods, minObs, minLand, daysApart)
    ensures passes == |stations| - Included(ss) + 1
  {
    ss := stations;
    for k := 0 to |ss|
      invariant |ss| == |stations|
      invariant forall m :: 0 <= m < |ss| ==> ss[m] == if m < k then stations[m].(included := true) else stations[m]
    {
      ss := ss[k := ss[k].(included := true)];
    }
    assert ss == AllIncluded(stations);
    CountTrueAll(Flags(ss));
    ghost var goal := Filtered(ss, corrs, minPeriods, minObs, minLand, daysApart);
    var restart := true;
    passes := 0;
    while restart
      invariant |ss| == |stations| && forall k :: 0 <= k < |ss| ==> HasPeriods(ss[k])
      invariant restart ==> Filtered(ss, corrs, minPeriods, minObs, minLand, daysApart) == goal
      invariant restart ==> passes + Included(ss) == |stations|
      invariant !restart ==> ss == goal && passes == |stations| - Included(ss) + 1
      decreases if restart then Included(ss) + 1 else 0
    {
      var r, again := Pass(ss, corrs, minPeriods, minObs, minLand, daysApart);
      PassFacts(ss, corrs, 0, minPeriods, minObs, minLand, daysApart);
      passes := passes + 1;
      ss, restart := r, again;
    }
  }

  /** The station loop of `calculate_tapp_4_allcorrelations`: `no_corr_per_avg_date` of every
      station. */
  function PeriodsAll(corrs: seq<Correlation>, ss: seq<Station>, daysApart: int): (r: seq<Station>)
    requires AllMeasured(corrs)
  {
    seq(|ss|, k requires 0 <= k < |ss| => WithPeriods(corrs, ss[k], daysApart))
  }

  method AllStationPeriods(corrs: seq<Correlation>, ss0: seq<Station>, daysApart: int) returns (ss: seq<Station>)
    requires AllMeasured(corrs)
    ensures ss == PeriodsAll(corrs, ss0, daysApart)
  {
    ss := ss0;
    for k := 0 to |ss0|
      invariant |ss| == |ss0|
      invariant forall m :: 0 <= m < |ss0| ==> ss[m] == if m < k then WithPeriods(corrs, ss0[m], daysApart) else ss0[m]
    {
      var s := StationPeriods(corrs, ss[k], daysApart);
      ss := ss[k := s];
    }
  }

  /** After the station loop every station has a periods dictionary the filter can read, and
      only `no_corr_per_avg_date` has changed. */
  lemma PeriodsAllFacts(corrs: seq<Correlation>, ss: seq<Station>, daysApart: int)
    requires AllMeasured(corrs)
    ensures var r := PeriodsAll(corrs, ss, daysApart);
      |r| == |ss| &&
      forall k :: 0 <= k < |r| ==> HasPeriods(r[k]) && r[k].(noCorrPerAvgDate := ss[k].noCorrPerAvgDate) == ss[k]
  {
    forall k | 0 <= k < |ss| {
      WithPeriodsFacts(corrs, ss[k], daysApart);
    }
  }
}
