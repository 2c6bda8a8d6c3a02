/** What `calculate_dt_ins` and `calculate_tapp_4_allcorrelations` do to the whole list of
    correlations, as functions of the list they start from. Each driver first runs the
    step it depends on when some correlation still holds the marker string of that step. */
module Pipeline {
  import opened Values
  import opened Entities
  import opened Queries
  import Apriori
  import opened Offsets
  import opened Measurement

  /** Some correlation still has `apriori_dt1 == "Not calculated yet."`. */
  predicate AnyUnset(cs: seq<Correlation>)
  {
    exists k :: 0 <= k < |cs| && cs[k].apriori1.Unset?
  }

  /** The apriori driver, when it is called at all, succeeds. */
  predicate AprioriReady(stations: seq<Station>, cs: seq<Correlation>, ps: seq<ProcessingParameters>, lag: Apriori.Lag)
  {
    AnyUnset(cs) ==> DistinctCodes(stations) && Apriori.AprioriOk(stations, cs, ps, lag, Apriori.SingleSided)
  }

  /** The correlations after the apriori check of `calculate_dt_ins`: the uncorrected
      (`SingleSided`) driver's result when some estimate is missing, else unchanged. */
  function Readied(stations: seq<Station>, cs: seq<Correlation>, ps: seq<ProcessingParameters>, lag: Apriori.Lag): seq<Correlation>
    requires AprioriReady(stations, cs, ps, lag)
  {
    if AnyUnset(cs) then Apriori.AprioriAll(stations, cs, ps, lag, Apriori.SingleSided) else cs
  }

  /** `calculate_dt_ins` succeeds. */
  predicate DtInsOk(stations: seq<Station>, cs: seq<Correlation>, ps: seq<ProcessingParameters>, lag: Apriori.Lag)
  {
    AprioriReady(stations, cs, ps, lag) && OffsetsOk(stations, Readied(stations, cs, ps, lag))
  }

  /** The correlations after `calculate_dt_ins`. */
  function DtInsAll(stations: seq<Station>, cs: seq<Correlation>, ps: seq<ProcessingParameters>, lag: Apriori.Lag): seq<Correlation>
    requires DtInsOk(stations, cs, ps, lag)
  {
    OffsetsAll(stations, Readied(stations, cs, ps, lag))
  }

  /** Some correlation still holds the marker string in one of its offset lists. */
  predicate NeedsOffsets(cs: seq<Correlation>)
  {
    exists k :: 0 <= k < |cs| && (cs[k].dtIns1.NotCalculated? || cs[k].dtIns2.NotCalculated?)
  }

  /** `calculate_dt_ins`, when it is called at all, succeeds. */
  predicate OffsetsReady(stations: seq<Station>, cs: seq<Correlation>, ps: seq<ProcessingParameters>, lag: Apriori.Lag)
  {
    NeedsOffsets(cs) ==> DtInsOk(stations, cs, ps, lag)
  }

  /** The correlations after the offset check of `calculate_tapp_4_allcorrelations`. */
  function WithOffsets(stations: seq<Station>, cs: seq<Correlation>, ps: seq<ProcessingParameters>, lag: Apriori.Lag): seq<Correlation>
    requires OffsetsReady(stations, cs, ps, lag)
  {
    if NeedsOffsets(cs) then DtInsAll(stations, cs, ps, lag) else cs
  }

  /** `calculate_tapp_4_allcorrelations` gets through its correlation loops. */
  predicate TAppOk(stations: seq<Station>, cs: seq<Correlation>, ps: seq<ProcessingParameters>, lag: Apriori.Lag,
                   measure: Routine, parse: FloatParser)
  {
    OffsetsReady(stations, cs, ps, lag) && MeasuredOk(WithOffsets(stations, cs, ps, lag), measure, parse)
  }

  /** The correlations after `calculate_tapp_4_allcorrelations`. */
  function TAppAll(stations: seq<Station>, cs: seq<Correlation>, ps: seq<ProcessingParameters>, lag: Apriori.Lag,
                   measure: Routine, parse: FloatParser): seq<Correlation>
    requires TAppOk(stations, cs, ps, lag, measure, parse)
  {
    MeasuredAll(WithOffsets(stations, cs, ps, lag), measure, parse)
  }

  /** After `calculate_dt_ins` no offset list holds the marker string, so the check of
      `calculate_tapp_4_allcorrelations` calls it at most once; each list has a last entry,
      and apart from the offsets only apriori estimates (when some was missing) changed. */
  lemma DtInsAllFacts(stations: seq<Station>, cs: seq<Correlation>, ps: seq<ProcessingParameters>, lag: Apriori.Lag)
    requires DtInsOk(stations, cs, ps, lag)
    ensures var r := DtInsAll(stations, cs, ps, lag);
      && |r| == |cs| && !NeedsOffsets(r)
      && forall k :: 0 <= k < |r| ==>
           && r[k].dtIns1.Entries? && |r[k].dtIns1.items| >= 1
           && r[k].dtIns2.Entries? && |r[k].dtIns2.items| >= 1
           && r[k].(dtIns1 := cs[k].dtIns1, dtIns2 := cs[k].dtIns2, apriori1 := cs[k].apriori1, apriori2 := cs[k].apriori2) == cs[k]
           && (!AnyUnset(cs) ==> r[k].apriori1 == cs[k].apriori1 && r[k].apriori2 == cs[k].apriori2)
  {
    var mid := Readied(stations, cs, ps, lag);
    OffsetsAllFacts(stations, mid);
    if AnyUnset(cs) {
      forall k | 0 <= k < |cs|
        ensures mid[k] == Apriori.SetApriori(cs[k], (mid[k].apriori1, mid[k].apriori2))
      {
        Apriori.AprioriAllShape(stations, cs, ps, lag, Apriori.SingleSided, k);
      }
    }
  }

  /** After `calculate_tapp_4_allcorrelations` every correlation has an apparent shift to
      read (what `build_matrices` checks), and each list of shifts grew by exactly one. */
  lemma TAppAllFacts(stations: seq<Station>, cs: seq<Correlation>, ps: seq<ProcessingParameters>, lag: Apriori.Lag,
                     measure: Routine, parse: FloatParser)
    requires TAppOk(stations, cs, ps, lag, measure, parse)
    ensures var r := TAppAll(stations, cs, ps, lag, measure, parse);
      && |r| == |cs| && AllMeasured(r)
      && forall k :: 0 <= k < |r| ==>
           |r[k].tApp.items| == (if cs[k].tApp.Entries? then |cs[k].tApp.items| else 0) + 1
  {
    var mid := WithOffsets(stations, cs, ps, lag);
    if NeedsOffsets(cs) {
      DtInsAllFacts(stations, cs, ps, lag);
    }
    assert |mid| == |cs| && forall k :: 0 <= k < |cs| ==> mid[k].tApp == cs[k].tApp;
    MeasuredAllFacts(mid, measure, parse);
    var r := TAppAll(stations, cs, ps, lag, measure, parse);
    forall k | 0 <= k < |r|
      ensures |r[k].tApp.items| == (if cs[k].tApp.Entries? then |cs[k].tApp.items| else 0) + 1
    {
      assert |r[k].tApp.items[..|r[k].tApp.items| - 1]| == |r[k].tApp.items| - 1;
    }
  }
}
