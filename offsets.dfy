/** `Clock_drift.calculate_dt_ins`: for every correlation, the instrument offset of each
    station at the correlation's date under the latest drift model of the station, its
    apriori estimate when there is no model yet, or zero for a station that needs no
    correction. */
module Offsets {
  import opened Values
  import opened Entities
  import opened Queries
  import opened Design
  import opened Measurement

  /** `h.append(x)`: a list grows by one entry; the marker string has no `append`. */
  function Push(h: History, x: Num): (r: Result<History>)
    ensures r.Ok? <==> h.Entries?
    ensures r.Ok? ==> r.value == Entries(h.items + [x])
    ensures r.Err? ==> r.error == NotAList
  {
    if h.Entries? then Ok(Entries(h.items + [x])) else Err(NotAList)
  }

  /** The offset list of one side of a correlation. The station-1 branch tests both `a` and
      `b` for entries (`checksB`); the station-2 branch tests only `a` and then reads `b[-1]`. */
  function SideOffsets(s: Station, h: History, apriori: Num, t: real, checksB: bool): Result<History>
  {
    if s.needsCorrection then
      if |s.a| > 0 && (!checksB || |s.b| > 0) then
        if |s.b| == 0 then Err(IndexOutOfRange)
        else Push(h, Value(Instrument((s.a[|s.a| - 1], s.b[|s.b| - 1]), t)))
      else Ok(Entries([apriori]))
    else if |s.a| > 0 then Push(h, Value(0.0))
    else Ok(Entries([Value(0.0)]))
  }

  /** The three cases of one side: a station that needs correction and has a drift model gets
      the model's offset at `t` appended; one without a model has its list reset to its
      apriori estimate; a station that needs no correction gets zero, appended when its `a`
      list has entries and as a fresh list otherwise. Appending to the marker string fails,
      and so does reading `b[-1]` of an empty `b` on the station-2 side. */
  lemma SideOffsetsCases(s: Station, h: History, apriori: Num, t: real, checksB: bool)
    ensures var r := SideOffsets(s, h, apriori, t, checksB);
      && (s.needsCorrection && |s.a| > 0 && |s.b| > 0 ==>
            (h.Entries? ==> r == Ok(Entries(h.items + [Value(s.a[|s.a| - 1] * t + s.b[|s.b| - 1])])))
            && (h.NotCalculated? ==> r == Err(NotAList)))
      && (s.needsCorrection && |s.a| > 0 && |s.b| == 0 ==>
            r == if checksB then Ok(Entries([apriori])) else Err(IndexOutOfRange))
      && (s.needsCorrection && |s.a| == 0 ==> r == Ok(Entries([apriori])))
      && (!s.needsCorrection && |s.a| > 0 ==>
            (h.Entries? ==> r == Ok(Entries(h.items + [Value(0.0)])))
            && (h.NotCalculated? ==> r == Err(NotAList)))
      && (!s.needsCorrection && |s.a| == 0 ==> r == Ok(Entries([Value(0.0)])))
  {
    if |s.a| > 0 && |s.b| > 0 {
      assert Instrument((s.a[|s.a| - 1], s.b[|s.b| - 1]), t) == s.a[|s.a| - 1] * t + s.b[|s.b| - 1];
    }
  }

  /** The offsets of one correlation: both stations are looked up first, then the station-1
      list and the station-2 list are computed. */
  function DtIns(stations: seq<Station>, c: Correlation): (r: Result<Correlation>)
    ensures r.Err? ==> r.error in {StationNotFound, IndexOutOfRange, NotAList}
  {
    var s1 :- GetStation(stations, c.station1);
    var s2 :- GetStation(stations, c.station2);
    var h1 :- SideOffsets(s1, c.dtIns1, c.apriori1, c.tNLps, true);
    var h2 :- SideOffsets(s2, c.dtIns2, c.apriori2, c.tNLps, false);
    Ok(c.(dtIns1 := h1, dtIns2 := h2))
  }

  /** After a successful step only the two offset lists have changed, each is a list with a
      last entry, and when the apriori estimates are numbers (or NaN) that last entry can be
      read as a float: the step supplies what `calculate_t_app` needs. */
  lemma DtInsFeedsMeasurement(stations: seq<Station>, c: Correlation)
    requires DtIns(stations, c).Ok?
    ensures var d := DtIns(stations, c).value;
      && d.(dtIns1 := c.dtIns1, dtIns2 := c.dtIns2) == c
      && d.dtIns1.Entries? && |d.dtIns1.items| >= 1
      && d.dtIns2.Entries? && |d.dtIns2.items| >= 1
      && (!c.apriori1.Unset? ==> LastAsFloat(d.dtIns1).Some?)
      && (!c.apriori2.Unset? ==> LastAsFloat(d.dtIns2).Some?)
  {
  }

  /** A second step appends one more entry to each list of a correlation whose stations both
      have drift models, so the step is not idempotent: each run adds one iteration. */
  lemma DtInsGrows(stations: seq<Station>, c: Correlation)
    requires DtIns(stations, c).Ok?
    requires var s1 := GetStation(stations, c.station1).value;
             var s2 := GetStation(stations, c.station2).value;
             s1.needsCorrection && |s1.a| > 0 && |s1.b| > 0 && s2.needsCorrection && |s2.a| > 0 && |s2.b| > 0
    ensures var d := DtIns(stations, c).value;
      && DtIns(stations, d).Ok?
      && |DtIns(stations, d).value.dtIns1.items| == |d.dtIns1.items| + 1
      && |DtIns(stations, d).value.dtIns2.items| == |d.dtIns2.items| + 1
  {
  }

  /** Every correlation of the list gets its offsets without an exception. */
  predicate OffsetsOk(stations: seq<Station>, cs: seq<Correlation>)
  {
    forall k :: 0 <= k < |cs| ==> DtIns(stations, cs[k]).Ok?
  }

  /** The correlation loop of `calculate_dt_ins`: each correlation after its own step. */
  function OffsetsAll(stations: seq<Station>, cs: seq<Correlation>): (r: seq<Correlation>)
    requires OffsetsOk(stations, cs)
  {
    seq(|cs|, k requires 0 <= k < |cs| => DtIns(stations, cs[k]).value)
  }

  /** The correlation loop of `calculate_dt_ins`, stopping at the first exception; on an
      error `cs` holds the correlations as far as the loop got. */
  method ComputeOffsets(stations: seq<Station>, cs0: seq<Correlation>) returns (r: Result<()>, cs: seq<Correlation>)
    ensures r.Ok? <==> OffsetsOk(stations, cs0)
    ensures r.Ok? ==> cs == OffsetsAll(stations, cs0)
    ensures r.Err? ==> r.error in {StationNotFound, IndexOutOfRange, NotAList}
  {
    r, cs := StepEach(cs0, c => DtIns(stations, c));
  }

  /** After the loop no offset list is the marker string any more, every list has a last
      entry, and only the offset lists have changed. */
  lemma OffsetsAllFacts(stations: seq<Station>, cs: seq<Correlation>)
    requires OffsetsOk(stations, cs)
    ensures var r := OffsetsAll(stations, cs);
      && |r| == |cs|
      && forall k :: 0 <= k < |r| ==>
           && r[k].(dtIns1 := cs[k].dtIns1, dtIns2 := cs[k].dtIns2) == cs[k]
           && r[k].dtIns1.Entries? && |r[k].dtIns1.items| >= 1
           && r[k].dtIns2.Entries? && |r[k].dtIns2.items| >= 1
  {
    forall k | 0 <= k < |cs| {
      DtInsFeedsMeasurement(stations, cs[k]);
    }
  }
}
