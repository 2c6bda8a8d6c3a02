/** The entities of the clock-drift inversion: processing parameters, stations and
    correlations (`Processing_parameters`, `Station`, `Correlation`). */
module Entities {
  import opened Values
  import opened Buckets

  /** A set of processing parameters. The fields never change after construction and
      the class defines no equality of its own, so two parameter sets are "the same"
      only when they are the same object: Dafny's reference equality. */
  class ProcessingParameters {
    const freqmin: real   // low corner of the band-pass, Hz
    const freqmax: real   // high corner of the band-pass, Hz
    const refVel: real    // reference surface-wave velocity, m/s
    const distTrh: real   // minimum station separation, in wavelengths
    const snrTrh: real    // signal-to-noise threshold
    const noiseSt: real   // start of the noise window, s
    const dtErr: real     // the sampling interval must be a multiple of this, s

    constructor (freqmin: real := 0.15, freqmax: real := 0.3, refVel: real := 2500.0,
                 distTrh: real := 2.0, snrTrh: real := 10.0, noiseSt: real := 240.0,
                 dtErr: real := 0.004)
      ensures this.freqmin == freqmin && this.freqmax == freqmax && this.refVel == refVel
      ensures this.distTrh == distTrh && this.snrTrh == snrTrh
      ensures this.noiseSt == noiseSt && this.dtErr == dtErr
    {
      this.freqmin := freqmin;
      this.freqmax := freqmax;
      this.refVel := refVel;
      this.distTrh := distTrh;
      this.snrTrh := snrTrh;
      this.noiseSt := noiseSt;
      this.dtErr := dtErr;
    }
  }

  /** A station: its identity and place in the design matrix, whether its clock needs
      correction, and the per-iteration histories of its drift model f(t) = a*t + b. */
  datatype Station = Station(
    code: string,
    index: nat,
    needsCorrection: bool,
    latitude: Num,
    longitude: Num,
    elevation: Num,
    sensorType: string,
    project: string,
    a: seq<real>,
    b: seq<real>,
    included: bool,                     // included_in_inversion
    noCorrPerAvgDate: Option<Periods>,  // None: attribute not yet created
    updatedNoCorrPerDate: Option<Periods>)

  /** Diagnostic attributes the measurement step leaves on a correlation. */
  datatype Diagnostics = Diagnostics(
    snrC: Option<Num>,
    acausalFromIndex: Option<string>,
    acausalUntilIndex: Option<string>,
    causalFromIndex: Option<string>,
    causalUntilIndex: Option<string>,
    stationSeparation: Option<real>)

  /** A cross-correlation of a station pair at one averaging date, under one parameter set. */
  datatype Correlation = Correlation(
    station1: string,
    station2: string,
    averageDate: int,     // seconds since the epoch
    numberDays: Num,
    filePath: string,
    npts: int,
    samplingRate: real,
    lengthOfFile: real,
    delta: real,
    cplDist: real,        // station separation, m
    params: ProcessingParameters,
    tNLps: real,          // days from the reference time
    apriori1: Num,
    apriori2: Num,
    dtIns1: History,
    dtIns2: History,
    tApp: History,
    diagnostics: Diagnostics)

  const NoDiagnostics := Diagnostics(None, None, None, None, None, None)

  /** The `needs_correction` column: exactly 'True' or 'False', anything else raises. */
  function ParseNeedsCorrection(flag: string): (r: Result<bool>)
    ensures r == Ok(true) <==> flag == "True"
    ensures r == Ok(false) <==> flag == "False"
    ensures r.Err? ==> r.error == BadNeedsCorrection
  {
    if flag == "True" then Ok(true)
    else if flag == "False" then Ok(false)
    else Err(BadNeedsCorrection)
  }

  /** `Station(...)`: included, with empty a/b histories (the test that creates them is on the
      raw, always non-empty, string, so land stations get them as well). */
  function NewStation(code: string, index: nat, flag: string, latitude: Num, longitude: Num,
                      elevation: Num, sensorType: string, project: string): (r: Result<Station>)
    ensures r.Ok? <==> flag == "True" || flag == "False"
    ensures r.Err? ==> r.error == BadNeedsCorrection
    ensures r.Ok? ==> r.value.needsCorrection == (flag == "True")
    ensures r.Ok? ==> r.value.code == code && r.value.index == index
    ensures r.Ok? ==> r.value.a == [] && r.value.b == [] && r.value.included
    ensures r.Ok? ==> r.value.noCorrPerAvgDate.None? && r.value.updatedNoCorrPerDate.None?
  {
    var needs :- ParseNeedsCorrection(flag);
    Ok(Station(code, index, needs, latitude, longitude, elevation, sensorType, project,
               [], [], true, None, None))
  }

  /** `Correlation(...)`: every computed field still holds "Not calculated yet."; `t_N_lps`
      is set by the caller. */
  function NewCorrelation(station1: string, station2: string, averageDate: int, numberDays: Num,
                          filePath: string, npts: int, samplingRate: real, lengthOfFile: real,
                          delta: real, cplDist: real, params: ProcessingParameters,
                          tNLps: real): Correlation
  {
    Correlation(station1, station2, averageDate, numberDays, filePath, npts, samplingRate,
                lengthOfFile, delta, cplDist, params, tNLps,
                Unset, Unset, NotCalculated, NotCalculated, NotCalculated, NoDiagnostics)
  }

  /** `t_app` is a list with at least one entry, so `t_app[-1]` is a number or NaN. */
  predicate Measured(c: Correlation)
  {
    c.tApp.Entries? && |c.tApp.items| > 0
  }

  function LatestTApp(c: Correlation): Num
    requires Measured(c)
  {
    c.tApp.items[|c.tApp.items| - 1]
  }

  /** `np.isnan(t_app[-1]) == False`. */
  predicate LatestResolved(c: Correlation)
    requires Measured(c)
  {
    LatestTApp(c).Value?
  }

  predicate Touches(c: Correlation, code: string)
  {
    c.station1 == code || c.station2 == code
  }

  /** The date key `str(average_date)[:10]`: the day number of the date. */
  function DayOf(date: int): int
  {
    date / 86400
  }
}
