/** Loading the repository: the station table (`Clock_drift.set_stations`) and the
    correlation files of the data directory (`Clock_drift.set_correlations`,
    `read_correlation_file`). The directory listing, the station file's lines and the
    metadata of each trace are inputs. */
module Repository {
  import opened Values
  import opened Text
  import opened Entities
  import opened Queries
  import opened Measurement

  /** `correlations_of_station_exist`: some file name of the listing contains the code. */
  predicate HasFiles(code: string, files: seq<string>)
  {
    exists k :: 0 <= k < |files| && Contains(files[k], code)
  }

  /** `float(s)` where a station coordinate is expected: "nan" is a coordinate like any other
      number, and only a string `float` cannot read raises (a parser never yields the marker,
      which is treated as unreadable). */
  function ParseReal(parse: FloatParser, s: string): (r: Result<Num>)
    ensures r.Ok? <==> parse(s).Some? && !parse(s).value.Unset?
    ensures r.Ok? ==> r.value == parse(s).value
    ensures r.Err? ==> r.error == NotANumber
  {
    match parse(s)
    case Some(x) => if x.Unset? then Err(NotANumber) else Ok(x)
    case None => Err(NotANumber)
  }

  /** One row of the station table, `project code needs_correction latitude longitude
      elevation sensor_type`: a short row raises; a station without correlation files is
      skipped; otherwise `Station(...)` with an elevation of '-' read as 0. */
  function StationRow(row: string, files: seq<string>, index: nat, parse: FloatParser): (r: Result<Option<Station>>)
    ensures r.Err? ==> r.error in {IndexOutOfRange, BadNeedsCorrection, NotANumber}
  {
    var cols := Words(row);
    if |cols| < 7 then Err(IndexOutOfRange)
    else if !HasFiles(cols[1], files) then Ok(None)
    else
      var _ :- ParseNeedsCorrection(cols[2]);
      var latitude :- ParseReal(parse, cols[3]);
      var longitude :- ParseReal(parse, cols[4]);
      var elevation :- if cols[5] == "-" then Ok(Value(0.0)) else ParseReal(parse, cols[5]);
      Ok(Some(NewStation(cols[1], index, cols[2], latitude, longitude, elevation, cols[6], cols[0]).value))
  }

  /** The stations read from the rows (the line after the header onwards), numbered in the
      order they are kept. */
  function StationsOf(rows: seq<string>, files: seq<string>, parse: FloatParser): (r: Result<seq<Station>>)
    ensures r.Ok? ==> |r.value| <= |rows|
  {
    if rows == [] then Ok([])
    else
      var kept :- StationsOf(rows[..|rows| - 1], files, parse);
      var s :- StationRow(rows[|rows| - 1], files, |kept|, parse);
      Ok(kept + if s.Some? then [s.value] else [])
  }

  /** The stations are numbered 0, 1, ... in table order; each has correlation files, is
      included, has empty drift histories and no observation periods yet, and its
      `needs_correction` is what its row spelled. */
  lemma {:induction false} StationsOfFacts(rows: seq<string>, files: seq<string>, parse: FloatParser)
    requires StationsOf(rows, files, parse).Ok?
    ensures var ss := StationsOf(rows, files, parse).value;
      forall k :: 0 <= k < |ss| ==>
        && ss[k].index == k
        && HasFiles(ss[k].code, files)
        && ss[k].included && ss[k].a == [] && ss[k].b == []
        && ss[k].noCorrPerAvgDate.None? && ss[k].updatedNoCorrPerDate.None?
        && exists i :: 0 <= i < |rows| && |Words(rows[i])| >= 7 && Words(rows[i])[1] == ss[k].code
                       && ss[k].needsCorrection == (Words(rows[i])[2] == "True")
  {
    StationsOfRows(rows, files, parse);
    if rows != [] {
      var n := |rows| - 1;
      StationsOfFacts(rows[..n], files, parse);
      var kept := StationsOf(rows[..n], files, parse).value;
      var s := StationRow(rows[n], files, |kept|, parse).value;
      if s.Some? {
        StationRowFacts(rows[n], files, |kept|, parse);
      }
    }
  }

  /** Every kept station comes from a row that spells its code and its flag. */
  lemma {:induction false} StationsOfRows(rows: seq<string>, files: seq<string>, parse: FloatParser)
    requires StationsOf(rows, files, parse).Ok?
    ensures var ss := StationsOf(rows, files, parse).value;
      forall k :: 0 <= k < |ss| ==>
        exists i :: 0 <= i < |rows| && |Words(rows[i])| >= 7 && Words(rows[i])[1] == ss[k].code
                    && ss[k].needsCorrection == (Words(rows[i])[2] == "True")
  {
    if rows != [] {
      var n := |rows| - 1;
      StationsOfRows(rows[..n], files, parse);
      var kept := StationsOf(rows[..n], files, parse).value;
      var ss := StationsOf(rows, files, parse).value;
      forall k | 0 <= k < |ss|
        ensures exists i :: 0 <= i < |rows| && |Words(rows[i])| >= 7 && Words(rows[i])[1] == ss[k].code
                            && ss[k].needsCorrection == (Words(rows[i])[2] == "True")
      {
        if k < |kept| {
          var i :| 0 <= i < n && |Words(rows[..n][i])| >= 7 && Words(rows[..n][i])[1] == kept[k].code
                   && kept[k].needsCorrection == (Words(rows[..n][i])[2] == "True");
          assert rows[..n][i] == rows[i];
        } else {
          StationRowFacts(rows[n], files, |kept|, parse);
        }
      }
    }
  }

  /** A kept row gives a station with the row's code and flag, numbered `index`. */
  lemma StationRowFacts(row: string, files: seq<string>, index: nat, parse: FloatParser)
    requires StationRow(row, files, index, parse).Ok? && StationRow(row, files, index, parse).value.Some?
    ensures var s := StationRow(row, files, index, parse).value.value;
      && s.index == index && HasFiles(s.code, files)
      && s.included && s.a == [] && s.b == []
      && s.noCorrPerAvgDate.None? && s.updatedNoCorrPerDate.None?
      && |Words(row)| >= 7 && Words(row)[1] == s.code && s.needsCorrection == (Words(row)[2] == "True")
  {
  }

  /** A table row written as seven space-separated fields with a known `needs_correction`
      flag and parseable coordinates is read back as the station it describes. */
  lemma StationRowOfFields(project: string, code: string, flag: string, lat: string, lon: string,
                           elev: string, sensor: string, files: seq<string>, index: nat, parse: FloatParser)
    requires Token(project) && Token(code) && Token(flag) && Token(lat) && Token(lon) && Token(elev) && Token(sensor)
    requires flag == "True" || flag == "False"
    requires HasFiles(code, files)
    requires ParseReal(parse, lat).Ok? && ParseReal(parse, lon).Ok?
    requires elev != "-" && ParseReal(parse, elev).Ok?
    ensures var r := StationRow(Join([project, code, flag, lat, lon, elev, sensor], ' '), files, index, parse);
      && r.Ok? && r.value.Some?
      && r.value.value == Station(code, index, flag == "True", parse(lat).value, parse(lon).value,
                                  parse(elev).value, sensor, project, [], [], true, None, None)
  {
    var ws := [project, code, flag, lat, lon, elev, sensor];
    WordsJoin(ws);
  }

  /** The metadata `obspy.read` supplies for a correlation trace. */
  datatype TraceInfo = TraceInfo(npts: int, samplingRate: real, lengthOfFile: real, delta: real)

  /** Reading a trace file: `None` when it is missing or cannot be read. */
  type TraceReader = string -> Option<TraceInfo>

  /** The great-circle distance in metres between two (latitude, longitude) positions. */
  type Distance = (Num, Num, Num, Num) -> real

  /** `os.path.join(dir, file)`. */
  function JoinPath(dir: string, file: string): string
  {
    if file != [] && file[0] == '/' then file
    else if dir == [] || dir[|dir| - 1] == '/' then dir + file
    else dir + "/" + file
  }

  /** What `read_correlation_file` takes from a file: the averaging date (the third `_` field of
      the base name, in epoch seconds), the number of days (`float` of the last field without
      ".sac", so "nan" gives NaN) and the trace metadata. `None` stands for any exception it
      raises. */
  datatype Record = Record(averageDate: int, numberDays: Num, info: TraceInfo)

  function ReadCorrelationFile(path: string, trace: TraceReader, parse: FloatParser): (r: Option<Record>)
    ensures r.Some? ==> |Split(Basename(path), '_')| >= 3
    ensures r.Some? ==> Some(r.value.averageDate) == ParseInt(Split(Basename(path), '_')[2])
    ensures r.Some? ==> var parts := Split(Basename(path), '_');
      parse(RemoveAll(parts[|parts| - 1], ".sac")) == Some(r.value.numberDays) && !r.value.numberDays.Unset?
    ensures r.Some? ==> trace(path) == Some(r.value.info)
  {
    var parts := Split(Basename(path), '_');
    if |parts| < 3 then None
    else
      var date := ParseInt(parts[2]);
      var days := parse(RemoveAll(parts[|parts| - 1], ".sac"));
      var info := trace(path);
      if date.None? || days.None? || days.value.Unset? || info.None? then None
      else Some(Record(date.value, days.value, info.value))
  }

  /** `t_N_lps`: days from the reference time. */
  function DaysFrom(date: int, referenceTime: int): real
  {
    (date - referenceTime) as real / 86400.0
  }

  /** The correlations one directory entry contributes: none for a non-`.sac` name, for an
      unknown station, for a pair of land stations or for a file that cannot be read; a name
      without a second `_` field raises; otherwise one correlation per parameter set, in the
      order of the parameter sets. */
  function FileCorrelations(stations: seq<Station>, ps: seq<ProcessingParameters>, dir: string, file: string,
                            referenceTime: int, trace: TraceReader, distance: Distance, parse: FloatParser): (r: Result<seq<Correlation>>)
    ensures r.Err? ==> r.error == MalformedFileName
  {
    if !Contains(file, ".sac") then Ok([])
    else
      var attributes := Split(RemoveAll(file, ".sac"), '_');
      if |attributes| < 2 then Err(MalformedFileName)
      else
        var g1 := GetStation(stations, attributes[0]);
        var g2 := GetStation(stations, attributes[1]);
        if g1.Err? || g2.Err? then Ok([])
        else if !g1.value.needsCorrection && !g2.value.needsCorrection then Ok([])
        else
          var path := JoinPath(dir, file);
          var rec := ReadCorrelationFile(path, trace, parse);
          if rec.None? then Ok([])
          else
            var s1, s2 := g1.value, g2.value;
            var dist := distance(s1.latitude, s1.longitude, s2.latitude, s2.longitude);
            Ok(FromRecord(attributes[0], attributes[1], path, rec.value, dist, ps, referenceTime))
  }

  /** One fresh correlation of the pair `x`, `y` per parameter set, in the order of the
      parameter sets, all with the record's date and nothing computed yet. */
  function FromRecord(x: string, y: string, path: string, rv: Record, dist: real,
                      ps: seq<ProcessingParameters>, referenceTime: int): (r: seq<Correlation>)
    ensures |r| == |ps|
    ensures forall q :: 0 <= q < |r| ==>
              && r[q].station1 == x && r[q].station2 == y && r[q].filePath == path
              && r[q].params == ps[q] && r[q].averageDate == rv.averageDate
              && r[q].numberDays == rv.numberDays
              && r[q].tNLps == DaysFrom(rv.averageDate, referenceTime)
              && r[q].apriori1.Unset? && r[q].apriori2.Unset?
              && r[q].dtIns1.NotCalculated? && r[q].dtIns2.NotCalculated? && r[q].tApp.NotCalculated?
  {
    seq(|ps|, q requires 0 <= q < |ps| =>
      NewCorrelation(x, y, rv.averageDate, rv.numberDays, path,
                     rv.info.npts, rv.info.samplingRate, rv.info.lengthOfFile, rv.info.delta,
                     dist, ps[q], DaysFrom(rv.averageDate, referenceTime)))
  }

  /** The correlations of the whole listing, file by file. */
  function CorrelationsOf(stations: seq<Station>, ps: seq<ProcessingParameters>, dir: string, files: seq<string>,
                          referenceTime: int, trace: TraceReader, distance: Distance, parse: FloatParser): (r: Result<seq<Correlation>>)
    ensures r.Err? ==> r.error == MalformedFileName
  {
    if files == [] then Ok([])
    else
      var before :- CorrelationsOf(stations, ps, dir, files[..|files| - 1], referenceTime, trace, distance, parse);
      var more :- FileCorrelations(stations, ps, dir, files[|files| - 1], referenceTime, trace, distance, parse);
      Ok(before + more)
  }

  /** What every created correlation satisfies: it comes from a `.sac` file, both its
      stations are known and at least one needs correction, its parameter set is one of the
      list, its `t_N_lps` is the number of days from the reference time to its date, and
      nothing has been computed for it yet. */
  predicate WellFormed(stations: seq<Station>, ps: seq<ProcessingParameters>, referenceTime: int, c: Correlation)
  {
    && GetStation(stations, c.station1).Ok? && GetStation(stations, c.station2).Ok?
    && (GetStation(stations, c.station1).value.needsCorrection || GetStation(stations, c.station2).value.needsCorrection)
    && c.params in ps
    && c.tNLps == DaysFrom(c.averageDate, referenceTime)
    && Contains(c.filePath, ".sac")
    && c.apriori1.Unset? && c.apriori2.Unset?
    && c.dtIns1.NotCalculated? && c.dtIns2.NotCalculated? && c.tApp.NotCalculated?
  }

  /** A file contributes either nothing or one well-formed correlation per parameter set,
      carrying the parameter sets in order and the station codes of its name. */
  lemma FileCorrelationsFacts(stations: seq<Station>, ps: seq<ProcessingParameters>, dir: string, file: string,
                              referenceTime: int, trace: TraceReader, distance: Distance, parse: FloatParser)
    requires FileCorrelations(stations, ps, dir, file, referenceTime, trace, distance, parse).Ok?
    ensures var cs := FileCorrelations(stations, ps, dir, file, referenceTime, trace, distance, parse).value;
      && (cs == [] || |cs| == |ps|)
      && forall q :: 0 <= q < |cs| ==>
           && WellFormed(stations, ps, referenceTime, cs[q])
           && cs[q].params == ps[q]
           && Contains(file, ".sac")
           && [cs[q].station1, cs[q].station2] == Split(RemoveAll(file, ".sac"), '_')[..2]
  {
    var cs := FileCorrelations(stations, ps, dir, file, referenceTime, trace, distance, parse).value;
    if cs != [] {
      FileCorrelationsCreated(stations, ps, dir, file, referenceTime, trace, distance, parse);
      var attributes := Split(RemoveAll(file, ".sac"), '_');
      ContainsJoined(dir, file, ".sac");
      assert attributes[..2] == [attributes[0], attributes[1]];
    }
  }

  /** A file that contributes something names two known stations, at least one needing
      correction, and contributes the correlations created from its record. */
  lemma FileCorrelationsCreated(stations: seq<Station>, ps: seq<ProcessingParameters>, dir: string, file: string,
                                referenceTime: int, trace: TraceReader, distance: Distance, parse: FloatParser)
    requires FileCorrelations(stations, ps, dir, file, referenceTime, trace, distance, parse).Ok?
    requires FileCorrelations(stations, ps, dir, file, referenceTime, trace, distance, parse).value != []
    ensures var attributes := Split(RemoveAll(file, ".sac"), '_');
      && Contains(file, ".sac") && |attributes| >= 2
      && GetStation(stations, attributes[0]).Ok? && GetStation(stations, attributes[1]).Ok?
      && (GetStation(stations, attributes[0]).value.needsCorrection || GetStation(stations, attributes[1]).value.needsCorrection)
      && var s1, s2 := GetStation(stations, attributes[0]).value, GetStation(stations, attributes[1]).value;
         var path := JoinPath(dir, file);
         && ReadCorrelationFile(path, trace, parse).Some?
         && FileCorrelations(stations, ps, dir, file, referenceTime, trace, distance, parse).value
            == FromRecord(attributes[0], attributes[1], path, ReadCorrelationFile(path, trace, parse).value,
                          distance(s1.latitude, s1.longitude, s2.latitude, s2.longitude), ps, referenceTime)
  {
  }

  /** Conversely, a readable `.sac` file naming two known stations, at least one needing
      correction, contributes one correlation per parameter set, created from its record. */
  lemma FileCorrelationsQualified(stations: seq<Station>, ps: seq<ProcessingParameters>, dir: string, file: string,
                                  referenceTime: int, trace: TraceReader, distance: Distance, parse: FloatParser)
    requires Contains(file, ".sac")
    requires |Split(RemoveAll(file, ".sac"), '_')| >= 2
    requires var attributes := Split(RemoveAll(file, ".sac"), '_');
      && GetStation(stations, attributes[0]).Ok? && GetStation(stations, attributes[1]).Ok?
      && (GetStation(stations, attributes[0]).value.needsCorrection || GetStation(stations, attributes[1]).value.needsCorrection)
    requires ReadCorrelationFile(JoinPath(dir, file), trace, parse).Some?
    ensures var attributes := Split(RemoveAll(file, ".sac"), '_');
      var s1, s2 := GetStation(stations, attributes[0]).value, GetStation(stations, attributes[1]).value;
      var path := JoinPath(dir, file);
      var cs := FromRecord(attributes[0], attributes[1], path, ReadCorrelationFile(path, trace, parse).value,
                           distance(s1.latitude, s1.longitude, s2.latitude, s2.longitude), ps, referenceTime);
      && FileCorrelations(stations, ps, dir, file, referenceTime, trace, distance, parse) == Ok(cs)
      && |cs| == |ps|
  {
  }

  /** The `.sac` marker in a file name survives joining it to the directory. */
  lemma ContainsJoined(dir: string, file: string, sub: string)
    requires Contains(file, sub)
    ensures Contains(JoinPath(dir, file), sub)
  {
    if !(file != [] && file[0] == '/') {
      if dir == [] || dir[|dir| - 1] == '/' {
        ContainsAfter(dir, file, sub);
      } else {
        ContainsAfter(dir + "/", file, sub);
      }
    }
  }

  /** Every correlation of the listing is well formed. */
  lemma {:induction false} CorrelationsOfFacts(stations: seq<Station>, ps: seq<ProcessingParameters>, dir: string, files: seq<string>,
                                               referenceTime: int, trace: TraceReader, distance: Distance, parse: FloatParser)
    requires CorrelationsOf(stations, ps, dir, files, referenceTime, trace, distance, parse).Ok?
    ensures var cs := CorrelationsOf(stations, ps, dir, files, referenceTime, trace, distance, parse).value;
      forall k :: 0 <= k < |cs| ==> WellFormed(stations, ps, referenceTime, cs[k])
  {
    if files != [] {
      var n := |files| - 1;
      CorrelationsOfFacts(stations, ps, dir, files[..n], referenceTime, trace, distance, parse);
      FileCorrelationsFacts(stations, ps, dir, files[n], referenceTime, trace, distance, parse);
    }
  }
}
