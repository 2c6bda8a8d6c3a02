/** `Correlation.calculate_t_app`: the separation gate, the call to the external timing-error
    routine, and the scan of the routine's printed output for the shift and diagnostics. */
module Measurement {
  import opened Values
  import opened Text
  import opened Entities

  /** The values written to `params.txt` for the routine, in file order. */
  datatype Request = Request(
    xcorrPath: string,
    station1: string,
    station2: string,
    resultsDirName: string,
    npts: int,
    freqmin: real,
    freqmax: real,
    cplDist: real,
    refVel: real,
    distTrh: real,
    snrTrh: real,
    noiseSt: real,
    aprDt1: Num,
    aprDt2: Num,
    dtErr: real)

  /** The external routine: the lines of its standard output for a request. */
  type Routine = Request -> seq<string>

  /** Python's `float` on a string: `None` when it raises. */
  type FloatParser = string -> Option<Num>

  /** Which branch of the `if`/`elif` chain a line of output takes. */
  datatype LineKind = ShiftLine | FolderLine | SnrCausal | SnrAcausal
                    | AcausalUntil | AcausalFrom | CausalFrom | CausalUntil | OtherLine

  const ShiftKey := "Result shift:"
  const FolderKey := "Results saved in folder:"
  const SnrCausalKey := "SNR causal wave"
  const SnrAcausalKey := "SNR acausal wave"
  const AcausalUntilKey := "acausal signal until index:"
  const AcausalFromKey := "acausal signal from index:"
  const CausalFromKey := "causal signal from index:"
  const CausalUntilKey := "causal signal until index:"

  /** The first key of the chain that the line contains decides its branch. */
  function Classify(a: string): (k: LineKind)
    ensures k == ShiftLine <==> Contains(a, ShiftKey)
    ensures k == CausalFrom <==>
              Contains(a, CausalFromKey) && !Contains(a, ShiftKey) && !Contains(a, FolderKey)
              && !Contains(a, SnrCausalKey) && !Contains(a, SnrAcausalKey)
              && !Contains(a, AcausalUntilKey) && !Contains(a, AcausalFromKey)
    ensures k == OtherLine <==>
              !Contains(a, ShiftKey) && !Contains(a, FolderKey) && !Contains(a, SnrCausalKey)
              && !Contains(a, SnrAcausalKey) && !Contains(a, AcausalUntilKey)
              && !Contains(a, AcausalFromKey) && !Contains(a, CausalFromKey)
              && !Contains(a, CausalUntilKey)
  {
    if Contains(a, ShiftKey) then ShiftLine
    else if Contains(a, FolderKey) then FolderLine
    else if Contains(a, SnrCausalKey) then SnrCausal
    else if Contains(a, SnrAcausalKey) then SnrAcausal
    else if Contains(a, AcausalUntilKey) then AcausalUntil
    else if Contains(a, AcausalFromKey) then AcausalFrom
    else if Contains(a, CausalFromKey) then CausalFrom
    else if Contains(a, CausalUntilKey) then CausalUntil
    else OtherLine
  }

  /** A line holding one of the keyed `name: value` entries splits into at least two pieces
      at `':'`. */
  lemma ColonSplits(a: string, key: string)
    requires Contains(a, key) && ':' in key
    ensures |Split(a, ':')| >= 2
  {
    var j :| 0 <= j < |key| && key[j] == ':';
    ContainsChar(a, key, j);
  }

  /** `a.split(':')[1]`. */
  function Field(a: string, key: string): (r: string)
    requires Contains(a, key) && ':' in key
    ensures ':' !in r
  {
    ColonSplits(a, key);
    Split(a, ':')[1]
  }

  /** What the scan has found so far: the last shift (if any) and the diagnostic attributes. */
  datatype Scan = Scan(shift: Option<Num>, diagnostics: Diagnostics)

  /** One pass of the loop body over an output line. */
  function ScanLine(a: string, parse: FloatParser, s: Scan): (r: Result<Scan>)
    ensures r.Err? ==> r.error == NotANumber
    ensures r.Ok? && Classify(a) != ShiftLine ==> r.value.shift == s.shift
    ensures r.Ok? && Classify(a) != CausalFrom ==> r.value.diagnostics.causalFromIndex == s.diagnostics.causalFromIndex
    ensures r.Ok? && Classify(a) == CausalFrom ==> r.value.diagnostics.causalFromIndex == Some(Field(a, CausalFromKey))
  {
    var d := s.diagnostics;
    match Classify(a)
    case ShiftLine =>
      assert ':' == ShiftKey[12];
      var x := parse(Field(a, ShiftKey));
      if x.None? then Err(NotANumber) else Ok(s.(shift := x))
    case FolderLine => Ok(s)
    case SnrCausal =>
      var x := parse(RemoveAll(a, SnrCausalKey));
      if x.None? then Err(NotANumber) else Ok(s.(diagnostics := d.(snrC := Some(x.value))))
    case SnrAcausal =>
      var x := parse(RemoveAll(a, SnrAcausalKey));
      if x.None? then Err(NotANumber) else Ok(s.(diagnostics := d.(snrC := Some(x.value))))
    case AcausalUntil =>
      assert ':' == AcausalUntilKey[26];
      Ok(s.(diagnostics := d.(acausalFromIndex := Some(Field(a, AcausalUntilKey)))))
    case AcausalFrom =>
      assert ':' == AcausalFromKey[25];
      Ok(s.(diagnostics := d.(acausalUntilIndex := Some(Field(a, AcausalFromKey)))))
    case CausalFrom =>
      assert ':' == CausalFromKey[24];
      Ok(s.(diagnostics := d.(causalFromIndex := Some(Field(a, CausalFromKey)))))
    case CausalUntil =>
      assert ':' == CausalUntilKey[25];
      Ok(s.(diagnostics := d.(causalUntilIndex := Some(Field(a, CausalUntilKey)))))
    case OtherLine => Ok(s)
  }

  /** The whole scan, line by line; the first line whose number does not parse raises. */
  function ScanLines(lines: seq<string>, parse: FloatParser, init: Scan): (r: Result<Scan>)
    ensures r.Err? ==> r.error == NotANumber
  {
    if lines == [] then Ok(init)
    else
      var s :- ScanLines(lines[..|lines| - 1], parse, init);
      ScanLine(lines[|lines| - 1], parse, s)
  }

  /** The scan loop of `calculate_t_app`. */
  method ScanOutput(lines: seq<string>, parse: FloatParser, init: Scan) returns (r: Result<Scan>)
    ensures r == ScanLines(lines, parse, init)
  {
    var s := init;
    var i := 0;
    while i < |lines|
      invariant 0 <= i <= |lines|
      invariant ScanLines(lines[..i], parse, init) == Ok(s)
    {
      assert lines[..i + 1][..i] == lines[..i];
      var next := ScanLine(lines[i], parse, s);
      if next.Err? {
        assert lines[..i + 1] == lines[..i] + [lines[i]];
        ScanLinesErrorStays(lines, parse, init, i + 1);
        return next;
      }
      s := next.value;
      i := i + 1;
    }
    assert lines[..|lines|] == lines;
    r := Ok(s);
  }

  /** Once a prefix of the output raises, the whole scan raises the same error. */
  lemma {:induction false} ScanLinesErrorStays(lines: seq<string>, parse: FloatParser, init: Scan, n: nat)
    requires n <= |lines| && ScanLines(lines[..n], parse, init).Err?
    ensures ScanLines(lines, parse, init) == ScanLines(lines[..n], parse, init)
    decreases |lines| - n
  {
    if n == |lines| {
      assert lines[..n] == lines;
    } else {
      assert lines[..n + 1][..n] == lines[..n];
      ScanLinesErrorStays(lines, parse, init, n + 1);
    }
  }

  /** The `elif` order matters: every line with the acausal-start key also contains the causal-start
      key, yet it never sets `causal_from_index`. */
  lemma AcausalLineNotCausal(a: string, parse: FloatParser, s: Scan)
    requires Contains(a, AcausalFromKey)
    ensures Contains(a, CausalFromKey)
    ensures Classify(a) != CausalFrom
    ensures ScanLine(a, parse, s).Ok? ==>
              ScanLine(a, parse, s).value.diagnostics.causalFromIndex == s.diagnostics.causalFromIndex
  {
    AcausalKeyHoldsCausalKey(a);
  }

  lemma AcausalKeyHoldsCausalKey(a: string)
    requires Contains(a, AcausalFromKey)
    ensures Contains(a, CausalFromKey)
  {
    assert AcausalFromKey == "a" + CausalFromKey;
    ContainsSuffix(a, "a", CausalFromKey);
  }

  /** The position of the last line that takes the shift branch, if any. */
  function LastShiftLine(lines: seq<string>): (i: Option<nat>)
    ensures i.None? ==> forall j :: 0 <= j < |lines| ==> Classify(lines[j]) != ShiftLine
    ensures i.Some? ==> i.value < |lines| && Classify(lines[i.value]) == ShiftLine
    ensures i.Some? ==> forall j :: i.value < j < |lines| ==> Classify(lines[j]) != ShiftLine
  {
    if lines == [] then None
    else if Classify(lines[|lines| - 1]) == ShiftLine then Some(|lines| - 1)
    else LastShiftLine(lines[..|lines| - 1])
  }

  /** The recorded shift is the number on the last `Result shift:` line, or the starting value
      when there is none. */
  lemma {:induction false} ScanShift(lines: seq<string>, parse: FloatParser, init: Scan)
    requires ScanLines(lines, parse, init).Ok?
    ensures var r := ScanLines(lines, parse, init).value;
            var i := LastShiftLine(lines);
            && (i.None? ==> r.shift == init.shift)
            && (i.Some? ==> r.shift.Some? && r.shift == parse(Field(lines[i.value], ShiftKey)))
  {
    if lines != [] {
      var n := |lines|;
      var pre := lines[..n - 1];
      ScanShift(pre, parse, init);
      if Classify(lines[n - 1]) == ShiftLine {
        assert ':' == ShiftKey[12];
      } else {
        var i := LastShiftLine(pre);
        if i.Some? {
          assert lines[i.value] == pre[i.value];
        }
      }
    }
  }

  /** `causal_from_index` only ever comes from a line that took the causal-start branch. */
  lemma {:induction false} ScanCausalFrom(lines: seq<string>, parse: FloatParser, init: Scan)
    requires ScanLines(lines, parse, init).Ok?
    ensures var r := ScanLines(lines, parse, init).value;
            || r.diagnostics.causalFromIndex == init.diagnostics.causalFromIndex
            || exists i :: 0 <= i < |lines| && Classify(lines[i]) == CausalFrom
                 && r.diagnostics.causalFromIndex == Some(Field(lines[i], CausalFromKey))
  {
    if lines != [] {
      var n := |lines|;
      var pre := lines[..n - 1];
      ScanCausalFrom(pre, parse, init);
      var s := ScanLines(pre, parse, init).value;
      var r := ScanLines(lines, parse, init).value;
      assert r == ScanLine(lines[n - 1], parse, s).value;
      if Classify(lines[n - 1]) != CausalFrom && s.diagnostics.causalFromIndex != init.diagnostics.causalFromIndex {
        var i :| 0 <= i < |pre| && Classify(pre[i]) == CausalFrom
                 && s.diagnostics.causalFromIndex == Some(Field(pre[i], CausalFromKey));
        assert lines[i] == pre[i];
      }
    }
  }

  /** `float(h[-1])` on a `dt_ins` history: `None` when it raises (the history is still the
      "Not calculated yet." string, is empty, or ends with that string). */
  function LastAsFloat(h: History): (r: Option<Num>)
    ensures r.Some? ==> !r.value.Unset?
  {
    if h.Entries? && |h.items| > 0 && !h.items[|h.items| - 1].Unset? then Some(h.items[|h.items| - 1])
    else None
  }

  /** `t_app = [x]` when it is not a list yet, `t_app.append(x)` otherwise. */
  function AppendValue(h: History, x: Num): (r: History)
    ensures r.Entries? && |r.items| >= 1 && r.items[|r.items| - 1] == x
    ensures h.NotCalculated? ==> r.items == [x]
    ensures h.Entries? ==> r.items[..|r.items| - 1] == h.items
  {
    if h.Entries? then Entries(h.items + [x]) else Entries([x])
  }

  /** `os.path.basename`: the text after the last '/'. */
  function Basename(path: string): (r: string)
    ensures '/' !in r
    ensures |r| <= |path| && r == path[|path| - |r|..]
    ensures |r| < |path| ==> path[|path| - |r| - 1] == '/'
  {
    var parts := Split(path, '/');
    JoinLast(parts, '/');
    parts[|parts| - 1]
  }

  /** The separation test `cpl_dist / (ref_vel / freqmax) < dist_trh`; each division raises on a
      zero divisor. */
  function TooClose(c: Correlation): (r: Result<bool>)
    ensures r.Err? <==> c.params.freqmax == 0.0 || c.params.refVel == 0.0
    ensures r.Err? ==> r.error == ZeroDivision
  {
    var p := c.params;
    if p.freqmax == 0.0 then Err(ZeroDivision)
    else
      var minWl := p.refVel / p.freqmax;
      if minWl == 0.0 then Err(ZeroDivision)
      else Ok(c.cplDist / minWl < p.distTrh)
  }

  function RequestFor(c: Correlation, apr1: Num, apr2: Num): Request
  {
    var p := c.params;
    Request(c.filePath, c.station1, c.station2, Basename(c.filePath), c.npts, p.freqmin, p.freqmax,
            c.cplDist, p.refVel, p.distTrh, p.snrTrh, p.noiseSt, apr1, apr2, p.dtErr)
  }

  /** `calculate_t_app`: the correlation after the call, or the exception it raises. */
  function TApp(c: Correlation, measure: Routine, parse: FloatParser): (r: Result<Correlation>)
    ensures r.Ok? ==> r.value.tApp.Entries? && |r.value.tApp.items| >= 1
                      && r.value.tApp == AppendValue(c.tApp, r.value.tApp.items[|r.value.tApp.items| - 1])
    ensures r.Ok? ==> r.value.(tApp := c.tApp, diagnostics := c.diagnostics) == c
    ensures r.Err? ==> r.error in {ZeroDivision, NoApriori, NotANumber}
  {
    var close :- TooClose(c);
    if close then Ok(c.(tApp := AppendValue(c.tApp, Unresolved)))
    else if LastAsFloat(c.dtIns1).None? || LastAsFloat(c.dtIns2).None? then Err(NoApriori)
    else
      var lines := measure(RequestFor(c, LastAsFloat(c.dtIns1).value, LastAsFloat(c.dtIns2).value));
      var scan :- ScanLines(lines, parse, Scan(None, c.diagnostics));
      var shift := if scan.shift.Some? then scan.shift.value else Unresolved;
      Ok(c.(tApp := AppendValue(c.tApp, shift),
            diagnostics := scan.diagnostics.(stationSeparation := Some(c.cplDist))))
  }

  /** Under the separation threshold the routine is not consulted: one NaN is appended and
      nothing else changes. */
  lemma SeparationGate(c: Correlation, measure: Routine, parse: FloatParser)
    requires TooClose(c) == Ok(true)
    ensures TApp(c, measure, parse) == Ok(c.(tApp := AppendValue(c.tApp, Unresolved)))
  {
  }

  /** Beyond the threshold the call needs a numeric last `dt_ins` entry for both stations. */
  lemma NeedsApriori(c: Correlation, measure: Routine, parse: FloatParser)
    requires TooClose(c) == Ok(false)
    ensures TApp(c, measure, parse).Err? && TApp(c, measure, parse).error == NoApriori
            <==> LastAsFloat(c.dtIns1).None? || LastAsFloat(c.dtIns2).None?
  {
  }

  /** Beyond the threshold, a successful call appends the shift the routine reported last
      (NaN when it reported none) and records the station separation. */
  lemma MeasuredShift(c: Correlation, measure: Routine, parse: FloatParser)
    requires TooClose(c) == Ok(false) && TApp(c, measure, parse).Ok?
    ensures var r := TApp(c, measure, parse).value;
            var lines := measure(RequestFor(c, LastAsFloat(c.dtIns1).value, LastAsFloat(c.dtIns2).value));
            var x := r.tApp.items[|r.tApp.items| - 1];
            var i := LastShiftLine(lines);
            && r.diagnostics.stationSeparation == Some(c.cplDist)
            && (i.None? ==> x == Unresolved)
            && (i.Some? ==> Some(x) == parse(Field(lines[i.value], ShiftKey)))
  {
    var lines := measure(RequestFor(c, LastAsFloat(c.dtIns1).value, LastAsFloat(c.dtIns2).value));
    ScanShift(lines, parse, Scan(None, c.diagnostics));
  }

  /** Every correlation can be measured without an exception. */
  predicate MeasuredOk(cs: seq<Correlation>, measure: Routine, parse: FloatParser)
  {
    forall k :: 0 <= k < |cs| ==> TApp(cs[k], measure, parse).Ok?
  }

  /** The measurement loop of `calculate_tapp_4_allcorrelations`. */
  function MeasuredAll(cs: seq<Correlation>, measure: Routine, parse: FloatParser): (r: seq<Correlation>)
    requires MeasuredOk(cs, measure, parse)
  {
    seq(|cs|, k requires 0 <= k < |cs| => TApp(cs[k], measure, parse).value)
  }

  /** The measurement loop, stopping at the first exception; on an error `cs` holds the
      correlations as far as the loop got. */
  method MeasureAll(cs0: seq<Correlation>, measure: Routine, parse: FloatParser) returns (r: Result<()>, cs: seq<Correlation>)
    ensures r.Ok? <==> MeasuredOk(cs0, measure, parse)
    ensures r.Ok? ==> cs == MeasuredAll(cs0, measure, parse)
    ensures r.Err? ==> r.error in {ZeroDivision, NoApriori, NotANumber}
  {
    r, cs := StepEach(cs0, c => TApp(c, measure, parse));
  }

  /** After the loop every correlation has one more apparent shift, so `t_app[-1]` can be
      read everywhere; nothing but the shifts and the diagnostics has changed. */
  lemma MeasuredAllFacts(cs: seq<Correlation>, measure: Routine, parse: FloatParser)
    requires MeasuredOk(cs, measure, parse)
    ensures var r := MeasuredAll(cs, measure, parse);
      && |r| == |cs|
      && forall k :: 0 <= k < |r| ==>
           && Measured(r[k])
           && r[k].(tApp := cs[k].tApp, diagnostics := cs[k].diagnostics) == cs[k]
           && r[k].tApp.items[..|r[k].tApp.items| - 1] == (if cs[k].tApp.Entries? then cs[k].tApp.items else [])
  {
    var r := MeasuredAll(cs, measure, parse);
    forall k | 0 <= k < |r|
      ensures r[k].tApp.items[..|r[k].tApp.items| - 1] == (if cs[k].tApp.Entries? then cs[k].tApp.items else [])
    {
      var x := r[k].tApp.items[|r[k].tApp.items| - 1];
      assert r[k].tApp == AppendValue(cs[k].tApp, x);
    }
  }
}
