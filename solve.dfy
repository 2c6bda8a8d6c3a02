/** The bookkeeping of `Clock_drift.solve_eq` around the least-squares solution: reading each
    solved value back to its station through the column header, the zero correction for
    stations without columns, and the iteration counter. */
module Solve {
  import opened Values
  import opened Text
  import opened Entities
  import opened Queries
  import opened Design

  const NlpsTag := "*t_{N_lps}"

  /** The header with the `*t_{N_lps}` tag removed, as `column_names` holds it. */
  function Strip(header: string): string
  {
    RemoveAll(header, NlpsTag)
  }

  /** What a header says about the unknown of its column. */
  datatype Column = ACol(code: string) | BCol(code: string) | Unclassified

  /** The `if "a" in header` / `if "b" in header` tests, with the station code recovered by
      removing "a (" (or "b (") and ")". */
  function ColumnOf(header: string): (c: Column)
    ensures c.ACol? <==> Contains(header, "a")
    ensures c.BCol? <==> !Contains(header, "a") && Contains(header, "b")
  {
    if Contains(header, "a") then ACol(RemoveAll(RemoveAll(header, "a ("), ")"))
    else if Contains(header, "b") then BCol(RemoveAll(RemoveAll(header, "b ("), ")"))
    else Unclassified
  }

  /** A code that none of the header's own characters can be confused with. */
  predicate PlainCode(code: string)
  {
    'a' !in code && 'b' !in code && '(' !in code && ')' !in code && '*' !in code
  }

  /** For a plain code the two headers of a station are read back as its a and b columns. */
  lemma HeadersReadBack(code: string)
    requires PlainCode(code)
    ensures ColumnOf(Strip(AHeader(code))) == ACol(code)
    ensures ColumnOf(Strip(BHeader(code))) == BCol(code)
  {
    AHeaderReadBack(code);
    BHeaderReadBack(code);
  }

  lemma AHeaderReadBack(code: string)
    requires PlainCode(code)
    ensures ColumnOf(Strip(AHeader(code))) == ACol(code)
  {
    AHeaderStripped(code);
    ContainsAt("a (" + (code + ")"), 0, "a");
    RemoveFront("a (", code + ")");
    NothingToRemove(code + ")", "a (");
    RemoveTrailing(code, ")");
  }

  lemma AHeaderStripped(code: string)
    requires PlainCode(code)
    ensures Strip(AHeader(code)) == "a (" + (code + ")")
  {
    var rest := " (" + code + ")";
    assert AHeader(code) == "a" + (NlpsTag + rest);
    RemoveLeading("a", NlpsTag + rest, NlpsTag);
    RemoveFront(NlpsTag, rest);
    NothingToRemove(rest, NlpsTag);
  }

  lemma BHeaderReadBack(code: string)
    requires PlainCode(code)
    ensures ColumnOf(Strip(BHeader(code))) == BCol(code)
  {
    var bh := "b (" + (code + ")");
    assert BHeader(code) == bh;
    NothingToRemove(bh, NlpsTag);
    NotContains(bh, "a");
    ContainsAt(bh, 0, "b");
    RemoveFront("b (", code + ")");
    NothingToRemove(code + ")", "b (");
    RemoveTrailing(code, ")");
  }

  /** A lower-case 'a' in a station code makes its b column look like an a column, with a
      code that is not the station's. */
  lemma CodeWithA()
    ensures ColumnOf(Strip(BHeader("a1"))) == ACol("b (a1")
  {
    CodeWithAStripped();
    CodeWithAColumn();
  }

  lemma CodeWithAStripped()
    ensures Strip(BHeader("a1")) == "b (a1)"
  {
    assert BHeader("a1") == "b (a1)";
    NothingToRemove("b (a1)", NlpsTag);
  }

  lemma CodeWithAColumn()
    ensures ColumnOf("b (a1)") == ACol("b (a1")
  {
    var bh := "b (a1)";
    ContainsAt(bh, 3, "a");
    NoLeftParenAfterA();
    assert "b (a1" + ")" == bh;
    RemoveLeading("b (a1", ")", ")");
  }

  lemma NoLeftParenAfterA()
    ensures RemoveAll("b (a1)", "a (") == "b (a1)"
  {
    assert !Contains("a1)", "a (") by {
      assert "a1)"[..3][1] == '1' != "a ("[1];
      assert !Contains("1)", "a (");
    }
    assert "b (" + "a1)" == "b (a1)";
    RemoveLeading("b (", "a1)", "a (");
  }

  /** The state `solve_eq` builds while it walks the columns: the stations, the codes recorded
      as solved, and the exception that stopped the walk, if any. */
  datatype Progress = Progress(stations: seq<Station>, solved: seq<string>, error: Option<Error>)

  /** Appends `v` to the a (or b) history of the first station with `code`. */
  function AppendTo(stations: seq<Station>, code: string, v: real, toA: bool): Result<seq<Station>>
  {
    var k := StationPos(stations, code);
    if k == |stations| then Err(StationNotFound)
    else if toA then Ok(stations[k := stations[k].(a := stations[k].a + [v])])
    else Ok(stations[k := stations[k].(b := stations[k].b + [v])])
  }

  /** One pass of the `zip(x, column_names)` loop on a classified column; after an exception
      nothing more happens. */
  function Apply(p: Progress, v: real, col: Column): Progress
  {
    if p.error.Some? then p
    else
      match col
      case ACol(code) =>
        var r := AppendTo(p.stations, code, v, true);
        if r.Err? then Progress(p.stations, p.solved + [code], Some(r.error))
        else Progress(r.value, p.solved + [code], None)
      case BCol(code) =>
        var r := AppendTo(p.stations, code, v, false);
        if r.Err? then Progress(p.stations, p.solved, Some(r.error))
        else Progress(r.value, p.solved, None)
      case Unclassified => p
  }

  function ColumnStep(p: Progress, v: real, header: string): Progress
  {
    Apply(p, v, ColumnOf(Strip(header)))
  }

  /** The first `n` passes of the loop. */
  function Replay(init: Progress, xs: seq<real>, headers: seq<string>, n: nat): Progress
    requires n <= |xs| && n <= |headers|
  {
    if n == 0 then init else ColumnStep(Replay(init, xs, headers, n - 1), xs[n - 1], headers[n - 1])
  }

  /** The same passes over already classified columns. */
  function ReplayColumns(init: Progress, xs: seq<real>, cols: seq<Column>, n: nat): Progress
    requires n <= |xs| && n <= |cols|
  {
    if n == 0 then init else Apply(ReplayColumns(init, xs, cols, n - 1), xs[n - 1], cols[n - 1])
  }

  lemma {:induction false} ReplayByColumns(init: Progress, xs: seq<real>, headers: seq<string>, cols: seq<Column>, n: nat)
    requires n <= |xs| && n <= |headers| && n <= |cols|
    requires forall i :: 0 <= i < n ==> cols[i] == ColumnOf(Strip(headers[i]))
    ensures Replay(init, xs, headers, n) == ReplayColumns(init, xs, cols, n)
  {
    if n > 0 {
      ReplayByColumns(init, xs, headers, cols, n - 1);
    }
  }

  /** Once an exception is raised it is kept, with the stations as they were then. */
  lemma {:induction false} ReplayKeepsError(init: Progress, xs: seq<real>, headers: seq<string>, n: nat)
    requires init.error.Some? && n <= |xs| && n <= |headers|
    ensures Replay(init, xs, headers, n) == init
  {
    if n > 0 {
      ReplayKeepsError(init, xs, headers, n - 1);
    }
  }

  /** A pass that raised stops the walk: later passes change nothing. */
  lemma {:induction false} ReplayStops(init: Progress, xs: seq<real>, headers: seq<string>, n: nat, m: nat)
    requires n <= m <= |xs| && m <= |headers|
    requires Replay(init, xs, headers, n).error.Some?
    ensures Replay(init, xs, headers, m) == Replay(init, xs, headers, n)
  {
    if n < m {
      ReplayStops(init, xs, headers, n, m - 1);
    }
  }

  /** The `zip(x, column_names)` loop of `solve_eq`: each value goes to the station its
      header names, until `get_station` raises. */
  method WalkColumns(stations: seq<Station>, xs: seq<real>, headers: seq<string>) returns (p: Progress)
    requires |xs| == |headers|
    ensures p == Replay(Progress(stations, [], None), xs, headers, |headers|)
  {
    var init := Progress(stations, [], None);
    p := init;
    var n := 0;
    while n < |headers|
      invariant n <= |headers| && p == Replay(init, xs, headers, n) && p.error.None?
    {
      var q := WalkStep(p, xs[n], headers[n]);
      assert q == Replay(init, xs, headers, n + 1);
      if q.error.Some? {
        ReplayStops(init, xs, headers, n + 1, |headers|);
        return q;
      }
      p := q;
      n := n + 1;
    }
  }

  /** One pass of the loop: the header's value appended to its station's a or b history
      (recording the code first for an a column), or an unclassified header skipped. */
  method WalkStep(p: Progress, v: real, header: string) returns (q: Progress)
    requires p.error.None?
    ensures q == ColumnStep(p, v, header)
  {
    q := p;
    match ColumnOf(Strip(header)) {
      case ACol(code) =>
        var r := AppendTo(p.stations, code, v, true);
        if r.Err? {
          q := Progress(p.stations, p.solved + [code], Some(r.error));
        } else {
          q := Progress(r.value, p.solved + [code], None);
        }
      case BCol(code) =>
        var r := AppendTo(p.stations, code, v, false);
        if r.Err? {
          q := Progress(p.stations, p.solved, Some(r.error));
        } else {
          q := Progress(r.value, p.solved, None);
        }
      case Unclassified =>
    }
  }

  /** The closing loop: a zero correction for every correcting station with no a column. */
  function Backfill(stations: seq<Station>, solved: seq<string>): (r: seq<Station>)
    ensures |r| == |stations|
    ensures forall k :: 0 <= k < |stations| ==>
              r[k] == (if stations[k].needsCorrection && stations[k].code !in solved
                       then stations[k].(a := stations[k].a + [0.0], b := stations[k].b + [0.0])
                       else stations[k])
  {
    seq(|stations|, k requires 0 <= k < |stations| =>
      if stations[k].needsCorrection && stations[k].code !in solved
      then stations[k].(a := stations[k].a + [0.0], b := stations[k].b + [0.0])
      else stations[k])
  }

  /** The headers "a*t_{N_lps} (c)", "b (c)" of the codes `cs`, pair after pair. */
  function Paired(cs: seq<string>): (h: seq<string>)
    ensures |h| == 2 * |cs|
    ensures forall j :: 0 <= j < |cs| ==> h[2 * j] == AHeader(cs[j]) && h[2 * j + 1] == BHeader(cs[j])
  {
    if cs == [] then [] else Paired(cs[..|cs| - 1]) + [AHeader(cs[|cs| - 1]), BHeader(cs[|cs| - 1])]
  }

  /** Position of the first occurrence of `code` in `cs`, or `|cs|`. */
  function CodePos(cs: seq<string>, code: string): (q: nat)
    ensures q <= |cs| && (q < |cs| ==> cs[q] == code) && forall m :: 0 <= m < q ==> cs[m] != code
  {
    if cs == [] then 0
    else if CodePos(cs[..|cs| - 1], code) < |cs| - 1 then CodePos(cs[..|cs| - 1], code)
    else if cs[|cs| - 1] == code then |cs| - 1
    else |cs|
  }

  /** A station after the columns of `cs` were read: the solved a and b appended when its
      code is among them. */
  function Gained(s: Station, cs: seq<string>, xs: seq<real>): Station
    requires 2 * |cs| <= |xs|
  {
    var q := CodePos(cs, s.code);
    if q < |cs| then s.(a := s.a + [xs[2 * q]], b := s.b + [xs[2 * q + 1]]) else s
  }

  predicate Distinct(cs: seq<string>)
  {
    forall i, j :: 0 <= i < j < |cs| ==> cs[i] != cs[j]
  }

  predicate Known(stations: seq<Station>, code: string)
  {
    exists k :: 0 <= k < |stations| && stations[k].code == code
  }

  /** The columns the paired headers of `cs` are classified as, when the codes are plain. */
  function PairedColumns(cs: seq<string>): (cols: seq<Column>)
    ensures |cols| == 2 * |cs|
    ensures forall j :: 0 <= j < |cs| ==> cols[2 * j] == ACol(cs[j]) && cols[2 * j + 1] == BCol(cs[j])
  {
    if cs == [] then [] else PairedColumns(cs[..|cs| - 1]) + [ACol(cs[|cs| - 1]), BCol(cs[|cs| - 1])]
  }

  lemma PairedHeadersClassified(cs: seq<string>)
    requires forall i :: 0 <= i < |cs| ==> PlainCode(cs[i])
    ensures forall i :: 0 <= i < 2 * |cs| ==> PairedColumns(cs)[i] == ColumnOf(Strip(Paired(cs)[i]))
  {
    forall i | 0 <= i < 2 * |cs|
      ensures PairedColumns(cs)[i] == ColumnOf(Strip(Paired(cs)[i]))
    {
      var j, odd := i / 2, i % 2 == 1;
      assert i == 2 * j + (if odd then 1 else 0);
      PairedAt(cs, j, odd);
    }
  }

  lemma PairedAt(cs: seq<string>, j: nat, odd: bool)
    requires j < |cs| && PlainCode(cs[j])
    ensures var i := 2 * j + (if odd then 1 else 0);
            PairedColumns(cs)[i] == ColumnOf(Strip(Paired(cs)[i]))
  {
    HeadersReadBack(cs[j]);
  }

  /** Distinct station codes, and distinct known codes in the solved columns. */
  predicate Solvable(stations: seq<Station>, cs: seq<string>, xs: seq<real>)
  {
    DistinctCodes(stations) && Distinct(cs) && 2 * |cs| <= |xs| &&
    forall i :: 0 <= i < |cs| ==> Known(stations, cs[i])
  }

  /** The state after the pairs of `cs[..j]`: no exception, those codes recorded, each
      solved pair appended to its own station. */
  predicate AfterPairs(stations: seq<Station>, cs: seq<string>, xs: seq<real>, j: nat, p: Progress)
    requires 2 * |cs| <= |xs| && j <= |cs|
  {
    p.error.None? && p.solved == cs[..j] && |p.stations| == |stations| &&
    forall k :: 0 <= k < |stations| ==> p.stations[k] == Gained(stations[k], cs[..j], xs)
  }

  /** Both passes over the columns of one code at once: its station gains the pair and the
      code is recorded; a missing station raises. */
  function PairPasses(p: Progress, code: string, va: real, vb: real): Progress
  {
    var k := StationPos(p.stations, code);
    if p.error.Some? then p
    else if k == |p.stations| then Progress(p.stations, p.solved + [code], Some(StationNotFound))
    else Progress(p.stations[k := p.stations[k].(a := p.stations[k].a + [va], b := p.stations[k].b + [vb])],
                  p.solved + [code], None)
  }

  /** The walk over paired columns, one pair of passes at a time. */
  function ReplayPairs(init: Progress, cs: seq<string>, xs: seq<real>, j: nat): Progress
    requires 2 * |cs| <= |xs| && j <= |cs|
  {
    if j == 0 then init
    else PairPasses(ReplayPairs(init, cs, xs, j - 1), cs[j - 1], xs[2 * (j - 1)], xs[2 * (j - 1) + 1])
  }

  lemma {:induction false} PairsByColumns(init: Progress, cs: seq<string>, xs: seq<real>, j: nat)
    requires 2 * |cs| <= |xs| && j <= |cs|
    ensures ReplayColumns(init, xs, PairedColumns(cs), 2 * j) == ReplayPairs(init, cs, xs, j)
  {
    if j > 0 {
      PairsByColumns(init, cs, xs, j - 1);
      ReplayPairOf(init, cs, xs, j);
      PairStep(ReplayPairs(init, cs, xs, j - 1), cs[j - 1], xs[2 * (j - 1)], xs[2 * (j - 1) + 1]);
    }
  }

  lemma ReplayPairOf(init: Progress, cs: seq<string>, xs: seq<real>, j: nat)
    requires 2 * |cs| <= |xs| && 0 < j <= |cs|
    ensures var n, cols := 2 * (j - 1), PairedColumns(cs);
            ReplayColumns(init, xs, cols, 2 * j)
              == Apply(Apply(ReplayColumns(init, xs, cols, n), xs[n], ACol(cs[j - 1])), xs[n + 1], BCol(cs[j - 1]))
  {
    var n, cols := 2 * (j - 1), PairedColumns(cs);
    ReplayTwoSteps(init, xs, cols, n);
    assert n + 2 == 2 * j;
  }

  /** Reading paired columns of distinct, known codes raises nothing, records exactly those
      codes and appends each solved pair to its own station. */
  lemma {:induction false} PairedReplay(stations: seq<Station>, cs: seq<string>, xs: seq<real>, j: nat)
    requires Solvable(stations, cs, xs) && j <= |cs|
    ensures AfterPairs(stations, cs, xs, j, ReplayPairs(Progress(stations, [], None), cs, xs, j))
  {
    if j == 0 {
      NoPairs(stations, cs, xs);
    } else {
      PairedReplay(stations, cs, xs, j - 1);
      var init := Progress(stations, [], None);
      NextPair(stations, cs, xs, j, ReplayPairs(init, cs, xs, j - 1));
    }
  }

  lemma NoPairs(stations: seq<Station>, cs: seq<string>, xs: seq<real>)
    requires 2 * |cs| <= |xs|
    ensures AfterPairs(stations, cs, xs, 0, Progress(stations, [], None))
  {
    assert cs[..0] == [];
    forall k | 0 <= k < |stations|
      ensures stations[k] == Gained(stations[k], cs[..0], xs)
    {
    }
  }

  lemma NextPair(stations: seq<Station>, cs: seq<string>, xs: seq<real>, j: nat, p0: Progress)
    requires Solvable(stations, cs, xs) && 0 < j <= |cs|
    requires AfterPairs(stations, cs, xs, j - 1, p0)
    ensures AfterPairs(stations, cs, xs, j, PairPasses(p0, cs[j - 1], xs[2 * (j - 1)], xs[2 * (j - 1) + 1]))
  {
    var n := 2 * (j - 1);
    var p2 := PairPasses(p0, cs[j - 1], xs[n], xs[n + 1]);
    var code := cs[j - 1];
    var k0 := StationPos(p0.stations, code);
    FindStation(stations, p0.stations, cs[..j - 1], xs, code);
    assert code !in cs[..j - 1];
    assert cs[..j] == cs[..j - 1] + [code];
    var st := p0.stations[k0 := p0.stations[k0].(a := p0.stations[k0].a + [xs[n]], b := p0.stations[k0].b + [xs[n + 1]])];
    PairGains(stations, p0.stations, cs[..j - 1], code, xs, k0, n);
    assert p2 == Progress(st, p0.solved + [code], None);
  }

  /** A known code is found among the stations after some pairs were appended. */
  lemma FindStation(stations: seq<Station>, now: seq<Station>, cs: seq<string>, xs: seq<real>, code: string)
    requires 2 * |cs| <= |xs| && Known(stations, code)
    requires |now| == |stations| && forall k :: 0 <= k < |stations| ==> now[k] == Gained(stations[k], cs, xs)
    ensures StationPos(now, code) < |now| && now[StationPos(now, code)].code == code
  {
    var w :| 0 <= w < |stations| && stations[w].code == code;
    assert now[w].code == code;
  }

  /** Appending the pair of `code` to its station turns the gains of `cs` into those of
      `cs + [code]`. */
  lemma PairGains(stations: seq<Station>, before: seq<Station>, cs: seq<string>, code: string, xs: seq<real>, k0: nat, n: nat)
    requires DistinctCodes(stations) && n == 2 * |cs| && n + 2 <= |xs| && code !in cs
    requires |before| == |stations| && forall k :: 0 <= k < |stations| ==> before[k] == Gained(stations[k], cs, xs)
    requires k0 < |before| && before[k0].code == code
    ensures var after := before[k0 := before[k0].(a := before[k0].a + [xs[n]], b := before[k0].b + [xs[n + 1]])];
            forall k :: 0 <= k < |stations| ==> after[k] == Gained(stations[k], cs + [code], xs)
  {
    forall k | 0 <= k < |stations|
      ensures stations[k].code == before[k].code
    {
    }
    forall k | 0 <= k < |stations|
      ensures k != k0 ==> stations[k].code != code
    {
    }
    forall k | 0 <= k < |stations|
      ensures Gained(stations[k], cs + [code], xs)
                == if stations[k].code in cs then Gained(stations[k], cs, xs)
                   else if stations[k].code == code then stations[k].(a := stations[k].a + [xs[2 * |cs|]], b := stations[k].b + [xs[2 * |cs| + 1]])
                   else stations[k]
    {
      GainedSnoc(stations[k], cs, code, xs);
    }
  }

  lemma GainedSnoc(s: Station, cs: seq<string>, c: string, xs: seq<real>)
    requires 2 * |cs| + 2 <= |xs|
    ensures Gained(s, cs + [c], xs)
              == if s.code in cs then Gained(s, cs, xs)
                 else if s.code == c then s.(a := s.a + [xs[2 * |cs|]], b := s.b + [xs[2 * |cs| + 1]])
                 else s
  {
    assert (cs + [c])[..|cs|] == cs;
  }

  lemma ReplayTwoSteps(init: Progress, xs: seq<real>, cols: seq<Column>, n: nat)
    requires n + 2 <= |xs| && n + 2 <= |cols|
    ensures ReplayColumns(init, xs, cols, n + 2)
              == Apply(Apply(ReplayColumns(init, xs, cols, n), xs[n], cols[n]), xs[n + 1], cols[n + 1])
  {
  }

  /** The two columns of one code amount to both passes at once. */
  lemma PairStep(p: Progress, code: string, va: real, vb: real)
    ensures Apply(Apply(p, va, ACol(code)), vb, BCol(code)) == PairPasses(p, code, va, vb)
  {
    if p.error.None? && StationPos(p.stations, code) < |p.stations| {
      var k := StationPos(p.stations, code);
      var q := Apply(p, va, ACol(code));
      assert q == Progress(p.stations[k := p.stations[k].(a := p.stations[k].a + [va])], p.solved + [code], None);
      assert StationPos(q.stations, code) == k by {
        StationPosSame(p.stations, q.stations, code);
      }
    }
  }

  /** Stations with the same codes find a code at the same place. */
  lemma {:induction false} StationPosSame(s: seq<Station>, t: seq<Station>, code: string)
    requires |s| == |t| && forall m :: 0 <= m < |s| ==> s[m].code == t[m].code
    ensures StationPos(s, code) == StationPos(t, code)
  {
    if s != [] && s[0].code != code {
      StationPosSame(s[1..], t[1..], code);
    }
  }

  /** After the column walk and the closing loop, every station that needs correction has
      gained exactly one a and one b: the solved pair when its code has columns, zeros
      otherwise. Other stations gain a pair only when they have columns. */
  lemma SolveGrowth(stations: seq<Station>, cs: seq<string>, xs: seq<real>)
    requires DistinctCodes(stations) && Distinct(cs) && 2 * |cs| <= |xs|
    requires forall i :: 0 <= i < |cs| ==> PlainCode(cs[i]) && Known(stations, cs[i])
    ensures var p := Replay(Progress(stations, [], None), xs, Paired(cs), 2 * |cs|);
            var after := Backfill(p.stations, p.solved);
            p.error.None? && |after| == |stations| &&
            forall k :: 0 <= k < |stations| ==>
              var s, q := stations[k], CodePos(cs, stations[k].code);
              (s.needsCorrection || q < |cs| ==>
                 after[k] == s.(a := s.a + [if q < |cs| then xs[2 * q] else 0.0],
                                b := s.b + [if q < |cs| then xs[2 * q + 1] else 0.0])) &&
              (!s.needsCorrection && q == |cs| ==> after[k] == s)
  {
    assert Solvable(stations, cs, xs);
    PairedReplay(stations, cs, xs, |cs|);
    PairsByColumns(Progress(stations, [], None), cs, xs, |cs|);
    assert cs[..|cs|] == cs;
    PairedHeadersClassified(cs);
    ReplayByColumns(Progress(stations, [], None), xs, Paired(cs), PairedColumns(cs), 2 * |cs|);
    assert cs[..|cs|] == cs;
    var p := Replay(Progress(stations, [], None), xs, Paired(cs), 2 * |cs|);
    forall k | 0 <= k < |stations|
      ensures p.stations[k].code == stations[k].code && p.stations[k].needsCorrection == stations[k].needsCorrection
    {
    }
  }

  /** A station whose a column was dropped (all its rows at t_N_lps = 0) but whose b column
      was kept is not recorded as solved: its b history gains the solved value and then the
      closing zero, two entries in one call. */
  lemma LoneBColumn(s: Station, v: real)
    requires PlainCode(s.code) && s.needsCorrection
    ensures var p := Replay(Progress([s], [], None), [v], [BHeader(s.code)], 1);
            p.error.None? && Backfill(p.stations, p.solved) == [s.(a := s.a + [0.0], b := s.b + [v, 0.0])]
  {
    HeadersReadBack(s.code);
    var init := Progress([s], [], None);
    var p := Replay(init, [v], [BHeader(s.code)], 1);
    assert Replay(init, [v], [BHeader(s.code)], 0) == init;
    assert p == ColumnStep(init, v, BHeader(s.code));
    assert StationPos([s], s.code) == 0;
    assert p == Progress([s.(b := s.b + [v])], [], None);
    assert s.b + [v] + [0.0] == s.b + [v, 0.0];
  }
}
