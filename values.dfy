/** Value types shared by the clock-drift model: the three states of a numeric field
    of a correlation, list-valued fields that may still be unset, Python-style
    indexing and the error kinds the source raises. */
module Values {

  /** A numeric field of a correlation: the "Not calculated yet." marker (`Unset`),
      NaN (`Unresolved`) or a number. */
  datatype Num = Unset | Unresolved | Value(v: real)

  /** A list-valued field that either still holds the "Not calculated yet." marker
      or holds a per-iteration list. */
  datatype History = NotCalculated | Entries(items: seq<Num>)

  /** The exceptions the modelled code raises. */
  datatype Error =
    | StationNotFound           // get_station: "Station not found"
    | SameStation               // pair query with two equal codes
    | BadNeedsCorrection        // needs_correction neither 'True' nor 'False'
    | ParametersDiffer          // apriori: freqmin/freqmax not unique
    | TooFewCorrelations        // apriori: fewer than two correlations
    | StationsDiffer            // apriori: station1/station2 not unique
    | NoStationNeedsCorrection  // apriori: the bare `raise`
    | NoApriori                 // calculate_t_app: no dt_ins estimate
    | IndexOutOfRange           // an IndexError
    | ZeroDivision              // a ZeroDivisionError on Python floats
    | NotANumber                // float() of a string that is not a number
    | MalformedFileName         // a `.sac` name without a second `_` field
    | NotAList                  // append on a field that still holds the marker string
    | ShapeMismatch             // a row of values whose length is not the number of columns
    | EmptyDesign               // pandas' shape check on a design built from no observation

  datatype Result<T> = Ok(value: T) | Err(error: Error) {
    predicate IsFailure() { Err? }
    function PropagateFailure<U>(): Result<U> requires Err? { Err(error) }
    function Extract(): T requires Ok? { value }
  }

  datatype Option<T> = None | Some(value: T)

  /** The position `s[i]` denotes in a Python list of length `n`; None is an IndexError. */
  function PyIndex(n: nat, i: int): (r: Option<nat>)
    ensures r.Some? <==> -(n as int) <= i < n
    ensures r.Some? ==> r.value < n && (r.value - i) % n == 0
  {
    if 0 <= i < n then Some(i) else if -(n as int) <= i < 0 then Some(n + i) else None
  }

  /** `x` is a number (neither NaN nor the unset marker). */
  predicate Resolved(x: Num) { x.Value? }

  /** A loop `for x in xs: step(x)` over the elements of a list, stopping at the first
      exception: on success every element holds its stepped value; on an error the error
      is that of some element's step, and the elements before it have been stepped. */
  method StepEach<T>(xs: seq<T>, step: T -> Result<T>) returns (r: Result<()>, ys: seq<T>)
    ensures |ys| == |xs|
    ensures r.Ok? <==> forall k :: 0 <= k < |xs| ==> step(xs[k]).Ok?
    ensures r.Ok? ==> forall k :: 0 <= k < |xs| ==> ys[k] == step(xs[k]).value
    ensures r.Err? ==> exists k :: 0 <= k < |xs| && step(xs[k]) == Err(r.error)
                                && (forall m :: 0 <= m < k ==> step(xs[m]).Ok? && ys[m] == step(xs[m]).value)
                                && ys[k..] == xs[k..]
  {
    ys := xs;
    r := Ok(());
    for k := 0 to |xs|
      invariant |ys| == |xs|
      invariant forall m :: 0 <= m < k ==> step(xs[m]).Ok? && ys[m] == step(xs[m]).value
      invariant ys[k..] == xs[k..]
    {
      assert ys[k] == ys[k..][0];
      var d := step(ys[k]);
      if d.Err? {
        return Err(d.error), ys;
      }
      assert ys[k + 1..] == ys[k..][1..];
      ys := ys[k := d.value];
    }
  }

  function Sum(s: seq<nat>): nat
  {
    if s == [] then 0 else Sum(s[..|s| - 1]) + s[|s| - 1]
  }
}
