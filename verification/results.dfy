/** The shapes Python code uses for "maybe a value" and "return or raise", as
    datatypes, with the two ways a sequence of raising steps is run. */
module Results {

  /** Python's `None` or a value. */
  datatype Option<+T> = None | Some(value: T)

  /** The built-in exceptions the modelled scripts raise on malformed input. */
  datatype PyError =
    | IndexError         // a subscript past the end of a list or string
    | AttributeError     // `.num` or `.den` asked of something that is not a ratio
    | ZeroDivisionError  // a float division by a zero denominator
    | TypeError          // an operation applied to None or to a value of the wrong type
    | ValueError         // `time.strptime` rejecting a date string

  /** A step that returns a value or raises. */
  datatype Result<+T> = Ok(value: T) | Err(error: PyError)

  /** Runs steps in order where the first raise aborts everything: the values of
      all steps, or the exception of the first step that raised. */
  function AllOk<T>(rs: seq<Result<T>>): (r: Result<seq<T>>)
    ensures r.Ok? <==> forall i :: 0 <= i < |rs| ==> rs[i].Ok?
    ensures r.Ok? ==> |r.value| == |rs| && forall i :: 0 <= i < |rs| ==> rs[i] == Ok(r.value[i])
    ensures r.Err? ==> exists i :: 0 <= i < |rs| && rs[i] == Err(r.error) && forall j :: 0 <= j < i ==> rs[j].Ok?
  {
    if rs == [] then Ok([])
    else if rs[0].Err? then Err(rs[0].error)
    else match AllOk(rs[1..])
      case Err(e) =>
        FirstErrorShifts(rs, e);
        Err(e)
      case Ok(vs) => Ok([rs[0].value] + vs)
  }

  lemma FirstErrorShifts<T>(rs: seq<Result<T>>, e: PyError)
    requires rs != [] && rs[0].Ok?
    requires exists i :: 0 <= i < |rs| - 1 && rs[1..][i] == Err(e) && forall j :: 0 <= j < i ==> rs[1..][j].Ok?
    ensures exists i :: 0 <= i < |rs| && rs[i] == Err(e) && forall j :: 0 <= j < i ==> rs[j].Ok?
  {
    var i :| 0 <= i < |rs| - 1 && rs[1..][i] == Err(e) && forall j :: 0 <= j < i ==> rs[1..][j].Ok?;
    assert rs[i + 1] == Err(e);
    forall j | 0 <= j < i + 1 ensures rs[j].Ok? {
      if j > 0 { assert rs[j] == rs[1..][j - 1]; }
    }
  }

  lemma AllOkOfOks<T>(rs: seq<Result<T>>, vs: seq<T>)
    requires |rs| == |vs|
    requires forall i :: 0 <= i < |rs| ==> rs[i] == Ok(vs[i])
    ensures AllOk(rs) == Ok(vs)
  {
    assert AllOk(rs).Ok?;
    assert AllOk(rs).value == vs;
  }

  /** One more step after steps that all returned: its raise aborts the run,
      or its value joins the others at the end. */
  lemma AllOkSnoc<T>(rs: seq<Result<T>>, r: Result<T>)
    requires AllOk(rs).Ok?
    ensures r.Err? ==> AllOk(rs + [r]) == Err(r.error)
    ensures r.Ok? ==> AllOk(rs + [r]) == Ok(AllOk(rs).value + [r.value])
  {
    var all := rs + [r];
    if r.Err? {
      assert all[|rs|] == r;
      assert forall j :: 0 <= j < |rs| ==> all[j] == rs[j];
    } else {
      AllOkOfOks(all, AllOk(rs).value + [r.value]);
    }
  }

  /** What a run of side-effecting steps leaves behind when the first raise
      aborts the rest: the results of the steps that completed, and the
      exception that stopped the run, if any. */
  datatype Run<T> = Run(done: seq<T>, failure: Option<PyError>)

  function RunAll<T>(rs: seq<Result<T>>): (r: Run<T>)
    ensures |r.done| <= |rs|
    ensures forall i :: 0 <= i < |r.done| ==> rs[i] == Ok(r.done[i])
    ensures r.failure.None? <==> |r.done| == |rs|
    ensures r.failure.Some? ==> rs[|r.done|] == Err(r.failure.value)
  {
    if rs == [] then Run([], None)
    else match rs[0]
      case Err(e) => Run([], Some(e))
      case Ok(v) =>
        var rest := RunAll(rs[1..]);
        Run([v] + rest.done, rest.failure)
  }
}
