/** The error-as-value wrappers used throughout the model.
    A JavaScript `T | Error` return becomes `Result<T>`; an optional field
    or a `T | null` becomes `Option<T>`. */
module Results {

  datatype Option<+T> = None | Some(value: T) {
    function GetOr(default: T): T {
      match this
      case Some(v) => v
      case None => default
    }
  }

  /** `Err` carries the message of the JavaScript `Error` object. */
  datatype Result<+T> = Ok(value: T) | Err(error: string)

  /** Result `i` is an error, and every result before it a value. */
  predicate FailsFirst<T>(rs: seq<Result<T>>, i: int)
  {
    0 <= i < |rs| && rs[i].Err? && forall j :: 0 <= j < i ==> rs[j].Ok?
  }

  /** The values of a run of results, or the first error among them (a loop
      that returns on the first error). */
  function AllOk<T>(rs: seq<Result<T>>): Result<seq<T>>
  {
    if rs == [] then Ok([])
    else
      match AllOk(rs[..|rs| - 1])
      case Err(e) => Err(e)
      case Ok(vs) =>
        match rs[|rs| - 1]
        case Err(e) => Err(e)
        case Ok(v) => Ok(vs + [v])
  }

  /** The run fails exactly when some result is an error, and then with the
      first; otherwise it keeps every value, in order. */
  lemma {:induction false} AllOkOutcome<T>(rs: seq<Result<T>>)
    ensures AllOk(rs).Err? <==> exists i :: 0 <= i < |rs| && rs[i].Err?
    ensures AllOk(rs).Err? ==> exists i :: FailsFirst(rs, i) && rs[i].error == AllOk(rs).error
    ensures AllOk(rs).Ok? ==> |AllOk(rs).value| == |rs| && forall i :: 0 <= i < |rs| ==> rs[i] == Ok(AllOk(rs).value[i])
  {
    if rs != [] {
      var init := rs[..|rs| - 1];
      AllOkOutcome(init);
      assert forall i :: 0 <= i < |init| ==> init[i] == rs[i];
      match AllOk(init)
      case Err(e) =>
        var i :| FailsFirst(init, i) && init[i].error == e;
        assert FailsFirst(rs, i);
      case Ok(vs) =>
        if rs[|rs| - 1].Err? {
          assert FailsFirst(rs, |rs| - 1);
        }
    }
  }

  /** One step of a loop that returns on the first error: an error at `i`
      is the run's error; a value extends the values so far. */
  lemma AllOkStep<T>(rs: seq<Result<T>>, i: nat, vs: seq<T>)
    requires i < |rs| && AllOk(rs[..i]) == Ok(vs)
    ensures rs[i].Err? ==> AllOk(rs) == Err(rs[i].error)
    ensures rs[i].Ok? ==> AllOk(rs[..i + 1]) == Ok(vs + [rs[i].value])
  {
    assert rs[..i + 1][..i] == rs[..i];
    if rs[i].Err? {
      AllOkErrPersists(rs, i + 1);
    }
  }

  /** An error among the first `n` results is the error of the whole run. */
  lemma {:induction false} AllOkErrPersists<T>(rs: seq<Result<T>>, n: nat)
    requires n <= |rs| && AllOk(rs[..n]).Err?
    ensures AllOk(rs) == AllOk(rs[..n])
    decreases |rs| - n
  {
    if n < |rs| {
      assert rs[..n + 1][..n] == rs[..n];
      AllOkErrPersists(rs, n + 1);
    } else {
      assert rs[..n] == rs;
    }
  }
}
