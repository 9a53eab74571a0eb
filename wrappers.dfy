/// Optional values and results with an error, as used across the pipeline.
module Wrappers {

  datatype Option<T> = None | Some(value: T)

  datatype Result<T, E> = Ok(value: T) | Err(error: E)

  /** The values of a list of outcomes taken in order, or the first error among them. */
  function AllOk<T, E>(outs: seq<Result<T, E>>): Result<seq<T>, E> {
    if outs == [] then Ok([])
    else
      match AllOk(outs[..|outs| - 1])
      case Err(e) => Err(e)
      case Ok(vs) =>
        match outs[|outs| - 1]
        case Err(e) => Err(e)
        case Ok(v) => Ok(vs + [v])
  }

  /**
   * The outcomes succeed together exactly when each one does, and then give
   * their values in order; otherwise the error is that of the first outcome
   * that failed.
   */
  lemma {:induction false} AllOkSpec<T, E>(outs: seq<Result<T, E>>)
    ensures var r := AllOk(outs);
      && (r.Ok? <==> forall i :: 0 <= i < |outs| ==> outs[i].Ok?)
      && (r.Ok? ==> |r.value| == |outs| && forall i :: 0 <= i < |outs| ==> outs[i] == Ok(r.value[i]))
      && (r.Err? ==> exists i :: 0 <= i < |outs| && outs[i] == Err(r.error) && forall j :: 0 <= j < i ==> outs[j].Ok?)
  {
    if outs != [] {
      var init := outs[..|outs| - 1];
      AllOkSpec(init);
      assert forall i :: 0 <= i < |init| ==> init[i] == outs[i];
      var r0 := AllOk(init);
      if r0.Err? {
        var i :| 0 <= i < |init| && init[i] == Err(r0.error) && forall j :: 0 <= j < i ==> init[j].Ok?;
        assert outs[i] == init[i];
      } else if outs[|outs| - 1].Ok? {
        assert forall i :: 0 <= i < |outs| ==> outs[i].Ok?;
      }
    }
  }

  /** Once a prefix of the outcomes fails, all of them fail with the same error. */
  lemma {:induction false} AllOkErrorPersists<T, E>(outs: seq<Result<T, E>>, n: nat)
    requires n <= |outs| && AllOk(outs[..n]).Err?
    ensures AllOk(outs) == AllOk(outs[..n])
    decreases |outs| - n
  {
    if n < |outs| {
      assert outs[..n + 1][..n] == outs[..n];
      AllOkErrorPersists(outs, n + 1);
    } else {
      assert outs[..n] == outs;
    }
  }

  /** The outcomes of a prefix extended by one more. */
  lemma AllOkStep<T, E>(outs: seq<Result<T, E>>, n: nat)
    requires n < |outs|
    ensures AllOk(outs[..n + 1]) == match AllOk(outs[..n])
      case Err(e) => Err(e)
      case Ok(vs) => (match outs[n] case Err(e) => Err(e) case Ok(v) => Ok(vs + [v]))
  {
    assert outs[..n + 1][..n] == outs[..n];
  }
}
