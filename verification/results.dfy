/** Failure-compatible wrappers shared by every component.
    The C# code signals failure by throwing or by returning null; the model
    returns an `Err` or a `None` instead. */
module Results {

  /** A value that may be absent (the C# `null` / nullable). */
  datatype Option<+T> = None | Some(value: T)

  /** Either a value or the error that the C# code would have thrown. */
  datatype Result<+T, +E> = Ok(value: T) | Err(error: E) {

    predicate IsFailure() {
      Err?
    }

    function PropagateFailure<U>(): Result<U, E>
      requires Err?
    {
      Err(error)
    }

    function Extract(): T
      requires Ok?
    {
      value
    }
  }

  /** Applies `f` to each element in order; the first failure is the result
      (a loop whose body may throw). */
  function MapAll<A, B, E>(xs: seq<A>, f: A -> Result<B, E>): (r: Result<seq<B>, E>)
    ensures r.Ok? <==> forall k | 0 <= k < |xs| :: f(xs[k]).Ok?
    ensures r.Ok? ==> |r.value| == |xs| && forall k | 0 <= k < |xs| :: f(xs[k]) == Ok(r.value[k])
  {
    if |xs| == 0 then Ok([])
    else
      var first :- f(xs[0]);
      var rest :- MapAll(xs[1..], f);
      assert forall k | 1 <= k < |xs| :: xs[k] == xs[1..][k - 1];
      Ok([first] + rest)
  }
}
