/** Results of operations that the original ends with an exception. */
module Results {

  datatype Option<+T> = None | Some(value: T)

  datatype Result<+T, +E> = Ok(value: T) | Err(error: E) {
    predicate IsFailure() { Err? }

    function PropagateFailure<U>(): Result<U, E>
      requires Err?
    {
      Err(error)
    }

    function Extract(): T
      requires Ok?
    {
      value
    }
  }

  /** A check: it passes or raises. */
  datatype Outcome<+E> = Pass | Fail(error: E) {
    predicate IsFailure() { Fail? }

    function PropagateFailure(): Outcome<E>
      requires Fail?
    {
      this
    }
  }

  /** A list extended before what is still to come, which may raise. */
  function Prepend<T, E>(found: seq<T>, rest: Result<seq<T>, E>): Result<seq<T>, E> {
    match rest
    case Ok(later) => Ok(found + later)
    case Err(e) => Err(e)
  }

  lemma PrependTwice<T, E>(a: seq<T>, b: seq<T>, rest: Result<seq<T>, E>)
    ensures Prepend(a, Prepend(b, rest)) == Prepend(a + b, rest)
  {
    if rest.Ok? {
      assert a + (b + rest.value) == a + b + rest.value;
    }
  }

  lemma PrependNothing<T, E>(found: seq<T>, rest: Result<seq<T>, E>)
    ensures Prepend([], rest) == rest && Prepend(found, Result<seq<T>, E>.Ok([])) == Ok(found)
  {
    assert found + [] == found;
    if rest.Ok? {
      assert [] + rest.value == rest.value;
    }
  }

  lemma PrependError<T, E>(found: seq<T>, e: E)
    ensures Prepend(found, Result<seq<T>, E>.Err(e)) == Err(e)
  {
  }

  function Need<E>(condition: bool, error: E): Outcome<E> {
    if condition then Pass else Fail(error)
  }
}
