/** Result and option types shared by the whole model. */
module Prelude {

  datatype Option<+T> = None | Some(value: T)

  /** Outcome of an operation that Go reports as a (value, error) pair. */
  datatype Result<+T, +E> = Ok(value: T) | Err(error: E) {
    predicate IsFailure() { Err? }

    function PropagateFailure<U>(): Result<U, E>
      requires Err?
    {
      Err(error)
    }

    function Extract(): T
      requires Ok?
    {
      value
    }
  }

  lemma Assoc<T>(a: seq<T>, b: seq<T>, c: seq<T>)
    ensures a + (b + c) == a + b + c
  {
  }

  /** What a loop has collected, in front of the outcome of the rest. */
  function Prepend<T, E>(front: seq<T>, r: Result<seq<T>, E>): Result<seq<T>, E> {
    match r
    case Ok(back) => Ok(front + back)
    case Err(e) => Err(e)
  }

  lemma PrependNothing<T, E>(r: Result<seq<T>, E>)
    ensures Prepend([], r) == r
  {
    if r.Ok? { assert [] + r.value == r.value; }
  }

  lemma PrependTwice<T, E>(a: seq<T>, b: seq<T>, r: Result<seq<T>, E>)
    ensures Prepend(a, Prepend(b, r)) == Prepend(a + b, r)
  {
    if r.Ok? { assert a + (b + r.value) == a + b + r.value; }
  }
}
