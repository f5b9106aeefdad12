/** The result types shared by the other modules. */
module Wrappers {

  datatype Option<+T> = None | Some(value: T)

  /** The outcome of a computation that may throw, or that may run out of the recursion
      depth it was given.  Only `Done` carries a result. */
  datatype Outcome<+T> = Done(value: T) | Failed | Exhausted {

    predicate IsFailure() {
      !Done?
    }

    function PropagateFailure<U>(): (r: Outcome<U>)
      requires !Done?
    {
      if Failed? then Failed else Exhausted
    }

    function Extract(): T
      requires Done?
    {
      value
    }
  }

  function FromOption<T>(o: Option<T>): (r: Outcome<T>)
    ensures r.Done? <==> o.Some?
    ensures r.Done? ==> r.value == o.value
  {
    match o
    case None => Failed
    case Some(v) => Done(v)
  }
}
