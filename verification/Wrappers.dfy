/** Optional values and outcomes of operations that can abort the kernel. */
module Wrappers {

  datatype Option<+T> = None | Some(value: T)

  /** Abort stands for kbugon/kabort: the operation never returns. */
  datatype Outcome<+T> = Abort | Ok(value: T) {

    predicate IsFailure() {
      Abort?
    }

    function PropagateFailure<U>(): Outcome<U>
      requires Abort?
    {
      Abort
    }

    function Extract(): T
      requires Ok?
    {
      value
    }
  }
}
