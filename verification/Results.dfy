/** Values that may be missing, and calls that may fail. */
module Results {
  datatype Option<+T> = None | Some(value: T) {
    predicate IsFailure() { None? }

    function PropagateFailure<U>(): Option<U>
      requires None?
    {
      None
    }

    function Extract(): T
      requires Some?
    {
      value
    }
  }

  /** How a call that changes stored state ends; one that reports an error may still have taken effect. */
  datatype Fault = Works | FailsBefore | FailsAfter

  function Committed<T>(before: T, after: T, fault: Fault): T {
    if fault == FailsBefore then before else after
  }
}
