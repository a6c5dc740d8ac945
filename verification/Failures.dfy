/** How decompressing and extracting end, and the flag that interrupts them. */
module Failures {
  datatype Failure = NoFailure | Error | Interrupted | BudgetExceeded

  /** The flag another thread may raise at any moment and nobody lowers. */
  class InterruptFlag {
    var raised: bool

    constructor () ensures !raised { raised := false; }

    method Poll() returns (r: bool)
      modifies this
      ensures r == raised && (old(raised) ==> raised)
    {
      if * { raised := true; }
      return raised;
    }
  }
}
