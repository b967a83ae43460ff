/** The cancellation and deadline poll. */
module Cancellation {
  /** What long operations poll. The answers are unconstrained, so every result holds for every
      schedule of cancellations; fired remembers whether one of them asked to stop. */
  class Control {
    ghost var fired: bool

    constructor ()
      ensures !fired
    {
      fired := false;
    }

    method Stopped() returns (stopped: bool)
      modifies this
      ensures fired == (old(fired) || stopped)
    {
      stopped := *;
      fired := fired || stopped;
    }
  }
}
