/** The context a call is made under. */
module Cancellation {
  /** Cancellation may come at any moment and is never taken back. */
  class Context {
    var done: bool

    constructor ()
      ensures !done
    {
      done := false;
    }

    /** Says whether the context is cancelled by now. */
    method Err() returns (cancelled: bool)
      modifies this
      ensures cancelled == done && (old(done) ==> done)
    {
      var now: bool := *;
      done := done || now;
      return done;
    }

    /** A pause that ends early only because of a cancellation. */
    method Wait() returns (cancelled: bool)
      modifies this
      ensures (cancelled ==> done) && (old(done) ==> done)
    {
      var now: bool := *;
      done := done || now;
      cancelled := *;
      cancelled := cancelled && done;
    }
  }
}
