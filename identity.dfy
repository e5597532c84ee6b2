/**
 * Object identity for the objects the renderer creates (React elements and
 * event-handler closures). Each call that may create objects takes one stamp
 * from a monotone counter; the objects created by that call carry the stamp
 * together with a position that is unique within the call. An object
 * carrying the current stamp is new to a holder whose objects were all
 * stamped earlier by the same allocator, which is what each reconciler's
 * `Valid` invariant keeps.
 */
module Identity {

  class Allocator {
    /** The stamp the next call will receive; every stamp handed out so far is smaller. */
    var next: nat

    constructor ()
      ensures next == 0
    {
      next := 0;
    }

    method Fresh() returns (stamp: nat)
      modifies this
      ensures stamp == old(next) && next == old(next) + 1
    {
      stamp := next;
      next := next + 1;
    }
  }
}
