/** Shared vocabulary: optional values and the errors that travel through the packages. */
module Wrappers {

  /** A value or Go's nil. */
  datatype Option<+T> = None | Some(value: T)

  /** An error value. `Canceled` and `DeadlineExceeded` are the two sentinels that `ctx.Err()`
      returns; `Panicked` is a recovered panic; `Failed` is every other error a callback returns. */
  datatype Error =
    | Canceled
    | DeadlineExceeded
    | Panicked(payload: int)
    | Failed(code: int)

  /** The errors compared against `context.Canceled` and `context.DeadlineExceeded`. */
  predicate IsContextError(e: Error) {
    e.Canceled? || e.DeadlineExceeded?
  }

  /** There is always an unused number. */
  lemma {:induction false} FreshId(ids: set<nat>) returns (id: nat)
    ensures id !in ids
    ensures forall i :: i in ids ==> i < id
  {
    if ids == {} {
      id := 0;
    } else {
      var x :| x in ids;
      var below := FreshId(ids - {x});
      id := if x < below then below else x + 1;
      forall i | i in ids ensures i < id {
        assert i == x || i in ids - {x};
      }
    }
  }
}
