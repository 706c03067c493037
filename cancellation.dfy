/**
 * The `CancellationToken` handed down a sync, as the code observes it: at a
 * sequence of checks (`ThrowIfCancellationRequested`, `semaphore.Wait(token)`,
 * `Task.Run(..., token)`), each of which either passes or throws
 * `OperationCanceledException`. When the user presses cancel is not part of
 * the model; the token says how many checks still pass before it fires. Once
 * fired, it stays fired.
 */
module Cancellation {
  /** Never cancelled, or cancelled once `passes` more checks have gone by. */
  datatype Token = Never | After(passes: nat)

  /** The next check throws: the token has been cancelled. */
  predicate Fires(t: Token) {
    t == After(0)
  }

  /** The token once one check has passed. */
  function Tick(t: Token): Token
    requires !Fires(t)
  {
    match t
    case Never => Never
    case After(n) => After(n - 1)
  }
}
