/**
  Waiting for the muxer to write its playlist: up to twenty existence checks
  with a pause after each miss, and the handle of the muxer process that is
  killed when none of them succeeds.
 */
module Readiness {

  /** `range(20)`: the number of existence checks the handler makes at most. */
  const MaxAttempts: nat := 20

  /**
    What the `n`-th existence check of the playlist sees, counting from 0:
    `observations` records one answer per check, and a check past its end sees nothing.
   */
  predicate Observed(observations: seq<bool>, n: nat) {
    n < |observations| && observations[n]
  }

  /** One of the twenty checks sees the playlist. */
  predicate PlaylistAppears(observations: seq<bool>) {
    exists n :: 0 <= n < MaxAttempts && Observed(observations, n)
  }

  /** The handle `subprocess.Popen` returns, counting the `kill()` calls made on it. */
  class Process {
    const argv: seq<string>
    var killed: nat

    constructor (argv: seq<string>)
      ensures this.argv == argv && killed == 0
    {
      this.argv := argv;
      killed := 0;
    }

    /** `proc.kill()`; harmless if the process has already exited. */
    method Kill()
      modifies this
      ensures killed == old(killed) + 1
    {
      killed := killed + 1;
    }
  }

  /**
    The `for _ in range(20)` loop: check, stop at the first check that sees
    the playlist, otherwise pause and go on. `ready` is false when the loop
    ran out (the `else` branch); `checks` and `pauses` count what it did.
   */
  method AwaitPlaylist(observations: seq<bool>) returns (ready: bool, checks: nat, pauses: nat)
    ensures ready <==> PlaylistAppears(observations)
    ensures 1 <= checks <= MaxAttempts
    ensures ready ==> Observed(observations, checks - 1)
    ensures forall n :: 0 <= n < checks - 1 ==> !Observed(observations, n)
    ensures !ready ==> checks == MaxAttempts && !Observed(observations, checks - 1)
    ensures pauses == if ready then checks - 1 else checks
  {
    ready, checks, pauses := false, 0, 0;
    for attempt := 0 to MaxAttempts
      invariant checks == pauses == attempt
      invariant forall n :: 0 <= n < attempt ==> !Observed(observations, n)
    {
      checks := checks + 1;
      if Observed(observations, attempt) {
        ready := true;
        break;
      }
      pauses := pauses + 1;
    }
  }
}
