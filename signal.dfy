/**
 * Forwarding interrupts to the supervised child (`src/signal.rs`).
 *
 * The process-wide statics become the fields of one `SignalRelay` object:
 * the target slot `CHILD_PID` (0 means "no child") and the `INIT` once-flag.
 * `handlerInstalls` counts how often the operating-system handlers were
 * registered. A handler's call to `terminate_process` is its returned target.
 */
module Signal {
  import opened Common

  const SIGINT: int := 2
  const SIGTERM: int := 15

  const CTRL_C_EVENT: nat := 0
  const CTRL_BREAK_EVENT: nat := 1
  const CTRL_CLOSE_EVENT: nat := 2

  /** The guard `install` hands out; dropping it clears the slot. */
  datatype SignalGuard = SignalGuard

  class SignalRelay {
    var childPid: U32
    var initDone: bool
    var handlerInstalls: nat

    /** The handlers are registered exactly when the once-flag has fired. */
    ghost predicate Valid()
      reads this
    {
      handlerInstalls == if initDone then 1 else 0
    }

    /** The state at program start. */
    constructor ()
      ensures Valid()
      ensures childPid == 0 && !initDone && handlerInstalls == 0
    {
      childPid := 0;
      initDone := false;
      handlerInstalls := 0;
    }

    /**
     * Register the handlers on the first call only, then store the child's
     * pid in the slot. It never fails.
     */
    method Install(pid: U32) returns (r: Result<SignalGuard, string>)
      requires Valid()
      modifies this
      ensures Valid()
      ensures r == Ok(SignalGuard)
      ensures childPid == pid && initDone
      ensures handlerInstalls == old(handlerInstalls) + if old(initDone) then 0 else 1
    {
      if !initDone {
        handlerInstalls := handlerInstalls + 1;
        initDone := true;
      }
      childPid := pid;
      r := Ok(SignalGuard);
    }

    /** Dropping the guard empties the slot, whatever it holds. */
    method DropGuard(guard: SignalGuard)
      modifies this
      ensures childPid == 0
      ensures initDone == old(initDone) && handlerInstalls == old(handlerInstalls)
    {
      childPid := 0;
    }

    /** The Unix handler: SIGINT and SIGTERM terminate the child in the slot, if there is one. */
    method UnixHandler(signum: int) returns (terminate: Option<U32>)
      ensures terminate.Some? <==> (signum == SIGINT || signum == SIGTERM) && childPid != 0
      ensures terminate.Some? ==> terminate.value == childPid
    {
      if signum == SIGINT || signum == SIGTERM {
        var pid := childPid;
        if pid != 0 {
          return Some(pid);
        }
      }
      terminate := None;
    }

    /**
     * The Windows console handler: Ctrl-C, Ctrl-Break and close are handled
     * (TRUE), terminating the child in the slot if there is one; every other
     * event is passed on (FALSE) and terminates nothing.
     */
    method WindowsHandler(ctrlType: nat) returns (handled: bool, terminate: Option<U32>)
      ensures handled <==> ctrlType == CTRL_C_EVENT || ctrlType == CTRL_BREAK_EVENT || ctrlType == CTRL_CLOSE_EVENT
      ensures terminate.Some? <==> handled && childPid != 0
      ensures terminate.Some? ==> terminate.value == childPid
    {
      if ctrlType == CTRL_C_EVENT || ctrlType == CTRL_BREAK_EVENT || ctrlType == CTRL_CLOSE_EVENT {
        var pid := childPid;
        terminate := if pid != 0 then Some(pid) else None;
        handled := true;
      } else {
        handled, terminate := false, None;
      }
    }
  }

  /**
   * Two supervised runs in one process: the handlers are registered once,
   * the second install retargets the slot, and once the guard is dropped
   * an interrupt terminates nothing.
   */
  method TwoRunsThenInterrupt(first: U32, second: U32) returns (relay: SignalRelay, late: Option<U32>)
    ensures relay.handlerInstalls == 1
    ensures relay.childPid == 0 && late == None
  {
    relay := new SignalRelay();
    var g1 := relay.Install(first);
    var g2 := relay.Install(second);
    assert relay.childPid == second;
    relay.DropGuard(g2.value);
    late := relay.UnixHandler(SIGINT);
  }
}
