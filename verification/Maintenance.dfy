/** The maintenance controller: requests are counted, a maintenance waits until none is left. */
module Maintenance {
  import opened Foundation

  /** `zero` names the current channel; `closed` tells for every channel made so far whether it is closed. */
  datatype Control = Control(active: bool, inFlight: int, zero: nat, closed: seq<bool>)

  const Idle := Control(false, 0, 0, [true])

  function Entered(c: Control): Control {
    if c.active then c
    else if c.inFlight == 0 then Control(c.active, 1, |c.closed|, c.closed + [false])
    else c.(inFlight := c.inFlight + 1)
  }

  function Left(c: Control): Control {
    if c.inFlight == 1 && c.zero < |c.closed| then c.(inFlight := 0, closed := c.closed[c.zero := true])
    else c.(inFlight := c.inFlight - 1)
  }

  /** Leaving as the last request closes the channel, which must not be closed already. */
  predicate MayLeave(c: Control) {
    c.inFlight >= 1 && c.zero < |c.closed| && !c.closed[c.zero]
  }

  /** The channel in use is closed exactly when no request is in flight. */
  predicate Fits(c: Control) {
    0 <= c.inFlight && c.zero < |c.closed| && (c.closed[c.zero] <==> c.inFlight == 0)
  }

  class Controller {
    var active: bool
    var inFlight: int
    var zero: nat
    var closed: seq<bool>

    function State(): Control
      reads this
    {
      Control(active, inFlight, zero, closed)
    }

    constructor ()
      ensures State() == Idle && Fits(State())
    {
      active, inFlight, zero, closed := false, 0, 0, [true];
    }

    method Enter() returns (admitted: bool)
      requires Fits(State())
      modifies this
      ensures Fits(State()) && State() == Entered(old(State()))
      ensures admitted == !old(active)
    {
      if active {
        return false;
      }
      if inFlight == 0 {
        zero, closed := |closed|, closed + [false];
      }
      inFlight := inFlight + 1;
      admitted := true;
    }

    /** The effect of the function `Enter` hands out, the first time it is called. */
    method Leave()
      requires Fits(State()) && inFlight >= 1
      modifies this
      ensures Fits(State()) && State() == Left(old(State()))
    {
      inFlight := inFlight - 1;
      if inFlight == 0 {
        assert !closed[zero];
        closed := closed[zero := true];
      }
    }

    /** The first critical section of `Begin`: takes maintenance and remembers what to wait for. */
    method TryActivate() returns (channel: Option<nat>)
      modifies this`active
      ensures channel == if old(active) then None else Some(zero)
      ensures State() == old(State()).(active := true)
    {
      if active {
        return None;
      }
      active := true;
      channel := Some(zero);
    }

    /** Ending maintenance, or giving up while still waiting. */
    method Deactivate()
      modifies this`active
      ensures State() == old(State()).(active := false)
    {
      active := false;
    }
  }
}
