/** Pausing, resuming and cancelling an analysis while its dispatchers hand files to workers. */
module PauseGate {

  // ---- The gate as an object ----

  /** A channel that carries no values: it is open until closed, and closing it twice is a fault. */
  class Channel {
    var closed: bool

    constructor ()
      ensures !closed
    {
      closed := false;
    }

    method Close()
      requires !closed
      modifies this
      ensures closed
    {
      closed := true;
    }
  }

  /**
   The pause switch. A closed channel lets dispatchers through; pausing installs a new open
   one. The ghost list keeps every channel ever installed, the current one last.
   */
  class Gate {
    var resumeCh: Channel
    ghost var made: seq<Channel>

    ghost predicate Valid()
      reads this, made
    {
      && made != [] && made[|made| - 1] == resumeCh
      && (forall i, j :: 0 <= i < j < |made| ==> made[i] != made[j])
      && forall i :: 0 <= i < |made| - 1 ==> made[i].closed
    }

    /** The gate as the step system sees it. */
    ghost function View(): GateState
      reads this, made
    {
      GateState(seq(|made|, i requires 0 <= i < |made| reads this, made => if made[i].closed then 1 else 0))
    }

    constructor ()
      ensures Valid() && fresh(made) && View() == RUNNING
    {
      var ch := new Channel();
      ch.Close();
      resumeCh, made := ch, [ch];
    }

    method Pause()
      requires Valid()
      modifies this
      ensures Valid() && View() == old(View()).Paused() && old(made) <= made
      ensures fresh(made[|old(made)|..])
    {
      if resumeCh.closed {
        resumeCh := new Channel();
        made := made + [resumeCh];
      }
    }

    method Resume()
      requires Valid()
      modifies resumeCh
      ensures Valid() && View() == old(View()).Resumed()
    {
      if !resumeCh.closed {
        resumeCh.Close();
      }
    }

    method IsPaused() returns (paused: bool)
      requires Valid()
      ensures paused == !View().Closed(|made| - 1)
    {
      paused := !resumeCh.closed;
    }
  }

  /** How often each channel ever installed has been closed, the current channel last. */
  datatype GateState = GateState(closes: seq<nat>) {
    predicate Closed(ch: nat) {
      ch < |closes| && closes[ch] > 0
    }

    function Current(): int {
      |closes| - 1
    }

    function Paused(): GateState {
      if closes != [] && Closed(|closes| - 1) then GateState(closes + [0]) else this
    }

    function Resumed(): GateState {
      if closes == [] || Closed(|closes| - 1) then this
      else GateState(closes[|closes| - 1 := closes[|closes| - 1] + 1])
    }
  }

  const RUNNING: GateState := GateState([1])
}
