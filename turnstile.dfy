/**
 * The turnstile whose states are the objects `locked` and `unlocked`: each
 * state's `process` takes the first event its `select` receives and returns
 * the next state; the driver starts at `locked` and applies one transition
 * per loop iteration.
 */
module Turnstile {

  datatype State = Locked | Unlocked

  /** The two sources of the `select`: a push on the arm or an inserted coin. */
  datatype Input = Push | Coin

  /**
   * One `process` call. From `locked`, a push is refused and a coin unlocks;
   * from `unlocked`, a push lets the person through and locks again and a
   * coin is returned. The next state depends on the event alone.
   */
  function Process(s: State, e: Input): (r: State)
    ensures r == Locked <==> e == Push
    ensures r == Unlocked <==> e == Coin
  {
    match s
    case Locked =>
      (match e
       case Push => Locked
       case Coin => Unlocked)
    case Unlocked =>
      (match e
       case Push => Locked
       case Coin => Unlocked)
  }

  /** The state after processing `trace` from `s`, one event at a time. */
  function Replay(s: State, trace: seq<Input>): State
  {
    if trace == [] then s else Process(Replay(s, trace[..|trace| - 1]), trace[|trace| - 1])
  }

  /**
   * The driver loop over a finite trace, starting at `locked`. The state it
   * reaches is set by the last event: `Locked` after a push, `Unlocked` after
   * a coin, and `Locked` when nothing was received.
   */
  method RunTurnstile(trace: seq<Input>) returns (state: State)
    ensures state == Replay(Locked, trace)
    ensures trace == [] ==> state == Locked
    ensures trace != [] ==> (state == Locked <==> trace[|trace| - 1] == Push)
  {
    state := Locked;
    for i := 0 to |trace|
      invariant state == Replay(Locked, trace[..i])
    {
      assert trace[..i + 1][..i] == trace[..i];
      state := Process(state, trace[i]);
    }
    assert trace[..|trace|] == trace;
  }
}
