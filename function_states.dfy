/**
 * The turnstile whose states are the top-level functions `locked` and
 * `unlocked`: each returns a reference to the function to run next, cast to
 * the `State` interface, and the driver starts from `::locked as State`.
 *
 * A reference to a top-level function is not an object implementing `State`,
 * so every one of those casts fails at run time. `DriverAsWritten` and
 * `TransitionAsWritten` model the code as written; `RunFunctionStates` is the
 * intended driver, where a reference to `locked` or `unlocked` is represented
 * by the turnstile state it stands for.
 */
module FunctionStates {
  import opened Turnstile

  datatype Error = ClassCastException

  datatype Result<+T> = Success(value: T) | Failure(error: Error)

  /**
   * A run-time value the code casts to `State`: a reference to the top-level
   * function for a state, or an object that implements the interface.
   */
  datatype Value = FunctionReference(named: State) | StateObject(behaves: State)

  /** `v as State`: only an object that implements the interface passes. */
  function CastToState(v: Value): (r: Result<State>)
    ensures r.Success? <==> v.StateObject?
    ensures r.Failure? ==> r.error == ClassCastException
  {
    match v
    case StateObject(s) => Success(s)
    case FunctionReference(_) => Failure(ClassCastException)
  }

  /** `locked`: a push names `locked` again, a coin names `unlocked`. */
  function LockedFunction(e: Input): (r: State)
    ensures r == Process(Locked, e)
  {
    match e
    case Push => Locked
    case Coin => Unlocked
  }

  /** `unlocked`: a push names `locked`, a coin names `unlocked` again. */
  function UnlockedFunction(e: Input): (r: State)
    ensures r == Process(Unlocked, e)
  {
    match e
    case Push => Locked
    case Coin => Unlocked
  }

  /**
   * Calling the function a reference names. The functions agree with the
   * `process` methods of the object states, transition for transition.
   */
  function Invoke(f: State, e: Input): (r: State)
    ensures r == Process(f, e)
  {
    match f
    case Locked => LockedFunction(e)
    case Unlocked => UnlockedFunction(e)
  }

  /** A transition as written: the next function's reference is cast to `State`. */
  function TransitionAsWritten(f: State, e: Input): (r: Result<State>)
    ensures r == Failure(ClassCastException)
  {
    CastToState(FunctionReference(Invoke(f, e)))
  }

  /**
   * The driver as written: the initial cast `::locked as State` fails before
   * any event is received, whatever the events would have been.
   */
  function DriverAsWritten(trace: seq<Input>): (r: Result<State>)
    ensures r == Failure(ClassCastException)
  {
    match CastToState(FunctionReference(Locked))
    case Failure(err) => Failure(err)
    case Success(s) => Success(Replay(s, trace))
  }

  /** A single coin: the driver as written fails where the intended one unlocks. */
  lemma CoinShowsTheCastFailure()
    ensures DriverAsWritten([Coin]).Failure?
    ensures Replay(Locked, [Coin]) == Unlocked
  {
    assert [Coin][..0] == [];
  }

  /**
   * The intended driver: start at `locked` and call the current function once
   * per event. It reaches the same state as the object-state turnstile.
   */
  method RunFunctionStates(trace: seq<Input>) returns (state: State)
    ensures state == Replay(Locked, trace)
  {
    state := Locked;
    for i := 0 to |trace|
      invariant state == Replay(Locked, trace[..i])
    {
      assert trace[..i + 1][..i] == trace[..i];
      state := Invoke(state, trace[i]);
    }
    assert trace[..|trace|] == trace;
  }
}
