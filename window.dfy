/**
 * The `timeWindow` producer: items from upstream accumulate in the current
 * window; when the ticker fires, the current window is sent downstream and a
 * fresh empty list takes its place. A sent window is never touched again,
 * because the variable is reassigned rather than cleared.
 */
module Window {

  datatype Event<T> = Item(value: T) | Tick

  /** The windows sent so far, in order, and the window being filled. */
  datatype State<T> = State(sent: seq<seq<T>>, current: seq<T>)

  function Step<T>(w: State<T>, e: Event<T>): State<T>
  {
    match e
    case Item(x) => State(w.sent, w.current + [x])
    case Tick => State(w.sent + [w.current], [])
  }

  /** The state after handling `trace` from `w`, one event at a time. */
  function Replay<T>(w: State<T>, trace: seq<Event<T>>): State<T>
  {
    if trace == [] then w else Step(Replay(w, trace[..|trace| - 1]), trace[|trace| - 1])
  }

  /** The windows laid end to end. */
  function Flatten<T>(ws: seq<seq<T>>): seq<T>
  {
    if ws == [] then [] else Flatten(ws[..|ws| - 1]) + ws[|ws| - 1]
  }

  /** The items of `trace`, in arrival order. */
  function Items<T>(trace: seq<Event<T>>): seq<T>
  {
    if trace == [] then []
    else
      var last := trace[|trace| - 1];
      Items(trace[..|trace| - 1]) + (if last.Item? then [last.value] else [])
  }

  /** The number of ticks in `trace`. */
  function Ticks<T>(trace: seq<Event<T>>): nat
  {
    if trace == [] then 0
    else Ticks(trace[..|trace| - 1]) + (if trace[|trace| - 1].Tick? then 1 else 0)
  }

  lemma FlattenSnoc<T>(ws: seq<seq<T>>, w: seq<T>)
    ensures Flatten(ws + [w]) == Flatten(ws) + w
  {
    assert (ws + [w])[..|ws|] == ws;
  }

  lemma ReplaySnoc<T>(w: State<T>, trace: seq<Event<T>>, e: Event<T>)
    ensures Replay(w, trace + [e]) == Step(Replay(w, trace), e)
    ensures Items(trace + [e]) == Items(trace) + (if e.Item? then [e.value] else [])
    ensures Ticks(trace + [e]) == Ticks(trace) + (if e.Tick? then 1 else 0)
  {
    assert (trace + [e])[..|trace|] == trace;
  }

  /**
   * Conservation: the sent windows laid end to end, followed by the current
   * window, are the items received, in order, with none lost or duplicated.
   */
  lemma {:induction false} Conservation<T>(w: State<T>, trace: seq<Event<T>>)
    ensures Flatten(Replay(w, trace).sent) + Replay(w, trace).current
         == Flatten(w.sent) + w.current + Items(trace)
  {
    if trace != [] {
      var init, e := trace[..|trace| - 1], trace[|trace| - 1];
      Conservation(w, init);
      var r, base := Replay(w, init), Flatten(w.sent) + w.current;
      assert Replay(w, trace) == Step(r, e);
      assert Items(trace) == Items(init) + (if e.Item? then [e.value] else []);
      assert Flatten(r.sent) + r.current == base + Items(init);
      match e {
        case Item(x) =>
          assert Replay(w, trace) == State(r.sent, r.current + [x]);
          assert Flatten(r.sent) + (r.current + [x]) == (base + Items(init)) + [x];
        case Tick =>
          FlattenSnoc(r.sent, r.current);
          assert Replay(w, trace) == State(r.sent + [r.current], []);
      }
    }
  }

  /** One window is sent per tick, and no other event sends one. */
  lemma {:induction false} OneWindowPerTick<T>(w: State<T>, trace: seq<Event<T>>)
    ensures |Replay(w, trace).sent| == |w.sent| + Ticks(trace)
  {
    if trace != [] {
      var init, e := trace[..|trace| - 1], trace[|trace| - 1];
      assert trace == init + [e];
      OneWindowPerTick(w, init);
      ReplaySnoc(w, init, e);
    }
  }

  /** A window once sent stays as it was, whatever events follow. */
  lemma {:induction false} SentWindowsAreFinal<T>(w: State<T>, trace: seq<Event<T>>, more: seq<Event<T>>)
    ensures |Replay(w, trace).sent| <= |Replay(w, trace + more).sent|
    ensures Replay(w, trace + more).sent[..|Replay(w, trace).sent|] == Replay(w, trace).sent
  {
    if more == [] {
      assert trace + more == trace;
    } else {
      var init, e := more[..|more| - 1], more[|more| - 1];
      assert trace + more == (trace + init) + [e];
      SentWindowsAreFinal(w, trace, init);
      ReplaySnoc(w, trace + init, e);
    }
  }

  /** Two ticks with no item between them send an empty window. */
  lemma TickWithoutItemsSendsEmptyWindow<T>(w: State<T>, trace: seq<Event<T>>)
    ensures Replay(w, trace + [Tick, Tick]).sent == Replay(w, trace).sent + [Replay(w, trace).current, []]
  {
    ReplaySnoc(w, trace, Tick);
    ReplaySnoc(w, trace + [Tick], Tick);
    assert trace + [Tick] + [Tick] == trace + [Tick, Tick];
  }

  class TimeWindow<T> {
    /** `seen`: the window being filled. */
    var seen: seq<T>
    /** The windows sent to the output channel, in order. */
    var sent: seq<seq<T>>
    /** Every item received from upstream, in order. */
    ghost var received: seq<T>

    /** Nothing received is lost or duplicated between the sent windows and `seen`. */
    ghost predicate Valid()
      reads this
    {
      Flatten(sent) + seen == received
    }

    /** The current window starts empty and nothing has been sent. */
    constructor ()
      ensures Valid()
      ensures seen == [] && sent == [] && received == []
    {
      seen, sent := [], [];
      received := [];
    }

    /** An upstream item is appended to the current window. */
    method OnItem(x: T)
      requires Valid()
      modifies this
      ensures Valid()
      ensures seen == old(seen) + [x] && sent == old(sent)
      ensures received == old(received) + [x]
    {
      seen := seen + [x];
      received := received + [x];
    }

    /** A tick sends the current window and starts a fresh empty one. */
    method OnTick()
      requires Valid()
      modifies this
      ensures Valid()
      ensures sent == old(sent) + [old(seen)] && seen == []
      ensures received == old(received)
    {
      FlattenSnoc(sent, seen);
      sent := sent + [seen];
      seen := [];
    }

    /** The `select` loop over a finite trace of events, one event per iteration. */
    method Run(trace: seq<Event<T>>)
      requires Valid()
      modifies this
      ensures Valid()
      ensures State(sent, seen) == Replay(old(State(sent, seen)), trace)
      ensures received == old(received) + Items(trace)
    {
      ghost var start := State(sent, seen);
      for i := 0 to |trace|
        invariant Valid()
        invariant State(sent, seen) == Replay(start, trace[..i])
        invariant received == old(received) + Items(trace[..i])
      {
        assert trace[..i + 1] == trace[..i] + [trace[i]];
        ReplaySnoc(start, trace[..i], trace[i]);
        match trace[i] {
          case Item(x) => OnItem(x);
          case Tick => OnTick();
        }
      }
      assert trace[..|trace|] == trace;
    }
  }
}
