/**
 * What the two accumulate-and-snapshot actors have in common: the events their
 * `select` loops receive, the write-once result slot a snapshot request carries
 * (a `CompletableDeferred<Collection<String>>`), and the specification of the
 * accumulated list as a function of the events handled so far.
 *
 * The choice `select` makes among ready sources is not modelled as a scheduler:
 * the caller supplies the order in which events are handled as a trace, so every
 * property below holds for every interleaving.
 */
module Mailbox {

  datatype Option<+T> = None | Some(value: T)

  /** A write-once, read-many result slot. */
  class Slot {
    var value: Option<seq<string>>

    constructor ()
      ensures value == None
    {
      value := None;
    }

    /**
     * `complete(v)`: the first completion stores `v` and answers true; any later
     * one answers false and leaves the first value in place.
     */
    method Complete(v: seq<string>) returns (ok: bool)
      modifies this
      ensures ok == old(value).None?
      ensures value == if ok then Some(v) else old(value)
    {
      ok := value.None?;
      if ok {
        value := Some(v);
      }
    }
  }

  /** One event handled by an iteration of the actor's `select` loop. */
  datatype Event =
    | Content(item: string)          // a content / submission message
    | SnapshotRequest(slot: Slot)    // a snapshot request carrying its result slot
    | Tick                           // the clearing ticker fired

  /** The effect of one event on the accumulated list. */
  function Step(gathered: seq<string>, e: Event): seq<string>
  {
    match e
    case Content(x) => gathered + [x]
    case SnapshotRequest(_) => gathered
    case Tick => []
  }

  /** The accumulated list after handling `trace`, starting from the empty list. */
  function Gathered(trace: seq<Event>): seq<string>
  {
    if trace == [] then [] else Step(Gathered(trace[..|trace| - 1]), trace[|trace| - 1])
  }

  /** Every content item of `trace`, in arrival order. */
  function Items(trace: seq<Event>): seq<string>
  {
    if trace == [] then []
    else
      var last := trace[|trace| - 1];
      Items(trace[..|trace| - 1]) + (if last.Content? then [last.item] else [])
  }

  /** The position just after the last tick of `trace`, or 0 when it holds none. */
  function LastTickEnd(trace: seq<Event>): (k: nat)
    ensures k <= |trace|
    ensures k > 0 ==> trace[k - 1].Tick?
    ensures forall i :: k <= i < |trace| ==> !trace[i].Tick?
  {
    if trace == [] then 0
    else if trace[|trace| - 1].Tick? then |trace|
    else LastTickEnd(trace[..|trace| - 1])
  }

  /** The slots of the snapshot requests of `trace`. */
  ghost function SlotsIn(trace: seq<Event>): set<Slot>
  {
    set i | 0 <= i < |trace| && trace[i].SnapshotRequest? :: trace[i].slot
  }

  /** The event at `j` is the first request of its slot in `trace`. */
  ghost predicate FirstRequest(trace: seq<Event>, j: nat)
    requires j < |trace|
  {
    forall k :: 0 <= k < j ==> trace[k] != trace[j]
  }

  /** The slots of the snapshot requests among the first `n` events of `trace`. */
  ghost function RequestedSlots(trace: seq<Event>, n: nat): set<Slot>
    requires n <= |trace|
  {
    set j | 0 <= j < n && trace[j].SnapshotRequest? :: trace[j].slot
  }

  /**
   * A request whose slot is still empty, when every earlier request has
   * completed its slot, is the first request of that slot: no earlier
   * request carried it.
   */
  lemma EmptySlotIsFirstRequest(trace: seq<Event>, n: nat)
    requires n < |trace| && trace[n].SnapshotRequest? && trace[n].slot.value.None?
    requires forall j :: 0 <= j < n && trace[j].SnapshotRequest? ==> trace[j].slot.value.Some?
    ensures FirstRequest(trace, n)
    ensures trace[n].slot !in RequestedSlots(trace, n)
  {
    forall k | 0 <= k < n
      ensures trace[k] != trace[n]
    {
    }
  }

  lemma PrefixStep(trace: seq<Event>, n: nat)
    requires n < |trace|
    ensures Gathered(trace[..n + 1]) == Step(Gathered(trace[..n]), trace[n])
  {
    assert trace[..n + 1][..n] == trace[..n];
  }

  /**
   * The accumulated list is exactly the content received since the last tick
   * (or since the start), in arrival order.
   */
  lemma {:induction false} GatheredSinceLastTick(trace: seq<Event>)
    ensures Gathered(trace) == Items(trace[LastTickEnd(trace)..])
  {
    if trace != [] {
      var n := |trace| - 1;
      var init, last := trace[..n], trace[n];
      GatheredSinceLastTick(init);
      if !last.Tick? {
        var k := LastTickEnd(init);
        assert trace[k..][..|trace[k..]| - 1] == init[k..];
        assert trace[k..][|trace[k..]| - 1] == last;
      }
    }
  }

  /** A tick leaves the list empty whatever came before it. */
  lemma TickClears(trace: seq<Event>)
    ensures Gathered(trace + [Tick]) == []
  {
    assert (trace + [Tick])[..|trace|] == trace;
  }

  /**
   * A content item is appended at the end: the earlier items keep their
   * positions and values.
   */
  lemma ContentAppends(trace: seq<Event>, x: string)
    ensures Gathered(trace + [Content(x)]) == Gathered(trace) + [x]
    ensures Gathered(trace + [Content(x)])[..|Gathered(trace)|] == Gathered(trace)
  {
    assert (trace + [Content(x)])[..|trace|] == trace;
  }

  /**
   * A snapshot request does not change the list, so a snapshot taken with no
   * other event since the previous one sees the same value.
   */
  lemma SnapshotKeepsList(trace: seq<Event>, s: Slot, t: Slot)
    ensures Gathered(trace + [SnapshotRequest(s)]) == Gathered(trace)
    ensures Gathered(trace + [SnapshotRequest(s), SnapshotRequest(t)]) == Gathered(trace)
  {
    assert (trace + [SnapshotRequest(s)])[..|trace|] == trace;
    assert (trace + [SnapshotRequest(s), SnapshotRequest(t)])[..|trace| + 1] == trace + [SnapshotRequest(s)];
  }

  /**
   * A run of content messages appends its items, in submission order, to
   * whatever the list held before.
   */
  lemma {:induction false} ContentsAppendInOrder(trace: seq<Event>, xs: seq<string>)
    ensures Gathered(trace + Contents(xs)) == Gathered(trace) + xs
  {
    if xs == [] {
      assert trace + Contents(xs) == trace;
    } else {
      var init, x := xs[..|xs| - 1], xs[|xs| - 1];
      ContentsAppendInOrder(trace, init);
      var before := trace + Contents(init);
      ContentsSnoc(trace, xs);
      ContentAppends(before, x);
      assert init + [x] == xs;
    }
  }

  lemma ContentsSnoc(trace: seq<Event>, xs: seq<string>)
    requires xs != []
    ensures trace + Contents(xs) == trace + Contents(xs[..|xs| - 1]) + [Content(xs[|xs| - 1])]
  {
    assert Contents(xs) == Contents(xs[..|xs| - 1]) + [Content(xs[|xs| - 1])];
  }

  /** The content messages carrying `xs`, in order. */
  function Contents(xs: seq<string>): (es: seq<Event>)
    ensures |es| == |xs|
    ensures forall i :: 0 <= i < |xs| ==> es[i] == Content(xs[i])
  {
    seq(|xs|, i requires 0 <= i < |xs| => Content(xs[i]))
  }
}
