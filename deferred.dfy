/**
 * The `accumulateAndSnapshot` actor: content messages are appended to a list,
 * a snapshot request is answered with a copy of the list, and a ticker firing
 * clears it. Completing a snapshot slot that is already completed makes the
 * handler's assertion fail, which ends the actor's coroutine.
 */
module Deferred {
  import opened Mailbox

  class Accumulator {
    /** `gatheredContent`: the list the actor owns. */
    var gathered: seq<string>

    /** The actor starts with an empty list. */
    constructor ()
      ensures gathered == []
    {
      gathered := [];
    }

    /** A content message is appended at the end of the list. */
    method OnContent(x: string)
      modifies this
      ensures gathered == old(gathered) + [x]
    {
      gathered := gathered + [x];
    }

    /**
     * A snapshot request completes its slot with a copy of the list; `ok` is
     * the asserted result of `complete`, false when the slot was already
     * completed (and then the slot keeps its first value). The list is unchanged.
     */
    method OnSnapshotRequest(slot: Slot) returns (ok: bool)
      modifies slot
      ensures ok == old(slot.value).None?
      ensures slot.value == if ok then Some(gathered) else old(slot.value)
    {
      ok := slot.Complete(gathered);
    }

    /** A ticker firing empties the list. */
    method OnTick()
      modifies this
      ensures gathered == []
    {
      gathered := [];
    }

    /**
     * The `select` loop over a finite trace of events, one event per
     * iteration, from the state the constructor leaves. `handled` events are
     * handled; the loop stops early only at a snapshot request whose slot was
     * completed before that request (before the run, or by an earlier request
     * of the same slot), where the assertion fails; that slot and every slot
     * not yet requested keep their values. Every request handled
     * before that holds the list as it was when the request was handled, so
     * later appends and clears do not reach a delivered snapshot.
     */
    method Run(trace: seq<Event>) returns (handled: nat)
      requires gathered == []
      modifies this, SlotsIn(trace)
      ensures handled <= |trace|
      ensures gathered == Gathered(trace[..handled])
      ensures forall j :: 0 <= j < handled && trace[j].SnapshotRequest? ==>
                trace[j].slot.value == Some(Gathered(trace[..j]))
      ensures forall j :: 0 <= j < handled && trace[j].SnapshotRequest? ==>
                old(trace[j].slot.value).None? && FirstRequest(trace, j)
      ensures handled < |trace| ==>
                && trace[handled].SnapshotRequest?
                && (old(trace[handled].slot.value).Some? || !FirstRequest(trace, handled))
      ensures forall j :: handled <= j < |trace| && trace[j].SnapshotRequest? && (forall k :: 0 <= k < handled ==> trace[k] != trace[j]) ==>
                trace[j].slot.value == old(trace[j].slot.value)
    {
      handled := 0;
      while handled < |trace|
        invariant handled <= |trace|
        invariant gathered == Gathered(trace[..handled])
        invariant Delivered(trace, handled)
        invariant forall j :: 0 <= j < handled && trace[j].SnapshotRequest? ==>
                    old(trace[j].slot.value).None? && FirstRequest(trace, j)
        invariant forall j :: handled <= j < |trace| && trace[j].SnapshotRequest? && (forall k :: 0 <= k < handled ==> trace[k] != trace[j]) ==>
                    trace[j].slot.value == old(trace[j].slot.value)
      {
        var e := trace[handled];
        PrefixStep(trace, handled);
        match e {
          case Content(x) =>
            OnContent(x);
          case SnapshotRequest(slot) =>
            if slot.value.None? {
              EmptySlotIsFirstRequest(trace, handled);
            }
            var ok := OnSnapshotRequest(slot);
            if !ok {
              return;
            }
          case Tick =>
            OnTick();
        }
        DeliveredStep(trace, handled);
        handled := handled + 1;
      }
    }
  }

  /** Every request among the first `n` events holds the list as it was at that request. */
  ghost predicate Delivered(trace: seq<Event>, n: nat)
    requires n <= |trace|
    reads RequestedSlots(trace, n)
  {
    forall j :: 0 <= j < n && trace[j].SnapshotRequest? ==>
      trace[j].slot.value == Some(Gathered(trace[..j]))
  }

  lemma DeliveredStep(trace: seq<Event>, n: nat)
    requires n < |trace| && Delivered(trace, n)
    requires trace[n].SnapshotRequest? ==> trace[n].slot.value == Some(Gathered(trace[..n]))
    ensures Delivered(trace, n + 1)
  {
  }
}
