/**
 * The `theCoroutine` actor behind the Java-callable scope: the same loop as
 * `accumulateAndSnapshot`, except that the answer of `complete` is ignored, so
 * a request whose slot is already completed leaves that slot with its first
 * value and the loop goes on.
 */
module JavaCallable {
  import opened Mailbox

  class SubmissionActor {
    /** `submissions`: the list the actor owns. */
    var submissions: seq<string>

    /** The actor starts with an empty list. */
    constructor ()
      ensures submissions == []
    {
      submissions := [];
    }

    /** A submission is appended at the end of the list. */
    method OnSubmission(x: string)
      modifies this
      ensures submissions == old(submissions) + [x]
    {
      submissions := submissions + [x];
    }

    /**
     * A snapshot request completes its slot with a copy of the list if the
     * slot is still empty; otherwise nothing changes and nothing fails.
     */
    method OnSnapshotRequest(slot: Slot)
      modifies slot
      ensures slot.value == if old(slot.value).None? then Some(submissions) else old(slot.value)
    {
      var _ := slot.Complete(submissions);
    }

    /** A ticker firing empties the list. */
    method OnTick()
      modifies this
      ensures submissions == []
    {
      submissions := [];
    }

    /**
     * The `select` loop over a finite trace of events, one event per
     * iteration, from the state the constructor leaves. Every event is
     * handled. Every requested slot ends up completed: a slot that was empty
     * before the run holds the list as it was at the slot's first request,
     * a slot completed before the run keeps its value.
     */
    method Run(trace: seq<Event>)
      requires submissions == []
      modifies this, SlotsIn(trace)
      ensures submissions == Gathered(trace)
      ensures forall j :: 0 <= j < |trace| && trace[j].SnapshotRequest? ==>
                trace[j].slot.value.Some?
      ensures forall j :: 0 <= j < |trace| && trace[j].SnapshotRequest? && old(trace[j].slot.value).None? && FirstRequest(trace, j) ==>
                trace[j].slot.value == Some(Gathered(trace[..j]))
      ensures forall j :: 0 <= j < |trace| && trace[j].SnapshotRequest? && old(trace[j].slot.value).Some? ==>
                trace[j].slot.value == old(trace[j].slot.value)
    {
      var i := 0;
      while i < |trace|
        invariant i <= |trace|
        invariant submissions == Gathered(trace[..i])
        invariant forall j :: 0 <= j < i && trace[j].SnapshotRequest? ==>
                    trace[j].slot.value.Some?
        invariant forall j :: 0 <= j < i && trace[j].SnapshotRequest? && old(trace[j].slot.value).None? && FirstRequest(trace, j) ==>
                    trace[j].slot.value == Some(Gathered(trace[..j]))
        invariant forall j :: 0 <= j < |trace| && trace[j].SnapshotRequest? && old(trace[j].slot.value).Some? ==>
                    trace[j].slot.value == old(trace[j].slot.value)
        invariant forall j :: i <= j < |trace| && trace[j].SnapshotRequest? && (forall k :: 0 <= k < i ==> trace[k] != trace[j]) ==>
                    trace[j].slot.value == old(trace[j].slot.value)
      {
        PrefixStep(trace, i);
        match trace[i] {
          case Content(x) =>
            OnSubmission(x);
          case SnapshotRequest(slot) =>
            OnSnapshotRequest(slot);
          case Tick =>
            OnTick();
        }
        i := i + 1;
      }
      assert trace[..i] == trace;
    }
  }
}
