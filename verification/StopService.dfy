/** The recording service's global slots, changed step by step, against the steps of StopFlow. */
module StopService {
  import opened Wrappers
  import opened Transcript
  import opened StopFlow
  import Journal

  class RecordingService {
    var manager: Journal.RecordingSaver?
    var pendingBuffer: seq<Segment>

    /** The slots hold what s says, with the stop flow holding `held`. */
    ghost predicate Shows(s: State, held: Journal.RecordingSaver?)
      reads this, manager, held
    {
      && (manager == null || held == null)
      && s.slot == (if manager == null then None else Some(manager.segments))
      && s.held == (if held == null then None else Some(held.segments))
      && s.pending == pendingBuffer
    }

    /** The subscriber: into the manager when it is in its slot, else into the pending buffer. */
    method OnTranscript(segment: Segment, ghost s: State, ghost held: Journal.RecordingSaver?)
      requires Shows(s, held) && Next(s, Publish(segment)).Some?
      modifies this, manager
      ensures manager == old(manager) && Shows(Next(s, Publish(segment)).value, held)
      ensures manager != null ==> manager.queue == old(manager.queue) + [segment]
    {
      if manager != null {
        manager.AddTranscriptSegment(segment);
      } else {
        pendingBuffer := pendingBuffer + [segment];
      }
    }

    method Take(ghost s: State, e: Event) returns (held: Journal.RecordingSaver?)
      requires Shows(s, null) && (e.TakeManager? || e.FinalTake?) && Next(s, e).Some?
      modifies this
      ensures held == old(manager) && manager == null && Shows(Next(s, e).value, held)
    {
      held := manager;
      manager := null;
    }

    /** Drains the pending buffer into the manager, in arrival order. */
    method ReplayBufferedSegments(held: Journal.RecordingSaver, ghost s: State)
      requires Shows(s, held) && Next(s, ReplayBuffered).Some?
      modifies this, held
      ensures manager == old(manager) && pendingBuffer == [] && Shows(Next(s, ReplayBuffered).value, held)
      ensures held.queue == old(held.queue) + old(pendingBuffer)
    {
      while pendingBuffer != []
        invariant manager == null
        invariant UpsertAll(held.segments, pendingBuffer) == UpsertAll(old(held.segments), old(pendingBuffer))
        invariant held.queue + pendingBuffer == old(held.queue) + old(pendingBuffer)
        decreases |pendingBuffer|
      {
        var segment := pendingBuffer[0];
        pendingBuffer := pendingBuffer[1..];
        held.AddTranscriptSegment(segment);
      }
    }

    method PutManagerBack(held: Journal.RecordingSaver, flushed: bool, ghost s: State)
      requires Shows(s, held) && Next(s, PutBack(flushed)).Some?
      modifies this
      ensures manager == held && Shows(Next(s, PutBack(flushed)).value, null)
    {
      manager := held;
    }
  }
}
