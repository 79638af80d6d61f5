/** Stopping a recording: the manager leaves its slot for the force-flush, comes back for the drain, and
    leaves again for the final save, while the transcription worker keeps publishing segments. */
module StopFlow {
  import opened Wrappers
  import opened Transcript

  datatype Phase = Running | Taken | Replayed | Back | Unsubscribed | Finished

  /** `slot` and `held` are the manager's segments, wherever the manager is. The rest is history:
      `applied` is the order in which segments reached a manager, `leftover` what an earlier session
      left in the pending buffer. */
  datatype State = State(
    phase: Phase,
    slot: Option<seq<Segment>>,
    held: Option<seq<Segment>>,
    pending: seq<Segment>,
    published: seq<Segment>,
    applied: seq<Segment>,
    leftover: seq<Segment>)

  datatype Event =
    | Publish(segment: Segment)
    | TakeManager
    | ReplayBuffered
    | PutBack(flushed: bool)
    | Unsubscribe
    | FinalTake

  function Begin(leftover: seq<Segment>): State {
    State(Running, Some([]), None, leftover, [], [], leftover)
  }

  /** One atomic step: each runs under the locks it needs. A failed flush ends the stop early, with the
      manager back in its slot and the subscriber still there. */
  function Next(s: State, e: Event): Option<State> {
    match e
    case Publish(segment) =>
      if s.phase.Unsubscribed? || s.phase.Finished? then None
      else if s.slot.Some? then
        Some(s.(slot := Some(Upsert(s.slot.value, segment)), published := s.published + [segment],
                applied := s.applied + [segment]))
      else Some(s.(pending := s.pending + [segment], published := s.published + [segment]))
    case TakeManager =>
      if !s.phase.Running? then None else Some(s.(phase := Taken, held := s.slot, slot := None))
    case ReplayBuffered =>
      if !s.phase.Taken? || s.held.None? then None
      else Some(s.(phase := Replayed, held := Some(UpsertAll(s.held.value, s.pending)),
                   applied := s.applied + s.pending, pending := []))
    case PutBack(flushed) =>
      if !s.phase.Replayed? then None
      else Some(s.(phase := if flushed then Back else Running, slot := s.held, held := None))
    case Unsubscribe =>
      if !s.phase.Back? then None else Some(s.(phase := Unsubscribed))
    case FinalTake =>
      if !s.phase.Unsubscribed? then None else Some(s.(phase := Finished, held := s.slot, slot := None))
  }

  function Run(s: State, events: seq<Event>): Option<State>
    decreases |events|
  {
    if events == [] then Some(s)
    else match Next(s, events[0])
      case None => None
      case Some(t) => Run(t, events[1..])
  }

  /** The manager's segments: there is always exactly one manager. */
  function Manager(s: State): seq<Segment> {
    if s.slot.Some? then s.slot.value else if s.held.Some? then s.held.value else []
  }

  // ----- Conservation -----

  ghost predicate Inv(s: State) {
    && (s.slot.Some? <==> s.held.None?)
    && (s.slot.Some? <==> s.phase.Running? || s.phase.Back? || s.phase.Unsubscribed?)
    && Manager(s) == UpsertAll([], s.applied)
    && multiset(s.applied) + multiset(s.pending) == multiset(s.leftover) + multiset(s.published)
  }

  lemma {:induction false} UpsertAllAppend(segments: seq<Segment>, a: seq<Segment>, b: seq<Segment>)
    ensures UpsertAll(segments, a + b) == UpsertAll(UpsertAll(segments, a), b)
    decreases |a|
  {
    if a == [] {
      assert a + b == b;
    } else {
      assert (a + b)[1..] == a[1..] + b;
      UpsertAllAppend(Upsert(segments, a[0]), a[1..], b);
    }
  }

  lemma UpsertAllOne(segments: seq<Segment>, s: Segment)
    ensures UpsertAll(segments, [s]) == Upsert(segments, s)
  {
    assert [s][1..] == [];
    assert UpsertAll(segments, [s]) == UpsertAll(Upsert(segments, s), []);
  }

  lemma PublishKeepsInv(s: State, segment: Segment)
    requires Inv(s) && Next(s, Publish(segment)).Some?
    ensures Inv(Next(s, Publish(segment)).value)
  {
    UpsertAllAppend([], s.applied, [segment]);
    UpsertAllOne(Manager(s), segment);
    assert multiset(s.published + [segment]) == multiset(s.published) + multiset{segment};
    assert multiset(s.applied + [segment]) == multiset(s.applied) + multiset{segment};
    assert multiset(s.pending + [segment]) == multiset(s.pending) + multiset{segment};
    OneMore(multiset(s.applied), multiset(s.pending), multiset(s.leftover), multiset(s.published), segment);
  }

  lemma OneMore(a: multiset<Segment>, b: multiset<Segment>, c: multiset<Segment>, d: multiset<Segment>, x: Segment)
    requires a + b == c + d
    ensures (a + multiset{x}) + b == c + (d + multiset{x})
    ensures a + (b + multiset{x}) == c + (d + multiset{x})
  {
    assert (a + multiset{x}) + b == (a + b) + multiset{x} == a + (b + multiset{x});
    assert c + (d + multiset{x}) == (c + d) + multiset{x};
  }

  lemma StepKeepsInv(s: State, e: Event)
    requires Inv(s) && Next(s, e).Some?
    ensures Inv(Next(s, e).value)
  {
    match e
    case Publish(segment) => PublishKeepsInv(s, segment);
    case ReplayBuffered => UpsertAllAppend([], s.applied, s.pending);
    case _ =>
  }

  lemma {:induction false} RunKeepsInv(s: State, events: seq<Event>)
    requires Inv(s) && Run(s, events).Some?
    ensures Inv(Run(s, events).value) && Run(s, events).value.leftover == s.leftover
    decreases |events|
  {
    if events != [] {
      StepKeepsInv(s, events[0]);
      RunKeepsInv(Next(s, events[0]).value, events[1..]);
    }
  }

  /** At every moment of every interleaving, whatever an earlier session left behind, a published segment
      is in the pending buffer or the manager has an entry of its id. */
  lemma EverySegmentKept(leftover: seq<Segment>, events: seq<Event>, x: Segment)
    requires Run(Begin(leftover), events).Some? && x in Run(Begin(leftover), events).value.published
    ensures var s := Run(Begin(leftover), events).value;
      x in s.pending || exists i :: 0 <= i < |Manager(s)| && Manager(s)[i].sequenceId == x.sequenceId
  {
    BeginInv(leftover);
    RunKeepsInv(Begin(leftover), events);
    var s := Run(Begin(leftover), events).value;
    assert x in multiset(s.leftover) + multiset(s.published);
    if x !in s.pending {
      assert x in multiset(s.applied);
      UpsertAllHolds(s.applied);
      InLatest(s.applied, x);
    }
  }

  lemma BeginInv(leftover: seq<Segment>)
    ensures Inv(Begin(leftover))
  {
  }

  lemma {:induction false} InLatest(updates: seq<Segment>, x: Segment)
    requires x in updates
    ensures x.sequenceId in Latest(updates)
    decreases |updates|
  {
    var n := |updates| - 1;
    if x != updates[n] {
      assert updates == updates[..n] + [updates[n]];
      InLatest(updates[..n], x);
    }
  }

  // ----- When nothing is published between replay and put-back -----

  /** No publish falls into the gap. */
  predicate GapQuiet(s: State, events: seq<Event>)
    decreases |events|
  {
    events != [] && Next(s, events[0]).Some? ==>
      !(s.phase.Replayed? && events[0].Publish?) && GapQuiet(Next(s, events[0]).value, events[1..])
  }

  /** Segments reach the manager in the order they were published, and wait only while it is out. */
  ghost predicate Orderly(s: State) {
    s.applied + s.pending == s.published && (s.phase.Taken? || s.pending == [])
  }

  lemma QuietStepOrderly(s: State, e: Event)
    requires Inv(s) && Orderly(s) && Next(s, e).Some? && !(s.phase.Replayed? && e.Publish?)
    ensures Orderly(Next(s, e).value)
  {
    if e.Publish? {
      assert s.applied + (s.pending + [e.segment]) == s.applied + s.pending + [e.segment];
      assert s.pending == [] ==> s.applied + [e.segment] + s.pending == s.applied + s.pending + [e.segment];
    } else if e.ReplayBuffered? {
      assert s.applied + s.pending + [] == s.applied + s.pending;
    }
  }

  lemma {:induction false} QuietRunOrderly(s: State, events: seq<Event>)
    requires Inv(s) && Orderly(s) && GapQuiet(s, events) && Run(s, events).Some?
    ensures Orderly(Run(s, events).value)
    decreases |events|
  {
    hide Inv, Orderly, Next;
    if events != [] {
      StepKeepsInv(s, events[0]);
      QuietStepOrderly(s, events[0]);
      QuietRunOrderly(Next(s, events[0]).value, events[1..]);
    }
  }

  /** The final save then holds the last version of every published segment, in arrival order. */
  lemma QuietStopSavesAll(events: seq<Event>)
    requires Run(Begin([]), events).Some? && Run(Begin([]), events).value.phase.Finished?
    requires GapQuiet(Begin([]), events)
    ensures var s := Run(Begin([]), events).value;
      s.held == Some(UpsertAll([], s.published)) && s.pending == []
  {
    BeginInv([]);
    RunKeepsInv(Begin([]), events);
    QuietRunOrderly(Begin([]), events);
    var s := Run(Begin([]), events).value;
    assert s.applied + [] == s.applied;
  }

  // ----- What is lost otherwise, exactly -----

  lemma {:induction false} DistinctUpserts(segments: seq<Segment>, updates: seq<Segment>)
    requires Distinct(segments + updates)
    ensures UpsertAll(segments, updates) == segments + updates
    decreases |updates|
  {
    if updates == [] {
      assert segments + updates == segments;
    } else {
      assert forall i :: 0 <= i < |segments| ==> segments[i] == (segments + updates)[i];
      assert (segments + updates)[|segments|] == updates[0];
      FreshUpsert(segments, updates[0]);
      assert segments + [updates[0]] + updates[1..] == segments + updates;
      DistinctUpserts(segments + [updates[0]], updates[1..]);
    }
  }

  lemma {:induction false} FreshUpsert(segments: seq<Segment>, s: Segment)
    requires forall i :: 0 <= i < |segments| ==> segments[i].sequenceId != s.sequenceId
    ensures Upsert(segments, s) == segments + [s]
    decreases |segments|
  {
    if segments != [] {
      FreshUpsert(segments[1..], s);
      assert segments + [s] == [segments[0]] + (segments[1..] + [s]);
    }
  }

  lemma DistinctParts(published: seq<Segment>, applied: seq<Segment>, pending: seq<Segment>)
    requires multiset(applied) + multiset(pending) == multiset(published) && Distinct(published)
    ensures UpsertAll([], applied) == applied
    ensures forall x :: x in applied <==> x in published && x !in pending
  {
    hide UpsertAll, Upsert;
    var all := applied + pending;
    PermutationDistinct(published, all);
    assert forall i :: 0 <= i < |applied| ==> applied[i] == all[i];
    assert [] + applied == applied;
    DistinctUpserts([], applied);
    forall x
      ensures x in applied <==> x in published && x !in pending
    {
      DistinctOnce(all, x);
      assert x in published <==> x in multiset(published);
      assert x in applied <==> x in multiset(applied);
      assert x in pending <==> x in multiset(pending);
    }
  }

  /** With every segment published once, the final save lacks exactly what is still in the pending
      buffer: nothing is lost if and only if that buffer is empty. StopOrder says when that is, and what
      becomes of a segment that is published again. */
  lemma LostIsPending(events: seq<Event>)
    requires Run(Begin([]), events).Some?
    requires var s := Run(Begin([]), events).value; s.phase.Finished? && Distinct(s.published)
    ensures var s := Run(Begin([]), events).value;
      && s.held.Some?
      && (forall x :: x in s.held.value <==> x in s.published && x !in s.pending)
      && (s.pending == [] <==> forall x :: x in s.published ==> x in s.held.value)
  {
    BeginInv([]);
    RunKeepsInv(Begin([]), events);
    hide Run, Next, UpsertAll;
    var s := Run(Begin([]), events).value;
    DistinctParts(s.published, s.applied, s.pending);
    if s.pending != [] {
      assert s.pending[0] in multiset(s.applied) + multiset(s.pending);
      assert s.pending[0] in multiset(s.published);
      assert s.pending[0] in s.published && s.pending[0] in s.pending;
    }
  }

  /** One plain stop: what was published before, during the flush, in the gap, and after. */
  function PlainStop(before: seq<Segment>, during: seq<Segment>, gap: seq<Segment>, after: seq<Segment>): seq<Event> {
    Publishes(before) + [TakeManager] + Publishes(during) + [ReplayBuffered] + Publishes(gap) + [PutBack(true)]
    + Publishes(after) + [Unsubscribe, FinalTake]
  }

  function Publishes(segments: seq<Segment>): (events: seq<Event>)
    ensures |events| == |segments|
  {
    if segments == [] then [] else [Publish(segments[0])] + Publishes(segments[1..])
  }

  lemma {:induction false} RunSplits(s: State, a: seq<Event>, b: seq<Event>)
    requires Run(s, a).Some?
    ensures Run(s, a + b) == Run(Run(s, a).value, b)
    decreases |a|
  {
    if a == [] {
      assert a + b == b;
    } else {
      assert (a + b)[1..] == a[1..] + b;
      RunSplits(Next(s, a[0]).value, a[1..], b);
    }
  }

  /** The state after publishing all of them with no other step between. */
  function Publishing(s: State, segments: seq<Segment>): State {
    if s.slot.Some?
    then s.(slot := Some(UpsertAll(s.slot.value, segments)), published := s.published + segments,
            applied := s.applied + segments)
    else s.(pending := s.pending + segments, published := s.published + segments)
  }

  lemma PublishingSplits(s: State, x: Segment, rest: seq<Segment>)
    requires !s.phase.Unsubscribed? && !s.phase.Finished?
    ensures Next(s, Publish(x)).Some?
    ensures Publishing(Next(s, Publish(x)).value, rest) == Publishing(s, [x] + rest)
  {
    assert ([x] + rest)[1..] == rest;
    assert s.published + [x] + rest == s.published + ([x] + rest);
    assert s.applied + [x] + rest == s.applied + ([x] + rest);
    assert s.pending + [x] + rest == s.pending + ([x] + rest);
  }

  lemma {:induction false} RunPublishes(s: State, segments: seq<Segment>)
    requires !s.phase.Unsubscribed? && !s.phase.Finished?
    ensures Run(s, Publishes(segments)) == Some(Publishing(s, segments))
    decreases |segments|
  {
    if segments == [] {
      assert s.published + segments == s.published && s.applied + segments == s.applied;
      assert s.pending + segments == s.pending;
    } else {
      var (x, rest) := (segments[0], segments[1..]);
      assert Publishes(segments)[1..] == Publishes(rest);
      PublishingSplits(s, x, rest);
      assert segments == [x] + rest;
      hide Publishing;
      RunPublishes(Next(s, Publish(x)).value, rest);
    }
  }

  /** What a plain stop saves and what it leaves behind, whatever is published when: the gap's segments
      stay in the pending buffer, and an earlier session's leftovers join this one's transcript. */
  lemma PlainStopOutcome(leftover: seq<Segment>, before: seq<Segment>, during: seq<Segment>, gap: seq<Segment>,
                         after: seq<Segment>)
    ensures var r := Run(Begin(leftover), PlainStop(before, during, gap, after));
      && r.Some? && r.value.phase.Finished?
      && r.value.published == before + during + gap + after
      && r.value.held == Some(UpsertAll([], before + (leftover + during) + after))
      && r.value.pending == gap
  {
    hide Run, UpsertAll, Upsert;
    var s0 := Begin(leftover);
    RunPublishes(s0, before);
    var s1 := Publishing(s0, before);
    var t1 := Next(s1, TakeManager).value;
    RunPublishes(t1, during);
    var s2 := Publishing(t1, during);
    var t2 := Next(s2, ReplayBuffered).value;
    RunPublishes(t2, gap);
    var s3 := Publishing(t2, gap);
    var t3 := Next(s3, PutBack(true)).value;
    RunPublishes(t3, after);
    var s4 := Publishing(t3, after);
    var t4 := Next(Next(s4, Unsubscribe).value, FinalTake).value;
    RunSequence(s0, s1, t1, s2, t2, s3, t3, s4, t4,
                Publishes(before), Publishes(during), Publishes(gap), Publishes(after));
    UpsertAllAppend([], before, leftover + during);
    UpsertAllAppend([], before + (leftover + during), after);
    assert [] + before == before && [] + gap == gap;
  }

  lemma RunSequence(s0: State, s1: State, t1: State, s2: State, t2: State, s3: State, t3: State, s4: State, t4: State,
                    a: seq<Event>, b: seq<Event>, c: seq<Event>, d: seq<Event>)
    requires Run(s0, a) == Some(s1) && Next(s1, TakeManager) == Some(t1)
    requires Run(t1, b) == Some(s2) && Next(s2, ReplayBuffered) == Some(t2)
    requires Run(t2, c) == Some(s3) && Next(s3, PutBack(true)) == Some(t3)
    requires Run(t3, d) == Some(s4) && Next(s4, Unsubscribe).Some?
    requires Next(Next(s4, Unsubscribe).value, FinalTake) == Some(t4)
    ensures Run(s0, a + [TakeManager] + b + [ReplayBuffered] + c + [PutBack(true)] + d + [Unsubscribe, FinalTake])
         == Some(t4)
  {
    hide Next;
    RunThen(s0, a, s1, TakeManager, t1);
    RunOn(s0, a + [TakeManager], t1, b, s2);
    RunThen(s0, a + [TakeManager] + b, s2, ReplayBuffered, t2);
    RunOn(s0, a + [TakeManager] + b + [ReplayBuffered], t2, c, s3);
    var most := a + [TakeManager] + b + [ReplayBuffered] + c;
    RunThen(s0, most, s3, PutBack(true), t3);
    RunOn(s0, most + [PutBack(true)], t3, d, s4);
    RunThen(s0, most + [PutBack(true)] + d, s4, Unsubscribe, Next(s4, Unsubscribe).value);
    RunThen(s0, most + [PutBack(true)] + d + [Unsubscribe], Next(s4, Unsubscribe).value, FinalTake, t4);
    assert most + [PutBack(true)] + d + [Unsubscribe] + [FinalTake]
        == most + [PutBack(true)] + d + [Unsubscribe, FinalTake];
  }

  lemma RunThen(s: State, a: seq<Event>, t: State, e: Event, u: State)
    requires Run(s, a) == Some(t) && Next(t, e) == Some(u)
    ensures Run(s, a + [e]) == Some(u)
  {
    RunSplits(s, a, [e]);
    assert [e][1..] == [];
    assert Run(t, [e]) == Run(u, []);
  }

  lemma RunOn(s: State, a: seq<Event>, t: State, b: seq<Event>, u: State)
    requires Run(s, a) == Some(t) && Run(t, b) == Some(u)
    ensures Run(s, a + b) == Some(u)
  {
    RunSplits(s, a, b);
  }
}
