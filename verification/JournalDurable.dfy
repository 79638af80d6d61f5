/** What an append that succeeded is worth: its update outlives any crash. And a recording can always be
    brought to its end. */
module JournalDurable {
  import opened Wrappers
  import opened Transcript
  import opened Journal
  import opened JournalCrash

  lemma {:induction false} RunAppend(s: State, a: seq<Event>, b: seq<Event>)
    requires Run(s, a).Some?
    ensures Run(s, a + b) == Run(Run(s, a).value, b)
    decreases |a|
  {
    hide Next;
    if a == [] {
      assert a + b == b;
    } else {
      assert (a + b)[1..] == a[1..] + b;
      RunAppend(Next(s, a[0]).value, a[1..], b);
    }
  }

  lemma {:induction false} RunPrefix(s: State, a: seq<Event>, b: seq<Event>)
    requires Run(s, a + b).Some?
    ensures Run(s, a).Some?
    decreases |a|
  {
    hide Next;
    if a != [] {
      assert (a + b)[1..] == a[1..] + b;
      RunPrefix(Next(s, a[0]).value, a[1..], b);
    }
  }

  /** A run up to event k, that event, and the rest. */
  lemma SplitRun(s: State, events: seq<Event>, k: nat)
    requires k < |events| && Run(s, events).Some?
    ensures Run(s, events[..k]).Some?
    ensures var u := Run(s, events[..k]).value;
      Next(u, events[k]).Some? && Run(s, events) == Run(Next(u, events[k]).value, events[k + 1..])
  {
    hide Next;
    var (a, b) := (events[..k], events[k..]);
    assert events == a + b && b[0] == events[k] && b[1..] == events[k + 1..];
    RunPrefix(s, a, b);
    RunAppend(s, a, b);
  }

  // ----- Durability -----

  /** Nothing is at the journal's end that an appended line could run into. */
  predicate CleanEnd(j: JournalFile) {
    j.JournalFile? ==> j.tail.Clean?
  }

  predicate LineAt(j: JournalFile, i: nat, line: Line) {
    j.JournalFile? && i < |j.lines| && j.lines[i] == line
  }

  /** A successful append to a clean end adds exactly the update, as a line of its own. */
  lemma AppendAddsLine(s: State)
    requires Next(s, Receive(Appended)).Some? && CleanEnd(s.journal)
    ensures var j := Next(s, Receive(Appended)).value.journal;
      && j.JournalFile? && j.tail.Clean?
      && j.lines == (if s.journal.JournalFile? then s.journal.lines else []) + [Whole(s.history[s.taken], s.taken)]
  {
  }

  lemma StepKeepsLine(s: State, e: Event, i: nat, line: Line)
    requires Next(s, e).Some?
    requires LineAt(s.journal, i, line) || (s.journal.NoJournal? && s.writer.Saved?)
    ensures var t := Next(s, e).value; LineAt(t.journal, i, line) || (t.journal.NoJournal? && t.writer.Saved?)
  {
    hide Sort, Upsert, StoredAll;
  }

  /** Lines stay where they are until the journal goes, which only happens once all is saved. */
  lemma {:induction false} RunKeepsLine(s: State, events: seq<Event>, i: nat, line: Line)
    requires Run(s, events).Some?
    requires LineAt(s.journal, i, line) || (s.journal.NoJournal? && s.writer.Saved?)
    ensures var t := Run(s, events).value; LineAt(t.journal, i, line) || (t.journal.NoJournal? && t.writer.Saved?)
    decreases |events|
  {
    hide LineAt, Next;
    if events != [] {
      StepKeepsLine(s, events[0], i, line);
      RunKeepsLine(Next(s, events[0]).value, events[1..], i, line);
    }
  }

  /** Event k of a run appends an update to a clean journal: whatever happens then and wherever the
      program crashes, a load has that update's segment at this version or a newer one, unless an append
      breaks off inside a character. */
  lemma AppendedIsRecovered(events: seq<Event>, k: nat)
    requires Run(INITIAL, events).Some? && !BreaksCharacter(events)
    requires k < |events| && events[k] == Receive(Appended)
    ensures Run(INITIAL, events[..k]).Some?
    ensures var (u, s) := (Run(INITIAL, events[..k]).value, Run(INITIAL, events).value);
      CleanEnd(u.journal) ==>
        && u.taken < |s.history| && u.taken < |u.history| && s.history[u.taken] == u.history[u.taken]
        && Load(s.json, s.journal).Success? && Recovered(Load(s.json, s.journal).value, s.history, u.taken)
  {
    SplitRun(INITIAL, events, k);
    var (u, s) := (Run(INITIAL, events[..k]).value, Run(INITIAL, events).value);
    if CleanEnd(u.journal) {
      AppendAddsLine(u);
      var t := Next(u, events[k]).value;
      var (i, line) := (|t.journal.lines| - 1, Whole(u.history[u.taken], u.taken));
      assert LineAt(t.journal, i, line) && u.taken < |u.history| && t.history == u.history;
      hide Run, Next, Inv, Load, Recovered, BreaksCharacter, CleanEnd;
      RunKeepsLine(t, events[k + 1..], i, line);
      RunGrows(t, events[k + 1..]);
      if s.journal.JournalFile? {
        LinesFirst(s.journal, i);
        EveryRunCrashSafe(events, i);
      } else {
        SavedRecovers(events, u.taken);
      }
    }
  }

  lemma LinesFirst(j: JournalFile, i: nat)
    requires j.JournalFile? && i < |j.lines|
    ensures i < |AllLines(j)| && AllLines(j)[i] == j.lines[i]
  {
  }

  lemma {:induction false} RunGrows(s: State, events: seq<Event>)
    requires Run(s, events).Some?
    ensures s.history <= Run(s, events).value.history
    decreases |events|
  {
    if events != [] {
      RunGrows(Next(s, events[0]).value, events[1..]);
    }
  }

  lemma SavedRecovers(events: seq<Event>, at: nat)
    requires Run(INITIAL, events).Some? && Run(INITIAL, events).value.writer.Saved?
    requires Run(INITIAL, events).value.journal.NoJournal? && at < |Run(INITIAL, events).value.history|
    ensures var s := Run(INITIAL, events).value;
      Load(s.json, s.journal).Success? && Recovered(Load(s.json, s.journal).value, s.history, at)
  {
    EveryRunFinal(events);
    RunKeepsInv(INITIAL, events);
    var s := Run(INITIAL, events).value;
    assert s.history[..|s.history|] == s.history;
    FromJson(s.history, |s.history|, at);
    hide Run, Load, Sort, UpsertAll, StoredAll, Recovered;
  }

  // ----- Progress -----

  /** What is to be done next to bring a recording to its end. */
  function ToDo(s: State): Event {
    match s.writer
    case Rebuilding => Snapshot
    case Writing(_, _) => WriteJson(true)
    case Waiting =>
      if s.handover then Enqueue else if s.taken < s.queued then Receive(Appended) else Close
    case Stopped => FinalWrite(true)
    case Saved => RemoveJournal(true)
  }

  function Stage(w: Writer): nat {
    match w
    case Rebuilding => 4
    case Writing(_, _) => 3
    case Waiting => 2
    case Stopped => 1
    case Saved => 0
  }

  function Remaining(s: State): nat
    requires s.taken <= |s.history|
  {
    2 * (|s.history| - s.taken) + (if s.handover then 1 else 0) + Stage(s.writer)
  }

  lemma ToDoWorks(s: State)
    requires Inv(s)
    ensures Next(s, ToDo(s)).Some? && s.taken <= |s.history|
    ensures var t := Next(s, ToDo(s)).value;
      if s.writer.Saved? then t.writer.Saved? && t.journal.NoJournal?
      else t.taken <= |t.history| && t.history == s.history && Remaining(t) < Remaining(s)
  {
    hide Sort, UpsertAll, StoredAll, LinesFrom, InOrder, AllLines;
  }

  lemma {:induction false} CanFinish(s: State) returns (more: seq<Event>)
    requires Inv(s) && s.taken <= |s.history|
    ensures Run(s, more).Some?
    ensures var t := Run(s, more).value; t.writer.Saved? && t.journal.NoJournal? && t.history == s.history
    decreases Remaining(s)
  {
    ToDoWorks(s);
    var (e, t) := (ToDo(s), Next(s, ToDo(s)).value);
    if s.writer.Saved? {
      more := [e];
      assert [e][1..] == [];
    } else {
      StepKeepsInv(s, e);
      hide Inv, Next, Remaining;
      var rest := CanFinish(t);
      more := [e] + rest;
      assert more[1..] == rest;
    }
  }

  /** From every state a run reaches the recording can be stopped, and then transcripts.json alone holds
      the whole transcript, sorted. */
  lemma EveryRunCanFinish(events: seq<Event>) returns (more: seq<Event>)
    requires Run(INITIAL, events).Some?
    ensures Run(INITIAL, events + more).Some?
    ensures var (s, t) := (Run(INITIAL, events).value, Run(INITIAL, events + more).value);
      && t.writer.Saved? && t.journal.NoJournal? && t.history == s.history
      && Load(t.json, t.journal) == Success(StoredAll(Sort(UpsertAll([], s.history))))
  {
    RunKeepsInv(INITIAL, events);
    more := CanFinish(Run(INITIAL, events).value);
    RunAppend(INITIAL, events, more);
    EveryRunFinal(events + more);
    RunKeepsInv(INITIAL, events + more);
  }

  // ----- Rebuilds -----

  lemma {:induction false} NoAppendNoRebuild(s: State, events: seq<Event>)
    requires Run(s, events).Some? && (s.writer.Waiting? ==> !s.dirty)
    requires forall k :: 0 <= k < |events| ==> !events[k].Receive?
    ensures TimerFires !in events
    decreases |events|
  {
    if events != [] {
      var t := Next(s, events[0]).value;
      assert !events[0].Receive? && (t.writer.Waiting? ==> !t.dirty) && events[0] != TimerFires;
      hide Next;
      assert forall k :: 0 <= k < |events[1..]| ==> events[1..][k] == events[k + 1];
      NoAppendNoRebuild(t, events[1..]);
      assert events == [events[0]] + events[1..];
    }
  }

  /** transcripts.json is rebuilt again only after the writer has taken another update, whatever became
      of the rebuild before. */
  lemma RebuildsApart(events: seq<Event>, i: nat, j: nat) returns (k: nat)
    requires Run(INITIAL, events).Some? && i < j < |events| && events[i] == TimerFires && events[j] == TimerFires
    ensures i < k < j && events[k].Receive?
  {
    SplitRun(INITIAL, events, i);
    var s := Next(Run(INITIAL, events[..i]).value, events[i]).value;
    var between := events[i + 1..j + 1];
    assert s.writer.Rebuilding?;
    assert events[i + 1..] == between + events[j + 1..];
    RunPrefix(s, between, events[j + 1..]);
    assert between[j - i - 1] == TimerFires;
    if p :| 0 <= p < |between| && between[p].Receive? {
      k := i + 1 + p;
    } else {
      NoAppendNoRebuild(s, between);
    }
  }
}
