/** The transcript on disk while a recording runs: one producer, the journal writer task, and the
    files a crash may leave at any moment. */
module JournalCrash {
  import opened Wrappers
  import opened Transcript
  import opened Journal

  // ----- Files -----

  /** How the journal currently ends: cleanly, in a fragment, which may break off inside a UTF-8
      character, or in a whole segment whose newline is missing. The next append continues that line. */
  datatype Tail = Clean | Fragment(decodable: bool) | Unterminated(segment: Segment, at: nat)

  datatype JournalFile = NoJournal | JournalFile(lines: seq<Line>, tail: Tail, time: nat)

  /** `upTo` tells how many of the published updates the written vector contained. No step writes a file
      that does not parse, but a reader may be handed one. */
  datatype JsonFile = NoJson | Corrupt(time: nat) | JsonFile(segments: seq<Segment>, upTo: nat, time: nat)

  function AllLines(j: JournalFile): seq<Line> {
    if j.NoJournal? then []
    else j.lines + match j.tail
                   case Clean => []
                   case Fragment(decodable) => [Malformed(decodable)]
                   case Unterminated(s, at) => [Whole(s, at)]
  }

  /** A segment as transcripts.json stores it. */
  function Stored(s: Segment, index: nat): Segment {
    s.(source := None, sequenceId := Some(if s.sequenceId.Some? then s.sequenceId.value else index))
  }

  function StoredAll(segments: seq<Segment>): (r: seq<Segment>)
    ensures |r| == |segments| && forall i :: 0 <= i < |r| ==> r[i] == Stored(segments[i], i)
  {
    seq(|segments|, i requires 0 <= i < |segments| => Stored(segments[i], i))
  }

  datatype LoadError = CorruptJson | UnreadableJournal

  function Replayed(journal: JournalFile): seq<Segment> {
    Sort(UpsertAll([], Parsed(AllLines(journal))))
  }

  /** The reader's guard: the journal counts as the fresher file. */
  predicate TakesJournal(json: JsonFile, journal: JournalFile) {
    && journal.JournalFile?
    && (json.JsonFile? ==> journal.time > json.time || |Replayed(journal)| > |json.segments|)
  }

  /** Everything a reader decides from: the two files. */
  function Load(json: JsonFile, journal: JournalFile): Result<seq<Segment>, LoadError> {
    if json.Corrupt? then Failure(CorruptJson)
    else if !Readable(AllLines(journal)) then Failure(UnreadableJournal)
    else if TakesJournal(json, journal) then Success(Replayed(journal))
    else Success(if json.JsonFile? then json.segments else [])
  }

  /** The reader as the program runs it: parse transcripts.json, replay the journal's hash map, then ask
      which file is fresher. */
  method LoadTranscripts(json: JsonFile, journal: JournalFile) returns (r: Result<seq<Segment>, LoadError>)
    ensures r.Failure? <==> json.Corrupt? || !Readable(AllLines(journal))
    ensures OneUnnumbered(Parsed(AllLines(journal))) && TiesApart(Parsed(AllLines(journal))) ==>
      r == Load(json, journal)
    ensures var byKey := ByKey(Parsed(AllLines(journal)));
      var stored := if json.JsonFile? then json.segments else [];
      r.Success? ==>
        if journal.JournalFile? && (json.NoJson? || journal.time > json.time || |byKey| > |stored|)
        then (forall s :: s in r.value <==> s in byKey.Values) && |r.value| == |byKey| && Chronological(r.value)
        else r.value == stored
  {
    if json.Corrupt? {
      return Failure(CorruptJson);
    }
    var jsonSegments := if json.JsonFile? then json.segments else [];
    if journal.NoJournal? {
      return Success(jsonSegments);
    }
    var replay := ReplayJournal(AllLines(journal));
    if replay.Failure? {
      return Failure(UnreadableJournal);
    }
    var journalSegments := replay.value;
    var journalIsFresher := json.NoJson? || journal.time > json.time || |journalSegments| > |jsonSegments|;
    return Success(if journalIsFresher then journalSegments else jsonSegments);
  }

  // ----- The running system -----

  datatype Writer =
    | Waiting
    | Rebuilding
    | Writing(snapshot: seq<Segment>, upTo: nat)
    | Stopped
    | Saved

  datatype State = State(
    history: seq<Segment>,      // every update published, in order
    memory: seq<Segment>,       // the upserted vector
    handover: bool,             // the newest update is upserted but not yet queued
    queued: nat,                // updates sent to the writer
    taken: nat,                 // updates the writer has received
    writer: Writer,
    dirty: bool,
    journal: JournalFile,
    json: JsonFile,
    clock: nat)

  const INITIAL := State([], [], false, 0, 0, Waiting, false, NoJournal, NoJson, 0)

  /** How much of a line a failed append still wrote. */
  datatype Torn = Nothing | Part(decodable: bool) | AllButNewline

  datatype Append = Appended | NotOpened | TornAfter(written: Torn)

  datatype Event =
    | Publish(segment: Segment)
    | Enqueue
    | Receive(outcome: Append)
    | TimerFires
    | Snapshot
    | WriteJson(ok: bool)
    | Close
    | FinalWrite(ok: bool)
    | RemoveJournal(ok: bool)

  /** Bytes after a broken character do not mend it. */
  predicate Decodable(tail: Tail) {
    tail.Fragment? ==> tail.decodable
  }

  /** The journal after an append of a segment. Bytes always go behind what is there; opening alone
      creates the file but changes nothing in one that exists. */
  function AfterAppend(j: JournalFile, segment: Segment, at: nat, outcome: Append, time: nat): JournalFile {
    var lines := if j.NoJournal? then [] else j.lines;
    var tail := if j.NoJournal? then Clean else j.tail;
    match outcome
    case NotOpened => j
    case Appended =>
      JournalFile(lines + [if tail.Clean? then Whole(segment, at) else Malformed(Decodable(tail))], Clean, time)
    case TornAfter(written) =>
      if written.Nothing? then (if j.NoJournal? then JournalFile([], Clean, time) else j)
      else if tail.Clean? && written.AllButNewline? then JournalFile(lines, Unterminated(segment, at), time)
      else JournalFile(lines, Fragment(Decodable(tail) && (written.Part? ==> written.decodable)), time)
  }

  /** One step, if the event can happen. */
  function Next(s: State, e: Event): Option<State> {
    match e
    case Publish(segment) =>
      if s.handover || s.writer.Stopped? || s.writer.Saved? || segment.sequenceId.None? then None
      else Some(s.(history := s.history + [segment], memory := Upsert(s.memory, segment), handover := true))
    case Enqueue =>
      if !s.handover then None else Some(s.(handover := false, queued := s.queued + 1))
    case Receive(outcome) =>
      if !s.writer.Waiting? || s.taken >= s.queued || s.taken >= |s.history| then None
      else Some(s.(taken := s.taken + 1, dirty := true, clock := s.clock + 1,
                   journal := AfterAppend(s.journal, s.history[s.taken], s.taken, outcome, s.clock + 1)))
    case TimerFires =>
      if !s.writer.Waiting? || !s.dirty || s.taken < s.queued then None else Some(s.(writer := Rebuilding))
    case Snapshot =>
      if !s.writer.Rebuilding? then None else Some(s.(writer := Writing(Sort(s.memory), |s.history|)))
    case WriteJson(ok) =>
      if !s.writer.Writing? then None
      else Some(s.(writer := Waiting, dirty := false, clock := s.clock + 1,
                   json := if ok then JsonFile(StoredAll(s.writer.snapshot), s.writer.upTo, s.clock + 1) else s.json))
    case Close =>
      if !s.writer.Waiting? || s.handover || s.taken < s.queued then None else Some(s.(writer := Stopped))
    case FinalWrite(ok) =>
      if !s.writer.Stopped? then None
      else if !ok then Some(s)
      else Some(s.(writer := Saved, clock := s.clock + 1,
                   json := JsonFile(StoredAll(Sort(s.memory)), |s.history|, s.clock + 1)))
    case RemoveJournal(ok) =>
      if !s.writer.Saved? then None else Some(if ok then s.(journal := NoJournal) else s)
  }

  function Run(s: State, events: seq<Event>): Option<State>
    decreases |events|
  {
    if events == [] then Some(s)
    else match Next(s, events[0])
      case None => None
      case Some(t) => Run(t, events[1..])
  }

  // ----- What every step keeps -----

  /** Every parsed line is the published update it claims to be, older than n. */
  ghost predicate LinesFrom(lines: seq<Line>, history: seq<Segment>, n: nat) {
    forall i :: 0 <= i < |lines| && lines[i].Whole? ==>
      lines[i].at < n && lines[i].at < |history| && lines[i].segment == history[lines[i].at]
  }

  /** Lines further down are newer. */
  ghost predicate InOrder(lines: seq<Line>) {
    forall i, j :: 0 <= i < j < |lines| && lines[i].Whole? && lines[j].Whole? ==> lines[i].at < lines[j].at
  }

  ghost predicate JsonIs(json: JsonFile, history: seq<Segment>, now: nat) {
    && !json.Corrupt?
    && (json.JsonFile? ==>
          && json.time <= now && json.upTo <= |history|
          && json.segments == StoredAll(Sort(UpsertAll([], history[..json.upTo]))))
  }

  ghost predicate Inv(s: State) {
    && Numbered(s.history) && s.memory == UpsertAll([], s.history)
    && s.queued + (if s.handover then 1 else 0) == |s.history| && s.taken <= s.queued
    && LinesFrom(AllLines(s.journal), s.history, s.taken) && InOrder(AllLines(s.journal))
    && (s.journal.JournalFile? ==> s.journal.time <= s.clock)
    && JsonIs(s.json, s.history, s.clock)
    && (s.json.JsonFile? && s.journal.JournalFile? ==> s.json.time != s.journal.time)
    && (s.json.JsonFile? && s.journal.JournalFile? && s.json.time > s.journal.time ==>
          LinesFrom(AllLines(s.journal), s.history, s.json.upTo))
    && WriterInv(s)
  }

  ghost predicate WriterInv(s: State) {
    match s.writer
    case Waiting | Rebuilding => true
    case Writing(snapshot, upTo) =>
      s.taken <= upTo <= |s.history| && snapshot == Sort(UpsertAll([], s.history[..upTo]))
    case Stopped => !s.handover && s.taken == s.queued
    case Saved =>
      && !s.handover && s.taken == s.queued && s.json.JsonFile? && s.json.upTo == |s.history|
      && (s.journal.JournalFile? ==> s.json.time > s.journal.time)
  }

  lemma LinesFromWeaker(lines: seq<Line>, history: seq<Segment>, n: nat, more: seq<Segment>, m: nat)
    requires LinesFrom(lines, history, n) && n <= m
    ensures LinesFrom(lines, history + more, m)
  {
  }

  lemma PublishKeepsInv(s: State, segment: Segment)
    requires Inv(s) && Next(s, Publish(segment)).Some?
    ensures Inv(Next(s, Publish(segment)).value)
  {
    var t := Next(s, Publish(segment)).value;
    var lines := AllLines(s.journal);
    UpsertAllLast([], t.history);
    assert t.history[..|s.history|] == s.history;
    LinesFromWeaker(lines, s.history, s.taken, [segment], s.taken);
    if s.json.JsonFile? {
      assert t.history[..s.json.upTo] == s.history[..s.json.upTo];
      if s.journal.JournalFile? && s.json.time > s.journal.time {
        LinesFromWeaker(lines, s.history, s.json.upTo, [segment], s.json.upTo);
      }
    }
    if s.writer.Writing? {
      assert t.history[..s.writer.upTo] == s.history[..s.writer.upTo];
    }
  }

  /** Whole lines stay where they are, and only the new update can come as one more, at the end. */
  ghost predicate Grows(was: seq<Line>, now: seq<Line>, line: Line) {
    forall i :: 0 <= i < |now| && now[i].Whole? ==>
      (i < |was| && now[i] == was[i]) || (i == |now| - 1 && now[i] == line)
  }

  lemma AppendShape(j: JournalFile, segment: Segment, at: nat, outcome: Append, time: nat)
    ensures Grows(AllLines(j), AllLines(AfterAppend(j, segment, at, outcome, time)), Whole(segment, at))
    ensures var after := AfterAppend(j, segment, at, outcome, time);
      after == j || (after.JournalFile? && after.time == time)
  {
  }

  lemma ReceiveKeepsInv(s: State, outcome: Append)
    requires Inv(s) && Next(s, Receive(outcome)).Some?
    ensures Inv(Next(s, Receive(outcome)).value)
  {
    hide AfterAppend, AllLines, LinesFrom, InOrder, Grows, Sort, UpsertAll, StoredAll, Numbered;
    var t := Next(s, Receive(outcome)).value;
    AppendShape(s.journal, s.history[s.taken], s.taken, outcome, s.clock + 1);
    AppendKeepsLines(AllLines(s.journal), AllLines(t.journal), s.history, s.taken);
  }

  lemma AppendKeepsLines(was: seq<Line>, now: seq<Line>, history: seq<Segment>, at: nat)
    requires LinesFrom(was, history, at) && InOrder(was) && at < |history|
    requires now == was || Grows(was, now, Whole(history[at], at))
    ensures LinesFrom(now, history, at + 1) && InOrder(now)
  {
  }

  lemma WriteKeepsInv(s: State, ok: bool)
    requires Inv(s) && Next(s, WriteJson(ok)).Some?
    ensures Inv(Next(s, WriteJson(ok)).value)
  {
    LinesFromWeaker(AllLines(s.journal), s.history, s.taken, [], s.writer.upTo);
    assert s.history + [] == s.history;
  }

  lemma FinalWriteKeepsInv(s: State, ok: bool)
    requires Inv(s) && Next(s, FinalWrite(ok)).Some?
    ensures Inv(Next(s, FinalWrite(ok)).value)
  {
    LinesFromWeaker(AllLines(s.journal), s.history, s.taken, [], |s.history|);
    assert s.history + [] == s.history && s.history[..|s.history|] == s.history;
  }

  lemma StepKeepsInv(s: State, e: Event)
    requires Inv(s) && Next(s, e).Some?
    ensures Inv(Next(s, e).value)
  {
    hide Sort, UpsertAll, Upsert, StoredAll, AfterAppend;
    match e
    case Publish(segment) => PublishKeepsInv(s, segment);
    case Receive(outcome) => ReceiveKeepsInv(s, outcome);
    case WriteJson(ok) => WriteKeepsInv(s, ok);
    case FinalWrite(ok) => FinalWriteKeepsInv(s, ok);
    case Snapshot => assert s.history[..|s.history|] == s.history;
    case _ =>
  }

  lemma {:induction false} RunKeepsInv(s: State, events: seq<Event>)
    requires Inv(s) && Run(s, events).Some?
    ensures Inv(Run(s, events).value)
    decreases |events|
  {
    if events != [] {
      StepKeepsInv(s, events[0]);
      RunKeepsInv(Next(s, events[0]).value, events[1..]);
    }
  }

  // ----- What a reader gets -----

  /** x is update j as the file that held it stores it. */
  predicate IsVersion(x: Segment, update: Segment) {
    x == update || x == update.(source := None)
  }

  /** The load holds a version of update i's segment that is at least as new. */
  ghost predicate Recovered(loaded: seq<Segment>, history: seq<Segment>, i: nat)
    requires i < |history|
  {
    exists x, j :: x in loaded && i <= j < |history| && history[j].sequenceId == history[i].sequenceId
                   && IsVersion(x, history[j])
  }

  /** What Latest keeps for a key is the last update with it. */
  lemma {:induction false} LatestIsLater(updates: seq<Segment>, i: nat) returns (j: nat)
    requires i < |updates|
    ensures i <= j < |updates| && updates[j].sequenceId == updates[i].sequenceId
    ensures updates[i].sequenceId in Latest(updates) && Latest(updates)[updates[i].sequenceId] == updates[j]
    decreases |updates|
  {
    var n := |updates| - 1;
    if updates[n].sequenceId == updates[i].sequenceId {
      j := n;
    } else {
      j := LatestIsLater(updates[..n], i);
    }
  }

  lemma LatestIsSorted(updates: seq<Segment>, k: Option<nat>)
    requires Numbered(updates) && k in Latest(updates)
    ensures Latest(updates)[k] in Sort(UpsertAll([], updates))
  {
    var v := UpsertAll([], updates);
    UpsertAllHolds(updates);
    var i :| 0 <= i < |v| && v[i].sequenceId == k;
    SortSorts(v);
    assert v[i] in multiset(Sort(v));
  }

  /** Where a parsed segment stands in the journal. */
  lemma {:induction false} ParsedAt(lines: seq<Line>, i: nat) returns (p: nat)
    requires i < |lines| && lines[i].Whole?
    ensures p < |Parsed(lines)| && Parsed(lines)[p] == lines[i].segment && p == |Parsed(lines[..i])|
    decreases |lines|
  {
    if i == 0 {
      p := 0;
    } else {
      p := ParsedAt(lines[1..], i - 1);
      assert lines[..i][1..] == lines[1..][..i - 1];
      p := p + if lines[0].Whole? then 1 else 0;
    }
  }

  lemma {:induction false} LineOf(lines: seq<Line>, p: nat) returns (i: nat)
    requires p < |Parsed(lines)|
    ensures i < |lines| && lines[i].Whole? && lines[i].segment == Parsed(lines)[p] && p == |Parsed(lines[..i])|
    decreases |lines|
  {
    if lines[0].Whole? && p == 0 {
      i := 0;
    } else {
      i := LineOf(lines[1..], p - if lines[0].Whole? then 1 else 0);
      i := i + 1;
      assert lines[..i][1..] == lines[1..][..i - 1];
    }
  }

  lemma ParsedStrict(lines: seq<Line>, j: nat, i: nat)
    requires j < |lines| && i <= |lines| && lines[j].Whole?
    ensures j < i ==> |Parsed(lines[..j])| < |Parsed(lines[..i])|
  {
    if j < i {
      assert lines[..i] == lines[..j] + ([lines[j]] + lines[j + 1..i]);
      ParsedAppend(lines[..j], [lines[j]] + lines[j + 1..i]);
    }
  }

  /** A crash now: whoever reads the two files gets, for every segment with a readable journal line, a
      version at least as new as that line. */
  lemma CrashSafe(s: State, i: nat)
    requires Inv(s) && Readable(AllLines(s.journal))
    requires i < |AllLines(s.journal)| && AllLines(s.journal)[i].Whole?
    ensures var line := AllLines(s.journal)[i];
      && line.at < |s.history| && line.segment == s.history[line.at]
      && Load(s.json, s.journal).Success? && Recovered(Load(s.json, s.journal).value, s.history, line.at)
  {
    var lines := AllLines(s.journal);
    var parsed := Parsed(lines);
    var loaded := Load(s.json, s.journal).value;
    if loaded == Sort(UpsertAll([], parsed)) {
      FromJournal(lines, s.history, s.taken, i);
    } else {
      FromJson(s.history, s.json.upTo, lines[i].at);
    }
  }

  lemma ParsedNumbered(lines: seq<Line>, history: seq<Segment>, n: nat)
    requires LinesFrom(lines, history, n) && Numbered(history)
    ensures Numbered(Parsed(lines))
  {
    forall p | 0 <= p < |Parsed(lines)|
      ensures Parsed(lines)[p].sequenceId.Some?
    {
      var i := LineOf(lines, p);
    }
  }

  lemma FromJournal(lines: seq<Line>, history: seq<Segment>, n: nat, i: nat)
    requires LinesFrom(lines, history, n) && InOrder(lines) && Numbered(history)
    requires i < |lines| && lines[i].Whole?
    ensures Recovered(Sort(UpsertAll([], Parsed(lines))), history, lines[i].at)
  {
    var parsed := Parsed(lines);
    var p := ParsedAt(lines, i);
    var q := LatestIsLater(parsed, p);
    var j := LineOf(lines, q);
    ParsedNumbered(lines, history, n);
    LatestIsSorted(parsed, parsed[p].sequenceId);
    ParsedStrict(lines, j, i);
    assert IsVersion(parsed[q], history[lines[j].at]);
  }

  lemma FromJson(history: seq<Segment>, upTo: nat, at: nat)
    requires at < upTo <= |history| && Numbered(history)
    ensures Recovered(StoredAll(Sort(UpsertAll([], history[..upTo]))), history, at)
  {
    var updates := history[..upTo];
    var j := LatestIsLater(updates, at);
    LatestIsSorted(updates, updates[at].sequenceId);
    var sorted := Sort(UpsertAll([], updates));
    var k :| 0 <= k < |sorted| && sorted[k] == updates[j];
    var x := StoredAll(sorted)[k];
    assert history[j].sequenceId.Some? && x == Stored(updates[j], k);
    assert x in StoredAll(sorted) && IsVersion(x, history[j]);
  }

  // ----- When the journal can be read at all -----

  /** Some append broke off inside a character. */
  predicate BreaksCharacter(events: seq<Event>) {
    exists k :: 0 <= k < |events| && events[k] == Receive(TornAfter(Part(false)))
  }

  lemma StepReadable(s: State, e: Event)
    requires Next(s, e).Some? && !e.RemoveJournal?
    ensures Readable(AllLines(Next(s, e).value.journal)) <==>
      Readable(AllLines(s.journal)) && e != Receive(TornAfter(Part(false)))
  {
    hide AfterAppend, AllLines, Readable, Sort, Upsert, StoredAll;
    if e.Receive? {
      AppendReadable(s.journal, s.history[s.taken], s.taken, e.outcome, s.clock + 1);
    }
  }

  lemma LastLine(lines: seq<Line>, last: Line)
    ensures Readable(lines + [last]) <==> Readable(lines) && (last.Malformed? ==> last.decodable)
  {
    var all := lines + [last];
    assert all[|lines|] == last;
    assert forall i :: 0 <= i < |lines| ==> all[i] == lines[i];
  }

  lemma AppendReadable(j: JournalFile, segment: Segment, at: nat, outcome: Append, time: nat)
    ensures Readable(AllLines(AfterAppend(j, segment, at, outcome, time))) <==>
      Readable(AllLines(j)) && outcome != TornAfter(Part(false))
  {
    var lines := if j.NoJournal? then [] else j.lines;
    var after := AfterAppend(j, segment, at, outcome, time);
    forall last
      ensures Readable(lines + [last]) <==> Readable(lines) && (last.Malformed? ==> last.decodable)
    {
      LastLine(lines, last);
    }
    assert lines + [] == lines;
    if outcome.Appended? {
      assert AllLines(after) == after.lines;
    }
  }

  /** The journal is only removed when no append can follow. */
  lemma {:induction false} ReadableRun(s: State, events: seq<Event>)
    requires Run(s, events).Some?
    ensures var t := Run(s, events).value;
      t.journal.JournalFile? ==>
        (Readable(AllLines(t.journal)) <==> Readable(AllLines(s.journal)) && !BreaksCharacter(events))
    ensures s.writer.Saved? && s.journal.NoJournal? ==> Run(s, events).value.journal.NoJournal?
    decreases |events|
  {
    hide Readable;
    if events != [] {
      var t := Next(s, events[0]).value;
      ReadableRun(t, events[1..]);
      BreaksFirst(events);
      if !events[0].RemoveJournal? {
        StepReadable(s, events[0]);
      }
    }
  }

  lemma BreaksFirst(events: seq<Event>)
    requires events != []
    ensures BreaksCharacter(events) <==> events[0] == Receive(TornAfter(Part(false))) || BreaksCharacter(events[1..])
  {
    assert forall k :: 1 <= k < |events| ==> events[k] == events[1..][k - 1];
  }

  /** While the journal exists, a reader fails if and only if some append broke off inside a character:
      the journal is then no text, and the reader gives up on transcripts.json, too. */
  lemma EveryRunLoadsIff(events: seq<Event>)
    requires Run(INITIAL, events).Some?
    ensures var s := Run(INITIAL, events).value;
      Load(s.json, s.journal).Success? <==> s.journal.NoJournal? || !BreaksCharacter(events)
  {
    RunKeepsInv(INITIAL, events);
    ReadableRun(INITIAL, events);
  }

  /** Crash safety over every run. */
  lemma EveryRunCrashSafe(events: seq<Event>, i: nat)
    requires Run(INITIAL, events).Some? && !BreaksCharacter(events)
    requires var s := Run(INITIAL, events).value; i < |AllLines(s.journal)| && AllLines(s.journal)[i].Whole?
    ensures var s := Run(INITIAL, events).value;
      var line := AllLines(s.journal)[i];
      && line.at < |s.history| && line.segment == s.history[line.at]
      && Load(s.json, s.journal).Success? && Recovered(Load(s.json, s.journal).value, s.history, line.at)
  {
    RunKeepsInv(INITIAL, events);
    ReadableRun(INITIAL, events);
    CrashSafe(Run(INITIAL, events).value, i);
  }

  // ----- After the final write -----

  lemma {:induction false} HoldsSize(segments: seq<Segment>, m: map<Option<nat>, Segment>)
    requires Holds(segments, m)
    ensures |segments| == |m|
    decreases |segments|
  {
    if segments == [] {
      assert m == map[];
    } else {
      var k := segments[0].sequenceId;
      RestHolds(segments, m);
      HoldsSize(segments[1..], m - {k});
      assert (m - {k}).Keys == m.Keys - {k};
    }
  }

  lemma {:induction false} LatestKeys(updates: seq<Segment>, k: Option<nat>)
    ensures k in Latest(updates) <==> exists i :: 0 <= i < |updates| && updates[i].sequenceId == k
    decreases |updates|
  {
    if updates != [] {
      var n := |updates| - 1;
      LatestKeys(updates[..n], k);
      if i :| 0 <= i < |updates[..n]| && updates[..n][i].sequenceId == k {
        assert updates[i].sequenceId == k;
      }
    }
  }

  /** The journal never knows a segment the final vector lacks. */
  lemma ReplayNoLonger(lines: seq<Line>, history: seq<Segment>, n: nat)
    requires LinesFrom(lines, history, n)
    ensures |Sort(UpsertAll([], Parsed(lines)))| <= |Sort(UpsertAll([], history))|
  {
    var (parsed, a, b) := (Parsed(lines), UpsertAll([], Parsed(lines)), UpsertAll([], history));
    UpsertAllHolds(parsed);
    UpsertAllHolds(history);
    HoldsSize(a, Latest(parsed));
    HoldsSize(b, Latest(history));
    forall k | k in Latest(parsed)
      ensures k in Latest(history)
    {
      LatestKeys(parsed, k);
      LatestKeys(history, k);
      var p :| 0 <= p < |parsed| && parsed[p].sequenceId == k;
      var i := LineOf(lines, p);
      assert history[lines[i].at].sequenceId == k;
    }
    assert Latest(parsed).Keys <= Latest(history).Keys;
    Subset(Latest(parsed).Keys, Latest(history).Keys);
    SortSorts(a);
    SortSorts(b);
    assert |multiset(a)| == |a| && |multiset(b)| == |b|;
    assert |multiset(Sort(a))| == |Sort(a)| && |multiset(Sort(b))| == |Sort(b)|;
  }

  lemma {:induction false} Subset<T>(a: set<T>, b: set<T>)
    requires a <= b
    ensures |a| <= |b|
    decreases |a|
  {
    if a != {} {
      var x :| x in a;
      Subset(a - {x}, b - {x});
    }
  }

  ghost predicate OnlySourceDropped(stored: seq<Segment>, segments: seq<Segment>) {
    |stored| == |segments| && forall i :: 0 <= i < |segments| ==> stored[i] == segments[i].(source := None)
  }

  /** The final transcript: every segment has its sequence id, so storing it only drops `source`. */
  lemma StoredMemory(history: seq<Segment>, memory: seq<Segment>)
    requires Numbered(history) && memory == UpsertAll([], history)
    ensures OnlySourceDropped(StoredAll(Sort(memory)), Sort(memory))
  {
    UpsertAllHolds(history);
    forall i | 0 <= i < |memory|
      ensures memory[i].sequenceId.Some?
    {
      LatestKeys(history, memory[i].sequenceId);
    }
    NumberedRanked(memory);
    SortKeepsShape(memory);
  }

  lemma SavedLoads(s: State)
    requires Inv(s) && s.writer.Saved? && (s.journal.NoJournal? || Readable(AllLines(s.journal)))
    ensures Load(s.json, s.journal) == Success(StoredAll(Sort(s.memory)))
  {
    ReplayNoLonger(AllLines(s.journal), s.history, s.taken);
    assert s.history[..|s.history|] == s.history;
    hide Sort, UpsertAll, StoredAll, Parsed, Readable, LinesFrom, InOrder;
  }

  /** Once the final write is through, a reader gets exactly the sorted in-memory transcript, minus
      `source`. When the journal could not be removed, this needs it to be readable. */
  lemma EveryRunFinal(events: seq<Event>)
    requires Run(INITIAL, events).Some? && Run(INITIAL, events).value.writer.Saved?
    ensures var s := Run(INITIAL, events).value;
      && (s.journal.NoJournal? || !BreaksCharacter(events) ==>
            Load(s.json, s.journal) == Success(StoredAll(Sort(s.memory))))
      && OnlySourceDropped(StoredAll(Sort(s.memory)), Sort(s.memory))
  {
    RunKeepsInv(INITIAL, events);
    ReadableRun(INITIAL, events);
    var s := Run(INITIAL, events).value;
    StoredMemory(s.history, s.memory);
    hide Sort, UpsertAll, StoredAll, Load, Run, Next, BreaksCharacter;
    if s.journal.NoJournal? || !BreaksCharacter(events) {
      SavedLoads(s);
    }
  }

  // ----- What a load returns, exactly -----

  /** Line i holds the last version of its segment. */
  predicate IsLastLine(lines: seq<Line>, i: nat) {
    && i < |lines| && lines[i].Whole?
    && forall j :: i < j < |lines| && lines[j].Whole? ==>
      lines[j].segment.sequenceId != lines[i].segment.sequenceId
  }

  /** Update i is the last of the first n for its segment. */
  predicate IsLastUpdate(history: seq<Segment>, n: nat, i: nat)
    requires n <= |history|
  {
    i < n && forall j :: i < j < n ==> history[j].sequenceId != history[i].sequenceId
  }

  /** x is what some line holds, and no later line has another version. */
  ghost predicate InLines(lines: seq<Line>, x: Segment) {
    exists i: nat :: IsLastLine(lines, i) && lines[i].segment == x
  }

  ghost predicate InUpdates(history: seq<Segment>, n: nat, x: Segment)
    requires n <= |history|
  {
    exists i: nat :: IsLastUpdate(history, n, i) && history[i] == x
  }

  lemma {:induction false} LatestInLines(lines: seq<Line>, x: Segment)
    ensures x in Latest(Parsed(lines)).Values <==> InLines(lines, x)
    decreases |lines|
  {
    if lines != [] {
      var n := |lines| - 1;
      var (before, last) := (lines[..n], lines[n]);
      LatestInLines(before, x);
      assert lines == before + [last];
      ParsedAppend(before, [last]);
      assert Parsed([last]) == if last.Whole? then [last.segment] else [] by { assert [last][1..] == []; }
      if last.Whole? {
        assert Parsed(lines)[..|Parsed(before)|] == Parsed(before);
        InUpdated(Latest(Parsed(before)), last.segment.sequenceId, last.segment, x);
        LatestIds(Parsed(before));
        InOneMoreLine(lines, x);
      } else {
        assert Parsed(before) + [] == Parsed(before);
        InOneMoreLine(lines, x);
      }
    }
  }

  lemma LatestIds(updates: seq<Segment>)
    ensures forall i :: i in Latest(updates) ==> Latest(updates)[i].sequenceId == i
  {
    ByKeyFrom(updates);
  }

  lemma InOneMoreLine(lines: seq<Line>, x: Segment)
    requires lines != []
    ensures var (before, last) := (lines[..|lines| - 1], lines[|lines| - 1]);
      InLines(lines, x) <==>
        (last.Whole? && x == last.segment)
        || (InLines(before, x) && (last.Whole? ==> x.sequenceId != last.segment.sequenceId))
  {
    var n := |lines| - 1;
    forall i: nat | i < n
      ensures IsLastLine(lines, i) <==>
        IsLastLine(lines[..n], i) && (lines[n].Whole? ==> lines[i].segment.sequenceId != lines[n].segment.sequenceId)
    {
      StillLastLine(lines, i);
    }
    assert lines[n].Whole? ==> IsLastLine(lines, n);
    assert forall i: nat :: IsLastLine(lines[..n], i) ==> i < n && lines[..n][i] == lines[i];
    hide IsLastLine;
  }

  lemma StillLastLine(lines: seq<Line>, i: nat)
    requires i < |lines| - 1
    ensures var (before, last) := (lines[..|lines| - 1], lines[|lines| - 1]);
      IsLastLine(lines, i) <==>
        IsLastLine(before, i) && (last.Whole? ==> lines[i].segment.sequenceId != last.segment.sequenceId)
  {
    var before := lines[..|lines| - 1];
    assert forall j :: 0 <= j < |before| ==> before[j] == lines[j];
  }

  lemma {:induction false} LatestInUpdates(history: seq<Segment>, n: nat, x: Segment)
    requires n <= |history|
    ensures x in Latest(history[..n]).Values <==> InUpdates(history, n, x)
    decreases n
  {
    if n > 0 {
      var (before, last) := (history[..n - 1], history[n - 1]);
      LatestInUpdates(history, n - 1, x);
      assert history[..n][..n - 1] == before;
      InUpdated(Latest(before), last.sequenceId, last, x);
      LatestIds(before);
      hide IsLastUpdate, InUpdates;
      InOneMoreUpdate(history, n, x);
    }
  }

  lemma InOneMoreUpdate(history: seq<Segment>, n: nat, x: Segment)
    requires 0 < n <= |history|
    ensures InUpdates(history, n, x) <==>
      x == history[n - 1] || (InUpdates(history, n - 1, x) && x.sequenceId != history[n - 1].sequenceId)
  {
    forall i: nat | i < n - 1
      ensures IsLastUpdate(history, n, i) <==>
        IsLastUpdate(history, n - 1, i) && history[i].sequenceId != history[n - 1].sequenceId
    {
    }
    var m := n - 1;
    assert IsLastUpdate(history, n, m);
    assert forall i: nat :: IsLastUpdate(history, m, i) ==> i < m;
    hide IsLastUpdate;
  }

  lemma InReplayed(updates: seq<Segment>, x: Segment)
    ensures x in Sort(UpsertAll([], updates)) <==> x in Latest(updates).Values
  {
    UpsertedIsLatest(updates);
    SortMembers(UpsertAll([], updates));
  }

  lemma InStored(stored: seq<Segment>, segments: seq<Segment>, x: Segment)
    requires OnlySourceDropped(stored, segments)
    ensures x in stored <==> exists y :: y in segments && x == y.(source := None)
  {
    if x in stored {
      var i :| 0 <= i < |stored| && stored[i] == x;
      assert segments[i] in segments;
    }
    if y :| y in segments && x == y.(source := None) {
      var i :| 0 <= i < |segments| && segments[i] == y;
      assert stored[i] == x;
    }
  }

  /** What a reader finds, exactly: from the journal the last line of each segment, from
      transcripts.json the last of the updates it was written with, minus `source`. */
  ghost predicate Finds(s: State, x: Segment)
    requires Inv(s)
  {
    if TakesJournal(s.json, s.journal) then InLines(AllLines(s.journal), x)
    else s.json.JsonFile? && exists y :: InUpdates(s.history, s.json.upTo, y) && x == y.(source := None)
  }

  lemma LoadFinds(s: State, x: Segment)
    requires Inv(s) && Readable(AllLines(s.journal))
    ensures Load(s.json, s.journal).Success?
    ensures x in Load(s.json, s.journal).value <==> Finds(s, x)
  {
    if TakesJournal(s.json, s.journal) {
      InReplayed(Parsed(AllLines(s.journal)), x);
      LatestInLines(AllLines(s.journal), x);
    } else if s.json.JsonFile? {
      JsonHolds(s.history, s.json, s.clock, x);
    }
  }

  lemma JsonHolds(history: seq<Segment>, json: JsonFile, now: nat, x: Segment)
    requires JsonIs(json, history, now) && json.JsonFile? && Numbered(history)
    ensures x in json.segments <==> exists y :: InUpdates(history, json.upTo, y) && x == y.(source := None)
  {
    var updates := history[..json.upTo];
    var sorted := Sort(UpsertAll([], updates));
    StoredMemory(updates, UpsertAll([], updates));
    InStored(json.segments, sorted, x);
    hide Sort, UpsertAll, StoredAll, InUpdates, OnlySourceDropped;
    forall y
      ensures y in sorted <==> InUpdates(history, json.upTo, y)
    {
      InReplayed(updates, y);
      LatestInUpdates(history, json.upTo, y);
    }
  }

  /** Over every run: a version of a segment is recovered if and only if it is the last one in the file
      the reader takes. */
  lemma EveryRunLoadFinds(events: seq<Event>, x: Segment)
    requires Run(INITIAL, events).Some? && !BreaksCharacter(events)
    ensures var s := Run(INITIAL, events).value;
      && Inv(s) && Load(s.json, s.journal).Success?
      && (x in Load(s.json, s.journal).value <==> Finds(s, x))
  {
    RunKeepsInv(INITIAL, events);
    ReadableRun(INITIAL, events);
    NoJournalReadable(Run(INITIAL, events).value.journal);
    LoadFinds(Run(INITIAL, events).value, x);
  }

  lemma NoJournalReadable(journal: JournalFile)
    ensures journal.NoJournal? ==> Readable(AllLines(journal))
  {
  }

  predicate HasLine(lines: seq<Line>, k: Option<nat>) {
    exists i :: 0 <= i < |lines| && lines[i].Whole? && lines[i].segment.sequenceId == k
  }

  predicate HasUpdate(history: seq<Segment>, n: nat, k: Option<nat>)
    requires n <= |history|
  {
    exists i :: 0 <= i < n && history[i].sequenceId == k
  }

  lemma LastLineFrom(lines: seq<Line>, i: nat) returns (last: nat)
    requires i < |lines| && lines[i].Whole?
    ensures IsLastLine(lines, last) && lines[last].segment.sequenceId == lines[i].segment.sequenceId
    decreases |lines| - i
  {
    last := i;
    if j :| i < j < |lines| && lines[j].Whole? && lines[j].segment.sequenceId == lines[i].segment.sequenceId {
      last := LastLineFrom(lines, j);
    }
  }

  lemma LastUpdateFrom(history: seq<Segment>, n: nat, i: nat) returns (last: nat)
    requires i < n <= |history|
    ensures IsLastUpdate(history, n, last) && history[last].sequenceId == history[i].sequenceId
    decreases n - i
  {
    last := i;
    if j :| i < j < n && history[j].sequenceId == history[i].sequenceId {
      last := LastUpdateFrom(history, n, j);
    }
  }

  lemma LinesHaveId(lines: seq<Line>, k: Option<nat>)
    ensures (exists x :: InLines(lines, x) && x.sequenceId == k) <==> HasLine(lines, k)
  {
    if HasLine(lines, k) {
      var i :| 0 <= i < |lines| && lines[i].Whole? && lines[i].segment.sequenceId == k;
      var last := LastLineFrom(lines, i);
      assert InLines(lines, lines[last].segment);
    }
  }

  lemma UpdatesHaveId(history: seq<Segment>, n: nat, k: Option<nat>)
    requires n <= |history|
    ensures (exists y :: InUpdates(history, n, y) && y.sequenceId == k) <==> HasUpdate(history, n, k)
  {
    if HasUpdate(history, n, k) {
      var i :| 0 <= i < n && history[i].sequenceId == k;
      var last := LastUpdateFrom(history, n, i);
      assert InUpdates(history, n, history[last]);
    }
  }

  lemma FindsIdIff(s: State, k: Option<nat>)
    requires Inv(s)
    ensures (exists x :: Finds(s, x) && x.sequenceId == k) <==>
      if TakesJournal(s.json, s.journal) then HasLine(AllLines(s.journal), k)
      else s.json.JsonFile? && HasUpdate(s.history, s.json.upTo, k)
  {
    hide Inv, TakesJournal, AllLines, InLines, InUpdates, HasLine, HasUpdate;
    if TakesJournal(s.json, s.journal) {
      LinesHaveId(AllLines(s.journal), k);
    } else if s.json.JsonFile? {
      JsonUpTo(s);
      UpdatesHaveId(s.history, s.json.upTo, k);
      if y :| InUpdates(s.history, s.json.upTo, y) && y.sequenceId == k {
        assert Finds(s, y.(source := None));
      }
    }
  }

  lemma JsonUpTo(s: State)
    requires Inv(s) && s.json.JsonFile?
    ensures s.json.upTo <= |s.history|
  {
  }

  /** The same by id: a segment is recovered in some version if and only if the file the reader takes
      has a line, or was written with an update, of its id. A segment only transcripts.json has is lost
      exactly while the guard prefers the journal. */
  lemma EveryRunLoadHasIdIff(events: seq<Event>, k: Option<nat>)
    requires Run(INITIAL, events).Some? && !BreaksCharacter(events)
    ensures var s := Run(INITIAL, events).value;
      && Inv(s) && Load(s.json, s.journal).Success?
      && ((exists x :: x in Load(s.json, s.journal).value && x.sequenceId == k) <==>
            if TakesJournal(s.json, s.journal) then HasLine(AllLines(s.journal), k)
            else s.json.JsonFile? && HasUpdate(s.history, s.json.upTo, k))
  {
    var s := Run(INITIAL, events).value;
    RunKeepsInv(INITIAL, events);
    FindsIdIff(s, k);
    EveryRunLoadsIff(events);
    forall x
      ensures (x in Load(s.json, s.journal).value <==> Finds(s, x))
    {
      EveryRunLoadFinds(events, x);
    }
    hide *;
  }

  /** What the program's reader returns after any run is what these theorems speak of. */
  lemma ReaderApplies(events: seq<Event>)
    requires Run(INITIAL, events).Some?
    ensures var lines := AllLines(Run(INITIAL, events).value.journal);
      OneUnnumbered(Parsed(lines)) && TiesApart(Parsed(lines))
  {
    RunKeepsInv(INITIAL, events);
    var s := Run(INITIAL, events).value;
    ParsedNumbered(AllLines(s.journal), s.history, s.taken);
    NumberedIsFine(Parsed(AllLines(s.journal)));
  }

  // ----- Which file the reader takes -----

  /** The reader's length test never decides: the guard is the file times. */
  lemma GuardIsTime(s: State)
    requires Inv(s) && s.journal.JournalFile? && s.json.JsonFile?
    ensures TakesJournal(s.json, s.journal) <==> s.journal.time > s.json.time
  {
    if s.journal.time < s.json.time {
      var updates := s.history[..s.json.upTo];
      LinesFromPrefix(AllLines(s.journal), s.history, s.json.upTo);
      ReplayNoLonger(AllLines(s.journal), updates, s.json.upTo);
    }
    hide Sort, UpsertAll, Parsed, StoredAll;
  }

  lemma LinesFromPrefix(lines: seq<Line>, history: seq<Segment>, n: nat)
    requires n <= |history| && LinesFrom(lines, history, n)
    ensures LinesFrom(lines, history[..n], n)
  {
  }

  /** The append leaves a mark on the journal's file time. */
  predicate Touches(outcome: Append, existed: bool) {
    outcome.Appended? || (outcome.TornAfter? && (existed ==> !outcome.written.Nothing?))
  }

  predicate Rewrites(e: Event) {
    e == WriteJson(true) || e == FinalWrite(true)
  }

  /** The last file these events write is the journal; `existed` and `last` tell how it was before. */
  predicate JournalLast(events: seq<Event>, existed: bool, last: bool)
    decreases |events|
  {
    if events == [] then last
    else if events[0].Receive? && Touches(events[0].outcome, existed) then JournalLast(events[1..], true, true)
    else JournalLast(events[1..], existed, last && !Rewrites(events[0]))
  }

  predicate JournalLater(s: State) {
    s.journal.JournalFile? && (s.json.JsonFile? ==> s.journal.time > s.json.time)
  }

  lemma StepLast(s: State, e: Event)
    requires Inv(s) && Next(s, e).Some? && e != RemoveJournal(true)
    ensures var t := Next(s, e).value;
      if e.Receive? && Touches(e.outcome, s.journal.JournalFile?) then t.journal.JournalFile? && JournalLater(t)
      else t.journal.JournalFile? == s.journal.JournalFile? && (JournalLater(t) <==> JournalLater(s) && !Rewrites(e))
  {
    hide LinesFrom, InOrder, Sort, UpsertAll, Upsert, StoredAll, AllLines;
  }

  lemma {:induction false} RunLast(s: State, events: seq<Event>)
    requires Inv(s) && Run(s, events).Some?
    ensures var t := Run(s, events).value;
      t.journal.JournalFile? ==> (JournalLater(t) <==> JournalLast(events, s.journal.JournalFile?, JournalLater(s)))
    ensures s.writer.Saved? && s.journal.NoJournal? ==> Run(s, events).value.journal.NoJournal?
    decreases |events|
  {
    hide Inv, JournalLater, AfterAppend;
    if events != [] {
      StepKeepsInv(s, events[0]);
      RunLast(Next(s, events[0]).value, events[1..]);
      if events[0] != RemoveJournal(true) {
        StepLast(s, events[0]);
      }
    }
  }

  /** Over every run, the reader takes the journal if and only if it is there and no successful rebuild or
      final write came after the last append that touched it. */
  lemma TakesJournalIff(events: seq<Event>)
    requires Run(INITIAL, events).Some?
    ensures var s := Run(INITIAL, events).value;
      TakesJournal(s.json, s.journal) <==> s.journal.JournalFile? && JournalLast(events, false, false)
  {
    RunKeepsInv(INITIAL, events);
    RunLast(INITIAL, events);
    var s := Run(INITIAL, events).value;
    assert !s.json.Corrupt?;
    if s.journal.JournalFile? && s.json.JsonFile? {
      GuardIsTime(s);
    }
  }

  /** So a segment that only transcripts.json has survives a crash if and only if no append touched the
      journal after the last successful write of transcripts.json, or the journal is gone. */
  lemma JsonOnlySurvivesIff(events: seq<Event>, k: Option<nat>)
    requires Run(INITIAL, events).Some? && !BreaksCharacter(events)
    requires var s := Run(INITIAL, events).value;
      s.json.JsonFile? && Inv(s) && HasUpdate(s.history, s.json.upTo, k) && !HasLine(AllLines(s.journal), k)
    ensures var s := Run(INITIAL, events).value;
      && Load(s.json, s.journal).Success?
      && ((exists x :: x in Load(s.json, s.journal).value && x.sequenceId == k) <==>
            s.journal.NoJournal? || !JournalLast(events, false, false))
  {
    EveryRunLoadHasIdIff(events, k);
    TakesJournalIff(events);
    hide Run, Load, TakesJournal, JournalLast, HasLine, HasUpdate, Inv;
  }

  // ----- What is not promised -----

  /** A single segment whose append breaks off inside a character. The rebuild that follows writes it to
      transcripts.json, and still nothing can be loaded. */
  lemma TornCharacterBlocksLoad(a: Segment)
    requires a.sequenceId.Some?
    ensures var r := Run(INITIAL, [Publish(a), Enqueue, Receive(TornAfter(Part(false))),
                                   TimerFires, Snapshot, WriteJson(true)]);
      && r.Some? && r.value.json == JsonFile(StoredAll(Sort([a])), 1, 2)
      && Load(r.value.json, r.value.journal) == Failure(UnreadableJournal)
  {
    TornRun(a);
    assert AllLines(TornState(a).journal)[0] == Malformed(false);
  }

  function TornState(a: Segment): State {
    State([a], [a], false, 1, 1, Waiting, false, JournalFile([], Fragment(false), 1),
          JsonFile(StoredAll(Sort([a])), 1, 2), 2)
  }

  /** The segment is queued, and the rebuild after its torn append has begun. */
  function TornQueued(a: Segment): State {
    State([a], [a], false, 1, 0, Waiting, false, NoJournal, NoJson, 0)
  }

  function TornRebuilding(a: Segment): State {
    State([a], [a], false, 1, 1, Rebuilding, true, JournalFile([], Fragment(false), 1), NoJson, 1)
  }

  lemma TornSteps(a: Segment)
    ensures var e := Receive(TornAfter(Part(false)));
      && Next(TornQueued(a), e).Some? && Next(Next(TornQueued(a), e).value, TimerFires) == Some(TornRebuilding(a))
    ensures Next(TornRebuilding(a), Snapshot).Some?
    ensures Next(Next(TornRebuilding(a), Snapshot).value, WriteJson(true)) == Some(TornState(a))
  {
    hide Sort, StoredAll;
  }

  lemma TornRun(a: Segment)
    requires a.sequenceId.Some?
    ensures Run(INITIAL, [Publish(a), Enqueue, Receive(TornAfter(Part(false))), TimerFires, Snapshot, WriteJson(true)])
         == Some(TornState(a))
  {
    var rebuilt := [Snapshot, WriteJson(true)];
    var received := [Receive(TornAfter(Part(false))), TimerFires] + rebuilt;
    var all := [Publish(a), Enqueue] + received;
    assert all == [Publish(a), Enqueue, Receive(TornAfter(Part(false))), TimerFires, Snapshot, WriteJson(true)];
    assert all[2..] == received && received[2..] == rebuilt && rebuilt[2..] == [];
    assert Upsert([], a) == [a];
    TornSteps(a);
    hide Run, Sort, StoredAll, Upsert, Next, TornState, TornRebuilding;
    PublishThenEnqueue(INITIAL, a, all);
    assert INITIAL.(history := [] + [a], memory := [a], queued := 1) == TornQueued(a);
    RunTwo(TornQueued(a), Receive(TornAfter(Part(false))), TimerFires, received);
    RunTwo(TornRebuilding(a), Snapshot, WriteJson(true), rebuilt);
    RunNothing(TornState(a));
  }

  /** a is journaled; while the rebuild it triggers is under way b and c are published, and the
      snapshot takes them in. */
  function Ahead(a: Segment, b: Segment, c: Segment): seq<Event> {
    [Publish(a), Enqueue, Receive(Appended), TimerFires] + AheadTail(b, c)
  }

  function AheadTail(b: Segment, c: Segment): seq<Event> {
    [Publish(b), Enqueue, Publish(c), Enqueue, Snapshot, WriteJson(true)]
  }

  /** a is on disk and the rebuild has begun. */
  function RebuildBegun(a: Segment): State {
    State([a], [a], false, 1, 1, Rebuilding, true, JournalFile([Whole(a, 0)], Clean, 1), NoJson, 1)
  }

  /** Where that leads: a is journaled, the JSON file, written later, has all three. */
  function AheadState(a: Segment, b: Segment, c: Segment): State {
    State([a, b, c], [a, b, c], false, 3, 1, Waiting, false,
          JournalFile([Whole(a, 0)], Clean, 1), JsonFile(StoredAll(Sort([a, b, c])), 3, 2), 2)
  }

  predicate ThreeSegments(a: Segment, b: Segment, c: Segment) {
    && a.sequenceId.Some? && b.sequenceId.Some? && c.sequenceId.Some?
    && a.sequenceId != b.sequenceId && a.sequenceId != c.sequenceId && b.sequenceId != c.sequenceId
  }

  lemma UpsertsOfThree(a: Segment, b: Segment, c: Segment)
    requires ThreeSegments(a, b, c)
    ensures Upsert([], a) == [a] && Upsert([a], b) == [a, b] && Upsert([a, b], c) == [a, b, c]
    ensures UpsertAll([], [a]) == [a] && UpsertAll([], [a, b]) == [a, b]
  {
    assert [a][1..] == [] && [b][1..] == [] && [a, b][1..] == [b];
    assert Upsert([b], c) == [b, c];
    assert UpsertAll([a], []) == [a] && UpsertAll([a, b], []) == [a, b];
    assert UpsertAll([a], [b]) == UpsertAll(Upsert([a], b), [b][1..]);
    assert UpsertAll([], [a, b]) == UpsertAll(Upsert([], a), [a, b][1..]);
  }

  lemma RunTwo(s: State, e: Event, f: Event, events: seq<Event>)
    requires |events| >= 2 && events[0] == e && events[1] == f
    requires Next(s, e).Some? && Next(Next(s, e).value, f).Some?
    ensures Run(s, events) == Run(Next(Next(s, e).value, f).value, events[2..])
  {
    assert events[1..][0] == f && events[1..][1..] == events[2..];
  }

  lemma PublishThenEnqueue(s: State, segment: Segment, events: seq<Event>)
    requires |events| >= 2 && events[0] == Publish(segment) && events[1] == Enqueue
    requires !s.handover && !s.writer.Stopped? && !s.writer.Saved? && segment.sequenceId.Some?
    ensures var t := s.(history := s.history + [segment], memory := Upsert(s.memory, segment), queued := s.queued + 1);
      Run(s, events) == Run(t, events[2..])
  {
    RunTwo(s, Publish(segment), Enqueue, events);
  }

  lemma AheadBegins(a: Segment, b: Segment, c: Segment)
    requires ThreeSegments(a, b, c)
    ensures Run(INITIAL, Ahead(a, b, c)) == Run(RebuildBegun(a), AheadTail(b, c))
  {
    UpsertsOfThree(a, b, c);
    hide Upsert, Run, AheadTail;
    var e := Ahead(a, b, c);
    var s2 := State([a], [a], false, 1, 0, Waiting, false, NoJournal, NoJson, 0);
    PublishThenEnqueue(INITIAL, a, e);
    assert INITIAL.(history := [] + [a], memory := Upsert([], a), queued := 1) == s2;
    RunTwo(s2, e[2], e[3], e[2..]);
    assert AfterAppend(NoJournal, a, 0, Appended, 1) == JournalFile([Whole(a, 0)], Clean, 1);
    assert Next(Next(s2, e[2]).value, e[3]) == Some(RebuildBegun(a));
    assert e[2..][2..] == AheadTail(b, c);
  }

  lemma AheadEnds(a: Segment, b: Segment, c: Segment)
    requires ThreeSegments(a, b, c)
    ensures Run(RebuildBegun(a), AheadTail(b, c)) == Some(AheadState(a, b, c))
  {
    UpsertsOfThree(a, b, c);
    hide Upsert, Sort, StoredAll, Run, AfterAppend;
    var e := AheadTail(b, c);
    var s := RebuildBegun(a);
    PublishThenEnqueue(s, b, e);
    assert [a] + [b] == [a, b] && [a, b] + [c] == [a, b, c];
    PublishThenEnqueue(s.(history := [a, b], memory := [a, b], queued := 2), c, e[2..]);
    var t := s.(history := [a, b, c], memory := [a, b, c], queued := 3);
    RunTwo(t, e[4], e[5], e[4..]);
    assert Next(Next(t, e[4]).value, e[5]) == Some(AheadState(a, b, c));
    assert e[2..][2..] == e[4..] && e[4..][2..] == [];
    RunNothing(AheadState(a, b, c));
  }

  lemma RunNothing(s: State)
    ensures Run(s, []) == Some(s)
  {
  }

  lemma SortMembers(segments: seq<Segment>)
    ensures forall s :: s in Sort(segments) <==> s in segments
    ensures |Sort(segments)| == |segments|
  {
    SortSorts(segments);
    assert |multiset(Sort(segments))| == |multiset(segments)|;
    forall s
      ensures s in Sort(segments) <==> s in segments
    {
      assert s in multiset(Sort(segments)) <==> s in multiset(segments);
    }
  }

  lemma LoadOfTwo(json: JsonFile, a: Segment, b: Segment, c: Segment)
    requires ThreeSegments(a, b, c) && json.JsonFile? && json.time < 3
    ensures Load(json, JournalFile([Whole(a, 0), Whole(b, 1)], Clean, 3)) == Success(Sort([a, b]))
  {
    UpsertsOfThree(a, b, c);
    var lines := [Whole(a, 0), Whole(b, 1)];
    assert lines[1..] == [Whole(b, 1)] && lines[1..][1..] == [];
    assert Parsed(lines[1..]) == [b];
    assert Parsed(lines) == [a, b];
    assert AllLines(JournalFile(lines, Clean, 3)) == lines;
  }

  lemma AheadSees(a: Segment, b: Segment, c: Segment)
    requires ThreeSegments(a, b, c)
    ensures var s := AheadState(a, b, c);
      Load(s.json, s.journal).Success? && c.(source := None) in Load(s.json, s.journal).value
  {
    UpsertsOfThree(a, b, c);
    SortMembers([a]);
    SortMembers([a, b, c]);
    hide Sort, UpsertAll, Upsert;
    assert Parsed([Whole(a, 0)]) == [a] by { assert [Whole(a, 0)][1..] == []; }
    var sorted := Sort([a, b, c]);
    assert c in sorted by { assert c in [a, b, c]; }
    var k :| 0 <= k < |sorted| && sorted[k] == c;
    assert StoredAll(sorted)[k] == c.(source := None);
    var s := AheadState(a, b, c);
    assert AllLines(s.journal) == [Whole(a, 0)];
    assert |Replayed(s.journal)| == 1;
    assert !TakesJournal(s.json, s.journal);
  }

  /** A segment only transcripts.json has is not safe: the next journal line makes the journal the
      fresher file, and until its own line follows, a crash loses it. */
  lemma JsonOnlySegmentLost(a: Segment, b: Segment, c: Segment)
    requires ThreeSegments(a, b, c)
    ensures var before := AheadState(a, b, c);
      && Run(INITIAL, Ahead(a, b, c)) == Some(before)
      && Load(before.json, before.journal).Success? && c.(source := None) in Load(before.json, before.journal).value
      && Next(before, Receive(Appended)).Some?
      && var after := Next(before, Receive(Appended)).value;
         Load(after.json, after.journal) == Success(Sort([a, b]))
    ensures forall x :: x in Sort([a, b]) ==> x.sequenceId != c.sequenceId
  {
    AheadBegins(a, b, c);
    AheadEnds(a, b, c);
    AheadSees(a, b, c);
    SortMembers([a, b]);
    LoadOfTwo(AheadState(a, b, c).json, a, b, c);
    hide Sort, Run, Load, StoredAll;
    assert AfterAppend(JournalFile([Whole(a, 0)], Clean, 1), b, 1, Appended, 3)
        == JournalFile([Whole(a, 0), Whole(b, 1)], Clean, 3);
  }
}
