/** The level monitor under any number of concurrent start and stop calls. Every call first takes a new
    generation; a start may install its streams only while its generation is still the newest. */
module LevelMonitor {
  import opened Wrappers

  datatype Call =
    | Opening(gen: nat)                       // start: streams being opened
    | Opened(gen: nat, streams: set<nat>)     // start: about to take the lock
    | Dropping(gen: nat, streams: set<nat>)   // start: streams to release off the runtime
    | Started(gen: nat)
    | Stopping(gen: nat)                      // stop: about to take the lock
    | Stopped(gen: nat)

  datatype Session = Session(gen: nat, streams: set<nat>)

  /** `nextStream` numbers the streams ever opened; `installs` lists the generations installed. */
  datatype State = State(
    generation: nat,
    calls: map<nat, Call>,
    session: Option<Session>,
    nextStream: nat,
    released: set<nat>,
    installs: seq<nat>)

  const INITIAL := State(0, map[], None, 0, {}, [])

  datatype Event =
    | BeginStart(call: nat)
    | BeginStop(call: nat)
    | Open(call: nat, count: nat)
    | Install(call: nat)
    | Drop(call: nat)
    | Take(call: nat)

  predicate IsCurrent(callGeneration: nat, currentGeneration: nat) {
    callGeneration == currentGeneration
  }

  function Fresh(from: nat, count: nat): (s: set<nat>)
    ensures forall i: nat :: i in s <==> from <= i < from + count
    decreases count
  {
    if count == 0 then {} else {from} + Fresh(from + 1, count - 1)
  }

  function Streams(session: Option<Session>): set<nat> {
    if session.Some? then session.value.streams else {}
  }

  function Next(s: State, e: Event): Option<State> {
    match e
    case BeginStart(c) =>
      if c in s.calls then None
      else Some(s.(generation := s.generation + 1, calls := s.calls[c := Opening(s.generation + 1)]))
    case BeginStop(c) =>
      if c in s.calls then None
      else Some(s.(generation := s.generation + 1, calls := s.calls[c := Stopping(s.generation + 1)]))
    case Open(c, count) =>
      if c !in s.calls || !s.calls[c].Opening? then None
      else
        var gen := s.calls[c].gen;
        Some(s.(nextStream := s.nextStream + count,
                calls := s.calls[c := if count == 0 then Started(gen) else Opened(gen, Fresh(s.nextStream, count))]))
    case Install(c) =>
      if c !in s.calls || !s.calls[c].Opened? then None
      else
        var (gen, own) := (s.calls[c].gen, s.calls[c].streams);
        if IsCurrent(gen, s.generation) then
          Some(s.(session := Some(Session(gen, own)), installs := s.installs + [gen],
                  calls := s.calls[c := if s.session.Some? then Dropping(gen, s.session.value.streams)
                                        else Started(gen)]))
        else Some(s.(calls := s.calls[c := Dropping(gen, own)]))
    case Drop(c) =>
      if c !in s.calls || !s.calls[c].Dropping? then None
      else Some(s.(released := s.released + s.calls[c].streams, calls := s.calls[c := Started(s.calls[c].gen)]))
    case Take(c) =>
      if c !in s.calls || !s.calls[c].Stopping? then None
      else Some(s.(session := None, released := s.released + Streams(s.session),
                   calls := s.calls[c := Stopped(s.calls[c].gen)]))
  }

  function Run(s: State, events: seq<Event>): Option<State>
    decreases |events|
  {
    if events == [] then Some(s)
    else match Next(s, events[0])
      case None => None
      case Some(t) => Run(t, events[1..])
  }

  /** The acting call moves on; nobody else's state changes. */
  ghost predicate Moves(s: State, t: State, c: nat) {
    && c in s.calls && c in t.calls && t.calls == s.calls[c := t.calls[c]]
    && t.calls[c].gen == s.calls[c].gen && t.generation == s.generation
    && (IsStop(t.calls[c]) <==> IsStop(s.calls[c]))
    && (Waiting(t.calls[c]) ==> Waiting(s.calls[c]))
  }

  predicate Waiting(call: Call) {
    call.Opening? || call.Opened?
  }

  predicate IsStop(call: Call) {
    call.Stopping? || call.Stopped?
  }

  predicate IsBegin(e: Event) {
    e.BeginStart? || e.BeginStop?
  }

  lemma NextMoves(s: State, e: Event)
    requires Next(s, e).Some? && !IsBegin(e)
    ensures Moves(s, Next(s, e).value, e.call)
  {
  }

  // ----- Generations -----

  /** Every call has a generation of its own, and the newest generation is somebody's. */
  ghost predicate GensInv(s: State) {
    && (forall c :: c in s.calls ==> 1 <= s.calls[c].gen <= s.generation)
    && (forall c, d :: c in s.calls && d in s.calls && s.calls[c].gen == s.calls[d].gen ==> c == d)
    && (s.generation > 0 ==> exists c :: c in s.calls && s.calls[c].gen == s.generation)
  }

  lemma MovesKeepGens(s: State, t: State, c: nat)
    requires GensInv(s) && Moves(s, t, c)
    ensures GensInv(t)
  {
    if t.generation > 0 {
      var d :| d in s.calls && s.calls[d].gen == s.generation;
      assert d in t.calls && t.calls[d].gen == t.generation;
    }
  }

  lemma StepKeepsGens(s: State, e: Event)
    requires GensInv(s) && Next(s, e).Some?
    ensures GensInv(Next(s, e).value)
  {
    var t := Next(s, e).value;
    if IsBegin(e) {
      assert e.call in t.calls && t.calls[e.call].gen == t.generation;
    } else {
      NextMoves(s, e);
      hide Next, Moves, GensInv;
      MovesKeepGens(s, t, e.call);
    }
  }

  ghost predicate Increasing(gens: seq<nat>) {
    forall i, j :: 0 <= i < j < |gens| ==> gens[i] < gens[j]
  }

  /** Installed generations only grow, never exceed the newest, and are not those of calls that have
      yet to install or never will. */
  ghost predicate InstallInv(s: State) {
    && Increasing(s.installs)
    && (forall i :: 0 <= i < |s.installs| ==> s.installs[i] <= s.generation)
    && (forall i, c :: 0 <= i < |s.installs| && c in s.calls && (Waiting(s.calls[c]) || IsStop(s.calls[c])) ==>
          s.installs[i] != s.calls[c].gen)
  }

  lemma MovesKeepInstalls(s: State, t: State, c: nat)
    requires GensInv(s) && InstallInv(s) && Moves(s, t, c)
    requires t.installs == s.installs
          || (t.installs == s.installs + [s.generation]
              && s.calls[c].gen == s.generation && s.calls[c].Opened? && !Waiting(t.calls[c]))
    ensures InstallInv(t)
  {
    var n := |s.installs|;
    if t.installs != s.installs {
      forall i | 0 <= i < n
        ensures t.installs[i] == s.installs[i] < s.generation
      {
        assert s.installs[i] != s.calls[c].gen;
      }
      assert t.installs[n] == s.generation;
    }
  }

  lemma StepKeepsInstalls(s: State, e: Event)
    requires GensInv(s) && InstallInv(s) && Next(s, e).Some?
    ensures InstallInv(Next(s, e).value)
  {
    if !IsBegin(e) {
      NextMoves(s, e);
      hide InstallInv, GensInv, Moves;
      MovesKeepInstalls(s, Next(s, e).value, e.call);
    }
  }

  /** The session is the last one installed, and a stop with the newest generation has emptied it. */
  ghost predicate SessionInv(s: State) {
    && (s.session.Some? ==> s.installs != [] && s.installs[|s.installs| - 1] == s.session.value.gen)
    && (forall c :: c in s.calls && s.calls[c].Stopped? && s.calls[c].gen == s.generation ==> s.session.None?)
  }

  lemma StepKeepsSession(s: State, e: Event)
    requires GensInv(s) && InstallInv(s) && SessionInv(s) && Next(s, e).Some?
    ensures SessionInv(Next(s, e).value)
  {
    if !IsBegin(e) {
      NextMoves(s, e);
    }
  }

  // ----- Streams -----

  function Owned(call: Call): set<nat> {
    if call.Opened? || call.Dropping? then call.streams else {}
  }

  /** Stream i, once opened, is in exactly one place: the session, the released ones, or a running call. */
  ghost predicate OnePlace(s: State, i: nat) {
    && (i in Streams(s.session) ==> i !in s.released)
    && (forall c :: c in s.calls && i in Owned(s.calls[c]) ==> i !in Streams(s.session) && i !in s.released)
    && (forall c, d :: c in s.calls && d in s.calls && i in Owned(s.calls[c]) && i in Owned(s.calls[d]) ==> c == d)
    && (i < s.nextStream <==>
          i in Streams(s.session) || i in s.released || exists c :: c in s.calls && i in Owned(s.calls[c]))
  }

  lemma StepKeepsPlace(s: State, e: Event, i: nat)
    requires OnePlace(s, i) && Next(s, e).Some?
    ensures OnePlace(Next(s, e).value, i)
    ensures i in s.released ==> i in Next(s, e).value.released
  {
    var (t, c) := (Next(s, e).value, e.call);
    if d :| d in s.calls && i in Owned(s.calls[d]) {
      assert d != c ==> d in t.calls && i in Owned(t.calls[d]);
    }
    if e.Open? && i in Owned(t.calls[c]) {
      assert i >= s.nextStream;
    }
    assert c in t.calls;
  }

  // ----- Every run -----

  ghost predicate Inv(s: State) {
    GensInv(s) && InstallInv(s) && SessionInv(s) && forall i: nat :: OnePlace(s, i)
  }

  lemma StepKeepsInv(s: State, e: Event)
    requires Inv(s) && Next(s, e).Some?
    ensures Inv(Next(s, e).value)
  {
    hide GensInv, InstallInv, SessionInv, OnePlace, Next;
    StepKeepsGens(s, e);
    StepKeepsInstalls(s, e);
    StepKeepsSession(s, e);
    forall i: nat
      ensures OnePlace(Next(s, e).value, i)
    {
      StepKeepsPlace(s, e, i);
    }
  }

  lemma {:induction false} RunKeepsInv(s: State, events: seq<Event>)
    requires Inv(s) && Run(s, events).Some?
    ensures Inv(Run(s, events).value)
    decreases |events|
  {
    hide Inv, Next;
    if events != [] {
      StepKeepsInv(s, events[0]);
      RunKeepsInv(Next(s, events[0]).value, events[1..]);
    }
  }

  predicate Finished(s: State) {
    forall c :: c in s.calls ==> s.calls[c].Started? || s.calls[c].Stopped?
  }

  /** For any interleaving of any number of calls: installed generations strictly increase, and no
      stream is released twice, released while in use, or forgotten. Once all calls are done each stream
      ever opened is in the session or released, and if the newest call was a stop, all are released. */
  lemma EveryRun(events: seq<Event>, i: nat)
    requires Run(INITIAL, events).Some?
    ensures var s := Run(INITIAL, events).value;
      && Increasing(s.installs)
      && OnePlace(s, i)
      && (Finished(s) && i < s.nextStream ==> (i in Streams(s.session) <==> i !in s.released))
      && (forall c :: Finished(s) && c in s.calls && s.calls[c].gen == s.generation && s.calls[c].Stopped? ==>
            s.session.None? && (i < s.nextStream ==> i in s.released))
  {
    RunKeepsInv(INITIAL, events);
    var s := Run(INITIAL, events).value;
    assert OnePlace(s, i);
  }

  // ----- What a newer start can count on, exactly -----

  predicate HasTake(events: seq<Event>) {
    exists k :: 0 <= k < |events| && events[k].Take?
  }

  /** Nobody begins after the newest call installed: its session survives to the end of the run exactly
      when no stop, however old, takes the slot in between. */
  lemma {:induction false} NewestSessionSurvivesIff(s: State, events: seq<Event>)
    requires Inv(s) && s.session.Some? && s.session.value.gen == s.generation
    requires Run(s, events).Some? && Run(s, events).value.generation == s.generation
    ensures Run(s, events).value.session == s.session <==> !HasTake(events)
    ensures HasTake(events) ==> Run(s, events).value.session.None?
    decreases |events|
  {
    if events != [] {
      var (e, t) := (events[0], Next(s, events[0]).value);
      StepKeepsInv(s, e);
      GenerationGrows(t, events[1..]);
      NewestInstalledStays(s, e);
      assert HasTake(events) <==> e.Take? || HasTake(events[1..]) by {
        assert forall k :: 0 <= k < |events[1..]| ==> events[1..][k] == events[k + 1];
        if k :| 0 <= k < |events| && events[k].Take? {
          assert k > 0 ==> events[1..][k - 1].Take?;
        }
      }
      if e.Take? {
        NothingInstalls(t, events[1..]);
      } else {
        NewestSessionSurvivesIff(t, events[1..]);
      }
    }
  }

  lemma {:induction false} GenerationGrows(s: State, events: seq<Event>)
    requires Run(s, events).Some?
    ensures s.generation <= Run(s, events).value.generation
    decreases |events|
  {
    if events != [] {
      GenerationGrows(Next(s, events[0]).value, events[1..]);
    }
  }

  /** The newest generation has been installed already, so no other call can install. */
  ghost predicate NewestInstalled(s: State) {
    s.installs != [] && s.installs[|s.installs| - 1] == s.generation
  }

  lemma NewestInstalledStays(s: State, e: Event)
    requires Inv(s) && NewestInstalled(s) && Next(s, e).Some? && Next(s, e).value.generation == s.generation
    ensures NewestInstalled(Next(s, e).value)
    ensures Next(s, e).value.session == if e.Take? then None else s.session
  {
    if e.Install? {
      assert s.installs[|s.installs| - 1] != s.calls[e.call].gen;
    }
  }

  lemma {:induction false} NothingInstalls(s: State, events: seq<Event>)
    requires Inv(s) && NewestInstalled(s) && s.session.None?
    requires Run(s, events).Some? && Run(s, events).value.generation == s.generation
    ensures Run(s, events).value.session.None?
    decreases |events|
  {
    hide Inv;
    if events != [] {
      GenerationGrows(Next(s, events[0]).value, events[1..]);
      NewestInstalledStays(s, events[0]);
      StepKeepsInv(s, events[0]);
      NothingInstalls(Next(s, events[0]).value, events[1..]);
    }
  }

  // ----- What an install does, and what becomes of the newest start -----

  /** The newest call's streams become the session; it is handed the former session's to release. An
      older call keeps the session as it is and is left with its own streams to release. */
  lemma InstallTakesOver(s: State, c: nat)
    requires c in s.calls && s.calls[c].Opened?
    ensures Next(s, Install(c)).Some?
    ensures var (was, t) := (s.calls[c], Next(s, Install(c)).value);
      && t.released == s.released && t.generation == s.generation
      && if was.gen == s.generation
         then && t.session == Some(Session(was.gen, was.streams))
              && t.calls[c] == (if s.session.Some? then Dropping(was.gen, s.session.value.streams)
                                else Started(was.gen))
         else t.session == s.session && t.calls[c] == Dropping(was.gen, was.streams)
  {
  }

  /** A start that has its streams open and has finished in the end has installed them, or tried to. */
  lemma {:induction false} InstallComes(s: State, events: seq<Event>, c: nat) returns (m: nat)
    requires c in s.calls && s.calls[c].Opened?
    requires Run(s, events).Some? && Finished(Run(s, events).value)
    ensures m < |events| && events[m] == Install(c)
    ensures var u := Run(s, events[..m]); u.Some? && c in u.value.calls && u.value.calls[c] == s.calls[c]
    decreases |events|
  {
    var e := events[0];
    var t := Next(s, e).value;
    if e == Install(c) {
      m := 0;
    } else {
      assert c in t.calls && t.calls[c] == s.calls[c];
      hide Finished;
      var k := InstallComes(t, events[1..], c);
      m := k + 1;
      assert events[..m] == [e] + events[1..][..k];
      RunCons(s, e, events[1..][..k], t);
    }
  }

  lemma {:induction false} RunAppend(s: State, a: seq<Event>, b: seq<Event>)
    requires Run(s, a).Some?
    ensures Run(s, a + b) == Run(Run(s, a).value, b)
    decreases |a|
  {
    hide Next;
    if a == [] {
      assert a + b == b;
    } else {
      assert (a + b)[1..] == a[1..] + b;
      RunAppend(Next(s, a[0]).value, a[1..], b);
    }
  }

  lemma {:induction false} RunPrefix(s: State, a: seq<Event>, b: seq<Event>)
    requires Run(s, a + b).Some?
    ensures Run(s, a).Some?
    decreases |a|
  {
    hide Next;
    if a != [] {
      assert (a + b)[1..] == a[1..] + b;
      RunPrefix(Next(s, a[0]).value, a[1..], b);
    }
  }

  /** A run up to event k, that event, and the rest. */
  lemma SplitRun(s: State, events: seq<Event>, k: nat)
    requires k < |events| && Run(s, events).Some?
    ensures Run(s, events[..k]).Some?
    ensures var u := Run(s, events[..k]).value;
      Next(u, events[k]).Some? && Run(s, events) == Run(Next(u, events[k]).value, events[k + 1..])
  {
    hide Next;
    var (a, b) := (events[..k], events[k..]);
    assert events == a + b && b[0] == events[k] && b[1..] == events[k + 1..];
    RunPrefix(s, a, b);
    RunAppend(s, a, b);
  }

  /** From a state in which the newest call installs, to the end of the run. */
  lemma FromInstall(u: State, c: nat, after: seq<Event>)
    requires Inv(u) && c in u.calls && u.calls[c].Opened?
    requires Run(u, [Install(c)] + after).Some? && Run(u, [Install(c)] + after).value.generation == u.calls[c].gen
    ensures Run(u, [Install(c)] + after).value.session
         == if HasTake(after) then None else Some(Session(u.calls[c].gen, u.calls[c].streams))
  {
    var t := Next(u, Install(c)).value;
    RunCons(u, Install(c), after, t);
    StepKeepsInv(u, Install(c));
    GenerationGrows(t, after);
    InstallTakesOver(u, c);
    assert u.calls[c].gen <= u.generation;
    hide Inv, Next, Run;
    NewestSessionSurvivesIff(t, after);
  }

  /** Over every run: call c opened its streams as event o, all calls are done at the end, and c's
      generation still is the newest. Then c installed, and the session is exactly its streams, unless a
      stop has taken the slot since. */
  lemma NewestStartHolds(events: seq<Event>, o: nat, c: nat, count: nat) returns (m: nat)
    requires o < |events| && events[o] == Open(c, count) && count > 0
    requires Run(INITIAL, events).Some?
    requires var s := Run(INITIAL, events).value;
      Finished(s) && c in s.calls && s.calls[c].gen == s.generation
    ensures Run(INITIAL, events[..o]).Some?
    ensures o < m < |events| && events[m] == Install(c)
    ensures var (s, first) := (Run(INITIAL, events).value, Run(INITIAL, events[..o]).value.nextStream);
      s.session == if HasTake(events[m + 1..]) then None
                   else Some(Session(s.generation, Fresh(first, count)))
  {
    SplitRun(INITIAL, events, o);
    var (before, rest) := (Run(INITIAL, events[..o]).value, events[o + 1..]);
    var ready := Next(before, events[o]).value;
    assert c in ready.calls && ready.calls[c] == Opened(before.calls[c].gen, Fresh(before.nextStream, count));
    hide Finished, Fresh, Next, Run, Inv, HasTake;
    var k := InstallComes(ready, rest, c);
    m := o + 1 + k;
    assert events[m + 1..] == rest[k + 1..];
    SplitRun(ready, rest, k);
    var u := Run(ready, rest[..k]).value;
    InitialInv();
    RunKeepsInv(INITIAL, events[..o]);
    StepKeepsInv(before, events[o]);
    RunKeepsInv(ready, rest[..k]);
    RunCons(u, Install(c), rest[k + 1..], Next(u, Install(c)).value);
    GenStays(u, [Install(c)] + rest[k + 1..], c);
    FromInstall(u, c, rest[k + 1..]);
  }

  lemma InitialInv()
    ensures Inv(INITIAL)
  {
  }

  /** A call keeps its generation. */
  lemma {:induction false} GenStays(s: State, events: seq<Event>, c: nat)
    requires c in s.calls && Run(s, events).Some?
    ensures c in Run(s, events).value.calls && Run(s, events).value.calls[c].gen == s.calls[c].gen
    decreases |events|
  {
    if events != [] {
      GenStays(Next(s, events[0]).value, events[1..], c);
    }
  }

  // ----- When an installed session is safe, said of the state it is installed in -----

  predicate NoBegins(events: seq<Event>) {
    forall k :: 0 <= k < |events| ==> !IsBegin(events[k])
  }

  /** No stop is on its way to the slot. */
  predicate NoStopWaiting(s: State) {
    forall c :: c in s.calls ==> !s.calls[c].Stopping?
  }

  /** Without a new call no stop can turn up. */
  lemma StepNoStop(s: State, e: Event)
    requires NoStopWaiting(s) && !IsBegin(e) && Next(s, e).Some?
    ensures NoStopWaiting(Next(s, e).value) && !e.Take? && Next(s, e).value.generation == s.generation
  {
  }

  lemma {:induction false} NoTake(s: State, events: seq<Event>)
    requires NoStopWaiting(s) && NoBegins(events) && Run(s, events).Some?
    ensures !HasTake(events) && Run(s, events).value.generation == s.generation
    decreases |events|
  {
    if events != [] {
      StepNoStop(s, events[0]);
      assert forall k :: 0 <= k < |events[1..]| ==> events[1..][k] == events[k + 1];
      NoTake(Next(s, events[0]).value, events[1..]);
      hide Next, NoStopWaiting;
      assert forall k :: 1 <= k < |events| ==> events[k] == events[1..][k - 1];
    }
  }

  /** The newest call has installed its session: whatever the calls now running do, in whatever order,
      leaves the session alone if and only if none of them is a stop that has yet to take the slot. */
  lemma SafeIff(s: State)
    requires Inv(s) && s.session.Some? && s.session.value.gen == s.generation
    ensures NoStopWaiting(s) <==>
      (forall events: seq<Event> :: NoBegins(events) && Run(s, events).Some? ==>
         Run(s, events).value.session == s.session)
  {
    hide Inv;
    if NoStopWaiting(s) {
      forall events: seq<Event> | NoBegins(events) && Run(s, events).Some?
        ensures Run(s, events).value.session == s.session
      {
        NoTake(s, events);
        NewestSessionSurvivesIff(s, events);
      }
    } else {
      var c :| c in s.calls && s.calls[c].Stopping?;
      var t := Next(s, Take(c)).value;
      RunCons(s, Take(c), [], t);
      assert [Take(c)] + [] == [Take(c)] && NoBegins([Take(c)]);
      assert Run(t, []) == Some(t);
      assert Run(s, [Take(c)]).value.session != s.session;
    }
  }

  /** A stop that is slow to reach the lock removes the session of a start that came after it. */
  lemma DelayedStopRemovesNewer()
    ensures var r := Run(INITIAL, [BeginStop(0), BeginStart(1), Open(1, 1), Install(1), Take(0)]);
      && r.Some? && Finished(r.value) && r.value.installs == [2] && r.value.session.None?
  {
    var s1 := INITIAL.(generation := 1, calls := map[0 := Stopping(1)]);
    var s2 := s1.(generation := 2, calls := s1.calls[1 := Opening(2)]);
    var s3 := s2.(nextStream := 1, calls := s2.calls[1 := Opened(2, Fresh(0, 1))]);
    var s4 := s3.(session := Some(Session(2, Fresh(0, 1))), installs := [2], calls := s3.calls[1 := Started(2)]);
    var s5 := s4.(session := None, released := Fresh(0, 1), calls := s4.calls[0 := Stopped(1)]);
    assert [] + [2] == [2] && {} + Fresh(0, 1) == Fresh(0, 1);
    assert Next(INITIAL, BeginStop(0)) == Some(s1);
    assert Next(s1, BeginStart(1)) == Some(s2);
    assert Next(s2, Open(1, 1)) == Some(s3);
    assert Next(s3, Install(1)) == Some(s4);
    assert Next(s4, Take(0)) == Some(s5);
    hide Next, Fresh;
    assert Run(s5, []) == Some(s5);
    RunCons(s4, Take(0), [], s5);
    RunCons(s3, Install(1), [Take(0)], s4);
    RunCons(s2, Open(1, 1), [Install(1), Take(0)], s3);
    RunCons(s1, BeginStart(1), [Open(1, 1), Install(1), Take(0)], s2);
    RunCons(INITIAL, BeginStop(0), [BeginStart(1), Open(1, 1), Install(1), Take(0)], s1);
    assert [BeginStop(0)] + [BeginStart(1), Open(1, 1), Install(1), Take(0)]
        == [BeginStop(0), BeginStart(1), Open(1, 1), Install(1), Take(0)];
    assert [BeginStart(1)] + [Open(1, 1), Install(1), Take(0)] == [BeginStart(1), Open(1, 1), Install(1), Take(0)];
    assert [Open(1, 1)] + [Install(1), Take(0)] == [Open(1, 1), Install(1), Take(0)];
    assert [Install(1)] + [Take(0)] == [Install(1), Take(0)];
    assert [Take(0)] + [] == [Take(0)];
  }

  lemma RunSnoc(s: State, events: seq<Event>, u: State, e: Event, t: State)
    requires Run(s, events) == Some(u) && Next(u, e) == Some(t)
    ensures Run(s, events + [e]) == Some(t)
  {
    RunAppend(s, events, [e]);
    assert [e][1..] == [];
  }

  /** A change of microphone: the second start takes over, and the first one's stream is released. */
  lemma SecondStartTakesOver()
    ensures var r := Run(INITIAL,
        [BeginStart(0), Open(0, 1), Install(0), BeginStart(1), Open(1, 1), Install(1), Drop(1)]);
      && r.Some? && Finished(r.value) && r.value.session == Some(Session(2, {1})) && r.value.released == {0}
  {
    var s1 := INITIAL.(generation := 1, calls := map[0 := Opening(1)]);
    var s2 := s1.(nextStream := 1, calls := s1.calls[0 := Opened(1, Fresh(0, 1))]);
    var s3 := s2.(session := Some(Session(1, Fresh(0, 1))), installs := [1], calls := s2.calls[0 := Started(1)]);
    var s4 := s3.(generation := 2, calls := s3.calls[1 := Opening(2)]);
    var s5 := s4.(nextStream := 2, calls := s4.calls[1 := Opened(2, Fresh(1, 1))]);
    var s6 := s5.(session := Some(Session(2, Fresh(1, 1))), installs := [1, 2],
                  calls := s5.calls[1 := Dropping(2, Fresh(0, 1))]);
    var s7 := s6.(released := Fresh(0, 1), calls := s6.calls[1 := Started(2)]);
    assert Fresh(0, 1) == {0} && Fresh(1, 1) == {1} && {} + {0} == {0} && [] + [1] == [1] && [1] + [2] == [1, 2];
    assert Next(INITIAL, BeginStart(0)) == Some(s1) && Next(s1, Open(0, 1)) == Some(s2);
    assert Next(s2, Install(0)) == Some(s3) && Next(s3, BeginStart(1)) == Some(s4);
    assert Next(s4, Open(1, 1)) == Some(s5) && Next(s5, Install(1)) == Some(s6) && Next(s6, Drop(1)) == Some(s7);
    assert Run(INITIAL, []) == Some(INITIAL);
    assert Finished(s7);
    hide Next, Run, Fresh, Finished;
    RunSnoc(INITIAL, [], INITIAL, BeginStart(0), s1);
    assert [] + [BeginStart(0)] == [BeginStart(0)];
    RunSnoc(INITIAL, [BeginStart(0)], s1, Open(0, 1), s2);
    RunSnoc(INITIAL, [BeginStart(0)] + [Open(0, 1)], s2, Install(0), s3);
    RunSnoc(INITIAL, [BeginStart(0)] + [Open(0, 1)] + [Install(0)], s3, BeginStart(1), s4);
    RunSnoc(INITIAL, [BeginStart(0)] + [Open(0, 1)] + [Install(0)] + [BeginStart(1)], s4, Open(1, 1), s5);
    RunSnoc(INITIAL, [BeginStart(0)] + [Open(0, 1)] + [Install(0)] + [BeginStart(1)] + [Open(1, 1)],
            s5, Install(1), s6);
    RunSnoc(INITIAL, [BeginStart(0)] + [Open(0, 1)] + [Install(0)] + [BeginStart(1)] + [Open(1, 1)] + [Install(1)],
            s6, Drop(1), s7);
    assert [BeginStart(0)] + [Open(0, 1)] + [Install(0)] + [BeginStart(1)] + [Open(1, 1)] + [Install(1)] + [Drop(1)]
        == [BeginStart(0), Open(0, 1), Install(0), BeginStart(1), Open(1, 1), Install(1), Drop(1)];
  }

  lemma RunCons(s: State, e: Event, rest: seq<Event>, t: State)
    requires Next(s, e) == Some(t)
    ensures Run(s, [e] + rest) == Run(t, rest)
  {
    assert ([e] + rest)[1..] == rest;
  }
}
