/** The control half of the two-source mixer: which sample positions each source has reached, when
    the shared window cursor may move, and which source is given up on. No audio appears here; the
    class in MixerRing.dfy shows that its samples follow this clock. */
module MixerClock {
  import opened Wrappers

  datatype Source = Microphone | System

  /** Window length, safety cap and give-up lag, all in samples. */
  datatype Limits = Limits(window: nat, cap: nat, lag: nat) {
    ghost predicate Valid() {
      0 < window <= lag <= cap
    }
  }

  /** What the cursor knows of one source. `next` is the aligned position of the next sample. */
  datatype Side = Side(expected: bool, seen: bool, next: nat, discard: nat)

  datatype Clock = Clock(mic: Side, system: Side, pos: nat)

  datatype Gaps = Gaps(mic: bool, system: bool)

  function Peer(source: Source): Source {
    if source == Microphone then System else Microphone
  }

  function SideOf(c: Clock, source: Source): Side {
    if source == Microphone then c.mic else c.system
  }

  function GapOf(g: Gaps, source: Source): bool {
    if source == Microphone then g.mic else g.system
  }

  const IDLE: Side := Side(true, false, 0, 0)

  function Start(micPresent: bool, systemPresent: bool): Clock {
    Clock(IDLE.(expected := micPresent), IDLE.(expected := systemPresent), 0)
  }

  /** How far a source vouches for its data; an absent source tracks the cursor. */
  function Frontier(side: Side, pos: nat): nat {
    if !side.expected then pos else if side.seen then side.next else 0
  }

  predicate Covered(lim: Limits, side: Side, pos: nat) {
    side.expected ==> Frontier(side, pos) >= pos + lim.window
  }

  /** A source is given up on when it lacks the window and the other one leads by more than the lag. */
  predicate GivenUp(lim: Limits, side: Side, other: Side, pos: nat) {
    !Covered(lim, side, pos) && Frontier(other, pos) > pos + lim.lag
  }

  predicate Resolved(lim: Limits, side: Side, other: Side, pos: nat) {
    Covered(lim, side, pos) || GivenUp(lim, side, other, pos)
  }

  function Plan(lim: Limits, c: Clock): Option<Gaps> {
    if (c.mic.expected || c.system.expected)
       && Resolved(lim, c.mic, c.system, c.pos) && Resolved(lim, c.system, c.mic, c.pos)
    then Some(Gaps(GivenUp(lim, c.mic, c.system, c.pos), GivenUp(lim, c.system, c.mic, c.pos)))
    else None
  }

  function Anchor(side: Side, other: Side): nat {
    Max(if other.expected && other.seen then other.next else 0, side.discard)
  }

  function Advanced(side: Side, other: Side, n: nat): Side {
    if !side.expected || n == 0 then side
    else side.(seen := true, next := (if side.seen then side.next else Anchor(side, other)) + n)
  }

  function Arrive(c: Clock, source: Source, n: nat): Clock {
    match source
    case Microphone => c.(mic := Advanced(c.mic, c.system, n))
    case System => c.(system := Advanced(c.system, c.mic, n))
  }

  function Passed(side: Side, gap: bool, end: nat): Side {
    if gap && side.expected then side.(discard := Max(side.discard, end)) else side
  }

  function Step(lim: Limits, c: Clock, gaps: Gaps): Clock {
    var end := c.pos + lim.window;
    Clock(Passed(c.mic, gaps.mic, end), Passed(c.system, gaps.system, end), end)
  }

  // ----- Draining -----

  function Lead(c: Clock): nat {
    Max(0, Max(Frontier(c.mic, c.pos), Frontier(c.system, c.pos)) - c.pos)
  }

  /** The drain measure: a window is only cut while some source leads the cursor, and cutting one
      takes a whole window off the lead. */
  lemma StepShrinksLead(lim: Limits, c: Clock)
    requires lim.Valid() && Plan(lim, c).Some?
    ensures Lead(c) >= lim.window
    ensures Lead(Step(lim, c, Plan(lim, c).value)) == Lead(c) - lim.window
  {
  }

  /** The windows the drain loop cuts, in order. */
  function DrainGaps(lim: Limits, c: Clock): seq<Gaps>
    requires lim.Valid()
    decreases Lead(c)
  {
    match Plan(lim, c)
    case None => []
    case Some(g) =>
      StepShrinksLead(lim, c);
      [g] + DrainGaps(lim, Step(lim, c, g))
  }

  function Drain(lim: Limits, c: Clock): Clock
    requires lim.Valid()
    decreases Lead(c)
  {
    match Plan(lim, c)
    case None => c
    case Some(g) =>
      StepShrinksLead(lim, c);
      Drain(lim, Step(lim, c, g))
  }

  // ----- The invariant of the cursor -----

  ghost predicate SideInv(side: Side, pos: nat) {
    && side.discard <= pos
    && (!side.seen ==> side.next == 0)
    && (side.expected && !side.seen ==> side.discard == pos)
    && (side.seen && side.next < pos ==> side.discard == pos)
    && (!side.expected ==> !side.seen)
  }

  ghost predicate Inv(c: Clock) {
    SideInv(c.mic, c.pos) && SideInv(c.system, c.pos)
  }

  lemma ArriveKeepsInv(c: Clock, source: Source, n: nat)
    requires Inv(c)
    ensures Inv(Arrive(c, source, n))
  {
  }

  lemma StepKeepsInv(lim: Limits, c: Clock)
    requires lim.Valid() && Inv(c) && Plan(lim, c).Some?
    ensures Inv(Step(lim, c, Plan(lim, c).value))
  {
  }

  /** A window never costs both sources their audio. */
  lemma AtMostOneGap(lim: Limits, c: Clock)
    requires lim.Valid() && Plan(lim, c).Some?
    ensures !(Plan(lim, c).value.mic && Plan(lim, c).value.system)
  {
  }

  /** When the drain stops, neither source is more than the lag ahead of the cursor. */
  lemma {:induction false} DrainBound(lim: Limits, c: Clock)
    requires lim.Valid() && Inv(c)
    ensures Inv(Drain(lim, c)) && Plan(lim, Drain(lim, c)).None?
    ensures Lead(Drain(lim, c)) <= lim.lag
    decreases Lead(c)
  {
    if Plan(lim, c).Some? {
      StepShrinksLead(lim, c);
      StepKeepsInv(lim, c);
      DrainBound(lim, Step(lim, c, Plan(lim, c).value));
    }
  }

  /** Draining moves the cursor by whole windows and touches no stream position. */
  lemma {:induction false} DrainMovesCursorOnly(lim: Limits, c: Clock)
    requires lim.Valid()
    ensures var d := Drain(lim, c);
      d == Clock(c.mic.(discard := d.mic.discard), c.system.(discard := d.system.discard), d.pos)
    decreases Lead(c)
  {
    if Plan(lim, c).Some? {
      StepShrinksLead(lim, c);
      DrainMovesCursorOnly(lim, Step(lim, c, Plan(lim, c).value));
    }
  }

  // ----- Whole runs: a chunk arrives, then every resolved window is cut -----

  datatype Event = Event(source: Source, n: nat)

  function RunGaps(lim: Limits, c: Clock, events: seq<Event>): seq<Gaps>
    requires lim.Valid()
    decreases |events|
  {
    if events == [] then []
    else
      var arrived := Arrive(c, events[0].source, events[0].n);
      DrainGaps(lim, arrived) + RunGaps(lim, Drain(lim, arrived), events[1..])
  }

  function RunClock(lim: Limits, c: Clock, events: seq<Event>): Clock
    requires lim.Valid()
    decreases |events|
  {
    if events == [] then c
    else RunClock(lim, Drain(lim, Arrive(c, events[0].source, events[0].n)), events[1..])
  }

  /** The arrivals alone, with no window ever cut: where each stream truly stands. */
  function Arrivals(c: Clock, events: seq<Event>): Clock
    decreases |events|
  {
    if events == [] then c else Arrivals(Arrive(c, events[0].source, events[0].n), events[1..])
  }

  /** No window gives up on the source. */
  predicate Spares(gaps: seq<Gaps>, source: Source) {
    forall i :: 0 <= i < |gaps| ==> !GapOf(gaps[i], source)
  }

  predicate Gapless(gaps: seq<Gaps>) {
    Spares(gaps, Microphone) && Spares(gaps, System)
  }

  /** How far the source's own stream reaches, cursor aside. */
  function Reach(c: Clock, source: Source): nat {
    Frontier(SideOf(c, source), 0)
  }

  /** The last window boundary up to x. */
  function Floor(x: nat, w: nat): nat
    requires w > 0
  {
    x / w * w
  }

  /** The peer's stream stays within the lag of the source's last whole window. */
  predicate KeepsUp(lim: Limits, c: Clock, source: Source)
    requires lim.Valid()
  {
    Reach(c, Peer(source)) <= Floor(Reach(c, source), lim.window) + lim.lag
  }

  lemma MulOneMore(n: int, w: int)
    ensures (n + 1) * w == n * w + w
  {
  }

  lemma MulOrder(a: int, b: int, w: nat)
    ensures a <= b ==> a * w <= b * w
  {
  }

  lemma FloorIs(x: nat, k: nat, w: nat)
    requires 0 < w && k * w <= x < k * w + w
    ensures Floor(x, w) == k * w
  {
    var q := x / w;
    assert x == q * w + x % w;
    MulOrder(k + 1, q, w);
    MulOrder(q + 1, k, w);
    MulOneMore(k, w);
    MulOneMore(q, w);
  }

  /** The cursor stands on a window boundary. */
  ghost predicate OnBoundary(pos: nat, w: nat) {
    exists k: nat :: pos == k * w
  }

  lemma NextBoundary(pos: nat, x: nat, w: nat)
    requires w > 0 && OnBoundary(pos, w)
    ensures OnBoundary(pos + w, w)
    ensures pos <= x < pos + w ==> Floor(x, w) == pos
  {
    var k: nat :| pos == k * w;
    MulOneMore(k, w);
    assert pos + w == (k + 1) * w;
    if pos <= x < pos + w {
      FloorIs(x, k, w);
    }
  }

  lemma {:induction false} DrainOnBoundary(lim: Limits, c: Clock)
    requires lim.Valid() && OnBoundary(c.pos, lim.window)
    ensures OnBoundary(Drain(lim, c).pos, lim.window)
    decreases Lead(c)
  {
    hide OnBoundary;
    if Plan(lim, c).Some? {
      StepShrinksLead(lim, c);
      NextBoundary(c.pos, c.pos, lim.window);
      DrainOnBoundary(lim, Step(lim, c, Plan(lim, c).value));
    }
  }

  lemma {:induction false} RunOnBoundary(lim: Limits, c: Clock, events: seq<Event>)
    requires lim.Valid() && OnBoundary(c.pos, lim.window)
    ensures OnBoundary(RunClock(lim, c, events).pos, lim.window)
    decreases |events|
  {
    hide OnBoundary;
    if events != [] {
      DrainOnBoundary(lim, Arrive(c, events[0].source, events[0].n));
      RunOnBoundary(lim, Drain(lim, Arrive(c, events[0].source, events[0].n)), events[1..]);
    }
  }

  lemma FloorOnBoundary(x: nat, w: nat)
    requires w > 0
    ensures OnBoundary(Floor(x, w), w) && Floor(x, w) <= x
  {
  }

  lemma FloorMonotone(x: nat, y: nat, w: nat)
    requires w > 0 && x <= y
    ensures Floor(x, w) <= Floor(y, w)
  {
    MulOrder(x / w, y / w, w);
    if y / w < x / w {
      MulOrder(y / w + 1, x / w, w);
      MulOneMore(y / w, w);
    }
  }

  lemma FloorOfLater(pos: nat, x: nat, w: nat)
    requires w > 0 && OnBoundary(pos, w) && pos <= x
    ensures pos <= Floor(x, w)
  {
    var k: nat :| pos == k * w;
    FloorIs(pos, k, w);
    FloorMonotone(pos, x, w);
  }

  lemma SparesSplits(here: seq<Gaps>, rest: seq<Gaps>, source: Source)
    ensures Spares(here + rest, source) <==> Spares(here, source) && Spares(rest, source)
  {
    assert forall i :: 0 <= i < |here| ==> (here + rest)[i] == here[i];
    assert forall i :: 0 <= i < |rest| ==> (here + rest)[i + |here|] == rest[i];
  }

  // ----- When a source is given up on, exactly -----

  /** Both sources are present and the cursor has not passed the source's stream. */
  ghost predicate Upheld(lim: Limits, c: Clock, source: Source) {
    && c.mic.expected && c.system.expected && Inv(c)
    && OnBoundary(c.pos, lim.window) && c.pos <= Reach(c, source)
  }

  /** One window: cut without giving up on a source that covers it, or not cut, or its gap. */
  lemma PlanSpares(lim: Limits, c: Clock, source: Source)
    requires lim.Valid() && Upheld(lim, c, source)
    ensures match Plan(lim, c)
      case None => KeepsUp(lim, c, source)
      case Some(g) =>
        if GapOf(g, source) then !KeepsUp(lim, c, source)
        else c.pos + lim.window <= Reach(c, source)
  {
    hide OnBoundary, Floor;
    NextBoundary(c.pos, Reach(c, source), lim.window);
    FloorOfLater(c.pos, Reach(c, source), lim.window);
    if c.pos + lim.window <= Reach(c, source) {
      FloorOfLater(c.pos + lim.window, Reach(c, source), lim.window);
    }
  }

  /** One drain gives up on the source exactly when the peer has got too far ahead. */
  lemma {:induction false} DrainSpares(lim: Limits, c: Clock, source: Source)
    requires lim.Valid() && Upheld(lim, c, source)
    ensures Spares(DrainGaps(lim, c), source) <==> KeepsUp(lim, c, source)
    ensures KeepsUp(lim, c, source) ==> Upheld(lim, Drain(lim, c), source)
    decreases Lead(c)
  {
    hide OnBoundary, Floor;
    PlanSpares(lim, c, source);
    if Plan(lim, c).Some? {
      var g := Plan(lim, c).value;
      StepShrinksLead(lim, c);
      StepKeepsInv(lim, c);
      var d := Step(lim, c, g);
      SparesSplits([g], DrainGaps(lim, d), source);
      assert [g][0] == g;
      if !GapOf(g, source) {
        NextBoundary(c.pos, c.pos, lim.window);
        DrainSpares(lim, d, source);
      }
    }
  }

  /** The peer keeps within the lag after each of the arrivals. */
  predicate KeepsUpAlong(lim: Limits, c: Clock, events: seq<Event>, source: Source)
    requires lim.Valid()
    decreases |events|
  {
    events != [] ==>
      var a := Arrive(c, events[0].source, events[0].n);
      KeepsUp(lim, a, source) && KeepsUpAlong(lim, a, events[1..], source)
  }

  lemma {:induction false} KeepsUpAlongIsEveryPrefix(lim: Limits, c: Clock, events: seq<Event>, source: Source)
    requires lim.Valid()
    ensures KeepsUpAlong(lim, c, events, source) <==>
            forall j :: 1 <= j <= |events| ==> KeepsUp(lim, Arrivals(c, events[..j]), source)
    decreases |events|
  {
    if events != [] {
      var a := Arrive(c, events[0].source, events[0].n);
      KeepsUpAlongIsEveryPrefix(lim, a, events[1..], source);
      assert Arrivals(c, events[..1]) == a by { assert events[..1][1..] == []; }
      forall j | 1 <= j <= |events|
        ensures Arrivals(c, events[..j]) == Arrivals(a, events[1..][..j - 1])
      {
        assert events[..j][1..] == events[1..][..j - 1];
      }
      if forall j :: 1 <= j <= |events| ==> KeepsUp(lim, Arrivals(c, events[..j]), source) {
        forall j | 1 <= j <= |events[1..]|
          ensures KeepsUp(lim, Arrivals(a, events[1..][..j]), source)
        {
          var i := j + 1;
          assert KeepsUp(lim, Arrivals(c, events[..i]), source);
        }
      }
    }
  }

  /** A source not heard yet will anchor at its peer's position, whatever has been discarded. */
  predicate AnchorsAtPeer(c: Clock) {
    && (!c.mic.seen ==> c.mic.discard <= Reach(c, System))
    && (!c.system.seen ==> c.system.discard <= Reach(c, Microphone))
  }

  /** The streams stand where they stand, whatever the cursor has done. */
  predicate SameStreams(c: Clock, d: Clock) {
    c.mic == d.mic.(discard := c.mic.discard) && c.system == d.system.(discard := c.system.discard)
  }

  lemma ArriveIgnoresCursor(c: Clock, d: Clock, source: Source, n: nat)
    requires c.mic.expected && c.system.expected
    requires SameStreams(c, d) && AnchorsAtPeer(c) && AnchorsAtPeer(d)
    ensures var (e, f) := (Arrive(c, source, n), Arrive(d, source, n));
      && e.mic.expected && e.system.expected
      && SameStreams(e, f) && AnchorsAtPeer(e) && AnchorsAtPeer(f)
  {
  }

  lemma SameStreamsKeepUp(lim: Limits, c: Clock, d: Clock, source: Source)
    requires lim.Valid() && SameStreams(c, d)
    ensures KeepsUp(lim, c, source) <==> KeepsUp(lim, d, source)
  {
    hide Floor;
  }

  lemma {:induction false} KeepingUpIgnoresCursor(lim: Limits, c: Clock, d: Clock, events: seq<Event>, source: Source)
    requires lim.Valid() && c.mic.expected && c.system.expected
    requires SameStreams(c, d) && AnchorsAtPeer(c) && AnchorsAtPeer(d)
    ensures KeepsUpAlong(lim, c, events, source) <==> KeepsUpAlong(lim, d, events, source)
    decreases |events|
  {
    if events != [] {
      var (e, f) := (Arrive(c, events[0].source, events[0].n), Arrive(d, events[0].source, events[0].n));
      ArriveIgnoresCursor(c, d, events[0].source, events[0].n);
      SameStreamsKeepUp(lim, e, f, source);
      hide Arrive, KeepsUp, SameStreams, AnchorsAtPeer;
      KeepingUpIgnoresCursor(lim, e, f, events[1..], source);
    }
  }

  lemma UpheldAnchors(lim: Limits, c: Clock, source: Source)
    requires Upheld(lim, c, source)
    ensures AnchorsAtPeer(c)
  {
  }

  lemma {:induction false} RunSparesFrom(lim: Limits, c: Clock, events: seq<Event>, source: Source)
    requires lim.Valid() && Upheld(lim, c, source)
    ensures Spares(RunGaps(lim, c, events), source) <==> KeepsUpAlong(lim, c, events, source)
    decreases |events|
  {
    if events != [] {
      var a := Arrive(c, events[0].source, events[0].n);
      ArriveKeepsInv(c, events[0].source, events[0].n);
      assert Upheld(lim, a, source);
      DrainSpares(lim, a, source);
      SparesSplits(DrainGaps(lim, a), RunGaps(lim, Drain(lim, a), events[1..]), source);
      if KeepsUp(lim, a, source) {
        RunSparesFrom(lim, Drain(lim, a), events[1..], source);
        DrainMovesCursorOnly(lim, a);
        UpheldAnchors(lim, a, source);
        UpheldAnchors(lim, Drain(lim, a), source);
        KeepingUpIgnoresCursor(lim, a, Drain(lim, a), events[1..], source);
      }
    }
  }

  /** Exactly when a two-source recording never gives up on a source: at every moment its peer's own
      stream is within the lag of the source's last whole window. Whether the peer is ever given up on
      does not matter. */
  lemma {:induction false} NeverGivenUpIff(lim: Limits, events: seq<Event>, source: Source)
    requires lim.Valid()
    ensures Spares(RunGaps(lim, Start(true, true), events), source) <==>
            forall j :: 1 <= j <= |events| ==> KeepsUp(lim, Arrivals(Start(true, true), events[..j]), source)
  {
    assert OnBoundary(0, lim.window) by { assert 0 == 0 * lim.window; }
    RunSparesFrom(lim, Start(true, true), events, source);
    KeepsUpAlongIsEveryPrefix(lim, Start(true, true), events, source);
  }

  function Behind(c: Clock): nat {
    Min(Reach(c, Microphone), Reach(c, System))
  }

  function Ahead(c: Clock): nat {
    Max(Reach(c, Microphone), Reach(c, System))
  }

  /** The leading stream stays within the lag of the last whole window of the trailing one. */
  predicate SkewWithinLag(lim: Limits, c: Clock)
    requires lim.Valid()
  {
    Ahead(c) <= Floor(Behind(c), lim.window) + lim.lag
  }

  lemma SkewIsBoth(lim: Limits, c: Clock)
    requires lim.Valid()
    ensures SkewWithinLag(lim, c) <==> KeepsUp(lim, c, Microphone) && KeepsUp(lim, c, System)
  {
    FloorMonotone(Behind(c), Ahead(c), lim.window);
    FloorOnBoundary(Behind(c), lim.window);
    hide Floor;
  }

  /** And when it never gives up on anybody. */
  lemma NeverGivesUpIff(lim: Limits, events: seq<Event>)
    requires lim.Valid()
    ensures Gapless(RunGaps(lim, Start(true, true), events)) <==>
            forall j :: 1 <= j <= |events| ==> SkewWithinLag(lim, Arrivals(Start(true, true), events[..j]))
  {
    NeverGivenUpIff(lim, events, Microphone);
    NeverGivenUpIff(lim, events, System);
    hide KeepsUp, SkewWithinLag, Arrivals, RunGaps;
    forall j | 1 <= j <= |events|
      ensures SkewWithinLag(lim, Arrivals(Start(true, true), events[..j])) <==>
        && KeepsUp(lim, Arrivals(Start(true, true), events[..j]), Microphone)
        && KeepsUp(lim, Arrivals(Start(true, true), events[..j]), System)
    {
      SkewIsBoth(lim, Arrivals(Start(true, true), events[..j]));
    }
  }

  /** A recording with at most one source never gives up on anything. */
  lemma {:induction false} SingleSourceNeverGaps(lim: Limits, c: Clock, events: seq<Event>)
    requires lim.Valid() && Inv(c) && !(c.mic.expected && c.system.expected)
    ensures Gapless(RunGaps(lim, c, events))
    decreases |events|
  {
    if events != [] {
      var a := Arrive(c, events[0].source, events[0].n);
      SingleSourceDrain(lim, a);
      DrainBound(lim, a);
      DrainMovesCursorOnly(lim, a);
      SingleSourceNeverGaps(lim, Drain(lim, a), events[1..]);
    }
  }

  lemma {:induction false} SingleSourceDrain(lim: Limits, c: Clock)
    requires lim.Valid() && Inv(c) && !(c.mic.expected && c.system.expected)
    ensures Gapless(DrainGaps(lim, c))
    decreases Lead(c)
  {
    if Plan(lim, c).Some? {
      StepShrinksLead(lim, c);
      SingleSourceDrain(lim, Step(lim, c, Plan(lim, c).value));
    }
  }

  // ----- Where the cursor stands while one source is spared, whatever becomes of the other -----

  lemma {:induction false} ArrivalsIgnoreCursor(c: Clock, d: Clock, events: seq<Event>)
    requires c.mic.expected && c.system.expected
    requires SameStreams(c, d) && AnchorsAtPeer(c) && AnchorsAtPeer(d)
    ensures SameStreams(Arrivals(c, events), Arrivals(d, events))
    decreases |events|
  {
    if events != [] {
      var (e, f) := (Arrive(c, events[0].source, events[0].n), Arrive(d, events[0].source, events[0].n));
      ArriveIgnoresCursor(c, d, events[0].source, events[0].n);
      hide Arrive, SameStreams, AnchorsAtPeer;
      ArrivalsIgnoreCursor(e, f, events[1..]);
    }
  }

  /** The first window boundary from x on. */
  function Ceiling(x: int, w: nat): nat
    requires w > 0
  {
    if x <= 0 then 0 else Floor(x + w - 1, w)
  }

  lemma CeilingOnBoundary(pos: nat, x: int, w: nat)
    requires w > 0 && OnBoundary(pos, w)
    ensures x <= pos ==> Ceiling(x, w) <= pos
    ensures x > pos ==> pos + w <= Ceiling(x, w)
  {
    if 0 < x <= pos {
      FloorMonotone(x + w - 1, pos + w - 1, w);
      NextBoundary(pos, pos + w - 1, w);
    }
    if x > pos {
      NextBoundary(pos, pos, w);
      FloorOfLater(pos + w, x + w - 1, w);
    }
  }

  /** The last window boundary both streams have passed, or the first one that is not more than the lag
      behind the source, whichever is later. */
  function LastCut(lim: Limits, c: Clock, source: Source): nat
    requires lim.Valid()
  {
    Max(Floor(Behind(c), lim.window), Ceiling(Reach(c, source) - lim.lag, lim.window))
  }

  lemma LastCutGrows(lim: Limits, c: Clock, d: Clock, source: Source)
    requires lim.Valid() && Reach(c, Microphone) <= Reach(d, Microphone) && Reach(c, System) <= Reach(d, System)
    ensures LastCut(lim, c, source) <= LastCut(lim, d, source)
  {
    FloorMonotone(Behind(c), Behind(d), lim.window);
    if Reach(c, source) > lim.lag {
      FloorMonotone(Reach(c, source) - lim.lag + lim.window - 1, Reach(d, source) - lim.lag + lim.window - 1,
                    lim.window);
    }
    hide Floor;
  }

  /** A window is cut only before the last cut, and the drain does not stop before it. */
  lemma PlanReachesLastCut(lim: Limits, c: Clock, source: Source)
    requires lim.Valid() && Upheld(lim, c, source) && KeepsUp(lim, c, source)
    ensures match Plan(lim, c)
      case None => LastCut(lim, c, source) <= c.pos
      case Some(g) => !GapOf(g, source) && c.pos + lim.window <= LastCut(lim, c, source)
  {
    PlanSpares(lim, c, source);
    hide OnBoundary, Floor, Ceiling;
    CeilingOnBoundary(c.pos, Reach(c, source) - lim.lag, lim.window);
    if Behind(c) < c.pos + lim.window {
      FloorMonotone(Behind(c), c.pos + lim.window - 1, lim.window);
      NextBoundary(c.pos, c.pos + lim.window - 1, lim.window);
    } else {
      NextBoundary(c.pos, c.pos, lim.window);
      FloorOfLater(c.pos + lim.window, Behind(c), lim.window);
    }
  }

  lemma {:induction false} DrainToLastCut(lim: Limits, c: Clock, source: Source)
    requires lim.Valid() && Upheld(lim, c, source) && KeepsUp(lim, c, source)
    requires c.pos <= LastCut(lim, c, source)
    ensures Drain(lim, c).pos == LastCut(lim, c, source)
    decreases Lead(c)
  {
    PlanReachesLastCut(lim, c, source);
    if Plan(lim, c).Some? {
      var d := Step(lim, c, Plan(lim, c).value);
      StepShrinksLead(lim, c);
      StepKeepsInv(lim, c);
      PlanSpares(lim, c, source);
      NextBoundary(c.pos, c.pos, lim.window);
      hide OnBoundary, Floor, Plan;
      DrainToLastCut(lim, d, source);
    }
  }

  ghost predicate AtLastCut(lim: Limits, c: Clock, source: Source)
    requires lim.Valid()
  {
    Upheld(lim, c, source) && c.pos == LastCut(lim, c, source)
  }

  lemma ArriveReaches(c: Clock, source: Source, n: nat, other: Source)
    requires Inv(c)
    ensures Reach(c, other) <= Reach(Arrive(c, source, n), other)
  {
  }

  lemma SameStreamsSameCut(lim: Limits, c: Clock, d: Clock, source: Source)
    requires lim.Valid() && SameStreams(c, d)
    ensures LastCut(lim, c, source) == LastCut(lim, d, source)
  {
    hide Floor, Ceiling;
  }

  lemma RoundToLastCut(lim: Limits, c: Clock, event: Event, source: Source)
    requires lim.Valid() && AtLastCut(lim, c, source)
    requires Spares(DrainGaps(lim, Arrive(c, event.source, event.n)), source)
    ensures var a := Arrive(c, event.source, event.n);
      && AtLastCut(lim, Drain(lim, a), source) && SameStreams(Drain(lim, a), a)
      && a.mic.expected && a.system.expected && AnchorsAtPeer(a) && AnchorsAtPeer(Drain(lim, a))
  {
    var a := Arrive(c, event.source, event.n);
    ArriveKeepsInv(c, event.source, event.n);
    ArriveReaches(c, event.source, event.n, Microphone);
    ArriveReaches(c, event.source, event.n, System);
    LastCutGrows(lim, c, a, source);
    hide LastCut, KeepsUp;
    assert Upheld(lim, a, source);
    DrainSpares(lim, a, source);
    DrainToLastCut(lim, a, source);
    DrainMovesCursorOnly(lim, a);
    SameStreamsSameCut(lim, Drain(lim, a), a, source);
    UpheldAnchors(lim, a, source);
    UpheldAnchors(lim, Drain(lim, a), source);
  }

  /** Over a whole run that never gives up on the source the cursor stands at its last cut, which the
      arrivals alone decide, however often its peer was given up on. */
  lemma {:induction false} RunSparedCursor(lim: Limits, c: Clock, events: seq<Event>, source: Source)
    requires lim.Valid() && AtLastCut(lim, c, source) && Spares(RunGaps(lim, c, events), source)
    ensures var r := RunClock(lim, c, events);
      && AtLastCut(lim, r, source) && SameStreams(r, Arrivals(c, events))
      && r.pos == LastCut(lim, Arrivals(c, events), source)
    decreases |events|
  {
    if events != [] {
      var a := Arrive(c, events[0].source, events[0].n);
      SparesSplits(DrainGaps(lim, a), RunGaps(lim, Drain(lim, a), events[1..]), source);
      RoundToLastCut(lim, c, events[0], source);
      hide AtLastCut, LastCut, Drain, DrainGaps, Arrive, AnchorsAtPeer;
      RunSparedCursor(lim, Drain(lim, a), events[1..], source);
      ArrivalsIgnoreCursor(Drain(lim, a), a, events[1..]);
      SameStreamsSameCut(lim, Arrivals(Drain(lim, a), events[1..]), Arrivals(a, events[1..]), source);
    }
  }

  lemma StartAtLastCut(lim: Limits, source: Source)
    requires lim.Valid()
    ensures AtLastCut(lim, Start(true, true), source)
  {
    assert 0 == 0 * lim.window;
  }

  /** When nobody is given up on, that is the last whole window of the trailing stream. */
  lemma RunCursor(lim: Limits, events: seq<Event>)
    requires lim.Valid() && Gapless(RunGaps(lim, Start(true, true), events))
    ensures RunClock(lim, Start(true, true), events).pos
         == Floor(Behind(Arrivals(Start(true, true), events)), lim.window)
  {
    var (c, r) := (Arrivals(Start(true, true), events), RunClock(lim, Start(true, true), events));
    StartAtLastCut(lim, Microphone);
    StartAtLastCut(lim, System);
    RunSparedCursor(lim, Start(true, true), events, Microphone);
    RunSparedCursor(lim, Start(true, true), events, System);
    hide RunGaps, RunClock, Arrivals, OnBoundary, Floor, Ceiling;
    FloorOfLater(r.pos, Behind(c), lim.window);
  }

  // ----- A window must hold something -----

  /** Without a window length every plan cuts a window and none moves the cursor: the drain loop would
      not end. */
  lemma EmptyWindowNeverEnds(lim: Limits, c: Clock)
    requires lim.window == 0 && c.pos == 0 && (c.mic.expected || c.system.expected)
    ensures Plan(lim, c) == Some(Gaps(false, false)) && Step(lim, c, Gaps(false, false)) == c
  {
  }
}
