/** The mixer over whole recordings: every interleaving of chunks, each followed by the drain loop. */
module MixerRun {
  import opened Wrappers
  import opened MixerClock
  import opened Pcm
  import opened SourceTrack

  datatype Chunk = Chunk(source: Source, samples: seq<Sample>)

  datatype Mixer = Mixer(mic: Track, system: Track, pos: nat)

  const NO_TRACK: Track := Track(IDLE, [], 0, [], 0, [], [], {})

  function Fresh(micPresent: bool, systemPresent: bool): Mixer {
    Mixer(NO_TRACK.(side := IDLE.(expected := micPresent)), NO_TRACK.(side := IDLE.(expected := systemPresent)), 0)
  }

  function ClockOf(m: Mixer): Clock {
    Clock(m.mic.side, m.system.side, m.pos)
  }

  function Of(m: Mixer, source: Source): Track {
    if source == Microphone then m.mic else m.system
  }

  ghost predicate Sound(m: Mixer) {
    SourceTrack.Sound(m.mic) && SourceTrack.Sound(m.system)
  }

  /** Every sample of both sources is accounted for up to the cursor. */
  ghost predicate Accounted(m: Mixer) {
    SourceTrack.Accounted(m.mic, m.pos) && SourceTrack.Accounted(m.system, m.pos)
  }

  function Added(lim: Limits, m: Mixer, chunk: Chunk): Mixer {
    match chunk.source
    case Microphone => m.(mic := Heard(lim.cap, m.mic, m.system.side, chunk.samples))
    case System => m.(system := Heard(lim.cap, m.system, m.mic.side, chunk.samples))
  }

  function Extracted(lim: Limits, m: Mixer, gaps: Gaps): Mixer {
    Mixer(Taken(m.mic, gaps.mic, m.pos, lim.window), Taken(m.system, gaps.system, m.pos, lim.window),
          m.pos + lim.window)
  }

  function Drained(lim: Limits, m: Mixer): Mixer
    requires lim.Valid()
    decreases Lead(ClockOf(m))
  {
    match Plan(lim, ClockOf(m))
    case None => m
    case Some(g) =>
      StepShrinksLead(lim, ClockOf(m));
      assert ClockOf(Extracted(lim, m, g)) == Step(lim, ClockOf(m), g);
      Drained(lim, Extracted(lim, m, g))
  }

  /** One turn of the drain loop. */
  lemma DrainedStep(lim: Limits, m: Mixer)
    requires lim.Valid()
    ensures match Plan(lim, ClockOf(m))
      case None => Drained(lim, m) == m
      case Some(g) =>
        Drained(lim, m) == Drained(lim, Extracted(lim, m, g)) &&
        Lead(ClockOf(Extracted(lim, m, g))) < Lead(ClockOf(m))
  {
    if Plan(lim, ClockOf(m)).Some? {
      StepShrinksLead(lim, ClockOf(m));
      var g := Plan(lim, ClockOf(m)).value;
      assert ClockOf(Extracted(lim, m, g)) == Step(lim, ClockOf(m), g);
    }
  }

  /** A chunk arrives and the drain loop runs. */
  function Round(lim: Limits, m: Mixer, chunk: Chunk): Mixer
    requires lim.Valid()
  {
    Drained(lim, Added(lim, m, chunk))
  }

  function Recorded(lim: Limits, m: Mixer, chunks: seq<Chunk>): Mixer
    requires lim.Valid()
    decreases |chunks|
  {
    if chunks == [] then m else Recorded(lim, Round(lim, m, chunks[0]), chunks[1..])
  }

  // ----- Accounting is an invariant of every run -----

  lemma AddedAccounted(lim: Limits, m: Mixer, chunk: Chunk)
    requires lim.Valid() && Accounted(m)
    ensures Accounted(Added(lim, m, chunk))
    ensures ClockOf(Added(lim, m, chunk)) == Arrive(ClockOf(m), chunk.source, |chunk.samples|)
  {
    match chunk.source
    case Microphone =>
      HeardAccounted(lim.cap, m.mic, m.system.side, chunk.samples, m.pos);
      HeardSide(lim.cap, m.mic, m.system.side, chunk.samples);
    case System =>
      HeardAccounted(lim.cap, m.system, m.mic.side, chunk.samples, m.pos);
      HeardSide(lim.cap, m.system, m.mic.side, chunk.samples);
  }

  lemma AccountedInv(m: Mixer)
    requires Accounted(m)
    ensures Inv(ClockOf(m))
  {
  }

  lemma ExtractedAccounted(lim: Limits, m: Mixer)
    requires lim.Valid() && Accounted(m) && Plan(lim, ClockOf(m)).Some?
    ensures Accounted(Extracted(lim, m, Plan(lim, ClockOf(m)).value))
  {
    hide Ideal, Sound, Taken;
    var g := Plan(lim, ClockOf(m)).value;
    TakenAccounted(m.mic, g.mic, m.pos, lim.window);
    TakenAccounted(m.system, g.system, m.pos, lim.window);
  }

  /** When a window is cut, each source that is heard and not given up on covers it from its start or
      later to its end: the realignment past a stale head and the final zero-fill have nothing to do. */
  lemma NoRealignNoPad(lim: Limits, m: Mixer, source: Source)
    requires lim.Valid() && Accounted(m) && Plan(lim, ClockOf(m)).Some?
    requires Of(m, source).side.expected && Of(m, source).side.seen
    requires var g := Plan(lim, ClockOf(m)).value; !(if source == Microphone then g.mic else g.system)
    ensures var t := Of(m, source);
      t.buffer != [] && m.pos <= t.start && m.pos + lim.window <= t.start + |t.buffer|
  {
  }

  lemma {:induction false} DrainedClock(lim: Limits, m: Mixer)
    requires lim.Valid()
    ensures ClockOf(Drained(lim, m)) == Drain(lim, ClockOf(m))
    decreases Lead(ClockOf(m))
  {
    if Plan(lim, ClockOf(m)).Some? {
      StepShrinksLead(lim, ClockOf(m));
      var n := Extracted(lim, m, Plan(lim, ClockOf(m)).value);
      assert ClockOf(n) == Step(lim, ClockOf(m), Plan(lim, ClockOf(m)).value);
      DrainedClock(lim, n);
    }
  }

  lemma {:induction false} DrainedAccounted(lim: Limits, m: Mixer)
    requires lim.Valid() && Accounted(m)
    ensures Accounted(Drained(lim, m))
    decreases Lead(ClockOf(m))
  {
    if Plan(lim, ClockOf(m)).Some? {
      StepShrinksLead(lim, ClockOf(m));
      ExtractedAccounted(lim, m);
      var n := Extracted(lim, m, Plan(lim, ClockOf(m)).value);
      assert ClockOf(n) == Step(lim, ClockOf(m), Plan(lim, ClockOf(m)).value);
      DrainedAccounted(lim, n);
    }
  }

  function Events(chunks: seq<Chunk>): (events: seq<Event>)
    ensures |events| == |chunks|
    ensures forall i :: 0 <= i < |chunks| ==> events[i] == Event(chunks[i].source, |chunks[i].samples|)
  {
    if chunks == [] then [] else [Event(chunks[0].source, |chunks[0].samples|)] + Events(chunks[1..])
  }

  /** Sample accounting over every recording, whatever arrives in whatever order. */
  lemma {:induction false} EveryRunAccounted(lim: Limits, m: Mixer, chunks: seq<Chunk>)
    requires lim.Valid() && Accounted(m)
    ensures Accounted(Recorded(lim, m, chunks))
    ensures ClockOf(Recorded(lim, m, chunks)) == RunClock(lim, ClockOf(m), Events(chunks))
    decreases |chunks|
  {
    if chunks != [] {
      var a := Added(lim, m, chunks[0]);
      AddedAccounted(lim, m, chunks[0]);
      DrainedAccounted(lim, a);
      DrainedClock(lim, a);
      EveryRunAccounted(lim, Drained(lim, a), chunks[1..]);
    }
  }

  // ----- The safety cap -----

  /** Draining takes nothing into or out of the streams. */
  lemma {:induction false} DrainedStreams(lim: Limits, m: Mixer)
    requires lim.Valid()
    ensures var d := Drained(lim, m);
      d.mic.stream == m.mic.stream && d.mic.anchor == m.mic.anchor && d.mic.capLost == m.mic.capLost &&
      d.system.stream == m.system.stream && d.system.anchor == m.system.anchor && d.system.capLost == m.system.capLost
    decreases Lead(ClockOf(m))
  {
    if Plan(lim, ClockOf(m)).Some? {
      StepShrinksLead(lim, ClockOf(m));
      var n := Extracted(lim, m, Plan(lim, ClockOf(m)).value);
      assert ClockOf(n) == Step(lim, ClockOf(m), Plan(lim, ClockOf(m)).value);
      DrainedStreams(lim, n);
    }
  }

  /** A drained buffer holds at most the lag. */
  lemma BufferWithinLag(lim: Limits, m: Mixer)
    requires lim.Valid() && Accounted(m) && Lead(ClockOf(m)) <= lim.lag
    ensures |m.mic.buffer| <= lim.lag && |m.system.buffer| <= lim.lag
  {
  }

  predicate ChunksWithin(chunks: seq<Chunk>, n: int) {
    forall i :: 0 <= i < |chunks| ==> |chunks[i].samples| <= n
  }

  lemma AddedUncapped(lim: Limits, m: Mixer, chunk: Chunk, source: Source)
    requires |Of(m, source).buffer| + |chunk.samples| <= lim.cap
    ensures Of(Added(lim, m, chunk), source).capLost == Of(m, source).capLost
  {
  }

  /** When no chunk is longer than cap minus lag, the cap never drops a sample in any run. */
  lemma {:induction false} CapNeverDrops(lim: Limits, m: Mixer, chunks: seq<Chunk>, source: Source)
    requires lim.Valid() && Accounted(m) && Lead(ClockOf(m)) <= lim.lag
    requires ChunksWithin(chunks, lim.cap - lim.lag)
    ensures Of(Recorded(lim, m, chunks), source).capLost == Of(m, source).capLost
    decreases |chunks|
  {
    if chunks != [] {
      BufferWithinLag(lim, m);
      AddedAccounted(lim, m, chunks[0]);
      var a := Added(lim, m, chunks[0]);
      AddedUncapped(lim, m, chunks[0], source);
      DrainedAccounted(lim, a);
      DrainedClock(lim, a);
      DrainedStreams(lim, a);
      DrainBound(lim, ClockOf(a));
      CapNeverDrops(lim, Drained(lim, a), chunks[1..], source);
    }
  }

  // ----- Where each sample lands, in terms of the chunks alone -----

  /** All samples a source sends. */
  function Sent(chunks: seq<Chunk>, source: Source): seq<Sample> {
    if chunks == [] then []
    else (if chunks[0].source == source then chunks[0].samples else []) + Sent(chunks[1..], source)
  }

  /** How many samples the peer sends before the source is first heard. */
  function HeadStart(chunks: seq<Chunk>, source: Source): nat {
    if chunks == [] || (chunks[0].source == source && chunks[0].samples != []) then 0
    else (if chunks[0].source != source then |chunks[0].samples| else 0) + HeadStart(chunks[1..], source)
  }

  /** The sample a source contributes at timeline position p, its stream starting at `anchor`. */
  function Timeline(stream: seq<Sample>, anchor: nat, p: nat): Sample {
    if anchor <= p < anchor + |stream| then stream[p - anchor] else SILENCE
  }

  /** No window has given up on the source. */
  ghost predicate Spared(t: Track) {
    t.side.discard == 0 && forall p :: 0 <= p < |t.gapped| ==> !t.gapped[p]
  }

  lemma {:induction false} DrainedSpared(lim: Limits, m: Mixer, source: Source)
    requires lim.Valid() && Spared(Of(m, source)) && Spares(DrainGaps(lim, ClockOf(m)), source)
    ensures Spared(Of(Drained(lim, m), source))
    decreases Lead(ClockOf(m))
  {
    if Plan(lim, ClockOf(m)).Some? {
      var g := Plan(lim, ClockOf(m)).value;
      StepShrinksLead(lim, ClockOf(m));
      var n := Extracted(lim, m, g);
      assert ClockOf(n) == Step(lim, ClockOf(m), g);
      assert DrainGaps(lim, ClockOf(m)) == [g] + DrainGaps(lim, ClockOf(n));
      SparesSplits([g], DrainGaps(lim, ClockOf(n)), source);
      assert [g][0] == g;
      DrainedSpared(lim, n, source);
    }
  }

  lemma HeardStream(cap: nat, t: Track, other: Side, samples: seq<Sample>)
    ensures Heard(cap, t, other, samples).stream == t.stream + if t.side.expected then samples else []
    ensures Heard(cap, t, other, samples).anchor
         == if !t.side.expected || t.side.seen || samples == [] then t.anchor else Anchor(t.side, other)
  {
  }

  /** What one round does to the streams. */
  lemma RoundStreams(lim: Limits, m: Mixer, chunk: Chunk)
    requires lim.Valid()
    ensures var d := Round(lim, m, chunk);
      var (s, peer) := (chunk.source, Peer(chunk.source));
      && Of(d, s).stream == Of(m, s).stream + (if Of(m, s).side.expected then chunk.samples else [])
      && Of(d, s).anchor == (if !Of(m, s).side.expected || Of(m, s).side.seen || chunk.samples == []
                             then Of(m, s).anchor
                             else Anchor(Of(m, s).side, Of(m, peer).side))
      && Of(d, peer).stream == Of(m, peer).stream && Of(d, peer).anchor == Of(m, peer).anchor
  {
    HeardStream(lim.cap, Of(m, chunk.source), Of(m, Peer(chunk.source)).side, chunk.samples);
    DrainedStreams(lim, Added(lim, m, chunk));
  }

  /** What one round does to the two sides. */
  lemma RoundSides(lim: Limits, m: Mixer, chunk: Chunk)
    requires lim.Valid()
    ensures var d := Round(lim, m, chunk);
      var (s, peer) := (chunk.source, Peer(chunk.source));
      var moved := Advanced(Of(m, s).side, Of(m, peer).side, |chunk.samples|);
      && Of(d, s).side == moved.(discard := Of(d, s).side.discard)
      && Of(d, peer).side == Of(m, peer).side.(discard := Of(d, peer).side.discard)
  {
    var a := Added(lim, m, chunk);
    HeardSide(lim.cap, Of(m, chunk.source), Of(m, Peer(chunk.source)).side, chunk.samples);
    DrainedClock(lim, a);
    DrainMovesCursorOnly(lim, ClockOf(a));
  }

  lemma SplitFirstRound(lim: Limits, m: Mixer, chunks: seq<Chunk>, source: Source)
    requires lim.Valid() && chunks != [] && Spares(RunGaps(lim, ClockOf(m), Events(chunks)), source)
    ensures var a := Arrive(ClockOf(m), chunks[0].source, |chunks[0].samples|);
      Spares(DrainGaps(lim, a), source) && Spares(RunGaps(lim, Drain(lim, a), Events(chunks[1..])), source)
  {
    var a := Arrive(ClockOf(m), chunks[0].source, |chunks[0].samples|);
    var e := Events(chunks);
    assert e[1..] == Events(chunks[1..]);
    SparesSplits(DrainGaps(lim, a), RunGaps(lim, Drain(lim, a), e[1..]), source);
  }

  lemma RoundClock(lim: Limits, m: Mixer, chunk: Chunk)
    requires lim.Valid() && Accounted(m)
    ensures Accounted(Round(lim, m, chunk))
    ensures ClockOf(Added(lim, m, chunk)) == Arrive(ClockOf(m), chunk.source, |chunk.samples|)
    ensures ClockOf(Round(lim, m, chunk)) == Drain(lim, Arrive(ClockOf(m), chunk.source, |chunk.samples|))
  {
    AddedAccounted(lim, m, chunk);
    DrainedAccounted(lim, Added(lim, m, chunk));
    DrainedClock(lim, Added(lim, m, chunk));
  }

  lemma {:induction false} RecordedSpared(lim: Limits, m: Mixer, chunks: seq<Chunk>, source: Source)
    requires lim.Valid() && Accounted(m) && Spared(Of(m, source))
    requires Spares(RunGaps(lim, ClockOf(m), Events(chunks)), source)
    ensures Spared(Of(Recorded(lim, m, chunks), source))
    decreases |chunks|
  {
    if chunks != [] {
      SplitFirstRound(lim, m, chunks, source);
      RoundClock(lim, m, chunks[0]);
      AddedSpared(lim, m, chunks[0], source);
      DrainedSpared(lim, Added(lim, m, chunks[0]), source);
      hide SourceTrack.Accounted, Spared, Added, Drained, Drain, DrainGaps, Spares, Arrive;
      RecordedSpared(lim, Round(lim, m, chunks[0]), chunks[1..], source);
    }
  }

  lemma AddedSpared(lim: Limits, m: Mixer, chunk: Chunk, source: Source)
    requires Spared(Of(m, source))
    ensures Spared(Of(Added(lim, m, chunk), source))
  {
  }

  /** A present source's stream is all it sent, in every run. */
  lemma {:induction false} StreamIsSent(lim: Limits, m: Mixer, chunks: seq<Chunk>, source: Source)
    requires lim.Valid() && Of(m, source).side.expected
    ensures Of(Recorded(lim, m, chunks), source).stream == Of(m, source).stream + Sent(chunks, source)
    decreases |chunks|
  {
    hide Round;
    if chunks != [] {
      RoundStreams(lim, m, chunks[0]);
      RoundSides(lim, m, chunks[0]);
      StreamIsSent(lim, Round(lim, m, chunks[0]), chunks[1..], source);
    }
  }

  lemma UnheardIsGivenUp(lim: Limits, c: Clock, source: Source)
    requires lim.Valid() && SideOf(c, source).expected && !SideOf(c, source).seen
    ensures Plan(lim, c).Some? ==> !Spares(DrainGaps(lim, c), source)
  {
    assert Plan(lim, c).Some? ==> GapOf(DrainGaps(lim, c)[0], source);
  }

  /** While a present source is neither heard nor given up on, no window is cut. */
  lemma UnheardWaits(lim: Limits, c: Clock, source: Source)
    requires lim.Valid() && SideOf(c, source).expected && !SideOf(c, source).seen
    requires Spares(DrainGaps(lim, c), source)
    ensures Drain(lim, c) == c
  {
    UnheardIsGivenUp(lim, c, source);
  }

  /** At the start of a recording a stream anchors at its peer's position, and the peer counts up. */
  lemma FirstAnchor(side: Side, peer: Side, n: nat)
    requires SideInv(side, 0) && SideInv(peer, 0) && side.expected && !side.seen
    ensures Anchor(side, peer) == peer.next
    ensures peer.expected ==> Advanced(peer, side, n).next == peer.next + n
    ensures !peer.expected ==> peer.next == 0
  {
  }

  /** One round of a source not heard before it: it anchors, or goes on waiting while its peer counts. */
  lemma FirstRound(lim: Limits, m: Mixer, chunk: Chunk, source: Source)
    requires lim.Valid() && Accounted(m) && m.pos == 0
    requires Of(m, source).side.expected && !Of(m, source).side.seen
    requires Spares(DrainGaps(lim, Arrive(ClockOf(m), chunk.source, |chunk.samples|)), source)
    ensures var (d, peer) := (Round(lim, m, chunk), Of(m, Peer(source)).side);
      && Accounted(d) && Of(d, source).side.expected && Of(d, Peer(source)).side.expected == peer.expected
      && if chunk.source == source && chunk.samples != []
         then Of(d, source).side.seen && Of(d, source).anchor == peer.next && (!peer.expected ==> peer.next == 0)
         else !Of(d, source).side.seen && d.pos == 0
              && (peer.expected ==>
                    Of(d, Peer(source)).side.next == peer.next + if chunk.source == source then 0 else |chunk.samples|)
  {
    RoundClock(lim, m, chunk);
    AccountedInv(m);
    FirstAnchor(Of(m, source).side, Of(m, Peer(source)).side, |chunk.samples|);
    RoundStreams(lim, m, chunk);
    RoundSides(lim, m, chunk);
    hide SourceTrack.Accounted, SideInv, Anchor, Spares, Drain, DrainGaps, Round, Plan, Added;
    if !(chunk.source == source && chunk.samples != []) {
      UnheardWaits(lim, Arrive(ClockOf(m), chunk.source, |chunk.samples|), source);
    }
  }

  /** Where a source's first sample lands: after exactly as many samples as its peer has sent. This
      takes only that the source itself is not given up on. */
  lemma {:induction false} AnchorIsHeadStart(lim: Limits, m: Mixer, chunks: seq<Chunk>, source: Source)
    requires lim.Valid() && Accounted(m) && m.pos == 0
    requires Spares(RunGaps(lim, ClockOf(m), Events(chunks)), source)
    requires Of(m, source).side.expected && !Of(m, source).side.seen
    ensures var r := Of(Recorded(lim, m, chunks), source);
      r.side.seen ==> r.anchor == if Of(m, Peer(source)).side.expected
                                  then Of(m, Peer(source)).side.next + HeadStart(chunks, source) else 0
    decreases |chunks|
  {
    if chunks != [] {
      SplitFirstRound(lim, m, chunks, source);
      FirstRound(lim, m, chunks[0], source);
      RoundClock(lim, m, chunks[0]);
      hide SourceTrack.Accounted, Spares, Drain, DrainGaps, Round, RunGaps, Arrive;
      var d := Round(lim, m, chunks[0]);
      if Of(d, source).side.seen {
        AnchorStays(lim, d, chunks[1..], source);
      } else {
        AnchorIsHeadStart(lim, d, chunks[1..], source);
      }
    }
  }

  lemma {:induction false} AnchorStays(lim: Limits, m: Mixer, chunks: seq<Chunk>, source: Source)
    requires lim.Valid() && Of(m, source).side.seen
    ensures Of(Recorded(lim, m, chunks), source).anchor == Of(m, source).anchor
    decreases |chunks|
  {
    hide Round;
    if chunks != [] {
      RoundSides(lim, m, chunks[0]);
      RoundStreams(lim, m, chunks[0]);
      AnchorStays(lim, Round(lim, m, chunks[0]), chunks[1..], source);
    }
  }

  /** A source that is not given up on emits its stream from its anchor on, but for what the cap dropped. */
  lemma SparedEmits(m: Mixer, source: Source, p: nat)
    requires Accounted(m) && Spared(Of(m, source)) && p < m.pos
    ensures |Of(m, source).emitted| == m.pos
    ensures Of(m, source).emitted[p]
         == if p in Of(m, source).capLost || !Of(m, source).side.seen then SILENCE
            else Timeline(Of(m, source).stream, Of(m, source).anchor, p)
    ensures !Of(m, source).side.seen ==> Of(m, source).stream == []
  {
    assert Of(m, source).emitted[p] == Ideal(Of(m, source), p);
  }

  lemma FreshAccounted(lim: Limits, micPresent: bool, systemPresent: bool)
    requires lim.Valid()
    ensures var m := Fresh(micPresent, systemPresent);
      && Accounted(m) && Spared(m.mic) && Spared(m.system) && Lead(ClockOf(m)) <= lim.lag
      && ClockOf(m) == Start(micPresent, systemPresent)
  {
  }

  /** The whole run in terms of its input: as long as a source itself is never given up on, whatever
      becomes of its peer, position p of what is emitted for it is the sample it sent for p, or silence
      where it sent none or the cap dropped it. */
  lemma EmittedIsTimeline(lim: Limits, micPresent: bool, systemPresent: bool, chunks: seq<Chunk>,
                          source: Source, p: nat)
    requires lim.Valid() && Spares(RunGaps(lim, Start(micPresent, systemPresent), Events(chunks)), source)
    requires if source == Microphone then micPresent else systemPresent
    requires p < Recorded(lim, Fresh(micPresent, systemPresent), chunks).pos
    ensures var t := Of(Recorded(lim, Fresh(micPresent, systemPresent), chunks), source);
      var anchor := if micPresent && systemPresent then HeadStart(chunks, source) else 0;
      && |t.emitted| == Recorded(lim, Fresh(micPresent, systemPresent), chunks).pos
      && t.emitted[p] == if p in t.capLost then SILENCE else Timeline(Sent(chunks, source), anchor, p)
  {
    hide Spared, Recorded, Spares, RunGaps, SourceTrack.Accounted, HeadStart;
    var m := Fresh(micPresent, systemPresent);
    FreshAccounted(lim, micPresent, systemPresent);
    EveryRunAccounted(lim, m, chunks);
    RecordedSpared(lim, m, chunks, source);
    StreamIsSent(lim, m, chunks, source);
    AnchorIsHeadStart(lim, m, chunks, source);
    SparedEmits(Recorded(lim, m, chunks), source, p);
    assert [] + Sent(chunks, source) == Sent(chunks, source);
  }

  // ----- Any interleaving of adds and extractions -----

  /** What a caller may do with the mixer: add a chunk, or try to cut one window. */
  datatype Call = Add(chunk: Chunk) | Extract

  function Called(lim: Limits, m: Mixer, calls: seq<Call>): Mixer
    decreases |calls|
  {
    if calls == [] then m
    else
      var next := match calls[0]
        case Add(chunk) => Added(lim, m, chunk)
        case Extract =>
          match Plan(lim, ClockOf(m))
          case None => m
          case Some(g) => Extracted(lim, m, g);
      Called(lim, next, calls[1..])
  }

  /** Sample accounting whatever the order of the calls, drained after each chunk or not. */
  lemma {:induction false} EveryInterleavingAccounted(lim: Limits, m: Mixer, calls: seq<Call>)
    requires lim.Valid() && Accounted(m)
    ensures Accounted(Called(lim, m, calls))
    decreases |calls|
  {
    if calls != [] {
      match calls[0]
      case Add(chunk) =>
        AddedAccounted(lim, m, chunk);
        EveryInterleavingAccounted(lim, Added(lim, m, chunk), calls[1..]);
      case Extract =>
        if Plan(lim, ClockOf(m)).Some? {
          ExtractedAccounted(lim, m);
          EveryInterleavingAccounted(lim, Extracted(lim, m, Plan(lim, ClockOf(m)).value), calls[1..]);
        } else {
          EveryInterleavingAccounted(lim, m, calls[1..]);
        }
    }
  }

  /** In any such sequence neither buffer ever holds more than the cap. */
  lemma {:induction false} EveryBufferWithinCap(lim: Limits, m: Mixer, calls: seq<Call>)
    requires |m.mic.buffer| <= lim.cap && |m.system.buffer| <= lim.cap
    ensures var r := Called(lim, m, calls); |r.mic.buffer| <= lim.cap && |r.system.buffer| <= lim.cap
    decreases |calls|
  {
    hide Heard, Taken, Plan;
    if calls != [] {
      match calls[0]
      case Add(chunk) =>
        HeardWithinCap(lim.cap, m.mic, m.system.side, chunk.samples);
        HeardWithinCap(lim.cap, m.system, m.mic.side, chunk.samples);
        EveryBufferWithinCap(lim, Added(lim, m, chunk), calls[1..]);
      case Extract =>
        var plan := Plan(lim, ClockOf(m));
        if plan.Some? {
          TakenShrinks(m.mic, plan.value.mic, m.pos, lim.window);
          TakenShrinks(m.system, plan.value.system, m.pos, lim.window);
          EveryBufferWithinCap(lim, Extracted(lim, m, plan.value), calls[1..]);
        } else {
          EveryBufferWithinCap(lim, m, calls[1..]);
        }
    }
  }

  lemma TakenShrinks(t: Track, gap: bool, pos: nat, w: nat)
    ensures |Taken(t, gap, pos, w).buffer| <= |t.buffer|
  {
  }
}
