/** The shutdown flush: the drain loop once more, then whatever is left in one last window. */
module MixerFlush {
  import opened Wrappers
  import opened MixerClock
  import opened Pcm
  import opened SourceTrack
  import opened MixerRun

  /** Cut or extend with silence to exactly w samples. */
  function Padded(s: seq<Sample>, w: nat): (r: seq<Sample>)
    ensures |r| == w
  {
    if |s| >= w then s[..w] else s + Silence(w - |s|)
  }

  function Emptied(t: Track, w: nat): Track {
    t.(buffer := [], start := 0, emitted := t.emitted + Padded(t.buffer, w), gapped := t.gapped + Flags(w, false))
  }

  function Flushed(lim: Limits, m: Mixer): Mixer
    requires lim.Valid()
  {
    var d := Drained(lim, m);
    if d.mic.buffer == [] && d.system.buffer == [] then d
    else Mixer(Emptied(d.mic, lim.window), Emptied(d.system, lim.window), d.pos + lim.window)
  }

  /** The flush leaves nothing behind, and takes one window for it if there was anything left. */
  lemma FlushEmpties(lim: Limits, m: Mixer)
    requires lim.Valid()
    ensures Flushed(lim, m).mic.buffer == [] && Flushed(lim, m).system.buffer == []
    ensures Flushed(lim, m).pos == Drained(lim, m).pos
      + if Drained(lim, m).mic.buffer != [] || Drained(lim, m).system.buffer != [] then lim.window else 0
  {
    hide Drained, Padded;
  }

  // ----- Exactly when the last window is right -----

  /** The last window holds every leftover sample at the position it belongs to. */
  ghost predicate Faithful(t: Track, pos: nat, w: nat)
    requires SourceTrack.Sound(t)
  {
    |t.buffer| <= w && forall i :: 0 <= i < w ==> Padded(t.buffer, w)[i] == Ideal(t, pos + i)
  }

  /** The same positions with other audio. */
  ghost predicate SameShape(t: Track, u: Track) {
    && u == t.(stream := u.stream, buffer := u.buffer, emitted := u.emitted)
    && |u.stream| == |t.stream| && |u.buffer| == |t.buffer|
  }

  /** Nothing is left, or what is left starts at the cursor and fits one window. */
  predicate InPlace(t: Track, pos: nat, w: nat) {
    t.buffer == [] || (t.start == pos && |t.buffer| <= w)
  }

  lemma InPlaceFaithful(t: Track, pos: nat, w: nat)
    requires SourceTrack.Accounted(t, pos) && InPlace(t, pos, w)
    ensures Faithful(t, pos, w)
  {
    forall i | 0 <= i < w
      ensures Padded(t.buffer, w)[i] == Ideal(t, pos + i)
    {
      if i < |t.buffer| {
        assert t.buffer[i] == t.stream[t.start - t.anchor..][i];
      }
    }
  }

  function Ones(n: nat): (s: seq<Sample>)
    ensures |s| == n && forall i :: 0 <= i < n ==> s[i] == 1
  {
    seq<Sample>(n, i => 1)
  }

  /** The positions of t with nothing but ones recorded. */
  ghost function AllOnes(t: Track): Track
    requires SourceTrack.Sound(t)
  {
    var u := t.(stream := Ones(|t.stream|), buffer := Ones(|t.buffer|), emitted := []);
    u.(emitted := seq<Sample>(|t.emitted|, p requires 0 <= p => Ideal(u, p)))
  }

  lemma AllOnesAccounted(t: Track, pos: nat)
    requires SourceTrack.Accounted(t, pos)
    ensures SourceTrack.Accounted(AllOnes(t), pos) && SameShape(t, AllOnes(t))
  {
    var u := AllOnes(t);
    assert u.buffer != [] ==> u.buffer == u.stream[u.start - u.anchor..];
    forall p | 0 <= p < pos
      ensures u.emitted[p] == Ideal(u, p)
    {
      assert Ideal(u, p) == Ideal(u.(emitted := []), p);
    }
  }

  /** The flush puts a source's leftovers where they belong, whatever they are, exactly when they
      start at the cursor and fit into one window. */
  lemma FlushFaithfulIff(t: Track, pos: nat, w: nat)
    requires SourceTrack.Accounted(t, pos) && w > 0
    ensures InPlace(t, pos, w) <==>
      forall u :: SameShape(t, u) && SourceTrack.Accounted(u, pos) ==> Faithful(u, pos, w)
  {
    if InPlace(t, pos, w) {
      forall u | SameShape(t, u) && SourceTrack.Accounted(u, pos)
        ensures Faithful(u, pos, w)
      {
        InPlaceFaithful(u, pos, w);
      }
    } else {
      var u := AllOnes(t);
      AllOnesAccounted(t, pos);
      assert Padded(u.buffer, w)[0] == 1;
      assert Ideal(u, pos) == SILENCE || |u.buffer| > w;
    }
  }

  // ----- In terms of what arrived -----

  /** Leftovers are in place exactly when there are none, or when the stream has begun by the cursor,
      still has the sample there and ends within a window of it. */
  lemma TrackInPlaceIff(t: Track, pos: nat, w: nat)
    requires SourceTrack.Accounted(t, pos)
    ensures InPlace(t, pos, w) <==>
      t.side.next <= pos || (t.anchor <= pos && pos !in t.capLost && t.side.next <= pos + w)
  {
  }

  /** The cap only drops what is further than its own length from the stream's end. */
  ghost predicate CapFar(t: Track, cap: nat) {
    forall p :: p in t.capLost ==> p + cap < t.side.next
  }

  lemma HeardCapFar(cap: nat, t: Track, other: Side, samples: seq<Sample>)
    requires SourceTrack.Sound(t) && CapFar(t, cap)
    ensures CapFar(Heard(cap, t, other, samples), cap)
  {
    if t.side.expected && samples != [] {
      var b := if t.side.seen then t else Anchored(t, Anchor(t.side, other));
      assert CapFar(b, cap);
      AbsorbedSound(b, samples);
    }
  }

  lemma RoundCapFar(lim: Limits, m: Mixer, chunk: Chunk, source: Source)
    requires lim.Valid() && MixerRun.Accounted(m) && CapFar(Of(m, source), lim.cap)
    ensures CapFar(Of(Round(lim, m, chunk), source), lim.cap)
  {
    var a := Added(lim, m, chunk);
    HeardCapFar(lim.cap, Of(m, source), Of(m, Peer(source)).side, chunk.samples);
    DrainedStreams(lim, a);
    DrainedClock(lim, a);
    DrainMovesCursorOnly(lim, ClockOf(a));
    hide Drain, Drained, SourceTrack.Accounted, Heard;
  }

  lemma {:induction false} RecordedCapFar(lim: Limits, m: Mixer, chunks: seq<Chunk>, source: Source)
    requires lim.Valid() && MixerRun.Accounted(m) && CapFar(Of(m, source), lim.cap)
    ensures CapFar(Of(Recorded(lim, m, chunks), source), lim.cap)
    decreases |chunks|
  {
    if chunks != [] {
      RoundCapFar(lim, m, chunks[0], source);
      RoundClock(lim, m, chunks[0]);
      hide MixerRun.Accounted, CapFar, Round;
      RecordedCapFar(lim, Round(lim, m, chunks[0]), chunks[1..], source);
    }
  }

  /** After a drain the cursor is too close to the stream's end for the cap. */
  lemma CursorNotCapped(lim: Limits, r: Mixer, source: Source)
    requires lim.Valid() && MixerRun.Accounted(r) && CapFar(Of(r, source), lim.cap)
    requires Plan(lim, ClockOf(r)).None? && Of(r, source).side.expected
    ensures r.pos !in Of(r, source).capLost
  {
    AccountedInv(r);
    DrainBound(lim, ClockOf(r));
  }

  /** The source reaches no further than the last cut, or it was first heard by then and reaches at most
      one window further. */
  predicate FitsLastWindow(lim: Limits, chunks: seq<Chunk>, source: Source)
    requires lim.Valid()
  {
    var c := Arrivals(Start(true, true), Events(chunks));
    var (reach, last) := (Reach(c, source), LastCut(lim, c, source));
    reach <= last || (HeadStart(chunks, source) <= last && reach <= last + lim.window)
  }

  /** Exactly when a two-source recording is flushed right for a source that was never given up on,
      from the arrivals alone and whatever became of its peer. */
  lemma FlushInPlaceIff(lim: Limits, chunks: seq<Chunk>, source: Source)
    requires lim.Valid() && Spares(RunGaps(lim, Start(true, true), Events(chunks)), source)
    ensures var r := Recorded(lim, Fresh(true, true), chunks);
      && Drained(lim, r) == r
      && r.pos == LastCut(lim, Arrivals(Start(true, true), Events(chunks)), source)
      && (InPlace(Of(r, source), r.pos, lim.window) <==> FitsLastWindow(lim, chunks, source))
  {
    hide Recorded, RunGaps, Spares, Arrivals, LastCut, InPlace, SourceTrack.Accounted, HeadStart, AtLastCut, Plan;
    var r := Recorded(lim, Fresh(true, true), chunks);
    FreshAccounted(lim, true, true);
    SparedEnd(lim, chunks, source);
    RecordedResolved(lim, true, true, chunks);
    StartAtLastCut(lim, source);
    RunSparedCursor(lim, Start(true, true), Events(chunks), source);
    EveryRunAccounted(lim, Fresh(true, true), chunks);
    TrackInPlaceIff(Of(r, source), r.pos, lim.window);
    ReachIsNext(r, source);
  }

  lemma RecordedResolved(lim: Limits, micPresent: bool, systemPresent: bool, chunks: seq<Chunk>)
    requires lim.Valid()
    ensures var r := Recorded(lim, Fresh(micPresent, systemPresent), chunks);
      Plan(lim, ClockOf(r)).None? && Drained(lim, r) == r
  {
    hide Recorded;
    RecordedIsResolved(lim, Fresh(micPresent, systemPresent), chunks);
  }

  /** How a spared source ends: anchored at its head start, nothing dropped at the cursor. */
  lemma SparedEnd(lim: Limits, chunks: seq<Chunk>, source: Source)
    requires lim.Valid() && Spares(RunGaps(lim, Start(true, true), Events(chunks)), source)
    ensures var r := Recorded(lim, Fresh(true, true), chunks);
      && MixerRun.Accounted(r) && r.pos !in Of(r, source).capLost && Of(r, source).side.expected
      && (Of(r, source).side.seen ==> Of(r, source).anchor == HeadStart(chunks, source))
  {
    var m := Fresh(true, true);
    FreshAccounted(lim, true, true);
    assert CapFar(Of(m, source), lim.cap);
    hide Recorded, RunGaps, Spares, SourceTrack.Accounted, HeadStart, CapFar, Plan;
    EveryRunAccounted(lim, m, chunks);
    RecordedCapFar(lim, m, chunks, source);
    AnchorIsHeadStart(lim, m, chunks, source);
    RecordedResolved(lim, true, true, chunks);
    PresenceStays(lim, m, chunks);
    CursorNotCapped(lim, Recorded(lim, m, chunks), source);
  }

  // ----- The whole recording, last window included -----

  /** Past the cursor of an accounted track: its sample, if it has one there that the cap left. */
  lemma IdealPastCursor(t: Track, pos: nat, p: nat)
    requires SourceTrack.Accounted(t, pos) && p >= pos
    ensures Ideal(t, p) == if p in t.capLost || !t.side.seen then SILENCE else Timeline(t.stream, t.anchor, p)
    ensures !t.side.seen ==> t.stream == []
  {
  }

  /** A spared source that is in place: the flush completes its timeline. */
  lemma FlushedEmits(lim: Limits, r: Mixer, source: Source, p: nat)
    requires lim.Valid() && MixerRun.Accounted(r) && Spared(Of(r, source)) && Drained(lim, r) == r
    requires p < r.pos || InPlace(Of(r, source), r.pos, lim.window)
    requires p < Flushed(lim, r).pos
    ensures var (t, f) := (Of(r, source), Flushed(lim, r));
      && |Of(f, source).emitted| == f.pos && (!t.side.seen ==> t.stream == [])
      && Of(f, source).emitted[p] == if p in t.capLost || !t.side.seen then SILENCE
                                     else Timeline(t.stream, t.anchor, p)
  {
    var t := Of(r, source);
    SparedLengths(r, source);
    FlushedOf(lim, r, source);
    hide Flushed, Padded, InPlace, Drained, Ideal, Timeline, MixerRun.Accounted, Spared;
    if p < r.pos {
      SparedEmits(r, source, p);
    } else {
      LastWindowEmits(r, source, lim.window, p);
    }
  }

  lemma LastWindowEmits(r: Mixer, source: Source, w: nat, p: nat)
    requires MixerRun.Accounted(r) && InPlace(Of(r, source), r.pos, w) && r.pos <= p < r.pos + w
    ensures var t := Of(r, source);
      Padded(t.buffer, w)[p - r.pos] == if p in t.capLost || !t.side.seen then SILENCE
                                        else Timeline(t.stream, t.anchor, p)
  {
    var t := Of(r, source);
    InPlaceFaithful(t, r.pos, w);
    IdealPastCursor(t, r.pos, p);
    hide Ideal, Padded, InPlace, SourceTrack.Accounted, Timeline;
    assert Padded(t.buffer, w)[p - r.pos] == Ideal(t, r.pos + (p - r.pos));
  }

  lemma SparedLengths(r: Mixer, source: Source)
    requires MixerRun.Accounted(r)
    ensures |Of(r, source).emitted| == r.pos && (!Of(r, source).side.seen ==> Of(r, source).stream == [])
  {
  }

  /** What a flush adds to a source. */
  lemma FlushedOf(lim: Limits, r: Mixer, source: Source)
    requires lim.Valid() && Drained(lim, r) == r
    ensures var f := Flushed(lim, r);
      if f.pos == r.pos then f == r
      else f.pos == r.pos + lim.window
           && Of(f, source).emitted == Of(r, source).emitted + Padded(Of(r, source).buffer, lim.window)
  {
    hide Padded, Drained;
  }

  /** From the first chunk to the end of the flush: while a source is never given up on, whatever becomes
      of its peer, position p of all that is emitted for it is the sample it sent for p, or silence where
      it sent none or the cap dropped it. Past the last cut that takes leftovers that are in place. */
  lemma FlushedIsTimeline(lim: Limits, micPresent: bool, systemPresent: bool, chunks: seq<Chunk>,
                          source: Source, p: nat)
    requires lim.Valid() && Spares(RunGaps(lim, Start(micPresent, systemPresent), Events(chunks)), source)
    requires if source == Microphone then micPresent else systemPresent
    requires var r := Recorded(lim, Fresh(micPresent, systemPresent), chunks);
      && p < Flushed(lim, r).pos
      && (p < r.pos || InPlace(Of(r, source), r.pos, lim.window))
    ensures var r := Recorded(lim, Fresh(micPresent, systemPresent), chunks);
      var anchor := if micPresent && systemPresent then HeadStart(chunks, source) else 0;
      var emitted := Of(Flushed(lim, r), source).emitted;
      && |emitted| == Flushed(lim, r).pos
      && emitted[p] == if p in Of(r, source).capLost then SILENCE else Timeline(Sent(chunks, source), anchor, p)
  {
    hide *;
    SparedRun(lim, micPresent, systemPresent, chunks, source);
    RecordedResolved(lim, micPresent, systemPresent, chunks);
    FlushedEmits(lim, Recorded(lim, Fresh(micPresent, systemPresent), chunks), source, p);
    NothingSounds(if micPresent && systemPresent then HeadStart(chunks, source) else 0, p);
  }

  lemma NothingSounds(anchor: nat, p: nat)
    ensures Timeline([], anchor, p) == SILENCE
  {
  }

  /** Where a run leaves a source that it spares. */
  lemma SparedRun(lim: Limits, micPresent: bool, systemPresent: bool, chunks: seq<Chunk>, source: Source)
    requires lim.Valid() && Spares(RunGaps(lim, Start(micPresent, systemPresent), Events(chunks)), source)
    requires if source == Microphone then micPresent else systemPresent
    ensures var r := Recorded(lim, Fresh(micPresent, systemPresent), chunks);
      var anchor := if micPresent && systemPresent then HeadStart(chunks, source) else 0;
      && MixerRun.Accounted(r) && Spared(Of(r, source)) && Of(r, source).stream == Sent(chunks, source)
      && (Of(r, source).side.seen ==> Of(r, source).anchor == anchor)
  {
    var m := Fresh(micPresent, systemPresent);
    FreshAccounted(lim, micPresent, systemPresent);
    assert [] + Sent(chunks, source) == Sent(chunks, source);
    hide Spared, Recorded, Spares, RunGaps, MixerRun.Accounted, HeadStart;
    EveryRunAccounted(lim, m, chunks);
    RecordedSpared(lim, m, chunks, source);
    StreamIsSent(lim, m, chunks, source);
    AnchorIsHeadStart(lim, m, chunks, source);
  }

  lemma ReachIsNext(r: Mixer, source: Source)
    requires MixerRun.Accounted(r) && Of(r, source).side.expected
    ensures Reach(ClockOf(r), source) == Of(r, source).side.next
    ensures !Of(r, source).side.seen ==> Of(r, source).side.next == 0
  {
  }

  /** A run the flush gets wrong: two windows of mic audio while the system is silent. The second window
      is dropped; neither the cap nor a forced gap had a part in it. */
  lemma FlushDropsSecondWindow(lim: Limits, a: seq<Sample>)
    requires lim.Valid() && |a| == 2 * lim.window <= lim.lag
    ensures var r := Recorded(lim, Fresh(true, true), [Chunk(Microphone, a)]);
      && r.mic.buffer == r.mic.stream == a && r.pos == 0
      && var f := Flushed(lim, r);
         f.mic.emitted == a[..lim.window] && f.mic.buffer == [] && f.mic.capLost == {} && Spared(f.mic)
  {
    var m := Fresh(true, true);
    var r := Added(lim, m, Chunk(Microphone, a));
    assert r.mic.buffer == a && r.mic.stream == a;
    assert Plan(lim, ClockOf(r)).None?;
    assert [Chunk(Microphone, a)][1..] == [];
    assert Recorded(lim, m, [Chunk(Microphone, a)]) == Recorded(lim, r, []);
  }

  // ----- Recordings with one source -----

  lemma {:induction false} DrainedIsResolved(lim: Limits, m: Mixer)
    requires lim.Valid()
    ensures Plan(lim, ClockOf(Drained(lim, m))).None?
    decreases Lead(ClockOf(m))
  {
    if Plan(lim, ClockOf(m)).Some? {
      StepShrinksLead(lim, ClockOf(m));
      var n := Extracted(lim, m, Plan(lim, ClockOf(m)).value);
      assert ClockOf(n) == Step(lim, ClockOf(m), Plan(lim, ClockOf(m)).value);
      DrainedIsResolved(lim, n);
    }
  }

  lemma {:induction false} RecordedIsResolved(lim: Limits, m: Mixer, chunks: seq<Chunk>)
    requires lim.Valid() && Plan(lim, ClockOf(m)).None?
    ensures Plan(lim, ClockOf(Recorded(lim, m, chunks))).None?
    decreases |chunks|
  {
    if chunks != [] {
      DrainedIsResolved(lim, Added(lim, m, chunks[0]));
      RecordedIsResolved(lim, Round(lim, m, chunks[0]), chunks[1..]);
    }
  }

  lemma {:induction false} PresenceStays(lim: Limits, m: Mixer, chunks: seq<Chunk>)
    requires lim.Valid()
    ensures var r := Recorded(lim, m, chunks);
      r.mic.side.expected == m.mic.side.expected && r.system.side.expected == m.system.side.expected
    decreases |chunks|
  {
    hide Round;
    if chunks != [] {
      RoundSides(lim, m, chunks[0]);
      PresenceStays(lim, Round(lim, m, chunks[0]), chunks[1..]);
    }
  }

  /** A lone steady stream flushes to itself and less than a window of silence. */
  lemma LoneTrackFlushed(t: Track, pos: nat, w: nat)
    requires SourceTrack.Accounted(t, pos) && Spared(t) && t.capLost == {} && t.side.expected && w > 0
    requires t.side.seen ==> t.anchor == 0 && t.side.next < pos + w
    ensures t.buffer == [] ==> t.emitted == t.stream
    ensures t.buffer != [] ==>
      (InPlace(t, pos, w) && |t.buffer| < w && Emptied(t, w).emitted == t.stream + Silence(w - |t.buffer|))
  {
    var n := |t.stream|;
    assert t.side.seen ==> pos <= n;
    assert !t.side.seen ==> pos == 0;
    forall p | 0 <= p < pos
      ensures t.emitted[p] == t.stream[p]
    {
      assert t.emitted[p] == Ideal(t, p);
    }
    assert pos < n && (t.buffer == [] || pos < t.start) ==> pos in t.capLost;
    if t.buffer != [] {
      assert t.stream == t.stream[..pos] + t.stream[pos..];
    }
  }

  lemma AbsentTrackFlushed(t: Track, pos: nat, w: nat)
    requires SourceTrack.Accounted(t, pos) && !t.side.expected
    ensures t.emitted == Silence(pos) && t.buffer == []
    ensures Emptied(t, w).emitted == Silence(pos + w)
  {
    forall p | 0 <= p < pos
      ensures t.emitted[p] == SILENCE
    {
      assert t.emitted[p] == Ideal(t, p);
    }
  }

  /** What is left of a recording of one source is in place. */
  lemma SingleSourceInPlace(lim: Limits, chunks: seq<Chunk>, source: Source)
    requires lim.Valid() && ChunksWithin(chunks, lim.cap - lim.lag)
    ensures var r := Recorded(lim, Fresh(source == Microphone, source == System), chunks);
      InPlace(Of(r, source), r.pos, lim.window)
  {
    hide Recorded, SourceTrack.Accounted;
    SingleSourceState(lim, chunks, source);
    var r := Recorded(lim, Fresh(source == Microphone, source == System), chunks);
    LoneTrackFlushed(Of(r, source), r.pos, lim.window);
  }

  /** The state in which a recording of one source ends. */
  lemma SingleSourceState(lim: Limits, chunks: seq<Chunk>, source: Source)
    requires lim.Valid() && ChunksWithin(chunks, lim.cap - lim.lag)
    ensures var r := Recorded(lim, Fresh(source == Microphone, source == System), chunks);
      && MixerRun.Accounted(r) && Plan(lim, ClockOf(r)).None?
      && Spared(Of(r, source)) && Of(r, source).capLost == {}
      && Of(r, source).side.expected && !Of(r, Peer(source)).side.expected
      && (Of(r, source).side.seen ==> Of(r, source).anchor == 0)
      && Of(r, source).stream == Sent(chunks, source)
  {
    var (a, b) := (source == Microphone, source == System);
    var m := Fresh(a, b);
    FreshAccounted(lim, a, b);
    assert Plan(lim, ClockOf(m)).None?;
    assert [] + Sent(chunks, source) == Sent(chunks, source);
    hide Recorded, Spares, RunGaps, Sent, SourceTrack.Accounted, Plan;
    SingleSourceNeverGaps(lim, Start(a, b), Events(chunks));
    EveryRunAccounted(lim, m, chunks);
    RecordedSpared(lim, m, chunks, source);
    CapNeverDrops(lim, m, chunks, source);
    StreamIsSent(lim, m, chunks, source);
    AnchorIsHeadStart(lim, m, chunks, source);
    RecordedIsResolved(lim, m, chunks);
    PresenceStays(lim, m, chunks);
  }

  /** A recording of one source alone comes out whole: all it sent, then less than a window of
      silence. */
  lemma SingleSourceFlushed(lim: Limits, chunks: seq<Chunk>, source: Source)
    requires lim.Valid() && ChunksWithin(chunks, lim.cap - lim.lag)
    ensures var r := Flushed(lim, Recorded(lim, Fresh(source == Microphone, source == System), chunks));
      var (sent, out) := (Sent(chunks, source), Of(r, source).emitted);
      && |sent| <= |out| < |sent| + lim.window
      && out == sent + Silence(|out| - |sent|)
      && Of(r, Peer(source)).emitted == Silence(|out|)
  {
    hide Recorded, Flushed, Sent, Silence, SourceTrack.Accounted, Spared, Plan;
    SingleSourceState(lim, chunks, source);
    LoneMixerFlushed(lim, Recorded(lim, Fresh(source == Microphone, source == System), chunks), source);
  }

  lemma LoneMixerFlushed(lim: Limits, r: Mixer, source: Source)
    requires lim.Valid() && MixerRun.Accounted(r) && Plan(lim, ClockOf(r)).None?
    requires Spared(Of(r, source)) && Of(r, source).capLost == {}
    requires Of(r, source).side.expected && !Of(r, Peer(source)).side.expected
    requires Of(r, source).side.seen ==> Of(r, source).anchor == 0
    ensures var (sent, out) := (Of(r, source).stream, Of(Flushed(lim, r), source).emitted);
      && |sent| <= |out| < |sent| + lim.window
      && out == sent + Silence(|out| - |sent|)
      && Of(Flushed(lim, r), Peer(source)).emitted == Silence(|out|)
  {
    LoneTrackFlushed(Of(r, source), r.pos, lim.window);
    AbsentTrackFlushed(Of(r, Peer(source)), r.pos, lim.window);
  }

  /** A finished recording consists of whole windows of both sources. */
  lemma FlushedWhole(lim: Limits, micPresent: bool, systemPresent: bool, chunks: seq<Chunk>)
    requires lim.Valid()
    ensures var f := Flushed(lim, Recorded(lim, Fresh(micPresent, systemPresent), chunks));
      |f.mic.emitted| == |f.system.emitted| == f.pos && OnBoundary(f.pos, lim.window)
  {
    var m := Fresh(micPresent, systemPresent);
    var r := Recorded(lim, m, chunks);
    FreshAccounted(lim, micPresent, systemPresent);
    EveryRunAccounted(lim, m, chunks);
    assert 0 == 0 * lim.window;
    RunOnBoundary(lim, Start(micPresent, systemPresent), Events(chunks));
    hide Recorded, RunClock, OnBoundary;
    DrainOnBoundary(lim, ClockOf(r));
    DrainedAccounted(lim, r);
    DrainedClock(lim, r);
    hide Drained, Drain;
    NextBoundary(Drained(lim, r).pos, Drained(lim, r).pos, lim.window);
  }

  /** Shutdown may flush twice, once on the signal and once when the channel closes: the second
      time has nothing left to do. */
  lemma FlushTwice(lim: Limits, m: Mixer)
    requires lim.Valid()
    ensures Flushed(lim, Flushed(lim, m)) == Flushed(lim, m)
  {
    var d := Drained(lim, m);
    DrainedIsResolved(lim, m);
    var f := Flushed(lim, m);
    assert Plan(lim, ClockOf(f)).None?;
    assert Drained(lim, f) == f;
  }
}
