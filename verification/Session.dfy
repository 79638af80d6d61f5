/** A recording from end to end: chunks in any order through the mixer, the stereo interleave, the
    checkpoints and the encoder. */
module Session {
  import opened Wrappers
  import opened MixerClock
  import opened Pcm
  import opened MixerRing
  import opened Stereo
  import MixerRun
  import MixerFlush
  import FrameCarry
  import Checkpoints

  function SampleAt(s: seq<Sample>, i: nat): Sample {
    if i < |s| then s[i] else SILENCE
  }

  /** Mic left, system right, the shorter one padded with silence. */
  method Interleave(mic: seq<Sample>, system: seq<Sample>) returns (stereo: seq<Sample>)
    ensures |stereo| == 2 * Max(|mic|, |system|)
    ensures forall i :: 0 <= i < Max(|mic|, |system|) ==> stereo[2 * i] == SampleAt(mic, i)
    ensures forall i :: 0 <= i < Max(|mic|, |system|) ==> stereo[2 * i + 1] == SampleAt(system, i)
  {
    var frames := Max(|mic|, |system|);
    stereo := [];
    for i := 0 to frames
      invariant |stereo| == 2 * i
      invariant forall k :: 0 <= k < i ==> stereo[2 * k] == SampleAt(mic, k)
      invariant forall k :: 0 <= k < i ==> stereo[2 * k + 1] == SampleAt(system, k)
    {
      stereo := stereo + [SampleAt(mic, i)];
      stereo := stereo + [SampleAt(system, i)];
    }
  }

  class AudioPipeline {
    const ring: AudioMixerRingBuffer
    const enhance: Enhance
    // The windows processed so far, and the stereo chunks sent to the saver.
    var windows: seq<Window>
    var sent: seq<seq<Sample>>

    constructor (sampleRate: nat, micPresent: bool, systemPresent: bool, enhance: Enhance)
      requires sampleRate >= 20
      ensures ring.Valid() && fresh(ring) && fresh(ring.mic) && fresh(ring.system)
      ensures ring.lim == LimitsFor(sampleRate) && ring.Now() == MixerRun.Fresh(micPresent, systemPresent)
      ensures this.enhance == enhance && windows == [] && sent == []
    {
      ring := new AudioMixerRingBuffer(sampleRate);
      this.enhance := enhance;
      windows, sent := [], [];
      new;
      ring.SetExpectedSources(micPresent, systemPresent);
    }

    ghost predicate NeverLonger() {
      forall w: seq<Window> :: |enhance(w)| <= ring.lim.window
    }

    /** What was sent is the enhanced mic and the system half of every window processed, in turn. */
    ghost predicate Written()
      reads this
    {
      && FullWindows(windows, ring.lim.window)
      && Channels(Flat(sent), Left(enhance, windows, ring.lim.window), SystemPart(windows))
    }

    /** Moreover, the windows processed are all the mixer has emitted. */
    ghost predicate Faithful()
      reads this, ring.mic, ring.system
    {
      Written() && MicPart(windows) == ring.mic.emitted && SystemPart(windows) == ring.system.emitted
    }

    /** One window becomes one stereo chunk: left the enhanced mic, right the system half. */
    method ProcessWindow(window: Window)
      requires NeverLonger() && Written() && |window.0| == |window.1| == ring.lim.window
      modifies this`windows, this`sent
      ensures Written() && windows == old(windows) + [window]
      ensures |sent| == |old(sent)| + 1 && sent[..|old(sent)|] == old(sent)
      ensures Channels(sent[|old(sent)|], MixerFlush.Padded(enhance(windows), ring.lim.window), window.1)
    {
      windows := windows + [window];
      var mic := enhance(windows);
      assert |mic| <= ring.lim.window;
      var stereo := Interleave(mic, window.1);
      InterleavedChannels(mic, window.1, stereo);
      sent := sent + [stereo];
      hide Channels, Left, Flat, MicPart, SystemPart;
      SentGrows(old(sent), stereo, enhance, old(windows), window, ring.lim.window);
    }

    /** Cut and process every window that is resolved. */
    method DrainWindows()
      requires ring.Valid() && NeverLonger() && Faithful()
      modifies this`windows, this`sent, ring`windowPos, ring.mic, ring.system
      ensures ring.Valid() && Faithful()
      ensures ring.Now() == MixerRun.Drained(ring.lim, old(ring.Now()))
    {
      hide MixerRun.Drained, MixerRun.Extracted, MixerRun.Sound, Plan, Lead, Channels, Left, Flat, MicPart, SystemPart;
      while true
        invariant ring.Valid() && Faithful()
        invariant MixerRun.Drained(ring.lim, old(ring.Now())) == MixerRun.Drained(ring.lim, ring.Now())
        decreases Lead(MixerRun.ClockOf(ring.Now()))
      {
        MixerRun.DrainedStep(ring.lim, ring.Now());
        var window := ring.ExtractWindow();
        if window.None? {
          break;
        }
        PartsGrow(windows, window.value);
        ProcessWindow(window.value);
      }
    }

    /** A chunk arrives: add, then drain. */
    method Receive(source: Source, samples: seq<Sample>)
      requires ring.Valid() && NeverLonger() && Faithful()
      modifies this`windows, this`sent, ring`windowPos, ring.mic, ring.system
      ensures ring.Valid() && Faithful()
      ensures ring.Now() == MixerRun.Round(ring.lim, old(ring.Now()), MixerRun.Chunk(source, samples))
    {
      ring.AddSamples(source, samples);
      DrainWindows();
    }

    /** Shutdown: flush the ring buffer and process what it still owes. */
    method FlushRemaining()
      requires ring.Valid() && NeverLonger() && Faithful()
      modifies this`windows, this`sent, ring`windowPos, ring.mic, ring.system
      ensures ring.Valid() && Faithful()
      ensures ring.Now() == MixerFlush.Flushed(ring.lim, old(ring.Now()))
    {
      hide Channels, Left, Flat, MicPart, SystemPart, MixerFlush.Flushed;
      ghost var before := windows;
      var last := ring.FlushFinal();
      assert before + last[..0] == before;
      for i := 0 to |last|
        modifies this`windows, this`sent
        invariant Written() && windows == before + last[..i]
      {
        ProcessWindow(last[i]);
        assert before + last[..i] + [last[i]] == before + last[..i + 1];
      }
      assert last[..|last|] == last;
      PartsAppend(before, last);
    }
  }

  lemma InterleavedChannels(mic: seq<Sample>, system: seq<Sample>, stereo: seq<Sample>)
    requires |mic| <= |system| && |stereo| == 2 * |system|
    requires forall i :: 0 <= i < |system| ==> stereo[2 * i] == SampleAt(mic, i)
    requires forall i :: 0 <= i < |system| ==> stereo[2 * i + 1] == SampleAt(system, i)
    ensures Channels(stereo, MixerFlush.Padded(mic, |system|), system)
  {
    var left := MixerFlush.Padded(mic, |system|);
    forall f | 0 <= f < |system|
      ensures stereo[2 * f] == left[f] && stereo[2 * f + 1] == system[f]
    {
      assert left[f] == SampleAt(mic, f) && system[f] == SampleAt(system, f);
    }
  }

  lemma SentGrows(sent: seq<seq<Sample>>, stereo: seq<Sample>, enhance: Enhance,
                  windows: seq<Window>, window: Window, w: nat)
    requires Channels(Flat(sent), Left(enhance, windows, w), SystemPart(windows))
    requires Channels(stereo, MixerFlush.Padded(enhance(windows + [window]), w), window.1)
    ensures Channels(Flat(sent + [stereo]), Left(enhance, windows + [window], w), SystemPart(windows + [window]))
  {
    hide *;
    FlatOne(sent, stereo);
    PartsGrow(windows, window);
    LeftGrows(enhance, windows, window, w);
    ChannelsAppend(Flat(sent), Left(enhance, windows, w), SystemPart(windows),
                   stereo, MixerFlush.Padded(enhance(windows + [window]), w), window.1);
  }

  /** The mixer after all chunks and the shutdown flush. */
  ghost function Finished(lim: Limits, micPresent: bool, systemPresent: bool, chunks: seq<MixerRun.Chunk>)
    : MixerRun.Mixer
    requires lim.Valid()
  {
    MixerFlush.Flushed(lim, MixerRun.Recorded(lim, MixerRun.Fresh(micPresent, systemPresent), chunks))
  }

  /** The right channel of a finished recording: all that the mixer emits for the system. */
  ghost function RightOf(lim: Limits, micPresent: bool, systemPresent: bool, chunks: seq<MixerRun.Chunk>): seq<Sample>
    requires lim.Valid()
  {
    Finished(lim, micPresent, systemPresent, chunks).system.emitted
  }

  /** The left channel: the windows the mixer emits, each enhanced given those before it. */
  ghost function LeftOf(lim: Limits, micPresent: bool, systemPresent: bool, chunks: seq<MixerRun.Chunk>,
                        enhance: Enhance): seq<Sample>
    requires lim.Valid()
  {
    var m := Finished(lim, micPresent, systemPresent, chunks);
    Left(enhance, WindowsOf(m.mic.emitted, m.system.emitted, lim.window), lim.window)
  }

  /** The pipeline's run loop over all chunks, then the shutdown flush. */
  method RunPipeline(sampleRate: nat, micPresent: bool, systemPresent: bool, chunks: seq<MixerRun.Chunk>,
                     enhance: Enhance)
    returns (sent: seq<seq<Sample>>)
    requires sampleRate >= 20
    requires forall w: seq<Window> :: |enhance(w)| <= LimitsFor(sampleRate).window
    ensures var lim := LimitsFor(sampleRate);
      Channels(Flat(sent), LeftOf(lim, micPresent, systemPresent, chunks, enhance),
               RightOf(lim, micPresent, systemPresent, chunks))
  {
    hide Channels, Left, WindowsOf, MicPart, SystemPart, MixerFlush.Flushed, MixerRun.Round, MixerRun.Sound;
    var lim := LimitsFor(sampleRate);
    var pipeline := new AudioPipeline(sampleRate, micPresent, systemPresent, enhance);
    ghost var all := MixerRun.Recorded(lim, MixerRun.Fresh(micPresent, systemPresent), chunks);
    assert chunks[0..] == chunks;
    NothingWritten(enhance, lim.window);
    for k := 0 to |chunks|
      invariant pipeline.ring.Valid() && pipeline.NeverLonger() && pipeline.Faithful()
      invariant MixerRun.Recorded(lim, pipeline.ring.Now(), chunks[k..]) == all
      invariant fresh(pipeline) && fresh(pipeline.ring) && fresh(pipeline.ring.mic) && fresh(pipeline.ring.system)
    {
      assert chunks[k..][0] == chunks[k] && chunks[k..][1..] == chunks[k + 1..];
      pipeline.Receive(chunks[k].source, chunks[k].samples);
      assert chunks[k] == MixerRun.Chunk(chunks[k].source, chunks[k].samples);
    }
    assert chunks[|chunks|..] == [];
    pipeline.FlushRemaining();
    sent := pipeline.sent;
    WindowsOfParts(pipeline.windows, lim.window);
  }

  lemma NothingWritten(enhance: Enhance, w: nat)
    ensures FullWindows([], w) && MicPart([]) == [] && SystemPart([]) == []
    ensures Channels(Flat<Sample>([]), Left(enhance, [], w), [])
  {
  }

  /** Everything the pipeline sends becomes checkpoints, and the checkpoints become the recording.
      `outcomes` decides which checkpoint writes fail. */
  method SaveRecording(sent: seq<seq<Sample>>, sampleRate: nat, outcomes: nat -> Checkpoints.WriteOutcome,
                       outside: FrameCarry.Outside)
    returns (r: Checkpoints.Final, checkpoints: nat)
    ensures r.Finished? && checkpoints <= 1000 ==>
      r.pcm == FrameCarry.WholeFrames(LeBytes(Flat(sent)), FrameCarry.FrameBytes(2))
    ensures r.NoCheckpoints? <==> Flat(sent) == []
    ensures r.SaveFailed? ==> !outcomes(|sent|).Written?
    ensures r.EncodeFailed? ==> !FrameCarry.Faultless(outside)
    ensures sampleRate > 0 && |Flat(sent)| <= 60000 * sampleRate ==> checkpoints <= 1000
  {
    hide Checkpoints.OnDisk, Checkpoints.AtLeast;
    var saver := new Checkpoints.IncrementalAudioSaver(sampleRate, 2, []);
    for k := 0 to |sent|
      invariant saver.Valid() && saver.AllFull() && fresh(saver)
      invariant saver.added == Flat(sent[..k])
    {
      FlatOne(sent[..k], sent[k]);
      assert sent[..k] + [sent[k]] == sent[..k + 1];
      var _ := saver.AddChunk(sent[k], outcomes(k));
    }
    assert sent[..|sent|] == sent;
    r := saver.Finalize(outcomes(|sent|), outside);
    checkpoints := saver.checkpointCount;
  }

  // ----- End to end -----

  /** The bytes are stereo frames that carry `left` and `right`. */
  ghost predicate ChannelBytes(pcm: seq<Byte>, left: seq<Sample>, right: seq<Sample>) {
    && |pcm| == 8 * |right| && |left| == |right|
    && forall f :: 0 <= f < |right| ==>
         FromLe(pcm[8 * f..8 * f + 4]) == left[f] && FromLe(pcm[8 * f + 4..8 * f + 8]) == right[f]
  }

  lemma FrameBytesAt(stereo: seq<Sample>, f: nat)
    requires 2 * f + 1 < |stereo|
    ensures 8 * f + 8 <= |LeBytes(stereo)|
    ensures FromLe(LeBytes(stereo)[8 * f..8 * f + 4]) == stereo[2 * f]
    ensures FromLe(LeBytes(stereo)[8 * f + 4..8 * f + 8]) == stereo[2 * f + 1]
  {
    hide LeBytes, FromLe;
    LeBytesAt(stereo, 2 * f);
    LeBytesAt(stereo, 2 * f + 1);
    assert 4 * (2 * f) == 8 * f && 4 * (2 * f + 1) == 8 * f + 4;
  }

  lemma WholeStereo(stereo: seq<Sample>, n: nat)
    requires |stereo| == 2 * n
    ensures FrameCarry.WholeFrames(LeBytes(stereo), FrameCarry.FrameBytes(2)) == LeBytes(stereo)
  {
    hide LeBytes;
    var pcm := LeBytes(stereo);
    assert |pcm| == 8 * n;
    FrameCarry.RemainderOf(n, 0, 8);
    assert FrameCarry.WholeLen(|pcm|, 8) == |pcm|;
  }

  lemma StereoBytes(stereo: seq<Sample>, left: seq<Sample>, right: seq<Sample>)
    requires Channels(stereo, left, right)
    ensures ChannelBytes(FrameCarry.WholeFrames(LeBytes(stereo), FrameCarry.FrameBytes(2)), left, right)
  {
    hide LeBytes, FromLe, FrameCarry.WholeFrames;
    WholeStereo(stereo, |right|);
    var pcm := LeBytes(stereo);
    forall f | 0 <= f < |right|
      ensures FromLe(pcm[8 * f..8 * f + 4]) == left[f] && FromLe(pcm[8 * f + 4..8 * f + 8]) == right[f]
    {
      FrameBytesAt(stereo, f);
    }
  }

  /** From the first chunk to the encoder's input: whatever arrives in whatever order and whichever
      checkpoint writes fail, a recording that finishes carries exactly the system windows of the mixer
      in its right channel and the enhanced mic windows in its left one, sample for sample. That needs at
      most 1000 checkpoints, which a recording of up to 30000 seconds never exceeds. And it does finish,
      unless there is no audio, the last checkpoint cannot be written or something outside fails. */
  method RecordMeeting(sampleRate: nat, micPresent: bool, systemPresent: bool, chunks: seq<MixerRun.Chunk>,
                       enhance: Enhance, outcomes: nat -> Checkpoints.WriteOutcome, outside: FrameCarry.Outside)
    returns (r: Checkpoints.Final, checkpoints: nat)
    requires sampleRate >= 20
    requires forall w: seq<Window> :: |enhance(w)| <= LimitsFor(sampleRate).window
    ensures var lim := LimitsFor(sampleRate);
      var (left, right) := (LeftOf(lim, micPresent, systemPresent, chunks, enhance),
                            RightOf(lim, micPresent, systemPresent, chunks));
      && (|right| <= 30000 * sampleRate ==> checkpoints <= 1000)
      && (r.Finished? && checkpoints <= 1000 ==> ChannelBytes(r.pcm, left, right))
      && (r.NoCheckpoints? <==> right == [])
    ensures (forall k :: outcomes(k).Written?) && FrameCarry.Faultless(outside) ==> r.Finished? || r.NoCheckpoints?
  {
    var lim := LimitsFor(sampleRate);
    var sent := RunPipeline(sampleRate, micPresent, systemPresent, chunks, enhance);
    ghost var left := LeftOf(lim, micPresent, systemPresent, chunks, enhance);
    ghost var right := RightOf(lim, micPresent, systemPresent, chunks);
    StereoBytes(Flat(sent), left, right);
    assert |Flat(sent)| == 2 * |right|;
    hide LeftOf, RightOf, Channels, ChannelBytes;
    r, checkpoints := SaveRecording(sent, sampleRate, outcomes, outside);
  }

  /** Position f was cut before the final flush, or in it, from leftovers that are in place. */
  ghost predicate Settled(lim: Limits, micPresent: bool, systemPresent: bool, chunks: seq<MixerRun.Chunk>,
                          source: Source, f: nat)
    requires lim.Valid()
  {
    var r := MixerRun.Recorded(lim, MixerRun.Fresh(micPresent, systemPresent), chunks);
    f < r.pos || MixerFlush.InPlace(MixerRun.Of(r, source), r.pos, lim.window)
  }

  /** What the right channel holds, in terms of the chunks alone: while the system stream itself is never
      given up on, every frame, the last window's too if its leftovers are in place, is the system sample
      that belongs there, or silence where the safety cap dropped it. A microphone that is late, muted or
      gone changes nothing. */
  lemma RightIsSystemTimeline(lim: Limits, micPresent: bool, chunks: seq<MixerRun.Chunk>, f: nat)
    requires lim.Valid() && Spares(RunGaps(lim, Start(micPresent, true), MixerRun.Events(chunks)), System)
    requires f < |RightOf(lim, micPresent, true, chunks)| && Settled(lim, micPresent, true, chunks, System, f)
    ensures var r := MixerRun.Recorded(lim, MixerRun.Fresh(micPresent, true), chunks);
      var anchor := if micPresent then MixerRun.HeadStart(chunks, System) else 0;
      RightOf(lim, micPresent, true, chunks)[f]
        == if f in r.system.capLost then SILENCE else MixerRun.Timeline(MixerRun.Sent(chunks, System), anchor, f)
  {
    MixerFlush.FlushedWhole(lim, micPresent, true, chunks);
    hide MixerRun.Recorded, MixerRun.Timeline, MixerRun.Sent, MixerRun.HeadStart, Spares, RunGaps;
    hide MixerFlush.Flushed, MixerFlush.InPlace;
    MixerFlush.FlushedIsTimeline(lim, micPresent, true, chunks, System, f);
  }

  /** The same from the arrivals: no chunk too long for the cap, at every moment the microphone's stream no
      further than the lag ahead of the system stream's last whole window, and at the end a system stream
      that fits the last window. */
  lemma RightWhileMicKeepsBack(lim: Limits, micPresent: bool, chunks: seq<MixerRun.Chunk>, f: nat)
    requires lim.Valid() && MixerRun.ChunksWithin(chunks, lim.cap - lim.lag)
    requires micPresent ==> forall j :: 1 <= j <= |chunks| ==>
      KeepsUp(lim, Arrivals(Start(true, true), MixerRun.Events(chunks)[..j]), System)
    requires f < |RightOf(lim, micPresent, true, chunks)|
    requires f < MixerRun.Recorded(lim, MixerRun.Fresh(micPresent, true), chunks).pos
          || (micPresent ==> MixerFlush.FitsLastWindow(lim, chunks, System))
    ensures var anchor := if micPresent then MixerRun.HeadStart(chunks, System) else 0;
      RightOf(lim, micPresent, true, chunks)[f] == MixerRun.Timeline(MixerRun.Sent(chunks, System), anchor, f)
  {
    var (events, m) := (MixerRun.Events(chunks), MixerRun.Fresh(micPresent, true));
    MixerRun.FreshAccounted(lim, micPresent, true);
    hide MixerRun.Recorded, MixerRun.Timeline, MixerRun.Sent, MixerRun.HeadStart, KeepsUp, RunGaps, RightOf, Spares;
    hide MixerFlush.FitsLastWindow, MixerFlush.InPlace, Arrivals;
    if micPresent {
      NeverGivenUpIff(lim, events, System);
      MixerFlush.FlushInPlaceIff(lim, chunks, System);
    } else {
      SingleSourceNeverGaps(lim, Start(false, true), events);
      MixerFlush.SingleSourceInPlace(lim, chunks, System);
    }
    MixerRun.CapNeverDrops(lim, m, chunks, System);
    RightIsSystemTimeline(lim, micPresent, chunks, f);
  }

  /** With echo cancellation, filters and loudness switched off the left channel is all that the mixer
      emits for the microphone. */
  lemma PlainLeftIsMic(lim: Limits, micPresent: bool, systemPresent: bool, chunks: seq<MixerRun.Chunk>,
                       enhance: Enhance)
    requires lim.Valid() && forall ws: seq<Window> :: ws != [] ==> enhance(ws) == ws[|ws| - 1].0
    ensures LeftOf(lim, micPresent, systemPresent, chunks, enhance)
         == Finished(lim, micPresent, systemPresent, chunks).mic.emitted
  {
    MixerFlush.FlushedWhole(lim, micPresent, systemPresent, chunks);
    var m := Finished(lim, micPresent, systemPresent, chunks);
    var k: nat :| m.pos == k * lim.window;
    hide Finished, WindowsOf, Left, MicPart, FullWindows;
    PartsOfWindows(m.mic.emitted, m.system.emitted, lim.window, k);
    PlainLeft(enhance, WindowsOf(m.mic.emitted, m.system.emitted, lim.window), lim.window);
  }

  /** So it is the microphone's timeline, as the right channel is the system's. */
  lemma LeftIsMicTimeline(lim: Limits, systemPresent: bool, chunks: seq<MixerRun.Chunk>, enhance: Enhance, f: nat)
    requires lim.Valid() && Spares(RunGaps(lim, Start(true, systemPresent), MixerRun.Events(chunks)), Microphone)
    requires forall ws: seq<Window> :: ws != [] ==> enhance(ws) == ws[|ws| - 1].0
    requires f < |LeftOf(lim, true, systemPresent, chunks, enhance)|
    requires Settled(lim, true, systemPresent, chunks, Microphone, f)
    ensures var r := MixerRun.Recorded(lim, MixerRun.Fresh(true, systemPresent), chunks);
      var anchor := if systemPresent then MixerRun.HeadStart(chunks, Microphone) else 0;
      LeftOf(lim, true, systemPresent, chunks, enhance)[f]
        == if f in r.mic.capLost then SILENCE else MixerRun.Timeline(MixerRun.Sent(chunks, Microphone), anchor, f)
  {
    MixerFlush.FlushedWhole(lim, true, systemPresent, chunks);
    hide MixerRun.Recorded, MixerRun.Timeline, MixerRun.Sent, MixerRun.HeadStart, Spares, RunGaps, LeftOf;
    hide MixerFlush.Flushed, MixerFlush.InPlace;
    PlainLeftIsMic(lim, true, systemPresent, chunks, enhance);
    MixerFlush.FlushedIsTimeline(lim, true, systemPresent, chunks, Microphone, f);
  }

  /** A system-only recording is the system stream whole, then less than a window of silence. */
  lemma SystemOnlyIsWhole(lim: Limits, chunks: seq<MixerRun.Chunk>)
    requires lim.Valid() && MixerRun.ChunksWithin(chunks, lim.cap - lim.lag)
    ensures var (right, sent) := (RightOf(lim, false, true, chunks), MixerRun.Sent(chunks, System));
      |sent| <= |right| < |sent| + lim.window && right == sent + Silence(|right| - |sent|)
  {
    MixerFlush.SingleSourceFlushed(lim, chunks, System);
  }
}
