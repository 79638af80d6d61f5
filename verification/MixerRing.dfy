/** The program's alignment buffer: one `SourceState` per stream and the shared window cursor, with
    every method proved against the tracks of SourceTrack.dfy and the recordings of MixerRun.dfy. */
module MixerRing {
  import opened Wrappers
  import opened MixerClock
  import opened Pcm
  import opened SourceTrack
  import MixerRun
  import MixerFlush

  class SourceState {
    var expected: bool
    var seen: bool
    var buffer: seq<Sample>
    var bufStart: nat
    var rawNext: nat
    var discardBefore: nat

    // What the source really sent, and what became of it.
    ghost var stream: seq<Sample>
    ghost var anchor: nat
    ghost var emitted: seq<Sample>
    ghost var gapped: seq<bool>
    ghost var capLost: set<nat>

    constructor ()
      ensures Now() == MixerRun.NO_TRACK
    {
      expected, seen, buffer, bufStart, rawNext, discardBefore := true, false, [], 0, 0, 0;
      stream, anchor, emitted, gapped, capLost := [], 0, [], [], {};
    }

    /** The state as a track; the start of an empty buffer means nothing. */
    ghost function Now(): Track
      reads this
    {
      Track(Side(expected, seen, rawNext, discardBefore), buffer, if buffer == [] then 0 else bufStart,
            stream, anchor, emitted, gapped, capLost)
    }

    /** Absorb newly arrived samples: anchor on first arrival, drop what lands before
        `discardBefore`, enforce the safety cap. */
    method Ingest(cap: nat, otherExpected: bool, otherSeen: bool, otherNext: nat, samples: seq<Sample>,
                  ghost other: Side)
      requires Sound(Now()) && cap > 0
      requires other.expected == otherExpected && other.seen == otherSeen && other.next == otherNext
      modifies this
      ensures Now() == Heard(cap, old(Now()), other, samples)
    {
      if !expected || |samples| == 0 {
        return;
      }
      if !seen {
        PinTo(Max(if otherExpected && otherSeen then otherNext else 0, discardBefore));
      }
      Absorb(samples);
      if |buffer| > cap {
        DropOldest(|buffer| - cap);
      }
    }

    /** The first chunk fixes where the stream lies on the timeline. */
    method PinTo(first: nat)
      requires buffer == []
      modifies this`seen, this`bufStart, this`rawNext, this`anchor
      ensures Now() == Anchored(old(Now()), first)
    {
      seen := true;
      bufStart, rawNext, anchor := first, first, first;
    }

    method Absorb(samples: seq<Sample>)
      requires |samples| > 0
      modifies this`rawNext, this`buffer, this`bufStart, this`stream
      ensures Now() == Absorbed(old(Now()), samples)
    {
      stream := stream + samples;
      var incomingStart := rawNext;
      rawNext := incomingStart + |samples|;
      if incomingStart + |samples| <= discardBefore {
        // Entirely late: the cursor already emitted silence for this range.
        return;
      }
      var dropPrefix := Max(discardBefore - incomingStart, 0);
      var keep := if dropPrefix > 0 then samples[dropPrefix..] else samples;
      if |buffer| == 0 {
        bufStart := incomingStart + dropPrefix;
      }
      buffer := buffer + keep;
    }

    /** The safety cap: drop from the front, positions preserved. */
    method DropOldest(excess: nat)
      requires 0 < excess < |buffer|
      modifies this`buffer, this`bufStart, this`capLost
      ensures Now() == Capped(old(Now()), excess)
    {
      capLost := capLost + Span(bufStart, excess);
      buffer := buffer[excess..];
      bufStart := bufStart + excess;
    }

    /** One source's window [wp, wp + w), taken out of the buffer. */
    method TakeWindow(forcedGap: bool, wp: nat, w: nat) returns (out: seq<Sample>)
      requires Sound(Now())
      modifies this
      ensures |out| == w && emitted == old(emitted) + out
      ensures Now() == Taken(old(Now()), forcedGap, wp, w)
    {
      var windowEnd := wp + w;
      if !expected {
        out := Silence(w);
      } else if forcedGap {
        discardBefore := Max(discardBefore, windowEnd);
        buffer := [];
        bufStart := windowEnd;
        out := Silence(w);
      } else if !seen || bufStart >= windowEnd {
        out := Silence(w);
        SlotsSilent(Now(), wp, w);
      } else {
        out := PopWindow(wp, w);
      }
      emitted := emitted + out;
      gapped := gapped + Flags(w, forcedGap && expected);
    }

    /** The covered case: realign past a stale head, zero-fill up to the buffer's start, pop, zero-fill. */
    method PopWindow(wp: nat, w: nat) returns (out: seq<Sample>)
      requires bufStart < wp + w
      modifies this`buffer, this`bufStart
      ensures out == Slots(old(Now()), wp, w)
      ensures buffer == if wp + w < old(bufStart + |buffer|) then old(buffer)[wp + w - old(bufStart)..] else []
      ensures buffer != [] ==> bufStart == wp + w
    {
      if bufStart < wp {
        var stale := wp - bufStart;
        buffer := buffer[Min(stale, |buffer|)..];
        bufStart := wp;
      }
      out := Silence(Min(bufStart - wp, w));
      var take := Min(w - |out|, |buffer|);
      out := out + buffer[..take];
      buffer := buffer[take..];
      out := out + Silence(w - |out|);
      bufStart := bufStart + take;
      forall i | 0 <= i < w
        ensures out[i] == Slot(old(Now()), wp + i)
      {
      }
    }

    /** The leftover buffer, cut or padded to one window. */
    method Empty(w: nat) returns (out: seq<Sample>)
      modifies this
      ensures out == MixerFlush.Padded(old(buffer), w) && emitted == old(emitted) + out
      ensures Now() == MixerFlush.Emptied(old(Now()), w)
    {
      out := if |buffer| >= w then buffer[..w] else buffer + Silence(w - |buffer|);
      buffer := [];
      emitted := emitted + out;
      gapped := gapped + Flags(w, false);
    }
  }

  type Window = (seq<Sample>, seq<Sample>)

  /** 50 ms windows, a 4.8 s safety cap and half a second of patience. */
  function LimitsFor(sampleRate: nat): (lim: Limits)
    ensures sampleRate >= 20 ==> lim.Valid()
  {
    Limits(sampleRate / 20, sampleRate * 24 / 5, sampleRate / 2)
  }

  /** In whole samples, rounded down: 50 ms, 4.8 s and 500 ms. */
  lemma LimitsInTime(sampleRate: nat)
    ensures var lim := LimitsFor(sampleRate);
      && lim.window * 1000 <= sampleRate * 50 < (lim.window + 1) * 1000
      && lim.cap * 1000 <= sampleRate * 4800 < (lim.cap + 1) * 1000
      && lim.lag * 1000 <= sampleRate * 500 < (lim.lag + 1) * 1000
  {
  }

  class AudioMixerRingBuffer {
    const mic: SourceState
    const system: SourceState
    const lim: Limits
    var windowPos: nat

    constructor (sampleRate: nat)
      ensures sampleRate >= 20 ==> Valid()
      ensures Now() == MixerRun.Fresh(true, true) && lim == LimitsFor(sampleRate)
      ensures mic != system && fresh(mic) && fresh(system)
    {
      mic := new SourceState();
      system := new SourceState();
      lim := LimitsFor(sampleRate);
      windowPos := 0;
    }

    ghost predicate Valid()
      reads this, mic, system
    {
      lim.Valid() && mic != system && MixerRun.Sound(Now())
    }

    ghost function Now(): MixerRun.Mixer
      reads this, mic, system
    {
      MixerRun.Mixer(mic.Now(), system.Now(), windowPos)
    }

    method SetExpectedSources(micPresent: bool, systemPresent: bool)
      requires Valid()
      modifies mic`expected, system`expected
      ensures Valid()
      ensures var was := old(Now());
        Now() == was.(mic := was.mic.(side := was.mic.side.(expected := micPresent)),
                      system := was.system.(side := was.system.side.(expected := systemPresent)))
    {
      mic.expected := micPresent;
      system.expected := systemPresent;
    }

    method AddSamples(source: Source, samples: seq<Sample>)
      requires Valid()
      modifies mic, system
      ensures Valid()
      ensures Now() == MixerRun.Added(lim, old(Now()), MixerRun.Chunk(source, samples))
    {
      match source {
        case Microphone =>
          mic.Ingest(lim.cap, system.expected, system.seen, system.rawNext, samples, system.Now().side);
          HeardSound(lim.cap, old(mic.Now()), system.Now().side, samples);
        case System =>
          system.Ingest(lim.cap, mic.expected, mic.seen, mic.rawNext, samples, mic.Now().side);
          HeardSound(lim.cap, old(system.Now()), mic.Now().side, samples);
      }
    }

    function SourceFrontier(src: SourceState): nat
      reads this, src
    {
      if !src.expected then windowPos else if !src.seen then 0 else src.rawNext
    }

    /** Can the window at the cursor be cut, and is a source given up on for it? */
    method PlanWindow() returns (plan: Option<Gaps>)
      ensures plan == Plan(lim, MixerRun.ClockOf(Now()))
    {
      if !mic.expected && !system.expected {
        return None;
      }
      var windowEnd := windowPos + lim.window;
      var micFrontier, systemFrontier := SourceFrontier(mic), SourceFrontier(system);
      var micCovered := !mic.expected || micFrontier >= windowEnd;
      var systemCovered := !system.expected || systemFrontier >= windowEnd;
      if micCovered && systemCovered {
        return Some(Gaps(false, false));
      }
      var micGap, systemGap := false, false;
      if !micCovered {
        if Max(0, systemFrontier - windowPos) > lim.lag {
          micGap := true;
        } else {
          return None;
        }
      }
      if !systemCovered {
        if Max(0, micFrontier - windowPos) > lim.lag {
          systemGap := true;
        } else {
          return None;
        }
      }
      return Some(Gaps(micGap, systemGap));
    }

    method ExtractWindow() returns (window: Option<Window>)
      requires Valid()
      modifies this`windowPos, mic, system
      ensures Valid()
      ensures var plan := Plan(lim, MixerRun.ClockOf(old(Now())));
        && (plan.None? ==> window.None? && Now() == old(Now()))
        && (plan.Some? ==>
              && Now() == MixerRun.Extracted(lim, old(Now()), plan.value)
              && window.Some? && |window.value.0| == |window.value.1| == lim.window
              && mic.emitted == old(mic.emitted) + window.value.0
              && system.emitted == old(system.emitted) + window.value.1)
    {
      hide Plan, Taken, Sound, LimitsFor;
      var plan := PlanWindow();
      if plan.None? {
        return None;
      }
      var wp := windowPos;
      var micWindow := mic.TakeWindow(plan.value.mic, wp, lim.window);
      var systemWindow := system.TakeWindow(plan.value.system, wp, lim.window);
      windowPos := windowPos + lim.window;
      TakenSound(old(mic.Now()), plan.value.mic, wp, lim.window);
      TakenSound(old(system.Now()), plan.value.system, wp, lim.window);
      return Some((micWindow, systemWindow));
    }

    /** Cut every window that is resolved. */
    method DrainAll() returns (windows: seq<Window>)
      requires Valid()
      modifies this`windowPos, mic, system
      ensures Valid() && FullWindows(windows, lim.window)
      ensures Now() == MixerRun.Drained(lim, old(Now()))
      ensures mic.emitted == old(mic.emitted) + MicPart(windows)
      ensures system.emitted == old(system.emitted) + SystemPart(windows)
    {
      hide MixerRun.Drained, MixerRun.Extracted, MixerRun.Sound, Plan, Lead, LimitsFor, Taken, Slots;
      windows := [];
      while true
        invariant Valid() && FullWindows(windows, lim.window)
        invariant MixerRun.Drained(lim, old(Now())) == MixerRun.Drained(lim, Now())
        invariant mic.emitted == old(mic.emitted) + MicPart(windows)
        invariant system.emitted == old(system.emitted) + SystemPart(windows)
        decreases Lead(MixerRun.ClockOf(Now()))
      {
        MixerRun.DrainedStep(lim, Now());
        var window := ExtractWindow();
        if window.None? {
          return;
        }
        PartsGrow(windows, window.value);
        windows := windows + [window.value];
      }
    }

    /** Shutdown: cut every window the normal path would, then force out the partial remainder. */
    method FlushFinal() returns (windows: seq<Window>)
      requires Valid()
      modifies this`windowPos, mic, system
      ensures Valid()
      ensures Now() == MixerFlush.Flushed(lim, old(Now()))
      ensures FullWindows(windows, lim.window)
      ensures mic.emitted == old(mic.emitted) + MicPart(windows)
      ensures system.emitted == old(system.emitted) + SystemPart(windows)
    {
      hide MixerRun.Drained, MixerRun.Sound, MixerFlush.Emptied, LimitsFor, MicPart, SystemPart;
      windows := DrainAll();
      if |mic.buffer| > 0 || |system.buffer| > 0 {
        var rest := ForceOut();
        PartsGrow(windows, rest);
        windows := windows + [rest];
      }
    }

    method ForceOut() returns (window: Window)
      modifies this`windowPos, mic, system
      requires Valid()
      ensures Valid()
      ensures |window.0| == |window.1| == lim.window
      ensures var (was, w) := (old(Now()), lim.window);
        Now() == MixerRun.Mixer(MixerFlush.Emptied(was.mic, w), MixerFlush.Emptied(was.system, w), was.pos + w)
      ensures mic.emitted == old(mic.emitted) + window.0 && system.emitted == old(system.emitted) + window.1
    {
      var micWindow := mic.Empty(lim.window);
      var systemWindow := system.Empty(lim.window);
      windowPos := windowPos + lim.window;
      window := (micWindow, systemWindow);
    }
  }

  predicate FullWindows(windows: seq<Window>, w: nat) {
    forall i :: 0 <= i < |windows| ==> |windows[i].0| == |windows[i].1| == w
  }

  function MicPart(windows: seq<Window>): seq<Sample> {
    if windows == [] then [] else windows[0].0 + MicPart(windows[1..])
  }

  function SystemPart(windows: seq<Window>): seq<Sample> {
    if windows == [] then [] else windows[0].1 + SystemPart(windows[1..])
  }

  lemma {:induction false} PartsGrow(windows: seq<Window>, window: Window)
    ensures MicPart(windows + [window]) == MicPart(windows) + window.0
    ensures SystemPart(windows + [window]) == SystemPart(windows) + window.1
  {
    if windows == [] {
      assert [window][1..] == [];
    } else {
      assert (windows + [window])[1..] == windows[1..] + [window];
      PartsGrow(windows[1..], window);
    }
  }
}
