/** What one source's buffer means: the samples it really sent, where they belong on the common
    timeline, and what has been emitted for it. `Accounted` says that no sample is ever misplaced,
    repeated or silently lost; the lemmas show that each buffer operation keeps it. */
module SourceTrack {
  import opened Wrappers
  import opened MixerClock
  import opened Pcm

  /** `side`, `buffer` and `start` are the program's own state (`start` is 0 while nothing is buffered).
      The rest is history: `stream` is all that was received, first sample at position `anchor`;
      `emitted` and `gapped` tell, for every position before the cursor, what went out and whether it
      was given up on; `capLost` are the positions the safety cap dropped. */
  datatype Track = Track(
    side: Side, buffer: seq<Sample>, start: nat,
    stream: seq<Sample>, anchor: nat, emitted: seq<Sample>, gapped: seq<bool>, capLost: set<nat>)

  /** The buffer is the tail of the true stream. */
  ghost predicate Sound(t: Track) {
    && (t.side.seen ==> t.side.next == t.anchor + |t.stream|)
    && (!t.side.seen ==> t.stream == [] && t.buffer == [] && t.side.next == 0)
    && (t.buffer != [] ==>
          && t.side.discard <= t.side.next && t.anchor <= t.start && t.start + |t.buffer| == t.side.next
          && t.buffer == t.stream[t.start - t.anchor..])
  }

  /** The sample that belongs at timeline position p. */
  ghost function Ideal(t: Track, p: nat): Sample
    requires Sound(t)
  {
    if !t.side.seen || p < t.anchor || p >= t.side.next || p in t.capLost || (p < |t.gapped| && t.gapped[p])
    then SILENCE
    else t.stream[p - t.anchor]
  }

  /** Sample accounting with the cursor at pos: all that precedes it was emitted at its own position,
      given up on, or dropped by the cap; all that was received past it is still buffered, or was
      dropped by the cap. */
  ghost predicate Placed(t: Track, pos: nat) {
    && Sound(t)
    && SideInv(t.side, pos)
    && |t.emitted| == |t.gapped| == pos
    && (forall p :: 0 <= p < pos ==> t.emitted[p] == Ideal(t, p))
    && (t.side.seen ==> forall p :: t.side.next <= p < pos ==> t.gapped[p])
    && (t.buffer != [] ==> pos <= t.start)
    && (forall p :: pos <= p < t.side.next && t.anchor <= p && (t.buffer == [] || p < t.start) ==> p in t.capLost)
    && (forall p :: p in t.capLost ==> p < t.side.next && (t.buffer == [] || p < t.start))
  }

  /** Between operations, moreover, a source with nothing buffered is not ahead of the cursor. */
  ghost predicate Accounted(t: Track, pos: nat) {
    Placed(t, pos) && (t.buffer == [] ==> t.side.next <= pos)
  }

  // ----- The buffer operations -----

  /** First arrival: the stream is pinned to the timeline. */
  function Anchored(t: Track, at: nat): Track {
    t.(side := t.side.(seen := true, next := at), anchor := at)
  }

  /** The part of n samples from the stream's next position on that is already discarded. */
  function Late(t: Track, n: nat): nat {
    Min(n, Max(0, t.side.discard - t.side.next))
  }

  /** Samples join the stream; what comes too late for the cursor does not reach the buffer. */
  function Absorbed(t: Track, samples: seq<Sample>): Track {
    var late := Late(t, |samples|);
    t.(side := t.side.(next := t.side.next + |samples|),
       stream := t.stream + samples,
       buffer := t.buffer + samples[late..],
       start := if t.buffer == [] && late < |samples| then t.side.next + late else t.start)
  }

  /** The safety cap drops the n oldest samples. */
  function Capped(t: Track, n: nat): Track
    requires n <= |t.buffer|
  {
    t.(buffer := t.buffer[n..], start := t.start + n, capLost := t.capLost + Span(t.start, n))
  }

  /** At most cap samples stay buffered. */
  function Trimmed(cap: nat, t: Track): Track {
    if |t.buffer| > cap then Capped(t, |t.buffer| - cap) else t
  }

  /** One chunk arrives for a source. */
  function Heard(cap: nat, t: Track, other: Side, samples: seq<Sample>): Track {
    if !t.side.expected || samples == [] then t
    else Trimmed(cap, Absorbed(if t.side.seen then t else Anchored(t, Anchor(t.side, other)), samples))
  }

  /** What the buffer holds for position p, silence if nothing. */
  function Slot(t: Track, p: nat): Sample {
    if t.start <= p < t.start + |t.buffer| then t.buffer[p - t.start] else SILENCE
  }

  /** The window [pos, pos + w) as the buffer fills it. */
  function Slots(t: Track, pos: nat, w: nat): (s: seq<Sample>)
    ensures |s| == w
  {
    seq<Sample>(w, i requires 0 <= i => Slot(t, pos + i))
  }

  lemma SlotsSilent(t: Track, pos: nat, w: nat)
    requires t.buffer == [] || pos + w <= t.start
    ensures Slots(t, pos, w) == Silence(w)
  {
    forall i | 0 <= i < w
      ensures Slots(t, pos, w)[i] == Silence(w)[i]
    {
      assert Slots(t, pos, w)[i] == Slot(t, pos + i);
    }
  }

  /** A covered window is cut out of the buffer. */
  function Cut(t: Track, pos: nat, w: nat): Track {
    var end := pos + w;
    t.(buffer := if t.start >= end then t.buffer
                 else if end < t.start + |t.buffer| then t.buffer[end - t.start..] else [],
       start := if t.start >= end then t.start else if end < t.start + |t.buffer| then end else 0,
       emitted := t.emitted + Slots(t, pos, w), gapped := t.gapped + Flags(w, false))
  }

  /** The cursor gives up on a window: silence goes out and later arrivals for it are discarded. */
  function Skipped(t: Track, pos: nat, w: nat): Track {
    t.(side := Passed(t.side, true, pos + w), buffer := [], start := 0,
       emitted := t.emitted + Silence(w), gapped := t.gapped + Flags(w, true))
  }

  /** One source's part of a window; an absent source is silent. */
  function Taken(t: Track, gap: bool, pos: nat, w: nat): Track {
    if !t.side.expected then t.(emitted := t.emitted + Silence(w), gapped := t.gapped + Flags(w, false))
    else if gap then Skipped(t, pos, w)
    else Cut(t, pos, w)
  }

  // ----- Each keeps the accounting -----

  lemma AnchoredPlaced(t: Track, other: Side, pos: nat)
    requires Placed(t, pos) && t.side.expected && !t.side.seen
    ensures Placed(Anchored(t, Anchor(t.side, other)), pos)
  {
  }

  lemma AbsorbedSound(t: Track, samples: seq<Sample>)
    requires Sound(t) && t.side.seen && samples != []
    ensures Sound(Absorbed(t, samples))
  {
  }

  lemma AbsorbedAccounted(t: Track, samples: seq<Sample>, pos: nat)
    requires Placed(t, pos) && t.side.expected && t.side.seen && samples != []
    ensures Accounted(Absorbed(t, samples), pos)
  {
    AbsorbedSound(t, samples);
    var u := Absorbed(t, samples);
    forall p | 0 <= p < pos
      ensures u.emitted[p] == Ideal(u, p)
    {
      assert t.emitted[p] == Ideal(t, p);
    }
  }

  lemma CappedAccounted(t: Track, n: nat, pos: nat)
    requires Accounted(t, pos) && n < |t.buffer|
    ensures Accounted(Capped(t, n), pos)
  {
    var u := Capped(t, n);
    assert u.buffer == u.stream[u.start - u.anchor..];
    forall p | 0 <= p < pos
      ensures u.emitted[p] == Ideal(u, p)
    {
      assert t.emitted[p] == Ideal(t, p);
    }
  }

  lemma TrimmedAccounted(cap: nat, t: Track, pos: nat)
    requires Accounted(t, pos) && cap > 0
    ensures Accounted(Trimmed(cap, t), pos)
  {
    hide Accounted, Capped;
    if |t.buffer| > cap {
      CappedAccounted(t, |t.buffer| - cap, pos);
    }
  }

  lemma HeardAccounted(cap: nat, t: Track, other: Side, samples: seq<Sample>, pos: nat)
    requires Accounted(t, pos) && cap > 0
    ensures Accounted(Heard(cap, t, other, samples), pos)
  {
    if t.side.expected && samples != [] {
      if !t.side.seen {
        AnchoredPlaced(t, other, pos);
      }
      var b := if t.side.seen then t else Anchored(t, Anchor(t.side, other));
      AbsorbedAccounted(b, samples, pos);
      TrimmedAccounted(cap, Absorbed(b, samples), pos);
    }
  }

  /** The cap keeps the newest samples, as many as fit, and drops nothing while all do. */
  lemma TrimmedKeepsNewest(cap: nat, t: Track)
    ensures var u := Trimmed(cap, t);
      && u.buffer == (if |t.buffer| <= cap then t.buffer else t.buffer[|t.buffer| - cap..])
      && (forall p :: p in u.capLost <==> p in t.capLost || t.start <= p < t.start + |t.buffer| - |u.buffer|)
  {
  }

  /** No buffer outgrows the cap. */
  lemma HeardWithinCap(cap: nat, t: Track, other: Side, samples: seq<Sample>)
    requires |t.buffer| <= cap
    ensures |Heard(cap, t, other, samples).buffer| <= cap
  {
  }

  lemma TrimmedSound(cap: nat, t: Track)
    requires Sound(t) && cap > 0
    ensures Sound(Trimmed(cap, t))
  {
    if |t.buffer| > cap {
      var u := Trimmed(cap, t);
      assert u.buffer == u.stream[u.start - u.anchor..];
    }
  }

  lemma HeardSound(cap: nat, t: Track, other: Side, samples: seq<Sample>)
    requires Sound(t) && cap > 0
    ensures Sound(Heard(cap, t, other, samples))
  {
    if t.side.expected && samples != [] {
      var b := if t.side.seen then t else Anchored(t, Anchor(t.side, other));
      AbsorbedSound(b, samples);
      hide Absorbed;
      TrimmedSound(cap, Absorbed(b, samples));
    }
  }

  lemma HeardSide(cap: nat, t: Track, other: Side, samples: seq<Sample>)
    ensures Heard(cap, t, other, samples).side == Advanced(t.side, other, |samples|)
  {
  }

  lemma SlotIsIdeal(t: Track, pos: nat, w: nat, p: nat)
    requires Accounted(t, pos) && (t.side.expected ==> t.side.seen && pos + w <= t.side.next)
    requires pos <= p < pos + w
    ensures Slot(t, p) == Ideal(t, p)
  {
    if t.side.expected && t.buffer != [] && t.start <= p {
      assert t.buffer[p - t.start] == t.stream[t.start - t.anchor..][p - t.start];
    }
  }

  lemma TakenSound(t: Track, gap: bool, pos: nat, w: nat)
    requires Sound(t)
    ensures Sound(Taken(t, gap, pos, w))
  {
  }

  /** A cut changes nothing about what belongs where. */
  lemma CutIdeal(t: Track, pos: nat, w: nat, p: nat)
    requires Sound(t) && t.side.expected
    ensures Sound(Cut(t, pos, w)) && Ideal(Cut(t, pos, w), p) == Ideal(t, p)
  {
    TakenSound(t, false, pos, w);
    hide Sound, Slots;
  }

  lemma CutEmitted(t: Track, pos: nat, w: nat, p: nat)
    requires |t.emitted| == pos
    ensures |Cut(t, pos, w).emitted| == pos + w
    ensures p < pos + w ==> Cut(t, pos, w).emitted[p] == if p < pos then t.emitted[p] else Slot(t, p)
  {
    hide Slot;
    assert Cut(t, pos, w).emitted == t.emitted + Slots(t, pos, w);
  }

  lemma CutEmits(t: Track, pos: nat, w: nat)
    requires Accounted(t, pos) && t.side.expected && t.side.seen && pos + w <= t.side.next
    ensures var u := Cut(t, pos, w);
      Sound(u) && |u.emitted| == pos + w && forall p :: 0 <= p < pos + w ==> u.emitted[p] == Ideal(u, p)
  {
    CutIdeal(t, pos, w, 0);
    hide Cut, Sound, Ideal, Slot, SideInv;
    CutEmitted(t, pos, w, 0);
    forall p | 0 <= p < pos + w
      ensures Cut(t, pos, w).emitted[p] == Ideal(Cut(t, pos, w), p)
    {
      CutIdeal(t, pos, w, p);
      CutEmitted(t, pos, w, p);
      if p >= pos {
        SlotIsIdeal(t, pos, w, p);
      }
    }
  }

  lemma CutAccounted(t: Track, pos: nat, w: nat)
    requires Accounted(t, pos) && t.side.expected && t.side.seen && pos + w <= t.side.next
    ensures Accounted(Cut(t, pos, w), pos + w)
  {
    CutEmits(t, pos, w);
    hide Ideal, Slots, Slot, Sound;
  }

  lemma SkippedAccounted(t: Track, pos: nat, w: nat)
    requires Accounted(t, pos) && t.side.expected && t.side.next < pos + w
    ensures Accounted(Skipped(t, pos, w), pos + w)
  {
    var u := Skipped(t, pos, w);
    forall p | 0 <= p < pos + w
      ensures u.emitted[p] == Ideal(u, p)
    {
      if p < pos {
        assert t.emitted[p] == Ideal(t, p);
      }
    }
  }

  lemma TakenAccounted(t: Track, gap: bool, pos: nat, w: nat)
    requires Accounted(t, pos) && w > 0
    requires t.side.expected ==> gap == (t.side.next < pos + w)
    ensures Accounted(Taken(t, gap, pos, w), pos + w)
  {
    if !t.side.expected {
      var u := Taken(t, gap, pos, w);
      forall p | 0 <= p < pos + w
        ensures u.emitted[p] == Ideal(u, p)
      {
        if p < pos {
          assert t.emitted[p] == Ideal(t, p);
        }
      }
    } else if gap {
      SkippedAccounted(t, pos, w);
    } else {
      CutAccounted(t, pos, w);
    }
  }
}
