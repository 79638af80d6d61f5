/** Splitting a long speech segment at the quietest point near each target length. Samples and times are
    reals; a window's loudness is compared by its mean square, whose order is the order of its RMS. */
module SilenceSplit {
  import opened Wrappers
  import opened Pcm

  const SAMPLE_RATE := 16000
  const ENERGY_WINDOW := SAMPLE_RATE / 10
  const SEARCH_RADIUS := SAMPLE_RATE * 3
  const FALLBACK_OVERLAP := SAMPLE_RATE
  const STEP := SAMPLE_RATE / 100
  /** The square of the RMS threshold 0.02. */
  const SILENCE_ENERGY: real := 0.0004

  datatype Speech = Speech(samples: seq<real>, startMs: real, endMs: real, confidence: real, source: int)

  function SumOfSquares(window: seq<real>): real {
    if window == [] then 0.0 else window[0] * window[0] + SumOfSquares(window[1..])
  }

  function Energy(s: seq<real>, at: nat): real
    requires at + ENERGY_WINDOW <= |s|
  {
    SumOfSquares(s[at..at + ENERGY_WINDOW]) / ENERGY_WINDOW as real
  }

  // ----- Loudness, in terms of the samples -----

  predicate Within(s: seq<real>, from: nat, to: nat, size: real) {
    forall i :: from <= i < to && i < |s| ==> -size <= s[i] <= size
  }

  lemma ProductSign(d: real, c: real)
    requires d >= 0.0 && c >= 0.0
    ensures d * c >= 0.0 && (d > 0.0 && c > 0.0 ==> d * c > 0.0)
  {
  }

  lemma ScaleOrder(a: real, b: real, c: real) returns (x: real, y: real)
    requires c >= 0.0 && a <= b
    ensures x == a * c && y == b * c && x <= y && (a < b && c > 0.0 ==> x < y)
  {
    x, y := a * c, b * c;
    ProductSign(b - a, c);
    assert y == x + (b - a) * c;
  }

  lemma SquareLess(a: real, b: real)
    requires 0.0 <= a < b
    ensures a * a < b * b
  {
    var p, q := ScaleOrder(a, b, b);
    var u, v := ScaleOrder(a, b, a);
  }

  lemma SquareOrder(a: real, b: real)
    requires a >= 0.0 && b >= 0.0
    ensures a * a >= 0.0 && (a <= b <==> a * a <= b * b)
  {
    var p, q := ScaleOrder(0.0, a, a);
    if a < b {
      SquareLess(a, b);
    } else if b < a {
      SquareLess(b, a);
    }
  }

  lemma SquareUpTo(x: real, size: real)
    requires size >= 0.0
    ensures x * x >= 0.0 && (-size <= x <= size <==> x * x <= size * size)
  {
    var m := if x >= 0.0 then x else -x;
    SquareOrder(m, size);
    assert m * m == x * x;
  }

  lemma {:induction false} SumAtLeast(w: seq<real>, i: nat)
    requires i < |w|
    ensures SumOfSquares(w) >= w[i] * w[i]
  {
    SquareUpTo(w[0], 0.0);
    if i > 0 {
      SumAtLeast(w[1..], i - 1);
    } else {
      SumNotNegative(w[1..]);
    }
  }

  lemma {:induction false} SumNotNegative(w: seq<real>)
    ensures SumOfSquares(w) >= 0.0
  {
    if w != [] {
      SquareUpTo(w[0], 0.0);
      SumNotNegative(w[1..]);
    }
  }

  lemma {:induction false} SumAtMost(w: seq<real>, size: real)
    requires size >= 0.0 && Within(w, 0, |w|, size)
    ensures SumOfSquares(w) <= |w| as real * (size * size)
  {
    if w != [] {
      SquareUpTo(w[0], size);
      SumAtMost(w[1..], size);
      assert |w| as real * (size * size) == (size * size) + |w[1..]| as real * (size * size);
    }
  }

  /** A window in which every sample is no louder than the other's is no louder. */
  lemma {:induction false} LouderSamples(v: seq<real>, w: seq<real>)
    requires |v| == |w| && forall i :: 0 <= i < |v| ==> -w[i] <= v[i] <= w[i] || w[i] <= v[i] <= -w[i]
    ensures SumOfSquares(v) <= SumOfSquares(w)
  {
    if v != [] {
      SquareUpTo(v[0], if w[0] >= 0.0 then w[0] else -w[0]);
      LouderSamples(v[1..], w[1..]);
    }
  }

  /** A window is silent if no sample exceeds 0.02, and only if none exceeds 0.8. */
  lemma SilentWindow(s: seq<real>, at: nat)
    requires at + 1600 <= |s|
    ensures Within(s, at, at + 1600, 0.02) ==> Energy(s, at) <= SILENCE_ENERGY
    ensures Energy(s, at) <= SILENCE_ENERGY ==> Within(s, at, at + 1600, 0.8)
  {
    var w := s[at..at + 1600];
    if Within(s, at, at + 1600, 0.02) {
      SumAtMost(w, 0.02);
    }
    if Energy(s, at) <= SILENCE_ENERGY {
      forall i | at <= i < at + 1600
        ensures -0.8 <= s[i] <= 0.8
      {
        SumAtLeast(w, i - at);
        assert w[i - at] == s[i];
        SquareUpTo(s[i], 0.8);
      }
    }
  }

  // ----- The search near one target -----

  /** Where the search for a cut of the piece that begins at pos starts, and what its windows may not pass. */
  function SearchStart(max: nat, pos: nat): nat {
    Max(Max(0, pos + max - SEARCH_RADIUS), pos + SAMPLE_RATE)
  }

  function SearchEnd(total: nat, max: nat, pos: nat): (hi: nat)
    ensures hi <= total
  {
    Min(pos + max + SEARCH_RADIUS, Max(0, total - ENERGY_WINDOW))
  }

  /** Where candidate window j begins, one every 10 ms. */
  function WindowStart(lo: nat, j: nat): nat {
    lo + STEP * j
  }

  predicate Candidate(lo: nat, hi: nat, j: nat) {
    WindowStart(lo, j) + ENERGY_WINDOW <= hi
  }

  function Loudness(s: seq<real>, lo: nat, hi: nat, j: nat): real
    requires hi <= |s| && Candidate(lo, hi, j)
  {
    Energy(s, WindowStart(lo, j))
  }

  /** Window j is the quietest of the first n candidates, and the first of those. */
  ghost predicate QuietestOf(s: seq<real>, lo: nat, hi: nat, n: nat, j: nat)
    requires hi <= |s|
  {
    && j < n && Candidate(lo, hi, j)
    && forall k: nat :: k < n && Candidate(lo, hi, k) ==>
      if k < j then Loudness(s, lo, hi, j) < Loudness(s, lo, hi, k)
      else Loudness(s, lo, hi, j) <= Loudness(s, lo, hi, k)
  }

  /** Window j is the first of the quietest candidates. */
  ghost predicate Quietest(s: seq<real>, lo: nat, hi: nat, j: nat)
    requires hi <= |s|
  {
    Candidate(lo, hi, j) && QuietestOf(s, lo, hi, hi, j)
  }

  lemma QuietestStep(s: seq<real>, lo: nat, hi: nat, n: nat, j: nat)
    requires hi <= |s| && Candidate(lo, hi, n)
    ensures n == 0 ==> QuietestOf(s, lo, hi, 1, 0)
    ensures QuietestOf(s, lo, hi, n, j) ==>
      QuietestOf(s, lo, hi, n + 1, if Loudness(s, lo, hi, n) < Loudness(s, lo, hi, j) then n else j)
  {
    hide Loudness;
    hide Candidate;
  }

  method QuietestWindow(s: seq<real>, lo: nat, hi: nat) returns (best: Option<nat>)
    requires hi <= |s|
    ensures best.None? <==> hi < lo + ENERGY_WINDOW
    ensures best.Some? ==> exists j: nat :: Quietest(s, lo, hi, j) && best.value == WindowStart(lo, j)
  {
    hide Energy, QuietestOf;
    best := None;
    var idx := lo;
    ghost var n, j := 0, 0;
    while idx + ENERGY_WINDOW <= hi
      invariant idx == WindowStart(lo, n)
      invariant best.None? <==> n == 0
      invariant best.Some? ==> Candidate(lo, hi, j) && best.value == WindowStart(lo, j) && QuietestOf(s, lo, hi, n, j)
    {
      QuietestStep(s, lo, hi, n, j);
      if best.None? || Energy(s, idx) < Energy(s, best.value) {
        best := Some(idx);
        j := n;
      }
      idx := idx + STEP;
      n := n + 1;
    }
    if best.Some? {
      AllSeen(s, lo, hi, n, j);
    }
  }

  lemma AllSeen(s: seq<real>, lo: nat, hi: nat, n: nat, j: nat)
    requires hi <= |s| && !Candidate(lo, hi, n) && QuietestOf(s, lo, hi, n, j)
    ensures Quietest(s, lo, hi, j)
  {
    hide Energy;
  }

  lemma QuietestIsQuietest(s: seq<real>, lo: nat, hi: nat, j: nat, k: nat)
    requires hi <= |s| && Quietest(s, lo, hi, j) && Candidate(lo, hi, k)
    ensures Candidate(lo, hi, j) && Loudness(s, lo, hi, j) <= Loudness(s, lo, hi, k)
  {
    hide Loudness, Candidate;
    CandidateIndex(lo, hi, k);
  }

  /** Of several quietest windows it is the first. */
  lemma QuietestIsFirst(s: seq<real>, lo: nat, hi: nat, j: nat, k: nat)
    requires hi <= |s| && Quietest(s, lo, hi, j) && Candidate(lo, hi, k)
    requires Loudness(s, lo, hi, k) <= Loudness(s, lo, hi, j)
    ensures j <= k
  {
    hide Loudness, Candidate;
    CandidateIndex(lo, hi, k);
  }

  lemma CandidateIndex(lo: nat, hi: nat, k: nat)
    requires Candidate(lo, hi, k)
    ensures k < hi
  {
  }

  // ----- One cut -----

  /** Where the piece that begins at pos ends. */
  ghost predicate CutRule(s: seq<real>, max: nat, pos: nat, end: nat) {
    if |s| - pos <= max then end == |s|
    else CutWithin(s, SearchStart(max, pos), SearchEnd(|s|, max, pos), pos + max, end)
  }

  /** The cut by the candidate windows of lo..hi, or a second past the target when there is none. */
  ghost predicate CutWithin(s: seq<real>, lo: nat, hi: nat, target: nat, end: nat)
    requires hi <= |s|
  {
    if hi < lo + ENERGY_WINDOW then end == Min(target + FALLBACK_OVERLAP, |s|)
    else exists j: nat :: Quietest(s, lo, hi, j) && end == CutNear(s, WindowStart(lo, j))
  }

  /** The middle of a silent window, else a second past the middle of the quietest one. */
  function CutNear(s: seq<real>, idx: nat): nat
    requires idx + ENERGY_WINDOW <= |s|
  {
    var middle := idx + ENERGY_WINDOW / 2;
    if Energy(s, idx) > SILENCE_ENERGY then Min(middle + FALLBACK_OVERLAP, |s|) else middle
  }

  /** A cut always moves on, by a second at least, and stays near the target length. */
  lemma CutReach(s: seq<real>, max: nat, pos: nat, end: nat)
    requires pos < |s| && CutRule(s, max, pos, end)
    ensures pos < end <= |s| && end - pos <= max + SEARCH_RADIUS + FALLBACK_OVERLAP - ENERGY_WINDOW / 2
    ensures end < |s| ==> end - pos >= Max(SAMPLE_RATE, max - SEARCH_RADIUS + ENERGY_WINDOW / 2)
  {
    hide CutNear, Quietest;
    if |s| - pos > max && SearchStart(max, pos) + ENERGY_WINDOW <= SearchEnd(|s|, max, pos) {
      var idx := CutWindowStart(s, SearchStart(max, pos), SearchEnd(|s|, max, pos), pos + max, end);
      CutNearMiddle(s, idx);
    }
  }

  lemma CutWindowStart(s: seq<real>, lo: nat, hi: nat, target: nat, end: nat) returns (idx: nat)
    requires lo + ENERGY_WINDOW <= hi <= |s| && CutWithin(s, lo, hi, target, end)
    ensures lo <= idx && idx + ENERGY_WINDOW <= hi && end == CutNear(s, idx)
  {
    hide QuietestOf, CutNear;
    var j: nat :| Quietest(s, lo, hi, j) && end == CutNear(s, WindowStart(lo, j));
    idx := WindowStart(lo, j);
  }

  lemma CutNearMiddle(s: seq<real>, idx: nat)
    requires idx + ENERGY_WINDOW <= |s|
    ensures var middle := idx + ENERGY_WINDOW / 2;
      middle <= CutNear(s, idx) <= Min(middle + FALLBACK_OVERLAP, |s|)
  {
    hide Energy;
  }

  /** When a window in reach is silent, the cut falls in the middle of a silent window. */
  lemma CutsInSilence(s: seq<real>, lo: nat, hi: nat, target: nat, end: nat, quiet: nat)
    requires hi <= |s| && CutWithin(s, lo, hi, target, end)
    requires Candidate(lo, hi, quiet) && Loudness(s, lo, hi, quiet) <= SILENCE_ENERGY
    ensures ENERGY_WINDOW / 2 <= end && end + ENERGY_WINDOW / 2 <= |s|
    ensures Energy(s, end - ENERGY_WINDOW / 2) <= SILENCE_ENERGY
  {
    hide Energy, QuietestOf, CutNear;
    var j: nat :| Quietest(s, lo, hi, j) && end == CutNear(s, WindowStart(lo, j));
    QuietestIsQuietest(s, lo, hi, j, quiet);
    CutInSilence(s, WindowStart(lo, j));
  }

  lemma CutInSilence(s: seq<real>, idx: nat)
    requires idx + ENERGY_WINDOW <= |s|
    ensures Energy(s, idx) <= SILENCE_ENERGY ==> CutNear(s, idx) == idx + ENERGY_WINDOW / 2
  {
    hide Energy;
  }

  /** When no window in reach is silent, the cut is a second past the middle of the quietest one, or past
      the target when there is none. */
  lemma CutsLater(s: seq<real>, max: nat, pos: nat, end: nat)
    requires |s| > pos + max && CutRule(s, max, pos, end)
    requires var (lo, hi) := (SearchStart(max, pos), SearchEnd(|s|, max, pos));
      forall k: nat :: Candidate(lo, hi, k) ==> Loudness(s, lo, hi, k) > SILENCE_ENERGY
    ensures var (lo, hi) := (SearchStart(max, pos), SearchEnd(|s|, max, pos));
      if hi < lo + 1600 then end == Min(pos + max + 16000, |s|)
      else exists j: nat :: Quietest(s, lo, hi, j) && end == Min(WindowStart(lo, j) + 800 + 16000, |s|)
  {
    hide Energy, QuietestOf, SearchStart, SearchEnd, WindowStart;
    var (lo, hi) := (SearchStart(max, pos), SearchEnd(|s|, max, pos));
    if hi >= lo + ENERGY_WINDOW {
      var j: nat :| Quietest(s, lo, hi, j) && end == CutNear(s, WindowStart(lo, j));
      assert Loudness(s, lo, hi, j) > SILENCE_ENERGY;
    }
  }

  lemma StretchHasCandidate(total: nat, max: nat, pos: nat, a: nat) returns (j: nat)
    requires pos + 16000 <= a && pos + max <= a + 48000 && a + 1759 <= pos + max + 48000 && a + 3359 <= total
    ensures var lo := SearchStart(max, pos);
      a <= WindowStart(lo, j) < a + 160 && Candidate(lo, SearchEnd(total, max, pos), j)
  {
    j := (a - SearchStart(max, pos) + 159) / 160;
  }

  /** In samples and seconds alone: if within three seconds of the target, but at least one second on,
      there are 110 ms in which no sample exceeds 0.02, the cut falls in the middle of 100 ms in which
      none exceeds 0.8 and whose mean square is at most that of 0.02. */
  lemma QuietStretchIsCut(s: seq<real>, max: nat, pos: nat, end: nat, a: nat)
    requires |s| > pos + max && CutRule(s, max, pos, end)
    requires pos + 16000 <= a && pos + max <= a + 48000 && a + 1759 <= pos + max + 48000 && a + 3359 <= |s|
    requires Within(s, a, a + 1759, 0.02)
    ensures 800 <= end && end + 800 <= |s| && Within(s, end - 800, end + 800, 0.8)
    ensures SumOfSquares(s[end - 800..end + 800]) / 1600.0 <= 0.02 * 0.02
  {
    var j := StretchHasCandidate(|s|, max, pos, a);
    CutsAt(s, max, pos, end);
    hide *;
    var (lo, hi) := (SearchStart(max, pos), SearchEnd(|s|, max, pos));
    WithinPart(s, a, a + 1759, WindowStart(lo, j), WindowStart(lo, j) + 1600, 0.02);
    CandidateFits(s, lo, hi, j);
    CutsInSilence(s, lo, hi, pos + max, end, j);
    CutWindow(s, end);
  }

  lemma CutsAt(s: seq<real>, max: nat, pos: nat, end: nat)
    requires |s| > pos + max && CutRule(s, max, pos, end)
    ensures CutWithin(s, SearchStart(max, pos), SearchEnd(|s|, max, pos), pos + max, end)
  {
    hide CutWithin;
  }

  lemma WithinPart(s: seq<real>, from: nat, to: nat, a: nat, b: nat, size: real)
    requires Within(s, from, to, size) && from <= a <= b <= to
    ensures Within(s, a, b, size)
  {
  }

  lemma CandidateFits(s: seq<real>, lo: nat, hi: nat, j: nat)
    requires hi <= |s| && Candidate(lo, hi, j)
    ensures WindowStart(lo, j) + 1600 <= |s|
    ensures Within(s, WindowStart(lo, j), WindowStart(lo, j) + 1600, 0.02) ==> Loudness(s, lo, hi, j) <= SILENCE_ENERGY
  {
    SilentWindow(s, WindowStart(lo, j));
    hide Energy, Within;
  }

  lemma CutWindow(s: seq<real>, end: nat)
    requires ENERGY_WINDOW / 2 <= end && end + ENERGY_WINDOW / 2 <= |s|
    requires Energy(s, end - ENERGY_WINDOW / 2) <= SILENCE_ENERGY
    ensures 800 <= end && end + 800 <= |s| && Within(s, end - 800, end + 800, 0.8)
    ensures SumOfSquares(s[end - 800..end + 800]) / 1600.0 <= 0.02 * 0.02
  {
    SilentWindow(s, end - 800);
    hide SumOfSquares, Within;
  }

  lemma CutUnique(s: seq<real>, max: nat, pos: nat, a: nat, b: nat)
    requires CutRule(s, max, pos, a) && CutRule(s, max, pos, b)
    ensures a == b
  {
    var (lo, hi) := (SearchStart(max, pos), SearchEnd(|s|, max, pos));
    if |s| - pos > max && hi >= lo + ENERGY_WINDOW {
      CutWithinUnique(s, lo, hi, pos + max, a, b);
    }
  }

  lemma CutWithinUnique(s: seq<real>, lo: nat, hi: nat, target: nat, a: nat, b: nat)
    requires hi <= |s| && lo + ENERGY_WINDOW <= hi && CutWithin(s, lo, hi, target, a) && CutWithin(s, lo, hi, target, b)
    ensures a == b
  {
    hide Energy;
    var i: nat :| Quietest(s, lo, hi, i) && a == CutNear(s, WindowStart(lo, i));
    var j: nat :| Quietest(s, lo, hi, j) && b == CutNear(s, WindowStart(lo, j));
    assert Loudness(s, lo, hi, i) == Loudness(s, lo, hi, j);
  }

  // ----- The pieces -----

  function MsPerSample(segment: Speech): real
    requires segment.samples != []
  {
    (segment.endMs - segment.startMs) / |segment.samples| as real
  }

  /** The time at which sample p begins. */
  function TimeOf(segment: Speech, p: nat): real
    requires segment.samples != []
  {
    segment.startMs + p as real * MsPerSample(segment)
  }

  function Piece(segment: Speech, from: nat, to: nat): Speech
    requires segment.samples != [] && from <= to <= |segment.samples|
  {
    Speech(segment.samples[from..to], TimeOf(segment, from), TimeOf(segment, to), segment.confidence, segment.source)
  }

  /** pieces are the cuts of the segment from pos on. */
  ghost predicate Split(segment: Speech, max: nat, pos: nat, pieces: seq<Speech>)
    decreases |pieces|
  {
    if pos >= |segment.samples| then pieces == []
    else
      && pieces != []
      && var end := pos + |pieces[0].samples|;
      && CutRule(segment.samples, max, pos, end)
      && end <= |segment.samples|
      && pieces[0] == Piece(segment, pos, end)
      && Split(segment, max, end, pieces[1..])
  }

  lemma TimeOfEnd(segment: Speech)
    requires segment.samples != []
    ensures TimeOf(segment, 0) == segment.startMs && TimeOf(segment, |segment.samples|) == segment.endMs
  {
    var (n, d) := (|segment.samples| as real, segment.endMs - segment.startMs);
    assert n * (d / n) == d;
  }

  /** A piece lasts in proportion to its samples. */
  lemma PieceLasts(segment: Speech, from: nat, to: nat)
    requires from <= to <= |segment.samples| && segment.samples != []
    ensures var (p, n) := (Piece(segment, from, to), |segment.samples| as real);
      n * (p.endMs - p.startMs) == |p.samples| as real * (segment.endMs - segment.startMs)
  {
    var (n, d) := (|segment.samples| as real, segment.endMs - segment.startMs);
    var (a, b, u) := (from as real, to as real, d / n);
    assert n * u == d;
    assert n * (b * u - a * u) == (b - a) * (n * u);
    assert (to - from) as real == b - a;
  }

  /** Splits a long segment; a short one stays whole. */
  method SplitSegmentAtSilence(segment: Speech, maxSamples: nat) returns (result: seq<Speech>)
    ensures |segment.samples| <= maxSamples ==> result == [segment]
    ensures |segment.samples| > maxSamples ==> Split(segment, maxSamples, 0, result)
  {
    var total := |segment.samples|;
    if total <= maxSamples {
      return [segment];
    }
    result := [];
    var pos := 0;
    hide CutRule, Split, Continues, MsPerSample, TimeOf;
    ContinuesFromStart(segment, maxSamples);
    while pos < total
      invariant pos <= total
      invariant Continues(segment, maxSamples, result, pos)
      decreases total - pos
    {
      var chunk, chunkEnd := NextPiece(segment, maxSamples, pos);
      ContinueWith(segment, maxSamples, result, pos, chunkEnd);
      result := result + [chunk];
      pos := chunkEnd;
    }
    SplitDone(segment, maxSamples, result);
  }

  method NextPiece(segment: Speech, maxSamples: nat, pos: nat) returns (chunk: Speech, chunkEnd: nat)
    requires pos < |segment.samples|
    ensures pos < chunkEnd <= |segment.samples| && CutRule(segment.samples, maxSamples, pos, chunkEnd)
    ensures chunk == Piece(segment, pos, chunkEnd)
  {
    RestIsCut(segment.samples, maxSamples, pos);
    TimeOfEnd(segment);
    hide CutRule;
    hide TimeOf;
    var total := |segment.samples|;
    var chunkEndMs;
    if total - pos <= maxSamples {
      chunkEnd, chunkEndMs := total, segment.endMs;
    } else {
      chunkEnd := CutFrom(segment.samples, maxSamples, pos);
      chunkEndMs := TimeOf(segment, chunkEnd);
    }
    CutReach(segment.samples, maxSamples, pos, chunkEnd);
    chunk := Speech(segment.samples[pos..chunkEnd], TimeOf(segment, pos), chunkEndMs,
                    segment.confidence, segment.source);
  }

  lemma RestIsCut(s: seq<real>, max: nat, pos: nat)
    ensures |s| - pos <= max ==> CutRule(s, max, pos, |s|)
  {
  }

  /** Whatever completes the split from pos on completes `done` to the whole split. */
  ghost predicate Continues(segment: Speech, max: nat, done: seq<Speech>, pos: nat) {
    forall rest :: Split(segment, max, pos, rest) ==> Split(segment, max, 0, done + rest)
  }

  lemma ContinuesFromStart(segment: Speech, max: nat)
    ensures Continues(segment, max, [], 0)
  {
    assert forall rest: seq<Speech> :: [] + rest == rest;
  }

  lemma ContinueWith(segment: Speech, max: nat, done: seq<Speech>, pos: nat, end: nat)
    requires pos < end <= |segment.samples| && CutRule(segment.samples, max, pos, end)
    requires Continues(segment, max, done, pos)
    ensures Continues(segment, max, done + [Piece(segment, pos, end)], end)
  {
    hide CutRule;
    var chunk := Piece(segment, pos, end);
    forall rest | Split(segment, max, end, rest)
      ensures Split(segment, max, 0, (done + [chunk]) + rest)
    {
      assert ([chunk] + rest)[1..] == rest;
      assert Split(segment, max, pos, [chunk] + rest);
      assert (done + [chunk]) + rest == done + ([chunk] + rest);
    }
  }

  lemma SplitDone(segment: Speech, max: nat, done: seq<Speech>)
    requires Continues(segment, max, done, |segment.samples|)
    ensures Split(segment, max, 0, done)
  {
    hide CutRule;
    assert Split(segment, max, |segment.samples|, []);
    assert done + [] == done;
  }

  /** The end of a piece that is not the rest of the segment. */
  method CutFrom(s: seq<real>, max: nat, pos: nat) returns (chunkEnd: nat)
    requires pos + max < |s|
    ensures CutRule(s, max, pos, chunkEnd)
  {
    var target := pos + max;
    var searchStart := Max(Max(0, target - SEARCH_RADIUS), pos + SAMPLE_RATE);
    var searchEnd := Min(target + SEARCH_RADIUS, Max(0, |s| - ENERGY_WINDOW));
    var best := QuietestWindow(s, searchStart, searchEnd);
    var splitAt := if best.Some? then best.value + ENERGY_WINDOW / 2 else Min(target, |s|);
    hide Energy;
    if best.None? || Energy(s, best.value) > SILENCE_ENERGY {
      chunkEnd := Min(splitAt + FALLBACK_OVERLAP, |s|);
    } else {
      chunkEnd := splitAt;
    }
    assert best.Some? ==> chunkEnd == CutNear(s, best.value);
  }

  // ----- What a split is -----

  function SamplesOf(pieces: seq<Speech>): seq<seq<real>> {
    if pieces == [] then [] else [pieces[0].samples] + SamplesOf(pieces[1..])
  }

  /** The pieces put back together are the segment: nothing is lost, repeated or reordered. */
  lemma {:induction false} SplitIsPartition(segment: Speech, max: nat, pos: nat, pieces: seq<Speech>)
    requires pos <= |segment.samples| && Split(segment, max, pos, pieces)
    ensures Flat(SamplesOf(pieces)) == segment.samples[pos..]
    decreases |pieces|
  {
    hide CutRule;
    if pieces != [] {
      var end := pos + |pieces[0].samples|;
      SplitIsPartition(segment, max, end, pieces[1..]);
      assert segment.samples[pos..] == segment.samples[pos..end] + segment.samples[end..];
    }
  }

  /** Each piece starts when the one before it ends, and the last ends with the segment. */
  lemma {:induction false} SplitIsContiguous(segment: Speech, max: nat, pos: nat, pieces: seq<Speech>)
    requires pos < |segment.samples| && Split(segment, max, pos, pieces)
    ensures pieces[0].startMs == TimeOf(segment, pos) && pieces[|pieces| - 1].endMs == segment.endMs
    ensures forall i :: 0 <= i < |pieces| - 1 ==> pieces[i].endMs == pieces[i + 1].startMs
    decreases |pieces|
  {
    hide CutRule;
    var end := pos + |pieces[0].samples|;
    TimeOfEnd(segment);
    if end < |segment.samples| {
      SplitIsContiguous(segment, max, end, pieces[1..]);
      assert forall i :: 1 <= i < |pieces| - 1 ==> pieces[i].endMs == pieces[1..][i - 1].endMs;
    }
  }

  /** No piece is longer than the target by more than the search radius and the fallback, and only the
      last may be short. */
  lemma {:induction false} SplitBounds(segment: Speech, max: nat, pos: nat, pieces: seq<Speech>)
    requires pos <= |segment.samples| && Split(segment, max, pos, pieces)
    ensures forall i :: 0 <= i < |pieces| ==>
      0 < |pieces[i].samples| <= max + SEARCH_RADIUS + FALLBACK_OVERLAP - ENERGY_WINDOW / 2
    ensures forall i :: 0 <= i < |pieces| - 1 ==>
      |pieces[i].samples| >= Max(SAMPLE_RATE, max - SEARCH_RADIUS + ENERGY_WINDOW / 2)
    decreases |pieces|
  {
    if pieces != [] {
      var end := pos + |pieces[0].samples|;
      CutReach(segment.samples, max, pos, end);
      hide CutRule;
      SplitBounds(segment, max, end, pieces[1..]);
      assert forall i :: 1 <= i < |pieces| ==> pieces[i] == pieces[1..][i - 1];
      assert |pieces| > 1 ==> end < |segment.samples|;
    }
  }

  lemma SameHeadAndTail<T>(a: seq<T>, b: seq<T>)
    requires a != [] && b != [] && a[0] == b[0] && a[1..] == b[1..]
    ensures a == b
  {
    assert a == [a[0]] + a[1..] && b == [b[0]] + b[1..];
  }

  /** The rule decides the whole split. */
  lemma {:induction false} SplitUnique(segment: Speech, max: nat, pos: nat, a: seq<Speech>, b: seq<Speech>)
    requires Split(segment, max, pos, a) && Split(segment, max, pos, b)
    ensures a == b
    decreases |a|
  {
    hide *;
    if pos >= |segment.samples| {
      SplitHead(segment, max, pos, a);
      SplitHead(segment, max, pos, b);
    } else {
      HeadsAgree(segment, max, pos, a, b);
      SplitUnique(segment, max, pos + |a[0].samples|, a[1..], b[1..]);
      SameHeadAndTail(a, b);
    }
  }

  /** Two splits begin with the same piece and go on from the same position. */
  lemma HeadsAgree(segment: Speech, max: nat, pos: nat, a: seq<Speech>, b: seq<Speech>)
    requires pos < |segment.samples| && Split(segment, max, pos, a) && Split(segment, max, pos, b)
    ensures a != [] && b != [] && a[0] == b[0]
    ensures Split(segment, max, pos + |a[0].samples|, a[1..]) && Split(segment, max, pos + |a[0].samples|, b[1..])
  {
    hide *;
    SplitHead(segment, max, pos, a);
    SplitHead(segment, max, pos, b);
    CutUnique(segment.samples, max, pos, pos + |a[0].samples|, pos + |b[0].samples|);
  }

  lemma SplitHead(segment: Speech, max: nat, pos: nat, pieces: seq<Speech>)
    requires Split(segment, max, pos, pieces)
    ensures pos >= |segment.samples| ==> pieces == []
    ensures pos < |segment.samples| ==>
      && pieces != [] && pos + |pieces[0].samples| <= |segment.samples|
      && CutRule(segment.samples, max, pos, pos + |pieces[0].samples|)
      && pieces[0] == Piece(segment, pos, pos + |pieces[0].samples|)
      && Split(segment, max, pos + |pieces[0].samples|, pieces[1..])
  {
    hide CutRule, Piece;
  }

  /** The transcriber's limit of 25 seconds: pieces of at most 28.95 s, each but the last at least 22.05 s. */
  lemma TranscriberPieces(segment: Speech, pieces: seq<Speech>)
    requires Split(segment, 400000, 0, pieces)
    ensures Flat(SamplesOf(pieces)) == segment.samples
    ensures forall i :: 0 <= i < |pieces| ==> |pieces[i].samples| <= 463200
    ensures forall i :: 0 <= i < |pieces| - 1 ==> |pieces[i].samples| >= 352800
  {
    SplitIsPartition(segment, 400000, 0, pieces);
    SplitBounds(segment, 400000, 0, pieces);
  }
}
