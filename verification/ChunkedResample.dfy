/** Resampling a whole file in overlapping 60-second chunks, merged with a cross-fade. Samples are reals,
    and the resampler is any one that is local: see Local. */
module ChunkedResample {
  import opened Wrappers

  const CHUNK_SECONDS := 60

  datatype Rates = Rates(from: nat, to: nat)

  ghost predicate Positive(r: Rates) {
    r.from > 0 && r.to > 0
  }

  /** How many output samples n input samples make. */
  function OutLen(r: Rates, n: nat): nat
    requires Positive(r)
  {
    n * r.to / r.from
  }

  /** Where the second of output sample k begins in the input, and where the sample ends there. */
  function ReachFrom(r: Rates, k: nat): nat
    requires Positive(r)
  {
    k / r.to * r.from
  }

  function ReachTo(r: Rates, k: nat): nat
    requires Positive(r)
  {
    (k + 1) * r.from / r.to
  }

  /** The input that output sample k may depend on: its own second, up to the end of the sample. */
  function Reach(r: Rates, s: seq<real>, k: nat): seq<real>
    requires Positive(r) && k < OutLen(r, |s|)
  {
    ReachInside(r, |s|, k);
    s[ReachFrom(r, k)..ReachTo(r, k)]
  }

  lemma ReachInside(r: Rates, n: nat, k: nat)
    requires Positive(r) && k < OutLen(r, n)
    ensures ReachFrom(r, k) <= ReachTo(r, k) <= n
  {
    var (q, m) := (k / r.to, OutLen(r, n));
    assert q * r.to <= k;
    MulMono(q * r.to, k + 1, r.from);
    assert q * r.to * r.from == q * r.from * r.to;
    DivBound((k + 1) * r.from, r.to, q * r.from);
    MulMono(k + 1, m, r.from);
    assert m * r.from <= n * r.to;
    DivAtMost((k + 1) * r.from, r.to, n);
  }

  lemma MulMono(a: nat, b: nat, c: nat)
    requires a <= b
    ensures a * c <= b * c
  {
  }

  lemma DivBound(a: nat, b: nat, q: nat)
    requires b > 0 && q * b <= a
    ensures q <= a / b
  {
    if a / b < q {
      MulMono(a / b + 1, q, b);
    }
  }

  lemma DivAtMost(a: nat, b: nat, q: nat)
    requires b > 0 && a <= q * b
    ensures a / b <= q
  {
    if q < a / b {
      MulMono(q + 1, a / b, b);
    }
  }

  // ----- Local resamplers -----

  /** Output sample k by the rule g of a local resampler: its place within its second, and its input. */
  ghost function Whole(r: Rates, g: (nat, seq<real>) -> real, s: seq<real>): (w: seq<real>)
    requires Positive(r)
    ensures |w| == OutLen(r, |s|)
  {
    seq(OutLen(r, |s|), k requires 0 <= k < OutLen(r, |s|) => g(k % r.to, Reach(r, s, k)))
  }

  type Resampler = seq<real> -> Result<seq<real>, string>

  ghost predicate ExactLength(r: Rates, resample: Resampler)
    requires Positive(r)
  {
    forall s :: resample(s).Success? ==> |resample(s).value| == OutLen(r, |s|)
  }

  ghost predicate Local(r: Rates, g: (nat, seq<real>) -> real, resample: Resampler)
    requires Positive(r)
  {
    forall s :: resample(s).Success? ==> resample(s).value == Whole(r, g, s)
  }

  lemma OutLenShift(r: Rates, seconds: nat, n: nat)
    requires Positive(r)
    ensures OutLen(r, seconds * r.from + n) == seconds * r.to + OutLen(r, n)
  {
    assert (seconds * r.from + n) * r.to == (seconds * r.to) * r.from + n * r.to;
    DivShift(n * r.to, seconds * r.to, r.from);
  }

  lemma DivShift(a: nat, q: nat, b: nat)
    requires b > 0
    ensures (q * b + a) / b == q + a / b && (q * b + a) % b == a % b
  {
    var (x, m) := ((q * b + a) / b, a / b);
    assert q * b + a == x * b + (q * b + a) % b && a == m * b + a % b;
    assert (x - q - m) * b == a % b - (q * b + a) % b;
    if x != q + m {
      BigMultiple(x - q - m, b);
    }
  }

  lemma BigMultiple(x: int, b: nat)
    requires x != 0
    ensures x * b >= b || x * b <= 0 - b
  {
    if x > 0 {
      MulMono(1, x, b);
    } else {
      MulMono(1, -x, b);
    }
  }

  /** n input samples make as many output samples as fit into their time. */
  lemma OutLenInTime(r: Rates, n: nat)
    requires Positive(r)
    ensures OutLen(r, n) * r.from <= n * r.to < (OutLen(r, n) + 1) * r.from
  {
    var x := n * r.to;
    assert x == x / r.from * r.from + x % r.from;
  }

  lemma OutLenMono(r: Rates, m: nat, n: nat)
    requires Positive(r) && m <= n
    ensures OutLen(r, m) <= OutLen(r, n)
  {
    MulMono(m, n, r.to);
    DivBound(n * r.to, r.from, OutLen(r, m));
  }

  lemma Distribute(a: nat, b: nat, c: nat)
    ensures (a + b) * c == a * c + b * c
  {
  }

  lemma Swap(a: nat, b: nat, c: nat)
    ensures a * b * c == a * c * b
  {
  }

  lemma ReachStart(r: Rates, seconds: nat, k: nat, at: nat)
    requires Positive(r) && at == seconds * r.to + k
    ensures at % r.to == k % r.to
    ensures at / r.to * r.from == seconds * r.from + k / r.to * r.from
  {
    DivShift(k, seconds, r.to);
    Distribute(seconds, k / r.to, r.from);
  }

  lemma ReachEnd(r: Rates, seconds: nat, k: nat, at: nat)
    requires Positive(r) && at == seconds * r.to + k
    ensures at * r.from / r.to == seconds * r.from + k * r.from / r.to
  {
    DivShift(k * r.from, seconds * r.from, r.to);
    Distribute(seconds * r.to, k, r.from);
    Swap(seconds, r.to, r.from);
  }

  lemma SliceOfSlice<T>(s: seq<T>, base: nat, end: nat, a: nat, b: nat)
    requires base <= end <= |s| && a <= b <= end - base
    ensures s[base..end][a..b] == s[base + a..base + b]
  {
    var (x, y) := (s[base..end][a..b], s[base + a..base + b]);
    assert forall i :: 0 <= i < b - a ==> x[i] == y[i];
  }

  lemma ReachBounds(r: Rates, seconds: nat, k: nat) returns (base: nat, at: nat)
    requires Positive(r)
    ensures base == seconds * r.from && at == seconds * r.to + k && at % r.to == k % r.to
    ensures ReachFrom(r, at) == base + ReachFrom(r, k) && ReachTo(r, at) == base + ReachTo(r, k)
  {
    base, at := seconds * r.from, seconds * r.to + k;
    ReachStart(r, seconds, k, at);
    ReachEnd(r, seconds, k + 1, at + 1);
  }

  lemma ReachInRange(r: Rates, seconds: nat, end: nat, size: nat, k: nat)
    requires Positive(r) && seconds * r.from <= end <= size && k < OutLen(r, end - seconds * r.from)
    ensures seconds * r.to + k < OutLen(r, size)
  {
    hide OutLen;
    OutLenShift(r, seconds, end - seconds * r.from);
    OutLenMono(r, end, size);
  }

  lemma ReachShift(r: Rates, s: seq<real>, seconds: nat, end: nat, k: nat)
    requires Positive(r) && seconds * r.from <= end <= |s| && k < OutLen(r, end - seconds * r.from)
    ensures seconds * r.to + k < OutLen(r, |s|)
    ensures (seconds * r.to + k) % r.to == k % r.to
    ensures Reach(r, s[seconds * r.from..end], k) == Reach(r, s, seconds * r.to + k)
  {
    hide OutLen, ReachFrom, ReachTo;
    ReachInRange(r, seconds, end, |s|, k);
    var base, at := ReachBounds(r, seconds, k);
    ReachInside(r, end - base, k);
    ReachInside(r, |s|, at);
    SliceOfSlice(s, base, end, ReachFrom(r, k), ReachTo(r, k));
  }

  /** A chunk that starts on a whole second resamples to its part of the whole file. */
  lemma ChunkIsPart(r: Rates, g: (nat, seq<real>) -> real, s: seq<real>, seconds: nat, end: nat)
    requires Positive(r) && seconds * r.from <= end <= |s|
    ensures OutLen(r, end) == seconds * r.to + OutLen(r, end - seconds * r.from) <= OutLen(r, |s|)
    ensures Whole(r, g, s[seconds * r.from..end]) == Whole(r, g, s)[seconds * r.to..OutLen(r, end)]
  {
    var n := end - seconds * r.from;
    OutLenShift(r, seconds, n);
    OutLenMono(r, end, |s|);
    var (part, whole) := (Whole(r, g, s[seconds * r.from..end]), Whole(r, g, s));
    forall k | 0 <= k < |part|
      ensures part[k] == whole[seconds * r.to..OutLen(r, end)][k]
    {
      ReachShift(r, s, seconds, end, k);
    }
  }

  // ----- The cross-fade -----

  function FadeLen(output: seq<real>, resampled: seq<real>, overlap: nat): nat {
    Min(Min(overlap, |resampled|), |output|)
  }

  function Blend(a: real, b: real, i: nat, n: nat): real
    requires i < n
  {
    var t := i as real / n as real;
    a * (1.0 - t) + b * t
  }

  /** The tail of the output faded into the head of the next chunk, and the rest of the chunk. */
  function Faded(output: seq<real>, resampled: seq<real>, overlap: nat): seq<real> {
    var n := FadeLen(output, resampled, overlap);
    var start := |output| - n;
    output[..start] + seq(n, i requires 0 <= i < n => Blend(output[start + i], resampled[i], i, n)) + resampled[n..]
  }

  method CrossFade(before: seq<real>, resampled: seq<real>, overlap: nat) returns (output: seq<real>)
    ensures output == Faded(before, resampled, overlap)
  {
    output := before;
    var fadeLen := Min(Min(overlap, |resampled|), |output|);
    var outStart := |output| - fadeLen;
    for i := 0 to fadeLen
      invariant |output| == |before| && output[..outStart] == before[..outStart]
      invariant forall j :: 0 <= j < i ==> output[outStart + j] == Blend(before[outStart + j], resampled[j], j, fadeLen)
      invariant forall j :: outStart + i <= j < |output| ==> output[j] == before[j]
    {
      output := output[outStart + i := Blend(output[outStart + i], resampled[i], i, fadeLen)];
    }
    output := output + resampled[fadeLen..];
  }

  lemma BlendOfEquals(a: real, i: nat, n: nat)
    requires i < n
    ensures Blend(a, a, i, n) == a
  {
  }

  /** The fade starts from the earlier take and moves towards the later one in equal steps. */
  lemma FadeIsGradual(a: real, b: real, i: nat, n: nat)
    requires i + 1 < n
    ensures Blend(a, b, 0, n) == a
    ensures Blend(a, b, i + 1, n) - Blend(a, b, i, n) == (b - a) / n as real
  {
    var (t, u, m) := (i as real / n as real, (i + 1) as real / n as real, n as real);
    assert u - t == 1.0 / m;
    assert (b - a) * (1.0 / m) == (b - a) / m;
    assert a * (1.0 - u) + b * u - (a * (1.0 - t) + b * t) == (b - a) * (u - t);
  }

  /** Outside the overlap the fade changes nothing. */
  lemma FadedShape(output: seq<real>, resampled: seq<real>, overlap: nat)
    ensures var (r, n) := (Faded(output, resampled, overlap), FadeLen(output, resampled, overlap));
      && |r| == |output| + |resampled| - n
      && r[..|output| - n] == output[..|output| - n]
      && r[|output|..] == resampled[n..]
      && forall i :: 0 <= i < n ==> r[|output| - n + i] == Blend(output[|output| - n + i], resampled[i], i, n)
  {
    hide Blend;
  }

  /** Where the two takes agree the fade is not heard. */
  lemma FadeOfEquals(whole: seq<real>, start: nat, a: nat, b: nat, overlap: nat)
    requires start <= a <= b <= |whole|
    requires FadeLen(whole[..a], whole[start..b], overlap) == a - start
    ensures Faded(whole[..a], whole[start..b], overlap) == whole[..b]
  {
    var n := a - start;
    var (output, resampled) := (whole[..a], whole[start..b]);
    hide Blend;
    forall i | 0 <= i < n
      ensures Blend(output[start + i], resampled[i], i, n) == whole[start + i]
    {
      BlendOfEquals(whole[start + i], i, n);
    }
  }

  // ----- The whole pass -----

  datatype Range = Range(start: nat, end: nat)

  /** Chunk i of n input samples starts before their end. */
  predicate Starts(r: Rates, n: nat, i: nat) {
    i * (CHUNK_SECONDS * r.from) < n
  }

  function Chunk(r: Rates, n: nat, i: nat): (c: Range)
    requires Starts(r, n, i)
    ensures c.start <= c.end <= n
  {
    var start := i * (CHUNK_SECONDS * r.from);
    Range(start, Min(start + CHUNK_SECONDS * r.from + r.from / 10, n))
  }

  /** Chunk i is minute i and 100 ms more, as far as the file goes. */
  lemma ChunkInTime(r: Rates, n: nat, i: nat)
    requires Starts(r, n, i)
    ensures var c := Chunk(r, n, i);
      c.start == 60 * r.from * i && c.end == Min(60 * r.from * (i + 1) + r.from / 10, n)
  {
    var minute := 60 * r.from;
    assert minute * i == i * minute && minute * (i + 1) == minute * i + minute;
  }

  method ChunkRanges(r: Rates, n: nat) returns (ranges: seq<Range>)
    requires Positive(r)
    ensures n <= |ranges| * (CHUNK_SECONDS * r.from)
    ensures forall i :: 0 <= i < |ranges| ==> Starts(r, n, i) && ranges[i] == Chunk(r, n, i)
  {
    var chunkSamples := CHUNK_SECONDS * r.from;
    var overlapInput := r.from / 10;
    ranges := [];
    var start := 0;
    while start < n
      invariant start == |ranges| * chunkSamples
      invariant forall i :: 0 <= i < |ranges| ==> Starts(r, n, i) && ranges[i] == Chunk(r, n, i)
      decreases n - start
    {
      var end := Min(start + chunkSamples + overlapInput, n);
      ranges := ranges + [Range(start, end)];
      start := start + chunkSamples;
    }
  }

  function OverlapOut(r: Rates): nat
    requires Positive(r)
  {
    OutLen(r, r.from / 10)
  }

  /** What the resampler makes of chunk i. */
  function Take(r: Rates, input: seq<real>, resample: Resampler, i: nat): Result<seq<real>, string>
    requires Starts(r, |input|, i)
  {
    var c := Chunk(r, |input|, i);
    resample(input[c.start..c.end])
  }

  /** The first `count` chunks merged in order; the first failure ends the pass. */
  function Merged(r: Rates, input: seq<real>, resample: Resampler, count: nat): Result<seq<real>, string>
    requires Positive(r) && (count > 0 ==> Starts(r, |input|, count - 1))
  {
    if count == 0 then Success([])
    else
      StartsEarlier(r, |input|, count - 1);
      var output := Merged(r, input, resample, count - 1);
      if output.Failure? then output
      else
        var resampled := Take(r, input, resample, count - 1);
        if resampled.Failure? || count == 1 then resampled
        else Success(Faded(output.value, resampled.value, OverlapOut(r)))
  }

  lemma StartsEarlier(r: Rates, n: nat, i: nat)
    requires Starts(r, n, i)
    ensures i > 0 ==> Starts(r, n, i - 1)
  {
    if i > 0 {
      MulMono(i - 1, i, CHUNK_SECONDS * r.from);
    }
  }

  /** Chunked resampling: the chunks are resampled apart and merged in order. */
  method ChunkedResampleAll(r: Rates, input: seq<real>, resample: Resampler) returns (result: Result<seq<real>, string>)
    requires Positive(r)
    ensures input == [] || r.from == r.to ==> result == Success(input)
    ensures input != [] && r.from != r.to ==> exists count: nat ::
      && AllStarted(r, |input|, count)
      && result == Merged(r, input, resample, count)
  {
    if input == [] || r.from == r.to {
      return Success(input);
    }
    var ranges := ChunkRanges(r, |input|);
    assert AllStarted(r, |input|, |ranges|);
    var resampledChunks := ResampleChunks(r, input, resample, ranges);
    result := MergeChunks(r, input, resample, resampledChunks);
  }

  ghost predicate AreTakes(r: Rates, input: seq<real>, resample: Resampler, chunks: seq<Result<seq<real>, string>>) {
    forall j :: 0 <= j < |chunks| ==> Starts(r, |input|, j) && chunks[j] == Take(r, input, resample, j)
  }

  method ResampleChunks(r: Rates, input: seq<real>, resample: Resampler, ranges: seq<Range>)
    returns (chunks: seq<Result<seq<real>, string>>)
    requires forall i :: 0 <= i < |ranges| ==> Starts(r, |input|, i) && ranges[i] == Chunk(r, |input|, i)
    ensures |chunks| == |ranges| && AreTakes(r, input, resample, chunks)
  {
    hide Chunk, Starts;
    chunks := [];
    for i := 0 to |ranges|
      invariant |chunks| == i && AreTakes(r, input, resample, chunks)
    {
      assert ranges[i] == Chunk(r, |input|, i);
      chunks := chunks + [resample(input[ranges[i].start..ranges[i].end])];
    }
  }

  method MergeChunks(r: Rates, input: seq<real>, resample: Resampler, chunks: seq<Result<seq<real>, string>>)
    returns (result: Result<seq<real>, string>)
    requires Positive(r) && AreTakes(r, input, resample, chunks)
    ensures |chunks| > 0 ==> Starts(r, |input|, |chunks| - 1)
    ensures result == Merged(r, input, resample, |chunks|)
  {
    hide Take, Starts, Faded, OverlapOut;
    assert |chunks| > 0 ==> chunks[|chunks| - 1] == Take(r, input, resample, |chunks| - 1);
    var output := [];
    for i := 0 to |chunks|
      invariant i > 0 ==> Starts(r, |input|, i - 1)
      invariant Merged(r, input, resample, i) == Success(output)
    {
      var resampled := chunks[i];
      assert resampled == Take(r, input, resample, i);
      if resampled.Failure? {
        FailureStays(r, input, resample, i + 1, |chunks|);
        return resampled;
      }
      if i == 0 {
        output := resampled.value;
      } else {
        output := CrossFade(output, resampled.value, OverlapOut(r));
      }
    }
    return Success(output);
  }

  /** count chunks start within the input, and the next one would not. */
  predicate AllStarted(r: Rates, n: nat, count: nat) {
    (count > 0 ==> Starts(r, n, count - 1)) && !Starts(r, n, count)
  }

  lemma {:induction false} FailureStays(r: Rates, input: seq<real>, resample: Resampler, i: nat, count: nat)
    requires Positive(r) && 0 < i <= count && Starts(r, |input|, count - 1)
    ensures Starts(r, |input|, i - 1)
    ensures Merged(r, input, resample, i).Failure? ==>
      Merged(r, input, resample, count) == Merged(r, input, resample, i)
    decreases count
  {
    if i < count {
      StartsEarlier(r, |input|, count - 1);
      FailureStays(r, input, resample, i, count - 1);
    }
  }

  /** What chunk i and the merge before it have in common is the overlap, however short the chunk is. */
  lemma FadeStart(r: Rates, n: nat, i: nat, output: seq<real>, resampled: seq<real>)
    requires Positive(r) && i > 0 && Starts(r, n, i) && Starts(r, n, i - 1)
    requires |output| == OutLen(r, Chunk(r, n, i - 1).end)
    requires |resampled| == OutLen(r, Chunk(r, n, i).end - Chunk(r, n, i).start)
    ensures |output| - FadeLen(output, resampled, OverlapOut(r)) == i * CHUNK_SECONDS * r.to
    ensures OutLen(r, Chunk(r, n, i).end) == i * CHUNK_SECONDS * r.to + |resampled|
  {
    ChunkStart(r, n, i);
    ChunkStart(r, n, i - 1);
    var (seconds, overlap, start) := (i * CHUNK_SECONDS, r.from / 10, Chunk(r, n, i).start);
    OutLenShift(r, seconds, Min(overlap, n - start));
    OutLenShift(r, seconds, Chunk(r, n, i).end - start);
    if n - start >= overlap {
      OutLenMono(r, overlap, Chunk(r, n, i).end - start);
    } else {
      OutLenMono(r, n - start, overlap);
    }
  }

  lemma ChunkStart(r: Rates, n: nat, i: nat)
    requires Starts(r, n, i)
    ensures Chunk(r, n, i).start == i * CHUNK_SECONDS * r.from
    ensures Chunk(r, n, i).end == Min((i + 1) * CHUNK_SECONDS * r.from + r.from / 10, n)
  {
    assert i * (CHUNK_SECONDS * r.from) == i * CHUNK_SECONDS * r.from;
    assert (i + 1) * CHUNK_SECONDS * r.from == i * CHUNK_SECONDS * r.from + CHUNK_SECONDS * r.from;
  }

  lemma FadedLength(output: seq<real>, resampled: seq<real>, overlap: nat)
    ensures |Faded(output, resampled, overlap)| == |output| - FadeLen(output, resampled, overlap) + |resampled|
  {
  }

  /** Merging keeps the length, whatever the resampler computes. */
  lemma {:induction false} MergedLength(r: Rates, input: seq<real>, resample: Resampler, count: nat)
    requires Positive(r) && count > 0 && Starts(r, |input|, count - 1) && ExactLength(r, resample)
    ensures var m := Merged(r, input, resample, count);
      m.Success? ==> |m.value| == OutLen(r, Chunk(r, |input|, count - 1).end)
  {
    hide OutLen, Starts, Chunk, Faded, FadeLen, OverlapOut;
    if count == 1 {
      ChunkStart(r, |input|, 0);
    } else if Merged(r, input, resample, count).Success? {
      StartsEarlier(r, |input|, count - 1);
      var (output, taken) := (Merged(r, input, resample, count - 1).value, Take(r, input, resample, count - 1).value);
      MergedLength(r, input, resample, count - 1);
      FadeStart(r, |input|, count - 1, output, taken);
      FadedLength(output, taken, OverlapOut(r));
    }
  }

  /** One merge: what two neighbouring chunks make of their parts of the whole. */
  lemma MergeStep(r: Rates, g: (nat, seq<real>) -> real, input: seq<real>, i: nat)
    requires Positive(r) && i > 0 && Starts(r, |input|, i) && Starts(r, |input|, i - 1)
    ensures var (c, prior) := (Chunk(r, |input|, i), Chunk(r, |input|, i - 1));
      && OutLen(r, prior.end) <= OutLen(r, |input|) && OutLen(r, c.end) <= OutLen(r, |input|)
      && Faded(Whole(r, g, input)[..OutLen(r, prior.end)], Whole(r, g, input[c.start..c.end]), OverlapOut(r))
      == Whole(r, g, input)[..OutLen(r, c.end)]
  {
    var (seconds, c, prior) := (i * CHUNK_SECONDS, Chunk(r, |input|, i), Chunk(r, |input|, i - 1));
    ChunkStart(r, |input|, i);
    OutLenMono(r, prior.end, |input|);
    hide Whole, OutLen, Faded, FadeLen, OverlapOut, Starts, Chunk;
    var (before, taken) := (Whole(r, g, input)[..OutLen(r, prior.end)], Whole(r, g, input[c.start..c.end]));
    ChunkIsPart(r, g, input, seconds, c.end);
    FadeStart(r, |input|, i, before, taken);
    FadeOfEquals(Whole(r, g, input), seconds * r.to, |before|, OutLen(r, c.end), OverlapOut(r));
  }

  lemma FirstChunkIsPart(r: Rates, g: (nat, seq<real>) -> real, input: seq<real>)
    requires Positive(r) && Starts(r, |input|, 0)
    ensures var c := Chunk(r, |input|, 0);
      && OutLen(r, c.end) <= OutLen(r, |input|)
      && Whole(r, g, input[c.start..c.end]) == Whole(r, g, input)[..OutLen(r, c.end)]
  {
    ChunkStart(r, |input|, 0);
    var c := Chunk(r, |input|, 0);
    hide Whole, OutLen, Starts, Chunk;
    ChunkIsPart(r, g, input, 0, c.end);
  }

  /** Merging the chunks of a local resampler gives its whole-file result, as far as the chunks reach. */
  lemma {:induction false} MergedIsWhole(r: Rates, g: (nat, seq<real>) -> real, input: seq<real>,
                                         resample: Resampler, count: nat)
    requires Positive(r) && count > 0 && Starts(r, |input|, count - 1) && Local(r, g, resample)
    ensures var (m, end) := (Merged(r, input, resample, count), Chunk(r, |input|, count - 1).end);
      m.Success? ==> OutLen(r, end) <= OutLen(r, |input|) && m.value == Whole(r, g, input)[..OutLen(r, end)]
  {
    hide Whole, OutLen, Faded, Starts, Chunk, OverlapOut;
    if count == 1 {
      FirstChunkIsPart(r, g, input);
    } else if Merged(r, input, resample, count).Success? {
      StartsEarlier(r, |input|, count - 1);
      MergedIsWhole(r, g, input, resample, count - 1);
      MergeStep(r, g, input, count - 1);
    }
  }

  lemma FirstStarts(r: Rates, n: nat)
    requires n > 0
    ensures Starts(r, n, 0)
  {
  }

  lemma LastChunkReachesEnd(r: Rates, n: nat, count: nat)
    requires Positive(r) && n > 0 && AllStarted(r, n, count)
    ensures count > 0 && Chunk(r, n, count - 1).end == n
  {
    FirstStarts(r, n);
    if count > 0 {
      assert count * (CHUNK_SECONDS * r.from) == (count - 1) * (CHUNK_SECONDS * r.from) + CHUNK_SECONDS * r.from;
    }
  }

  /** Chunked resampling is single-pass resampling. */
  lemma ChunkedIsSinglePass(r: Rates, g: (nat, seq<real>) -> real, input: seq<real>, resample: Resampler, count: nat)
    requires Positive(r) && input != [] && AllStarted(r, |input|, count)
    requires Merged(r, input, resample, count).Success?
    ensures ExactLength(r, resample) ==> |Merged(r, input, resample, count).value| == OutLen(r, |input|)
    ensures Local(r, g, resample) ==> Merged(r, input, resample, count).value == Whole(r, g, input)
  {
    LastChunkReachesEnd(r, |input|, count);
    if ExactLength(r, resample) {
      MergedLength(r, input, resample, count);
    }
    if Local(r, g, resample) {
      MergedIsWhole(r, g, input, resample, count);
    }
  }

  /** The pass succeeds exactly when every chunk does. */
  lemma {:induction false} MergedSucceedsIff(r: Rates, input: seq<real>, resample: Resampler, count: nat)
    requires Positive(r) && count > 0 && Starts(r, |input|, count - 1)
    ensures Merged(r, input, resample, count).Success? <==>
      forall i: nat :: i < count ==> Starts(r, |input|, i) && Take(r, input, resample, i).Success?
  {
    StartsEarlier(r, |input|, count - 1);
    hide Take, Starts, Faded, OverlapOut;
    if count > 1 {
      MergedSucceedsIff(r, input, resample, count - 1);
    }
  }

  /** A failed pass reports the first chunk that failed. */
  lemma FirstFailureWins(r: Rates, input: seq<real>, resample: Resampler, count: nat, i: nat)
    requires Positive(r) && i < count && Starts(r, |input|, count - 1)
    requires Starts(r, |input|, i) && Take(r, input, resample, i).Failure?
    requires forall j: nat :: j < i ==> Starts(r, |input|, j) && Take(r, input, resample, j).Success?
    ensures Merged(r, input, resample, count) == Take(r, input, resample, i)
  {
    hide Take, Starts, Faded, OverlapOut;
    StartsEarlier(r, |input|, i);
    if i > 0 {
      MergedSucceedsIff(r, input, resample, i);
    }
    FailureStays(r, input, resample, i + 1, count);
  }
}
