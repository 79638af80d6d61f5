/** The reader of 16-bit PCM WAV clips, against the RIFF chunk layout of the Multimedia Programming
    Interface and Data Specifications 1.0. */
module WavParse {
  import opened Wrappers
  import opened Pcm

  const RIFF: seq<Byte> := [0x52, 0x49, 0x46, 0x46]
  const WAVE: seq<Byte> := [0x57, 0x41, 0x56, 0x45]
  const FMT: seq<Byte> := [0x66, 0x6D, 0x74, 0x20]
  const DATA: seq<Byte> := [0x64, 0x61, 0x74, 0x61]
  const HEADER := 8
  const FMT_MIN := 16

  type Word = w: int | 0 <= w < 0x1_0000
  type Int16 = x: int | -0x8000 <= x < 0x8000

  datatype Riff = Riff(id: seq<Byte>, body: seq<Byte>)
  datatype Format = Format(tag: Word, channels: Word, rate: Sample)
  datatype Found = Found(fmt: Option<Format>, bits: Word, data: Option<seq<Byte>>)
  datatype WavError = NotWav | NoFmt | NoData | Unsupported(tag: Word, bits: Word)
  datatype Clip = Clip(samples: seq<Int16>, rate: Sample, channels: Word)

  function FromLe16(lo: Byte, hi: Byte): Word {
    lo + 0x100 * hi
  }

  function Le16(w: Word): (b: seq<Byte>)
    ensures |b| == 2 && FromLe16(b[0], b[1]) == w
  {
    [w % 0x100, w / 0x100]
  }

  /** Two's complement. */
  function Signed(w: Word): Int16 {
    if w < 0x8000 then w else w - 0x1_0000
  }

  function Unsigned(x: Int16): (w: Word)
    ensures Signed(w) == x
  {
    if x >= 0 then x else x + 0x1_0000
  }

  // ----- Reading -----

  predicate IsWave(bytes: seq<Byte>) {
    |bytes| >= 12 && bytes[0..4] == RIFF && bytes[8..12] == WAVE
  }

  function SizeAt(bytes: seq<Byte>, pos: nat): nat
    requires pos + HEADER <= |bytes|
  {
    FromLe(bytes[pos + 4..pos + 8])
  }

  /** The chunk at pos; a body that claims more than is there is what is there. */
  function ChunkAt(bytes: seq<Byte>, pos: nat): Riff
    requires pos + HEADER <= |bytes|
  {
    var start := pos + HEADER;
    Riff(bytes[pos..pos + 4], bytes[start..Min(start + SizeAt(bytes, pos), |bytes|)])
  }

  /** Chunks are word-aligned. */
  function Next(bytes: seq<Byte>, pos: nat): nat
    requires pos + HEADER <= |bytes|
  {
    var size := SizeAt(bytes, pos);
    pos + HEADER + size + size % 2
  }

  function ChunksFrom(bytes: seq<Byte>, pos: nat): seq<Riff>
    decreases |bytes| - pos
  {
    if pos + HEADER > |bytes| then [] else [ChunkAt(bytes, pos)] + ChunksFrom(bytes, Next(bytes, pos))
  }

  predicate Usable(c: Riff) {
    c.id == FMT && |c.body| >= FMT_MIN
  }

  function FormatOf(b: seq<Byte>): Format
    requires |b| >= FMT_MIN
  {
    Format(FromLe16(b[0], b[1]), FromLe16(b[2], b[3]), FromLe(b[4..8]))
  }

  function BitsOf(b: seq<Byte>): Word
    requires |b| >= FMT_MIN
  {
    FromLe16(b[14], b[15])
  }

  function Note(found: Found, c: Riff): Found {
    if Usable(c) then found.(fmt := Some(FormatOf(c.body)), bits := BitsOf(c.body))
    else if c.id == DATA then found.(data := Some(c.body))
    else found
  }

  function Collect(found: Found, chunks: seq<Riff>): Found
    decreases |chunks|
  {
    if chunks == [] then found else Collect(Note(found, chunks[0]), chunks[1..])
  }

  const NOTHING := Found(None, 16, None)

  function SampleAt(data: seq<Byte>, i: nat): Int16
    requires i < |data| / 2
  {
    Signed(FromLe16(data[2 * i], data[2 * i + 1]))
  }

  /** The interleaved samples; an odd last byte is dropped. */
  function Samples16(data: seq<Byte>): (s: seq<Int16>)
    ensures |s| == |data| / 2
  {
    seq(|data| / 2, i requires 0 <= i < |data| / 2 => SampleAt(data, i))
  }

  function Verdict(found: Found): Result<Clip, WavError> {
    if found.fmt.None? then Failure(NoFmt)
    else if found.data.None? then Failure(NoData)
    else if found.fmt.value.tag != 1 || found.bits != 16 then Failure(Unsupported(found.fmt.value.tag, found.bits))
    else Success(Clip(Samples16(found.data.value), found.fmt.value.rate, found.fmt.value.channels))
  }

  function Parsed(bytes: seq<Byte>): Result<Clip, WavError> {
    if !IsWave(bytes) then Failure(NotWav) else Verdict(Collect(NOTHING, ChunksFrom(bytes, 12)))
  }

  method ParseWavPcm16(bytes: seq<Byte>) returns (result: Result<Clip, WavError>)
    ensures result == Parsed(bytes)
  {
    if |bytes| < 12 || bytes[0..4] != RIFF || bytes[8..12] != WAVE {
      return Failure(NotWav);
    }
    var found := ScanChunks(bytes);
    hide Collect, ChunksFrom;
    result := Verdict(found);
  }

  /** The chunk walk, with what it has found so far. */
  method ScanChunks(bytes: seq<Byte>) returns (found: Found)
    ensures found == Collect(NOTHING, ChunksFrom(bytes, 12))
  {
    hide Collect, ChunksFrom, FormatOf, BitsOf, FromLe;
    var fmt: Option<Format> := None;
    var bitsPerSample := 16;
    var data := None;
    var pos := 12;
    while pos + HEADER <= |bytes|
      invariant Collect(Found(fmt, bitsPerSample, data), ChunksFrom(bytes, pos))
             == Collect(NOTHING, ChunksFrom(bytes, 12))
      decreases |bytes| - pos
    {
      CollectStep(Found(fmt, bitsPerSample, data), bytes, pos);
      var id := bytes[pos..pos + 4];
      var size := FromLe(bytes[pos + 4..pos + 8]);
      var bodyStart := pos + HEADER;
      var body := bytes[bodyStart..Min(bodyStart + size, |bytes|)];
      if id == FMT && |body| >= FMT_MIN {
        fmt := Some(FormatOf(body));
        bitsPerSample := BitsOf(body);
      } else if id == DATA {
        data := Some(body);
      }
      pos := bodyStart + size + size % 2;
    }
    CollectEnd(Found(fmt, bitsPerSample, data), bytes, pos);
    found := Found(fmt, bitsPerSample, data);
  }

  lemma CollectStep(found: Found, bytes: seq<Byte>, pos: nat)
    requires pos + HEADER <= |bytes|
    ensures Collect(found, ChunksFrom(bytes, pos))
         == Collect(Note(found, ChunkAt(bytes, pos)), ChunksFrom(bytes, Next(bytes, pos)))
  {
    hide Note, ChunkAt, Next;
    assert ChunksFrom(bytes, pos)[1..] == ChunksFrom(bytes, Next(bytes, pos));
  }

  lemma CollectEnd(found: Found, bytes: seq<Byte>, pos: nat)
    requires pos + HEADER > |bytes|
    ensures Collect(found, ChunksFrom(bytes, pos)) == found
  {
  }

  // ----- Writing -----

  predicate Writable(c: Riff) {
    |c.id| == 4 && |c.body| < 0x1_0000_0000
  }

  ghost predicate AllWritable(chunks: seq<Riff>) {
    forall i :: 0 <= i < |chunks| ==> Writable(chunks[i])
  }

  function Head(id: seq<Byte>, size: nat): (b: seq<Byte>)
    requires |id| == 4 && size < 0x1_0000_0000
    ensures |b| == HEADER
  {
    id + Le(size)
  }

  function Written(c: Riff): (b: seq<Byte>)
    requires Writable(c)
    ensures |b| == HEADER + |c.body| + |c.body| % 2
  {
    Head(c.id, |c.body|) + c.body + (if |c.body| % 2 == 1 then [0] else [])
  }

  function WrittenAll(chunks: seq<Riff>): seq<Byte>
    requires AllWritable(chunks)
  {
    if chunks == [] then [] else Written(chunks[0]) + WrittenAll(chunks[1..])
  }

  /** The RIFF header; its size field is not read. */
  function FileHead(riffSize: Sample): (b: seq<Byte>)
    ensures |b| == 12
  {
    RIFF + Le(riffSize) + WAVE
  }

  lemma HeadReads(before: seq<Byte>, id: seq<Byte>, size: nat, after: seq<Byte>)
    requires |id| == 4 && size < 0x1_0000_0000
    ensures var bytes := before + Head(id, size) + after;
      && bytes[|before|..|before| + 4] == id && SizeAt(bytes, |before|) == size
  {
    var bytes := before + Head(id, size) + after;
    hide Le, FromLe;
    assert bytes[|before| + 4..|before| + 8] == Le(size);
    LeRoundTrip(size);
  }

  lemma ReadsOne(before: seq<Byte>, c: Riff, after: seq<Byte>)
    requires Writable(c)
    ensures var bytes := before + Written(c) + after;
      ChunkAt(bytes, |before|) == c && Next(bytes, |before|) == |before| + |Written(c)|
  {
    var bytes := before + Written(c) + after;
    var pad := if |c.body| % 2 == 1 then [0] else [];
    assert bytes == before + Head(c.id, |c.body|) + (c.body + pad + after);
    HeadReads(before, c.id, |c.body|, c.body + pad + after);
    assert bytes[|before| + HEADER..|before| + HEADER + |c.body|] == c.body;
  }

  /** Written chunks are read back one by one, then whatever follows them. */
  lemma {:induction false} ReadsWritten(before: seq<Byte>, chunks: seq<Riff>, after: seq<Byte>)
    requires AllWritable(chunks)
    ensures var bytes := before + WrittenAll(chunks) + after;
      ChunksFrom(bytes, |before|) == chunks + ChunksFrom(bytes, |before| + |WrittenAll(chunks)|)
    decreases |chunks|
  {
    hide ChunksFrom;
    var bytes := before + WrittenAll(chunks) + after;
    if chunks == [] {
      hide *;
      assert chunks + ChunksFrom(bytes, |before|) == ChunksFrom(bytes, |before|);
    } else {
      var (c, rest) := (chunks[0], WrittenAll(chunks[1..]));
      var next := before + Written(c);
      Regroup(before, Written(c), rest, after);
      ReadsOne(before, c, rest + after);
      ReadsWritten(next, chunks[1..], after);
      hide ChunkAt, Next, Writable, SizeAt, Written;
      ReadsFirst(bytes, |before|, |next|, chunks, |before| + |WrittenAll(chunks)|);
    }
  }

  lemma Regroup<T>(a: seq<T>, b: seq<T>, c: seq<T>, d: seq<T>)
    ensures a + (b + c) + d == a + b + (c + d) == (a + b) + c + d
  {
  }

  lemma ReadsFirst(bytes: seq<Byte>, pos: nat, next: nat, chunks: seq<Riff>, end: nat)
    requires pos + HEADER <= |bytes| && Next(bytes, pos) == next && chunks != [] && ChunkAt(bytes, pos) == chunks[0]
    requires ChunksFrom(bytes, next) == chunks[1..] + ChunksFrom(bytes, end)
    ensures ChunksFrom(bytes, pos) == chunks + ChunksFrom(bytes, end)
  {
    assert ChunksFrom(bytes, pos) == [chunks[0]] + ChunksFrom(bytes, next) by {
      hide ChunkAt, Next;
    }
    hide *;
    Prepend(chunks, ChunksFrom(bytes, end));
  }

  lemma Prepend<T>(a: seq<T>, b: seq<T>)
    requires a != []
    ensures [a[0]] + (a[1..] + b) == a + b
  {
  }

  lemma HeadIsWave(riffSize: Sample, rest: seq<Byte>)
    ensures IsWave(FileHead(riffSize) + rest)
  {
    var bytes := FileHead(riffSize) + rest;
    assert bytes[0..4] == RIFF && bytes[8..12] == WAVE;
  }

  // ----- What decides the clip -----

  lemma {:induction false} CollectAppend(found: Found, a: seq<Riff>, b: seq<Riff>)
    ensures Collect(found, a + b) == Collect(Collect(found, a), b)
    decreases |a|
  {
    if a == [] {
      assert a + b == b;
    } else {
      assert (a + b)[1..] == a[1..] + b;
      CollectAppend(Note(found, a[0]), a[1..], b);
    }
  }

  /** Chunks without a usable format leave the format alone, and chunks without data the data. */
  lemma {:induction false} CollectKeeps(found: Found, chunks: seq<Riff>)
    ensures NoUsable(chunks) ==> Collect(found, chunks).fmt == found.fmt && Collect(found, chunks).bits == found.bits
    ensures NoDataChunk(chunks) ==> Collect(found, chunks).data == found.data
    decreases |chunks|
  {
    if chunks != [] {
      hide FormatOf, BitsOf;
      CollectKeeps(Note(found, chunks[0]), chunks[1..]);
    }
  }

  predicate NoUsable(chunks: seq<Riff>) {
    forall i :: 0 <= i < |chunks| ==> !Usable(chunks[i])
  }

  predicate NoDataChunk(chunks: seq<Riff>) {
    forall i :: 0 <= i < |chunks| ==> chunks[i].id != DATA
  }

  predicate NoUsableAfter(chunks: seq<Riff>, i: nat) {
    forall k :: i < k < |chunks| ==> !Usable(chunks[k])
  }

  predicate NoDataAfter(chunks: seq<Riff>, i: nat) {
    forall k :: i < k < |chunks| ==> chunks[k].id != DATA
  }

  lemma CollectsFrom(chunks: seq<Riff>, i: nat)
    requires i < |chunks|
    ensures Usable(chunks[i]) && NoUsableAfter(chunks, i) ==>
      && Collect(NOTHING, chunks).fmt == Some(FormatOf(chunks[i].body))
      && Collect(NOTHING, chunks).bits == BitsOf(chunks[i].body)
    ensures chunks[i].id == DATA && NoDataAfter(chunks, i) ==> Collect(NOTHING, chunks).data == Some(chunks[i].body)
  {
    hide FormatOf, BitsOf;
    var (before, after) := (chunks[..i], chunks[i + 1..]);
    assert chunks == before + ([chunks[i]] + after);
    CollectAppend(NOTHING, before, [chunks[i]] + after);
    assert ([chunks[i]] + after)[1..] == after;
    CollectKeeps(Note(Collect(NOTHING, before), chunks[i]), after);
  }

  /** The last usable format and the last data chunk decide the clip, in either order. */
  lemma LastChunksDecide(bytes: seq<Byte>, f: nat, d: nat)
    requires IsWave(bytes) && f < |ChunksFrom(bytes, 12)| && d < |ChunksFrom(bytes, 12)|
    requires var chunks := ChunksFrom(bytes, 12);
      && Usable(chunks[f]) && NoUsableAfter(chunks, f) && chunks[d].id == DATA && NoDataAfter(chunks, d)
    ensures var (fmt, bits) := (FormatOf(ChunksFrom(bytes, 12)[f].body), BitsOf(ChunksFrom(bytes, 12)[f].body));
      Parsed(bytes) == if fmt.tag == 1 && bits == 16
        then Success(Clip(Samples16(ChunksFrom(bytes, 12)[d].body), fmt.rate, fmt.channels))
        else Failure(Unsupported(fmt.tag, bits))
  {
    CollectsFrom(ChunksFrom(bytes, 12), f);
    CollectsFrom(ChunksFrom(bytes, 12), d);
  }

  /** The reader asks for a format first and for data second, and misses one only when no chunk has it. */
  lemma MissingIff(bytes: seq<Byte>)
    requires IsWave(bytes)
    ensures Parsed(bytes) == Failure(NoFmt) <==> NoUsable(ChunksFrom(bytes, 12))
    ensures Parsed(bytes) == Failure(NoData) <==> !NoUsable(ChunksFrom(bytes, 12)) && NoDataChunk(ChunksFrom(bytes, 12))
  {
    FoundIff(ChunksFrom(bytes, 12));
    VerdictMissing(Collect(NOTHING, ChunksFrom(bytes, 12)));
    hide Verdict, NoUsable, NoDataChunk, Collect, ChunksFrom, IsWave;
  }

  lemma VerdictMissing(found: Found)
    ensures Verdict(found) != Failure(NotWav)
    ensures Verdict(found) == Failure(NoFmt) <==> found.fmt.None?
    ensures Verdict(found) == Failure(NoData) <==> found.fmt.Some? && found.data.None?
  {
  }

  lemma FoundIff(chunks: seq<Riff>)
    ensures Collect(NOTHING, chunks).fmt.None? <==> NoUsable(chunks)
    ensures Collect(NOTHING, chunks).data.None? <==> NoDataChunk(chunks)
  {
    CollectKeeps(NOTHING, chunks);
    hide Collect, Usable, FormatOf, BitsOf;
    if f :| 0 <= f < |chunks| && Usable(chunks[f]) {
      var last := LastUsable(chunks, f);
      CollectsFrom(chunks, last);
    }
    if d :| 0 <= d < |chunks| && chunks[d].id == DATA {
      var last := LastData(chunks, d);
      CollectsFrom(chunks, last);
    }
  }

  lemma LastUsable(chunks: seq<Riff>, i: nat) returns (last: nat)
    requires i < |chunks| && Usable(chunks[i])
    ensures last < |chunks| && Usable(chunks[last]) && NoUsableAfter(chunks, last)
    decreases |chunks| - i
  {
    last := i;
    if k :| i < k < |chunks| && Usable(chunks[k]) {
      last := LastUsable(chunks, k);
    }
  }

  lemma LastData(chunks: seq<Riff>, i: nat) returns (last: nat)
    requires i < |chunks| && chunks[i].id == DATA
    ensures last < |chunks| && chunks[last].id == DATA && NoDataAfter(chunks, last)
    decreases |chunks| - i
  {
    last := i;
    if k :| i < k < |chunks| && chunks[k].id == DATA {
      last := LastData(chunks, k);
    }
  }

  // ----- Round trip -----

  function Bytes16(samples: seq<Int16>): (b: seq<Byte>)
    ensures |b| == 2 * |samples|
  {
    if samples == [] then [] else Le16(Unsigned(samples[0])) + Bytes16(samples[1..])
  }

  lemma {:induction false} Bytes16At(samples: seq<Int16>, i: nat)
    requires i < |samples|
    ensures SampleAt(Bytes16(samples), i) == samples[i]
  {
    hide FromLe16, Signed;
    if i > 0 {
      Bytes16At(samples[1..], i - 1);
    }
  }

  lemma SampleInPrefix(data: seq<Byte>, n: nat, i: nat)
    requires n <= |data| && i < n / 2
    ensures SampleAt(data[..n], i) == SampleAt(data, i)
  {
    hide FromLe16, Signed;
    var cut := data[..n];
    assert cut[2 * i] == data[2 * i] && cut[2 * i + 1] == data[2 * i + 1];
  }

  lemma SamplesInPrefix(samples: seq<Int16>, data: seq<Byte>, n: nat)
    requires n <= 2 * |samples| && data == Bytes16(samples)[..n]
    ensures forall i :: 0 <= i < n / 2 ==> SampleAt(data, i) == samples[i]
  {
    forall i | 0 <= i < n / 2
      ensures SampleAt(data, i) == samples[i]
    {
      Bytes16At(samples, i);
      SampleInPrefix(Bytes16(samples), n, i);
    }
  }

  /** Data cut to n bytes holds the samples that are whole. */
  lemma Samples16Of(samples: seq<Int16>, n: nat)
    requires n <= 2 * |samples|
    ensures Samples16(Bytes16(samples)[..n]) == samples[..n / 2]
  {
    hide SampleAt, Bytes16;
    var data := Bytes16(samples)[..n];
    SamplesInPrefix(samples, data, n);
    assert forall i :: 0 <= i < n / 2 ==> Samples16(data)[i] == SampleAt(data, i);
  }

  /** What a writer puts in the format chunk of 16-bit PCM; what follows the 16 bytes is not read. */
  datatype Pcm16 = Pcm16(rate: Sample, channels: Word, byteRate: Sample, align: Word, extra: seq<Byte>)

  function FmtBody(f: Pcm16): seq<Byte> {
    Le16(1) + Le16(f.channels) + Le(f.rate) + Le(f.byteRate) + Le16(f.align) + Le16(16) + f.extra
  }

  lemma FmtReads(f: Pcm16)
    ensures var b := FmtBody(f);
      |b| >= FMT_MIN && FormatOf(b) == Format(1, f.channels, f.rate) && BitsOf(b) == 16
  {
    var b := FmtBody(f);
    hide Le, FromLe;
    assert b[4..8] == Le(f.rate);
    LeRoundTrip(f.rate);
    assert b[0..2] == Le16(1) && b[2..4] == Le16(f.channels) && b[14..16] == Le16(16);
  }

  /** One 16-bit PCM format at f, one data chunk at d, and any others around them. */
  ghost predicate IsClip(chunks: seq<Riff>, f: nat, d: nat, format: Pcm16, data: seq<Byte>) {
    && f < |chunks| && chunks[f] == Riff(FMT, FmtBody(format))
    && d < |chunks| && chunks[d] == Riff(DATA, data)
    && forall i :: 0 <= i < |chunks| && i != f && i != d ==> chunks[i].id != FMT && chunks[i].id != DATA
  }

  lemma ClipParsed(bytes: seq<Byte>, f: nat, d: nat, format: Pcm16, data: seq<Byte>)
    requires IsWave(bytes) && IsClip(ChunksFrom(bytes, 12), f, d, format, data)
    ensures Parsed(bytes) == Success(Clip(Samples16(data), format.rate, format.channels))
  {
    FmtReads(format);
    hide ChunksFrom, FmtBody, FormatOf, BitsOf, Collect;
    LastChunksDecide(bytes, f, d);
  }

  lemma AppendNone<T>(a: seq<T>)
    ensures a + [] == a
  {
  }

  lemma AssociatesLeft<T>(a: seq<T>, b: seq<T>, c: seq<T>)
    ensures a + (b + c) == a + b + c
  {
  }

  /** A file of chunks reads as those chunks, then whatever follows them. */
  lemma FileReads(riffSize: Sample, chunks: seq<Riff>, after: seq<Byte>)
    requires AllWritable(chunks)
    ensures var bytes := FileHead(riffSize) + WrittenAll(chunks) + after;
      IsWave(bytes) && ChunksFrom(bytes, 12) == chunks + ChunksFrom(bytes, 12 + |WrittenAll(chunks)|)
  {
    hide ChunksFrom, IsWave, FileHead;
    hide WrittenAll;
    ReadsWritten(FileHead(riffSize), chunks, after);
    HeadIsWave(riffSize, WrittenAll(chunks) + after);
    AssociatesLeft(FileHead(riffSize), WrittenAll(chunks), after);
  }

  lemma EndsWithin(bytes: seq<Byte>, pos: nat)
    ensures pos + HEADER > |bytes| ==> ChunksFrom(bytes, pos) == []
  {
  }

  /** A clip reads back exactly, with any other chunks before, between and after, odd sizes included,
      and with fewer than eight bytes left over. */
  lemma RoundTrip(riffSize: Sample, chunks: seq<Riff>, f: nat, d: nat, format: Pcm16, samples: seq<Int16>,
                  after: seq<Byte>)
    requires AllWritable(chunks) && IsClip(chunks, f, d, format, Bytes16(samples)) && |after| < HEADER
    ensures Parsed(FileHead(riffSize) + WrittenAll(chunks) + after)
         == Success(Clip(samples, format.rate, format.channels))
  {
    hide *;
    var bytes := FileHead(riffSize) + WrittenAll(chunks) + after;
    FileReads(riffSize, chunks, after);
    EndsWithin(bytes, 12 + |WrittenAll(chunks)|);
    AppendNone(chunks);
    AllSamples(samples);
    ClipParsed(bytes, f, d, format, Bytes16(samples));
  }

  lemma AllSamples(samples: seq<Int16>)
    ensures Samples16(Bytes16(samples)) == samples
  {
    Samples16Of(samples, 2 * |samples|);
    hide Samples16, Bytes16;
    assert Bytes16(samples)[..2 * |samples|] == Bytes16(samples) && samples[..|samples|] == samples;
  }

  /** A clip cut short inside its data still gives the samples that made it whole. */
  lemma CutClip(riffSize: Sample, chunks: seq<Riff>, f: nat, format: Pcm16, samples: seq<Int16>, n: nat)
    requires AllWritable(chunks) && n <= 2 * |samples| < 0x1_0000_0000
    requires IsClip(chunks + [Riff(DATA, Bytes16(samples)[..n])], f, |chunks|, format, Bytes16(samples)[..n])
    ensures Parsed(FileHead(riffSize) + WrittenAll(chunks) + (Head(DATA, 2 * |samples|) + Bytes16(samples)[..n]))
         == Success(Clip(samples[..n / 2], format.rate, format.channels))
  {
    hide FileHead, WrittenAll, Bytes16, Samples16, Parsed, IsClip, ChunksFrom, IsWave, Head, AllWritable;
    var (before, data) := (FileHead(riffSize) + WrittenAll(chunks), Bytes16(samples)[..n]);
    var after := Head(DATA, 2 * |samples|) + data;
    FileReads(riffSize, chunks, after);
    ReadsCut(before, DATA, 2 * |samples|, data);
    Samples16Of(samples, n);
    ClipParsed(before + after, f, |chunks|, format, data);
  }

  lemma ReadsCut(before: seq<Byte>, id: seq<Byte>, size: nat, body: seq<Byte>)
    requires |id| == 4 && |body| <= size < 0x1_0000_0000
    ensures ChunksFrom(before + (Head(id, size) + body), |before|) == [Riff(id, body)]
  {
    var bytes := before + (Head(id, size) + body);
    AssociatesLeft(before, Head(id, size), body);
    HeadReads(before, id, size, body);
    CutBody(before + Head(id, size), body);
    hide Head, SizeAt;
    LoneChunk(bytes, |before|);
  }

  lemma CutBody<T>(a: seq<T>, b: seq<T>)
    ensures (a + b)[|a|..|a + b|] == b
  {
  }

  lemma LoneChunk(bytes: seq<Byte>, pos: nat)
    requires pos + HEADER <= |bytes| <= pos + HEADER + SizeAt(bytes, pos)
    ensures ChunksFrom(bytes, pos) == [ChunkAt(bytes, pos)]
  {
    EndsWithin(bytes, Next(bytes, pos));
    hide ChunkAt, SizeAt;
  }

  const KNOWN_HEAD: seq<Byte> := [0x52, 0x49, 0x46, 0x46, 38, 0, 0, 0, 0x57, 0x41, 0x56, 0x45]

  /** A whole file, byte by byte: "RIFF", "WAVE", "fmt " with any rate and channel count, "data" with one
      sample. Numbers are little-endian and samples in two's complement. */
  lemma KnownFile(r: seq<Byte>, c: seq<Byte>, lo: Byte, hi: Byte)
    requires |r| == 4 && |c| == 2
    ensures Parsed(KNOWN_HEAD
                   + ([0x66, 0x6D, 0x74, 0x20, 16, 0, 0, 0] + ([1, 0] + c + r + [0, 0, 0, 0, 0, 0, 16, 0]))
                   + ([0x64, 0x61, 0x74, 0x61, 2, 0, 0, 0] + [lo, hi]))
      == Success(Clip(
           [if hi < 0x80 then lo + 256 * hi else lo + 256 * hi - 65536],
           (r[0] as int) + 256 * (r[1] as int) + 65536 * (r[2] as int) + 16777216 * (r[3] as int),
           (c[0] as int) + 256 * (c[1] as int)))
  {
    var fmt: seq<Byte> := [1, 0] + c + r + [0, 0, 0, 0, 0, 0, 16, 0];
    KnownFormat(c, r);
    KnownSample(lo, hi);
    KnownWave(fmt, [lo, hi]);
    hide *;
    KnownChunks(KNOWN_HEAD + ([0x66, 0x6D, 0x74, 0x20, 16, 0, 0, 0] + fmt)
                + ([0x64, 0x61, 0x74, 0x61, 2, 0, 0, 0] + [lo, hi]), fmt, [lo, hi]);
  }

  lemma KnownWave(fmt: seq<Byte>, data: seq<Byte>)
    requires |fmt| == 16 && |data| == 2
    ensures var bytes := KNOWN_HEAD + ([0x66, 0x6D, 0x74, 0x20, 16, 0, 0, 0] + fmt)
                         + ([0x64, 0x61, 0x74, 0x61, 2, 0, 0, 0] + data);
      IsWave(bytes) && ChunksFrom(bytes, 12) == [Riff(FMT, fmt), Riff(DATA, data)]
  {
    var chunks := [Riff(FMT, fmt), Riff(DATA, data)];
    KnownHeads(fmt, data);
    hide *;
    FileReads(38, chunks, []);
    AppendNone(FileHead(38) + WrittenAll(chunks));
    EndsWithin(FileHead(38) + WrittenAll(chunks), 12 + |WrittenAll(chunks)|);
    AppendNone(chunks);
    AssociatesLeft(FileHead(38), Written(chunks[0]), Written(chunks[1]));
  }

  lemma KnownHeads(fmt: seq<Byte>, data: seq<Byte>)
    requires |fmt| == 16 && |data| == 2
    ensures FileHead(38) == KNOWN_HEAD && |KNOWN_HEAD| == 12
    ensures AllWritable([Riff(FMT, fmt), Riff(DATA, data)])
    ensures var (a, b) := (Riff(FMT, fmt), Riff(DATA, data));
      && Written(a) == [0x66, 0x6D, 0x74, 0x20, 16, 0, 0, 0] + fmt
      && Written(b) == [0x64, 0x61, 0x74, 0x61, 2, 0, 0, 0] + data
      && WrittenAll([a, b]) == Written(a) + Written(b) && |WrittenAll([a, b])| == 34
  {
    var (a, b) := (Riff(FMT, fmt), Riff(DATA, data));
    assert Le(38) == [38, 0, 0, 0] && Le(16) == [16, 0, 0, 0] && Le(2) == [2, 0, 0, 0];
    assert [a, b][1..] == [b] && [b][1..] == [];
    assert WrittenAll([b]) == Written(b);
  }

  lemma KnownFormat(c: seq<Byte>, r: seq<Byte>)
    requires |r| == 4 && |c| == 2
    ensures var fmt: seq<Byte> := [1, 0] + c + r + [0, 0, 0, 0, 0, 0, 16, 0];
      |fmt| == 16 && BitsOf(fmt) == 16
      && FormatOf(fmt) == Format(1, (c[0] as int) + 256 * (c[1] as int),
           (r[0] as int) + 256 * (r[1] as int) + 65536 * (r[2] as int) + 16777216 * (r[3] as int))
  {
    var fmt: seq<Byte> := [1, 0] + c + r + [0, 0, 0, 0, 0, 0, 16, 0];
    assert fmt[4..8] == r;
  }

  lemma KnownSample(lo: Byte, hi: Byte)
    ensures Samples16([lo, hi]) == [if hi < 0x80 then lo + 256 * hi else lo + 256 * hi - 65536]
  {
    assert Samples16([lo, hi])[0] == SampleAt([lo, hi], 0);
  }

  lemma KnownChunks(bytes: seq<Byte>, fmt: seq<Byte>, data: seq<Byte>)
    requires |fmt| == 16 && IsWave(bytes) && ChunksFrom(bytes, 12) == [Riff(FMT, fmt), Riff(DATA, data)]
    requires FormatOf(fmt).tag == 1 && BitsOf(fmt) == 16
    ensures Parsed(bytes) == Success(Clip(Samples16(data), FormatOf(fmt).rate, FormatOf(fmt).channels))
  {
    hide Parsed, FormatOf, BitsOf, Samples16, ChunksFrom, IsWave;
    LastChunksDecide(bytes, 0, 1);
  }
}
