/** The byte pump that feeds the checkpoint files to the encoder, carrying a partial frame from one
    read, or one file, to the next. */
module FrameCarry {
  import opened Wrappers
  import opened Pcm

  datatype Outcome =
    | NoFiles
    | Failed(written: seq<Byte>)
    | Encoded(pcm: seq<Byte>)

  const READ_BUFFER := 0x10_0000

  /** One turn of the read loop: a read of about that many bytes and the write of its whole frames, or
      which of the two fails. A failed write may let any part out. */
  datatype Turn = Fine(bytes: nat) | ReadFails | WriteFails(part: nat)

  /** What can go wrong outside: the checkpoint directory is listed, the encoder starts, it takes its
      input turn by turn, it ends well. */
  datatype Outside = Outside(lists: bool, starts: bool, ends: bool, turns: nat -> Turn)

  ghost predicate Faultless(outside: Outside) {
    outside.lists && outside.starts && outside.ends && forall i :: outside.turns(i).Fine?
  }

  predicate FineTurns(turns: nat -> Turn, from: nat, to: nat) {
    forall i :: from <= i < to ==> turns(i).Fine?
  }

  function FrameBytes(channels: nat): (n: nat)
    ensures n > 0
  {
    4 * Max(channels, 1)
  }

  /** The longest whole number of frames within n bytes. */
  function WholeLen(n: nat, frame: nat): (k: nat)
    requires frame > 0
    ensures k <= n < k + frame && k % frame == 0
  {
    ModWhole(n, frame);
    n - n % frame
  }

  /** The longest prefix made of whole frames. */
  function WholeFrames(bytes: seq<Byte>, frame: nat): seq<Byte>
    requires frame > 0
  {
    bytes[..WholeLen(|bytes|, frame)]
  }

  lemma ModSum(a: nat, b: nat, m: nat)
    requires m > 0 && a % m == 0
    ensures (a + b) % m == b % m
  {
    var q := a / m;
    var r := b / m;
    assert a + b == m * (q + r) + b % m;
    assert (m * (q + r) + b % m) % m == b % m by {
      RemainderOf(q + r, b % m, m);
    }
  }

  lemma RemainderOf(q: nat, r: nat, m: nat)
    requires r < m
    ensures (m * q + r) % m == r
    decreases q
  {
    var x := m * q + r;
    assert x == m * (x / m) + x % m;
    MulUp(q + 1, x / m, m);
    MulUp(x / m + 1, q, m);
  }

  lemma MulUp(a: nat, b: nat, m: nat)
    ensures a <= b ==> m * a <= m * b
  {
  }

  /** Only whole frames were written, and less than a frame is carried. */
  predicate InStep(written: seq<Byte>, carry: seq<Byte>, frame: nat)
    requires frame > 0
  {
    |written| % frame == 0 && |carry| < frame
  }

  /** One read's bytes join the carry; its whole frames are written and drained. */
  method Feed(frame: nat, written: seq<Byte>, carry: seq<Byte>, bytes: seq<Byte>)
    returns (written': seq<Byte>, carry': seq<Byte>)
    requires frame > 0 && InStep(written, carry, frame)
    ensures InStep(written', carry', frame)
    ensures written' + carry' == written + carry + bytes
  {
    carry' := carry + bytes;
    var whole := WholeLen(|carry'|, frame);
    ModSum(|written|, whole, frame);
    written' := written + carry'[..whole];
    carry' := carry'[whole..];
    assert written' + carry' == written + (carry + bytes);
  }

  /** One file's read loop, from turn `turn` on. A read returns at least a byte before the end of the file
      and at most the buffer. It fails only when one of its turns does; a failing write needs something
      to write. */
  method PumpFile(file: seq<Byte>, frame: nat, written: seq<Byte>, carry: seq<Byte>, turns: nat -> Turn, turn: nat)
    returns (ok: bool, written': seq<Byte>, carry': seq<Byte>, turn': nat)
    requires frame > 0 && InStep(written, carry, frame)
    ensures ok ==> InStep(written', carry', frame) && written' + carry' == written + carry + file
    ensures !ok ==> written' <= written + carry + file
    ensures FineTurns(turns, turn, turn') ==> ok
    ensures ok ==> forall i :: turn <= i < turn' ==> !turns(i).ReadFails?
  {
    hide InStep;
    written', carry', turn' := written, carry, turn;
    var pos := 0;
    while true
      invariant pos <= |file| && turn <= turn' && FineTurns(turns, turn, turn')
      invariant written' + carry' == written + carry + file[..pos]
      invariant InStep(written', carry', frame)
      decreases |file| - pos
    {
      var now := turns(turn');
      turn' := turn' + 1;
      if now.ReadFails? {
        assert !turns(turn' - 1).Fine?;
        assert written' <= written' + carry';
        assert written + carry + file[..pos] <= written + carry + file;
        return false, written', carry', turn';
      }
      if pos == |file| {
        // End of file: nothing is read, so there is nothing to write.
        assert file[..pos] == file;
        return true, written', carry', turn';
      }
      var n := Min(Min(if now.Fine? then Max(now.bytes, 1) else READ_BUFFER, READ_BUFFER), |file| - pos);
      var bytes := file[pos..pos + n];
      ReadSoFar(file, pos, pos + n);
      if now.WriteFails? {
        assert !turns(turn' - 1).Fine?;
        var part := Min(now.part, |carry' + bytes|);
        PartOut(written', carry', bytes, part);
        return false, written' + (carry' + bytes)[..part], [], turn';
      }
      written', carry' := Feed(frame, written', carry', bytes);
      pos := pos + n;
    }
  }

  lemma ReadSoFar(file: seq<Byte>, pos: nat, next: nat)
    requires pos <= next <= |file|
    ensures file[..pos] + file[pos..next] == file[..next] <= file
    ensures file[..pos] + file[pos..] == file
  {
  }

  lemma PartOut(written: seq<Byte>, carry: seq<Byte>, bytes: seq<Byte>, part: nat)
    requires part <= |carry| + |bytes|
    ensures written + (carry + bytes)[..part] <= written + carry + bytes
  {
    assert written + carry + bytes == written + (carry + bytes);
  }

  /** Whatever sizes the reads return and however frames straddle files, the encoder receives exactly
      the whole frames of the files laid end to end; a failed read or write leaves some prefix of that
      behind. Nothing fails by itself. */
  method EncodePcmFiles(files: seq<seq<Byte>>, channels: nat, outside: Outside) returns (r: Outcome)
    ensures r.NoFiles? <==> files == []
    ensures r.Encoded? ==> r.pcm == WholeFrames(Flat(files), FrameBytes(channels))
    ensures r.Failed? ==> r.written <= Flat(files)
    ensures r.Failed? ==> !Faultless(outside)
    ensures r.Encoded? ==> outside.starts && outside.ends
  {
    if files == [] {
      return NoFiles;
    }
    var frame := FrameBytes(channels);
    if !outside.starts {
      return Failed([]);
    }
    var written: seq<Byte> := [];
    var carry: seq<Byte> := [];
    var turn := 0;
    for k := 0 to |files|
      invariant written + carry == Flat(files[..k])
      invariant InStep(written, carry, frame)
    {
      FlatSplit(files, k);
      var ok;
      ok, written, carry, turn := PumpFile(files[k], frame, written, carry, outside.turns, turn);
      if !ok {
        return Failed(written);
      }
    }
    assert files[..|files|] == files;
    ModSum(|written|, |carry|, frame);
    RemainderOf(0, |carry|, frame);
    if !outside.ends {
      return Failed(written);
    }
    return Encoded(written);
  }

  lemma ModWhole(n: nat, m: nat)
    requires m > 0
    ensures (n - n % m) % m == 0
  {
    assert n - n % m == m * (n / m) + 0;
    RemainderOf(n / m, 0, m);
  }

  /** In samples: what the encoder gets of a stream is its frames of one sample to a channel, and what is
      dropped is less than a frame. */
  lemma WholeFramesAreSamples(s: seq<Sample>, channels: nat)
    requires channels > 0
    ensures WholeFrames(LeBytes(s), FrameBytes(channels)) == LeBytes(s[..|s| - |s| % channels])
  {
    hide LeBytes, WholeLen;
    var n := |s| - |s| % channels;
    WholeOfFour(|s|, channels);
    LeBytesPrefix(s, n);
  }

  lemma LeBytesPrefix(s: seq<Sample>, n: nat)
    requires n <= |s|
    ensures LeBytes(s)[..4 * n] == LeBytes(s[..n])
  {
    hide LeBytes;
    var (a, b) := (s[..n], s[n..]);
    assert s == a + b;
    LeBytesAppend(a, b);
    TakeFirst(LeBytes(a), LeBytes(b), 4 * n);
  }

  lemma TakeFirst(a: seq<Byte>, b: seq<Byte>, n: nat)
    requires n == |a|
    ensures (a + b)[..n] == a
  {
  }

  lemma WholeOfFour(n: nat, channels: nat)
    requires channels > 0
    ensures WholeLen(4 * n, 4 * channels) == 4 * (n - n % channels)
  {
    var q := n / channels;
    assert n == channels * q + n % channels;
    RemainderOf(q, 4 * (n % channels), 4 * channels);
    assert 4 * n == 4 * channels * q + 4 * (n % channels);
  }
}
