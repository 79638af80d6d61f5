/** The incremental saver: 30-second raw PCM checkpoints, finalisation, and recovery after a crash. */
module Checkpoints {
  import opened Wrappers
  import opened Pcm
  import opened CheckpointNames
  import FrameCarry

  /** How one checkpoint write ends. A failed write may leave any part of the temporary file. */
  datatype WriteOutcome = Written | WriteFailed(partial: seq<Byte>) | RenameFailed

  datatype Final = SaveFailed | NoCheckpoints | EncodeFailed | Finished(pcm: seq<Byte>)

  /** The checkpoint files of `dir` are exactly `saved`, by index. */
  ghost predicate OnDisk(dir: Directory, saved: seq<seq<Sample>>) {
    && (forall i :: 0 <= i < |saved| ==> Name(i) in dir && dir[Name(i)] == LeBytes(saved[i]))
    && (forall f :: f in dir && IsCheckpoint(f) ==> exists i :: 0 <= i < |saved| && f == Name(i))
  }

  lemma PartKeepsOnDisk(dir: Directory, saved: seq<seq<Sample>>, index: nat, partial: seq<Byte>)
    requires OnDisk(dir, saved)
    ensures OnDisk(dir[PartName(index) := partial], saved)
    ensures OnDisk(dir - {PartName(index)}, saved)
  {
    PartIsNoCheckpoint(index);
    forall i | 0 <= i < |saved|
      ensures Name(i) != PartName(index)
    {
      NameIsCheckpoint(i);
    }
  }

  lemma SavingKeepsOnDisk(dir: Directory, saved: seq<seq<Sample>>, chunk: seq<Sample>)
    requires OnDisk(dir, saved)
    ensures OnDisk(dir[Name(|saved|) := LeBytes(chunk)], saved + [chunk])
  {
    var d := dir[Name(|saved|) := LeBytes(chunk)];
    var all := saved + [chunk];
    forall i | 0 <= i < |all|
      ensures Name(i) in d && d[Name(i)] == LeBytes(all[i])
    {
      NamesDistinct(i, |saved|);
    }
    forall f | f in d && IsCheckpoint(f)
      ensures exists i :: 0 <= i < |all| && f == Name(i)
    {
      if f == Name(|saved|) {
        assert |saved| < |all|;
      } else {
        var i :| 0 <= i < |saved| && f == Name(i);
        assert i < |all|;
      }
    }
  }

  predicate AtLeast(saved: seq<seq<Sample>>, n: nat) {
    forall i :: 0 <= i < |saved| ==> |saved[i]| >= n
  }

  lemma {:induction false} AtLeastLength(saved: seq<seq<Sample>>, n: nat)
    requires AtLeast(saved, n)
    ensures |saved| * n <= |Flat(saved)|
  {
    if saved != [] {
      var k := |saved| - 1;
      FlatOne(saved[..k], saved[k]);
      assert saved[..k] + [saved[k]] == saved;
      AtLeastLength(saved[..k], n);
      assert |saved| * n == k * n + n;
    }
  }

  /** Checkpoints of 30 seconds and more, then perhaps a last shorter one: 1000 at most in 30000 seconds. */
  lemma FewCheckpoints(saved: seq<seq<Sample>>, rest: seq<Sample>, n: nat)
    requires AtLeast(saved, n) && n > 0 && |Flat(saved)| + |rest| <= 1000 * n
    ensures |saved| + (if rest == [] then 0 else 1) <= 1000
  {
    AtLeastLength(saved, n);
    assert |saved| * n <= 1000 * n - |rest|;
    hide Flat, AtLeast;
    assert |saved| * n == 1000 * n + (|saved| - 1000) * n;
  }

  class IncrementalAudioSaver {
    const sampleRate: nat
    const channels: nat
    const interval: nat
    var checkpointBuffer: seq<seq<Sample>>
    var checkpointCount: nat
    var dir: Directory

    // Everything handed over, and what has become a checkpoint.
    ghost var added: seq<Sample>
    ghost var saved: seq<seq<Sample>>

    constructor (sampleRate: nat, channels: nat, sidecar: seq<Byte>)
      ensures Valid() && AllFull() && added == [] && saved == [] && Pending() == []
      ensures interval == sampleRate * 30 * channels && this.channels == channels
    {
      this.sampleRate, this.channels := sampleRate, channels;
      interval := sampleRate * 30 * channels;
      checkpointBuffer, checkpointCount := [], 0;
      dir := map["format.json" := sidecar];
      added, saved := [], [];
      new;
      assert !IsCheckpoint("format.json");
    }

    ghost function Pending(): seq<Sample>
      reads this
    {
      Flat(checkpointBuffer)
    }

    /** Nothing is lost or duplicated: the checkpoints in index order, then the buffer. */
    ghost predicate Valid()
      reads this
    {
      && checkpointCount == |saved|
      && OnDisk(dir, saved) && [] !in saved
      && Flat(saved) + Pending() == added
    }

    /** Every checkpoint lasts 30 seconds or more. */
    ghost predicate AllFull()
      reads this
    {
      AtLeast(saved, interval)
    }

    method Save(outcome: WriteOutcome) returns (ok: bool)
      requires Valid()
      modifies this`checkpointCount, this`dir, this`saved
      ensures checkpointCount == |saved| && OnDisk(dir, saved) && [] !in saved
      ensures ok <==> outcome.Written? || Pending() == []
      ensures saved == if ok && Pending() != [] then old(saved) + [Pending()] else old(saved)
    {
      var audio := Flat(checkpointBuffer);
      if audio == [] {
        return true;
      }
      var part := PartName(checkpointCount);
      match outcome {
        case WriteFailed(partial) =>
          PartKeepsOnDisk(dir, saved, checkpointCount, partial);
          dir := dir[part := partial];
          return false;
        case RenameFailed =>
          PartKeepsOnDisk(dir, saved, checkpointCount, LeBytes(audio));
          dir := dir[part := LeBytes(audio)];
          return false;
        case Written =>
          PartKeepsOnDisk(dir, saved, checkpointCount, []);
          SavingKeepsOnDisk(dir - {part}, saved, audio);
          dir := (dir - {part})[Name(checkpointCount) := LeBytes(audio)];
          saved := saved + [audio];
          checkpointCount := checkpointCount + 1;
          return true;
      }
    }

    /** Save, and only then clear the buffer. */
    method SaveAndClear(outcome: WriteOutcome) returns (ok: bool)
      requires Valid()
      modifies this`checkpointBuffer, this`checkpointCount, this`dir, this`saved
      ensures Valid() && old(saved) <= saved
      ensures saved == old(saved) || (old(Pending()) != [] && saved == old(saved) + [old(Pending())])
      ensures ok ==> Pending() == [] && Flat(saved) == added
      ensures !ok ==> saved == old(saved)
      ensures ok <==> outcome.Written? || old(Pending()) == []
    {
      hide OnDisk;
      ghost var (was, pending) := (saved, Pending());
      FlatOne(was, pending);
      ok := Save(outcome);
      if ok {
        checkpointBuffer := [];
        assert Flat(was) + pending == Flat(saved) + [];
      }
    }

    /** Buffer a chunk; at 30 seconds write a checkpoint. A failed write keeps the audio for the next
        attempt, and while no write fails less than 30 seconds are ever only in memory. No checkpoint is
        shorter than 30 seconds. */
    method AddChunk(chunk: seq<Sample>, outcome: WriteOutcome) returns (ok: bool)
      requires Valid()
      modifies this`checkpointBuffer, this`checkpointCount, this`dir, this`added, this`saved
      ensures Valid() && added == old(added) + chunk
      ensures old(saved) <= saved
      ensures !ok ==> saved == old(saved)
      ensures outcome.Written? ==> ok
      ensures ok && interval > 0 ==> |Pending()| < interval
      ensures old(AllFull()) ==> AllFull()
    {
      hide OnDisk;
      FlatOne(checkpointBuffer, chunk);
      checkpointBuffer := checkpointBuffer + [chunk];
      added := added + chunk;
      var total := |Flat(checkpointBuffer)|;
      ok := true;
      if total >= interval {
        ok := SaveAndClear(outcome);
      }
    }

    /** Save the rest, encode everything. It fails only when the write of the last checkpoint does, when
        nothing was ever added, or when something outside fails. */
    method Finalize(outcome: WriteOutcome, outside: FrameCarry.Outside) returns (r: Final)
      requires Valid()
      modifies this`checkpointBuffer, this`checkpointCount, this`dir, this`saved
      ensures added == old(added) && old(saved) <= saved
      ensures r.Finished? || Valid()
      ensures r.SaveFailed? ==> saved == old(saved)
      ensures r.SaveFailed? <==> old(Pending()) != [] && !outcome.Written?
      ensures r.NoCheckpoints? <==> added == []
      ensures r.EncodeFailed? ==> !FrameCarry.Faultless(outside)
      ensures checkpointCount == |saved|
      ensures r.Finished? ==> Flat(saved) == added
      ensures old(AllFull()) && interval > 0 && |added| <= 1000 * interval ==> |saved| <= 1000
      ensures r.Finished? && |saved| <= 1000 ==>
        r.pcm == FrameCarry.WholeFrames(LeBytes(added), FrameCarry.FrameBytes(channels))
    {
      hide OnDisk, AtLeast;
      if AllFull() && interval > 0 && |added| <= 1000 * interval {
        FewCheckpoints(saved, Pending(), interval);
      }
      if checkpointBuffer != [] {
        var ok := SaveAndClear(outcome);
        if !ok {
          return SaveFailed;
        }
      }
      if checkpointCount == 0 {
        return NoCheckpoints;
      }
      FlatNonEmpty(saved);
      var encoded := EncodeCheckpoints(dir, channels, outside, saved);
      if encoded.Encoded? {
        // The checkpoint directory is removed, or left behind if that fails.
        if * {
          dir := map[];
        }
        return Finished(encoded.pcm);
      }
      return EncodeFailed;
    }
  }

  lemma FlatNonEmpty(saved: seq<seq<Sample>>)
    requires saved != [] && [] !in saved
    ensures Flat(saved) != []
  {
    assert saved[0] in saved;
  }

  function Contents(dir: Directory, files: seq<string>): seq<seq<Byte>>
    requires forall f :: f in files ==> f in dir
  {
    seq(|files|, i requires 0 <= i < |files| => dir[files[i]])
  }

  /** The files laid end to end in chunk order are the audio itself. */
  lemma {:induction false} ContentsAreAudio(dir: Directory, saved: seq<seq<Sample>>, k: nat)
    requires OnDisk(dir, saved) && k <= |saved|
    ensures Flat(Contents(dir, Names(k))) == LeBytes(Flat(saved[..k]))
  {
    hide LeBytes, Name;
    if k > 0 {
      ContentsAreAudio(dir, saved, k - 1);
      FlatOne(Contents(dir, Names(k - 1)), dir[Name(k - 1)]);
      assert Contents(dir, Names(k)) == Contents(dir, Names(k - 1)) + [dir[Name(k - 1)]];
      FlatOne(saved[..k - 1], saved[k - 1]);
      assert saved[..k] == saved[..k - 1] + [saved[k - 1]];
      LeBytesAppend(Flat(saved[..k - 1]), saved[k - 1]);
    }
  }

  lemma ListingIsChunkOrder(dir: Directory, saved: seq<seq<Sample>>, files: seq<string>)
    requires OnDisk(dir, saved) && IsListing(files, dir) && |saved| <= 1000
    ensures files == Names(|saved|)
  {
    LexicalIsChunkOrderIff(|saved|);
    forall f
      ensures f in files <==> f in Names(|saved|)
    {
      if f in Names(|saved|) {
        var i :| 0 <= i < |saved| && f == Names(|saved|)[i];
        NameIsCheckpoint(i);
        assert Name(i) in dir;
      }
      if f in files {
        var i :| 0 <= i < |saved| && f == Name(i);
        assert Names(|saved|)[i] == f;
      }
    }
    ListingUnique(files, Names(|saved|));
  }

  /** List, concatenate, encode: used at finalisation and by crash recovery alike. For up to 1000
      checkpoints the encoder gets exactly the whole frames of the checkpointed audio, in order. */
  method EncodeCheckpoints(dir: Directory, channels: nat, outside: FrameCarry.Outside, ghost saved: seq<seq<Sample>>)
    returns (r: FrameCarry.Outcome)
    requires OnDisk(dir, saved)
    ensures outside.lists ==> (r.NoFiles? <==> saved == [])
    ensures r.Failed? ==> !FrameCarry.Faultless(outside)
    ensures r.Encoded? ==> outside.lists && outside.starts && outside.ends
    ensures r.Encoded? && |saved| <= 1000 ==>
      r.pcm == FrameCarry.WholeFrames(LeBytes(Flat(saved)), FrameCarry.FrameBytes(channels))
  {
    if !outside.lists {
      return FrameCarry.Failed([]);
    }
    var files := ListCheckpointFiles(dir);
    if saved != [] {
      NameIsCheckpoint(0);
      assert Name(0) in files;
    }
    if |saved| <= 1000 {
      ListingIsChunkOrder(dir, saved, files);
      ContentsAreAudio(dir, saved, |saved|);
      assert saved[..|saved|] == saved;
    }
    r := FrameCarry.EncodePcmFiles(Contents(dir, files), channels, outside);
  }
}
