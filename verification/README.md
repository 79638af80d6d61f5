# Recording core: a verified model

This project models, in Dafny, the parts of a meeting recorder where a mistake silently loses or
misplaces what people said, and proves for all inputs, all interleavings and all crash points what those
parts guarantee. `dafny verify dfyconfig.toml` checks everything.

**Two-source mixer** (`MixerClock`, `SourceTrack`, `MixerRun`, `MixerFlush`, `MixerRing`). Microphone and
system audio arrive in separate chunks and are cut into common windows. `MixerRing` holds the program's
own mutable objects; every method is proved equal to an operation on tracks, values that carry the
program's fields beside a ghost history: all that was received, what was emitted, what was given up on,
what the safety cap dropped. `SourceTrack.Accounted` ties them together and every run keeps it. From it
follow where each sample lands, when nothing is ever given up on (an if-and-only-if over the arrivals
alone), and when the shutdown flush is right.

**Persistence chain** (`Pcm`, `FrameCarry`, `Decimals`, `CheckpointNames`, `Checkpoints`, `Stereo`, `Session`).
Stereo windows become 30-second checkpoints and finally the bytes the encoder reads. `Session.RecordMeeting`
composes mixer, interleave, checkpoints, listing and byte pump into one end-to-end statement about both
channels.

**Transcript** (`Transcript`, `Upserts`, `Journal`, `JournalCrash`, `JournalDurable`, `StopFlow`, `StopOrder`,
`StopService`). The upserted segment vector, the journal replay, crash recovery as a step system with a
crash possible after any step, what a successful append is worth, and the stop flow that moves the manager
in and out of its slot while segments keep arriving.

**Streaming generation** (`Utf8`, `Generation`, `PrefixPromise`). The incremental stop-token scan against a
full rescan, and what may be streamed before the text is final, on UTF-8 bytes.

**Transformations and small protocols** (`LevelMonitor`, `LikeSearch`, `SilenceSplit`, `ChunkedResample`,
`WavParse`).

Some statements one would expect are false of the code. Each has its exact condition and a concrete input:

- The flush puts every leftover into one window at offset 0. That is right exactly when a source's
  leftovers start at the cursor and fit one window (`MixerFlush.FlushFaithfulIff`; from the arrivals, for
  a source never given up on, `MixerFlush.FlushInPlaceIff`), and always for a recording of one source
  (`MixerFlush.SingleSourceFlushed`); it drops a window in `MixerFlush.FlushDropsSecondWindow`.
- The comment in `list_checkpoint_files` says lexical order is chunk order. It is exactly up to 1000
  checkpoints (`CheckpointNames.LexicalIsChunkOrderIff`, counterexample `CheckpointNames.PaddingRunsOut`).
- `llama-protocol/src/lib.rs:38-42` promises that streamed text is a prefix of the final text. It is a
  prefix of the text before trimming; of the returned text, however the model's tokens cut it, exactly for
  the texts of `PrefixPromise.PromiseIff`, among them all with at most one byte to trim
  (`PrefixPromise.ShortTailKeepsPromise`; counterexamples `PrefixPromise.TwoSpacesBreakPromise`,
  `Generation.StreamedSpacesVanish`). An empty stop token makes the tail scan differ from a rescan
  (`Generation.EmptyStopAgreesIff`, `Generation.EmptyStopDiffers`).
- A segment published between the replay of the pending buffer and the return of the manager waits for
  another replay: in this session if the stop failed, where it may overwrite a newer version
  (`StopOrder.StaleOverwrites`), else in the next session's transcript (`StopFlow.PlainStopOutcome`).
  `StopOrder.SavesAllIff` says exactly when the final save is what was published.
- Memory and the replayed journal hold the same segments exactly when all updates without a sequence id
  share one id (`Journal.ReplaysSameSegmentsIff`, counterexample `Journal.UnnumberedDiverge`).
- Recovery reads the journal as one UTF-8 text. An append that breaks off inside a character makes every
  later load fail while the journal is there, transcripts.json included; no other crash or failed append
  does (`JournalCrash.EveryRunLoadsIff`, `JournalCrash.TornCharacterBlocksLoad`). The doc comment of
  `replay_transcript_journal` promises that a torn line is skipped without failing the replay.
- A segment that only transcripts.json has survives a crash exactly while no append has touched the
  journal since that file was written (`JournalCrash.JsonOnlySurvivesIff`); one more journal line may lose it
  (`JournalCrash.JsonOnlySegmentLost`).
- A stop that is slow to reach the lock removes a newer monitoring session. A session is safe exactly when
  no stop is under way when it is installed (`LevelMonitor.SafeIff`, counterexample
  `LevelMonitor.DelayedStopRemovesNewer`).
- The comment in `make_snippet` says multi-byte text cannot panic the slice. It can, when lower-casing
  changes the length of a character (`LikeSearch.SnippetPanicsIff`, counterexample
  `LikeSearch.SnippetPanics`).
- The doc comment of `split_segment_at_silence` speaks of overlapping pieces; the code cuts a second
  later but never overlaps (`SilenceSplit.SplitIsPartition`).
- The doc comment of `chunked_resample_with_progress` says it falls back to a single pass when a chunk
  fails; the code returns that chunk's error (`ChunkedResample.FirstFailureWins`).

## Model

| member | source | states |
|---|---|---|
| MixerClock.StepShrinksLead | meetily-core/src/audio/pipeline.rs:255-288 | a window is cut only while a source leads the cursor, and takes a whole window off the lead: the drain loop ends |
| MixerClock.StepKeepsInv | meetily-core/src/audio/pipeline.rs:335-343 | the cursor invariant (discard mark at most the cursor, unseen and lagging sources discard up to it) survives every cut |
| MixerClock.ArriveKeepsInv | meetily-core/src/audio/pipeline.rs:167-220 | the same for every arrival |
| MixerClock.AtMostOneGap | meetily-core/src/audio/pipeline.rs:255-288 | one window never gives up on both sources |
| MixerClock.DrainBound | meetily-core/src/audio/pipeline.rs:755-767 | when the drain stops, neither source leads the cursor by more than the lag |
| MixerClock.NeverGivenUpIff | meetily-core/src/audio/pipeline.rs:255-288 | a two-source run never gives up on a source if and only if after every arrival its peer's own stream is within the lag of the source's last whole window, said of the arrivals alone and whatever becomes of the peer |
| MixerClock.NeverGivesUpIff | meetily-core/src/audio/pipeline.rs:255-288 | and gives up on nobody if and only if the leading stream always is within the lag of the trailing one's last whole window |
| MixerClock.RunSparedCursor | meetily-core/src/audio/pipeline.rs:755-767 | over a run that never gives up on a source, whatever becomes of its peer, the cursor stands at the later of the last window boundary both streams have passed and the first one within the lag of the source, said of the arrivals alone |
| MixerClock.RunCursor | meetily-core/src/audio/pipeline.rs:755-767 | over a run that gives up on nobody that is the trailing stream's last whole window |
| MixerClock.SingleSourceNeverGaps | meetily-core/src/audio/pipeline.rs:240-248 | with at most one source present nothing is ever given up on |
| MixerClock.EmptyWindowNeverEnds | meetily-core/src/audio/pipeline.rs:255-288 | with an empty window every plan cuts and none advances, so the drain loop would not end |
| SourceTrack.HeardAccounted | meetily-core/src/audio/pipeline.rs:165-235 | ingesting a chunk (anchor, late discard, cap) keeps every sample accounted for |
| SourceTrack.TakenAccounted | meetily-core/src/audio/pipeline.rs:294-333 | taking a window, given up on or covered, keeps every sample accounted for |
| SourceTrack.TrimmedKeepsNewest | meetily-core/src/audio/pipeline.rs:221-234 | the cap keeps the newest samples, exactly as many as fit, and drops none while all do |
| MixerRun.EveryRunAccounted | meetily-core/src/audio/pipeline.rs:167-343 | over every recording (any chunks in any order, each followed by the drain), each position before the cursor was emitted with the very sample that belongs there, or silence where the source had none, was given up on or lost to the cap; all later samples are still buffered or lost to the cap |
| MixerRun.EveryInterleavingAccounted | meetily-core/src/audio/pipeline.rs:116-343 | the same for any sequence of single adds and single extractions |
| MixerRun.EveryBufferWithinCap | meetily-core/src/audio/pipeline.rs:221-234 | in any such sequence no buffer ever holds more than the cap |
| MixerRun.NoRealignNoPad | meetily-core/src/audio/pipeline.rs:294-333 | before the flush a covered window never needs the realignment past a stale head or the trailing zero-fill |
| MixerRun.CapNeverDrops | meetily-core/src/audio/pipeline.rs:221-234 | with no chunk longer than cap minus lag the cap never drops a sample in any run |
| MixerRun.StreamIsSent | meetily-core/src/audio/pipeline.rs:167-220 | in every run a present source's stream is all it sent, in order |
| MixerRun.AnchorIsHeadStart | meetily-core/src/audio/pipeline.rs:167-220 | a source that is not given up on lands its first sample after exactly as many samples as its peer had sent |
| MixerRun.EmittedIsTimeline | meetily-core/src/audio/pipeline.rs:335-343 | as long as a source itself is not given up on, whatever becomes of its peer, what is emitted at p is the sample it sent for p, or silence where it sent none or the cap dropped it |
| MixerFlush.FlushFaithfulIff | meetily-core/src/audio/pipeline.rs:355-363 | the last window puts leftovers where they belong, whatever they are, if and only if they start at the cursor and fit a window |
| MixerFlush.FlushInPlaceIff | meetily-core/src/audio/pipeline.rs:355-363 | for a source that was never given up on, in any run with chunks of any length, that holds if and only if, in the arrivals alone, the source reaches no further than the last cut, or was first heard by then and reaches at most a window further |
| MixerFlush.FlushEmpties | meetily-core/src/audio/pipeline.rs:349-367 | the flush leaves both buffers empty and moves the cursor a window past the drained one if and only if anything was left |
| MixerFlush.FlushedIsTimeline | meetily-core/src/audio/pipeline.rs:349-367 | after the flush every position of a source never given up on holds the sample it sent for it, or silence where it sent none or the cap dropped it, the last window included when its leftovers are in place |
| MixerFlush.FlushDropsSecondWindow | meetily-core/src/audio/pipeline.rs:355-363 | a recording whose flush drops a whole window: two windows of mic audio while the system is silent |
| MixerFlush.SingleSourceFlushed | meetily-core/src/audio/pipeline.rs:349-367 | a one-source recording comes out whole, then less than a window of silence, and the other channel is silent |
| MixerFlush.FlushedWhole | meetily-core/src/audio/pipeline.rs:349-367 | every finished recording is whole windows of both sources, equally many |
| MixerFlush.FlushTwice | meetily-core/src/audio/pipeline.rs:349-367 | a second flush changes nothing |
| MixerRing.SourceState.Ingest | meetily-core/src/audio/pipeline.rs:167-235 | the in-place update is the track operation, for every buffer, anchor and cap case |
| MixerRing.SourceState.TakeWindow | meetily-core/src/audio/pipeline.rs:294-333 | returns exactly one window, records it as emitted and leaves the track operation's state |
| MixerRing.LimitsInTime | meetily-core/src/audio/pipeline.rs:63-88 | windows are 50 ms, the cap is 4.8 s and the patience 500 ms, in whole samples rounded down |
| MixerRing.AudioMixerRingBuffer.constructor | meetily-core/src/audio/pipeline.rs:63-106 | a fresh mixer with the limits of the sample rate |
| MixerRing.AudioMixerRingBuffer.SetExpectedSources | meetily-core/src/audio/pipeline.rs:111-114 | changes the presence of the sources and nothing else |
| MixerRing.AudioMixerRingBuffer.AddSamples | meetily-core/src/audio/pipeline.rs:116-159 | the mixer after it is the run's Added step |
| MixerRing.AudioMixerRingBuffer.PlanWindow | meetily-core/src/audio/pipeline.rs:255-288 | the early-return decision equals the symmetric rule of the clock |
| MixerRing.AudioMixerRingBuffer.ExtractWindow | meetily-core/src/audio/pipeline.rs:335-343 | cuts a window exactly when the plan allows, and both halves are what the histories record |
| MixerRing.AudioMixerRingBuffer.DrainAll | meetily-core/src/audio/pipeline.rs:349-354 | the drain loop ends, cuts exactly the resolved windows and returns what was emitted |
| MixerRing.AudioMixerRingBuffer.FlushFinal | meetily-core/src/audio/pipeline.rs:349-367 | drains, then forces out the rest; the windows returned are exactly what was emitted |
| FrameCarry.PumpFile | meetily-core/src/audio/encode.rs:141-159 | whatever the reads return, whole frames go out and less than a frame is carried; it fails only if a read or write does |
| FrameCarry.EncodePcmFiles | meetily-core/src/audio/encode.rs:122-165 | the encoder gets the longest whole-frame prefix of the concatenated files; a failed read or write leaves some prefix of them, and nothing else fails |
| FrameCarry.WholeFramesAreSamples | meetily-core/src/audio/encode.rs:116-120 | in samples: whole frames of one sample to a channel, and less than a frame is dropped |
| Pcm.LeWeights | meetily-core/src/audio/incremental_saver.rs:202-206 | byte k of a sample has weight 256 to the k |
| CheckpointNames.NamesDistinct | meetily-core/src/audio/incremental_saver.rs:197-200 | no checkpoint name is used twice, at any index |
| CheckpointNames.NamesOnDisk | meetily-core/src/audio/incremental_saver.rs:197-207 | the names, digit by digit, and those of the part files |
| CheckpointNames.IsCheckpointIff | meetily-core/src/audio/incremental_saver.rs:67-78 | a file is listed if and only if its name is the stem, anything, and the extension |
| CheckpointNames.LexicalIsChunkOrderIff | meetily-core/src/audio/incremental_saver.rs:79-80 | names sort in chunk order if and only if there are at most 1000 |
| CheckpointNames.ListCheckpointFiles | meetily-core/src/audio/incremental_saver.rs:67-83 | exactly the checkpoint files, sorted, part files left out |
| Checkpoints.IncrementalAudioSaver.AddChunk | meetily-core/src/audio/incremental_saver.rs:161-180 | checkpoints in index order then the buffer are all samples added, even when the write fails; otherwise less than 30 s are only in memory; no checkpoint is shorter than 30 s |
| Checkpoints.IncrementalAudioSaver.Save | meetily-core/src/audio/incremental_saver.rs:182-223 | a checkpoint appears under its final name complete or not at all |
| Checkpoints.IncrementalAudioSaver.Finalize | meetily-core/src/audio/incremental_saver.rs:228-261 | a finished recording of at most 1000 checkpoints, which 30000 s never exceed, is the whole frames of everything added; it fails to save if and only if the last write does, has no checkpoints if and only if nothing was added, fails to encode only if something outside fails, and each failure leaves the audio in place |
| Checkpoints.EncodeCheckpoints | meetily-core/src/audio/incremental_saver.rs:265-300 | listing and concatenating at most 1000 checkpoints gives their audio in order, and fails only if something outside does |
| Checkpoints.ListingIsChunkOrder | meetily-core/src/audio/incremental_saver.rs:67-83 | any sorted listing of at most 1000 saved checkpoints is their chunk order |
| Session.Interleave | meetily-core/src/audio/pipeline.rs:831-848 | mic left, system right, the shorter one padded with silence |
| Session.AudioPipeline.ProcessWindow | meetily-core/src/audio/pipeline.rs:795-848 | a window becomes one stereo chunk: left the processed mic padded with silence, right the system half |
| Session.AudioPipeline.Receive | meetily-core/src/audio/pipeline.rs:755-767 | adding and draining is one round of the run, and what was sent stays all windows emitted, enhanced mic left and system right |
| Session.AudioPipeline.FlushRemaining | meetily-core/src/audio/pipeline.rs:852-880 | the flushed windows extend both channels the same way |
| Session.RecordMeeting | meetily-core/src/audio/pipeline.rs:698-782 | end to end: for any arrivals, mic processing and failing writes, a finished recording of up to 30000 s, or of at most 1000 checkpoints, has the mixer's system windows as the right channel of the encoder's input and its enhanced mic windows as the left one; with no failing write and nothing failing outside it finishes, unless there is no audio |
| Stereo.LeftAt | meetily-core/src/audio/pipeline.rs:803-818 | window k of the left channel is what the processing made of it from the windows up to it, padded with silence |
| Stereo.WindowsOfParts | meetily-core/src/audio/pipeline.rs:335-343 | the windows are determined by what was emitted for the two sources |
| Session.PlainLeftIsMic | meetily-core/src/audio/pipeline.rs:803-818 | with all mic processing switched off the left channel is all the mixer emits for the microphone |
| Session.LeftIsMicTimeline | meetily-core/src/audio/pipeline.rs:335-367 | and frame f of it is the mic sample for position f while the microphone is not given up on, in the last window too when its leftovers are in place |
| Session.RightIsSystemTimeline | meetily-core/src/audio/pipeline.rs:335-367 | as long as the system stream itself is not given up on, frame f of that channel is the system sample for position f, 0 before the anchor and where the cap dropped it, even if the microphone is late, muted or gone; in the last window that takes leftovers that are in place |
| Session.RightWhileMicKeepsBack | meetily-core/src/audio/pipeline.rs:335-367 | so it is, with nothing dropped, while after every arrival the microphone is within the lag of the system stream's last whole window, and to the very end if the system stream fits the last window |
| Session.SystemOnlyIsWhole | meetily-core/src/audio/pipeline.rs:349-367 | a system-only recording is the whole stream and less than a window of silence |
| Transcript.UpsertAllHolds | meetily-core/src/audio/recording_saver.rs:109-138 | the vector holds the last version of every segment added, each once |
| Transcript.SortSorts | meetily-core/src/audio/common.rs:188-202 | the sort is a permutation in the comparator's order |
| Transcript.SortOrders | meetily-core/src/audio/common.rs:188-202 | on the fields: starts do not decrease, at equal starts sequence ids do not, and what has no start or no id comes last |
| Transcript.SortIsStable | meetily-core/src/audio/common.rs:188-202 | segments that agree in both keep the order they came in |
| Transcript.SortIgnoresOrder | meetily-core/src/audio/common.rs:188-202 | on distinct sequence ids the result does not depend on the order of the input |
| Journal.ReplayKeyIff | meetily-core/src/audio/common.rs:241-246 | two lines share a key if and only if their sequence ids agree or, without any, their ids do |
| Journal.ByKeyIsLatestIff | meetily-core/src/audio/common.rs:241-281 | the journal's last lines are the versions memory keeps if and only if all updates without a sequence id share one id |
| Journal.ReplaysSameSegmentsIff | meetily-core/src/audio/common.rs:256-281 | the replay holds the same segments as the in-memory vector if and only if that is so |
| Journal.ReplayIsUpsert | meetily-core/src/audio/common.rs:256-281 | and then, whatever order the hash map yields, the sorted replay is the sorted vector, unless an id-less segment ties with sequence id u64::MAX |
| Journal.ReplayJournal | meetily-core/src/audio/common.rs:256-281 | the loop returns that, skipping lines that do not parse, and fails if and only if the file is no UTF-8 text |
| JournalCrash.LoadTranscripts | meetily-core/src/audio/common.rs:301-351 | the reader, hash-map replay and guard included, fails exactly on a corrupt JSON file or a journal that is no UTF-8 text, and otherwise returns the sorted last lines per key or the JSON file as the guard decides; on journals of the shape below that is what the statements below call the load |
| JournalCrash.ReaderApplies | meetily-core/src/audio/common.rs:301-351 | after every run the journal has that shape |
| Journal.RecordingSaver.AddTranscriptSegment | meetily-core/src/audio/recording_saver.rs:109-160 | replaces the segment with the same sequence id in place or appends, and queues the segment for the journal |
| Journal.UnnumberedDiverge | meetily-core/src/audio/common.rs:241-246 | two updates without a sequence id but with different ids: one segment in memory, two in the journal |
| JournalCrash.RunKeepsInv | meetily-core/src/audio/recording_saver.rs:363-433 | every run of publish, enqueue, append, rebuild and final write keeps the files consistent with the published history |
| JournalCrash.EveryRunLoadsIff | meetily-core/src/audio/common.rs:256-258 | while the journal exists, loading succeeds if and only if no append broke off inside a character |
| JournalCrash.EveryRunCrashSafe | meetily-core/src/audio/common.rs:301-351 | after any other run, torn appends and failed rebuilds included, loading returns for every journal line that can be read a version at least as new |
| JournalCrash.EveryRunFinal | meetily-core/src/audio/recording_saver.rs:668-715 | after the final write loading returns exactly the sorted memory minus `source`, with the journal removed or left behind readable |
| JournalDurable.AppendedIsRecovered | meetily-core/src/audio/common.rs:210-232 | an update whose append succeeded on a clean journal is recovered at its version or a newer one after any crash later, whatever else happens, unless an append breaks off inside a character |
| JournalDurable.EveryRunCanFinish | meetily-core/src/audio/recording_saver.rs:668-715 | from every state a run reaches the recording can be brought to its end, and then transcripts.json alone holds all of it, sorted |
| JournalDurable.RebuildsApart | meetily-core/src/audio/recording_saver.rs:376-405 | transcripts.json is rebuilt again only after another update was appended |
| JournalCrash.ReplayNoLonger | meetily-core/src/audio/common.rs:325-351 | the journal never replays more segments than the final vector has, so the length test cannot prefer it |
| JournalCrash.GuardIsTime | meetily-core/src/audio/common.rs:325-351 | in every reachable state with both files the guard is the comparison of the file times alone |
| JournalCrash.TakesJournalIff | meetily-core/src/audio/common.rs:325-351 | after every run the reader takes the journal if and only if it is there and no successful rebuild or final write came after the last append that touched it |
| JournalCrash.TornCharacterBlocksLoad | meetily-core/src/audio/common.rs:256-258 | a run of one segment whose torn append blocks every load although transcripts.json has it |
| JournalCrash.EveryRunLoadFinds | meetily-core/src/audio/common.rs:301-351 | after any run with a readable journal a load returns exactly the last line of each segment if the guard takes the journal, else exactly the last of the updates transcripts.json was written with, minus `source` |
| JournalCrash.EveryRunLoadHasIdIff | meetily-core/src/audio/common.rs:301-351 | a segment is recovered in some version if and only if the file taken has its id |
| JournalCrash.JsonOnlySurvivesIff | meetily-core/src/audio/common.rs:327-351 | a segment only transcripts.json has survives a crash if and only if no append touched the journal after the last successful write of that file, or the journal is gone |
| JournalCrash.JsonOnlySegmentLost | meetily-core/src/audio/common.rs:327-351 | a run after which one more journal line makes a segment only the JSON file had unrecoverable |
| StopFlow.RunKeepsInv | meetily-core/src/audio/recording_service.rs:839-866 | at every step the manager holds the upserts of all that reached it, and these with the pending buffer are all that was published |
| StopFlow.EverySegmentKept | meetily-core/src/audio/recording_service.rs:248-283 | at every moment of every interleaving, whatever an earlier session left behind, a published segment is pending or the manager has an entry of its id |
| StopFlow.QuietStopSavesAll | meetily-core/src/audio/recording_service.rs:984-1028 | if nothing is published between replay and put-back, the final save holds the last version of every segment in arrival order |
| StopFlow.LostIsPending | meetily-core/src/audio/recording_service.rs:852-864 | with each segment published once, what the final save lacks is exactly what is pending |
| StopOrder.LineupIsLinedUp | meetily-core/src/audio/recording_service.rs:839-866 | the order in which segments reach the manager is decided by the positions of the publishes among takes, replays and put-backs: publish order, except that a publish at home overtakes those that wait for a replay |
| StopOrder.EveryVersionKept | meetily-core/src/audio/recording_service.rs:273-282 | at every moment a published segment is pending or the manager has this version, one published after it, or one it has overtaken |
| StopOrder.NothingPendingIff | meetily-core/src/audio/recording_service.rs:852-864 | nothing is left pending if and only if every publish finds the manager at home or is followed by a replay |
| StopOrder.IdSavedIff | meetily-core/src/audio/recording_service.rs:984-1028 | an id has an entry in the final save if and only if some publish of it reaches the manager |
| StopOrder.SavesAllIff | meetily-core/src/audio/recording_service.rs:839-1028 | the final save is the last version of every published segment in arrival order if and only if each id's last publish is what last reaches the manager of it and ids first reach it as first published, updates included |
| StopOrder.LastsAlikeIff | meetily-core/src/audio/recording_service.rs:852-864 | with new versions each time, the versions are current if and only if no id's last publish waits, or overtakes an earlier publish of the id that still reaches the manager |
| StopOrder.OnceEachIff | meetily-core/src/audio/recording_service.rs:852-864 | with each segment published once, the save is complete and in order if and only if every publish reaches the manager and none is overtaken |
| StopOrder.StaleOverwrites | meetily-core/src/audio/recording_service.rs:852-864 | a run that ends with nothing pending and an outdated version: a failed flush leaves an old version in the gap, and the next stop replays it over the newer one |
| Upserts.SameVectorIff | meetily-core/src/audio/recording_saver.rs:109-138 | two orders of updates leave the same vector if and only if they end on the same versions and introduce the ids in the same order |
| StopFlow.PlainStopOutcome | meetily-core/src/audio/recording_service.rs:839-866 | what one stop saves and leaves behind for all segments before, during, in the gap and after, earlier leftovers included |
| StopService.RecordingService.OnTranscript | meetily-core/src/audio/recording_service.rs:273-282 | the subscriber performs the protocol's publish step on the real slots |
| StopService.RecordingService.ReplayBufferedSegments | meetily-core/src/audio/recording_service.rs:352-359 | draining the buffer in place is the protocol's replay step, every segment queued for the journal in order |
| StopService.RecordingService.Take | meetily-core/src/audio/recording_service.rs:839-842 | empties the slot as the protocol's take step does |
| StopService.RecordingService.PutManagerBack | meetily-core/src/audio/recording_service.rs:862-864 | fills the slot as the protocol's put-back step does |
| Utf8.MatchOnBoundary | llama-helper/src/main.rs:334-342 | in valid text a valid needle is found on character boundaries only |
| Utf8.CharIffEncoded | llama-helper/src/main.rs:332-334 | the characters are exactly the UTF-8 encodings of the code points that are characters |
| Utf8.TrimLast | llama-helper/src/main.rs:343-343 | trimming removes a last character that is one of the 25 white-space characters, listed by code point, and keeps a text that ends in any other |
| Utf8.TrimLastByte | llama-helper/src/main.rs:343-343 | in ASCII that is tab to carriage return and the space |
| Utf8.FindInSuffix | llama-helper/src/main.rs:335-335 | searching the tail and adding the offset is searching from there |
| Utf8.PrefixSurvivesTrimIff | llama-helper/src/main.rs:343-343 | a prefix cut on a boundary survives trimming if and only if it is empty or something from its last character on is not whitespace |
| Generation.TailScanIsRescan | llama-helper/src/main.rs:324-351 | the tail scan finds a stop token exactly when and where a search of the whole output would |
| Generation.FirstStopsAgree | llama-helper/src/main.rs:324-351 | and so picks the same token at the same place among several |
| Generation.EmptyStopAgreesIff | llama-helper/src/main.rs:324-351 | an empty stop token agrees with the rescan if and only if the scan starts at 0 |
| Utf8.BackWithinCharacter | llama-helper/src/main.rs:355-357 | stepping back to a character boundary of valid text takes at most three bytes |
| Generation.StreamSafePrefix | llama-helper/src/main.rs:353-363 | exactly what is newly safe is sent as soon as it makes a batch, in whole characters and clear of the held-back tail; what is held back is bounded |
| Generation.CutKeepsStreamed | llama-helper/src/main.rs:342-343 | a later cut never reaches into streamed text; trimming does not either, if and only if something visible stands at or after its last character |
| Generation.GenerationEnds | llama-helper/src/main.rs:288-375 | without the loop: a generation ends at the first token that is no evaluated piece free of stop tokens, or at the limit, completed, cut at the stop token or failed by what that token is |
| Generation.TailIsRescan | llama-helper/src/main.rs:324-363 | scanning the tail only, generations end and stream as with a full rescan, if no stop token is empty |
| Generation.MaxLenAttained | llama-helper/src/main.rs:277-279 | what is held back is the length of some stop token |
| Generation.Generate | llama-helper/src/main.rs:277-363 | for any stop tokens the loop ends and sends exactly as specified, which without an empty one is as the full rescan does; what was streamed is a prefix of the text before trimming, in chunks of at least 64 bytes, and a completed text is streamed but for the longest stop token, less than a batch and three bytes |
| PrefixPromise.PromiseIff | llama-protocol/src/lib.rs:38-42 | for given stop tokens and a text before the stop: however its tokens cut it into pieces, streamed text is a prefix of the returned text, if and only if nothing that is safe to send before the stop token is complete makes a batch that reaches into the trimmed whitespace |
| PrefixPromise.LonePromiseIff | llama-protocol/src/lib.rs:38-42 | with one stop token, if and only if the text and the token but for its last character are too short for a batch or safe no further than the trimmed text |
| PrefixPromise.ShortTailKeepsPromise | llama-protocol/src/lib.rs:38-42 | so it is whenever at most one byte is trimmed |
| PrefixPromise.TwoSpacesBreakPromise | llama-protocol/src/lib.rs:38-42 | and with two spaces after 64 letters it is not |
| Generation.StreamedSpacesVanish | llama-protocol/src/lib.rs:38-42 | a generation that sends a chunk of spaces and returns the empty text |
| LevelMonitor.EveryRun | meetily-core/src/audio/simple_level_monitor.rs:105-189 | for any number of concurrent calls generations installed strictly increase, each opened stream is in exactly one place, and a newest stop leaves nothing open |
| LevelMonitor.InstallTakesOver | meetily-core/src/audio/simple_level_monitor.rs:168-178 | a current start's streams become the session and it is left the former ones to release; a superseded start changes nothing and is left its own |
| LevelMonitor.NewestStartHolds | meetily-core/src/audio/simple_level_monitor.rs:105-185 | over every run: once all calls are done, a newest start that opened streams has installed them, and the session is exactly these unless a stop took the slot since |
| LevelMonitor.SecondStartTakesOver | meetily-core/src/audio/simple_level_monitor.rs:168-185 | a change of microphone: the second start's stream is the session and the first one's is released |
| LevelMonitor.SafeIff | meetily-core/src/audio/simple_level_monitor.rs:222-238 | in any state in which the newest call has installed its session, whatever the running calls do leaves the session alone if and only if none of them is a stop that has yet to reach the slot |
| LevelMonitor.NewestSessionSurvivesIff | meetily-core/src/audio/simple_level_monitor.rs:222-238 | in any one continuation it survives if and only if no stop, however old, reaches the slot |
| LevelMonitor.DelayedStopRemovesNewer | meetily-core/src/audio/simple_level_monitor.rs:222-238 | a run in which an older stop removes a newer session |
| LikeSearch.EscapeLike | meetily-mcp/src/db.rs:167-176 | the loop escapes `%`, `_` and the escape character |
| LikeSearch.LikeIsSubstring | meetily-mcp/src/db.rs:577-582 | under SQLite's LIKE the pattern matches a text if and only if the query occurs in it, case aside |
| LikeSearch.FoldsCase | meetily-mcp/src/db.rs:577-577 | the case that is set aside is that of ASCII letters |
| LikeSearch.SnippetPanicsIff | meetily-mcp/src/db.rs:182-204 | make_snippet panics if and only if there is a hit whose byte offset in the lower-cased text is no character boundary of the text |
| LikeSearch.SnippetPanics | meetily-mcp/src/db.rs:182-204 | it does on a text that the search returns |
| LikeSearch.SnippetShowsMatch | meetily-mcp/src/db.rs:182-204 | on text whose characters keep their byte lengths a snippet reaches the radius to both sides of the first hit, or the end of the text, has an ellipsis exactly where text was cut, and shows a match if there is one |
| LikeSearch.SearchHit | meetily-mcp/src/db.rs:559-602 | every such row the search returns contains the query and so does its snippet |
| SilenceSplit.QuietestWindow | meetily-core/src/audio/common.rs:816-836 | the scan finds the first of the quietest windows, or none exactly when none fits |
| SilenceSplit.QuietestIsFirst | meetily-core/src/audio/common.rs:836-843 | among equally quiet ones it is the first |
| SilenceSplit.SilentWindow | meetily-core/src/audio/common.rs:839-840 | a window is silent if no sample exceeds 0.02, and only if none exceeds 0.8 |
| SilenceSplit.LouderSamples | meetily-core/src/audio/common.rs:839-840 | a window is no louder than one in which every sample is at least as large |
| SilenceSplit.CutReach | meetily-core/src/audio/common.rs:812-870 | every cut moves on and stays near the target, for every maximum |
| SilenceSplit.CutsInSilence | meetily-core/src/audio/common.rs:816-856 | when a silent window is in reach, the cut is in the middle of a silent window |
| SilenceSplit.QuietStretchIsCut | meetily-core/src/audio/common.rs:812-868 | in samples and seconds: with 110 ms of samples within 0.02 up to three seconds from the target, the cut is in the middle of 100 ms within 0.8 and of mean square at most that of 0.02 |
| SilenceSplit.CutsLater | meetily-core/src/audio/common.rs:828-868 | without a silent window in reach the cut is a second past the middle of the quietest one, or past the target |
| SilenceSplit.SplitSegmentAtSilence | meetily-core/src/audio/common.rs:771-875 | the loop, which ends for every maximum, yields the split the cutting rule prescribes |
| SilenceSplit.SplitUnique | meetily-core/src/audio/common.rs:771-875 | the rule prescribes one split only |
| SilenceSplit.SplitIsPartition | meetily-core/src/audio/common.rs:857-872 | the pieces concatenate to the segment |
| SilenceSplit.SplitIsContiguous | meetily-core/src/audio/common.rs:857-872 | each piece starts where the one before ends, and the last ends with the segment |
| SilenceSplit.PieceLasts | meetily-core/src/audio/common.rs:785-786 | a piece lasts in proportion to its samples |
| SilenceSplit.SplitBounds | meetily-core/src/audio/common.rs:812-870 | no piece exceeds the maximum by more than 63200 samples, none but the last falls short of it by more than 47200 or lasts under a second |
| SilenceSplit.TranscriberPieces | meetily-core/src/audio/common.rs:589-599 | with the transcriber's 400000: a partition into pieces of at most 463200, all but the last at least 352800 |
| ChunkedResample.OutLenInTime | meetily-core/src/audio/decoder.rs:149-151 | n samples make as many as fit into their time at the other rate |
| ChunkedResample.ChunkInTime | meetily-core/src/audio/decoder.rs:145-160 | chunk i is minute i and 100 ms more, as far as the file goes |
| ChunkedResample.ChunkIsPart | meetily-core/src/audio/decoder.rs:160-181 | a chunk that starts on a whole second resamples to its part of the whole file |
| ChunkedResample.CrossFade | meetily-core/src/audio/decoder.rs:191-207 | the in-place fade and the append, sample by sample |
| ChunkedResample.FadeIsGradual | meetily-core/src/audio/decoder.rs:196-200 | the fade starts from the earlier take and moves to the later one in equal steps |
| ChunkedResample.FadedShape | meetily-core/src/audio/decoder.rs:191-207 | the merge changes only the overlap and appends the rest of the chunk |
| ChunkedResample.FadeStart | meetily-core/src/audio/decoder.rs:191-207 | the fade covers exactly the overlap, also when the last chunk is shorter than it |
| ChunkedResample.ChunkedResampleAll | meetily-core/src/audio/decoder.rs:141-219 | ranges, chunks and merge loop together are the specified merge; empty input and equal rates pass through |
| ChunkedResample.ChunkedIsSinglePass | meetily-core/src/audio/decoder.rs:141-219 | the merge has the whole-file length for every length-exact resampler and is the whole-file result for every local one |
| ChunkedResample.MergedSucceedsIff | meetily-core/src/audio/decoder.rs:186-219 | the pass succeeds if and only if every chunk does |
| ChunkedResample.FirstFailureWins | meetily-core/src/audio/decoder.rs:209-221 | a failed pass reports the first chunk that failed |
| WavParse.ParseWavPcm16 | meetily-core/src/audio/clip.rs:132-180 | on arbitrary bytes the walk stays in bounds, ends, and finds what the chunk list of the file holds |
| WavParse.ReadsWritten | meetily-core/src/audio/clip.rs:141-165 | written RIFF chunks, odd sizes padded, are read back one by one, then whatever follows |
| WavParse.LastChunksDecide | meetily-core/src/audio/clip.rs:150-180 | the last usable format and the last data chunk decide the result, in either order |
| WavParse.MissingIff | meetily-core/src/audio/clip.rs:167-168 | each missing-chunk error is returned if and only if no chunk of the kind exists, format before data |
| WavParse.RoundTrip | meetily-core/src/audio/clip.rs:132-180 | any clip with any other chunks around its format and data reads back exactly |
| WavParse.CutClip | meetily-core/src/audio/clip.rs:146-147 | a clip cut short inside its data gives the samples that made it whole |
| WavParse.KnownFile | meetily-core/src/audio/clip.rs:132-180 | a whole file byte by byte, identifiers, little-endian numbers and two's complement samples included |

## Left out

- Machine integers are unbounded here: positions are u64 and lengths usize in the program, and no wrap-around is modelled.
- Recorded samples are 32-bit patterns, which the mixer and the saver only move; energies, resampled audio and times are reals, so rounding and NaN are not modelled.
- Session.RecordMeeting: sample rates below 20 Hz, which make a window empty, are excluded (`MixerClock.EmptyWindowNeverEnds`).
- MixerRing.AudioMixerRingBuffer.SetExpectedSources: sample accounting assumes that presence is set once, before any samples, as the pipeline does.
- Samples that arrive after a flush: the ring buffer methods accept them and stay sound, but accounting is stated up to the flush.
- Echo cancellation, filtering and loudness are any function of the windows so far whose result is no longer than a window; what they do to the sound is not modelled.
- Checkpoints.IncrementalAudioSaver.Finalize: more than 1000 checkpoints are encoded in lexical order, of which only `CheckpointNames.LexicalIsChunkOrderIff` is stated.
- The encoder itself: the model ends with the bytes it is given. Legacy AAC checkpoints and the format sidecar's content are not modelled.
- JournalCrash.EveryRunCrashSafe: one producer, file times that strictly increase, segments with a sequence id, no publish once the journal channel is closed, and transcripts.json replaced atomically.
- JSON encoding: a journal line is a segment or a line that does not parse; a file is its content and write time. No step of the running system writes a corrupt transcripts.json; only the reader meets one.
- MixerFlush.FlushInPlaceIff: a source that was itself given up on; for it only the state condition of `MixerFlush.FlushFaithfulIff` is stated.
- StopFlow.EverySegmentKept: says the id only, because an earlier session's leftovers may overwrite the version; `StopOrder.EveryVersionKept` says the version for a session without leftovers.
- StopFlow.LostIsPending: says nothing of segments published again; `StopOrder.SavesAllIff` does.
- StopFlow.QuietStopSavesAll: a segment published after the unsubscribe is not part of the model, nor are the database writer, timeouts and the wait for the worker.
- The start of a recording and the recording phase table: one-branch logic.
- Generation.Generate: the tokenizer, decoder and sampler are an arbitrary sequence of valid pieces, failures and end-of-generation; a chunk that cannot be sent is not modelled.
- LevelMonitor.EveryRun: the check of the generation and the installation are one step, which is exact because a generation bump between the two commutes with the installation. The emit task and a failed start are not modelled.
- LikeSearch.SnippetShowsMatch: says nothing of text in which a character changes its length when lower-cased; `LikeSearch.SnippetPanicsIff` says when such text panics. Characters are lower-cased one by one, so the final sigma, whose two forms are equally long, is not told apart.
- LikeSearch.SearchHit: the same texts.
- SilenceSplit.SplitSegmentAtSilence: loudness is compared by mean square instead of its root, which orders windows the same way.
- ChunkedResample.ChunkedIsSinglePass: the resampler is one whose output samples depend on their own second of input only, up to their own time; a real sinc filter is so only approximately. The overlap length is computed without floating-point rounding, and the progress callback, which may cancel, is not modelled.
- WavParse.RoundTrip: files of 4 GiB and more, which the RIFF size fields cannot describe.
- ffmpeg, PipeWire, whisper.cpp, llama.cpp, WebRTC, the user interface, downloads, SQL repositories and the MCP server glue: foreign code, or logic of one branch.
