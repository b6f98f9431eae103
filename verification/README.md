# Verified model of the subtitle adapters

This project models the engines under `crates/subbake-adapters/src` that decide whether subtitle work
survives crashes, concurrency and odd input, and proves what they promise. `dafny verify dfyconfig.toml`
checks everything.

| modules | engine |
|---|---|
| `Machine`, `JsonValues`, `SegmentCodec`, `CheckpointSpec`, `CheckpointLaws`, `CheckpointRefinement`, `CheckpointRuns`, `CheckpointStore` | the content-addressed checkpoint store |
| `CaptureBuffer`, `LineReader`, `Supervisor` | the child process supervisor |
| `Transcription` | overlapping transcription chunks with midpoint ownership |
| `Streaming`, `StreamingPipeline` | translating a recording while it is transcribed |
| `Install` | committing a staged whisper.cpp installation, with rollback |
| `AtomicWriter` | replacing a file through a lock file and a rename |
| `BitmapCues`, `Raster`, `OcrPool` | bitmap subtitles: cue merging, rasterising, the recogniser pool |
| `JsonText`, `ObjectScanner` | the JSON grammar, and finding the JSON object in a model's reply |
| `Pes` | DVB packets as an MPEG elementary stream |
| `EditEstimate`, `EditPlanner` | what an editing request costs, and cutting a file into such requests |

How to read it:

- Code that changes things step by step is imperative: `RunDirectory` and `FileRuntimeStore`, `OutputBuffer`,
  `Directory` are classes with the source's fields, and loops are loops. Each such method is tied to a function or
  predicate over values, and the laws are proved about those.
- Code that runs concurrently is a state machine. A state has one record per thread or process, an event is one
  atomic operation (a file write, a queue operation, a lock, a rename, a failure, a crash), and the theorems
  quantify over every sequence of enabled events.
- Foreign calls are parameters or nondeterministic choices that may fail: the digest, the lossy text decoder, the
  recogniser, the translator, the manifest parser, the JSON parser, the verification callback, the file system.
  A directory has a constant `reliable`, unknown to the code: where it holds no file operation fails by itself, so
  that the contracts say which refusals have a reason in the data.
- The digest is an arbitrary function. The safety theorems assume that no two payloads actually involved share a
  digest (`CollisionFree` on a finite pool); a digest with 64 hexadecimal digits cannot be injective on all payloads.

Places where the code does not do what its neighbours would lead one to expect are stated as lemmas with a concrete
input and an exact condition: `Install.SelfListedManifestExample` and `Install.ManifestSurvives`,
`CheckpointLaws.LastBatchNotNeeded` and `CheckpointLaws.LoadAtLargestCount`, `Transcription.LongSegmentLost` and
`Transcription.ChunkedIsWholeMinusCut`, `AtomicWriter.StaleLockBreaksExclusion` and
`AtomicWriter.ProtectedUntilSeized`, `BitmapCues.EarlyEndLeavesGap` and `BitmapCues.PersistentCuesShowFrames`,
`ObjectScanner.ExtractAfterBrace` and `ObjectScanner.SelectionStartsAtObject`.

## Model

| member | source | states |
|---|---|---|
| SegmentCodec.SegmentRoundTrip | crates/subbake-adapters/src/runtime_store.rs:654-715 | for every segment, with or without optional fields and semantic metadata, reading back its JSON form gives the segment itself |
| SegmentCodec.SemanticMemberRoundTrip | crates/subbake-core/src/entities.rs:349-380 | each optional semantic member that is skipped when absent reads back as exactly what was there, whichever of the others are present |
| SegmentCodec.SegmentFormat | crates/subbake-adapters/src/runtime_store.rs:654-681 | which members the JSON form has and what each holds; absent optional fields are null, and an empty semantic part is not written |
| SegmentCodec.SegmentReads | crates/subbake-adapters/src/runtime_store.rs:683-708 | only a semantic part that is neither missing, null nor an object of texts and nulls makes a segment unreadable; identifiers and texts that are not texts read as empty |
| CheckpointLaws.ShardRoundTrip | crates/subbake-adapters/src/runtime_store.rs:73-121 | the payload written for any list of segments parses back to that list |
| CheckpointLaws.ContentReads | crates/subbake-adapters/src/runtime_store.rs:101-121 | a payload is read exactly when it is an object with a list of readable segments, and then as those, one by one |
| CheckpointSpec.ValidatedMeans | crates/subbake-adapters/src/runtime_store.rs:186-198 | a state is valid exactly when the translated and the reviewed references each load for their own count, and the finalized ones for one batch if validation was completed by a version that records it |
| CheckpointSpec.DigestNames | crates/subbake-adapters/src/runtime_store.rs:60-71 | a shard name is 64 hexadecimal digits of either case and nothing else |
| CheckpointLaws.WriteKeeps | crates/subbake-adapters/src/runtime_store.rs:73-98 | writing a shard leaves every intact shard file in place with the same bytes |
| CheckpointLaws.AddAllKeeps | crates/subbake-adapters/src/runtime_store.rs:73-98 | so does any list of shard writes, and afterwards every written payload is there under its digest |
| CheckpointLaws.LoadIsStable | crates/subbake-adapters/src/runtime_store.rs:395-429 | a reference list that loaded once loads the same segments however many shards are added later |
| CheckpointLaws.LoadIsWalk | crates/subbake-adapters/src/runtime_store.rs:395-429 | loading through references that stand for a map of blocks succeeds exactly when the blocks tile the requested batches, and then gives their concatenation |
| CheckpointLaws.LoadIsLatest | crates/subbake-adapters/src/runtime_store.rs:395-429 | loading n batches is the map's first n batches or an error, also when a reference to a batch 0 spoils the list |
| CheckpointLaws.WalkSingles | crates/subbake-adapters/src/runtime_store.rs:395-429 | with one batch per block a load succeeds if and only if every batch from 1 to n is there, and is their concatenation in order |
| CheckpointLaws.ReplaceUpdates | crates/subbake-adapters/src/runtime_store.rs:438-480 | dropping a batch's reference, appending the new one and sorting changes the represented map at that batch and nowhere else |
| CheckpointLaws.LoadAtLargestCount | crates/subbake-adapters/src/runtime_store.rs:395-429 | at the largest machine count, where the expected end saturates, a load succeeds exactly when the batches before the last one load and no block starts at the last one |
| CheckpointLaws.LastBatchNotNeeded | crates/subbake-adapters/src/runtime_store.rs:395-429 | a manifest whose one block stops one batch short is accepted for that count |
| CheckpointRefinement.InsideIff | crates/subbake-adapters/src/runtime_store.rs:438-480 | the partial-replacement guard fires exactly when the batch lies in a multi-batch block of the represented map |
| CheckpointRefinement.ShardsPlanLatest | crates/subbake-adapters/src/runtime_store.rs:438-480 | planning succeeds exactly when no shard falls inside a multi-batch block, and the new manifest then stands for the old map with the shards put in, latest last |
| CheckpointRefinement.MigrationReads | crates/subbake-adapters/src/runtime_store.rs:123-158 | importing a legacy state succeeds if and only if the segments of all three kinds can be read |
| CheckpointRefinement.MigrationPreservesMeaning | crates/subbake-adapters/src/runtime_store.rs:123-158 | loading through an imported manifest gives what the per-batch files gave, or the inline segments when the state carried them |
| CheckpointRefinement.MigrationInFields | crates/subbake-adapters/src/runtime_store.rs:123-158 | the same in the fields of the state: inline translated and reviewed segments stand for all of their counted batches, otherwise the files do, and validation always comes from its file |
| CheckpointRefinement.WrittenFilesLoad | crates/subbake-adapters/src/runtime_store.rs:363-393 | per-batch files that hold written lists load as those lists joined in batch order |
| CheckpointRefinement.LegacyNeedsEveryFile | crates/subbake-adapters/src/runtime_store.rs:363-393 | per-batch files load exactly when the file of every batch is there and can be read |
| CheckpointRefinement.CommitRefines | crates/subbake-adapters/src/runtime_store.rs:438-480 | a commit stands for its base map with its shards put in; the base is empty unless the remembered fingerprint agrees, so no reference crosses fingerprints |
| CheckpointRefinement.RunIsLatestWins | crates/subbake-adapters/src/runtime_store.rs:438-480 | after any run of same-fingerprint commits, with foreign shard writes in between, loading n batches of a kind gives the latest segments of each in order, or fails because one was never put |
| CheckpointRefinement.PutAllIsLatest | crates/subbake-adapters/src/runtime_store.rs:438-480 | the represented map holds for each kind and batch what was put there last, and otherwise what it held before |
| CheckpointRuns.CompleteIsValidated | crates/subbake-adapters/src/runtime_store.rs:395-429 | reading the references of all kinds back one file at a time, with anything written in between, amounts to one validation at the moment of publication |
| CheckpointRuns.ReplayValidation | crates/subbake-adapters/src/runtime_store.rs:470-473 | a state that validates in one go can be read back reference by reference and is then ready for publication |
| CheckpointRuns.StepSafe | crates/subbake-adapters/src/runtime_store.rs:438-480 | a shard write, one read of a validation, a publication or a crash of any handle keeps every proposed and every published state loadable |
| CheckpointRuns.RunsAreSafe | crates/subbake-adapters/src/runtime_store.rs:395-498 | over every interleaving of handles, file operation by file operation, with a crash anywhere: the state file is the initial one or the last one published after it was read back completely, publications are never withdrawn, each still loads exactly what it loaded when published, and each loads every batch that its own fields count as completed |
| CheckpointStore.FileRuntimeStore.WriteImmutableShard | crates/subbake-adapters/src/runtime_store.rs:73-99 | a successful write returns a reference to the payload's digest and adds that file only; a failed one may have added it, and in a reliable directory there is none |
| CheckpointStore.FileRuntimeStore.ReadImmutableShard | crates/subbake-adapters/src/runtime_store.rs:101-121 | the answer is the checked read of the file as it is on disk, or, if accesses can fail, an I/O error |
| CheckpointStore.FileRuntimeStore.LoadBatchSegments | crates/subbake-adapters/src/runtime_store.rs:363-393 | the loop over per-batch files is their concatenation in order, or the first error; an error of its own only where accesses can fail |
| CheckpointStore.FileRuntimeStore.LoadCheckpointSegments | crates/subbake-adapters/src/runtime_store.rs:395-429 | the loop over references is the recursive load through the manifest, or the legacy load without one, with the same restriction |
| CheckpointStore.FileRuntimeStore.ImportManifest | crates/subbake-adapters/src/runtime_store.rs:123-158 | a successful import writes exactly the planned shards and returns the planned manifest; a refusal is the plan's own error unless an access failed |
| CheckpointStore.FileRuntimeStore.CommitCheckpoint | crates/subbake-adapters/src/runtime_store.rs:438-480 | success publishes exactly the planned state, of version 6, over exactly the planned shards, and every batch the state's fields count then loads; in a reliable directory a refusal means that planning fails with that error or that some counted batch does not load; failure leaves the handle's memory alone, and the state file too unless the write of the validated state itself failed |
| CheckpointStore.FileRuntimeStore.SaveRunState | crates/subbake-adapters/src/runtime_store.rs:431-436 | saving a state is committing a checkpoint without shards, with success and refusal as there |
| CheckpointStore.FileRuntimeStore.LoadRunState | crates/subbake-adapters/src/runtime_store.rs:482-499 | reading the state file makes it the handle's memory; a missing file, and one that cannot be read or parsed, leaves the memory alone; only an unreliable directory gives an error |
| CaptureBuffer.OutputBuffer.Push | crates/subbake-adapters/src/process.rs:82-106 | however the stream is cut into pushes, the buffer holds the prefix and rolling suffix of the concatenation and never more than the limit |
| CaptureBuffer.OutputBuffer.Finish | crates/subbake-adapters/src/process.rs:108-114 | the result is the capture function of the whole stream |
| CaptureBuffer.PushKeeps | crates/subbake-adapters/src/process.rs:82-106 | what a push does to the kept prefix and suffix is what appending does to those of the stream |
| CaptureBuffer.MarkerAtCut | crates/subbake-adapters/src/command.rs:308-317 | a rendered capture is the whole stream, or its first half-limit bytes, the marker and its last bytes: the marker stands exactly at the cut |
| CaptureBuffer.CaptureExact | crates/subbake-adapters/src/process.rs:65-115 | a capture is the whole stream exactly when it is not marked truncated, and has at most the limit's bytes |
| LineReader.PiecesAreTheLines | crates/subbake-adapters/src/process.rs:386-432 | cutting any join of newline-free pieces at its newlines gives the pieces back |
| LineReader.JoinPieces | crates/subbake-adapters/src/process.rs:386-432 | joining a stream's pieces with newlines gives the stream back |
| LineReader.FeedByte | crates/subbake-adapters/src/process.rs:400-420 | one byte keeps the held line equal to the open piece cut at the limit and emits exactly the line it completes, unless that is over-long |
| LineReader.ReadStream | crates/subbake-adapters/src/process.rs:386-432 | the reader delivers the stream's lines of at most 65536 bytes in order, drops over-long ones whole, sends a final fragment only if non-empty, captures the stream, and raises overflow exactly when a strict capture ran over |
| LineReader.TerminatedGrows | crates/subbake-adapters/src/process.rs:386-432 | reading on only appends lines, at most one a byte |
| LineReader.CutsDoNotMatter | crates/subbake-adapters/src/process.rs:386-432 | two ways of cutting the same bytes into reads deliver the same lines and the same capture |
| LineReader.LinesAreWanted | crates/subbake-adapters/src/process.rs:386-432 | the lines of a stream are its pieces in order, without those over 65536 bytes and without an empty last one |
| Supervisor.RunKeepsInv | crates/subbake-adapters/src/process.rs:253-350 | along every interleaving of readers, queue and main loop, lines pass without loss, change or reordering and the queue stays within 64 |
| Supervisor.SuccessIsComplete | crates/subbake-adapters/src/process.rs:253-350 | a successful return has passed the caller exactly the selected stream's lines and holds both captures, which under the strict policy are the whole streams |
| Supervisor.AnswersAreJustified | crates/subbake-adapters/src/process.rs:253-350 | for every child output, policy and interleaving: a read error is answered exactly when a reader broke, each failure has its cause, output counts as too long only under the strict policy and over the limit, and without any of these causes the answer is a success |
| Supervisor.OverflowIsSeen | crates/subbake-adapters/src/process.rs:386-432 | under the strict policy the overflow alarm is up exactly from the moment more than the limit has been read from a stream |
| Supervisor.QueueHolds64 | crates/subbake-adapters/src/process.rs:253-264 | a reader can hand on a line exactly while fewer than 64 wait |
| Supervisor.EnvironmentIsFree | crates/subbake-adapters/src/process.rs:271-330 | in the modelled runs the child may exit, the caller cancel and the time run out in any state, and every read and wait may fail |
| Supervisor.DeliveredIsPrefix | crates/subbake-adapters/src/process.rs:253-350 | at every moment of every run the lines passed on are a prefix of the stream's lines |
| Supervisor.NeverStuck | crates/subbake-adapters/src/process.rs:445-455 | until the call returns some thread can move; dropping the receiver frees a reader blocked on a full queue |
| Supervisor.AlarmedStepWorks | crates/subbake-adapters/src/process.rs:271-330 | once cancelled, timed out or overflowing, every step of any thread uses up part of a finite amount of work |
| Supervisor.AlarmReturns | crates/subbake-adapters/src/process.rs:271-350 | after an alarm no run goes on for more than that many steps and none stops before the call has returned |
| Supervisor.AlarmAlwaysReturns | crates/subbake-adapters/src/process.rs:230-350 | from every state reachable with any child output, policy and interleaving, an alarm leads to a return within a bounded number of steps |
| Supervisor.ExitReturns | crates/subbake-adapters/src/process.rs:253-350 | once the child has exited and both readers are done, with or without an alarm, a bounded number of polls returns |
| Transcription.TranscriptionChunks | crates/subbake-adapters/src/transcription.rs:733-755 | the planning loop yields, for every duration, the chunks of the closed form |
| Transcription.ChunkWindows | crates/subbake-adapters/src/transcription.rs:733-755 | in milliseconds: up to 720000 there is one chunk; otherwise chunk i owns 600000 i up to 600000 more and hears 30000 on either side, within the audio |
| Transcription.CoresTile | crates/subbake-adapters/src/transcription.rs:733-755 | the owned stretches tile the audio end to end, lie in their inputs, and none is empty unless the audio is |
| Transcription.OwnerIsUnique | crates/subbake-adapters/src/transcription.rs:1061-1072 | among the chunks that hear a segment the ownership test accepts it in exactly one, the one its midpoint falls in |
| Transcription.Transcribe | crates/subbake-adapters/src/transcription.rs:876-993 | the merging loop concatenates, chunk by chunk, the owned segments in original time |
| Transcription.ChunkedIsWholeMinusCut | crates/subbake-adapters/src/transcription.rs:876-993 | for every duration and midpoint-ordered list, chunk and merge gives the list minus exactly the segments that stick out of their owner's input, nothing duplicated or reordered |
| Transcription.ChunkedEqualsWhole | crates/subbake-adapters/src/transcription.rs:876-993 | when no segment is longer than 60.001 s, chunked transcription equals whole transcription |
| Transcription.CutSegmentLost | crates/subbake-adapters/src/transcription.rs:733-755 | a segment its owner does not hear completely is lost |
| Transcription.LongSegmentLost | crates/subbake-adapters/src/transcription.rs:733-755 | one of 60.002 s in 15 minutes of audio is |
| Streaming.RestoreStableSourceIdentity | crates/subbake-adapters/src/pipeline.rs:746-770 | success if and only if every cue carries its source's identifier and timing, and then everything but text becomes the source's; on failure cues from the first mismatch on are untouched |
| Streaming.ValidateGroupAlignment | crates/subbake-adapters/src/pipeline.rs:772-787 | accepts exactly lists of the same length with the same identifiers in order |
| Streaming.TranslateChunkGroup | crates/subbake-adapters/src/pipeline.rs:587-720 | succeeds exactly when the group is not empty and its translation carries the source's identity, with its error otherwise; its alignment check can never fail |
| Streaming.ConfirmedTailIsLast | crates/subbake-adapters/src/pipeline.rs:722-744 | the context handed on is the last max(1, limit) cues, each beside its own translation, if and only if the translation is not shorter than the source; each missing translation costs one pair |
| Streaming.ConsumeTranslationChunks | crates/subbake-adapters/src/pipeline.rs:505-580 | succeeds if and only if no check finds a cancel and every group is translated in turn with the context the one before it confirmed; failure is a cancel or the error of the first group that could not be translated |
| Streaming.GroupsPartition | crates/subbake-adapters/src/pipeline.rs:505-580 | the groups are a contiguous in-order partition of the chunks, and each economy group but the last is the shortest run reaching the threshold |
| Streaming.GroupsAreTheOnlyOnes | crates/subbake-adapters/src/pipeline.rs:505-580 | the threshold rule leaves no choice: any grouping with these properties is this one |
| Streaming.GroupsReachLimits | crates/subbake-adapters/src/pipeline.rs:505-580 | in numbers: each economy group but the last has at least the batch size of cues or at least the token budget of estimated tokens, and every shorter run of it has less of both |
| Streaming.SegmentTokensAppend | crates/subbake-adapters/src/pipeline.rs:571-580 | the estimate of a joined list is the sum of the estimates |
| Streaming.SegmentTokensOfOne | crates/subbake-adapters/src/pipeline.rs:571-580 | the estimate of one cue is eight and a quarter of its text's length, rounded up |
| Streaming.TranslationKeepsCues | crates/subbake-adapters/src/pipeline.rs:505-787 | whatever the translator answers, translated groups have their sources' cues with other text |
| StreamingPipeline.RunKeepsInv | crates/subbake-adapters/src/pipeline.rs:262-273 | the bounded channel delivers the chunks sent, in order, in every interleaving |
| StreamingPipeline.OutcomesAreTrue | crates/subbake-adapters/src/pipeline.rs:443-496 | a side counts as finished exactly when it came to its end, never when it failed; the producer stops early only because it or the consumer failed |
| StreamingPipeline.ChannelHoldsTwo | crates/subbake-adapters/src/pipeline.rs:443-496 | with fewer than two chunks waiting the producer can send, with two it waits |
| StreamingPipeline.SidesMayStop | crates/subbake-adapters/src/pipeline.rs:443-496 | either side may fail at any moment, and each ends when its work is done |
| StreamingPipeline.SomeSideMoves | crates/subbake-adapters/src/pipeline.rs:262-273 | until both sides have stopped one can move; a producer blocked on the full channel is freed when the consumer takes a chunk or fails |
| StreamingPipeline.OtherSideStops | crates/subbake-adapters/src/pipeline.rs:443-496 | when one side has stopped the other stops within a bounded number of steps |
| StreamingPipeline.StreamIsAligned | crates/subbake-adapters/src/pipeline.rs:443-580 | when producer and consumer both succeed the translated list has the transcript's identifiers and timings, so the final alignment check never fires |
| Install.AcceptedNames | crates/subbake-adapters/src/whisper.rs:889-901 | the manifest names whose last path component is themselves are exactly those that name something directly in the directory |
| Install.ManifestReads | crates/subbake-adapters/src/whisper.rs:889-901 | a manifest is accepted exactly when it is there, parses and lists only direct names, and then as every listed name in order |
| Install.OutcomeInNames | crates/subbake-adapters/src/whisper.rs:796-878 | in the parser's names: every listed file is there with its staged bytes, old files no longer listed are gone, everything else is untouched |
| Install.RollbackInstall | crates/subbake-adapters/src/whisper.rs:880-887 | the backward loop undoes the commits from last to first |
| Install.UndoReplace | crates/subbake-adapters/src/whisper.rs:829-856 | undoing one backup-and-rename restores the directory, apart from the spent temporary |
| Install.CommitStagedInstall | crates/subbake-adapters/src/whisper.rs:796-878 | whatever copy, backup or rename fails, or if verification fails, the directory is exactly what it was, even with repeated names; on success every name the parser listed holds its staged bytes and verification saw the binary so; in a reliable directory a refusal means an unreadable manifest, a listed file that is not staged or a failed verification |
| Install.InstalledHolds | crates/subbake-adapters/src/whisper.rs:796-878 | managed names hold staged bytes, dropped old names are gone, every other file is untouched |
| Install.ManifestSurvives | crates/subbake-adapters/src/whisper.rs:872-876 | the new manifest survives if and only if the old one did not list it or the new one does |
| Install.SelfListedManifestIsLost | crates/subbake-adapters/src/whisper.rs:872-876 | if the old directory's manifest reads as itself alone, a successful install deletes the new manifest, whatever else the directories hold |
| Install.SelfListedManifestExample | crates/subbake-adapters/src/whisper.rs:872-876 | there are such a parser and such directories |
| AtomicWriter.StepKeepsInv | crates/subbake-adapters/src/fs.rs:88-169 | every step of every writer, except removing a lock that is there, keeps exclusion and complete contents |
| AtomicWriter.ProtectedUntilSeized | crates/subbake-adapters/src/fs.rs:171-252 | whoever is inside has the lock file throughout a run if and only if nobody removes a lock that is there |
| AtomicWriter.WritersAreSafe | crates/subbake-adapters/src/fs.rs:88-252 | for any number of writers, as long as nobody removes a lock that is there: at most one is inside, the read-back check never fails, the target holds the initial or one writer's complete bytes, and no lock or staging file remains when nobody is inside |
| AtomicWriter.SuccessMeansPublished | crates/subbake-adapters/src/fs.rs:88-169 | a writer that reports success had exactly its bytes as the target at some moment of the run |
| AtomicWriter.ReportsAreTrue | crates/subbake-adapters/src/fs.rs:88-169 | a writer that returns reports success if and only if none of its steps failed and it did not give up waiting |
| AtomicWriter.FailuresAreFree | crates/subbake-adapters/src/fs.rs:88-169 | every step of a writer inside may fail, which removes its staging file and leaves the target alone |
| AtomicWriter.FreshLocksStay | crates/subbake-adapters/src/fs.rs:205-209 | while no held lock reaches the stale bound nobody removes one |
| AtomicWriter.YoungMeansFresh | crates/subbake-adapters/src/fs.rs:254-259 | no lock counts as stale exactly while each is at most 300 seconds old |
| AtomicWriter.StaleLockBreaksExclusion | crates/subbake-adapters/src/fs.rs:254-259 | a run in which a lock is held past the stale bound ends with two writers inside and a failed read-back |
| BitmapCues.RenderCues | crates/subbake-adapters/src/bitmap_ocr.rs:374-448 | the merging loop is the fold of single-frame merges, with the last active cue closed |
| BitmapCues.PersistentCuesAreTidy | crates/subbake-adapters/src/bitmap_ocr.rs:374-457 | with strictly increasing starts the cues are ordered, disjoint, non-empty and maximally merged |
| BitmapCues.PersistentCuesShowFrames | crates/subbake-adapters/src/bitmap_ocr.rs:374-457 | before the last start they show at every millisecond the image of the latest frame started, if and only if the last run's own end reaches the last start |
| BitmapCues.ShownInTheEnd | crates/subbake-adapters/src/bitmap_ocr.rs:374-457 | what is on screen at any millisecond: the latest frame started, except past the end of the last run |
| BitmapCues.EarlyEndLeavesGap | crates/subbake-adapters/src/bitmap_ocr.rs:414-417 | two frames for which that end comes too early leave a gap |
| BitmapCues.TimedCuesShowFrames | crates/subbake-adapters/src/bitmap_ocr.rs:374-457 | when frames carry their own ends, the shown pairs of millisecond and image are exactly preserved; an empty frame is stretched to one millisecond at most |
| BitmapCues.TimedCuesAreMerged | crates/subbake-adapters/src/bitmap_ocr.rs:374-457 | for non-empty frames that all show an image, neighbouring cues with the same image never touch, because touching ones are merged |
| Raster.FindBounds | crates/subbake-adapters/src/bitmap_ocr.rs:459-485 | the first pass gives the crop box of the visible pixels, and fails only on a row no 32-bit number holds |
| Raster.BoundsAreTight | crates/subbake-adapters/src/bitmap_ocr.rs:459-485 | the crop box is the smallest one around the visible pixels |
| Raster.EverySampleIsSeen | crates/subbake-adapters/src/bitmap_ocr.rs:459-485 | every sample of the buffer with an alpha over 8 is a visible pixel at its row and column, 255 minus its alpha dark |
| Raster.OnlySamplesAreSeen | crates/subbake-adapters/src/bitmap_ocr.rs:459-485 | every visible pixel is such a sample |
| Raster.Canvas | crates/subbake-adapters/src/bitmap_ocr.rs:487-493 | the stepwise 32-bit checks accept a canvas exactly when its area is a 32-bit number |
| Raster.PressRow | crates/subbake-adapters/src/bitmap_ocr.rs:514-525 | the inner loop darkens exactly two neighbouring canvas pixels, never outside the canvas |
| Raster.Press | crates/subbake-adapters/src/bitmap_ocr.rs:499-527 | one visible pixel darkens exactly its 2 by 2 square of the canvas |
| Raster.FrameToOcrImage | crates/subbake-adapters/src/bitmap_ocr.rs:459-529 | an image comes out if and only if something is visible, rows fit and the canvas fits, and each of its pixels is the minimum of 255 and 255 minus alpha over the visible pixels at its place under crop, padding 16 and scale 2 |
| Raster.DarkestIsLeast | crates/subbake-adapters/src/bitmap_ocr.rs:512-525 | the shade at a place is that of one of the pixels there, or white, and none there is darker, whatever the drawing order |
| Raster.BorderStaysWhite | crates/subbake-adapters/src/bitmap_ocr.rs:489-494 | the padding on all four sides stays 255 |
| Raster.Measures | crates/subbake-adapters/src/bitmap_ocr.rs:487-525 | in numbers: twice the content and 64 on each side, and content column x starts at twice its distance from the left edge and 32 |
| Raster.EveryPixelIsDrawn | crates/subbake-adapters/src/bitmap_ocr.rs:496-527 | every visible pixel darkens its whole square, inside the border |
| OcrPool.UniqueImages | crates/subbake-adapters/src/bitmap_ocr.rs:610-618 | the deduplicating loop lists the fingerprints in order of first appearance |
| OcrPool.DistinctIsExact | crates/subbake-adapters/src/bitmap_ocr.rs:610-618 | that list has no repeats and exactly the cues' fingerprints |
| OcrPool.PoolIsOrderly | crates/subbake-adapters/src/bitmap_ocr.rs:633-680 | in every interleaving each image goes to the recogniser at most once and progress reads 1, 2, 3 without a gap |
| OcrPool.FaultsAreFlagged | crates/subbake-adapters/src/bitmap_ocr.rs:633-680 | the failure flag is up exactly when some cancellation check or recogniser call has failed |
| OcrPool.FailureStopsWork | crates/subbake-adapters/src/bitmap_ocr.rs:633-660 | after a failure each worker makes at most the one recogniser call it had set out for |
| OcrPool.PoolSuccessIsComplete | crates/subbake-adapters/src/bitmap_ocr.rs:633-686 | the joined pool succeeds if and only if no cancellation check and no recogniser call failed, and then every slot holds what its one recogniser call returned and progress went exactly 1 to the total |
| OcrPool.PoolTerminates | crates/subbake-adapters/src/bitmap_ocr.rs:633-686 | every interleaving is short and can only end with every worker returned |
| OcrPool.Collect | crates/subbake-adapters/src/bitmap_ocr.rs:688-699 | collecting succeeds exactly when every slot is filled, and maps each fingerprint to its slot |
| OcrPool.RecognizeUniqueImages | crates/subbake-adapters/src/bitmap_ocr.rs:603-700 | it succeeds if and only if nothing failed, and the result has exactly the cues' fingerprints as keys, each with its own image's text |
| ObjectScanner.ExtractJsonObject | crates/subbake-adapters/src/llm_backends.rs:648-682 | the scanning loop with depth, string and escape flags selects what the extraction function says and hands it to the parser, whose failure is the only other one |
| ObjectScanner.ExtractIsFirstObject | crates/subbake-adapters/src/llm_backends.rs:648-682 | what is selected starts at the first brace and is balanced exactly at its end; the two errors are exactly no brace, and a first brace that never closes |
| ObjectScanner.TrimmingIsImmaterial | crates/subbake-adapters/src/llm_backends.rs:648-682 | the reply as it is gives the same object or the same error as the trimmed one |
| ObjectScanner.FeedText | crates/subbake-adapters/src/llm_backends.rs:653-676 | every JSON text of the grammar of RFC 8259, whatever its blanks, escapes and nesting, leaves the scanner where it was |
| ObjectScanner.ExtractObject | crates/subbake-adapters/src/llm_backends.rs:648-682 | for every JSON text of an object, after any text without an opening brace and before any text, exactly that object is selected |
| ObjectScanner.ExtractPrinted | crates/subbake-adapters/src/llm_backends.rs:648-682 | print, then scan: every object value has a text that means it, and the scanner selects it |
| ObjectScanner.SelectionStartsAtObject | crates/subbake-adapters/src/llm_backends.rs:648-682 | whatever surrounds an object, the selection starts at it if and only if no opening brace comes before it, and then it is the object |
| ObjectScanner.ExtractAfterBrace | crates/subbake-adapters/src/llm_backends.rs:648-682 | with an opening brace right in front of any object nothing closes |
| Pes.RescaleIsFloor | crates/subbake-adapters/src/embedded_subtitles.rs:1352-1370 | a time stamp is accepted exactly when it is not negative, its product fits in 128 bits and its result in 33; the result is the exact floor, and each refusal names its reason |
| Pes.RescaleIsMonotone | crates/subbake-adapters/src/embedded_subtitles.rs:1352-1370 | rescaling keeps the order of packets |
| Pes.RescaleKeepsTicks | crates/subbake-adapters/src/embedded_subtitles.rs:1352-1370 | time stamps already in 90 kHz ticks, up to 33 bits, are kept |
| Pes.PtsRoundTrip | crates/subbake-adapters/src/embedded_subtitles.rs:1428-1436 | the five time stamp bytes decode by section 2.4.3.7 of ISO/IEC 13818-1 to the time stamp |
| Pes.PacketRoundTrip | crates/subbake-adapters/src/embedded_subtitles.rs:1410-1426 | a framed packet parses by section 2.4.3.6 of ISO/IEC 13818-1, flag by flag, to its time stamp and payload, unscrambled, unmarked and without further header fields, whatever follows |
| Pes.ExtractDvbSubtitle | crates/subbake-adapters/src/embedded_subtitles.rs:1300-1319 | the packet loop writes the frames of all packets in order, or reports the first error, or that there are none |
| Pes.UnitsExist | crates/subbake-adapters/src/embedded_subtitles.rs:1300-1314 | conversion succeeds exactly when every packet has a time stamp that rescales and data that fits one packet |
| Pes.UnitErrors | crates/subbake-adapters/src/embedded_subtitles.rs:1300-1314 | a missing time stamp is reported before missing data, and both before a time stamp that does not rescale |
| Pes.ExtractedParses | crates/subbake-adapters/src/embedded_subtitles.rs:1300-1319 | decoding what is written gives exactly the packets' payloads with their rescaled time stamps |
| EditEstimate.EstimateGrows | crates/subbake-core/src/editing.rs:25-126 | for any wording, entries and source lines, a part of a range costs no more than the range, in the request's tokens and in the reply's |
| EditEstimate.PayloadMeans | crates/subbake-core/src/editing.rs:25-75 | the payload is a JSON text that obeys the grammar and means the request: count, identifiers, instruction, lines, their sources if given, and language, whatever characters they contain |
| EditEstimate.ReplyWeighs | crates/subbake-core/src/editing.rs:107-126 | the reply's estimate lies between 64 tokens, 12 a line and one and a half times the weight of the texts, and that with the rounding of each line |
| EditEstimate.RequestWeighs | crates/subbake-core/src/editing.rs:107-153 | the request's estimate is six tokens for each message and its weight, where four ASCII characters or one other character weigh a token, rounded up for each message |
| EditPlanner.RequestsAreHereditary | crates/subbake-core/src/editing.rs:25-153 | so whatever the budget, every part of a range that fits fits as well |
| EditPlanner.RequestBudget | crates/subbake-adapters/src/editing.rs:321-325 | a request fits if and only if its reply has at most 3000 tokens and both together are within the budget; a budget of zero or of the largest machine number refuses nothing |
| EditPlanner.GrowBatch | crates/subbake-adapters/src/editing.rs:251-271 | a batch grows until one more entry would be over a limit; every shorter range from its start fits |
| EditPlanner.PlanBatches | crates/subbake-adapters/src/editing.rs:243-284 | for any way of estimating the loop yields greedy batches end to end, or the entry where it got stuck |
| EditPlanner.PlanEditBatches | crates/subbake-adapters/src/editing.rs:243-284 | planning fails if and only if some single entry does not fit, and names the first one; otherwise the ranges tile the entries with greedy batches of at most 48, each cut short only where one more entry would not fit, and no other plan has fewer |
| EditPlanner.GreedyStaysAhead | crates/subbake-adapters/src/editing.rs:243-284 | a greedy plan that starts no earlier than another is never longer |
| EditPlanner.EntriesFit | crates/subbake-adapters/src/editing.rs:271-279 | a plan shows that every entry it covers fits on its own |

## Left out

- SHA-256: an arbitrary function, assumed free of collisions on the payloads involved.
- JSON as bytes in the store: shard files and segments are JSON values or "not JSON"; a state file that parses reads back as the state that was written; the acceptance of arrays for records by the deserialiser is not modelled.
- Atomic file writes inside the checkpoint store are single events that may fail before or after reaching the disk; crash durability (fsync) is not modelled.
- Machine integers: counts, indexes and durations are natural numbers, except where a saturating or checked operation is part of a statement (`USIZE_MAX`, 32-bit canvases, 128-bit products); the sums of token estimates over a range are not saturated in the source either.
- ObjectScanner.ExtractJsonObject: does not model the 32-bit depth counter, which only texts with more than two thousand million opening braces could wrap.
- Install.CommitStagedInstall: clean-up operations (removing temporaries, backups and dropped files, renaming back) are taken to succeed, forward operations may fail; temporary names are unused names and the target directory holds regular files only; creating the directory is not modelled.
- AtomicWriter.WritersAreSafe: does not cover runs in which somebody removes a lock that is there, because the claim is false for them, as `AtomicWriter.StaleLockBreaksExclusion` shows; permissions and the Windows rename path are not modelled.
- Supervisor.AlarmReturns: assumes that terminating the process group lets both pipes reach end of file; thread panics, spawning and the child itself are not modelled.
- Lossy UTF-8 decoding and trimming of lines is an arbitrary function.
- Transcription.Transcribe: the recogniser is a parameter; resegmentation, identifiers, postprocessing, timestamp formatting and parsing, the timeline shift, coverage checks and cached chunks are not modelled.
- Streaming.ConsumeTranslationChunks: translation and the store's group files are one call that may answer anything or fail; usage counters, progress and the final publication are not modelled.
- BitmapCues.RenderCues: decoder time stamps are given in milliseconds and an image stands for its fingerprint; writing the image files and reusing their paths are not modelled.
- Raster.FrameToOcrImage: frames with a visible pixel and zero width are excluded, because the source divides by the width.
- OcrPool.RecognizeUniqueImages: a worker panic and the poisoned locks it leaves are not modelled.
- Pes.ExtractDvbSubtitle: packet data is given as bytes; parsing ffprobe's hexadecimal dump and time base is not modelled.
- Settings, caches, glossaries, translation memory, translation prompts, HTTP, downloads, user interfaces and batch bookkeeping are not modelled.
