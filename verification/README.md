# Verified models of the cli, base and blobs packages

This project models the parts of the repository that carry algorithmic or concurrent content, and
proves what they promise:

- **Log merging.** Log files are decoded into streams that never go back in time
  (`FileLogStream.dfy`), read ahead by producer goroutines (`BufferedLogStream.dfy`), merged by a
  binary heap whose root changes its key while it sits in the heap (`MergedStream.dfy`,
  `LogMerging.dfy`), and rendered, filtered and written by three goroutines that share two buffers
  (`LogPipeline.dfy`).
- **Starting and stopping a server.** The startup and the shutdown goroutine settle through
  `serverStatus` who owns the stopper (`ServerStatus.dfy`).
- **Blob streaming.** Content is cut into chunks, reassembled through reads of any size
  (`BlobStream.dfy`), and published by moving a finished temporary file (`BlobStorage.dfy`).
- **Store specifications.** Parsing the `--store` flag, what each of its fields means, and printing it
  again (`StoreSpec.dfy`, `StoreSpecLaws.dfy`, `StoreSpecPrint.dfy`, `StoreSpecRoundTrip.dfy`, `Text.dfy`),
  with the normalisation of Pebble options (`PebbleOptions.dfy`).
- **JSON with comments.** Two hand-written passes turn it into JSON (`Jsonc.dfy`, `JsoncPasses.dfy`,
  `JsoncLaws.dfy`).
- **Cluster tools.** The durability checker (`Synctest.dfy`), the raft state check of a store
  (`RaftCheck.dfy`), verification of a recovery plan (`RecoveryVerify.dfy`), decommissioning
  (`Decommission.dfy`) and undoing UTF-8 (`Utf8.dfy`).

Code that changes things step by step is modelled by classes and methods with loops, each proved
against a specification on values; what the source promises is then proved about that specification.
Goroutines are transition systems: a state, steps that are enabled or not, and invariants over every
run. A run is any interleaving; schedulers are arbitrary functions that pick an enabled step.

`dafny verify dfyconfig.toml` checks the whole project.

## Where code and documentation differ

- `StoreSpec.String` is documented as fully parsable. It is, exactly for the specifications described by
  `Printable` in `StoreSpecRoundTrip.dfy`: RocksDB options, a zero ballast and a negative bandwidth are
  not printed, and a line break inside Pebble brackets comes back as a space.
- The Pebble loop does not end for every option string. It spins at a `[` without a later `]`, and at a
  run of whitespace outside brackets that starts with whitespace beyond ASCII; further whitespace in a run
  is trimmed, whatever it is. The model gives such calls the outcome `Hang`.
- A merge of log files is meant to deliver the entries of all files until an error stops it. A file that
  fails also cancels the producers of the other files, which may each drop the rest of their file without an
  error, so that earlier entries of other files can be missing in front of what is still delivered.
  `MergedIffNothingEarlierDropped` says exactly when nothing is missing, and `FailureLosesAnEntry` and
  `CancellingLosesAnEntry` show the loss. The error itself is always reported.
- A file that is still empty when the merge first looks at it is left out, even if it grows before the rest
  of the files is read.
- A file stream is meant to skip the entry it has already seen when it reopens its file. It does so
  exactly if that entry was the first one decoded and its time was not ratcheted.
- A trailing comma survives the JSONC passes exactly if another comma stands right before it.
- A block comment that is still open at the end of the text loses a newline if that is its last
  character.
- A write that panics in the durability checker keeps its sequence number, and with it a later check
  may raise a false alarm.
- The verdict on a recovery plan that names only stale leaseholders ignores nodes where it is pending and
  dead nodes that are not decommissioned; `CompleteThoughNotApplied` in `RecoveryVerify.dfy` says exactly
  when a plan passes that was not fully applied.

## Model

| member | source | states |
|---|---|---|
| LogPipeline.BufferEntry | pkg/cli/debug_merge_logs.go:103-143 | an entry of a tenant not asked for adds nothing; otherwise, unless rendering fails, it adds its whole text without a filter or if the filter matches without groups, the groups and a newline if there are some, and nothing if the filter does not match; what was pending before stays in front even after an error |
| LogPipeline.StepKeepsInv | pkg/cli/debug_merge_logs.go:73-163 | every step of the reader, the bufferer or the writer keeps the pipeline invariant: no entry lost or reordered, the two buffers apart, bytes written, held and pending together equal to what the entries taken emit, early returns only after a recorded error |
| LogPipeline.RunInv | pkg/cli/debug_merge_logs.go:73-163 | the invariant holds at the end of every interleaving |
| LogPipeline.BytesAreInOrder | pkg/cli/debug_merge_logs.go:73-163 | in every reachable state the output is a prefix of the rendered and filtered input, and output, then the unwritten part of the writer's buffer, then the pending buffer equal what the entries taken so far emit, unless the writer has given up after an error |
| LogPipeline.WriterBufferUntouched | pkg/cli/debug_merge_logs.go:88-159 | no step of any goroutine changes the buffer the writer holds, although both buffers are reused |
| LogPipeline.ErrorFreeRunWritesEverything | pkg/cli/debug_merge_logs.go:161-163 | a run that ends without an error has written everything; the stream did not fail and every wanted entry was rendered |
| LogPipeline.ErrorsAreEarned | pkg/cli/debug_merge_logs.go:73-163 | in every run an error of the stream means that the stream failed, one in rendering that an entry asked for does not render, and one in writing that a write was given up |
| LogPipeline.NoDeadlock | pkg/cli/debug_merge_logs.go:73-163 | until all three goroutines are done some step is possible, after errors too |
| LogPipeline.StepIsProgress | pkg/cli/debug_merge_logs.go:73-163 | every step uses up work, only extends the output, and never replaces the first error |
| LogPipeline.Complete | pkg/cli/debug_merge_logs.go:73-163 | under any scheduler the pipeline reaches a state where all goroutines are done; output and first error only grow on the way |
| LogPipeline.EveryScheduleFinishes | pkg/cli/debug_merge_logs.go:42-164 | whatever the scheduler does, the pipeline finishes, with a prefix of the expected output, and with all of it if there was no error |
| LogPipeline.SoundJobSucceeds | pkg/cli/debug_merge_logs.go:42-164 | if the stream does not fail, every entry asked for renders and no write fails, every schedule ends without an error and has written everything |
| MergeSpec.FlattenAdvance | pkg/cli/debug_merge_logs.go:279-294 | taking the next entry of one file removes exactly that entry from the multiset of entries left |
| MergeSpec.MergingSnoc | pkg/cli/debug_merge_logs.go:279-294 | delivering an entry no later than any other next entry keeps the output sorted, every file accounted for in its own order, and the multiset of all entries |
| MergeSpec.MergeEnds | pkg/cli/debug_merge_logs.go:76-87 | with nothing left, the output is sorted, holds every file whole in its own order, and is multiset-equal to all files |
| MergeSpec.AccountedEntries | pkg/cli/debug_merge_logs.go:279-294 | if every file is accounted for as delivered part and rest, so is the multiset of all entries |
| MergeSpec.CutMergeIsMergeIff | pkg/cli/debug_merge_logs.go:411-431 | what was delivered of files that were cut short begins the merge of the whole files if and only if no entry that was cut off is earlier than the last one delivered |
| MergeSpec.FailureLosesAnEntry | pkg/cli/debug_merge_logs.go:411-431 | file 0 with times 1 and 3 and then an error, file 1 with times 1 and 2: the output 1, 1, 3 and then the error is possible, and it begins no merge of the two files |
| MergedStreams.RootComesFirst | pkg/cli/debug_merge_logs.go:252-259 | in a heap no stream comes before the root |
| MergedStreams.SiftUpStep | pkg/cli/debug_merge_logs.go:261-263 | swapping with the parent moves the only place where the heap may be broken up there |
| MergedStreams.SiftDownStep | pkg/cli/debug_merge_logs.go:265-270 | swapping with the first child moves the only place where the heap may be broken down there |
| MergedStreams.SiftDownEnds | pkg/cli/debug_merge_logs.go:265-270 | when the first child is not before its parent, everything from the start position on is a heap |
| MergedStreams.RootAdvanced | pkg/cli/debug_merge_logs.go:279-285 | advancing the root stream can break a heap only between the root and its children |
| MergedStreams.MergedStream.Swap | pkg/cli/debug_merge_logs.go:251 | swaps two streams and changes nothing else |
| MergedStreams.MergedStream.Up | pkg/cli/debug_merge_logs.go:261-263 | sifting the last stream up restores the heap and keeps the multiset of streams |
| MergedStreams.MergedStream.Down | pkg/cli/debug_merge_logs.go:265-270 | sifting down restores the heap below a position, keeps the multiset of streams, and leaves the streams behind the given bound in place |
| MergedStreams.MergedStream.constructor | pkg/cli/debug_merge_logs.go:245-247 | heap.Init makes a heap of exactly the given streams |
| MergedStreams.MergedStream.HeapPush | pkg/cli/debug_merge_logs.go:261-263 | pushing keeps the heap and adds exactly one stream |
| MergedStreams.MergedStream.HeapPop | pkg/cli/debug_merge_logs.go:265-270 | popping returns the root and leaves a heap of the others, even if the root's key has changed |
| MergedStreams.MergedStream.Peek | pkg/cli/debug_merge_logs.go:272-277 | shows the root's next entry, if there is one |
| MergedStreams.MergedStream.Reposition | pkg/cli/debug_merge_logs.go:286-293 | popping and pushing repairs a heap broken at the root; a finished stream leaves, and a failed one stays at the root and stops the merge |
| MergedStreams.MergedStream.Pop | pkg/cli/debug_merge_logs.go:279-294 | delivers the root's entry, advances that stream alone, and keeps the heap valid; the outcome says whether that stream is finished or failed |
| MergedStreams.MergedStream.RootIsEarliest | pkg/cli/debug_merge_logs.go:252-259 | the root of a valid merge holds the earliest next entry of all its streams |
| MergedStreams.MergedStream.TakeEarliest | pkg/cli/debug_merge_logs.go:272-294 | peek and pop together take the earliest entry left, with the file it came from |
| MergeReading.TakeTracked | pkg/cli/debug_merge_logs.go:272-294 | the entry taken is the earliest of all files, finished ones included, and only its file advances |
| MergeReading.ReadOne | pkg/cli/debug_merge_logs.go:76-87 | handing on the entry at the root and popping it extends the merge by one entry |
| MergeReading.Drain | pkg/cli/debug_merge_logs.go:76-87 | the reading loop ends with a merge of everything delivered, and with no stream left or a failed one at the root |
| MergeReading.DrainedOrFailed | pkg/cli/debug_merge_logs.go:303-308 | a merge that has stopped has either delivered every file whole without error, or shows the failed stream |
| MergeReading.ReadAll | pkg/cli/debug_merge_logs.go:76-87 | without an error the output is the merge of all files; with one it is the beginning of such a merge, and the failed file was delivered whole |
| LogMerging.OpenOne | pkg/cli/debug_merge_logs.go:218-241 | opens the file stream and the view the merge has of it, which shows all of what the file stream delivers or, cut, a beginning of it; no stream exactly if there is no entry, and the error of a file that fails before delivering anything |
| LogMerging.PeekAlike | pkg/cli/debug_merge_logs.go:522-558 | peeking at a file stream answers as peeking at the view of it as long as the view has entries, and at the end of an uncut view leaves the error the view stands for |
| LogMerging.PopAlike | pkg/cli/debug_merge_logs.go:560-566 | popping a file stream and the view of it returns the same entry and keeps them in agreement, cut or not |
| LogMerging.OpenAll | pkg/cli/debug_merge_logs.go:218-245 | one stream per file in order, live exactly if it has an entry, delivering the kept part of its file, or the error of some file that fails at once |
| LogMerging.NewMergedStream | pkg/cli/debug_merge_logs.go:237-248 | a valid merge of the live streams in which every file is accounted for |
| LogMerging.MergeOpened | pkg/cli/debug_merge_logs.go:237-294 | reading the merge of the opened streams gives the beginning of the merge of the kept parts, the whole of it without an error, and an error if and only if a file fails whose stream is not cut |
| LogMerging.MergeLogFiles | pkg/cli/debug_merge_logs.go:208-294 | from decoded files to entries, for every way in which a failing file may cut the streams of the others: the output is sorted, holds a prefix of each file in its own order and begins the merge of the cut files; there is an error if and only if a file does not end with the end of file, and without one nothing is cut and the output is the whole merge |
| LogMerging.MergedIffNothingEarlierDropped | pkg/cli/debug_merge_logs.go:208-294 | the output begins the merge of the whole files if and only if no dropped entry is earlier than the last one delivered |
| LogMerging.PipelineWritesTheMerge | pkg/cli/debug_merge_logs.go:42-164 | from decoded files to bytes: under any scheduler the pipeline writes a prefix of the rendered entries that the merge delivered, and a run without an error met no file that fails, has merged all files and written the whole of it |
| FileLogStreams.FileLogStream.Open | pkg/cli/debug_merge_logs.go:500-520 | an attempt to open the file either starts decoding at its beginning, with the seen entry to be skipped, or records the error; what is to be delivered stays the same |
| FileLogStreams.FileLogStream.Decode | pkg/cli/debug_merge_logs.go:531-555 | one decoded entry is skipped, ratcheted, filtered, delivered or ends the stream, in agreement with what the stream has yet to deliver |
| FileLogStreams.FileLogStream.Peek | pkg/cli/debug_merge_logs.go:522-558 | returns the next entry of what the stream has yet to deliver without consuming it, across opening, skipping the entry already seen, ratcheting, filtering and the end |
| FileLogStreams.FileLogStream.Pop | pkg/cli/debug_merge_logs.go:560-566 | returns and consumes exactly the next entry; at the end it changes nothing and reports how the stream ended |
| FileLogStreams.NewFileLogStream | pkg/cli/debug_merge_logs.go:474-492 | after the first peek and the close the stream still delivers all of `Streamed`; there is no stream exactly if there is no entry, and then an error other than the end of file is passed on |
| FileLogStreams.DeliverRatchets | pkg/cli/debug_merge_logs.go:541-555 | delivered entries are the decoded ones with times raised to the running maximum, up to the first that lands after `to` |
| FileLogStreams.RaisedIsRunningMax | pkg/cli/debug_merge_logs.go:541-546 | the time an entry is raised to is the largest so far |
| FileLogStreams.DeliveredExactly | pkg/cli/debug_merge_logs.go:541-555 | exactly the entries whose raised time is not before `from` are delivered, up to and excluding the first whose raised time is after `to`; both ends of the window belong to it |
| FileLogStreams.DeliveredInOrder | pkg/cli/debug_merge_logs.go:541-555 | delivered times never go back, never precede the ratchet, and satisfy `from` <= time <= `to` |
| FileLogStreams.StreamedInOrder | pkg/cli/debug_merge_logs.go:474-566 | the same for a stream's whole life, whatever the two openings of the file find and however they turn out |
| FileLogStreams.StartingOverRepeats | pkg/cli/debug_merge_logs.go:500-558 | decoding again from the first delivered time delivers no fewer entries |
| FileLogStreams.FirstDelivered | pkg/cli/debug_merge_logs.go:522-558 | the first entry delivered stays the same however the file is extended |
| FileLogStreams.ReopenIsExact | pkg/cli/debug_merge_logs.go:474-566 | for a file that was at most appended to in between, closing and reopening loses and repeats nothing of the later file if and only if the first decoded entry has no negative time and is not before `from` or, when the first opening delivers nothing, the later file delivers nothing either and ends the same |
| FileLogStreams.NegativeTimeIsRepeated | pkg/cli/debug_merge_logs.go:537-546 | a file whose only entry has time -1 delivers that entry twice |
| FileLogStreams.LateFileIsLeftOut | pkg/cli/debug_merge_logs.go:483-488 | a file that is still empty when it is first opened is left out, whatever it holds later |
| FileLogStreams.StreamedEntries | pkg/cli/debug_merge_logs.go:474-566 | under that condition, entry by entry: what is delivered, with which times, where it is cut, and how it ends |
| BufferedLogStreams.PopAfterPeek | pkg/cli/debug_merge_logs.go:433-451 | a pop right after a peek returns what the peek returned |
| BufferedLogStreams.PopsAreThePrefix | pkg/cli/debug_merge_logs.go:447-451 | the entries popped are the beginning of the stream, in order, each once |
| BufferedLogStreams.StepKeepsInv | pkg/cli/debug_merge_logs.go:411-451 | every step of producer and consumer, and cancelling, keeps entries in place: consumed, current, in the channel, held, or still in the wrapped stream |
| BufferedLogStreams.RunInv | pkg/cli/debug_merge_logs.go:390-451 | that holds at the end of every interleaving |
| BufferedLogStreams.RefinesWrappedStream | pkg/cli/debug_merge_logs.go:390-451 | for every interleaving and every mix of calls, all answers are those of the wrapped stream itself; only after cancelling may they be those of a shorter one |
| BufferedLogStreams.CancellingLosesAnEntry | pkg/cli/debug_merge_logs.go:411-431 | a run in which a cancelled producer takes the second of two entries and drops it, and the stream ends after the first without an error |
| BufferedLogStreams.CallsAreNeverStuck | pkg/cli/debug_merge_logs.go:433-451 | a call in progress can always be continued |
| BufferedLogStreams.FinishCall | pkg/cli/debug_merge_logs.go:433-451 | under any scheduler, and whenever the context is cancelled, a call that was started returns with one more answer |
| LogStreamGroups.StepKeepsInv | pkg/cli/debug_merge_logs.go:237-241 | every step of any stream of the group, and cancelling the context they share, keeps the invariant of each stream and keeps the context uncancelled until a producer has read a failing file to its end |
| LogStreamGroups.RunInv | pkg/cli/debug_merge_logs.go:237-241 | that holds at the end of every interleaving of all streams |
| LogStreamGroups.StreamsAnswerAsCut | pkg/cli/debug_merge_logs.go:237-241 | in every interleaving each stream answers as a plain stream of the first part of its file; the first entry is always part of it, and anything is cut off only if a file fails that is itself not cut |
| ServerStatuses.ServerStatus.SetStarted | pkg/cli/start.go:921-930 | takes over server and stopper exactly if no shutdown was requested before |
| ServerStatuses.ServerStatus.StartShutdown | pkg/cli/start.go:944-949 | requests the shutdown and hands out server and stopper exactly if the server was started before |
| ServerStatuses.StepKeepsInv | pkg/cli/start.go:804-862 | every step of the startup, watcher, shutdown and waiting goroutines keeps ownership of the stopper unique, the log of calls in agreement with it, and the order of the calls of each goroutine |
| ServerStatuses.RunInv | pkg/cli/start.go:804-1151 | that holds at the end of every interleaving |
| ServerStatuses.StopIsCalledOnce | pkg/cli/start.go:804-862 | Stop is called at most once; exactly once when both goroutines have finished after setStarted was reached, and never if it was not reached |
| ServerStatuses.DrainAndAcceptOnlyAfterStart | pkg/cli/start.go:1113-1151 | Drain is called only if setStarted took over before shutdown began, and clients are accepted only if shutdown had not begun when the server was set started |
| ServerStatuses.StopFollowsDrainIffAsked | pkg/cli/start.go:980-1012 | when the shutdown goroutine stops the server, it has drained it if and only if the cause was a signal or a request of the server and not an error of the startup; when the startup goroutine stops it, shutdown had begun before setStarted and nothing was drained |
| ServerStatuses.OneCause | pkg/cli/start.go:980-1012 | a shutdown has exactly one cause, from the moment the main goroutine stops waiting for one |
| ServerStatuses.StartupIsInOrder | pkg/cli/start.go:804-865 | a server that runs has gone through all startup calls in order and each without an error; a failed startup ends with its first error; one that met a shutdown went no further |
| ServerStatuses.RequestsAreMeant | pkg/cli/start.go:864-882 | the request of a failed startup is waiting or was the cause of the shutdown, and only a failed startup sends one; a request of the server comes from its watcher |
| ServerStatuses.NobodyIsStuck | pkg/cli/start.go:968-1151 | the startup goroutine is never blocked, and once a shutdown is under way either its goroutine or the waiting main goroutine can go on |
| ServerStatuses.StepIsProgress | pkg/cli/start.go:804-1151 | every step of any goroutine uses up work and only extends the log of calls |
| ServerStatuses.ReturnedMeansShutDown | pkg/cli/start.go:1080-1108 | waitForShutdown returns only after the shutdown goroutine has come to its end, having stopped the stopper once if the server was started, and drained it if and only if it was started and the cause was no startup error |
| ServerStatuses.UntilReturned | pkg/cli/start.go:968-1151 | under every scheduler waitForShutdown returns, the shutdown goroutine has come to its end by then, it used the stopper exactly if the server was started, then Stop was called exactly once, and Drain was called if and only if setStarted took over and the cause was a signal or a request of the server |
| BlobStreams.BlobStreamReader.UseLastPayload | pkg/blobs/stream.go:84-95 | starts a read with what is left of the last message and keeps what does not fit |
| BlobStreams.BlobStreamReader.ReceiveInto | pkg/blobs/stream.go:96-116 | one message extends the read, and what does not fit is kept for the next |
| BlobStreams.BlobStreamReader.Read | pkg/blobs/stream.go:79-118 | returns the next unread bytes, as many as fit unless the stream ends; the end is reported by the read after the one that met it |
| BlobStreams.StreamContent | pkg/blobs/stream.go:131-147 | sends exactly the content, in non-empty chunks of at most the chunk size, whatever the reader's short reads; a failed send leaves the beginning of it sent |
| BlobStreams.ServeContent | pkg/blobs/service.go:55-62 | a call that ends without an error has sent all of the content, and one that does not a prefix of it |
| BlobStreams.StreamWriter.Write | pkg/blobs/client.go:83-97 | everything up to the reported count is sent in order and in proper chunks, and all of it without an error |
| BlobStreams.WriteAll | pkg/blobs/client.go:83-112 | any sequence of writes sends the concatenation of what was written |
| BlobStreams.ReadWith | pkg/blobs/stream.go:79-118 | reads of any sizes return a prefix of the content, and all of it once the end is reported |
| BlobStreams.GetBlob | pkg/blobs/service.go:55-62 | sending and reading end to end, for every chunk size, every sequence of read sizes and every failure of the content or the sending: the client gets a prefix of the content, sees the end of file only after all of it, and no other error if nothing failed |
| BlobStorage.LocalWriter.Write | pkg/blobs/local_storage.go:78-80 | appends to the temporary file as much as fits |
| BlobStorage.LocalWriter.Close | pkg/blobs/local_storage.go:82-100 | moves the finished file over the destination, or leaves everything but the temporary file alone |
| BlobStorage.OpenWriter | pkg/blobs/local_storage.go:103-131 | creates an empty temporary file, or nothing if the context is done or creation fails |
| BlobStorage.CopyOnce | pkg/blobs/service.go:85-88 | one round of the copy moves received bytes to the temporary file or ends the copy, with an error exactly if the stream failed or the bytes do not fit |
| BlobStorage.Copy | pkg/blobs/service.go:85-88 | the temporary file receives a prefix of what was streamed, and all of it exactly if the stream ends and the bytes fit |
| BlobStorage.CopyAndClose | pkg/blobs/service.go:85-91 | after the copy the file is published, or, after an error, the context is cancelled first and nothing but the temporary file changes; that file is removed, if it can be, after a receive error, a write error or a cancellation, and left behind when syncing, closing or moving fails |
| BlobStorage.PutStream | pkg/blobs/service.go:65-92 | succeeds exactly if nothing goes wrong, and then only the destination changed and holds all received bytes; otherwise at most the temporary file is left behind, and if removing works, exactly when all bytes were received and written but syncing, closing or moving failed |
| BlobStorage.PutBlob | pkg/blobs/service.go:65-92 | for any writes, chunk size and buffer size, a put publishes the concatenation of all written bytes if and only if every send worked and nothing else went wrong, and otherwise leaves every file unchanged but the temporary one |
| PebbleOptions.IterationStep | pkg/base/store_spec.go:484-505 | one iteration peels off the front of the normal form, or makes no progress and there is none |
| PebbleOptions.IterationPeels | pkg/base/store_spec.go:484-505 | every iteration agrees with the normal form; one that consumes nothing also writes nothing, and then there is no normal form |
| PebbleOptions.Normalize | pkg/base/store_spec.go:478-505 | on every value the loop either ends with the normal form in its buffer, brackets verbatim and every other run of whitespace one newline, or comes to an iteration that changes nothing, and then there is no normal form |
| PebbleOptions.NormExistsIff | pkg/base/store_spec.go:484-505 | for every string, there is a normal form if and only if every '[' has a later ']' and no run of whitespace outside brackets starts with whitespace beyond ASCII |
| PebbleOptions.LoopEndsIff | pkg/base/store_spec.go:484-505 | for every value, the coded loop ends if and only if every '[' has a later ']' and no run of whitespace outside brackets starts with whitespace beyond ASCII, and then its buffer holds the normal form |
| PebbleOptions.AsciiEndsIff | pkg/base/store_spec.go:484-505 | on ASCII values only the brackets matter: the loop ends if and only if every '[' has a later ']' |
| PebbleOptions.WideSpaceSpins | pkg/base/store_spec.go:500-504 | whitespace beyond ASCII that is the first delimiter makes the loop spin |
| PebbleOptions.NormIsNormal | pkg/base/store_spec.go:484-505 | a normal form has closed brackets, single newlines each followed by text, and no other whitespace outside brackets |
| PebbleOptions.NormOfPrinted | pkg/base/store_spec.go:326-331 | normalising printed options restores everything but newlines inside brackets |
| PebbleOptions.StanzasSpacedIff | pkg/base/store_spec.go:326-331 | that changes nothing if and only if no bracket spans lines |
| PebbleOptions.PrintedOptionsComeBack | pkg/base/store_spec.go:326-331 | printing and normalising again is the identity on options if and only if no bracket spans lines |
| Text.SplitJoin | pkg/base/store_spec.go:400-404 | splitting undoes joining parts that are free of the separator |
| Text.SortSorts | pkg/base/store_spec.go:466-469 | sorting distinct strings keeps exactly them and puts them in strictly ascending order |
| Text.LessIsLexicographic | pkg/base/store_spec.go:466-469 | strings are ordered by prefix and by the first character in which they differ |
| StoreSpecs.NewStoreProvisionedRateSpec | pkg/base/store_spec.go:186-243 | the loop with its map of used fields computes the specified rate or rejects, field by field |
| StoreSpecs.ParseAttrs | pkg/base/store_spec.go:457-469 | attributes are accepted exactly if distinct, and then sorted |
| StoreSpecs.NewStoreSpec | pkg/base/store_spec.go:393-542 | the loop over the fields and the checks after it compute the specified outcome on every string |
| StoreSpecLaws.SizeField | pkg/base/store_spec.go:83-131 | next to a path, a fraction f ending in % is f percent and one that does not is 100 f percent, accepted from 1 to 100; any other size is a number of bytes, accepted from 640 MiB on; all else is rejected |
| StoreSpecLaws.BallastField | pkg/base/store_spec.go:83-131 | the same for a ballast, from 0 to 50 percent or any number of bytes that is not negative |
| StoreSpecLaws.HalfTheDisk | pkg/base/store_spec.go:88-96 | `path=a,size=0.5` is half the disk |
| StoreSpecLaws.AttrsField | pkg/base/store_spec.go:457-469 | next to a path, attributes are accepted if and only if no two are the same, and kept exactly, in ascending order |
| StoreSpecLaws.VerbatimFields | pkg/base/store_spec.go:476-521 | RocksDB options and the remote storage are taken as they are |
| StoreSpecLaws.PebbleField | pkg/base/store_spec.go:478-513 | Pebble options are kept in their normal form if Pebble accepts it, rejected if it does not, and parsing does not end if there is none |
| StoreSpecLaws.TypeField | pkg/base/store_spec.go:470-475 | a store with a path is never of a type |
| StoreSpecLaws.ProvisionedRateField | pkg/base/store_spec.go:186-243 | a disk and a bandwidth are accepted if and only if the amount is a number of bytes other than zero |
| StoreSpecLaws.ProvisionedDiskField | pkg/base/store_spec.go:186-243 | a disk alone is accepted, with no bandwidth |
| StoreSpecLaws.RateWithBandwidth | pkg/base/store_spec.go:186-243 | the two may stand in either order |
| StoreSpecLaws.RateOfOneField | pkg/base/store_spec.go:186-243 | of one field only a disk name that is not empty makes a rate |
| StoreSpecLaws.SpoiledRate | pkg/base/store_spec.go:186-243 | next to a disk any other field, a second disk, or a bandwidth that is not per second is rejected |
| StoreSpecLaws.OtherFields | pkg/base/store_spec.go:404-525 | next to a path, a second path, an unknown field and an empty value are rejected, and an empty name is passed over |
| StoreSpecLaws.NoFieldTwice | pkg/base/store_spec.go:404-430 | no text is accepted in which a field occurs twice, however it is written and wherever it stands |
| StoreSpecLaws.BarePath | pkg/base/store_spec.go:404-420 | a text without a name is a path, and the empty text is rejected |
| StoreSpecLaws.PathIsMissing | pkg/base/store_spec.go:527-540 | any one field but a path is rejected |
| StoreSpecLaws.InMemory | pkg/base/store_spec.go:527-540 | in memory, a size is accepted as on disk, and any other single field is rejected |
| StoreSpecLaws.AcceptedStores | pkg/base/store_spec.go:527-541 | every accepted store has a path, or is in memory with a size and without a ballast |
| StoreSpecLaws.OptionText | pkg/base/store_spec.go:484-505 | printable characters other than blanks and opening brackets are copied |
| StoreSpecLaws.OptionStanza | pkg/base/store_spec.go:484-505 | brackets are copied with what is in them, and one that stays open has no normal form |
| StoreSpecLaws.OptionBreak | pkg/base/store_spec.go:484-505 | a run of ASCII blanks becomes one newline |
| StoreSpecLaws.OptionEnds | pkg/base/store_spec.go:484 | blanks around the options are dropped |
| StoreSpecLaws.PrintsInOrder | pkg/base/store_spec.go:292-350 | a specification on disk with every part prints them in this order, newlines of the options as spaces |
| StoreSpecLaws.PrintsInMemory | pkg/base/store_spec.go:292-350 | a store in memory prints its type and its size in percent |
| StoreSpecPrinting.PrintAttrs | pkg/base/store_spec.go:316-325 | the loop prints the attributes joined by colons |
| StoreSpecPrinting.String | pkg/base/store_spec.go:292-350 | the buffer with its last comma cut off is the join of the parts that are present |
| StoreSpecRoundTrip.ParsedIsAccepted | pkg/base/store_spec.go:393-542 | every parsed specification is consistent, its sizes are in range, its attributes sorted and distinct, its options normal, and no text in it contains a separator |
| StoreSpecRoundTrip.PrintedRateParses | pkg/base/store_spec.go:186-243 | a printed rate parses back, except that a bandwidth that is not positive is lost |
| StoreSpecRoundTrip.ReparsePrinted | pkg/base/store_spec.go:292-350 | what parsing makes of a printed specification, in full, for every accepted one |
| StoreSpecRoundTrip.RoundTrip | pkg/base/store_spec.go:292-542 | for every string the parser accepts, the printed specification parses back to an equal one if and only if it has no RocksDB options, no zero ballast, no negative bandwidth and no line break inside Pebble brackets |
| StoreSpecRoundTrip.RocksdbIsLost | pkg/base/store_spec.go:292-350 | `path=a,rocksdb=b` is accepted, and its printed form does not parse back to it |
| StoreSpecRoundTrip.ZeroBallastIsLost | pkg/base/store_spec.go:308-315 | nor does that of `path=a,ballast-size=0` |
| StoreSpecRoundTrip.NegativeBandwidthIsLost | pkg/base/store_spec.go:332-341 | nor that of any provisioned rate with a negative bandwidth |
| StoreSpecRoundTrip.LineBreakInBracketsIsLost | pkg/base/store_spec.go:326-331 | nor that of any Pebble options with one bracket that spans two lines |
| StoreSpecRoundTrip.BracketedInputIsLost | pkg/base/store_spec.go:326-331 | such as the bracket `[a=b`, line break, `c=d]` |
| JsoncTokens.LexIsLossless | pkg/cli/ratel.go:1119-1166 | the tokens of a text together are the text |
| JsoncTokens.LexOfText | pkg/cli/ratel.go:1119-1202 | lexing the text of proper tokens finds those tokens again, with and without comments |
| JsoncComments.LineEnd | pkg/cli/ratel.go:1143-1150 | the inner loop stops at the end of the line |
| JsoncComments.ScanBlock | pkg/cli/ratel.go:1151-1160 | the inner loop stops past the end of the block comment, or at the end of the text, and has kept the newlines before its last character |
| JsoncComments.StripJSONCComments | pkg/cli/ratel.go:1119-1166 | the index loop with its flags computes the text of the tokens that stay: code and literals unchanged, comments reduced to newlines |
| JsoncComments.KeptIsClean | pkg/cli/ratel.go:1119-1166 | what stays contains no comment and never reads as the start of one |
| JsoncComments.LexOfStripped | pkg/cli/ratel.go:1119-1166 | lexing the result finds exactly the tokens kept, whether or not comments are looked for |
| JsoncComments.StripIsIdempotent | pkg/cli/ratel.go:1119-1166 | stripping twice is stripping once |
| JsoncComments.StripKeepsLiterals | pkg/cli/ratel.go:1124-1140 | string literals come through unchanged and in order |
| JsoncComments.StripCountsNewlines | pkg/cli/ratel.go:1141-1162 | the newlines lost are exactly those that end an unterminated block comment |
| JsoncComments.StripKeepsLinesIff | pkg/cli/ratel.go:1141-1162 | the number of lines is kept if and only if no block comment is left open at a newline |
| JsoncComments.OpenCommentLosesALine | pkg/cli/ratel.go:1151-1160 | the text of an opened comment and a newline loses its newline |
| JsoncCommas.LexOfStripped | pkg/cli/ratel.go:1168-1202 | lexing the result finds the tokens without the trailing commas, and with them all literals |
| JsoncCommas.SolidOfDropped | pkg/cli/ratel.go:1190-1198 | dropping trailing commas keeps the first token that is not whitespace, or replaces a dropped comma by the bracket behind it |
| JsoncCommas.TrailingLeftIff | pkg/cli/ratel.go:1190-1198 | a trailing comma is left if and only if two commas stand in front of a closing bracket |
| JsoncCommas.StackedCommaIsLeft | pkg/cli/ratel.go:1190-1198 | of two commas in front of a bracket one is left |
| JsoncCommas.LookAhead | pkg/cli/ratel.go:1190-1198 | looking at the characters after a comma decides about the tokens after it |
| JsoncCommas.StripJSONCTrailingCommas | pkg/cli/ratel.go:1168-1202 | the index loop computes the text of the tokens without trailing commas |
| JsoncPasses.StripJSONC | pkg/cli/ratel.go:850-851 | the two passes in sequence compute the specified text |
| JsoncLaws.PlainTextIsKept | pkg/cli/ratel.go:1119-1166 | the first pass keeps text without quotes and slashes |
| JsoncLaws.SlashIsKept | pkg/cli/ratel.go:1141-1162 | it keeps a slash that starts no comment |
| JsoncLaws.LineCommentIsDropped | pkg/cli/ratel.go:1143-1150 | it drops a line comment up to the newline, which stays, or to the end |
| JsoncLaws.BlockCommentIsDropped | pkg/cli/ratel.go:1151-1160 | it replaces a block comment by as many newlines as are in it |
| JsoncLaws.LiteralIsKept | pkg/cli/ratel.go:1124-1140 | it keeps a literal, escapes included, whatever is in it |
| JsoncLaws.TrailingCommasAreDropped | pkg/cli/ratel.go:1190-1198 | the second pass drops a comma if and only if only spaces, tabs, carriage returns and newlines separate it from a `}` or `]`; all other characters and all literals stay in order |
| JsoncLaws.OnlyTrailingCommasAreDropped | pkg/cli/ratel.go:850-851 | after both passes every token the first one keeps is left, but for exactly those commas |
| JsoncLaws.NoTrailingCommaIsLeft | pkg/cli/ratel.go:850-851 | unless two commas are separated only by such whitespace and comments, no comma is left that only whitespace separates from a `}` or `]` |
| JsoncPasses.TokensOfJson | pkg/cli/ratel.go:850-851 | both scans agree on what is inside a string: the second pass sees the tokens the first one kept, and all literals survive both |
| JsoncPasses.TrailingCommaLeftIff | pkg/cli/ratel.go:850-851 | after both passes a trailing comma is left if and only if, comments aside, two commas stand in front of a closing bracket; so none is left without adjacent commas |
| JsoncPasses.JsonIsLeftAlone | pkg/cli/ratel.go:850-851 | both passes are the identity on every JSON text of RFC 8259 |
| Synctest.WriteStaysClean | pkg/cli/debug_synctest.go:179-214 | a write that does not panic keeps 1 to the counter acknowledged and only the next key in doubt, and returns the counter |
| Synctest.FailedWriteIsInDoubt | pkg/cli/debug_synctest.go:190-213 | a failed write leaves its key in doubt, unless the key is odd and its batch was not committed |
| Synctest.PersistedIsInterval | pkg/cli/debug_synctest.go:152-156 | after any such writes the persisted keys are 1 to the counter or one more |
| Synctest.ScanOfInterval | pkg/cli/debug_synctest.go:136-148 | an ascending scan of the keys 1 to m reads 1, 2, ..., m |
| Synctest.Verify | pkg/cli/debug_synctest.go:131-156 | the check passes if and only if the scan is 1, 2, ... up to at least the expected number, and then returns where it ends |
| Synctest.CheckIsAboutKeys | pkg/cli/debug_synctest.go:136-156 | the check passes if and only if the persisted keys are exactly 1 to some m no smaller than expected |
| Synctest.LossIsDetected | pkg/cli/debug_synctest.go:136-156 | if any acknowledged key is missing, the next check fails |
| Synctest.HoleRaisesAlarm | pkg/cli/debug_synctest.go:179-189 | a key lost to a panic lets a later check fail |
| Synctest.WriteKeepsTrack | pkg/cli/debug_synctest.go:179-214 | within an epoch all is clean until a write panics, and from then on there is a hole |
| Synctest.PassesUnlessPanicked | pkg/cli/debug_synctest.go:179-234 | whichever doubtful keys survive, the next check passes, if and only if no write panicked |
| Synctest.PanicRaisesFalseAlarm | pkg/cli/debug_synctest.go:179-189 | key 1 panics and is lost, the retry writes key 2, and the next check finds an unexpected key |
| Synctest.FailAndRetry | pkg/cli/debug_synctest.go:216-233 | the failing write and its retries return the number of the last key tried, or zero if the last one panicked, and leave the directory clean or, after a panic, with a hole |
| Synctest.RunSyncer | pkg/cli/debug_synctest.go:113-243 | how an epoch ends in every case; without a panic it returns the keys found plus all acknowledged writes; a missing key raises an alarm; on a directory that keeps acknowledged writes the check raises an alarm only if the epoch before made that possible, which it did if and only if one of its writes panicked |
| Synctest.RunDebugSyncTest | pkg/cli/debug_synctest.go:75-106 | each epoch expects what the last one returned and runs in the same directory, or in a new one after a zero; a lost key ends the run with an alarm; however many epochs run and whatever fails, no check raises a false alarm unless a write panicked, and the acknowledged keys are 1 to the number expected and returned |
| RaftCheck.InfoSnoc | pkg/cli/debug_check_store.go:248-283 | what one more key changes in the record of its range, and that an anomaly is reported exactly if it breaks contiguity |
| RaftCheck.VisitReflects | pkg/cli/debug_check_store.go:242-286 | one callback keeps the collected records in agreement with everything scanned |
| RaftCheck.StoreChecker.Visit | pkg/cli/debug_check_store.go:242-286 | the callback fails exactly if the key or value does not decode, and otherwise keeps that agreement |
| RaftCheck.StoreChecker.CompareIndexes | pkg/cli/debug_check_store.go:290-311 | a problem is reported exactly if some range's indexes are inconsistent, whatever the order of the map |
| RaftCheck.ScanStore | pkg/cli/debug_check_store.go:232-288 | the scan collects the records of all ranges, or stops at the first key that does not decode |
| RaftCheck.CheckStoreRaftState | pkg/cli/debug_check_store.go:209-317 | for every scan, no problem is reported if and only if every key decodes and every range is sound, with unsigned 64-bit wrap-around |
| RaftCheck.SoundRanges | pkg/cli/debug_check_store.go:290-316 | the flag and the records say exactly whether every range is sound |
| RaftCheck.PositiveLog | pkg/cli/debug_check_store.go:273-275 | if a log does not start at index zero, no entry of it goes unnoticed |
| RaftCheck.LatestOf | pkg/cli/debug_check_store.go:248-283 | what each kind of key adds to the log and the indexes of its range: the log grows by its entries, and of the committed, truncated and applied index the last one read counts |
| RaftCheck.SoundnessOfAscendingLog | pkg/cli/debug_check_store.go:290-311 | for a non-empty log in ascending order from 1 or more, sound means: no gap, truncated zero or first - 1, and first <= applied <= committed <= last |
| RaftCheck.SoundnessOfEmptyLog | pkg/cli/debug_check_store.go:290-311 | a range without log entries is sound if and only if nothing was applied or committed, and nothing truncated but up to the largest index |
| RecoveryVerify.ClusterDiff.Append | pkg/cli/debug_recover_loss_of_quorum.go:1038-1056 | appends one line and keeps both counters equal to the number of such lines |
| RecoveryVerify.PlanLinesFree | pkg/cli/debug_recover_loss_of_quorum.go:1079-1103 | over distinct nodes no line is an error if and only if every status is acceptable, and none is pending if and only if no named node waits to apply the plan |
| RecoveryVerify.PlanLinesAbout | pkg/cli/debug_recover_loss_of_quorum.go:1079-1103 | a named node gets exactly one line if it reported, and none here if it did not |
| RecoveryVerify.PlanLinesSay | pkg/cli/debug_recover_loss_of_quorum.go:1079-1103 | which message with which severity is written about a status: the lines are exactly what is to be said |
| RecoveryVerify.CompareStatuses | pkg/cli/debug_recover_loss_of_quorum.go:1079-1103 | the loop writes the specified lines in order and leaves exactly the named nodes that did not report |
| RecoveryVerify.ListMissing | pkg/cli/debug_recover_loss_of_quorum.go:1104-1110 | the nodes left in the map, once each, in ascending order |
| RecoveryVerify.ReportMeaning | pkg/cli/debug_recover_loss_of_quorum.go:1058-1113 | the counters of the whole report say exactly whether anything went wrong, whether a named node is still waiting, and whether the plan was fully applied |
| RecoveryVerify.ReportSays | pkg/cli/debug_recover_loss_of_quorum.go:1058-1113 | a line is in the report if and only if it is to be said of a status or of a named node that is missing |
| RecoveryVerify.OneLinePerNamedNode | pkg/cli/debug_recover_loss_of_quorum.go:1076-1113 | every node the plan names has exactly one line in the report, whether or not it reported |
| RecoveryVerify.DiffPlanWithNodeStatus | pkg/cli/debug_recover_loss_of_quorum.go:1058-1136 | for distinct nodes and a plan that names a node: no error if and only if every named node reported and every status is acceptable, nothing pending if and only if no named node waits, and neither if and only if the plan was fully applied; one line per named node, and the report is the lines for the statuses in order and then the missing nodes |
| RecoveryVerify.DumpStatuses | pkg/cli/debug_recover_loss_of_quorum.go:1114-1134 | without a plan, the report lists what each node has staged, applied or failed to apply, in order, and draws no conclusion |
| RecoveryVerify.DumpLinesSay | pkg/cli/debug_recover_loss_of_quorum.go:1114-1134 | without a plan, a line is listed if and only if a status is staged, failed or applied as it says |
| RecoveryVerify.Conclude | pkg/cli/debug_recover_loss_of_quorum.go:1005-1035 | each verdict if and only if: not finished, if the plan has updates and a dead node is not decommissioned or a named node waits; not fully succeeded, if not that but a range is unavailable or something went wrong; unhealthy, without updates, if a range is unavailable or something went wrong on a stale leaseholder; and complete otherwise, which with updates means fully applied |
| RecoveryVerify.CompleteThoughNotApplied | pkg/cli/debug_recover_loss_of_quorum.go:1023-1035 | a plan that was not fully applied passes if and only if it has no replica updates, ranges are available, and either it names no node while some node has a plan staged, or nothing went wrong but a named stale leaseholder has it pending |
| RecoveryVerify.PendingStaleLeaseholderPasses | pkg/cli/debug_recover_loss_of_quorum.go:1023-1035 | a plan that is staged but not applied on its one stale leaseholder, with a dead node not decommissioned, passes |
| Decommission.TotalIsNonNegative | pkg/cli/node.go:590-597 | with counts that are not negative, a zero total means zero replicas on every node |
| Decommission.Client.DrainAll | pkg/cli/node.go:601-619 | drains every target but the local node in order; it succeeds if and only if every drain does, and stops right after the first that fails |
| Decommission.SumStatuses | pkg/cli/node.go:590-595 | the loop finds whether any node is active and how many replicas are left |
| Decommission.Round | pkg/cli/node.go:540-648 | one round finishes only after an answer with nothing left and sends the final mark only then; if every request works it finishes after such an answer; a round that goes on has sent one mark, a pre-check exactly at a stall, and reset the backoff exactly at a new minimum |
| Decommission.StallIsReportedOnce | pkg/cli/node.go:556-588 | on answers that are equal in every detail a stall is reported, and the pre-check repeated, exactly on the sixteenth in a row |
| Decommission.StallIsReportedAgain | pkg/cli/node.go:556-588 | an answer that differs in any detail, such as the replicas reported because of the stall, starts the count over, and the stall is reported again after sixteen more |
| Decommission.NewMinimumResets | pkg/cli/node.go:644-647 | a new minimum of replicas is remembered and resets the backoff, and nothing else does |
| Decommission.Finish | pkg/cli/node.go:597-635 | all drains and then the final mark as the last request, whose answer decides the outcome, or a failure without the mark |
| Decommission.Poll | pkg/cli/node.go:539-649 | the same over any number of rounds; if every request works and the answers at last say that nothing is left, it finishes given enough rounds; at most as many resets as replicas in the first answer, plus one |
| Decommission.RunDecommissionNodeImpl | pkg/cli/node.go:462-650 | the final mark is sent only after an answer with no active node and no replica, and the run finishes if and only if it was sent and answered without error; it must finish if the nodes are ready or decommissioned already, every request works and the answers at last say that nothing is left; dry runs and failed pre-checks change no membership; resets are bounded |
| Decommission.FinalMarkIsLast | pkg/cli/node.go:597-635 | in a run that gets that far the final mark occurs once, as the last request, after every target but the local node was drained |
| Decommission.FinalMarkMeansEmpty | pkg/cli/node.go:590-635 | the final mark means that in the last answer no node was active and none held a replica |
| Utf8.NarrowIsEncoding | pkg/cli/decode.go:197-201 | a decoded rune is accepted if and only if the input starts with the encoding of a single byte value |
| Utf8.ConvertedEncodesBack | pkg/cli/decode.go:191-206 | encoding what was converted gives back the input |
| Utf8.EncodedConvertsBack | pkg/cli/decode.go:191-206 | converting encoded bytes gives back the bytes, for every byte sequence |
| Utf8.ConvertFromUTF8 | pkg/cli/decode.go:191-206 | the loop succeeds if and only if the input is the UTF-8 encoding (section 3 of RFC 3629) of code points up to U+00FF, and then returns exactly the bytes they encode |

## Left out

- Cobra commands, flags, help texts and context defaults: configuration without invariants.
- gRPC, SQL, HTTP and Docker clients, debug zip, and the ratel init, join and heartbeat flow: they depend on services that are not part of this model.
- Rendering, colours, filter expressions, log decoding, size codecs, case mapping and Pebble's own option parser: parameters of the models, and arbitrary functions in every theorem except that `RoundTrip` assumes the size codecs and the case mapping to invert on the values at hand.
- The seek within a log file: a file is what decoding yields from the seek point on.
- The log stream interface has one abstract stream in the merge (`LogStream`); `OpenOne`, `PeekAlike` and `PopAlike` tie it to the file streams, and `StreamsAnswerAsCut` says that what the producers in between hand over is a beginning of each file, cut only after a failure. `MergeLogFiles` takes the cuts as a parameter and holds for all that can occur; which of them does is up to the scheduler.
- Further signals and fatal exits while waiting for a shutdown: a repeated SIGTERM changes nothing and the others end the process there.
- ServerStatuses.UntilReturned: counts a drain as one step that ends; the code lets a drain that makes no progress go on until a further signal.
- Path joining, containment, listing and deletion of blobs, and the final response of a put.
- Moving a file is atomic, sending copies its payload and never fails with the end of file, and readers repeat their final error.
- The rest of the store specification that the parser does not set, and lists of specifications.
- FileLogStreams.ReopenIsExact: requires both openings to succeed, the file to be at most appended to in between, and the first decoded entry not to be the zero entry, which no decoder yields; `StreamedInOrder` holds without any of these.
- FileLogStreams.StreamedEntries: has the same requirements as ReopenIsExact.
- RaftCheck.CheckStoreRaftState: ignores zero indexes in front of a log as the code does, and says so in the definition of `Log`; opening the engine is not modelled.
- RecoveryVerify.Conclude: requires distinct node IDs, as the reports of a cluster have.
- Decommission.RunDecommissionNodeImpl: the replica total does not wrap around at 64 bits, and the bound on resets assumes counts that are not negative.
- BlobStreams.StreamContent: a reader may return any finite number of short or empty reads, not infinitely many.
- JsoncPasses.JsonIsLeftAlone: numbers and literal names are any words of digits, letters, sign and dot, a superset of those of RFC 8259.
- Synctest.Verify: a persisted key is checked by its number, not by its encoded bytes.
