# Verified models of the drawing-management core

This project models the algorithms and protocols at the core of the drawing-management web app,
its worker and its migration tool in Dafny, and proves what they promise. Code that changes state
is modelled by classes and loops with invariants; each such method is proved against a function or a
state machine, and the properties are proved about those.

`dafny verify dfyconfig.toml` checks everything.

| module | models |
|---|---|
| PromiseLock | the promise-chain lock, one promise reaction at a time |
| UploadServer | the chunk PATCH route: concurrent handlers, file, database row, failures and restarts |
| UploadLocking | that server on top of that lock: the promise chain simulates the lock queue |
| UploadProtocol | the upload client against that server over an unreliable network |
| ChunkUpload | the client's nested loops as code |
| LocalStorage, KeyOrder, Backup | listing a directory tree page by page, and the backup that consumes the pages |
| NdjsonReader | the streaming chat reader |
| ExpiringMap, RateLimit, BridgeTokens, LoginLockout | time-windowed stores with lazy sweeping |
| CsvExport, DxfReaders, ClamdFraming, DocumentNumbers | printers, parsers and framing |
| DxfFiles | files as they are written, against the two readers |
| FolderLoader | the repeated passes of the folder migration |
| Reals, PageFit, Camera | fitting and panning over the reals |
| PdfExport | from the lines of a file to the strokes on the page |
| PdfMerge | the bulk merge job |
| Optional, Numbers, Text | shared vocabulary |

What the proofs turned up, where the code does less than it or its comments say:

- A restart between appending a chunk and advancing the row, or a row update that fails there
  (`UploadServer.FailedCommitStrands`), strands the upload for good: the route answers the row's size
  to whoever asks with the file's size and the other way round, and the client follows both answers
  without ever charging its retry budget. So replies that always raise the cursor
  (`UploadProtocol.CursorAlwaysRisesIff`) and the bound of `ceil(total / chunkSize) * (retries + 1)`
  PATCHes (`UploadProtocol.BoundHoldsInEveryRunIff`) are promised in every run exactly for files of
  one chunk. For longer files a reply takes the cursor back exactly when its request read a row that
  was still behind the request's own offset (`UploadProtocol.ReplyRaisesCursorIff`), and in runs
  without such a read the bound holds. When the last chunk is the one stranded, the client finalizes
  a complete file and is refused (`UploadProtocol.FinalizeCanBeRefused`).
- The backup misses `a.txt` when a page ends inside a sibling directory `a`
  (`Backup.PagingCanMissAFile`), and refuses keys such as `a..b` that the storage accepts.
- A stream line holding the JSON value `null` makes the chat reader report a transport error and
  drop all later lines, although malformed lines are skipped (`NdjsonReader.TransportErrorIff`).
- A bridge token can pass twice when handling its second presentation, from decoding to consuming,
  takes at least as long as the first use came after the minting (`BridgeTokens.SecondUsePossibleIff`);
  the second-factor route does database and hash work in between.
- The thumbnail's segment cap never ends the walk over entities
  (`DxfReaders.ParseDxfSegments`).
- Where a rule pads or shortens the year, as the seeded rule does before the year 1000, it gives the
  same number again and again, because the bucket prefix always spells the year out
  (`DocumentNumbers.OtherwiseNumbersRepeat`). Numbers are unique in the database, so after the first
  registration every further one fails in all three attempts (`DocumentNumbers.OtherwiseGivesUpIff`).
- The point under the pointer stays there, over any drag with moves and wheel turns, exactly when the
  element is not rotated and has the size that the viewport was last set to
  (`Camera.GrabbedPointAlwaysStaysIff`); the viewer's `rotate(90deg)` breaks this.
- A drawing narrower or lower than 0.000001 units, such as a single vertical line, is not centred on
  that axis (`PageFit.FitIsCentredIff`, `PageFit.FlippedFitIsCentredIff`).
- One PDF that does not load fails the whole merge, although the worker's header says that the
  merge continues with the rest (`PdfMerge.OneBadDocumentFailsAllIff`); the row then counts every
  attachment as failed while listing only the ones that failed earlier.

Conventions: strings are sequences of Unicode characters, which within the Basic Multilingual Plane
are the same as UTF-16 code units; times are integer milliseconds; integers are unbounded; the clock,
the network, the database and the libraries are parameters of the models.

## Model

| member | source | states |
|---|---|---|
| PromiseLock.ApplyKeepsInv | apps/web/lib/upload-store.ts:73-88 | every promise-level step (entry, resumption, `finally`, settling of the chained promise) keeps: chain links point at the previous call of the id, the map names the last one, nobody past `await prev` has unfinished predecessors |
| PromiseLock.RunKeepsInv | apps/web/lib/upload-store.ts:71-88 | the same in every reachable state, for any order of promise reactions |
| PromiseLock.MutualExclusion | apps/web/lib/upload-store.ts:66-88 | in every reachable state at most one call per upload id is inside the guarded work |
| PromiseLock.RefinesQueueLock | apps/web/lib/upload-store.ts:73-88 | seen from any id, the promise chain is a first-come queue: entry appends, only the head resumes, `finally` pops it, settling is invisible |
| PromiseLock.MapEntryMeansBusy | apps/web/lib/upload-store.ts:80-86 | the map holds an entry exactly while some call of the id holds or awaits the lock, so it is neither leaked nor removed under a live chain |
| PromiseLock.SomeEventIsEnabled | apps/web/lib/upload-store.ts:79-85 | while any call is unfinished some event can happen: no wake-up is lost, also when the guarded work throws |
| PromiseLock.EventDoesOneUnitOfWork | apps/web/lib/upload-store.ts:79-86 | every event except an arrival uses up one unit of a finite amount of work |
| PromiseLock.SchedulesAreBounded | apps/web/lib/upload-store.ts:79-86 | hence every schedule without arrivals has the same bounded length to a given state |
| PromiseLock.Drain | apps/web/lib/upload-store.ts:79-86 | and from every reachable state the calls can all finish, leaving the map empty |
| PromiseLock.LockTable.constructor | apps/web/lib/upload-store.ts:71 | the module starts with an empty map and no activation |
| PromiseLock.LockTable.EnterCall | apps/web/lib/upload-store.ts:74-80 | the synchronous prefix of `withLock` performs the `Enter` step on the real map |
| PromiseLock.LockTable.ResumeCall | apps/web/lib/upload-store.ts:81-83 | the continuation after `await prev` performs the `Resume` step |
| PromiseLock.LockTable.LeaveCall | apps/web/lib/upload-store.ts:84-87 | the `finally` block performs the `Leave` step, deleting the entry only when it is still its own |
| UploadServer.ApplyKeepsInv | apps/web/app/api/v1/uploads/[id]/route.ts:138-199 | each await-to-await stretch of the PATCH route, with any number of requests in flight, keeps: file a prefix of the source, row not ahead of the file, at most one appended-but-unrecorded chunk |
| UploadServer.RunKeepsInv | apps/web/app/api/v1/uploads/[id]/route.ts:138-199 | over every run with delayed, duplicated or reordered genuine requests, handlers that fail and restarts, that holds, and neither file nor row ever shrinks |
| UploadServer.ApplyIsMonotone | apps/web/app/api/v1/uploads/[id]/route.ts:174-180 | no step shortens the file or takes back the row |
| UploadServer.WriteIsAtomic | apps/web/lib/upload-store.ts:165-201 | between a handler's stat and its write no other handler writes: the reported size is the file's size and the bytes land at the requested offset |
| UploadServer.CommitAlwaysAccepts | apps/web/app/api/v1/uploads/[id]/route.ts:172-194 | the guard on the row update never fails: the concurrent-upload rejection is unreachable in one process |
| UploadServer.StepKeepsSizeInv | apps/web/lib/upload-store.ts:165-201 | with any requests at all, slices of a file or not, every step keeps what the lock and the checks under it promise |
| UploadServer.FileStaysWithinTotal | apps/web/lib/upload-store.ts:184-201 | over every run with any requests at all the file never outgrows the reserved size, and no step stores more than one chunk of the allowed size |
| UploadServer.FailedCommitStrands | apps/web/app/api/v1/uploads/[id]/route.ts:172-194 | a row update that throws after the append strands the session, without a restart |
| UploadServer.StrandedForever | apps/web/app/api/v1/uploads/[id]/route.ts:140-147 | once the file is ahead of the row and nobody will advance the row, no later run changes either |
| UploadServer.GrowsUnlessStranded | apps/web/app/api/v1/uploads/[id]/route.ts:138-199 | otherwise some continuation stores another chunk |
| UploadServer.CanGrowIffNotStranded | apps/web/app/api/v1/uploads/[id]/route.ts:138-199 | an unfinished upload can still grow if and only if it is not stranded |
| UploadServer.ServeMeaning | apps/web/app/api/v1/uploads/[id]/route.ts:138-199 | a request served alone is accepted if and only if it starts where row and file end, brings an allowed chunk and stays within the total; otherwise nothing changes, and a size is told only to a request that starts elsewhere |
| UploadServer.ServeIsARun | apps/web/app/api/v1/uploads/[id]/route.ts:138-199 | serving one request undisturbed, as the function `Serve` describes it, is a run of the interleaved machine |
| UploadServer.RestartAfterAppend | apps/web/app/api/v1/uploads/[id]/route.ts:149-180 | a restart between the append and the row update leaves a session stranded |
| UploadServer.RestartAfterDuplicate | apps/web/app/api/v1/uploads/[id]/route.ts:140-180 | two copies of one request in the lock queue, then a restart: the second copy is told the new size, and the session is stranded |
| UploadLocking.StepSimulates | apps/web/lib/upload-store.ts:73-88 | each step of the handlers over the promise chain, with no queue of their own, is the same step of the server with the lock queue, or none |
| UploadLocking.RunSimulates | apps/web/lib/upload-store.ts:151-202 | so every run over the promise chain is a run of that server, with the same requests arriving |
| UploadLocking.UploadIsSafeWithPromises | apps/web/lib/upload-store.ts:151-202 | and the stored file is a prefix of the source, the row never ahead, with the real lock |
| UploadProtocol.ApplyKeepsInv | apps/web/lib/chunk-upload.ts:336-396 | client, network and server together keep the safety invariant, step by step |
| UploadProtocol.UploadIsSafe | apps/web/lib/chunk-upload.ts:331-399 | for every interleaving of lost, delayed, duplicated and reordered requests and replies: the file is a prefix of the source, the cursor never exceeds it, and reaching finalize means the file equals the source; finalize then accepts if and only if the row has caught up |
| UploadProtocol.CursorStaysOnChunks | apps/web/lib/chunk-upload.ts:333-348 | in every run file, row and cursor stay on chunk boundaries, and `chunkIdx < chunkTotal` |
| UploadProtocol.ReplyRaisesCursorIff | apps/web/lib/chunk-upload.ts:350-378 | for every reply of every run that does not end the upload: the cursor never stays; it goes forward if and only if the answered request read no row behind its own offset, and otherwise back |
| UploadProtocol.CursorAlwaysRisesIff | apps/web/lib/chunk-upload.ts:350-378 | for every upload: all such replies of all its runs raise the cursor if and only if the file is one chunk |
| UploadProtocol.CursorCanFall | apps/web/lib/chunk-upload.ts:366-378 | the run for longer files: a duplicated request, a restart, and the next reply takes the cursor back |
| UploadProtocol.PromptRunKeepsInv | apps/web/lib/chunk-upload.ts:336-396 | in every run in which no request reads a row behind its own offset, all answers point forward and the PATCHes stay within the retry budget of the chunks behind the cursor |
| UploadProtocol.PatchesAreBounded | apps/web/lib/chunk-upload.ts:333-396 | in those runs at most `ceil(total / chunkSize) * (retries + 1)` PATCHes are issued |
| UploadProtocol.SingleChunkRunIsPrompt | apps/web/lib/chunk-upload.ts:333-396 | every run of a one-chunk upload is of that kind |
| UploadProtocol.BoundHoldsInEveryRunIff | apps/web/lib/chunk-upload.ts:333-396 | for every upload: the bound holds in all of its runs if and only if the file is one chunk |
| UploadProtocol.StrandedNeverCompletes | apps/web/lib/chunk-upload.ts:366-378 | a stranded upload never reaches finalize, whatever happens |
| UploadProtocol.PingPongRound | apps/web/lib/chunk-upload.ts:366-378 | the client then bounces between the row's size and the file's size without charging its retry budget |
| UploadProtocol.RestartStrands | apps/web/lib/chunk-upload.ts:349-391 | how one restart and one retry lead there from the start of an upload |
| UploadProtocol.DuplicateStrands | apps/web/app/api/v1/uploads/[id]/route.ts:140-180 | a duplicated request and a restart strand an upload in any round, also without retries |
| UploadProtocol.PatchesAreUnbounded | apps/web/lib/chunk-upload.ts:333-396 | for every file of more than one chunk and every n there is a run with more than n PATCHes |
| UploadProtocol.FinalizeCanBeRefused | apps/web/app/api/v1/uploads/[id]/finalize/route.ts:145-176 | every upload has a run in which the client finalizes a complete file and is refused, because the row never followed the last chunk |
| UploadProtocol.StrandedIsNeverAccepted | apps/web/app/api/v1/uploads/[id]/finalize/route.ts:145-155 | a session stranded at any length, also the full one, is never accepted by finalize |
| UploadProtocol.FinalizeCanSucceedIff | apps/web/app/api/v1/uploads/[id]/finalize/route.ts:145-176 | a client that finalizes can still be accepted if and only if the session is not stranded |
| ChunkUpload.Session.constructor | apps/web/lib/upload-store.ts:119-142 | a reserved session starts empty |
| ChunkUpload.Session.Serve | apps/web/app/api/v1/uploads/[id]/route.ts:138-199 | the route run to its end changes file and row exactly as `UploadServer.Serve` says |
| ChunkUpload.Session.ServeSlice | apps/web/app/api/v1/uploads/[id]/route.ts:138-199 | any slice the client ever sent, served now or late, keeps the session valid and gets a forward-moving answer |
| ChunkUpload.Session.ServeLate | apps/web/app/api/v1/uploads/[id]/route.ts:138-199 | the requests that arrive late or again are served in order, and keep the session valid |
| ChunkUpload.Session.Deliver | apps/web/lib/chunk-upload.ts:351-370 | what network and server make of one PATCH: late requests first, then this one if it arrives, and the reply if it gets through |
| ChunkUpload.Session.Patch | apps/web/lib/chunk-upload.ts:351-370 | one PATCH over a hostile network: stored bytes only grow, and what the client learns is the row's size, beyond its own offset |
| ChunkUpload.UploadInChunks | apps/web/lib/chunk-upload.ts:331-399 | the nested loops terminate; prefix safety always; success implies the whole file and a finalize that accepts; the PATCH bound; giving up implies `retries + 1` failures in a row; after an abort or a permanent error nothing more is sent and the upload stops, and it stops for no other reason unless the chunks are too large for the server |
| LocalStorage.KeyIff | apps/worker/src/storage.ts:233-248 | the listing holds the path of every file below the root, and nothing else |
| LocalStorage.Lister.Walk | apps/worker/src/storage.ts:223-252 | the recursive walk with its early returns adds exactly the first matching keys, up to the limit, to the shared list |
| LocalStorage.List | apps/worker/src/storage.ts:211-259 | a page equals the first `limit` keys of the depth-first listing filtered by prefix and cursor |
| LocalStorage.PageMeaning | apps/worker/src/storage.ts:240-259 | a page holds, in listing order, exactly the keys with the prefix and after the cursor among the first n keys, and stops early only when it is full |
| LocalStorage.FillOfEntry | apps/worker/src/storage.ts:234-251 | stopping early inside one entry and going on with the next is the same as filtering the concatenation |
| KeyOrder.CompareSiblings | apps/worker/src/storage.ts:233-242 | any two keys below two siblings compare as their names say, unless one shadows the other, when they all compare the other way round |
| KeyOrder.IncreasingIffUnshadowed | apps/worker/src/storage.ts:233-242 | the depth-first listing is in string order if and only if no directory with files precedes a sibling with files whose name goes on with a character below `/` |
| KeyOrder.KeysAreDistinct | apps/worker/src/storage.ts:240-248 | no key is listed twice |
| Backup.PagedFromIff | apps/worker/src/backup.ts:385-410 | from any position, following the cursor yields the rest of the listing exactly when all page boundaries are pivots |
| Backup.PagingIsCompleteIff | apps/worker/src/backup.ts:385-410 | for every tree and page size: paging is complete if and only if every page boundary is a pivot |
| Backup.PagingIsCompleteForAllSizesIff | apps/worker/src/backup.ts:385-410 | for every tree: complete for all page sizes if and only if no directory is shadowed |
| Backup.PagingCanMissAFile | apps/worker/src/backup.ts:384-410 | a directory `a` with a page of files beside `a.txt`: paging ends normally and `a.txt` is never copied |
| Backup.UnsafeIff | apps/worker/src/backup.ts:390-392 | a key is refused if and only if it begins with a slash or has two dots in a row somewhere |
| Backup.StorableIff | apps/worker/src/storage.ts:116-129 | the storage accepts a key if and only if it is not empty, begins with no separator, and has no `..` between separators or ends |
| Backup.ParentSegmentIsUnsafe | apps/worker/src/backup.ts:390-392 | the backup refuses every key that `validateKey` refuses for a `..` segment |
| Backup.StorableKeyCanBeRefused | apps/worker/src/storage.ts:116-131 | and also keys that `validateKey` accepts, such as `a..b` |
| Backup.StagePage | apps/worker/src/backup.ts:387-407 | copies a page up to its first unsafe key |
| Backup.StageStorageToDir | apps/worker/src/backup.ts:376-412 | terminates for every tree; copies exactly the paged keys in order or stops at the first unsafe one; refuses if and only if some paged key has a leading slash or two dots in a row; holds every file once if and only if all page boundaries are pivots and no key is of that kind |
| NdjsonReader.SplitInvertsJoin | apps/web/hooks/useChat.ts:215-224 | splitting at newlines is the inverse of joining, and no piece holds a newline |
| NdjsonReader.LinesOfConcat | apps/web/hooks/useChat.ts:213-221 | the lines of a longer text are those of the shorter one, then those of the kept remainder and the new chunk |
| NdjsonReader.ThrowDecides | apps/web/hooks/useChat.ts:226-237 | once a line has made `dispatch` throw, nothing that follows matters: the log ends in a transport error |
| NdjsonReader.ThrowsIff | apps/web/hooks/useChat.ts:168-199 | `dispatch` throws exactly when some line is JSON `null` |
| NdjsonReader.PieceIsHandledIff | apps/web/hooks/useChat.ts:201-231 | a line that holds an event is acted on exactly when no line before it is JSON `null` |
| NdjsonReader.TransportErrorIff | apps/web/hooks/useChat.ts:201-238 | a transport error is reported if and only if reading failed or some dispatched line is JSON `null` |
| NdjsonReader.NullLineFails | apps/web/hooks/useChat.ts:172-177 | any text with such a line in it, wherever it stands, is such a case |
| NdjsonReader.CumulativeIsConcatenation | apps/web/hooks/useChat.ts:181-184 | every cumulative text handed out is the concatenation of the delta texts so far |
| NdjsonReader.HandleAllReports | apps/web/hooks/useChat.ts:168-199 | each known event before the first JSON `null` has its own callback, in order, with the delta texts up to it; the error flag is set if and only if one of them is an error |
| NdjsonReader.WholeTextTellsEverything | apps/web/hooks/useChat.ts:168-245 | after those callbacks comes a transport error, nothing, or the implicit done with the whole text: the last if and only if the stream ended cleanly and no event was an error |
| Text.TrimMeaning | apps/web/hooks/useChat.ts:217-223 | `trim` takes away the white space at both ends, all of it and nothing else |
| NdjsonReader.Reader.constructor | apps/web/hooks/useChat.ts:164-166 | the reader starts with nothing buffered and nothing said |
| NdjsonReader.Reader.DispatchLine | apps/web/hooks/useChat.ts:168-199 | one trimmed line: skipped, thrown on, or turned into its one callback |
| NdjsonReader.Reader.Drain | apps/web/hooks/useChat.ts:215-221 | the drain loop handles exactly the whole lines of the buffer, in order, and keeps the rest |
| NdjsonReader.ReadBody | apps/web/hooks/useChat.ts:163-245 | for every way of cutting the text into chunks and every ending, callbacks and result equal those of splitting the whole text |
| NdjsonReader.ReadNdjson | apps/web/hooks/useChat.ts:151-245 | the same for a response that may have no body, in terms of the events alone; a transport error is reported if and only if there is no body, reading failed or a line is JSON `null` |
| ExpiringMap.DeleteExpired | apps/web/lib/rate-limit.ts:226-228 | the deletion loop leaves exactly the entries that are still live |
| RateLimit.SweepIsInvisible | apps/web/lib/rate-limit.ts:222-229 | with a clock that never runs backwards, the swept map and an unswept per-key bucket differ only in dead entries |
| RateLimit.AnswerIsPerKey | apps/web/lib/rate-limit.ts:191-229 | so every answer is that of a limiter that never sweeps and sees one key only |
| RateLimit.AnswerFromHistory | apps/web/lib/rate-limit.ts:191-220 | every answer, with `remaining`, `resetAt` and `retryAfter`, from how many calls were allowed since the window was opened |
| RateLimit.NothingIsKeptLong | apps/web/lib/rate-limit.ts:223-229 | no bucket expired before the last sweep, which is less than a minute older than the last call |
| RateLimit.AtMostTwiceTheLimit | apps/web/lib/rate-limit.ts:198-219 | at most `limit` calls per bucket, and at most `2 * limit - 1` in any half-open interval as long as the window |
| RateLimit.BoundIsReached | apps/web/lib/rate-limit.ts:198-219 | for every limit and window some run reaches `2 * limit - 1` |
| RateLimit.RetryAfterIsExact | apps/web/lib/rate-limit.ts:204-210 | over every run that follows a denial: when the denied caller comes back after `retryAfter` seconds, the key has a live bucket if and only if another call came after the old one's reset, and otherwise the caller is let in; a second less is too early |
| RateLimit.Limiter.constructor | apps/web/lib/rate-limit.ts:222 | starts without buckets |
| RateLimit.Limiter.Gc | apps/web/lib/rate-limit.ts:223-229 | sweeps at most once a minute |
| RateLimit.Limiter.RateLimitInMemory | apps/web/lib/rate-limit.ts:191-220 | performs the per-key step after the sweep, on the mutable map |
| RateLimit.Limiter.ResetRateLimit | apps/web/lib/rate-limit.ts:137-138 | drops the key's bucket and nothing else |
| BridgeTokens.AcceptedIsPerJti | apps/web/lib/bridge-token-store.ts:85-90 | sweeping and other tokens never change an answer |
| BridgeTokens.NothingIsKeptLong | apps/web/lib/bridge-token-store.ts:54-60 | no entry expired before the last sweep, which is less than a minute older than the last use |
| BridgeTokens.AcceptedUsesAreSpaced | apps/web/lib/bridge-token-store.ts:85-90 | two accepted uses of one jti are at least the first one's ttl apart, in every run |
| BridgeTokens.DoubleUseIff | apps/web/app/api/v1/auth/mfa/verify/route.ts:73-178 | with any time between decoding and consuming, a later presentation is accepted if and only if it is consumed at least the time to live after the first use |
| BridgeTokens.SingleUse | apps/web/app/api/v1/auth/mfa/verify/route.ts:73-178 | a presentation handled faster than the first use came after the minting is never accepted once more, in the whole run |
| BridgeTokens.SecondUsePossibleIff | apps/web/app/api/v1/auth/mfa/verify/route.ts:73-178 | after an accepted use a presentation handled within a given delay can get through if and only if that delay is at least the time from the minting to the use |
| BridgeTokens.WithoutDelayDoubleUseIff | apps/web/lib/totp.ts:206-264 | where decoding and consuming take no time: exactly when first used in the millisecond of the minting and again in the last of the token's life |
| BridgeTokens.Store.constructor | apps/web/lib/bridge-token-store.ts:52-53 | starts empty |
| BridgeTokens.Store.SweepMem | apps/web/lib/bridge-token-store.ts:54-60 | sweeps at most once a minute |
| BridgeTokens.Store.ConsumeBridgeJti | apps/web/lib/bridge-token-store.ts:67-91 | the in-memory path on the mutable map |
| LoginLockout.RowIsFailedSinceSuccess | apps/web/auth.ts:420-478 | over every run, successes included, the counter is the number of failed checks since the last success, and a time is locked if and only if they are five or more |
| LoginLockout.AnswerIff | apps/web/auth.ts:420-478 | every answer from the attempts before it: refused if and only if the last of at least five failed checks since the last success was stored less than thirty minutes before; otherwise the password decides, and a wrong one locks if and only if it is at least the fifth |
| LoginLockout.AtMostFiveFailures | apps/web/auth.ts:420-445 | no half-open span of thirty minutes holds more than five failed password checks |
| LoginLockout.LaterFailuresAreSpaced | apps/web/auth.ts:427-438 | after the fifth, each further failed check is at least thirty minutes after the one before |
| LoginLockout.Account.constructor | apps/web/auth.ts:420-438 | a row without failures |
| LoginLockout.Account.Authorize | apps/web/auth.ts:420-478 | one password attempt on the mutable row: a success clears it, a refusal leaves it, a failure counts |
| CsvExport.BuildCsv | apps/web/components/admin/VulnerabilitiesTable.tsx:497-513 | the line-pushing loop writes the specified text |
| CsvExport.PlainCellsStayPlain | apps/web/components/admin/VulnerabilitiesTable.tsx:488-495 | a cell is wrapped in quotes if and only if it holds a quote, a comma, CR or LF, and printed as it is otherwise |
| CsvExport.CellsStandUnderHeaders | apps/web/components/admin/VulnerabilitiesTable.tsx:486-510 | under each header stands, in every row, the field of that name |
| CsvExport.ReadFieldInvertsEscape | apps/web/components/admin/VulnerabilitiesTable.tsx:488-495 | an RFC 4180 field reader gives back any escaped cell, with what follows it untouched |
| CsvExport.CsvRoundTrip | apps/web/components/admin/VulnerabilitiesTable.tsx:486-513 | an RFC 4180 reader gives back the header and every row's five cells, whatever quotes, commas, CR or LF they hold |
| CsvExport.CsvIsInjective | apps/web/components/admin/VulnerabilitiesTable.tsx:497-513 | two exports are the same text only for the same table |
| DxfReaders.SlurpStops | apps/worker/src/pdf.ts:536-551 | each entity consumes an even positive number of lines and stops at a code 0 or at the end |
| DxfReaders.FindSection | apps/worker/src/pdf.ts:515-527 | the section search returns the first header on an even line |
| DxfReaders.SlurpFields | apps/worker/src/thumbnail.ts:175-190 | the shared field loop collects the same fields in both readers |
| DxfReaders.PolylinesAgreeIff | apps/worker/src/thumbnail.ts:233-260 | for one polyline the two outlines are equal if and only if no vertex value is non-finite |
| DxfReaders.BlocksAgree | apps/worker/src/pdf.ts:559-624 | for any list of entities the two stroke lists are equal, in order, if and only if all polyline vertices are finite |
| DxfReaders.ParsePdfEntity | apps/worker/src/pdf.ts:529-625 | one entity of the PDF path |
| DxfReaders.ParseDxfEntities | apps/worker/src/pdf.ts:445-475 | the walk yields every entity up to ENDSEC, or a prefix of them at the cap |
| DxfReaders.DrawPolyline | apps/worker/src/pdf.ts:253-276 | the polyline case draws the outline with its closing edge |
| DxfReaders.DrawEntities | apps/worker/src/pdf.ts:100-104 | the drawing loop draws every entity in order |
| DxfReaders.AddPolyline | apps/worker/src/thumbnail.ts:233-260 | the thumbnail's polyline case |
| DxfReaders.ParseThumbEntity | apps/worker/src/thumbnail.ts:168-209 | one entity of the thumbnail path |
| DxfReaders.ParseDxfSegments | apps/worker/src/thumbnail.ts:113-142 | the walk yields the strokes of every entity: its own cap test never stops it once anything is drawn |
| DxfReaders.ReadBoth | apps/worker/src/pdf.ts:445-475 | for every file within the entity cap both readers produce the same strokes if and only if every polyline vertex is finite |
| DxfFiles.IsOddIff | apps/worker/src/pdf.ts:605 | the flag test holds if and only if the integer part is odd |
| DxfFiles.LineBlockDraws | apps/worker/src/pdf.ts:559-572 | both paths draw a LINE from fields 10, 20 to fields 11, 21 |
| DxfFiles.RoundBlockDraws | apps/worker/src/pdf.ts:572-600 | both paths draw a CIRCLE or ARC about fields 10, 20 if and only if its radius, field 40, is positive |
| DxfFiles.PolylineBlockDraws | apps/worker/src/pdf.ts:601-617 | both paths trace the vertices of a polyline, and close it if and only if it has three or more of them and field 70 is there, is a number and has an odd integer part |
| DxfFiles.SectionIsFound | apps/worker/src/pdf.ts:515-527 | in any file the section starts after its first header, looked for tag by tag |
| DxfFiles.FileIsRead | apps/worker/src/pdf.ts:445-557 | from a file with an ENTITIES section, also a cut-off one, every entity is read with its kind and the values of each code in order |
| DxfFiles.FileSpellsDrawing | apps/worker/src/pdf.ts:445-625 | a file whose tags spell a list of entities is read as that list, and both paths draw exactly its strokes |
| FolderLoader.LoadingReaches | packages/migration/src/pipeline.ts:256-272 | a row that may load makes its id reached from a root |
| FolderLoader.StuckMeansComplete | packages/migration/src/pipeline.ts:250-284 | when no remaining row has its parent loaded, every id reached from a root is loaded: the passes compute the least fixpoint |
| FolderLoader.CycleIsNeverReached | packages/migration/src/pipeline.ts:285-296 | no row on a cycle of parents, or below one, or below a missing parent, is ever reached |
| FolderLoader.Visit | packages/migration/src/pipeline.ts:253-277 | one row is kept, loaded or reported, and the three lists still partition the input |
| FolderLoader.Pass | packages/migration/src/pipeline.ts:250-284 | one pass either shrinks the remainder or is stuck |
| FolderLoader.LoadFolders | packages/migration/src/pipeline.ts:249-296 | loaded and error rows partition the input; loaded are exactly the rows whose parent chain reaches a root without a failing row, each after its parent; at most n passes |
| ClamdFraming.ReadWriteUInt32 | apps/worker/src/clamav.ts:389-391 | a 4-byte big-endian length reads back |
| ClamdFraming.ReadInvertsFrames | apps/worker/src/clamav.ts:381-400 | a frame reader recovers any list of payloads, whatever follows the zero frame |
| ClamdFraming.FramingIsInjective | apps/worker/src/clamav.ts:381-400 | different payload lists, or different bytes after the end, never look the same on the wire |
| ClamdFraming.WriteNext | apps/worker/src/clamav.ts:386-394 | one turn of the loop frames the next slice |
| ClamdFraming.Instream | apps/worker/src/clamav.ts:381-400 | the daemon reads payloads of 1 to 65536 bytes, `ceil(n / 65536)` of them, that together are the file, then the end with no byte left over |
| DocumentNumbers.ParsePadded | apps/web/lib/db-helpers.ts:60-63 | parsing undoes padded decimal printing, for every width |
| DocumentNumbers.YearMeaning | apps/web/lib/db-helpers.ts:76-81 | with four or more digits a year is padded and never cut; with one to three only its last places are left |
| DocumentNumbers.HighestUsedMeaning | apps/web/lib/db-helpers.ts:166-173 | the scan finds the greatest sequence value in the bucket, whatever the order of the rows |
| DocumentNumbers.NextMeaning | apps/web/lib/db-helpers.ts:166-175 | the next value is one more than the greatest in the bucket, or the initial value, but 1 at least, where there is no positive one |
| DocumentNumbers.NextSequence | apps/web/lib/db-helpers.ts:151-176 | the loop returns one more than that, or the initial value |
| DocumentNumbers.EvaluateNumberRule | apps/web/lib/db-helpers.ts:103-127 | renders the parts with the given sequence value, or with the derived one when the rule has a sequence and none is given |
| DocumentNumbers.FreshIff | apps/web/lib/db-helpers.ts:103-176 | for every rule FOLDER_CODE-YEAR-SEQUENCE: the number is new against all possible stored numbers if and only if the year is rendered as the bucket prefix spells it |
| DocumentNumbers.YearIsSpelledOutIff | apps/web/lib/db-helpers.ts:76-81 | when that is, for every number of year digits |
| DocumentNumbers.SeededRuleFreshIff | apps/web/prisma/seed.ts:352-358 | for the seeded rule: exactly from the year 1000 on |
| DocumentNumbers.SequencesIncrease | apps/web/lib/db-helpers.ts:151-176 | over any run of registrations in one folder and year the sequence values strictly increase |
| DocumentNumbers.RegisterObject | apps/web/app/api/v1/objects/route.ts:613-635 | the retry loop stores the number of the first attempt that is not refused, or gives up after three |
| DocumentNumbers.RefusalNeedsARace | apps/web/app/api/v1/objects/route.ts:613-635 | with the year spelled out, an attempt is refused only for a number of the bucket that was stored after the scan |
| DocumentNumbers.OtherwiseNumbersRepeat | apps/web/lib/db-helpers.ts:151-176 | otherwise the rule gives one and the same number, and storing it does not change that |
| DocumentNumbers.OtherwiseGivesUpIff | apps/web/app/api/v1/objects/route.ts:613-635 | so a registration gives up if and only if that number is stored already |
| PageFit.BoxIsUnique | apps/worker/src/pdf.ts:344-355 | the least box around a set of points is unique |
| PageFit.ComputeBoundingBox | apps/worker/src/pdf.ts:344-385 | the loops compute that box, or the unit box when there is no point |
| PageFit.DrawnPointsAreInside | apps/worker/src/pdf.ts:357-378 | the box holds every point of every line, polyline edge, closing edge and circle, not only the corners it was computed from |
| PageFit.BoxIsTight | apps/worker/src/pdf.ts:344-385 | each side of the box is reached by the drawing itself |
| PageFit.FitContains | apps/worker/src/pdf.ts:89-96 | the transform takes every point of the box inside the margins |
| PageFit.FitIsCentredIff | apps/worker/src/pdf.ts:89-96 | the drawing is centred if and only if neither extent is below the minimum, and an axis is filled if and only if the extent that is longer by the page's aspect ratio is not |
| PageFit.FitToPage | apps/worker/src/pdf.ts:81-105 | all of it for `generatePdfFromDxf` on both page sizes |
| PdfExport.ReadEntitiesAreFinite | apps/worker/src/pdf.ts:529-625 | every entity that is read has finite coordinates, a circle a positive radius, and a polyline two vertices |
| PdfExport.BoxOfEntitiesIsTight | apps/worker/src/pdf.ts:344-385 | so each side of the box is reached by a stroke of the file |
| PdfExport.BoxHoldsStrokes | apps/worker/src/pdf.ts:344-385 | the box of the entities holds the corners of every stroke that is drawn for them |
| PdfExport.PlacedStrokeFits | apps/worker/src/pdf.ts:206-276 | a stroke from inside the box, drawn with transformed ends, or transformed centre and scaled radius, stays inside the margins at every point |
| PdfExport.PlacedStrokeIsImage | apps/worker/src/pdf.ts:206-276 | what is drawn for a stroke is its image under the transform, no more and no less |
| PdfExport.PageKeepsOrder | apps/worker/src/pdf.ts:89-96 | left stays left, and up stays up |
| PdfExport.GeneratePdfFromDxf | apps/worker/src/pdf.ts:67-110 | from the lines of a file to the page: every entity up to the cap is drawn, stroke by stroke in order, by one transform, and no point lies outside the margins |
| PageFit.SegmentBounds | apps/worker/src/thumbnail.ts:323-336 | the thumbnail's own bounding loop computes the same kind of box |
| PageFit.CanvasMirrors | apps/worker/src/thumbnail.ts:343-354 | on the thumbnail left stays left and up becomes down |
| PageFit.FlippedFitIsCentredIff | apps/worker/src/thumbnail.ts:337-346 | the same for the thumbnail with its y axis pointing down |
| PageFit.FlippedFitContainsSegments | apps/worker/src/thumbnail.ts:340-354 | every point of every segment lands inside the padding |
| PageFit.SegmentsToSvg | apps/worker/src/thumbnail.ts:321-356 | one line per segment, in order; every point of every segment inside the padding; centred, and filling an axis, under the same conditions as the page |
| Camera.Run | apps/web/components/DwgViewer/camera.ts:51-151 | the zoom stays in [0.05, 64] and the viewport at least a pixel over every run of events |
| Camera.MatchesIff | apps/web/lib/viewer/dxf-engine.ts:254-294 | in an element that is not rotated, a way in pixels is the same way in the camera's frustum if and only if, on each axis, it is zero or viewport and element have the same side |
| Camera.WheelKeepsAnchorIff | apps/web/components/DwgViewer/camera.ts:133-151 | a wheel turn keeps the world point that the camera projects under the pointer if and only if the zoom does not change or the pointer's way from the middle is the same in pixels and in the frustum |
| Camera.MoveKeepsAnchorIff | apps/web/components/DwgViewer/camera.ts:109-120 | a drag move carries the world point along if and only if the pointer's move is the same in pixels and in the frustum |
| Camera.GrabbedPointStays | apps/web/components/DwgViewer/camera.ts:95-151 | over any mix of moves and wheel turns the grabbed point stays under the pointer, if the element is not rotated and has the viewport's size |
| Camera.GrabbedPointAlwaysStaysIff | apps/web/components/DwgViewer/camera.ts:95-151 | and it stays over all of them only then |
| Camera.HoveredPointAlwaysStaysIff | apps/web/components/DwgViewer/camera.ts:109-151 | without a drag, all wheel turns at one place keep the point there if and only if the way from the middle to it is the same in pixels and in the frustum |
| Camera.CornersShowFrustum | apps/web/lib/viewer/dxf-engine.ts:254-294 | whichever way the element is turned, the corners of its client rectangle show the corners of the frustum |
| Camera.ShownIffZoomIsEnough | apps/web/components/DwgViewer/camera.ts:65-77 | with the bounds in the middle, the allowed zooms that show all of them are exactly those up to the one that `fit` computes |
| Camera.ShowsBoundsIff | apps/web/components/DwgViewer/camera.ts:65-77 | in a viewport with a pixel between its margins this means that neither end of the bounds reaches into a margin |
| Camera.FitShowsBoundsIff | apps/web/components/DwgViewer/camera.ts:65-77 | `fit` shows all of the bounds in the usable viewport if and only if the zoom it needs is at least 0.05 |
| Camera.Controller.constructor | apps/web/components/DwgViewer/camera.ts:39-63 | initial position, zoom and viewport |
| Camera.ResizeKeepsIff | apps/web/components/DwgViewer/camera.ts:51-62 | a resize keeps the world point at a client position if and only if, on each axis of the element, the position is in the middle or the viewport's side does not change |
| Camera.Controller.ResizeTo | apps/web/components/DwgViewer/camera.ts:51-62 | resizing changes the viewport only, at least a pixel, and moves world points exactly as ResizeKeepsIff says |
| Camera.Controller.FitBounds | apps/web/components/DwgViewer/camera.ts:65-77 | `fit` on the mutable camera shows all of the bounds if and only if the zoom it needs is allowed, and no closer zoom shows them |
| Camera.Controller.ZoomByFactor | apps/web/components/DwgViewer/camera.ts:79-82 | `zoomBy` multiplies and clamps, and keeps the world point in the middle of the viewport |
| Camera.Controller.ZoomTo | apps/web/components/DwgViewer/camera.ts:84-87 | `setZoom` clamps, and keeps the world point in the middle |
| Camera.Controller.OnPointerDown | apps/web/components/DwgViewer/camera.ts:95-107 | starts a drag at the pointer, and moves nothing |
| Camera.Controller.OnPointerMove | apps/web/components/DwgViewer/camera.ts:109-120 | in an element of the viewport's size that is not rotated, a dragged world point stays under the pointer; without a drag nothing moves |
| Camera.Controller.OnPointerUp | apps/web/components/DwgViewer/camera.ts:122-131 | ends the drag, and moves nothing |
| Camera.Controller.OnWheel | apps/web/components/DwgViewer/camera.ts:133-151 | zooms about the pointer: in such an element the world point under it stays |
| PdfMerge.Collect | apps/worker/src/pdf-merge-worker.ts:393-436 | the per-attachment loop sorts every attachment into one of two lists, in selection order |
| PdfMerge.Stitch | apps/worker/src/pdf-merge-worker.ts:448-454 | the nested page loop concatenates the documents, or fails when one does not load |
| PdfMerge.ProcessPdfMergeJob | apps/worker/src/pdf-merge-worker.ts:393-556 | counts add up to the total; DONE if and only if something succeeded and everything produced could be stitched; then the stored pages are the documents' pages in selection order |
| PdfMerge.CountsPartition | apps/worker/src/pdf-merge-worker.ts:438-441 | successes and failures together are the selection |
| PdfMerge.PlaceInLists | apps/worker/src/pdf-merge-worker.ts:393-436 | each attachment is reported, or contributes its document, at the place the earlier ones leave |
| PdfMerge.PlaceInMergedFile | apps/worker/src/pdf-merge-worker.ts:448-454 | each page of each document lands right after all earlier pages |
| PdfMerge.PageComesFrom | apps/worker/src/pdf-merge-worker.ts:448-454 | and every page of the merged file is such a page |
| PdfMerge.OneBadDocumentFailsAllIff | apps/worker/src/pdf-merge-worker.ts:28-31 | a bad attachment costs only itself if and only if it fails before its bytes are handed over for loading |

## Left out

- PromiseLock.LockTable.ResumeCall: the settling of chained promises is done by the JavaScript engine and appears only as the `Settle` step of the state machine.
- UploadServer.ApplyKeepsInv: assumes whole writes and one server process; a torn write, a removed temp file and a second process are not modelled, nor are cancelled, expired and foreign sessions or malformed headers, which only reject. A failure inside a step changes nothing.
- UploadProtocol.PatchesAreBounded: for files of more than one chunk it is proved for the runs in which no request reads a row behind its own offset, because it is false of all runs (BoundHoldsInEveryRunIff); another run may still stop before it exceeds the bound.
- ChunkUpload.UploadInChunks: the server finishes each request it starts, so restarts appear in UploadProtocol only; `retries` is a natural number and chunk sizes are whole, while in the source a negative `retries` loops forever and a fractional size is possible. Progress callbacks, delays and the cancel request are left out, and of finalize only the two size checks are kept.
- LocalStorage.List: names are taken as sorted character by character, as the source's comment intends, while `localeCompare` orders by locale; names outside the Basic Multilingual Plane, which JavaScript compares by surrogates, are not covered, here and in KeyOrder and Backup. The tree does not change during a listing, and sizes and dates are left out.
- Backup.StageStorageToDir: copying is reduced to the order of the keys; the S3 driver, archiving and pruning are left out, and a file that disappears during a backup is not modelled.
- NdjsonReader.ReadNdjson: UTF-8 decoding is taken as already done chunk by chunk; payload fields other than the delta text are one opaque string.
- RateLimit.AnswerIsPerKey: the in-memory path only; the Redis path is not part of this model.
- BridgeTokens.AcceptedIsPerJti: the in-memory path only, and signatures are taken as unforgeable. Which login step a token was minted in is not part of this model.
- LoginLockout.AtMostFiveFailures: attempts on one account one after the other; parallel attempts, which read the counter before either writes it, are left out, as are unknown users and the second factor.
- CsvExport.BuildCsv: the order of the rows (`sortAdvisories`) and the file name are left out.
- DxfReaders.ReadBoth: circles and arcs are kept as one curve each, so their approximation and its cap are left out. `Number` on strings is a parameter.
- DxfReaders.ParsePdfEntity: colours, layers, arc angles and skipped kinds are left out.
- DxfReaders.DrawEntities: an arc counts as drawn even where its path is degenerate, because its angles are left out.
- DxfReaders.ParseThumbEntity: circles and arcs are one curve instead of the chords that approximate them.
- DxfReaders.ParseDxfSegments: those chords and the cap inside their approximation are left out; the cap of the walk is kept.
- FolderLoader.LoadFolders: whether transforming and storing a row fails is a parameter of the row; the numbering of colliding folder codes and the other phases of the run are left out.
- ClamdFraming.Instream: timeouts, socket errors and the interpretation of the reply are left out.
- DocumentNumbers.EvaluateNumberRule: the parts are taken in order; sorting them by `order`, and the error for a missing database client, are left out.
- DocumentNumbers.SequencesIncrease: stored numbers are not deleted, and registrations follow one another; RegisterObject allows races between its scan and its insert. Years are naturals and sequence values below 2^53 as in the source's arithmetic.
- PageFit.FitToPage: over the reals; rounding, printing with two decimals and stroke widths are left out, and arcs are bounded by their full circle as in the source.
- PdfExport.GeneratePdfFromDxf: arcs are drawn as their full circle, and colours, the line width and the PDF file itself are left out.
- Camera.GrabbedPointStays: over the reals; the element does not move or change its size during a drag, and the wheel turns where the pointer is. Rotations are those of the viewer's button, by right angles.
- PdfMerge.ProcessPdfMergeJob: what producing, loading, saving and storing do is a parameter, and the row update itself succeeds.
- Object life cycle, `canAccess`, CSRF, password history, audit logging and the React components: would only add easy members.
- The viewer's scene building: no property beyond its body.
