# A verified model of six pieces of AzCopy

This project models six small pieces of AzCopy, Azure's command-line copy tool. Each piece is in Dafny, with proofs of what its code and tests promise.

- **Resumable reads** (`retry_reader.dfy`, `retry_reader_tests.dfy`). This covers the Data Lake client's retry reader and the fake response body its tests drive it with.
  - The fake body (`perByteReader`) hands out one byte per read. It can be armed to fail a set number of times at one index. A single-use body answers the read after a `Close` with the closed-body error.
  - The retry reader reads from its current body. A failed read closes the body, drops the response and reports the failure to the optional notification callback. When the error can be retried and the budget allows, it asks the getter for a new response at the current offset.
  - The reader is a class over the body object. Each of its methods is proved equal to a function on values (`Attempt`, `ReadLoop`, `ReadFullFrom`). The lemmas about those functions state what the tests assert: the retry budget, the notifications, EOF once the count is used up, errors that cannot be retried, and the forced retry after an early close.
  - Each test is also a method (`RetryReaderTests.*`). It builds the objects the way the test does, makes the same calls and ensures the test's assertions.
- **The sync object indexer** (`sync_indexer.dfy`). `store` files objects by relative path, under a cap on the number of store calls. `traverse` hands every value to a processor and stops at the first error.
- **The local-to-local folder transfer** (`folder_transfer.dfy`). The calls the transfer makes are a trace of events. The contracts state which events occur, in which order, and that the transfer is reported finished exactly once.
- **The Linux local copy through sendfile** (`sendfile_copy.dfy`). The chunk loop is modelled as written. Its final check is wrong, and the model also has the corrected check (see Findings).
- **Creating the parent directory before a write** (`write_through_file.dfy`). This covers cutting the parent off the normalised path and the stat/mkdir decision, over a file-system object.
- **The scenario helpers of the command tests** (`scenario_helpers.dfy`). This covers the list/map conversions, building the folder list from a file list, adding and trimming prefixes, and the from-to rule for remove.

`wrappers.dfy` holds the `Option` type.

## Model

| member | source | states |
|---|---|---|
| ResumableRead.PerByteReader.constructor | azbfs/zt_retry_reader_test.go:34-44 | a fresh body over the given bytes: index 0, not armed, not single-use |
| ResumableRead.PerByteReader.SingleUse | azbfs/zt_retry_reader_test.go:46-55 | a fresh body over the contents that has a close channel |
| ResumableRead.PerByteReader.Read | azbfs/zt_retry_reader_test.go:57-78 | the new fields and the result are exactly one step of `BodyRead`: the injected error while armed at the index (one failure fewer left); otherwise one byte (none for an empty buffer), followed by the closed-body error when a close is waiting; EOF at the end |
| ResumableRead.PerByteReader.Close | azbfs/zt_retry_reader_test.go:80-85 | a single-use body queues one close; any other body is unchanged |
| ResumableRead.BodyReadSize | azbfs/zt_retry_reader_test.go:63-65 | a body read hands out at most one byte and never more than the buffer holds; a successful read into a non-empty buffer hands out exactly one |
| ResumableRead.BodyDeliversByte | azbfs/zt_retry_reader_test.go:63-74 | when not armed and no close is waiting, a read returns exactly the byte at the index, with no error, and moves one on |
| ResumableRead.BodyEndsWithEOF | azbfs/zt_retry_reader_test.go:77 | once every byte is out, a read that is not armed gives no data and EOF, and changes nothing |
| ResumableRead.InjectionFailsExactly | azbfs/zt_retry_reader_test.go:58-61 | armed with k failures at the index, the body fails exactly k reads in a row with the injected error, without moving, and is then disarmed |
| ResumableRead.Attempt | azbfs/zt_retry_reader_test.go:89-156 | a try asks to be retried only while the budget has tries left |
| ResumableRead.ReadAtMostOne | azbfs/zt_retry_reader_test.go:136-140 | a retry-reader read hands out at most one byte, never more than the buffer, and exactly one when it succeeds into a non-empty buffer |
| ResumableRead.CountZeroReadsNothing | azbfs/zt_retry_reader_test.go:314-317 | a bounded reader whose count is used up answers EOF with no data, does not touch the body, and stays as it was |
| ResumableRead.NonRetriableReturnedVerbatim | azbfs/zt_retry_reader_test.go:320-345 | an error that cannot be retried is returned as it is, whatever the budget; the response is dropped and, with notification on, one failure is reported with willRetry false |
| ResumableRead.Failures | azbfs/zt_retry_reader_test.go:101-110 | a run of n failures from try number `try` makes exactly n notifications |
| ResumableRead.FailuresAt | azbfs/zt_retry_reader_test.go:101-110 | notification i of such a run has failure count try+i+1, the injected error, the offset and the count, and says it will be retried exactly when try+i is still within the budget |
| ResumableRead.RetryFailingTry | azbfs/zt_retry_reader_test.go:112-124 | one try while failures are injected: the injected error with nothing read, retried exactly while the budget has tries left; the response is dropped, one notification is made when notification is on, and the setup holds again with one failure fewer at an unchanged offset and count |
| ResumableRead.RetrySucceedingTry | azbfs/zt_retry_reader_test.go:118-124 | one try after the failures: the body is positioned at the offset, the byte there comes back with no error and no retry, and the offset moves one on |
| ResumableRead.RetryLoopIsRun | azbfs/zt_retry_reader_test.go:136-150 | in the retry setup, the read loop gives exactly the expected retry run: one failure per try while failures remain, retried while the budget lasts, then the byte at the offset or the injected error |
| ResumableRead.RunWithinBudget | azbfs/zt_retry_reader_test.go:136-150 | when the failures fit in the budget, the expected run returns the byte at the offset with no error, moves the offset one on and drops a bounded count by one |
| ResumableRead.RunQuiet | azbfs/zt_retry_reader_test.go:101-110 | with notification off, the expected run makes no notification, whatever the budget |
| ResumableRead.RunWithinBudgetNotes | azbfs/zt_retry_reader_test.go:101-110 | with notification on, when the failures fit in the budget, the expected run adds one notification per failure, with counts try+1, try+2, … |
| ResumableRead.RunBeyondBudget | azbfs/zt_retry_reader_test.go:268-282 | when the failures outnumber the budget, the expected run returns the injected error with nothing read and the offset unchanged |
| ResumableRead.RunBeyondBudgetNotes | azbfs/zt_retry_reader_test.go:268-282 | with notification on, when the failures outnumber the budget, the expected run adds one notification more than the budget allows, the last marked as not retried |
| ResumableRead.RetryWithinBudget | azbfs/zt_retry_reader_test.go:136-150 | when the injected failures fit in the budget, the read returns the byte at the offset with no error; the offset moves one on and a bounded count drops by one; with notification on, exactly those failures are reported, each marked as retried, with counts 1, 2, … |
| ResumableRead.RetryBeyondBudget | azbfs/zt_retry_reader_test.go:268-282 | when the injected failures outnumber the budget, the read returns the injected error with nothing read and the offset unchanged; one failure more than the budget is reported, and only the last is marked as not retried |
| ResumableRead.ForcedPlainRead | azbfs/zt_retry_reader_test.go:367-375 | in the forced-retry setup with no close waiting, a read hands out the next byte and the reader moves on to the next offset |
| ResumableRead.ClosedAttempt | azbfs/zt_retry_reader_test.go:385-389 | the first try after the caller's Close returns the byte with the closed-body error; it is retried exactly when early closes are not treated as errors, and one notification reports it |
| ResumableRead.ReopenAttempt | azbfs/zt_retry_reader_test.go:367-375 | after a dropped response, the getter opens a fresh single-use body at the offset, and the byte there arrives with no error |
| ResumableRead.ForcedClosedRead | azbfs/zt_retry_reader_test.go:352-403 | the read after the caller's Close hands out one byte. When early closes may be retried, there is no error, one failure is reported as retried, and a fresh body continues at the next offset. When early closes are errors, the closed-body error comes back and is reported as not retried |
| ResumableRead.ForcedPlainStep | azbfs/zt_retry_reader_test.go:393 | inside io.ReadFull with no close before the read, one more byte joins the output and the run continues from the next offset |
| ResumableRead.ForcedRetriedStep | azbfs/zt_retry_reader_test.go:393-398 | inside io.ReadFull, the read after the close (early closes may be retried) adds one byte and one notification, and the run continues |
| ResumableRead.ForcedStoppedStep | azbfs/zt_retry_reader_test.go:399-401 | inside io.ReadFull, the read after the close (early closes are errors) ends the run with the bytes so far plus one and the closed-body error, unless that byte was the last |
| ResumableRead.ForcedRunRetried | azbfs/zt_retry_reader_test.go:393-398 | io.ReadFull over the forced-retry reader, when early closes may be retried: the output is the whole contents and there is no error |
| ResumableRead.ForcedRunRetriedNotes | azbfs/zt_retry_reader_test.go:393-398 | in that run a close that falls within the run is reported exactly once, as retried, with the offset and count of the read it broke |
| ResumableRead.ForcedRunQuiet | azbfs/zt_retry_reader_test.go:393-398 | in that run no failure is reported on the reads without the close: with no close within the run the notifications are unchanged |
| ResumableRead.ForcedRunStopped | azbfs/zt_retry_reader_test.go:399-401 | io.ReadFull over the forced-retry reader, when early closes are errors: a close within the run stops it right after the byte read then, with the closed-body error unless that byte was the last |
| ResumableRead.ForcedRunUnclosed | azbfs/zt_retry_reader_test.go:393-401 | io.ReadFull over the forced-retry reader with no close within the run, whether early closes are errors or not: the whole contents arrive without error |
| ResumableRead.RetryReader.constructor | azbfs/zt_retry_reader_test.go:134 | the reader starts on the given body, offset, count and options, with no notifications; the count is bounded exactly when it is non-zero |
| ResumableRead.RetryReader.Reconnect | azbfs/zt_retry_reader_test.go:118-124 | the getter's body is installed, positioned at the offset, and the reader has a response again; nothing else changes |
| ResumableRead.RetryReader.TryOnce | azbfs/zt_retry_reader_test.go:136-140 | one try changes the fields and returns exactly what `Attempt` says |
| ResumableRead.RetryReader.ReadResponse | azbfs/zt_retry_reader_test.go:136-140 | the second half of a try, on the current response: the body is read; data or EOF moves the offset on and a bounded count down; any other error closes the body, drops the response, is notified when notification is on, and is retried only while retriable and within the budget, all exactly as `Settle` says |
| ResumableRead.RetryReader.Read | azbfs/zt_retry_reader_test.go:136-154 | the data, the error and the new fields are exactly `ReadLoop` from try 0, so the retry lemmas above hold of every call |
| ResumableRead.RetryReader.Close | azbfs/zt_retry_reader_test.go:385-389 | the current body, if there is a response, is closed; nothing else changes |
| ResumableRead.ReadFull | azbfs/zt_retry_reader_test.go:393 | io.ReadFull over the reader, with the caller's Close before a given read. The output, the error and the final state are exactly `ReadFullFrom`: read until the buffer is full or an error comes; a full buffer drops the error; a partial read ending in EOF becomes an unexpected EOF |
| RetryReaderTests.InjectingReader | azbfs/zt_retry_reader_test.go:111-134 | the tests' arrangement: a fresh body over the bytes, armed to fail the given number of reads at the given index with the given error, under a fresh retry reader that holds the response for one byte from offset 0 with the given options and a repositioning getter |
| RetryReaderTests.ReadWithRetry | azbfs/zt_retry_reader_test.go:89-156 | one injected temporary network error (or unexpected EOF, as in the test at lines 160-227) with one retry allowed. The first read returns 1 byte and no error. With logging on, exactly one failure is reported; it has count 1, is marked as retried and carries the injected error. The second read returns 0 bytes and EOF |
| RetryReaderTests.ReadNegativeNormalFail | azbfs/zt_retry_reader_test.go:230-283 | two injected failures with one retry allowed: the read returns 0 and the injected error. Two failures are reported, only the first is retried, and the last has count 2 and is the injected error |
| RetryReaderTests.ReadCount0 | azbfs/zt_retry_reader_test.go:286-318 | the only byte is read without error; the next read returns 0 and EOF without reaching the injection set past the end |
| RetryReaderTests.ReadNegativeNonRetriableError | azbfs/zt_retry_reader_test.go:320-345 | an error that cannot be retried comes back as it is, although two retries are allowed |
| RetryReaderTests.ReadWithForcedRetry | azbfs/zt_retry_reader_test.go:352-403 | ten bytes read with io.ReadFull while the caller closes the reader mid-run. With retry on early close: 10 bytes, no error, the output equals the contents, and exactly one notification. Otherwise: an error |
| SyncIndexer.ObjectIndexer.constructor | cmd/syncIndexer.go:36-38 | an empty map and a zero counter, which satisfy the indexer invariant |
| SyncIndexer.ObjectIndexer.Store | cmd/syncIndexer.go:41-49 | at the cap: the too-many-files error, and nothing changes. Otherwise the object is filed under its relative path (replacing any earlier one) and the counter goes up by one. The invariant is kept: counter within the cap, at least the number of keys, every entry under its own path |
| SyncIndexer.ObjectIndexer.Traverse | cmd/syncIndexer.go:52-60 | the values are visited once each, in some order, each one passing until a failing one ends the walk. That error is returned; nil is returned exactly when every value passes, and then every key was visited |
| SyncIndexer.StoreStepBounded | cmd/syncIndexer.go:42-47 | one store keeps the invariant; it fails exactly when the counter is at the cap |
| SyncIndexer.StoreAllBounded | cmd/syncIndexer.go:41-49 | a series of stores keeps the invariant; it ends in an error exactly when more objects are offered than the room left, and the counter stops at the smaller of the two |
| SyncIndexer.StoreAllKeys | cmd/syncIndexer.go:41-49 | from any state, the keys after a series of stores are the old keys plus the paths of the objects accepted, which are a prefix of those offered |
| SyncIndexer.StoreOverwrites | cmd/syncIndexer.go:46-47 | two stores of the same path keep only the second object, and both are counted |
| SyncIndexer.StoreAtCapRefused | cmd/syncIndexer.go:42-44 | storing at the cap is refused with the cap named in the error, and the state stays as it was |
| FolderTransfer.FolderSteps | ste/xfer-localToLocal-folder.go:20-34 | the steps of a transfer that was not cancelled. They start by creating the folder. A creation error fails the transfer as the second step and nowhere else, sets no status, never asks about properties, and the epilogue still runs. A no from should-set-properties fails nothing, sets no status but SkippedEntityAlreadyExists, and reports the transfer without the epilogue. Otherwise the epilogue runs, with no status set and no failure. No path fails on "setting folder properties" or calls StopTracking, and the last step is the only one that ends the transfer |
| FolderTransfer.LocalToLocalFolder | ste/xfer-localToLocal-folder.go:7-35 | a cancelled transfer is marked cancelled and reported, and nothing else happens. Every other path starts by creating the folder and ends with StopTracking on the destination, called only there. A creation error is the only failure and no status is set; a skip sets only SkippedEntityAlreadyExists and fails nothing; otherwise neither a status nor a failure occurs. Exactly one event ends the transfer: the report when cancelled, otherwise the one just before StopTracking |
| SendfileCopy.ChunksSum | ste/copyFunc-LocaltoLocal_linux.go:32-40 | the chunk sizes the loop requests add up to the size |
| SendfileCopy.ChunksShape | ste/copyFunc-LocaltoLocal_linux.go:31-40 | for a positive size, every chunk is positive and at most 2147479552, every chunk but the last is exactly that maximum, and there are ceil(size / maximum) of them |
| SendfileCopy.RunCallsArePrefix | ste/copyFunc-LocaltoLocal_linux.go:32-49 | the counts handed to Sendfile are a prefix of the chunk sizes; no call is made exactly when the size is 0 |
| SendfileCopy.RunStopsAtFirstFault | ste/copyFunc-LocaltoLocal_linux.go:41-47 | every Sendfile call but the last wrote exactly the count it asked for |
| SendfileCopy.RunLastCallErrno | ste/copyFunc-LocaltoLocal_linux.go:41-44 | when the last Sendfile call of a run returns an errno, the run returns that errno as it is |
| SendfileCopy.RunLastCallShort | ste/copyFunc-LocaltoLocal_linux.go:45-47 | when the last Sendfile call of a run writes a different count from the one asked for, the run reports "File Corrupted, Retry again" |
| SendfileCopy.RunCompletes | ste/copyFunc-LocaltoLocal_linux.go:32-52 | the run reaches the final check exactly when it sent every chunk and each call wrote in full |
| SendfileCopy.RunFinalCheck | ste/copyFunc-LocaltoLocal_linux.go:48-52 | the final check compares the bytes written with the loop variable (as written) or with the size passed in (intended) |
| SendfileCopy.RunAllFull | ste/copyFunc-LocaltoLocal_linux.go:32-52 | when every call writes in full, all chunks are sent and the result is the final check |
| SendfileCopy.AsWrittenFinalCheck | ste/copyFunc-LocaltoLocal_linux.go:50-52 | as written, an empty copy succeeds. Any other copy whose every call writes in full still fails with "Bytes copied were less than the source size" |
| SendfileCopy.IntendedSucceedsIffAllSent | ste/copyFunc-LocaltoLocal_linux.go:19-54 | with the intended check, a copy whose source opens succeeds exactly when every chunk was sent and each call wrote in full |
| SendfileCopy.CopyFunc | ste/copyFunc-LocaltoLocal_linux.go:19-54 | the loop as written returns exactly the specification's result and Sendfile calls. An open failure comes before any call |
| SendfileCopy.CopyFuncIntended | ste/copyFunc-LocaltoLocal_linux.go:19-54 | the same loop with the final check against the original size, equal to the intended specification |
| SendfileCopy.OneByteCopyAsWritten | ste/copyFunc-LocaltoLocal_linux.go:50-52 | a one-byte copy whose single call writes in full reports "Bytes copied were less than the source size" |
| SendfileCopy.OneByteCopyIntended | ste/copyFunc-LocaltoLocal_linux.go:50-52 | the same copy with the intended check succeeds |
| WriteThroughFile.Normalise | common/writeThoughFile.go:30 | same length, every backslash replaced by "/", every other character kept; no backslash left |
| WriteThroughFile.LastIndex | common/writeThoughFile.go:31 | -1 exactly when the character does not occur; otherwise the character is at that index and at no later one |
| WriteThroughFile.ParentDirectory | common/writeThoughFile.go:30-31 | the parent is the normalised path up to its last "/": a proper prefix, followed by "/", with no "/" after it and no backslash in it |
| WriteThroughFile.FileSystem.constructor | common/writeThoughFile.go:32-35 | the file system starts with the given existing paths and faults, and no MkdirAll calls |
| WriteThroughFile.FileSystem.Stat | common/writeThoughFile.go:32 | for a path with no stat fault, nil exactly when the path exists, and NotExist when it does not |
| WriteThroughFile.FileSystem.MkdirAll | common/writeThoughFile.go:35 | the call is logged; a path with an mkdir fault returns that fault with nothing created, and any other path is created |
| WriteThroughFile.CreateParentDirectoryIfNotExist | common/writeThoughFile.go:28-43 | when stat of the parent says it does not exist, MkdirAll is called on exactly that path, and its error returned. Any other stat error is returned with the file system untouched. An existing parent gives nil and no change |
| WriteThroughFile.ParentOfBackslashPath | common/writeThoughFile.go:30-31 | the parent of `d\e\f` is `d/e` |
| ScenarioHelpers.ConvertListToMap | cmd/zt_scenario_helpers_for_test.go:550-557 | the keys are exactly the list's elements, each mapped to 0 |
| ScenarioHelpers.ConvertMapKeysToList | cmd/zt_scenario_helpers_for_test.go:559-567 | the list holds every key of the map exactly once and nothing else |
| ScenarioHelpers.Dir | cmd/zt_scenario_helpers_for_test.go:577 | the parent of a name with a "/" is its proper prefix before its last "/" (no "/" follows it); a name without one has parent "." |
| ScenarioHelpers.DirReachesDot | cmd/zt_scenario_helpers_for_test.go:577-584 | for a clean relative name, its parent is "." exactly when it has no "/" |
| ScenarioHelpers.AncestorsAreClean | cmd/zt_scenario_helpers_for_test.go:575-586 | every folder met on the walk up from a clean relative name is itself a clean relative name |
| ScenarioHelpers.WalkUp | cmd/zt_scenario_helpers_for_test.go:575-586 | the inner loop adds exactly the folders above the name, plus "" for the root when includeRoot holds |
| ScenarioHelpers.OuterStep | cmd/zt_scenario_helpers_for_test.go:574-587 | one turn of the outer loop keeps its invariant: the keys are the names plus the folders above the names walked so far, plus the root when asked for |
| ScenarioHelpers.WalkAll | cmd/zt_scenario_helpers_for_test.go:574-586 | after the loop the map's keys are exactly the keys it started with, every folder above each of them, and "" when includeRoot holds and a key was present |
| ScenarioHelpers.AddFoldersToList | cmd/zt_scenario_helpers_for_test.go:572-589 | the result lists each entry once, and its entries are exactly the files given, every folder above them, and "" when includeRoot holds and a file was given |
| ScenarioHelpers.FolderSetShape | cmd/zt_scenario_helpers_for_test.go:572-589 | "." never appears in the result. "" appears exactly when the root is asked for and the list is not empty. The result is closed under taking the parent |
| ScenarioHelpers.AncestorsOfDir | cmd/zt_scenario_helpers_for_test.go:575-586 | the parent of any folder above a name is itself above that name |
| ScenarioHelpers.TrimPrefix | cmd/zt_scenario_helpers_for_test.go:594 | a name that starts with the prefix loses it and nothing else; any other name is unchanged |
| ScenarioHelpers.ShaveOffPrefix | cmd/zt_scenario_helpers_for_test.go:591-597 | same length, and element i is element i with the prefix trimmed |
| ScenarioHelpers.AddPrefix | cmd/zt_scenario_helpers_for_test.go:599-605 | same length, and element i is the prefix followed by element i |
| ScenarioHelpers.TrimAddedPrefix | cmd/zt_scenario_helpers_for_test.go:591-605 | trimming a prefix just added gives the name back |
| ScenarioHelpers.PrefixRoundTrip | cmd/zt_scenario_helpers_for_test.go:591-605 | shaveOffPrefix after addPrefix with the same prefix gives the list back |
| ScenarioHelpers.Contains | cmd/zt_scenario_helpers_for_test.go:890 | true exactly when the text occurs at some position of the string |
| ScenarioHelpers.DefaultRemoveFromTo | cmd/zt_scenario_helpers_for_test.go:886-894 | a host containing "file" gives FileTrash, whether or not it contains "dfs". Otherwise a host containing "dfs" gives BlobFSTrash. Any other host gives BlobTrash |

## Left out

- The retry reader's own source file is not part of this model. Its loop is modelled on the behaviour its tests pin down. Each Read counts tries from zero, resumes at the offset, and calls the getter only when the response was dropped. A failed read closes the body, drops the response, and reports (try + 1, error, offset, count, willRetry). willRetry holds when the error can be retried and tries remain. The data of a failed try is thrown away when it is retried.
- ResumableRead.ReadFull: the Close that the forced-retry test makes from another goroutine after a delay is a sequential Close before one chosen read (`closeAt`). Goroutines, sleeps, timers and the channel's capacity of 10 (and blocking when it is full) are not modelled.
- ResumableRead.PerByteReader.Read: the caller's buffer is given by its length, and the bytes copied are returned as a sequence. A nil injected error is not modelled: the injected error is always a real error.
- ResumableRead: net.Error is one case without fields. Every net.Error is retried; its Temporary and Timeout answers are not consulted, so the model does not carry them. Its message text is not the real DNS error text; only the closed-body message matters to the retry decision.
- ResumableRead: a reader built with count 0 (CountToEnd) is unbounded. It reads to the end of the body and never counts down; it does not report EOF at once. Only a bounded count that has been used up gives EOF without a read.
- ResumableRead: crypto/rand is replaced by bytes given as parameters. The context and the HTTP response wrapper are left out.
- SyncIndexer.ObjectIndexer: MaxNumberOfFilesAllowedInSync is a constructor parameter. The formatted error text is an error value naming the cap. storedObject has only its relative path plus two carried fields.
- SyncIndexer.ObjectIndexer.Traverse: the filters and the processor together are one function from a stored object to an optional error (processIfPassedFilters). Go's random map order is an arbitrary choice in the model.
- FolderTransfer: creating the directory, the tracker's answer and the epilogue are events with their outcomes given as parameters. What CreateDirectoryIfNotExist and commonDownloaderCompletion do inside is not modelled, and neither are the overwrite option and prompter passed to ShouldSetProperties.
- SendfileCopy: the file descriptors, the deferred Close of the source and the context are left out. The Sendfile system call is a function from (call number, requested count) to a written count or an errno. The offset it advances is not modelled.
- WriteThroughFile: ToShortPath and ToExtendedPath are function parameters, since they depend on the platform. The permission bits given to MkdirAll are left out.
- WriteThroughFile.CreateParentDirectoryIfNotExist requires the normalised path to contain "/". Without one, the Go slice bound is -1 and the code panics; that panic is not modelled.
- ScenarioHelpers.AddFoldersToList:
  - It requires every name to be a clean relative path: no leading or trailing "/", no empty element, and no element that is "." or "..". path.Dir's cleaning of other input is not modelled.
  - The Go loop adds keys to the map it is ranging over. The model ranges over the original keys only, which is one of the behaviours Go allows. The result is the same set either way.
  - The order of the returned list is not modelled, because it comes from map iteration.
- ScenarioHelpers.DefaultRemoveFromTo: url.Parse is left out, and the host is the parameter. The other fields of the returned arguments are constants and are not modelled.
- The Windows variant of the sendfile copy and the other helpers in the test helper file are outside this model.

## Findings

| source | as written | input that shows it | evidently intended | confidence | as-written member | corrected member |
|---|---|---|---|---|---|---|
| ste/copyFunc-LocaltoLocal_linux.go:50-52 | after the loop the bytes written are compared with `size`, which the loop has counted down to 0 | a 1-byte file copied by one Sendfile call that writes 1 byte returns "Bytes copied were less than the source size" | compare the bytes written with the size passed in, so a copy whose every call wrote in full succeeds | not executed | SendfileCopy.AsWrittenFinalCheck | SendfileCopy.IntendedSucceedsIffAllSent |
