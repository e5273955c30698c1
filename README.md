# books-file-service, modelled in Dafny

The file service of the "books" system keeps, for every user, a tree of folders
and the files in them. It stores them in a database through gorm repositories
and offers them over GraphQL, where IDs travel as decimal strings. It also
listens to the Kafka topic `users`. A "user created" event there gives the new
user a root folder.

This project models the parts of the service that make decisions:

- **Kafka consumer** (`KafkaConsumer.Consumer`). It holds a pool of
  per-partition workers, and the rebalance callback (`Assign` and `Revoke`)
  keeps that pool. The poll loop (`Run`, `Step`, `Route`) sends each message to
  its partition's worker. Shutting down (`StopWorkers`, `ShutdownWorkers`) stops
  every worker and waits until it has drained. Client calls are recorded, in
  order, as `Kafka.Action` values in the consumer's `calls` log. The pool's
  behaviour over a whole event sequence is given by `PoolModel.RunView` and
  `PoolModel.RunLog`, and the lemmas of `PoolModel` are about those functions.
- **Worker** (`ConsumerWorker`). Its unbuffered message channel is a FIFO
  queue. The goroutine's passes through the loop are explicit transitions:
  `HandledNext`, `Finished` and `Drained`. `Stopped` models `stop`'s `select`
  together with its channel close, a second close of which panics. `Awaited`
  models the receive `<-w.done`. The class `ConsumerWorker.Worker` is a
  stand-alone, in-place version of the same transitions: each method's new state
  is the transition function of the old one. The consumer's pool holds the
  `WorkerState` values themselves, so `KafkaConsumer.Consumer` does not use the class.
- **User-event handler** (`UserEventHandler`). It scans the headers; the last
  `eventType` header wins. It parses the key as with
  `strconv.ParseUint(key, 10, 64)`. It then dispatches to the folder service.
- **Folder and file services** (`FolderService`, `FileService`). They run over
  an in-memory stand-in for the repositories (`Repository`). A table there is
  its rows in insertion order, and database failures are injected per query.
- **Conversions**:
  - `Conv`: `AtoIOrNil` and its three siblings.
  - `Dto`: entity to GraphQL transfer object.
  - `Query`: the GraphQL query whitespace normalisation.
  - `Decimal`: `strconv`'s `Atoi`, `Itoa` and `ParseUint`.
  - `Numeric`: Go's 64-bit `int`↔`uint` conversions, which wrap around.

The model follows the code as written. Behaviours worth noting:

- The revocation callback calls `Unassign` *before* it stops the workers. It
  closes each revoked worker's input but does not wait for the worker's done
  signal (consumer/kafka_consumer.go:76-90).
- A new assignment replaces any worker already pooled for a partition, and it
  does not stop the replaced worker (consumer/kafka_consumer.go:67-71).
- `shutdownWorkers` leaves the pool map in place; it only stops and awaits
  every worker and then calls `Unassign` (consumer/kafka_consumer.go:137-157).
- `Run` returns only on "all brokers down". Every other error is logged and
  the loop goes on (consumer/kafka_consumer.go:125-130).
- `AtoUIOrNil` parses with `strconv.Atoi` and then casts to `uint`. A negative
  decimal there therefore wraps to a value near 2^64; it is not rejected
  (pkg/util/conv.go:17-27).
- `UpdateFolder` writes with gorm's `Updates`, which skips zero fields
  (pkg/repository/folder_repository.go:57). `RenameFolder` to the empty name
  therefore returns a folder named "" while the stored row keeps its old name
  (pkg/service/folder_service.go:41-47).
- `strconv.Atoi` accepts a leading `+`; `strconv.ParseUint` does not.

## Model

| member | source | states |
|---|---|---|
| Numeric.IntToUint | pkg/util/conv.go:25 | `uint(i)` keeps the 64 bits: the result equals `i` modulo 2^64, and a non-negative `i` is unchanged |
| Numeric.UintToInt | pkg/util/conv.go:41 | `int(u)` keeps the 64 bits: the result equals `u` modulo 2^64; it is `u` up to 2^63-1 and negative above that |
| Numeric.UintIntRoundTrip | pkg/util/conv.go:25-41 | the two conversions are inverse to each other in both directions |
| Numeric.BytesToString | handler/users/user_event_handler.go:33-38 | `string(b)` has one character per byte, with that byte's code |
| Decimal.NatToDigits | pkg/util/conv.go:33 | the decimal text of a natural number is a canonical run of digits; it is one digit exactly for values below 10 |
| Decimal.ValueOfNatToDigits | pkg/util/conv.go:33 | reading the decimal text of `n` gives back `n` |
| Decimal.NatToDigitsValueOf | pkg/util/conv.go:33 | writing out the value of a canonical digit string gives back the string |
| Decimal.LeadingDigitPositive | pkg/util/conv.go:33 | a canonical string of more than one digit has a value of at least 10; only "0" has value 0 |
| Decimal.Itoa | pkg/util/conv.go:33 | `strconv.Itoa` gives the `-` sign exactly for negatives, then canonical digits, and never "-0" |
| Decimal.AtoiItoa | pkg/util/conv.go:10-33 | `Atoi` reads back every 64-bit `int` that `Itoa` writes |
| Decimal.Atoi | pkg/util/conv.go:10 | `strconv.Atoi` succeeds only on a non-empty digit run with an optional `+` or `-` in front, and a negative result only with `-` |
| Decimal.AtoiAccepts | pkg/util/conv.go:10 | `Atoi` on a digit run with an optional `+` or `-` gives its (negated, for `-`) value when that is in the 64-bit range, and an error otherwise |
| Decimal.AtoiPlusSign | pkg/util/conv.go:10 | a leading `+` is accepted and changes nothing |
| Decimal.ParseUint | handler/users/user_event_handler.go:70 | `strconv.ParseUint` succeeds only on a non-empty digit run, and on every one whose value fits in 64 bits |
| Decimal.ParseUintAccepts | handler/users/user_event_handler.go:70 | `ParseUint` accepts exactly the non-empty digit runs whose value is at most 2^64-1, and gives that value |
| Decimal.ParseUintDigits | handler/users/user_event_handler.go:70 | `ParseUint` reads back the decimal text of every 64-bit unsigned value |
| Decimal.ParseUintRejectsSign | handler/users/user_event_handler.go:70 | a leading `+` or `-` makes `ParseUint` fail |
| Conv.AtoIOrNil | pkg/util/conv.go:6-15 | nil or "" gives nil; otherwise the result is `Atoi`'s, with nil on its error |
| Conv.AtoUIOrNil | pkg/util/conv.go:17-27 | nil exactly when `AtoIOrNil` is nil; otherwise `AtoIOrNil`'s value modulo 2^64 |
| Conv.ItoAOrNil | pkg/util/conv.go:29-35 | nil exactly for nil |
| Conv.UItoAOrNil | pkg/util/conv.go:37-43 | nil exactly for nil; values up to 2^63-1 give their digits, larger ones a negative decimal (the `int` cast) |
| Conv.RejectsNonDigit | pkg/util/conv.go:6-27 | a character other than a digit (or a leading sign) makes both parsers return nil |
| Conv.RejectsBareSign | pkg/util/conv.go:6-27 | a sign with no digits makes both parsers return nil |
| Conv.RejectsOutOfRange | pkg/util/conv.go:6-27 | a digit run beyond the 64-bit `int` range gives nil from both parsers |
| Conv.AtoIItoARoundTrip | pkg/util/conv.go:6-35 | `AtoIOrNil(ItoAOrNil(n)) == n` for every 64-bit `int` |
| Conv.AtoUIUItoARoundTrip | pkg/util/conv.go:17-43 | `AtoUIOrNil(UItoAOrNil(u)) == u` for every 64-bit `uint`, including those above 2^63-1 |
| Conv.AtoUINegativeWraps | pkg/util/conv.go:25 | `AtoUIOrNil("-k")` is 2^64-k: a negative ID is not rejected |
| Conv.ItoACanonical | pkg/util/conv.go:33 | `ItoAOrNil` writes a sign exactly for negatives, and canonical digits |
| Dto.ToFolderDto | pkg/util/entityDtoUtil.go:8-18 | IDs up to 2^63-1 become their decimal text; `parentID` is nil exactly when the folder has no parent; name and path are copied |
| Dto.ToFileDto | pkg/util/entityDtoUtil.go:20-32 | IDs up to 2^63-1 become their decimal text; the other fields are copied |
| Dto.FolderDtoIdsRoundTrip | pkg/util/entityDtoUtil.go:8-18 | parsing a folder DTO's IDs back with `AtoUIOrNil` gives the folder's IDs |
| Dto.FileDtoIdsRoundTrip | pkg/util/entityDtoUtil.go:20-32 | parsing a file DTO's IDs back with `AtoUIOrNil` gives the file's IDs |
| Query.DropSpaces | cmd/main.go:119 | removes exactly a leading run of whitespace (the `\s` class) |
| Query.NormalizeQuery | cmd/main.go:118-120 | never longer than the input; empty exactly for empty input; starts with a space exactly when the input starts with whitespace |
| Query.NormalizeQueryNormalized | cmd/main.go:118-120 | the result has no whitespace but single spaces |
| Query.NormalizeQueryKeepsText | cmd/main.go:118-120 | the non-whitespace characters are kept, in order |
| Query.DropSpacesNonSpaces | cmd/main.go:119 | dropping leading whitespace keeps the non-whitespace text |
| Query.NormalizedFixedPoint | cmd/main.go:118-120 | a normalised query is left unchanged |
| Query.NormalizeQueryIdempotent | cmd/main.go:118-120 | normalising twice is normalising once |
| Query.NoWhitespaceUnchanged | cmd/main.go:118-120 | a query without whitespace is unchanged |
| Query.OnlyWhitespace | cmd/main.go:118-120 | an all-whitespace non-empty query becomes one space |
| Query.NormalizeQueryRun | cmd/main.go:118-120 | a maximal whitespace run between two non-space characters (or a text end) becomes exactly one space, and the text on either side is normalised on its own |
| Query.NormalizeQueryAppend | cmd/main.go:118-120 | normalising splits at any point after a non-space character |
| Query.DropSpacesAppend | cmd/main.go:119 | a leading whitespace run that ends inside a text ends at the same place after anything is appended |
| Query.DropSpacesRun | cmd/main.go:119 | a whitespace run in front of a text starting with a non-space is removed exactly |
| Query.RunThenText | cmd/main.go:118-120 | a whitespace run followed by a non-space normalises to one space, then the rest normalised |
| Repository.FirstWhere | pkg/repository/folder_repository.go:92-102 | gorm's `First`: a matching row with no matching row before it, or none when no row matches |
| Repository.FirstWhereLowestKey | pkg/repository/folder_repository.go:92-102 | on rows in ascending ID order, the row `FirstWhere` picks has the lowest ID of all matching rows, as `First`'s primary-key order does |
| Repository.FilterKeepsAscending | pkg/repository/folder_repository.go:60-78 | `Find` on rows in ascending ID order keeps them in ascending order |
| Repository.Filter | pkg/repository/folder_repository.go:60-78 | gorm's `Find`: a row is in the result exactly when it is a stored row that matches; the result is no longer than the table, and as long exactly when every row matches |
| Repository.FilterCounts | pkg/repository/folder_repository.go:60-78 | `Find` keeps each matching row exactly as many times as it is stored, and no other row: with `FilterKeepsAscending`, the result is the matching rows in table order |
| Repository.ReplaceById | pkg/repository/file_repository.go:59-66 | gorm's `Save`: the row with the same ID is overwritten and all others are kept |
| Repository.GetRootFolder | pkg/repository/folder_repository.go:92-102 | a found folder is the user's parentless folder; record-not-found exactly when the user has none |
| Repository.GetFolder | pkg/repository/folder_repository.go:80-90 | finds by ID alone (the user is ignored); record-not-found exactly when no row has the ID |
| Repository.GetFolderByNameAndParentId | pkg/repository/folder_repository.go:37-45 | finds the user's child of that name under the parent; record-not-found exactly when none exists |
| Repository.GetChildren | pkg/repository/folder_repository.go:60-78 | the query's failure is returned first, then the parent lookup's error; on success the result holds exactly the user's rows under the parent, each with the parent's path, "/" and its name as path |
| Repository.InsertFolder | pkg/repository/folder_repository.go:116-147 | an insert appends the row under the next ID; on error the table is unchanged |
| Repository.CreateRootFolder | pkg/repository/folder_repository.go:116-130 | appends a parentless, nameless folder of the user; on error nothing changes |
| Repository.CreateFolder | pkg/repository/folder_repository.go:132-147 | appends a folder of that name under the parent; on error nothing changes |
| Repository.Merged | pkg/repository/folder_repository.go:57 | the row `Updates` leaves: the stored row with the folder's name, parent and user written where they are non-zero (a non-empty name, a non-nil pointer), its ID and path kept |
| Repository.UpdateFolder | pkg/repository/folder_repository.go:56-58 | gorm's `Updates` on the rows with the folder's ID: a non-empty name and non-nil parent and user are written, zero fields keep the stored value; IDs, paths and other rows are kept; on error nothing changes |
| Repository.UpdateFolderKeepsNameOnEmpty | pkg/repository/folder_repository.go:57 | writing a folder with an empty name changes no stored name |
| Repository.InsertFolderKeepsKeysOrdered | pkg/repository/folder_repository.go:116-147 | an insert keeps the rows in ascending ID order, all below the next ID |
| Repository.UpdateFolderKeepsKeysOrdered | pkg/repository/folder_repository.go:56-58 | `Updates` keeps the rows in ascending ID order |
| Repository.DeleteFolderKeepsKeysOrdered | pkg/repository/folder_repository.go:47-54 | a delete keeps the rows in ascending ID order |
| Repository.FolderWritesKeepKeysOrdered | pkg/repository/folder_repository.go:47-147 | every write to the folder table keeps its rows in ascending ID order, all below the next ID |
| Repository.DeleteFolder | pkg/repository/folder_repository.go:47-54 | reports whether a row had the ID and removes exactly the rows with that ID |
| Repository.GetFile | pkg/repository/file_repository.go:82-95 | finds the user's file with that ID; no file and no error exactly when there is none |
| Repository.GetFileByNameAndFolderId | pkg/repository/file_repository.go:97-110 | finds the user's file of that name in the folder; no file and no error exactly when there is none |
| Repository.GetFilesByFolderId | pkg/repository/file_repository.go:112-116 | exactly the user's files in that folder; the query error is dropped, so a failure gives no files |
| Repository.CreateFile | pkg/repository/file_repository.go:45-57 | appends the user's file of that name in the folder; on error nothing changes |
| Repository.UpdateFile | pkg/repository/file_repository.go:59-66 | on success the row with the file's ID is replaced; on error nothing changes |
| Repository.DeleteFile | pkg/repository/file_repository.go:68-80 | reports whether the user had that file and removes exactly the user's rows with that ID |
| Repository.CreateFileKeepsKeysOrdered | pkg/repository/file_repository.go:45-57 | a new file keeps the rows in ascending ID order, all below the next ID |
| Repository.UpdateFileKeepsKeysOrdered | pkg/repository/file_repository.go:59-66 | `Save` keeps the rows in ascending ID order |
| Repository.DeleteFileKeepsKeysOrdered | pkg/repository/file_repository.go:68-80 | a delete keeps the rows in ascending ID order |
| Repository.FileWritesKeepKeysOrdered | pkg/repository/file_repository.go:45-80 | every write to the file table keeps its rows in ascending ID order, all below the next ID |
| FolderService.GetRootFolder | pkg/service/folder_service.go:31-33 | passes the repository's answer through |
| FolderService.GetFolder | pkg/service/folder_service.go:65-67 | passes the repository's answer through |
| FolderService.GetChildren | pkg/service/folder_service.go:69-71 | passes the repository's answer through |
| FolderService.DeleteFolder | pkg/service/folder_service.go:91-93 | passes the repository's answer through |
| FolderService.RenameFolder | pkg/service/folder_service.go:35-48 | an error of the lookup is returned; after a successful lookup a failing `UpdateFolder` returns its error; on success the fetched folder with the new name is returned and written with `UpdateFolder`; on any error nothing changes |
| FolderService.CreateRootFolder | pkg/service/folder_service.go:50-63 | a lookup failure other than record-not-found is returned; an existing root folder is refused with "already exists"; otherwise the repository creates it |
| FolderService.CreateFolder | pkg/service/folder_service.go:73-89 | the parent must be found; a sibling of that name is refused; a lookup failure is returned; only record-not-found leads to creation |
| FolderService.CreateRootFolderKeepsOneRoot | pkg/service/folder_service.go:50-63 | starting from at most one root folder per user, there is still at most one afterwards |
| FolderService.CreateFolderKeepsNamesUnique | pkg/service/folder_service.go:73-89 | starting from unique sibling names per user, they stay unique |
| FolderService.RenameFolderChangesOnlyName | pkg/service/folder_service.go:35-48 | on a table with ascending IDs, when the lookup succeeds and the write does not fail, the rename succeeds and changes only the name of the renamed row, and not even that for the empty name; every other row is unchanged |
| FolderService.RenameToEmptyName | pkg/service/folder_service.go:41-47 | renaming to "" returns a folder named "" while every stored name stays as it was |
| FileService.UpdateField | pkg/service/file_service.go:70-74 | a nil value keeps the field, and a given value replaces it |
| FileService.UpdateSize | pkg/service/file_service.go:76-80 | a nil value keeps the size, and a given value replaces it |
| FileService.Patched | pkg/service/file_service.go:38-41 | the four updates of `PatchFile` in order (name, type, extension, size), each keeping the field on nil; see `PatchedFields` |
| FileService.PatchedFields | pkg/service/file_service.go:38-41 | patching changes only name, type, extension and size, each to the given value or else its old one |
| FileService.PatchFile | pkg/service/file_service.go:30-48 | a lookup error is returned; a missing file gives "not found"; otherwise the patched file is written (or the update error returned); no error changes anything |
| FileService.PatchFileTwice | pkg/service/file_service.go:30-48 | repeating a successful patch changes nothing and returns the same file |
| FileService.ReplacedFileFound | pkg/service/file_service.go:30-48 | after the row is written, the lookup by user and ID finds the written file |
| FileService.ReplaceByIdTwice | pkg/service/file_service.go:43 | writing the same row twice is writing it once |
| FileService.CreateFile | pkg/service/file_service.go:58-68 | a failing name lookup is returned; an existing file of that name in the folder is refused; otherwise the repository creates it |
| FileService.CreateFileKeepsNamesUnique | pkg/service/file_service.go:58-68 | file names stay unique per user and folder |
| FileService.GetFile | pkg/service/file_service.go:54-56 | passes the repository's answer through |
| FileService.GetChildren | pkg/service/file_service.go:50-52 | passes the repository's files through, with no error |
| FileService.DeleteFile | pkg/service/file_service.go:26-28 | passes the repository's answer through |
| ConsumerWorker.Started | consumer/worker.go:17-29 | `start` marks the goroutine as launched and changes nothing else |
| ConsumerWorker.Sent | consumer/kafka_consumer.go:113 | `worker.messages <- e`: the message joins the end of the queue; the input must be open, since a send on a closed channel panics |
| ConsumerWorker.HandledNext | consumer/worker.go:19-24 | one pass of the range loop: the oldest queued message leaves the queue and is appended to the handled ones, whatever the handler returns |
| ConsumerWorker.Finished | consumer/worker.go:24-25 | the range loop ends on a closed, empty input and `w.done <- true` is ready to be received |
| ConsumerWorker.Drained | consumer/worker.go:19-25 | the goroutine run to its end after the input is closed: see `DrainedIsHandledAll` |
| ConsumerWorker.Stopped | consumer/worker.go:31-41 | `stop` takes a ready done value exactly when there is one; otherwise it closes the input, which panics exactly when it is closed already; the queue and the handled messages are kept |
| ConsumerWorker.Awaited | consumer/kafka_consumer.go:140 | `<-w.done` succeeds exactly for a started worker with a closed input whose done value was not taken, and then every queued message has been handled, in order |
| ConsumerWorker.NewWorker | consumer/worker.go:43-51 | a new worker has its ID, an empty queue, no messages handled, and is neither started, closed nor done |
| ConsumerWorker.TransitionsKeepWellFormed | consumer/worker.go:17-41 | every transition keeps the invariant: done only after the input is closed and drained, and received only after it is sent |
| ConsumerWorker.HandledMany | consumer/worker.go:19-24 | `k` passes of the range loop hand over exactly the first `k` queued messages, in order, and change nothing else |
| ConsumerWorker.DrainedIsHandledAll | consumer/worker.go:19-25 | draining is the range loop over the whole queue followed by the loop's end |
| ConsumerWorker.StopOpenWorker | consumer/worker.go:31-41 | stopping a worker with an open input closes it, without a panic |
| ConsumerWorker.StopReadyWorker | consumer/worker.go:33-35 | stopping a worker whose done value is ready takes it and closes nothing |
| ConsumerWorker.StopTwicePanics | consumer/worker.go:31-41 | a second `stop` before the worker has drained closes a closed channel, which panics |
| ConsumerWorker.DoneAfterAllHandled | consumer/worker.go:19-25 | the done value is received only after the input was closed and every queued message was handled, in order |
| ConsumerWorker.Worker.constructor | consumer/worker.go:43-51 | the new worker's state is `NewWorker(id)`, with the given handler |
| ConsumerWorker.Worker.Start | consumer/worker.go:17-29 | marks the goroutine as started |
| ConsumerWorker.Worker.Send | consumer/kafka_consumer.go:113 | requires an open input; appends the message to the queue and to everything received |
| ConsumerWorker.Worker.HandleNext | consumer/worker.go:19-23 | the oldest queued message goes to the handler and is recorded as handled, whatever the handler returns |
| ConsumerWorker.Worker.Finish | consumer/worker.go:24-25 | the loop ends on a closed, empty input; the done value becomes ready |
| ConsumerWorker.Worker.Drain | consumer/worker.go:19-25 | the loop runs to its end: the new state is `Drained` of the old one |
| ConsumerWorker.Worker.Stop | consumer/worker.go:31-41 | the new state and result are `Stopped` of the old state |
| ConsumerWorker.Worker.AwaitDone | consumer/worker.go:19-25 | the receive succeeds exactly when `Awaited` succeeds, and then the state is its result; otherwise nothing changes |
| ConsumerWorker.HandledIsPrefixOfReceived | consumer/worker.go:19-24 | the handled messages are a prefix of those sent; once done, they are all of them |
| PoolModel.Assigned | consumer/kafka_consumer.go:67-71 | the pooled partitions become the old ones plus the listed ones, and unlisted entries are kept |
| PoolModel.Revoked | consumer/kafka_consumer.go:82-88 | the listed partitions leave the pool, and every remaining entry is kept |
| PoolModel.Routed | consumer/kafka_consumer.go:106-122 | routing keeps the pool's partitions, keeps it live, and changes no other partition's worker |
| PoolModel.ShutDown | consumer/kafka_consumer.go:137-142 | after `stopWorkers` the pool keeps its partitions, and every worker is closed, drained and done |
| PoolModel.RevokeLog | consumer/kafka_consumer.go:82-88 | the stops of a revocation: one per listed partition that still has a worker and was not listed earlier, in list order |
| PoolModel.RouteLog | consumer/kafka_consumer.go:107-120 | a message needs a client call only with a handler and no worker for its partition, and then it is committed; otherwise (queued or dropped) there is none |
| PoolModel.StepLog | consumer/kafka_consumer.go:105-133 | the client calls of one non-fatal event: `RouteLog` for a message; the starts and then `Assign` for an assignment; `Unassign` and then `RevokeLog` for a revocation; none for any other event |
| PoolModel.RunLog | consumer/kafka_consumer.go:99-134 | the client calls of a run of non-fatal events: each event's `StepLog`, taken against the pool that the events before it leave (`RunView`), in poll order |
| PoolModel.RevokeLogOnlyStops | consumer/kafka_consumer.go:82-88 | a revocation only stops workers, and only present ones |
| PoolModel.StepLogMidRun | consumer/kafka_consumer.go:101-133 | one event never subscribes, closes the client or waits on a worker's done |
| PoolModel.RunLogMidRun | consumer/kafka_consumer.go:99-134 | the whole loop never subscribes, closes the client or waits on a worker's done |
| PoolModel.StartedWorker | consumer/kafka_consumer.go:68-69 | a new, started worker for the partition, with an empty, open queue |
| PoolModel.Retired | consumer/kafka_consumer.go:139-140 | a live worker's `stop` closes its input, and `<-w.done` then succeeds with the result |
| PoolModel.PartlyShutDown | consumer/kafka_consumer.go:138-141 | the pool part-way through `stopWorkers` keeps its partitions; with none left it is `ShutDown`, with all left it is unchanged |
| PoolModel.StepView | consumer/kafka_consumer.go:105-133 | every event that does not end the loop keeps every pooled worker live |
| PoolModel.RunView | consumer/kafka_consumer.go:99-134 | over any event sequence the pool stays live |
| PoolModel.StartLog | consumer/kafka_consumer.go:67-71 | one worker start per listed partition, in list order |
| PoolModel.StopDoneLog | consumer/kafka_consumer.go:137-142 | two actions per stopped worker |
| PoolModel.StartLogSnoc | consumer/kafka_consumer.go:67-71 | one more partition adds one more start at the end |
| PoolModel.RunStep | consumer/kafka_consumer.go:99-134 | one more event is one more pass of the loop, for both the pool and the log |
| PoolModel.AssignedRegistersAll | consumer/kafka_consumer.go:67-71 | after an assignment every listed partition has a fresh, started worker with an empty queue |
| PoolModel.AssignedKeepsOthers | consumer/kafka_consumer.go:67-71 | an assignment leaves every unlisted partition's entry as it was |
| PoolModel.AssignedSnoc | consumer/kafka_consumer.go:67-71 | assigning one more partition overwrites its entry last |
| PoolModel.RevokedRemovesListed | consumer/kafka_consumer.go:82-88 | a revocation removes every listed partition and keeps every other entry unchanged |
| PoolModel.RevokeAbsentIsNoOp | consumer/kafka_consumer.go:76-90 | revoking partitions without workers changes no entry; only `Unassign` is called |
| PoolModel.RevokeLogAbsent | consumer/kafka_consumer.go:83-84 | a revocation stops no worker when none of the listed partitions has one |
| PoolModel.RevokeLogStopsPresent | consumer/kafka_consumer.go:77-88 | `Unassign` comes first; exactly the listed partitions with a worker get a stop |
| PoolModel.RevokeLogStopsOnce | consumer/kafka_consumer.go:82-88 | no worker is stopped twice by one revocation, even for a partition listed twice |
| PoolModel.RevokedSnoc | consumer/kafka_consumer.go:82-88 | revoking one more partition removes its entry |
| PoolModel.RevokeLogSnoc | consumer/kafka_consumer.go:82-88 | one more partition adds a stop exactly when it still has a worker |
| PoolModel.RoutedEffect | consumer/kafka_consumer.go:106-122 | with a handler, a message joins the end of its worker's queue, or is committed when its partition has none; without a handler it is dropped; no other worker changes |
| PoolModel.RunViewKeys | consumer/kafka_consumer.go:64-134 | the pooled partitions after a run are those that the assignment and revocation events leave |
| PoolModel.RunQueuesInOrder | consumer/kafka_consumer.go:106-115 | without rebalancing, a worker is sent its partition's messages in poll order |
| PoolModel.ShutDownDrains | consumer/kafka_consumer.go:137-142 | after `stopWorkers` every worker has handled all it was sent, in order, and is closed and done |
| PoolModel.StopDoneLogSnoc | consumer/kafka_consumer.go:138-141 | one more worker adds its stop and then its done |
| PoolModel.OrderSnoc | consumer/kafka_consumer.go:138 | the ranged-over partitions stay distinct, one per pooled partition |
| PoolModel.StopDoneLogOrder | consumer/kafka_consumer.go:139-140 | each worker is stopped and then awaited before the next one is stopped |
| KafkaConsumer.Consumer.constructor | consumer/kafka_consumer.go:46-52 | requires a handler, since `handler.Topic()` panics on a nil one; an empty pool, with one `Subscribe` call for the given topic |
| KafkaConsumer.Consumer.Assign | consumer/kafka_consumer.go:64-75 | the pool becomes `Assigned` and stays live; the workers start in list order, then `Assign` is called |
| KafkaConsumer.Consumer.Revoke | consumer/kafka_consumer.go:76-90 | `Unassign` comes first; the pool becomes `Revoked`, with one stop per removed worker |
| KafkaConsumer.Consumer.Route | consumer/kafka_consumer.go:106-122 | the pool becomes `Routed`, and the message is committed only when its partition has no worker |
| KafkaConsumer.Consumer.Progress | consumer/worker.go:19-23 | one worker hands its oldest message to the handler; nothing else changes |
| KafkaConsumer.Consumer.StopWorkers | consumer/kafka_consumer.go:137-142 | each pooled worker, once each and in some order, is stopped and awaited; the pool becomes `ShutDown` |
| KafkaConsumer.Consumer.StopNext | consumer/kafka_consumer.go:138-141 | one ranged-over worker is stopped and awaited, and the rest of the pass is left as it was |
| KafkaConsumer.Consumer.ShutdownWorkers | consumer/kafka_consumer.go:144-157 | every worker is shut down, then `Unassign` is called; the pool map is kept |
| KafkaConsumer.Consumer.Close | consumer/kafka_consumer.go:27-33 | `Unassign`, then `Close`; the workers are left alone |
| KafkaConsumer.Consumer.Step | consumer/kafka_consumer.go:101-133 | one non-fatal event moves the pool by `StepView` and appends `StepLog` |
| KafkaConsumer.Consumer.Loop | consumer/kafka_consumer.go:99-134 | the loop runs up to the first "all brokers down", or over all events when there is none, and leaves the state `RunView` and `RunLog` of the events before it |
| KafkaConsumer.Consumer.Advance | consumer/kafka_consumer.go:99-134 | one more pass of the loop extends the run by that event |
| KafkaConsumer.Consumer.Run | consumer/kafka_consumer.go:97-135 | runs the events up to the first "all brokers down", shuts the workers down there and returns that error; without one, the state is `RunView` and `RunLog` of all the events |
| UserEventHandler.Topic | handler/users/user_event_handler.go:23-25 | the topic is "users" |
| UserEventHandler.EventTypeOf | handler/users/user_event_handler.go:30-35 | the event type of a header list, defined from its last header back: see `LastEventTypeHeaderWins` and `EventTypeFromHeader` |
| UserEventHandler.ExtractEventType | handler/users/user_event_handler.go:30-35 | the header scan returns the last `eventType` header's value, or "" |
| UserEventHandler.LastEventTypeHeaderWins | handler/users/user_event_handler.go:31-35 | an `eventType` header with no later one gives the event type |
| UserEventHandler.EventTypeFromHeader | handler/users/user_event_handler.go:30-35 | without an `eventType` header the type is ""; a non-empty type is some such header's value |
| UserEventHandler.CreateRootFolder | handler/users/user_event_handler.go:68-84 | a key that `ParseUint` refuses is an error without a service call; otherwise one call with the parsed ID, whose error is returned |
| UserEventHandler.Dispatched | handler/users/user_event_handler.go:41-60 | unknown types are an error; "deleted" succeeds; "created" makes at most one folder-service call, with the parsed ID, and returns its error wrapped; only that call changes the table |
| UserEventHandler.HandleMessage | handler/users/user_event_handler.go:28-61 | dispatches on the scanned event type, with the key as the user ID |
| UserEventHandler.MissingEventTypeIsUnknown | handler/users/user_event_handler.go:30-57 | a message without an `eventType` header is an unknown event "", and no service is called |
| UserEventHandler.NonDecimalKeyRejected | handler/users/user_event_handler.go:70-74 | an empty key, or one with a non-digit, fails without a service call |
| UserEventHandler.CanonicalKeyCreatesThatUser | handler/users/user_event_handler.go:70-80 | the decimal text of any 64-bit ID as key makes one root-folder call, for that ID |
| UserEventHandler.RepeatedUserCreatedFails | handler/users/user_event_handler.go:42-45 | delivering a "created" event again after it succeeded fails with "already exists" and changes nothing |

## Left out

- Goroutines and scheduling. A worker's draining goroutine runs only when the model takes a step: `Progress`, or the drain in `<-w.done`.
- The `WaitGroup`: its `Add` and `Done` in the rebalance callback, `wg.Wait` before each message in the worker, and the `Wait` in `shutdownWorkers`. With no concurrency in the model they order nothing.
- The unbuffered channel: a send is modelled as placing the message in a FIFO queue. The sender's blocking until the worker receives is not modelled.
- Revoked or replaced workers are dropped from the pool state. In Go their goroutines go on draining, detached; a replaced worker is never stopped.
- Creating the Kafka client: configuration errors from `kafka.NewConsumer` (consumer/kafka_consumer.go:36-44) and a failing `Subscribe` (52-54). The constructor models a client that exists and a subscription that succeeds.
- KafkaConsumer.Consumer.constructor: the topic is the caller's argument, standing for the value of `handler.Topic()` (consumer/kafka_consumer.go:52); the handler's `Topic` method itself is not modelled. A typed-nil handler, which passes Go's `c.handler != nil` test but cannot be called, is not modelled.
- `Poll` becomes a finite sequence of events, because the source polls forever. `Run` returns no error when the sequence ends.
- KafkaConsumer.Consumer.Step: requires an event other than "all brokers down", because `Run` handles that branch itself.
- Logging, with its output and formats.
- Error message texts, which are modelled as error constructors.
- UserEventHandler.CreateRootFolder: does not distinguish `ParseUint`'s syntax error from its range error; both are `InvalidUserId`.
- The payload of a "user created" message, which is only logged.
- gorm itself: SQL, soft deletes, zero values other than in `Updates`, and the path CTE (`GetPathCTE`, pkg/repository/folder_repository.go:105). The repositories are in-memory tables.
- `DeleteAllFiles` (pkg/repository/file_repository.go:31), which nothing in the modelled code calls. The handler's delete stubs return nil without it.
- The GraphQL resolvers, the server setup and the rest of cmd/main.go: I/O and glue.
- Configuration, the database connection and `handler/handler.go`. The handler is modelled as `hasHandler` and a function from message to outcome.
- The declared `int` type of `File.Size` (pkg/repository/entity/entity.go:25). `updateSize` writes it through a `*uint64` (pkg/service/file_service.go:41,76-80), which Go would refuse to compile. The model stores the size as a 64-bit unsigned value, as the patch passes it.
- The ID sequence's limit: the in-memory tables refuse an insert with `IdsExhausted` once the next ID would be 2^64-1, so that IDs stay 64-bit values. The database's own sequence fails earlier, at 2^63-1, with a database error; neither the limit nor that error is the source's.
- The `gorm.Model` fields other than the ID: timestamps and the soft-delete marker.
- Repository.FirstWhere: `First`'s primary-key order is taken as table order. The two agree whenever the rows are in ascending ID order (`FirstWhereLowestKey`), which every write keeps (`FolderWritesKeepKeysOrdered`, `FileWritesKeepKeysOrdered`); a table given in another order is not reordered.
