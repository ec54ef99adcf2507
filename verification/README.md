# agent-envs: a verified model

A Dafny 4.11 model of the parts of this repository that carry state, with proofs of what they
are for. `dafny verify dfyconfig.toml` checks all of it.

The repository runs untrusted programs for agents: a proxy takes `Exec` requests, pushes jobs to
Redis queues, workers fetch and run them and call back with the result, and a response store
joins each reply to the `Exec` that waits for it. Beside that stand data set tools: a compact
binary container for Codeforces problems, two importers into SQLite, a lookup tool, and the
scoring and shell quoting of the Python client. Four groups of modules follow this.

**Jobs and replies.** `StoreSpec` gives each critical section of the response store as a function
on values; `ResponseStore` is the code itself (a map changed under a lock, channels as shared
objects, waiters), every method proved to be its function. `StoreTraces` looks at every
interleaving of critical sections, as a sequence of events: who is handed which reply, where
every reply is at any moment, how long an unclaimed one lives. `Worker`, `Proxy` and `Api` are
the worker's, the callback server's and the API server's methods as written. `Dispatch` puts
all of it into one step system, with any number of `Exec` calls, workers, late and repeated
callbacks, cancelled contexts, failed pushes and cleanup passes, and proves what holds in every
reachable state.

**The Codeforces container.** `LittleEndian` and `CfbinFormat` are the byte format, header and
index, as a printer and a parser; `CfbinBuilder` and `CfbinReader` are the streaming writer and
the reader's loops; `CfbinRoundTrip` joins them; `CfbinListing` is the sorted listing.

**The SQLite tools.** `IoiTables` and `CodeforcesTables` are tables as finite maps with the
constraints of their schemas. `IoiEffect`, `IoiRuns` and `IoiWalkOrder` say what importing records does,
what a whole import keeps, and how little the order of walking a Go map matters; `IoiImporter` is
the import loop with its batches, counters and transactions; `IoiLookup` is the lookup tool, up to
importing and then looking up. `CodeforcesImporter` is the upserting import.

**The Python client.** `ShellQuote` is the quoting, against the word rules of IEEE Std 1003.1-2017,
Shell Command Language, sections 2.2 and 2.3. `BuildScript` is the compile script into which quoted names
go, and `Dedent` the `textwrap.dedent` (of Python 3.14, which `pysdk/pyproject.toml:10` asks for) that the
script's whole text passes through. `IoiScore` is case de-duplication and scoring, over reals,
and `IoiMarks` the exact score, said without the dict.

`Prelude`, `Text`, `Messages` and `Sorting` hold what the others share.

Three properties that one might expect are false of the code, each with an input and its exact condition.

- A lookup by name alone should find the problem that is alone under its name. The resolver keeps id 0 for
  "not found" (`ioi_db_lookup/main.go:221-239`), so it does for every name iff no problem has id 0 or another
  shares that one's name (`SentinelSoundIff`, `SentinelCounterexample`). An import gives out id 0 iff the table has
  ids, all of them negative, and the import records enough to reach 0 (`ImportGivesZeroIff`); into an empty
  database it never does.
- The compiler should get the file names as they are. The build script is dedented after the quoted names are
  put in (`pysdk/agent_envs/binary_builder.py:98-110`), which also takes white space from the lines of a name
  with line breaks. The names arrive unchanged iff none has a second line, or some further line begins without
  a blank and no inner line is only white space (`CompilerGetsTheFiles`, `NameThatDoesNotArrive`).
- Full marks in every case should give the sum of all task scores. Scores go into a dict by name, so that holds
  iff no two subtasks have the same name (`TotalBounds`, `SameNameLosesMarks`).

Parameters stand for what the code asks the outside: the answers of the operating system, the
network and Redis, the ids drawn by `uuid.New` (taken to be fresh in `Dispatch`), the clock, the
hash behind Codeforces problem ids, which characters beyond ASCII are letters or digits, the
order in which Go walks a map (every order is allowed), and what other goroutines do meanwhile.

## Model

| member | source | states |
|---|---|---|
| StoreSpec.DeliverNeverDrops | proxy/pkg/response_store/naive.go:87-114 | a registered channel is empty, so the send in `Deliver` never takes its `default` branch |
| StoreSpec.RegisterKeepsCoherent | proxy/pkg/response_store/naive.go:59-85 | registering keeps every entry with exactly one of channel and reply, and registered channels distinct and empty |
| StoreSpec.DeliverKeepsCoherent | proxy/pkg/response_store/naive.go:87-114 | delivering keeps the same invariant |
| StoreSpec.ReleaseKeepsCoherent | proxy/pkg/response_store/naive.go:116-135 | closing keeps the same invariant, for any id and channel |
| StoreSpec.TickKeepsCoherent | proxy/pkg/response_store/naive.go:137-166 | a cleanup pass keeps the same invariant |
| StoreSpec.ReleaseIsPrivate | proxy/pkg/response_store/naive.go:116-135 | a stale or repeated close evicts no other waiter and no buffered reply, and closing twice is closing once |
| ResponseStore.Channel.TrySend | proxy/pkg/response_store/naive.go:100-105 | the non-blocking send on a channel of capacity one |
| ResponseStore.Waiter.Wait | proxy/pkg/response_store/naive.go:19-26 | takes the one reply out of the channel, or reports the context's end and changes nothing |
| ResponseStore.Waiter.Close | proxy/pkg/response_store/naive.go:28-30 | the store becomes its `Release` for the waiter's own id and channel |
| ResponseStore.ResponseStore.NewWaiter | proxy/pkg/response_store/naive.go:59-85 | the locked map becomes its `Register` on a fresh channel, or nothing changes and an id is already waited for |
| ResponseStore.ResponseStore.Deliver | proxy/pkg/response_store/naive.go:87-114 | the locked map and the channel become their `Deliver` |
| ResponseStore.ResponseStore.ReleaseWaiter | proxy/pkg/response_store/naive.go:116-135 | the locked map becomes its `Release` |
| ResponseStore.ResponseStore.CleanupPass | proxy/pkg/response_store/naive.go:137-166 | one pass, in whatever order the map is walked, removes exactly the expired entries |
| StoreTraces.EntryStep | proxy/pkg/response_store/naive.go:59-166 | what each event does to the entry of any one id |
| StoreTraces.MailboxRefinement | proxy/pkg/response_store/naive.go:59-166 | at every moment of every run the entry of an id is the abstract mailbox read off the events: the waiter waiting, the reply held, or neither |
| StoreTraces.OneReplyPerWaiter | proxy/pkg/response_store/naive.go:59-114 | a waiter is given at most one reply |
| StoreTraces.OneWaiterPerReply | proxy/pkg/response_store/naive.go:59-114 | a reply is given to at most one waiter |
| StoreTraces.BufferMeaning | proxy/pkg/response_store/naive.go:59-114 | a channel holds a reply exactly when the mailbox gave it that reply and it was not yet received |
| StoreTraces.HandedIffGiven | proxy/pkg/response_store/naive.go:59-114 | over a whole run, a waiter is handed a reply iff it is the reply held when it registered, or else the first to come after that and before its close |
| StoreTraces.TraceFateUnique | proxy/pkg/response_store/naive.go:59-166 | read off the events alone, a reply has exactly one fate |
| StoreTraces.EveryReplyAccountedOnce | proxy/pkg/response_store/naive.go:87-114 | conservation: every delivered reply is in exactly one of buffered, in an open waiter's channel, abandoned in a closed waiter's channel, received once, overwritten, expired |
| StoreTraces.UnclaimedReplyExpires | proxy/pkg/response_store/naive.go:137-166 | with a tick in every interval (half of ttl, or a minute), whose clock may be read before steps that take the lock first, no unclaimed reply outlives its delivery by more than ttl and one interval |
| StoreTraces.TickSparesTheYoung | proxy/pkg/response_store/naive.go:137-166 | a tick removes an entry iff it is a reply older than ttl, so never a waiter |
| StoreTraces.StoreEmpties | proxy/pkg/response_store/naive.go:116-166 | once no reply comes, nobody registers and all waiters are closed, the store is empty after ttl and one interval |
| Worker.Execute | envlet/pkg/executor/temp_dir_executor.go:27-115 | a result or a non-empty error on every path; a result exactly when the program ran, with its output and the files captured by the deferred function, and then an error exactly when the pattern does not compile or some visit of the walk fails |
| Worker.Capture | envlet/pkg/executor/temp_dir_executor.go:41-83 | the files are, by path and content, those of the matching visits before the first failing one, in order, none missed |
| Worker.Report | envlet/pkg/reporter/http_callback_reporter.go:39-84 | what leaves the worker, if anything, is the payload for the job at its trimmed URL; success iff a 2xx answer |
| Worker.ShapeSurvives | proxy/pkg/callback/svr.go:32-66 | result, error text and their shape get through report and callback unchanged, under the job's id or not at all |
| Worker.CallbackURLLeadsBack | proxy/pkg/api/server.go:42-48 | the URL put into a job leads the callback server back to that job's id |
| Text.TrimSpaceTakesSpace | proxy/pkg/callback/svr.go:38-39 | what trimming takes is white space at the ends; none is left there |
| Worker.Loop | envlet/cmd/envlet/main.go:57-96 | the job of each turn that the run comes to is executed and gets one report of that execution, to its own URL, in order, also when the stop flag is raised meanwhile |
| Worker.JobsAtMeans | envlet/cmd/envlet/main.go:57-96 | those turns are, in order and none missed, the ones that fetch a job before the loop is told to stop at its top, after an error, or after a job |
| Proxy.CallbackServer.HandleCallback | proxy/pkg/callback/svr.go:32-66 | 204 and one delivery under the id in the path iff it is a POST with an id and a report whose id is that or missing; else 405 or 400, and the store is left alone |
| Proxy.Unpack | proxy/pkg/api/server.go:57-73 | an error text becomes the error, a result the response, file by file, with a 32-bit exit code; the nil dereference happens exactly when there is neither |
| Proxy.Redis.Enqueue | proxy/pkg/publisher/redis.go:39-59 | the job goes to the tail of the trimmed queue and no other queue changes, also when the push is not heard of |
| Proxy.Redis.Fetch | envlet/pkg/jobqueue/redis_job_queue.go:48-70 | takes the head of its queue and touches no other |
| Proxy.QueueNamesAgree | envlet/pkg/jobqueue/redis_job_queue.go:76-88 | `server#q`, split at its first `#`, names the list that a push to `q` appends to; without `#`, or with nothing but white space behind it, there is no queue |
| Api.SlotMeanwhile | proxy/pkg/response_store/naive.go:87-114 | whatever arrives while an `Exec` waits, its channel ends up with the first reply for its id |
| Api.FirstForMeans | proxy/pkg/response_store/naive.go:87-114 | the first reply for an id is that of the first arrival with this id, at whatever place |
| Api.Server.Exec | proxy/pkg/api/server.go:28-74 | the job queued carries the id, its callback URL and the binary, pattern and arguments of the request; the answer is the first reply's, also one that came before the push; and the waiter is unregistered on every path, the run-time error on a reply with neither error nor result included |
| Dispatch.ReachableWorlds | proxy/pkg/api/server.go:35-53 | the whole invariant of proxy, store, queues and workers in every reachable state |
| Dispatch.EndToEndRouting | proxy/pkg/api/server.go:35-53 | a reply an `Exec` received is, result and error text, what the first report delivered for it said; a worker that popped its job from its queue made that report, and the job had exactly its id, callback URL, binary, arguments and capture pattern |
| Dispatch.AnyExecCanSucceed | proxy/pkg/api/server.go:28-74 | for any request with a queue, and any outcome of its job, there is a run in which the `Exec` returns just that outcome |
| Dispatch.PushHappens | proxy/pkg/publisher/redis.go:39-59 | a push puts the job of the request at the tail of its trimmed queue, heard of or not, and the `Exec` waits iff it was heard of |
| Dispatch.MayGiveUp | proxy/pkg/api/server.go:40-57 | from any reachable state a waiting `Exec` can be cancelled, and then nobody is registered for its id |
| Dispatch.MayStop | envlet/cmd/envlet/main.go:57-96 | from any reachable state a worker at the top of its loop that is told to stop stops |
| Dispatch.MayAlwaysArrive | proxy/pkg/callback/svr.go:32-66 | in any reachable state a cleanup may run, and any report ever sent may arrive, again or late, at any path |
| Dispatch.RepliesAreUsable | proxy/pkg/api/server.go:57-73 | every reply reaching an `Exec` with an empty error has a result |
| Dispatch.NoLostWakeUp | proxy/pkg/api/server.go:35-53 | an enqueued `Exec` can take a reply as soon as one was delivered, and only then |
| Dispatch.ReturnedLeavesNoWaiter | proxy/pkg/api/server.go:40-40 | once every `Exec` has returned nothing is registered |
| Dispatch.OneJobPerExec | proxy/pkg/publisher/redis.go:39-59 | an `Exec` has at most one job on all queues, ever |
| Dispatch.JobConservation | envlet/cmd/envlet/main.go:57-96 | jobs leave a queue in push order, and each is in exactly one of queue, one worker's hands, or one report |
| Dispatch.StoppedWorkerOwesNothing | envlet/cmd/envlet/main.go:57-96 | a stopped worker has attempted a report for every job it popped |
| Dispatch.SendKeepsBack | envlet/cmd/envlet/main.go:84-90 | a report is the only one ever attempted for its job |
| CfbinFormat.HeaderReadsBack | tools/codeforces_bin/internal/cfbin/format.go:42-61 | reading a written header gives the header |
| CfbinFormat.HeaderWritesBack | tools/codeforces_bin/internal/cfbin/format.go:42-61 | writing a header that was read gives the same bytes |
| CfbinFormat.HeaderBytes | tools/codeforces_bin/internal/cfbin/format.go:33-41 | the 48 bytes of a built header: magic, version 1, offset 48, size of the data, offset and size of the index |
| CfbinFormat.EntryLayout | tools/codeforces_bin/cmd/cf_bin_builder/main.go:164-214 | where each field of an entry and of any of its cases stands, and its width |
| LittleEndian.LEByte | tools/codeforces_bin/cmd/cf_bin_builder/main.go:172-212 | byte k of a number is its digit k to the base 256 |
| CfbinFormat.EntryReadsBack | tools/codeforces_bin/internal/cfbin/reader.go:43-86 | one encoded entry parses to itself and leaves the rest |
| CfbinFormat.EntryWritesBack | tools/codeforces_bin/internal/cfbin/reader.go:43-86 | re-encoding a parsed entry gives the bytes it was parsed from |
| CfbinFormat.IndexGrammarExact | tools/codeforces_bin/internal/cfbin/reader.go:41-86 | the index parses to a list iff it is that list's encoding, with every field within its width |
| CfbinBuilder.Builder.WriteCase | tools/codeforces_bin/cmd/cf_bin_builder/main.go:185-212 | data and index grow by one case, with 64-bit offsets that may wrap |
| CfbinBuilder.Builder.WriteCases | tools/codeforces_bin/cmd/cf_bin_builder/main.go:185-212 | the loop over the cases of a problem, at any position of the data |
| CfbinBuilder.Builder.WriteProblem | tools/codeforces_bin/cmd/cf_bin_builder/main.go:164-214 | adds the record to what is written, or fails on an index over 255 bytes and writes nothing |
| CfbinBuilder.Builder.ImportFile | tools/codeforces_bin/cmd/cf_bin_builder/main.go:127-162 | writes exactly the records that have a contest and an index, in the order of their lines; fails iff some line is malformed or is such a record with an index over 255 bytes |
| CfbinBuilder.BuildBinary | tools/codeforces_bin/cmd/cf_bin_builder/main.go:58-125 | the file is header, data and index of all records, or the build fails iff some line is malformed or has a contest and an index over 255 bytes, and leaves the blank header in front |
| CfbinBuilder.RecordsAt | tools/codeforces_bin/cmd/cf_bin_builder/main.go:142-154 | the records imported are those of the lines with a contest and an index, by increasing positions that miss none |
| CfbinReader.KeysInjective | tools/codeforces_bin/internal/cfbin/reader.go:128-130 | different problems have different keys |
| CfbinReader.ReadCases | tools/codeforces_bin/internal/cfbin/reader.go:63-79 | the cursor loop over cases parses what the grammar parses |
| CfbinReader.ReadEntry | tools/codeforces_bin/internal/cfbin/reader.go:43-86 | one turn of the index loop reads one entry of the grammar and moves on |
| CfbinReader.FillIndex | tools/codeforces_bin/internal/cfbin/reader.go:41-86 | the index loop ends, and fills the map with the last entry for each key, or fails exactly off the grammar |
| CfbinReader.NewReader | tools/codeforces_bin/internal/cfbin/reader.go:29-88 | the error cases in order, with 64-bit sums, or the parsed reader |
| CfbinRoundTrip.FileIsAccepted | tools/codeforces_bin/internal/cfbin/reader.go:29-88 | within the field limits the reader accepts every built file |
| CfbinRoundTrip.HeaderOf | tools/codeforces_bin/cmd/cf_bin_builder/main.go:92-120 | header, data and index follow one another, and the header has the offset and size of both |
| CfbinRoundTrip.AcceptedIff | tools/codeforces_bin/internal/cfbin/reader.go:29-88 | any bytes at all are accepted iff they begin with a header of the right magic, version and data offset that points at the encoding of some list of entries; the reader then has that list |
| CfbinRoundTrip.RefusedBecause | tools/codeforces_bin/internal/cfbin/reader.go:29-88 | exactly when each error is given, or the process stops, for any bytes |
| CfbinRoundTrip.SliceExact | tools/codeforces_bin/internal/cfbin/reader.go:119-126 | a slice is the bytes asked for iff they lie in the file; a sum past 64 bits is refused or stops the process |
| CfbinRoundTrip.SliceFindsData | tools/codeforces_bin/internal/cfbin/reader.go:119-126 | on built files every slice is inside the data section and no sum wraps |
| CfbinRoundTrip.RoundTrip | tools/codeforces_bin/internal/cfbin/reader.go:90-109 | on built files `Get` answers from the records: case k of the last record for the problem, with its total, or the right error |
| CfbinRoundTrip.FileSize | tools/codeforces_bin/cmd/cf_bin_builder/main.go:164-214 | the file is 48 bytes of header, every input and output once, and nine bytes, the index string and 24 bytes a case for each problem |
| CfbinRoundTrip.BuildThenGet | tools/codeforces_bin/internal/cfbin/reader.go:29-109 | from input lines to an answer: build, read and look up gives case k of the last line that has this contest and index, with its total, or says that there is no such case or no such line, within the field limits |
| CfbinRoundTrip.FailedBuildIsRejected | tools/codeforces_bin/cmd/cf_bin_builder/main.go:68-92 | a file left by a failed build is refused for its magic |
| CfbinRoundTrip.DataTiling | tools/codeforces_bin/cmd/cf_bin_builder/main.go:185-212 | the extents of inputs and outputs tile the data section in order, no gap, no overlap |
| CfbinListing.ListProblems | tools/codeforces_bin/cmd/cf_case/main.go:77-97 | every problem of the index once, by contest number and then by the bytes of the index, whatever order the map is walked in |
| CfbinListing.ProblemLeqIff | tools/codeforces_bin/cmd/cf_case/main.go:87-92 | the order of the listing: by contest, then a prefix or the smaller byte at the first difference |
| CfbinListing.ListingIsOfRecords | tools/codeforces_bin/internal/cfbin/reader.go:111-117 | a built file lists exactly the problems that have a record |
| IoiTables.NextID | tools/ioi_json_to_sql/main.go:284-291 | one above every id, and 1 for an empty table |
| IoiTables.NewIdsPositiveIff | tools/ioi_json_to_sql/main.go:284-291 | the next id is at least 1 iff the table is empty or has an id that is not negative |
| IoiTables.NegativeIdsCounterexample | tools/ioi_json_to_sql/main.go:284-291 | after id -1 alone the next id is 0 |
| IoiEffect.LayoutsAgree | tools/ioi_json_to_sql/main.go:258-282 | a record with its fields at the top, and one with them in its metadata, becomes exactly these fields |
| IoiEffect.NormalizeFields | tools/ioi_json_to_sql/main.go:258-282 | id and year come from the metadata unless it has no id while the root has one; subtasks, tests and files from the root, or from the metadata where the root has none |
| IoiEffect.NamesInOrder | tools/ioi_json_to_sql/main.go:363-368 | the sorted file names: a prefix first, or the smaller code point at the first difference |
| IoiEffect.CaseIdsDistinct | tools/ioi_json_to_sql/main.go:354-361 | the name-to-id map of a record gives each test the id it was inserted under |
| IoiEffect.LinkCount | tools/ioi_json_to_sql/main.go:378-401 | one link for each listed name and no other |
| IoiEffect.LinkAt | tools/ioi_json_to_sql/main.go:378-401 | the link of a listed name joins its subtask and its test case |
| IoiRuns.EffectConsistent | tools/ioi_json_to_sql/main.go:349-401 | a record keeps references good, every counter above every id, and links within problems |
| IoiRuns.AfterConsistent | tools/ioi_json_to_sql/main.go:318-401 | so does a whole run |
| IoiRuns.AfterIdsAtLeastOne | tools/ioi_json_to_sql/main.go:284-401 | ids that start at 1 or above stay there in all five tables |
| IoiRuns.AfterStores | tools/ioi_json_to_sql/main.go:349-376 | each record's tests and files are stored under the id it was given, all of them and no other, whatever the walk order |
| IoiRuns.AfterKeepsStored | tools/ioi_json_to_sql/main.go:349-376 | what was stored before a run is stored after it |
| IoiRuns.AfterProblems | tools/ioi_json_to_sql/main.go:349-352 | the problems after a run are those before it and one per record, under consecutive ids |
| IoiRuns.AfterGrows | tools/ioi_json_to_sql/main.go:324-415 | no row imported is changed or removed by what comes after |
| IoiRuns.RunLinks | tools/ioi_json_to_sql/main.go:378-401 | after a whole import every subtask has its row, and every name it lists a link to that record's test of the name |
| IoiWalkOrder.RunOrder | tools/ioi_json_to_sql/main.go:354-361 | two imports that walk the maps differently leave equal tables up to a one-to-one renumbering of test cases, links included |
| IoiImporter.Import.InsertTestCases | tools/ioi_json_to_sql/main.go:354-361 | the loop over the map never fails on a new problem, for any order |
| IoiImporter.SortedKeys | tools/ioi_json_to_sql/main.go:363-368 | collecting in any order and sorting gives the one sorted list of names |
| IoiImporter.Import.InsertFiles | tools/ioi_json_to_sql/main.go:363-376 | files are numbered in the order of their names |
| IoiImporter.Import.InsertSubTasks | tools/ioi_json_to_sql/main.go:378-401 | goes through iff names are distinct and every listed test exists; then rows and links are those of the effect |
| IoiImporter.Import.ImportRecord | tools/ioi_json_to_sql/main.go:344-401 | goes through iff the record is well-formed and its year and name are new; then the state is the effect |
| IoiImporter.ImportableNext | tools/ioi_json_to_sql/main.go:324-401 | line by line form of when an input is importable |
| IoiImporter.TasksAt | tools/ioi_json_to_sql/main.go:318-344 | the records imported are those of the lines that hold one, by increasing positions that miss none |
| IoiImporter.ImportableIff | tools/ioi_json_to_sql/main.go:324-401 | an input is importable iff no line is malformed, every record has id and year, distinct subtask names and a test for each name listed, and no two, nor one in the tables, share year and id |
| IoiImporter.Import.Run | tools/ioi_json_to_sql/main.go:306-415 | for every batch size, goes through iff all lines are importable and then commits what one transaction would; otherwise what is committed is the effect of whole records before the first bad line, up to a multiple of the batch size |
| IoiImporter.AnyBatchSize | tools/ioi_json_to_sql/main.go:306-415 | with any two positive batch sizes the import of the same lines goes through alike and leaves equal tables, up to a renumbering of test cases |
| IoiLookup.ResolveProblemID | ioi_db_lookup/main.go:190-244 | by id, by name and year, or by name alone: then it succeeds iff exactly one problem has the name and its id is not 0, and a name of several gets their years, one each, in order |
| IoiLookup.AmbiguousMeansSeveral | ioi_db_lookup/main.go:240-242 | the ambiguous answer means two problems of the name at least |
| IoiLookup.SentinelSoundIff | ioi_db_lookup/main.go:221-243 | every name that exactly one problem has is resolved to it iff no problem has id 0 or another shares that one's name |
| IoiLookup.SentinelCounterexample | ioi_db_lookup/main.go:221-243 | with only problem "a" under id 0, looking up "a" answers that there is none |
| IoiLookup.ZeroGivenIff | tools/ioi_json_to_sql/main.go:349-352 | a run gives out problem id 0 iff its counter starts at 0 or below and passes it |
| IoiLookup.ImportGivesZeroIff | tools/ioi_json_to_sql/main.go:284-352 | an import gives out problem id 0 iff the table's ids are all negative and there are records enough to reach 0 |
| IoiLookup.FetchTestCase | ioi_db_lookup/main.go:246-261 | the stored test under this name, or an error iff there is none |
| IoiLookup.FetchGraderFiles | ioi_db_lookup/main.go:263-297 | the map of the stored files of a problem |
| IoiLookup.ResolvedFromList | ioi_db_lookup/main.go:190-244 | answering from the tables is answering from the list of records: without a year it succeeds iff exactly one record has the name, and else gives the year of each |
| IoiLookup.ImportThenLookUp | ioi_db_lookup/main.go:190-297 | import into an empty database, then look up, for every batch size and walk order: the record found has the id and year asked for, and the test and files are those of its root, or of its metadata where the root has none; without a year success iff exactly one record has the name |
| CodeforcesTables.EntryKeepsRecord | tools/codeforces_jsonl_to_sqlite/main.go:235-260 | storing empty texts as NULL loses nothing: every field and case can be read back |
| CodeforcesTables.RepresentsUnique | tools/codeforces_jsonl_to_sqlite/main.go:110-147 | tables that stand for the same map are equal |
| CodeforcesTables.ClashIff | tools/codeforces_jsonl_to_sqlite/main.go:184-196 | the upsert fails iff another problem of the database has the same hash |
| CodeforcesTables.UpsertRepresents | tools/codeforces_jsonl_to_sqlite/main.go:228-261 | upsert, delete and inserts change the map at the record's problem and nowhere else |
| CodeforcesTables.LastWins | tools/codeforces_jsonl_to_sqlite/main.go:297-331 | a problem ends up with what the last record for it says |
| CodeforcesTables.OthersKept | tools/codeforces_jsonl_to_sqlite/main.go:297-331 | a problem without a record stays as it was |
| CodeforcesTables.WinsAgain | tools/codeforces_jsonl_to_sqlite/main.go:297-331 | importing the same records again changes nothing |
| CodeforcesImporter.BatchWriter.Upsert | tools/codeforces_jsonl_to_sqlite/main.go:184-196 | inserts, or updates the row of the same problem, or fails exactly on a clash |
| CodeforcesImporter.BatchWriter.WriteCases | tools/codeforces_jsonl_to_sqlite/main.go:249-261 | the problem's cases are exactly the new ones by offset, all others untouched |
| CodeforcesImporter.BatchWriter.Flush | tools/codeforces_jsonl_to_sqlite/main.go:269-295 | commits what is pending and starts over, or does nothing without a transaction |
| CodeforcesImporter.BatchWriter.Insert | tools/codeforces_jsonl_to_sqlite/main.go:228-267 | pending and committed tables stand for the records so far and for the full batches of them; fails exactly on a clash |
| CodeforcesImporter.ImportFile | tools/codeforces_jsonl_to_sqlite/main.go:297-331 | imports the usable records in order, counts them, and stops at the first bad line |
| CodeforcesImporter.ImportableIff | tools/codeforces_jsonl_to_sqlite/main.go:297-344 | an import goes through iff every line parses and no two problems, old or new, share a hash |
| CodeforcesImporter.Import | tools/codeforces_jsonl_to_sqlite/main.go:71-108 | the database stands for the last-wins map of all files; a stopped import leaves whole batches of the records before the bad line |
| CodeforcesImporter.RecordsAt | tools/codeforces_jsonl_to_sqlite/main.go:312-323 | the records imported are those of the lines with a contest and an index, by increasing positions that miss none |
| CodeforcesImporter.LastLineStored | tools/codeforces_jsonl_to_sqlite/main.go:228-338 | of each problem the tables hold what its last line says: every field and case under the hashed id, no other case, and NULL exactly for the empty texts |
| CodeforcesImporter.OthersStay | tools/codeforces_jsonl_to_sqlite/main.go:297-331 | a problem that no line has keeps its row and cases, or stays absent |
| CodeforcesImporter.AnyBatchSize | tools/codeforces_jsonl_to_sqlite/main.go:160-172 | the tables do not depend on the batch size |
| CodeforcesImporter.ImportAgain | tools/codeforces_jsonl_to_sqlite/main.go:71-108 | a second import of the same files goes through and leaves equal tables |
| ShellQuote.QuotedIsOneWord | pysdk/agent_envs/binary_builder.py:160-166 | a quoted string is read as one word, the string itself, whatever follows it |
| ShellQuote.QuoteRoundTrip | pysdk/agent_envs/binary_builder.py:160-166 | quoting round-trips exactly on the strings without NUL |
| ShellQuote.JoinRoundTrip | pysdk/agent_envs/binary_builder.py:97-110 | the space-joined quotes of a list read back as the list, exactly when no name has a NUL |
| ShellQuote.QuoteText | pysdk/agent_envs/binary_builder.py:160-166 | a string is left as it is iff it is not empty and has only letters, digits and `._-/`; otherwise it is put in quotes |
| ShellQuote.EscapeText | pysdk/agent_envs/binary_builder.py:166-166 | within the quotes only its own quotes change, each into a close, a quoted quote and an open |
| BuildScript.CommandWords | pysdk/agent_envs/binary_builder.py:102-102 | the words of a compile command are `g++ -O2 -o solution`, the names and `-std=c++17`, and none if a name has a NUL |
| Dedent.MarginIsCommon | pysdk/agent_envs/binary_builder.py:98-110 | the margin that dedenting takes off is at the start of every line that is not blank |
| BuildScript.ScriptText | pysdk/agent_envs/binary_builder.py:97-110 | the dedented script is its own lines, evenly dedented, around the compile command of the names with their further lines dedented |
| BuildScript.ArrivingIff | pysdk/agent_envs/binary_builder.py:97-110 | dedenting leaves the names alone iff none has a second line, or some further line begins without a blank and no inner line is white space |
| BuildScript.CompilerGetsTheFiles | pysdk/agent_envs/binary_builder.py:97-110 | the compiler gets the dedented names between its options; they are the names asked for iff no name has a NUL and all keep their lines |
| BuildScript.NameThatDoesNotArrive | pysdk/agent_envs/binary_builder.py:97-110 | "a", a line break, eight blanks and "b.cpp" arrives without the blanks |
| IoiScore.CaseTable.BuildSubTask | pysdk/agent_envs/cmd/ioi_runner.py:292-321 | adds the subtask's missing cases to the shared table and lists all of its cases, each under its name and the subtask's limits |
| IoiScore.BuildSubTaskCase | pysdk/agent_envs/cmd/ioi_runner.py:324-332 | the table has exactly the cases some subtask names, each with a run under its name and limits; results for its keys are exactly what scoring needs |
| IoiScore.MemoryIsEnough | pysdk/agent_envs/cmd/ioi_runner.py:306-314 | a run asks for its case's problem, name and time limit, and for the least whole number of megabytes that is enough |
| IoiScore.ScoresDefined | pysdk/agent_envs/cmd/ioi_runner.py:393-401 | scoring misses no result iff there is one for every case of every subtask |
| IoiScore.TotalDefined | pysdk/agent_envs/cmd/ioi_runner.py:341-348 | the total divides by zero iff a subtask in the dict has no cases |
| IoiScore.TotalBounds | pysdk/agent_envs/cmd/ioi_runner.py:393-401 | the total lies between 0 and the sum of the task scores, and equals it iff every case was judged with score 1 and no two subtasks share a name |
| IoiMarks.JudgeExact | pysdk/agent_envs/cmd/ioi_runner.py:341-401 | the score for any subtasks and results: a missing result, or else a counting subtask without cases, is an error; otherwise it is the sum, over the subtasks that are the last of their name, of score times the average of the judged scores, where any other result counts 0 |
| IoiMarks.DistinctAllCount | pysdk/agent_envs/cmd/ioi_runner.py:393-401 | every subtask counts iff no two share a name |
| IoiScore.SameNameLosesMarks | pysdk/agent_envs/cmd/ioi_runner.py:393-401 | two perfect subtasks named alike, of 40 and 60, give a total of 60 |

## Left out

- Redis, gRPC, HTTP, SQLite, tar and the file system appear only as their effect: push to the tail and pop from the head, one callback attempt that may be lost, tables with constraints, byte strings. The blocking pop is one step, which happens and is heard of or does not happen.
- JSON decoding, the number and text value parsers, and the reading of lines: inputs are decoded records, with blank and malformed lines as their own cases.
- `Exec` in `Dispatch` is a state of the step system; as a method (`Api.Server.Exec`) it sees the other goroutines only as deliveries and cleanup passes, since other waiters act on other ids.
- Api.Server.Exec: a wait that never ends is not a run of the method, so it asks that a reply comes or the context ends once the job is pushed.
- Store entries are values that the map holds, not shared objects: the code reaches an entry through the map only, so aliasing of entries cannot be observed and is not captured.
- The stop channel of the response store and the ticker goroutine: a tick is an event that may come at any moment, with a time of its own, and the bounds on lifetimes assume one in every interval.
- FNV hashing: the hash is a parameter, and what matters is exactly when two keys collide.
- Ids and row counts are unbounded integers; SQLite's 64-bit limit is not modelled. Contract and offset widths of the container are.
- The IOI `test_cases` walk order is arbitrary, but the rows a lookup query returns are in the order the query asks for only where it matters (years); grader file rows come in any order, since they end up in a map.
- `graderFilesColumns` and `sanitizeFilename`: column names of databases that this importer did not write, and checks on file names before writing.
- Databases with an orphaned foreign key, or Codeforces databases whose rows are not under the hash of their key; neither importer writes these.
- Failing opens and reads of input files, VACUUM and renaming, flags, logging, and the commands' output files.
- Lookups in hand-made container files: what `Get` answers is claimed for built files within the field limits; for other files, only what the reader accepts and what one slice yields.
- Dedenting as earlier Pythons do it, which tell fewer characters for white space.
- The other generated scripts, base64 and awk extraction; of the build script, the compile command up to its redirection is read as words and the rest is text.
- Floating point: scores and limits are reals, and `math.ceil` on them is exact.
- `_parse_result`, status tables, the Python HTTP clients and their retries, judgelet, Docker and Helm files.
