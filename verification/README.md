# The playground, verified

Models of the hardest parts of the Rust playground and proofs about them. `dafny verify dfyconfig.toml`
checks everything; the files may also be given to Dafny together in any order.

The parts, and the files that hold them:

- **Streaming an execution.** A child process's bytes become UTF-8 packets in the worker
  (`Utf8`, `Utf8BufReader`, `OutputCopy`), are tagged with a job id, cross the demultiplexer
  (`Demultiplexer`), the cargo task and the websocket, and reach the client. `Pipeline` gives the steps
  of every task for one job; `JobInvariant` shows what each step keeps; `PlaygroundSystem` puts all jobs
  of a container on shared first-in-first-out queues and lets every step interleave; `Fidelity` states
  what every run then guarantees, and `Delivery` exactly which outputs can be delivered, by building
  runs of the whole system (with the general notion of `Reachability`).
- **Resource limits.** `Limits` is the state machine of one permit pool, with tasks that may be dropped
  at any await; `AcquireGuards` has the drop guards and tokens as objects.
- **The assembly filter.** `AsmListing` says what to keep, `FilterAsm` is the program's two passes and
  search, `AsmOutput` says line by line what is printed, `AsmTheorems` is about the output as a whole and
  about filtering it again.
- **The value cache.** `Cache` is the timer and regeneration loop, the entity tags made from its time
  stamps, and conditional requests.
- **The crate closure.** `CrateGraph` is the resolved graph and when a level walk ends on it;
  `CrateClosure` is the walk, the merging and the fixpoint loop.
- **Project setup.** `ProjectSetup` is a directory with its file operations, and when two can be
  swapped; `SetupOrders` is when a set of them can be done in any order; `ProjectRequests` is what a
  request does; `ContainerLife` is a container from request to request, with what failed ones leave
  running.
- **The editor's files.** `Paths` splits and joins names, `FilesRules` has the validators, the tree and
  the directory rename, `FileState` the actions and what every run of them keeps, `FileEdits`
  what each does to names and contents, `FilesReducer` the
  reducers that change the state in place.
- **Gist file names.** `GistNames` is their percent-encoding.

How the models read the source:

- Tasks are state machines over their steps, `select!` is any enabled step, and a channel is a sequence.
  A channel between two tasks has its capacity (eight, or three for responses). The queues of requests
  and of worker messages stand for several channels and a pipe in a row and are unbounded.
- Clocks, the operating system's reads, the resolver, the toml rewriting and the results of the
  generator are parameters or free choices, so the statements hold for all of them. So is what a file
  operation or a child comes to: it is part of a job from its start, and what the operation does to the
  directory is the subject of `ProjectSetup`.
- Integers that wrap or saturate say so (`AtomicU64`, `SaturatingAdd`).
- Assembly lines carry the identifiers that the regular expressions capture; a data-like line also
  carries what it would count as when no label precedes it.
- Where a promise fails for some inputs the condition is exact: `TagsAreStrongExactly`,
  `WalkEndsExactly`, `FilterIdempotentExactly`, `PairsCommuteExactly`, `ConfluentExactly`,
  `SetupIsConfluentExactly`, `RequestDecidesExactly`, `LastRequestShowsExactly`, `DeliverableExactly`,
  `RenameUndoesExactly`, `RenameKeepsPrefixFreeExactly`, `AbsolutesAreDistinctExactly`,
  `RunPrefixFreeExactly`, `RunKeepsNamesExactly`, `NamesAreUniqueExactly`, `RoundTripExactly` and
  `SavedAloneExactly` each give an if-and-only-if, and `ClashBreaksTags`, `LonelyFunctionIsLost`,
  `AcceptedRenameCanClash`, `AddedMainCanClash`, `GistCanClash`, `StaleProgramLands`,
  `FileBelowKeyFileDiffers`, `DottedNameDiffers` and `EscapedSlashCollides` give inputs.

## Model

| member | source | states |
|---|---|---|
| `Fidelity.OutputIsPrefix` | compiler/base/orchestrator/src/worker.rs:610-668 | In every state of every run, what the client has seen of a job's stdout (or stderr) is a beginning of what that job's own child writes there, and at most 640 KiB + 32 KiB of it. |
| `Fidelity.EndMeansComplete` | ui/src/server_axum/websocket.rs:783-896 | When `ExecuteEnd` has been seen it is the last message and the only end, `ExecuteBegin` was the first and only begin, both outputs are complete, well-formed and within the limit, and the end says whether the child exited with success. |
| `Fidelity.ErrorMeansNoEnd` | ui/src/server_axum/websocket.rs:866-896 | An error is the last message that is seen of a job, and no end is seen then. |
| `Fidelity.NothingAfterEnd` | ui/src/server_axum/websocket.rs:866-896 | Once the end of a job has been seen, no later state of the run shows another message of that job. |
| `Fidelity.SocketGrows` | ui/src/server_axum/websocket.rs:783-896 | What the client has seen of a job only ever gets longer. |
| `Fidelity.ListenersAreSound` | compiler/base/orchestrator/src/coordinator.rs:2569-2602 | No run registers a listener for an id twice, so the duplicate-client error is unreachable; a message that found no listener was for a receiver that is gone. |
| `Fidelity.RequestsHaveListeners` | compiler/base/orchestrator/src/coordinator.rs:2643-2692 | When a request has been sent and not yet taken, its job's listener is already registered, and the worker has said nothing to it. |
| `Fidelity.MessagesHaveListeners` | compiler/base/orchestrator/src/coordinator.rs:2643-2692 | Every worker message in flight belongs to a job whose listener is registered and whose request has been taken; while the receiver lives, a listener is waiting for it. |
| `Fidelity.OneGetsItsAnswer` | compiler/base/orchestrator/src/coordinator.rs:2643-2669 | What `one` receives is what its own request came to: the content that the handler gave, or the error. |
| `Fidelity.IdsAreJobs` | compiler/base/orchestrator/src/coordinator.rs:2614-2616 | Every id below the counter belongs to a job. |
| `Delivery.DeliverableExactly` | compiler/base/orchestrator/src/worker.rs:610-668 | In some run of the whole system a client sees the end of a job with a given success, if and only if the job's child writes well-formed UTF-8 of at most 640 KiB to both stdout and stderr, and exits so. |
| `Delivery.SampleAndFailureAreShowable` | ui/src/server_axum/websocket.rs:840-896 | Of every execution some run shows a sample of its statistics, and some run a failure. |
| `Delivery.ReceivableExactly` | compiler/base/orchestrator/src/coordinator.rs:2643-2669 | The caller of a file request receives an answer in some run if and only if that is what the request came to. |
| `PlaygroundSystem.RunKeeps` | compiler/base/orchestrator/src/coordinator.rs:1955-2033 | The invariant of every job (routing, serving, streams, order of the answer, stages, shape of the responses, conservation of bytes) holds in every state of every interleaving. |
| `PlaygroundSystem.JobKept` | compiler/base/orchestrator/src/coordinator.rs:1926-1950 | A job keeps its request, what that comes to, its child's outputs and its place for the rest of the run. |
| `PlaygroundSystem.ApplyOwn` | compiler/base/orchestrator/src/coordinator.rs:2588-2599 | A step on the shared queues does to its job's part of them what the step of one job says. |
| `PlaygroundSystem.ApplyOther` | compiler/base/orchestrator/src/coordinator.rs:2588-2599 | A step of one job leaves every other job's record, listeners and messages as they were. |
| `JobInvariant.PerformKeeps` | compiler/base/orchestrator/src/worker.rs:465-483 | No step of client, demultiplexer, worker, cargo task or websocket breaks the invariant of the job it serves. |
| `JobInvariant.PerformKeepsWork` | compiler/base/orchestrator/src/worker.rs:424-483 | No step changes what a job asked for, what that comes to, or what its child writes. |
| `JobInvariant.FailuresArePossible` | compiler/base/orchestrator/src/worker.rs:465-483 | All this holds although a caller may go away and a child, a task or a websocket may fail at any moment. |
| `JobInvariant.WorkerConserved` | compiler/base/orchestrator/src/worker.rs:1246-1272 | Worker steps keep the ledger of bytes: sent = shown + piped + coming. |
| `JobInvariant.CargoConserved` | compiler/base/orchestrator/src/coordinator.rs:1999-2030 | Forwarding a packet moves its bytes to the pipe; returning the final answer means all have been piped. |
| `JobInvariant.SendOutputConserved` | ui/src/server_axum/websocket.rs:840-848 | Sending a packet to the client moves exactly its bytes from the pipe to what is shown. |
| `JobInvariant.WebsocketConserved` | ui/src/server_axum/websocket.rs:866-896 | Draining, ending, failing and abandoning lose no byte that the end promises. |
| `JobInvariant.SendControlled` | compiler/base/orchestrator/src/worker.rs:465-483 | The final answer is sent only after both copies have finished and sampling has stopped, and nothing follows it. |
| `JobInvariant.FreshJob` | compiler/base/orchestrator/src/coordinator.rs:2671-2692 | A job that has only been given its id satisfies the invariant. |
| `Demultiplexer.Demultiplexer.HandleCommand` | compiler/base/orchestrator/src/coordinator.rs:2569-2585 | Registering changes the two maps as the job's step says, reports a duplicate exactly, and touches no other id. |
| `Demultiplexer.Demultiplexer.HandleMessage` | compiler/base/orchestrator/src/coordinator.rs:2588-2602 | A message goes to the once-listener, else to the many-listener, else nowhere; a once-listener is used up. |
| `Demultiplexer.Demultiplexer.CollectGarbage` | compiler/base/orchestrator/src/coordinator.rs:2604-2607 | Exactly the listeners whose receivers are alive are kept. |
| `Counters.AtomicU64.FetchAdd` | compiler/base/orchestrator/src/coordinator.rs:2614-2616 | Ids count up and wrap at 2^64. |
| `Counters.IdsDistinctExactly` | compiler/base/orchestrator/src/coordinator.rs:2614-2616 | Ids are pairwise distinct exactly while no more than 2^64 have been handed out. |
| `Utf8BufReader.Utf8BufReader.constructor` | compiler/base/orchestrator/src/worker.rs:1062-1068 | A new reader holds nothing back and has a whole buffer of room. |
| `Utf8BufReader.Utf8BufReader.Next` | compiler/base/orchestrator/src/worker.rs:1070-1118 | However the operating system splits the input, a call returns a well-formed chunk of what was left, the end, or the right error; a chunk is all that can be returned of what was read; it reports a failed reader exactly when a read has failed; it needs at most four reads, and the slice read into is never empty. |
| `Utf8BufReader.Utf8BufReader.KeepFrom` | compiler/base/orchestrator/src/worker.rs:1109-1112 | The incomplete bytes move to the front and are what remains to be returned, before the unread input. |
| `Utf8BufReader.CopyWithin` | compiler/base/orchestrator/src/worker.rs:1110 | The overlapping move keeps the bytes moved. |
| `Utf8Reading.DrainReturnsLongestPrefix` | compiler/base/orchestrator/src/worker.rs:1070-1118 | Over any sequence of calls the strings make up the longest well-formed prefix of the input, and the last result depends only on how many bytes are left: none, one to three, or more. |
| `Utf8BufReader.ReadAll` | compiler/base/orchestrator/src/worker.rs:1070-1118 | Calling the reader until the first result that is not a string gives such a sequence of calls, which ends in a failed reader exactly when a read has failed. |
| `Utf8BufReader.ReadChild` | compiler/base/orchestrator/src/worker.rs:1070-1118 | So reading a child's output returns its longest well-formed prefix and the result that its leftover decides, however the operating system splits it, unless a read fails. |
| `Utf8Reading.SplitsAgree` | compiler/base/orchestrator/src/worker.rs:1181-1241 | Two ways of splitting the same input into reads cannot be told apart by what the sequences of calls return. |
| `Utf8.LongestWellFormedPrefix` | compiler/base/orchestrator/src/worker.rs:1087-1090 | The greedy scan stops at the end of the longest prefix that is a concatenation of the characters of section 4 of RFC 3629. |
| `Utf8.FourBytesDecide` | compiler/base/orchestrator/src/worker.rs:1092-1096 | Four bytes are enough to see whether a character begins. |
| `Utf8.WellFormedScan` | compiler/base/orchestrator/src/worker.rs:1087-1090 | Input is well-formed exactly when the scan accepts all of it. |
| `OutputCopy.CopyChildOutput` | compiler/base/orchestrator/src/worker.rs:1246-1272 | For every input and every failure: what was forwarded is a well-formed beginning within 640 KiB + 32 KiB, and the result says exactly why copying stopped; a read or a send is reported as failed exactly when one has failed, and otherwise the copy succeeds exactly for well-formed output of at most 640 KiB. |
| `OutputCopy.CopySucceedsExactly` | compiler/base/orchestrator/src/worker.rs:1244-1271 | Unless the pipe or the channel breaks, a copy succeeds exactly for well-formed output of at most 640 KiB, and then has forwarded all of it. |
| `Limits.PermitsConserved` | compiler/base/orchestrator/src/coordinator/limits.rs:165-276 | Under any interleaving and any cancellation, held and free permits make up the limit; the gauge a monitor shows is never negative and never above the permits held. |
| `Limits.RequestsConserved` | compiler/base/orchestrator/src/coordinator/limits.rs:191-232 | Outstanding give-back requests are slow acquisitions minus handled requests, so each handled request is backed by its own acquisition that found no permit. |
| `Limits.SlowFoundNone` | compiler/base/orchestrator/src/coordinator/limits.rs:191-201 | A container that goes the slow way has tried at a moment when no permit was free. |
| `Limits.WaitersHaveAsked` | compiler/base/orchestrator/src/coordinator/limits.rs:191-201 | A container that waits for a permit has found none and asked for one to be given back. |
| `Limits.FreePermitIsTaken` | compiler/base/orchestrator/src/coordinator/limits.rs:191-192 | When a permit is free a container that tries has it at once, one fewer is free, and none is asked back. |
| `Limits.NoPermitIsAskedFor` | compiler/base/orchestrator/src/coordinator/limits.rs:193-199 | When none is free it asks for one and waits. |
| `Limits.ProcessesQueue` | compiler/base/orchestrator/src/coordinator/limits.rs:252-264 | A process never tries and never asks; it waits in turn. |
| `Limits.LoggedExactly` | compiler/base/orchestrator/src/coordinator/limits.rs:292-343 | On every run an event of a task is logged if and only if the task has done what it is about: begun, completed, been refused, been dropped while waiting, or dropped its token. |
| `Limits.AwaitsMayEnd` | compiler/base/orchestrator/src/coordinator/limits.rs:296-343 | A task may be dropped at any await, and then holds nothing; the semaphore may refuse it while it has nothing. |
| `Limits.StartsAreMatched` | compiler/base/orchestrator/src/coordinator/limits.rs:292-343 | A task's events are a start, then at most one acquired event, then a release for a token only; a task that started and ended has exactly one acquired event. |
| `Limits.AdvanceIsFair` | compiler/base/orchestrator/src/coordinator/limits.rs:165-276 | Every action of a task gives back exactly the permits it stops holding and logs what it did. |
| `Limits.HandlerKeeps` | compiler/base/orchestrator/src/coordinator/limits.rs:217-232 | Asking, being given, handling or giving up a request keeps the balance. |
| `Limits.RunKeeps` | compiler/base/orchestrator/src/coordinator/limits.rs:165-343 | The balance and the per-task histories hold in every state of every run. |
| `Limits.NamesAreUniqueExactly` | compiler/base/orchestrator/src/coordinator/limits.rs:235-243 | Container names are pairwise distinct if and only if no more than 2^64 are asked for. |
| `AcquireGuards.AcquireGuard.Begin` | compiler/base/orchestrator/src/coordinator/limits.rs:296-299 | The guard logs the start and presumes the acquisition aborted. |
| `AcquireGuards.AcquireGuard.Complete` | compiler/base/orchestrator/src/coordinator/limits.rs:301-314 | Completing records the result, which dropping the guard then logs, once. |
| `AcquireGuards.Token.Drop` | compiler/base/orchestrator/src/coordinator/limits.rs:269-285 | Dropping a token logs the release and gives the permit back. |
| `AcquireGuards.NextPermit` | compiler/base/orchestrator/src/coordinator/limits.rs:174-212 | Whatever the wait for the semaphore comes to, one acquisition logs the history of the phase it reaches; every permit is in the semaphore or in the token; a container that finds a permit takes it at once, and one that does not asks for one back exactly once. |
| `AcquireGuards.AcquireAndDrop` | compiler/base/orchestrator/src/coordinator/limits.rs:165-285 | For every outcome of the wait, acquiring and dropping leaves one complete history, with a release exactly for a token, and no permit is lost or made. |
| `FilterAsm.Filter` | compiler/base/asm-cleanup/src/lib.rs:31-161 | The program's filter prints exactly the lines that the specification keeps, with a blank line before each kept label. |
| `AsmOutput.PrintedExactly` | compiler/base/asm-cleanup/src/lib.rs:98-158 | Apart from inserted blanks the output is exactly, and in order, the opcodes, the unrecognised lines (also data that looks like one before any label), the declarations of labels in use, and the data below such labels; no directive, function directive or blank line of the listing is printed. |
| `AsmOutput.BlanksExactly` | compiler/base/asm-cleanup/src/lib.rs:140-158 | Every blank line of the output is empty and stands before a label, and every label has one before it. |
| `AsmOutput.UsedExactly` | compiler/base/asm-cleanup/src/lib.rs:98-138 | A label is in use if and only if it is declared and an opcode or a function directive names it, or data below a label in use mentions it. |
| `AsmOutput.UsedIsLeast` | compiler/base/asm-cleanup/src/lib.rs:125-138 | The labels in use are the fewest for which that holds. |
| `FilterAsm.Scan` | compiler/base/asm-cleanup/src/lib.rs:74-123 | The first pass computes the class of every line, the declared labels, the operands and the reference graph. |
| `FilterAsm.FindUsed` | compiler/base/asm-cleanup/src/lib.rs:125-138 | The used labels are exactly those reachable from the declared labels that an opcode or function directive names. |
| `FilterAsm.SearchFrom` | compiler/base/asm-cleanup/src/lib.rs:129-135 | A search visits exactly what is reachable from its start, and ends. |
| `FilterAsm.Dfs.Next` | compiler/base/asm-cleanup/src/lib.rs:131-134 | The depth-first search yields each undiscovered node once and forgets no successor. |
| `AsmTheorems.OutputIsKeptLines` | compiler/base/asm-cleanup/src/lib.rs:140-158 | Without the inserted blanks, the output is the subsequence of opcodes, unrecognised lines, and declarations and data of used labels. |
| `AsmTheorems.ReferencedLabelsStay` | compiler/base/asm-cleanup/src/lib.rs:98-158 | A declared label that a kept opcode or data line mentions keeps its declaration. |
| `AsmTheorems.SameUse` | compiler/base/asm-cleanup/src/lib.rs:125-138 | The output uses exactly the labels that the listing without its function directives uses. |
| `AsmTheorems.RestrictedOutput` | compiler/base/asm-cleanup/src/lib.rs:80-158 | Labels and edges of the output are the used ones of the input, and kept data keeps its owning label. |
| `AsmTheorems.FilterTwice` | compiler/base/asm-cleanup/src/lib.rs:80-158 | Filtering the output again equals filtering the listing without its `.type ...,@function` lines. |
| `AsmTheorems.FilterIdempotentExactly` | compiler/base/asm-cleanup/src/lib.rs:80-158 | Filtering again changes nothing if and only if every declared label in use is also in use without the function directives. |
| `AsmTheorems.FilterIdempotent` | compiler/base/asm-cleanup/src/lib.rs:80-158 | That is so on listings without such lines. |
| `AsmTheorems.LonelyFunctionIsLost` | compiler/base/asm-cleanup/src/lib.rs:80-158 | A function that only its own `.type` line mentions is kept the first time and lost the second. |
| `Cache.AssertionsHold` | ui/src/server_axum/cache.rs:107-178 | Whatever the clocks show, both assertions of the loop always hold, exactly one of timer and regeneration is pending, and no error is served after a success. |
| `Cache.TagsAreStrongExactly` | ui/src/server_axum.rs:507-537 | Over all runs, two successes with one whole-second tag carry one value (a strong validator, section 8.8.1 of RFC 9110), if and only if the system clock never shows the same second ten minutes or more apart. |
| `Cache.SlewedClockIsEnough` | ui/src/server_axum.rs:507-537 | A system clock that gains a second in any ten minutes meets that condition. |
| `Cache.ClashBreaksTags` | ui/src/server_axum.rs:507-537 | Any two equal seconds ten minutes apart let one tag stand for two values. |
| `Cache.RespondExactly` | ui/src/server_axum.rs:507-537 | Every response carries the whole second of the value's stamp as its tag; it has the value exactly if there is no condition, or one that lists tags and not this one. |
| `Cache.OneTagOneValue` | ui/src/server_axum.rs:507-537 | If instants ten minutes apart show different seconds, full responses to requests with any conditions that carry one tag carry one value. |
| `Cache.NotModifiedIsTrue` | ui/src/server_axum.rs:507-537 | A client that repeats the tag of a full response, whatever it asked for that one with, and is told "not modified" holds the value that is served. |
| `Cache.RefreshKeepsStamp` | ui/src/server_axum/cache.rs:211-237 | While the value stays the same, so does its time stamp, however often it is refreshed. |
| `Cache.RunDated` | ui/src/server_axum/cache.rs:107-178 | Every success served is the cached one or was made at least ten minutes before it. |
| `Cache.ServedWasMade` | ui/src/server_axum/cache.rs:126-178 | Every success that is served was returned by a regeneration, and its stamp is of that instant. |
| `Cache.SuccessIsServed` | ui/src/server_axum/cache.rs:126-178 | A regeneration that succeeds is what is served from the moment it is stored. |
| `Cache.AnythingMayHappen` | ui/src/server_axum/cache.rs:126-178 | Whenever the task runs, someone may ask or hang up, and a regeneration may come to any result or panic. |
| `Cache.HangupIsFinal` | ui/src/server_axum/cache.rs:126-135 | When every sender is gone the task is at its end. |
| `Cache.CacheTask.Handle` | ui/src/server_axum/cache.rs:126-178 | Each turn of the loop is the step of the model, and its two assertions never fail. |
| `Cache.CacheTask.TryCombineWithPrevious` | ui/src/server_axum/cache.rs:211-237 | What is cached afterwards is a success if the old or the new result was one; a new success is always taken, with its check time; an error after a success changes nothing; the creation time is the old one exactly when the old success stays or comes again. |
| `Cache.CombinedExactly` | ui/src/server_axum/cache.rs:211-237 | Those four promises leave exactly one result, and it is the one the model of the loop takes. |
| `Cache.CacheTask.StoreNew` | ui/src/server_axum/cache.rs:158-177 | Storing a result keeps the same promises, rests, serves nobody by itself, and sets the timer ten minutes ahead if a success is cached and ten seconds ahead if not. |
| `CrateClosure.WalkLevels` | top-crates/src/lib.rs:527-597 | On a graph without a reachable cycle the walk ends with exactly the packages reached by one or more enabled uses, each with the union of features and the OR of default flags over all enabled uses from roots or reached packages. |
| `CrateGraph.WalkEndsExactly` | top-crates/src/lib.rs:527-597 | The walk has an empty level if and only if no cycle can be reached from the roots. |
| `CrateGraph.UsesExactly` | top-crates/src/lib.rs:535-582 | The uses that count are the declarations that are not optional or are activated, and are for the platform, to packages that are not excluded. |
| `CrateGraph.ExcludedByTheFirst` | top-crates/src/lib.rs:151-162 | A package is excluded exactly when the first exclusion of its name matches its version; a second one never matters. |
| `CrateGraph.ReachedIsLevel` | top-crates/src/lib.rs:527-597 | A package is reached exactly when it lies on some level after the roots. |
| `CrateClosure.SummaryAbsorbs` | top-crates/src/lib.rs:105-109 | Merging a use in place adds it to the summary of all uses, and changes nothing when it was merged before. |
| `CrateClosure.VisitPackage` | top-crates/src/lib.rs:535-593 | Visiting a package merges all its enabled uses and queues their targets. |
| `CrateClosure.ExtendDirectDependencies` | top-crates/src/lib.rs:503-625 | The crates are extended by exactly the closure of their roots, each package with its own metadata's features merged in, overwriting what was there. |
| `CrateClosure.ExtensionExactly` | top-crates/src/lib.rs:503-625 | An extension adds the packages reached, each with the features and the default flag that a use of it or its own metadata asks for, and leaves the others as they were. |
| `CrateClosure.ClosedHasDependencies` | top-crates/src/lib.rs:527-646 | In the result, every package that an active dependency for the platform of any version of one of its crates is on is in it too, unless excluded. |
| `CrateClosure.GenerateInfo` | top-crates/src/lib.rs:627-646 | The outer loop ends when packages are finitely many; its result is the last of a chain of extensions, keeps the initial crates, adds no excluded package, and is closed under the last resolution. |
| `Paths.JoinSplit` | ui/frontend/domain/filesRules.ts:37-56 | Joining what was split gives the name back. |
| `Paths.SplitJoin` | ui/frontend/domain/filesRules.ts:37-56 | Splitting what was joined gives the parts back. |
| `Paths.ArrayIsPrefix` | ui/frontend/domain/filesRules.ts:13-28 | The loop decides being a prefix. |
| `Paths.UnderExactly` | ui/frontend/domain/filesRules.ts:180-195 | A name lies below a directory if and only if it is the directory's name, a slash, and something more. |
| `Paths.ComparableExactly` | ui/frontend/domain/filesRules.ts:143-166 | Two names are in each other's way if and only if they are equal or one lies below the other. |
| `FilesRules.MakeValidatedFilePath` | ui/frontend/domain/filesRules.ts:106-138 | A name is accepted exactly when every part is non-empty and not hidden and it is not one of the two reserved names; a rejected one gets the first fault in the program's order. |
| `FilesRules.CanonicalExactly` | ui/frontend/domain/filesRules.ts:106-126 | The parts of a name are non-empty and not hidden if and only if at its beginning and after each slash it goes on with neither a slash nor a dot. |
| `FilesRules.MakeValidatedFilePathIn` | ui/frontend/domain/filesRules.ts:143-166 | A valid name is accepted exactly when it is neither equal to, nor a directory of, nor below any file; if not, the first such file decides whether a duplicate or a conflict is reported. |
| `FilesRules.FilenamesToTree` | ui/frontend/domain/filesRules.ts:75-96 | In whatever order the names are sorted, the tree lists every name as a file, exactly their ancestors as directories, once each, and ancestors first. |
| `FilesRules.AbsolutesAreDistinctExactly` | ui/frontend/domain/filesRules.ts:75-96 | All entries of the tree have distinct absolute paths if and only if no name is repeated or another's directory. |
| `FilesRules.MakeValidatedDirRenamer` | ui/frontend/domain/filesRules.ts:199-221 | A directory rename is accepted exactly when the new names are pairwise distinct and all valid; if not, the fault of the first bad one is reported. |
| `FilesRules.DirRenameMoves` | ui/frontend/domain/filesRules.ts:180-195 | Renaming a directory makes `from/rest` into `to/rest`. |
| `FilesRules.DirRenameKeeps` | ui/frontend/domain/filesRules.ts:180-195 | It leaves every other name as it is. |
| `FilesRules.RenameUndoesExactly` | ui/frontend/domain/filesRules.ts:180-195 | Renaming there and back restores every name if and only if no file outside the directory lies in the new one. |
| `FilesRules.RenameKeepsPrefixFreeExactly` | ui/frontend/domain/filesRules.ts:180-221 | A rename keeps files and directories apart if and only if nothing that moves meets a file that stays. |
| `FilesRules.RenameKeepsPrefixFree` | ui/frontend/domain/filesRules.ts:180-221 | That is so when every file outside is prefix-incomparable with the new directory. |
| `FilesRules.AcceptedRenameCanClash` | ui/frontend/domain/filesRules.ts:199-221 | An accepted rename can make one path a file and a directory: for any four valid parts, moving the directory `a` with `a/x/y` to `b` beside `b/x` does. |
| `FileState.RunKeepsTracked` | ui/frontend/reducers/files.ts:74-213 | In every state of every run from the initial one, gists of any kind included, ids are distinct and below the next id, and the active file exists. |
| `FileState.RunKeepsNamesExactly` | ui/frontend/reducers/files.ts:74-213 | Names are distinct in every state of a run if and only if no gist loaded in it has two files of one name. |
| `FileState.GistNamesExactly` | ui/frontend/reducers/files.ts:196-201 | After loading a gist names are distinct if and only if the payload's are. |
| `FileState.ActiveIsMainThenLibThenFirst` | ui/frontend/reducers/files.ts:24-47 | When names are distinct, the file to show is `src/main.rs`, else `src/lib.rs`, else the first. |
| `FileState.ReducePrefixFreeExactly` | ui/frontend/reducers/files.ts:83-213 | Which actions keep files and directories apart: all but directory renames, adding a main function and loading gists, and those if and only if they meet a stated check. |
| `FileState.RunPrefixFreeExactly` | ui/frontend/reducers/files.ts:83-213 | A run, of any actions and gists, keeps files and directories apart in every state if and only if every action passes that check. |
| `FileState.AddedMainCanClash` | ui/frontend/reducers/files.ts:173-185 | A run that fails it: a file `src` is created, and adding a main function makes a directory of it too. |
| `FileState.GistCanClash` | ui/frontend/reducers/files.ts:196-201 | Another: a gist with a file and a file below it is loaded as it is. |
| `FileState.DeleteExactly` | ui/frontend/reducers/files.ts:137-140 | When ids are distinct, as they always are, deleting by id deletes exactly the files meant and leaves the others in order. |
| `FileState.DeleteFileExactly` | ui/frontend/reducers/files.ts:219-227 | Deleting a file deletes exactly that name. |
| `FileState.DeleteDirectoryExactly` | ui/frontend/reducers/files.ts:229-241 | Deleting a directory deletes exactly the files below it. |
| `FileState.DeleteAllExactly` | ui/frontend/reducers/files.ts:243-249 | Deleting everything leaves no file, no active file, and the id counter. |
| `FileEdits.EditExactly` | ui/frontend/reducers/files.ts:96-101 | Editing gives the active file its new content, and changes nothing else. |
| `FileEdits.CreateExactly` | ui/frontend/reducers/files.ts:103-113 | A file is created, empty, active and under a new id, exactly when its name is canonical, not reserved, and in no file's way. |
| `FileEdits.InitializeExactly` | ui/frontend/reducers/files.ts:84-94 | Starting over leaves one file, active and under a new id, exactly when its name is free. |
| `FileEdits.RenameExactly` | ui/frontend/reducers/files.ts:115-135 | A file of the old name takes the new one exactly when that is another one and free; nothing else changes. |
| `FileEdits.RenameDirectoryExactly` | ui/frontend/reducers/files.ts:145-162 | A directory rename changes every name that it should, or none, and no content. |
| `FileEdits.DeletionExactly` | ui/frontend/reducers/files.ts:137-143 | Deleting keeps the other files in order; the active file stays active if it is one of them, else one is selected. |
| `FileEdits.ActivateExactly` | ui/frontend/reducers/files.ts:164-170 | Activating makes a file of that name active, if there is one. |
| `FileEdits.AddMainExactly` | ui/frontend/reducers/files.ts:173-185 | Afterwards there is a main file, which is active; a new one is the last and says hello. |
| `FileEdits.AddCrateTypeExactly` | ui/frontend/reducers/files.ts:186-191 | The library file gets the attribute as its first line. |
| `FileEdits.FormatExactly` | ui/frontend/reducers/files.ts:202-213 | Each file takes the content of the first formatted file of its name, or keeps its own. |
| `FileEdits.GistExactly` | ui/frontend/reducers/files.ts:196-201 | A gist replaces the files by its own, in order, under new and distinct ids, and one is selected. |
| `FileEdits.SingleChangesNothing` | ui/frontend/reducers/files.ts:192-213 | Code of a single file changes no files, and while a gist is on its way there are none. |
| `FilesReducer.ScanForActive` | ui/frontend/reducers/files.ts:24-47 | The loop with its early exit selects the specified file. |
| `FilesReducer.Draft.Fixup` | ui/frontend/reducers/files.ts:49-54 | After a deletion the active file is kept if it still exists, else selected anew. |
| `FilesReducer.Draft.RenameDirectory` | ui/frontend/reducers/files.ts:145-162 | The loop over the files renames each, or nothing if the rename is rejected. |
| `FilesReducer.Draft.GistLoadFulfilled` | ui/frontend/reducers/files.ts:196-201 | The files are rebuilt with fresh ids and the active one is selected. |
| `FilesReducer.Draft.FormatFulfilled` | ui/frontend/reducers/files.ts:202-213 | Each file takes the content of the first formatted file of its name. |
| `FilesReducer.Draft.Dispatch` | ui/frontend/reducers/files.ts:80-213 | Every reducer, in place, is the step of the model, keeps ids and the active file in order, and keeps names distinct exactly if it is no gist with a repeated name. |
| `ProjectSetup.PairsCommuteExactly` | compiler/base/orchestrator/src/worker.rs:297-351 | Two file operations can be swapped in every directory if and only if they do not clash on one path or on a file and its directory. |
| `ProjectSetup.PerformExactly` | compiler/base/orchestrator/src/worker.rs:297-351 | A file operation succeeds exactly if its path is no directory and no file is on the way to it; then the file is as written, or gone, no other file changes, and the directories on the way to a written file are made. |
| `ProjectSetup.AnyOrder` | compiler/base/orchestrator/src/coordinator.rs:1884-1918 | Operations without a clash succeed or fail alike and leave the same directory in any order. |
| `ProjectSetup.Outcome` | compiler/base/orchestrator/src/worker.rs:297-351 | Afterwards each path holds what was written, nothing if deleted, or what it held before. |
| `ProjectSetup.SucceedsExactly` | compiler/base/orchestrator/src/worker.rs:297-351 | A setup whose paths are apart succeeds if and only if nothing was in the way of any operation beforehand. |
| `SetupOrders.ConfluentExactly` | compiler/base/orchestrator/src/coordinator.rs:1884-1918 | For any operations whose deletes are apart: every order of them gives the same outcome from every directory, if and only if no two clash, or they can never all succeed. |
| `SetupOrders.ClashShowsInOrders` | compiler/base/orchestrator/src/coordinator.rs:1884-1918 | Otherwise two orders end differently from every directory in which nothing is in the way of any operation. |
| `SetupOrders.DoomedFails` | compiler/base/orchestrator/src/worker.rs:297-351 | Operations of which one is on the root, or one writes below a file that another writes and none deletes, fail from every directory in every order. |
| `SetupOrders.SomeOrderSucceeds` | compiler/base/orchestrator/src/worker.rs:297-351 | All others whose deletes are apart have an order that succeeds, from every directory in which nothing is in their way. |
| `ProjectRequests.SetupIsConfluentExactly` | compiler/base/orchestrator/src/coordinator.rs:1884-1918 | For every request: all interleavings of its deletes, writes and Cargo.toml rewrite come to the same from every directory, if and only if the request is independent or its setup can never succeed. |
| `ProjectRequests.DeleteRequests` | compiler/base/orchestrator/src/coordinator.rs:431-444 | The files to delete are the three candidates less the names of the request's own files. |
| `ProjectRequests.RequestDecides` | compiler/base/orchestrator/src/coordinator.rs:424-455 | After a request none of whose operations does to a key file what the request does not want (a self-consistent one), the key files are what it wants, whatever the directory was before. |
| `ProjectRequests.RequestDecidesExactly` | compiler/base/orchestrator/src/coordinator.rs:424-455 | For requests none of whose files is to hold another, in every order and directory in which the setup succeeds, the key files are what the request wants if and only if it is self-consistent. |
| `ProjectRequests.OrdinaryIsSelfConsistent` | compiler/base/orchestrator/src/coordinator.rs:424-455 | Every request with canonical names, none twice and none `Cargo.toml`, is self-consistent, `src` and `build.rs/x` included. |
| `ProjectRequests.OwnFileShows` | compiler/base/orchestrator/src/coordinator.rs:424-455 | After a request with such names each of its files is at its place in the project, with its content. |
| `ProjectRequests.SingleDecides` | compiler/base/orchestrator/src/coordinator.rs:424-455 | After a program or a library of one file, that file is `src/main.rs` or `src/lib.rs`, the other one and `build.rs` are gone, and Cargo.toml is rewritten. |
| `ProjectRequests.KeyPlaces` | compiler/base/orchestrator/src/coordinator.rs:431-444 | The key files are `build.rs`, `src/lib.rs`, `src/main.rs` and `Cargo.toml`. |
| `ProjectRequests.DotsAreUndone` | compiler/base/orchestrator/src/worker.rs:297-351 | In a name two dots undo the part before them, and single dots and empty parts do nothing. |
| `ProjectRequests.AbsoluteIsElsewhere` | compiler/base/orchestrator/src/worker.rs:297-351 | A name that begins with a slash leads out of the project. |
| `ContainerLife.OnlyTheLastRequestShows` | compiler/base/orchestrator/src/coordinator.rs:1884-1911 | In every life of a container, with setups that fail at once and leave operations running into later ones: once a last request that is self-consistent is complete, and for as long as it is the last, `build.rs`, `src/lib.rs`, `src/main.rs` and `Cargo.toml` are what it alone wants, if nothing left running when it began does otherwise to one of them. |
| `ContainerLife.LastRequestShowsExactly` | compiler/base/orchestrator/src/worker.rs:142-177 | Exactly, for every request none of whose files is to hold another: its key files show under every interleaving with what earlier requests left running, if and only if it is self-consistent and each such operation that does otherwise to a key file is on a path that one of its own files keeps shut (a file below it, or one above it that nothing late deletes). |
| `ContainerLife.IndependentShowsExactly` | compiler/base/orchestrator/src/worker.rs:142-177 | For an independent request that can be set up, that is if and only if nothing left running does otherwise to a key file. |
| `ContainerLife.PatientLifeShows` | compiler/base/orchestrator/src/coordinator.rs:1884-1911 | If no request begins before all that the one before it sent is done, the key files depend only on the last request, if it is self-consistent, and on the Cargo.toml first read, without any condition on the earlier ones. |
| `ContainerLife.StaleProgramLands` | compiler/base/orchestrator/src/coordinator.rs:1884-1911 | A life, from a fresh project, in which it goes wrong: a request with the files `src` and `src/main.rs` fails at the first, the next one, a program, completes, and then the first one's `src/main.rs` is written over it. |
| `ProjectRequests.ApartRequestsAreIndependent` | compiler/base/orchestrator/src/coordinator.rs:1884-1918 | Requests with canonical, prefix-free names, none on the way to a key file or below one, are independent. |
| `ProjectRequests.FileBelowKeyFileClashes` | compiler/base/orchestrator/src/coordinator.rs:431-444 | A request with a canonical name below a key file that it lacks, such as `build.rs/x`, is not independent. |
| `ProjectRequests.FileBelowKeyFileDiffers` | compiler/base/orchestrator/src/coordinator.rs:431-444 | With that file alone, two orders of the setup end differently, from every directory in which nothing is in the way: written first it makes a directory of what is to be deleted, and the delete fails. |
| `ProjectRequests.DottedNameDiffers` | compiler/base/orchestrator/src/coordinator.rs:431-444 | With `./src/main.rs`, or another key file so written, as the only file, two orders of the setup end differently, from every directory in which nothing is in the way: its write races with the delete of the same file. |
| `ProjectRequests.FreshIsOpen` | compiler/base/orchestrator/src/coordinator.rs:2420-2434 | In a fresh project, with its `src` and its Cargo.toml, nothing is in the way of either. |
| `GistNames.RoundTripExactly` | ui/src/gist.rs:46-55 | A name survives encoding and decoding if and only if it has no percent sign followed by two hexadecimal digits. |
| `GistNames.EncodingIsPlain` | ui/src/gist.rs:11 | The encoding is ASCII and has no slash. |
| `GistNames.EncodingIsInjective` | ui/src/gist.rs:46-49 | Distinct names that survive have distinct encodings. |
| `GistNames.SavedAloneExactly` | ui/src/gist.rs:11-49 | No other name is saved under the same one if and only if the name is ASCII without slashes and nowhere spells the encoding of a character that would be encoded. |
| `GistNames.EscapedSlashCollides` | ui/src/gist.rs:11 | A slash and its three-character escape are saved under one name. |
| `GistNames.DecodeSkipsEncoding` | ui/src/gist.rs:46-55 | Decoding what was encoded is decoding the name itself. |
| `GistNames.LossyKeepsAscii` | ui/src/gist.rs:51-55 | Lossy decoding neither adds nor removes ASCII characters. |
| `GistNames.LossyIsWellFormed` | ui/src/gist.rs:51-55 | What lossy decoding gives is well-formed. |
| `GistNames.BrokenIsMaximal` | ui/src/gist.rs:51-55 | One replacement character stands for the longest beginning that some character could have, or for one byte. |
| `GistNames.EitherCaseDecodes` | ui/src/gist.rs:51-55 | Escapes of any byte are undone, in either case of their letters. |

## Left out

- The stdin and kill traffic from the client to the child, and the maps that route it: the child's output is arbitrary in the model, so nothing above depends on what it is sent.
- The websocket's connection loop: sessions, its table of active executions and its own collection of them, which may cancel a run, and `CoordinatorManager`'s spawning and idling; each is one `Abandon` or failure step here.
- Sequence numbers on websocket messages: responses carry their job id instead, as if every execution had its own number.
- Several containers and websockets at once: the system model is one container and one websocket, with any number of jobs.
- Tokio's cooperative budget: `now_or_never` on a channel that holds something is taken to succeed.
- `Demultiplexer.Demultiplexer.CollectGarbage`: clears every dead listener at once, while in the system model each job's listener is cleared by a step of its own, so that a pass of the collector is several steps in a row.
- Line splitting and the regular expressions of the assembly filter, and `demangle_asm`: library wrappers and text patterns.
- The semaphore's waiting order: any waiting task may be granted a free permit, so fairness is not claimed.
- `Limits.NamesAreUniqueExactly`: is about one start time of the server; two servers started within one second are not told apart.
- A system clock set before 1970, on which making the entity tag panics: `Cache` takes clock readings as non-negative.
- The two clock readings that stamp a value are taken at one instant.
- Changes that the programs a container runs make in the project directory: a container's life has only the file operations of its requests.
- Symbolic links, permissions and disk errors in the project directory; `..` in a name is resolved on the text of the path.
- Two operations on one file that overlap in time, and may mix their bytes: each file operation is one step.
- Docker, HTTP, GitHub, crates.io and Cargo's resolver; `WalkLevels` and `GenerateInfo` hold for every resolver that meets their conditions, and downloads are taken to succeed.
- Generating dependency specs and crate information from the closed set: sorting and formatting.
- The order that `localeCompare` gives: `FilenamesToTree` holds for every order of the names.
- Restored storage in the editor, which may name an active file that does not exist: runs start from the initial state.
- `defaultSelection`, `filenameSplitAtDot`, the other reducers, and the user interface: one-line computations.
- Gist descriptions, the metadata file and single-file gists: only the coding of names is modelled.
- Metrics, tracing, error texts, process statistics.
