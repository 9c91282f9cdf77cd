# Verified models of the AMD loader, the bundler, and four CLI protocols

The project models the parts of the repository whose correctness depends on more than one function,
and proves what they promise for every input, every run or every interleaving.

| part | files | what is proved |
|---|---|---|
| AMD module manager | `Graph`, `LoaderState`, `LoaderSteps`, `LoaderDriven`, `LoaderHistory`, `LoaderSearch`, `Loader`, `LoaderTheorems`, `LoaderOrder`, `LoaderProgress`, `LoaderCycleFlag`, `LoaderSessions` | counters, acyclic waits, when there is deadlock, when the cycle flag is exact, dependency order, where every error comes from, that every ready factory is given control, exact searches |
| relative module ids | `ModuleIds` | the rewriting keeps the meaning of every id and reaches the canonical id of its location |
| source maps and bundling | `Vlq`, `Mappings`, `DynamicBuffer`, `SourceMap`, `SourceMapBuilder`, `Bundle`, `ModuleLoading` | the alphabet and every digit written, VLQ round trip with its exact bound, meaning-preserving concatenation, the depth-first order of a bundle |
| duplex streams | `Streams`, `StreamTable`, `OutgoingStreams` | all that is passed in arrives in order, one owner, drain before a single shutdown, outgoing order and completeness |
| keyring storage | `Keyring` | round trip with its exact side condition |
| credential scan | `Scan` | windowed search agrees with whole search, with the exact bound |
| download cache | `DownloadCache` | the list covers the disk, is in order of use, and is bounded; a touch evicts what was used longest ago and nothing else; without failed saves the file covers the disk at every moment |

## How the model is built

Objects the source updates in place are classes with the same fields (`ModuleManager`, `DynamicBuffer`,
`SourceMapBuilder`, `Bundler`, `StreamsTable`, `KeyringStorage`, `DownloadCache`), and loops are loops.
A module record of the loader and a stream record are values held in a table of their class.

*Loader.* Factories and script loaders run client code that may call back into the manager before it
returns (scripts whose path begins with `node|` are loaded synchronously, loader.js:620-634, and a
factory may call `require`). The class reads what client code does from a script, so its contracts hold
for every behaviour and every depth of nesting; `LoaderSteps` is the same manager as a machine of atomic
steps in which any enabled step may come next. The invariant `LoaderState.Inv` holds at every moment, in the
middle of a completion loop or of a dependency loop too. `Inv` speaks of the declared dependency lists, of the
decrements a completion loop still owes, of the entries a dependency loop still has to handle, and of the order
in which factories started; these are ghost fields of the class.

`LoaderDriven` puts the machine beside its client: a definition, a load error and a configuration are steps
taken exactly when the client asks for them, starting a factory or asking the loader is followed at once by
giving that client code control, and errorback calls and errors handed to the configured handler are part of
the moment. Every method of the class promises `Follows`: that it has gone through a story of this driven
machine, the method's own step first where it has one. Its run is a run of `LoaderSteps`
(`LoaderHistory.StoryIsRun`), so the theorems about runs are about the class; and `LoaderHistory` proves
what can be told of any such moment from the script alone.

Entries of a dependency list are told apart as the code does it: the names `exports`, `module` and
`require` make the three special entries, and any other spelling that resolves to one of them (`./exports`
from a top-level module) makes a regular entry with the same id.

*Exceptions.* An exception of a factory is caught only when `catchError` was set when the factory was
started, and it is not set unless it is configured (loader.js:269-271, 1131-1137). One that is not caught
passes through the completion loops, dependency loops and client code around it until some `try` of the
client takes it; it changes no field, and what the calls it passes through still had to do is never done.
The model keeps these abandoned calls on its books (`escaped`, `stopped`, `lost`), so the invariant and the
counter equation hold in such runs too.

*Errors.* Most statements hold in all runs. Where one is about runs without errors, an exception that gets
out of a factory counts as an error, although no record holds it.

*Where the manager falls short.* Three promises do not hold of the code as it is; for each the project has
the condition under which they do, and concrete runs.

- Everything completes once everything asked for is defined: with no call in progress this is so if and only
  if nobody has been left behind (`NoDeadlock`). Four kinds of step can leave somebody behind, each exactly
  when somebody who is not complete is affected (`OnlyTheseLeaveBehind`): a module that gives up because a
  dependency already has an error, an exception that gets out of a factory, and such an exception passing
  through a dependency loop or a completion loop. Whoever is left behind never runs its factory
  (`LeftBehindForGood`). The runs are `GivingUpStrandsWaiters`, `EscapeStrandsWaiters` and
  `EscapeLosesADecrement`.
- The cycle flag tells whether the dependencies have a cycle: for every order of definitions this is so if
  and only if a cycle of entries comes with a cycle of regular entries (`FlagExactlyWhen`); otherwise
  `EvadingOrder` gives an order that leaves it unset. An example is `ReservedIdHidesCycle`.
- A factory runs when its dependencies have returned: without errors in records and without cycles this is
  so throughout a run if and only if no factory is started while that of a dependency is running or was left
  by an exception (`DependenciesReturnExactlyWhen`). It is enough that no entry is passed over while its
  factory is running (`FactoriesRunAfterTheirDependencies`). The run is `NestingBreaksOrder`.

*Source maps.* Meaning is defined by a decoder after ECMA-426 (sections on Base64 VLQ and on the mappings
structure) that is independent of the builder and works with unbounded numbers; the builder works with
JavaScript's 32-bit shifts, and the two are proved to agree. Segments are compared by source name. A map is
well formed when it decodes (1, 4 or 5 fields, positions from 0 up to but not including 2^30), refers to
its own sources, and has no segment past the last line of its file.

*Streams.* Each lock section, write and shutdown is one atomic step; stream ids are fresh. A write may fail
after part of a buffer; once a half has failed it delivers nothing more. `RecoveryLeavesAGap` shows that
the order property needs that.

*Keyring.* Lengths and positions are counted in characters, while the source counts bytes and cuts at byte
offsets; the two agree for ASCII strings, which sealed ones are taken to be.

*Choices of the outside world* (whether a write, a removal or a rename succeeds, what client code does)
are parameters, so every statement covers all of them.

## Model

| member | source | states |
|---|---|---|
| Graph.AddEdge | vscode/src/vs/loader.js:1685-1698 | adding an edge to an acyclic graph keeps it acyclic when the target does not already lead back to the source of the edge |
| Graph.AcyclicHasNoCycle | vscode/src/vs/loader.js:1685-1698 | a graph with a ranking has no closed path |
| LoaderState.WaitingSplit | vscode/src/vs/loader.js:1762-1764 | taking one inverse list out removes exactly its occurrences from the total |
| LoaderState.WaitingMember | vscode/src/vs/loader.js:1697-1698 | a module has an occurrence in the total if and only if it is in some inverse list |
| LoaderSteps.DefineKeepsInv | vscode/src/vs/loader.js:1352-1370 | a new module keeps the whole invariant at any moment of any run, other calls in progress included |
| LoaderSteps.SkipKeepsInv | vscode/src/vs/loader.js:1663-1684 | passing over a special or completed entry keeps the counters exact and the handled edges acyclic |
| LoaderSteps.BreakCycleKeepsInv | vscode/src/vs/loader.js:1685-1694 | when an edge is dropped as cyclic the declared dependencies really have a cycle |
| LoaderSteps.RecordKeepsWaitsAcyclic | vscode/src/vs/loader.js:1685-1698 | recording a waiter never closes a cycle of waits, in runs with errors and cycles too |
| LoaderSteps.HandledPathVisible | vscode/src/vs/loader.js:1505-1541 | although completed modules drop their lists, no path to an incomplete module is hidden from the search while no cycle or error has been met |
| LoaderSteps.RecordKeepsInv | vscode/src/vs/loader.js:1696-1715 | recording a waiter keeps counters, order and acyclicity |
| LoaderSteps.DependencyFailedKeepsInv | vscode/src/vs/loader.js:1677-1681 | giving up in the middle of the dependency loop keeps the invariant |
| LoaderSteps.NothingPending | vscode/src/vs/loader.js:1718-1728 | a module whose counter is zero is in no inverse list, is owed no decrement and has handled every entry |
| LoaderSteps.StartFactoryKeepsInv | vscode/src/vs/loader.js:1139-1168 | starting the factory of a ready module keeps factories unique and in dependency order |
| LoaderSteps.EndFactoryKeepsInv | vscode/src/vs/loader.js:1762-1764 | fetching and clearing the waiters turns each occurrence into one decrement owed |
| LoaderSteps.NotifyKeepsInv | vscode/src/vs/loader.js:1768-1772 | one decrement pays one that is owed, also for modules that have failed meanwhile |
| LoaderSteps.LoadFailsKeepsInv | vscode/src/vs/loader.js:1464-1498 | a load error keeps the invariant whatever was in progress |
| LoaderSteps.AffectedHasNotStarted | vscode/src/vs/loader.js:1477-1494 | the walk along inverse edges meets no module whose factory has started, save the failed one |
| LoaderSteps.EscapeKeepsInv | vscode/src/vs/loader.js:1127-1145 | an exception that gets out of a factory keeps the invariant: the module stays complete, with its list and its waiters |
| LoaderSteps.EscapeGoesOn | vscode/src/vs/loader.js:1718-1776 | so does its passage through a dependency loop or a completion loop, which stay on the books unfinished |
| LoaderSteps.StepMovesFrames | vscode/src/vs/loader.js:1658-1787 | which calls are in progress after each step |
| LoaderSteps.StepKeepsInv | vscode/src/vs/loader.js:1658-1787 | every step of the manager, those of uncaught exceptions included, keeps the invariant |
| LoaderSteps.StepSettles | vscode/src/vs/loader.js:1658-1787 | which step leaves a module ready, or waited for without having been asked for |
| LoaderDriven.StoryGoesOn | vscode/src/vs/loader.js:1658-1787 | a story can be continued by another, so what nested calls do adds up to one story |
| LoaderDriven.Advance | vscode/src/vs/loader.js:1658-1787 | a step that is possible continues any story, with the invariant, the calls in progress and what is left to do as given |
| LoaderHistory.FollowsTold | vscode/src/vs/loader.js:1352-1787 | whatever was called: each definition the client made was taken with its list and its errorback, each error in a record or handed out is one the client threw or the loader reported, control went to each started factory in the order of the starts and to the loader once for each module asked for, and `catchError` is what was last configured |
| LoaderHistory.StoryIsRun | vscode/src/vs/loader.js:1658-1787 | the steps of a story are a run of the machine to the same state |
| LoaderHistory.CleanMeansNoErrors | vscode/src/vs/loader.js:1127-1168 | when the client has thrown and reported nothing there is no error in any record, no exception has got out, and nothing was handed to an errorback or to the handler |
| LoaderHistory.ErrorIsOwn | vscode/src/vs/loader.js:1139-1168 | a module whose factory has been started gets an error only if its own factory threw it or the loader reported one for this very module |
| LoaderSearch.HasDependencyPath | vscode/src/vs/loader.js:1505-1541 | true if and only if a path with at least one edge exists over the lists still held; terminates |
| LoaderSearch.FindCyclePath | vscode/src/vs/loader.js:1548-1568 | a result is a real walk from the start that ends at the target or has 51 nodes, and there is none only if no such walk exists |
| LoaderSearch.CyclePathExists | vscode/src/vs/loader.js:1685-1690 | whenever the cycle check succeeds the path search has a walk to find |
| Loader.ModuleManager.DefineModule | vscode/src/vs/loader.js:1352-1370 | a duplicate changes nothing; a new module is declared as given and keeps its errorback until its factory returns, nothing is left to be done, and the calls in progress are where they were, also when an exception passes |
| Loader.ModuleManager.Resolve | vscode/src/vs/loader.js:1658-1721 | the dependency loop, client code running inside it, keeps the invariant and completes the module if its counter is zero at the end; afterwards the loop is over, whether it ended, gave up or was stopped |
| Loader.ModuleManager.ResolveEntries | vscode/src/vs/loader.js:1661-1717 | all entries are handled, or the loop is left with the module given up or an exception passing |
| Loader.ModuleManager.ResolveEntry | vscode/src/vs/loader.js:1661-1716 | the module is given up, its errorback called, if and only if the entry is regular and complete with an error; otherwise the entry is passed over, or dropped with the flag set if it leads back, and nothing else happens, or it is first recorded and then asked for |
| Loader.ModuleManager.PassOver | vscode/src/vs/loader.js:1663-1684 | the counter goes down by one and nothing else changes |
| Loader.ModuleManager.GiveUp | vscode/src/vs/loader.js:1677-1681 | the record takes the error of the entry and is complete, the errorback, if any, is called once with it, the waiters are not told |
| Loader.ModuleManager.WaitFor | vscode/src/vs/loader.js:1685-1716 | an entry that already leads back changes the counter and the flag and nothing else; any other is recorded, stays recorded until its factory is started, and is defined or asked for afterwards |
| Loader.ModuleManager.CheckCycle | vscode/src/vs/loader.js:1685-1698 | the entry is recorded if and only if no path leads back; otherwise the flag is set and the warning shows a real walk |
| Loader.ModuleManager.LoadModule | vscode/src/vs/loader.js:1591-1633 | afterwards the module is defined or has been asked for, and nothing happens if it was already; otherwise the loader is given control for it, may call back, and an exception of such a call may pass through |
| Loader.ModuleManager.OnModuleComplete | vscode/src/vs/loader.js:1722-1787 | a completed module is left alone; any other is started next, its factory is given control, and it has an error afterwards only if its own factory threw it or the loader reported one for it; nested completions come back with every decrement made or lost and no ready module left; it terminates |
| Loader.ModuleManager.FactoryDone | vscode/src/vs/loader.js:1127-1168 | an exception that is not caught changes nothing but leaves the module's waiters where they are; otherwise the record is closed, a caught exception is handed to the handler, and after that the waiters are fetched and all counted down |
| Loader.ModuleManager.LeaveLoop | vscode/src/vs/loader.js:1768-1774 | an exception passing through a completion loop loses exactly the decrements still to be made |
| Loader.ModuleManager.StartFactoryOf | vscode/src/vs/loader.js:1139-1145 | the module is complete, started and running, last in the order of starts, before its factory gets control; its exceptions will be caught exactly if `catchError` is set now |
| Loader.ModuleManager.EndFactoryOf | vscode/src/vs/loader.js:1156-1168 | when the factory returned or its exception was caught: the record drops its list and its errorback, a caught exception becomes its error, of phase `factory` with module and waiters, and is handed to the handler, and the waiters are fetched and cleared |
| Loader.ModuleManager.CloseRecord | vscode/src/vs/loader.js:1156-1168 | the record and the handler after a factory: nothing changes but the list, the errorback and, with an exception, the error |
| Loader.ModuleManager.NotifyOne | vscode/src/vs/loader.js:1768-1774 | exactly one decrement owed to the waiter is made, before anything else |
| Loader.ModuleManager.NotifyWaiters | vscode/src/vs/loader.js:1765-1776 | the list is counted down in its order, each decrement made once and before the next, however completions nest, or lost with an exception |
| Loader.ModuleManager.OnLoadError | vscode/src/vs/loader.js:1464-1498 | visits exactly the modules that wait for the failed one, once each, in breadth-first order; exactly these take the load error, with its module, waiters and reason, and are complete; each errorback among them is called with it once, and the handler exactly when there is none |
| Loader.ModuleManager.FailInverse | vscode/src/vs/loader.js:1469-1494 | the breadth-first walk is exact over the inverse lists, in the order in which modules are found, and changes no other record |
| Loader.ModuleManager.GiveError | vscode/src/vs/loader.js:1172-1180 | the record is complete with the error and the errorback, if any, is called |
| Loader.ModuleManager.ClientCode | vscode/src/vs/loader.js:1620-1629 | whatever client code does, catching exceptions or letting them pass, it returns with the invariant and the frames of its caller intact |
| Loader.FrontierMoves | vscode/src/vs/loader.js:1478-1494 | one round of the walk keeps visited and queued modules distinct, affected and closed |
| Loader.BreadthGoesOn | vscode/src/vs/loader.js:1478-1494 | one round keeps the order breadth-first: modules found to wait for an earlier one come earlier, and those found in one list in its order |
| Loader.FailedMeans | vscode/src/vs/loader.js:1464-1498 | which records take a load error, which errorbacks are called with it and when the handler is, said directly |
| LoaderTheorems.WaitsNeverCycle | vscode/src/vs/loader.js:1658-1787 | in every run the wait-for graph has no cycle |
| LoaderTheorems.CountersAreExact | vscode/src/vs/loader.js:1658-1787 | in every run the counter of an incomplete module equals its occurrences, the decrements owed, those lost to exceptions and the entries left; each factory starts at most once; a started module is in no list |
| LoaderTheorems.CaughtErrorsAbandonNothing | vscode/src/vs/loader.js:1127-1137 | with `catchError` set whenever a factory is started no call is ever abandoned |
| LoaderTheorems.FactoriesStartInDependencyOrder | vscode/src/vs/loader.js:1676-1776 | without errors and cycles a factory starts after those of all its dependencies have started |
| LoaderOrder.DependenciesReturnExactlyWhen | vscode/src/vs/loader.js:1676-1776 | in runs without error records and cycles, dependencies have always returned before a factory starts if and only if none starts while that of a dependency is running |
| LoaderOrder.OnlyEarlyStartBreaksOrder | vscode/src/vs/loader.js:1139-1145 | a step breaks that order if and only if it starts such a factory |
| LoaderOrder.FactoriesRunAfterTheirDependencies | vscode/src/vs/loader.js:1676-1684 | it is enough that no entry is passed over while its factory is running |
| LoaderOrder.NestingBreaksOrder | vscode/src/vs/loader.js:1139-1145 | a concrete run in which a module defined inside a factory starts before that factory has returned |
| LoaderProgress.IncompleteMeansBlocked | vscode/src/vs/loader.js:1658-1787 | with no call in progress a module is incomplete if and only if it has no error and is held, or waits, directly or not, for one that is held, failed, let an exception out, or was asked for and never defined |
| LoaderProgress.NoDeadlock | vscode/src/vs/loader.js:1658-1787 | with no call in progress and everything asked for defined, every module is complete if and only if nobody has been left behind |
| LoaderProgress.NoDeadlockInRuns | vscode/src/vs/loader.js:1658-1787 | so every module completes in every run, errors and exceptions included, whose steps leave nobody behind |
| LoaderProgress.NoDeadlockWithCatchError | vscode/src/vs/loader.js:1658-1787 | with `catchError` set whenever a factory is started it is enough that no module gives up while somebody incomplete waits for it |
| LoaderProgress.NoDeadlockWithoutErrors | vscode/src/vs/loader.js:1658-1787 | every module completes when no record has an error and no exception got out of a factory |
| LoaderProgress.OnlyTheseLeaveBehind | vscode/src/vs/loader.js:1677-1776 | of all steps only giving up, an exception that gets out, and its passage through a loop leave anybody behind, each if and only if somebody incomplete is affected |
| LoaderProgress.LoadFailsSpares | vscode/src/vs/loader.js:1464-1498 | a load error leaves no waiter of a failed module behind |
| LoaderProgress.LeftBehindForGood | vscode/src/vs/loader.js:1677-1776 | whoever is left behind never runs its factory in any continuation; it can only get an error of its own |
| LoaderCycleFlag.CycleFlagBounds | vscode/src/vs/loader.js:1685-1695 | at every moment the flag is set whenever the regular entries handled so far have a cycle and no record has an error, and only if the entries have one; all entries are handled when no call is in progress and no loop was stopped |
| LoaderCycleFlag.CycleFlagExact | vscode/src/vs/loader.js:1685-1695 | the flag is set if and only if the entries have a cycle, when such a cycle comes with one of regular entries |
| LoaderCycleFlag.CyclesAvoidReserved | vscode/src/vs/loader.js:1663-1675 | that is so when no module defined under a reserved name is on a cycle |
| LoaderCycleFlag.EvadingOrder | vscode/src/vs/loader.js:1658-1695 | lists without a cycle of regular entries can be defined and completed in an order that leaves the flag unset |
| LoaderCycleFlag.FlagExactlyWhen | vscode/src/vs/loader.js:1658-1695 | the flag is exact for every order of definitions if and only if a cycle of entries comes with a cycle of regular entries |
| LoaderTheorems.LoadErrorSparesTheCompleted | vscode/src/vs/loader.js:1464-1498 | a load error changes a started module only if it is the failed one and does not hold that error already |
| LoaderProgress.GivingUpStrandsWaiters | vscode/src/vs/loader.js:1677-1681 | a concrete run after which a module never completes although everything asked for is defined and nothing was thrown |
| LoaderProgress.EscapeStrandsWaiters | vscode/src/vs/loader.js:1127-1145 | the same, with no error in any record, after a factory has thrown in the default configuration |
| LoaderProgress.EscapeLosesADecrement | vscode/src/vs/loader.js:1768-1774 | the same after an exception in the middle of a completion loop, with nobody waiting in vain |
| LoaderCycleFlag.ReservedIdHidesCycle | vscode/src/vs/loader.js:1663-1675 | the flag is not exact for a module named `exports` that needs one with the entry `exports` |
| LoaderSessions.Session | vscode/src/vs/loader.js:1352-1787 | a manager used from its constructor on, by any client to any depth, with or without `catchError`, comes to rest with all these promises kept: every definition taken, every error one that was thrown or reported, every start and every request handed to the client; and when nothing was thrown or reported, no error at all and, with everything asked for defined, every module run |
| LoaderSessions.TwoLoadErrors | vscode/src/vs/loader.js:1464-1498 | after two load errors an errorback has been called once for each that affects its module, so twice exactly when both do |
| LoaderSessions.ErrorbackCalls | vscode/src/vs/loader.js:1172-1180 | over any run an errorback is called once for each load error that reaches its module, and once more if the module gives up, which it does at most once |
| LoaderSessions.SessionCalls | vscode/src/vs/loader.js:1172-1180 | the errorback calls the class has made in a whole session are those of its run, counted so |
| LoaderSessions.WaitsForTwo | vscode/src/vs/loader.js:1172-1180 | a concrete run to a module whose errorback two load errors call twice |
| ModuleIds.NormalizeModuleId | vscode/src/vs/loader.js:1061-1078 | for every id, regular or not, the result is given segment by segment: `.` goes, `..` takes the name before it along, and the last segment, empty ones and leading `..` stay; the location is the same; a regular id becomes the canonical id of its location, stays regular, and is unchanged if it was canonical; terminates |
| ModuleIds.SameLocationSameId | vscode/src/vs/loader.js:1058-1078 | the results for two regular ids are equal if and only if the ids denote the same location |
| ModuleIds.NormalIsUnique | vscode/src/vs/loader.js:1058-1078 | two normal ids with the same location are the same |
| ModuleIds.NoDotLeft | vscode/src/vs/loader.js:1063-1067 | when the first pattern matches nowhere no inner segment is a dot |
| ModuleIds.NoPairLeft | vscode/src/vs/loader.js:1070-1074 | when the third pattern matches nowhere, after the first segment `..` follows only `..` |
| ModuleIds.DropPair | vscode/src/vs/loader.js:1070-1076 | dropping a name and the `..` after it keeps the location, wherever the pair is |
| ModuleIds.SplitAtSlash | vscode/src/vs/loader.js:1061-1078 | the segments of two texts joined by a slash are those of both |
| ModuleIds.ReducedAlready | vscode/src/vs/loader.js:1061-1078 | segments without an inner `.` and without a `..` after a name are left alone |
| ModuleIds.PairReduced | vscode/src/vs/loader.js:1070-1076 | dropping a name and the `..` after it does not change what the id is rewritten to, so the order of the replacements does not matter |
| ModuleIds.SomeIds | vscode/src/vs/loader.js:1058-1078 | seven concrete ids, empty and last segments among them |
| Vlq.RoundTrip | vscode/scripts/playground-server.ts:775-791 | what is written for n is read back as n and no further byte is touched, if and only if the magnitude of n is below 2^30 |
| Vlq.WrittenAlphabet | vscode/scripts/playground-server.ts:818-827 | the d-th digit is written as the d-th character of the alphabet |
| Vlq.ReadAlphabet | vscode/scripts/playground-server.ts:818-827 | a byte reads as its place in the alphabet, `=` as 64 and every other byte as 255 |
| Vlq.EncodedDigit | vscode/scripts/playground-server.ts:852-871 | every character written for a number: five bits of the doubled magnitude with the sign in the low bit, least significant first, as many as it needs, all but the last marked |
| Vlq.SomeNumbers | vscode/scripts/playground-server.ts:852-871 | 0, -1, 16 and 1000 are written as "A", "D", "gB" and "w+B" |
| Vlq.ShiftIsExact | vscode/scripts/playground-server.ts:775 | the 32-bit shift equals the unbounded one while the value stays below 2^31 |
| Vlq.ReadDigits | vscode/scripts/playground-server.ts:775-791 | reading the digits of a word adds the word at its shift and stops at its last digit |
| Mappings.RunEncoded | vscode/scripts/playground-server.ts:852-871 | writing a number moves the ECMA-426 decoder by exactly that number |
| Mappings.SegmentDecodes | vscode/scripts/playground-server.ts:761-792 | four numbers move the four positions by just these, a comma or the end puts the segment down, and a semicolon begins a line at column 0 besides |
| Mappings.SomeSegments | vscode/scripts/playground-server.ts:761-792 | "AAAA,IAAM;EACA" decodes to three given segments on two lines |
| Mappings.RunAppend | vscode/scripts/playground-server.ts:761-792 | decoding a concatenation is decoding its parts in turn |
| DynamicBuffers.DynamicBuffer.EnsureCapacity | vscode/scripts/playground-server.ts:838-845 | contents survive growth and all bytes ever copied stay below the capacity |
| DynamicBuffers.DynamicBuffer.AddByte | vscode/scripts/playground-server.ts:847-850 | the contents gain one byte; the capacity stays within the larger of 512 and twice the size |
| DynamicBuffers.DynamicBuffer.AddBuffer | vscode/scripts/playground-server.ts:880-884 | the contents gain the bytes given |
| DynamicBuffers.DynamicBuffer.AddVLQ | vscode/scripts/playground-server.ts:852-871 | the digit loop appends exactly the encoding of the number |
| SourceMap.NewSource | vscode/scripts/playground-server.ts:683-700 | a line end is added exactly if the content is not empty and has none, and the line count is the number of line ends |
| SourceMap.MeaningHasItsLines | vscode/scripts/playground-server.ts:793-797 | a file contributes as many line ends to the map as to the text |
| SourceMap.NamesThroughRemap | vscode/scripts/playground-server.ts:723-731 | renumbering sources through the table keeps every segment's source name |
| SourceMapBuilders.SourceMapBuilder.RemapSources | vscode/scripts/playground-server.ts:723-731 | the table only grows, stays free of duplicates, and holds every source at its new number |
| SourceMapBuilders.SourceMapBuilder.Commit | vscode/scripts/playground-server.ts:744-760 | the decoder of the output reaches the pending segment's absolute position |
| SourceMapBuilders.SourceMapBuilder.Transcribe | vscode/scripts/playground-server.ts:732-793 | the byte loop leaves an output that decodes to what was there before followed by the input's segments, renumbered |
| SourceMapBuilders.SourceMapBuilder.Pad | vscode/scripts/playground-server.ts:794-797 | the output is at the start of the line after the file's last |
| SourceMapBuilders.SourceMapBuilder.CopyMap | vscode/scripts/playground-server.ts:723-797 | the output is coherent again, at the start of a line, with the file's own meaning added under the extended table |
| SourceMapBuilders.SourceMapBuilder.AddSource | vscode/scripts/playground-server.ts:719-798 | the meaning of the combined map is extended by exactly the meaning of the file's own map, and the text by its content |
| SourceMapBuilders.SourceMapBuilder.AddLine | vscode/scripts/playground-server.ts:713-717 | the text gains a line and the map one line end, whatever the line contains |
| SourceMapBuilders.SourceMapBuilder.ToSourceMap | vscode/scripts/playground-server.ts:804-806 | the mappings returned decode to the meaning built up; they lack exactly the line ends inside lines that were added whole |
| SourceMapBuilders.SeparatorTranscribes | vscode/scripts/playground-server.ts:763-771 | commit and a separator keep output and input decoders in step |
| SourceMapBuilders.DigitTranscribes | vscode/scripts/playground-server.ts:773-790 | JavaScript's accumulators equal the unbounded decoder's at every digit |
| Bundle.ConcatenationKeepsSegments | vscode/scripts/playground-server.ts:719-798 | by generated line the combined map is the inputs' segments in order, each file's moved down by the lines before it |
| Bundle.Bundler.Visit | vscode/scripts/playground-server.ts:508-517 | a visit emits each module it enters once, only modules reachable from it, in depth-first order, and dependencies first when the graph is ranked |
| Bundle.BundleWithDependencies | vscode/scripts/playground-server.ts:504-528 | each reachable module once, in the order of the depth-first walk that takes every list of dependencies as it stands, so dependencies before dependents in an acyclic graph, and a map equal to the shifted concatenation of theirs |
| Bundle.EmitKeepsOrder | vscode/scripts/playground-server.ts:513-516 | emitting after all dependencies were visited keeps dependencies first |
| Bundle.TourEnds | vscode/scripts/playground-server.ts:508-519 | a module emitted after its dependencies were visited one by one keeps the order depth-first |
| Bundle.WalkIsReach | vscode/scripts/playground-server.ts:508-519 | a finished walk has emitted exactly the modules reachable from the entry point |
| ModuleLoading.BuiltGraphIsAcyclic | vscode/scripts/playground-server.ts:554-591 | in every run the graph built is closed and ranked by the order in which promises were kept |
| ModuleLoading.BundleOfBuilt | vscode/scripts/playground-server.ts:504-591 | so a bundle of what any loading run built has each reachable module once, dependencies first, and the map of the concatenation |
| ModuleLoading.BuiltAsRequested | vscode/scripts/playground-server.ts:554-591 | a module is built exactly by its own step and then depends on just those of the paths its file requested that are modules, in order, all of them built |
| ModuleLoading.CyclicRequestIsNeverBuilt | vscode/scripts/playground-server.ts:555-591 | a module that requests itself through others is never built |
| Streams.DeliversInOrder | vscode/cli/src/rpc.rs:537-631 | in every interleaving the bytes delivered are a prefix of the buffers passed to `write` while the stream had a record, whole and in order, and unless a write of the loop failed only the batch and the queue are missing |
| Streams.LogsWhatIsPassed | vscode/cli/src/rpc.rs:564-573 | what a stream has accepted over a run is exactly the arguments of those calls of `write`, and its half breaks only when a write of the loop fails |
| Streams.OneOwner | vscode/cli/src/rpc.rs:543-630 | in every interleaving the half has one owner, an idle record has nothing queued, and the missing-record branch is not reached |
| Streams.DrainsBeforeShutdown | vscode/cli/src/rpc.rs:543-630 | at most one shutdown, only after a call of `remove` and after everything passed to `write` has been dealt with |
| Streams.TaskStepsTerminate | vscode/cli/src/rpc.rs:596-631 | every step of the loop or of a remover brings the tasks nearer to rest |
| Streams.AtRest | vscode/cli/src/rpc.rs:543-630 | at the end of any run that leaves the tasks nothing to do, the stream has been shut down, once, if and only if `remove` was called, and unless a write failed everything passed was delivered |
| Streams.RemovedByRemove | vscode/cli/src/rpc.rs:543-556 | a stream counts as removed exactly from a call of `remove` on |
| Streams.RecoveryLeavesAGap | vscode/cli/src/rpc.rs:623-627 | if writes could succeed after a failure, delivery would have a gap |
| Streams.StepKeepsInv | vscode/cli/src/rpc.rs:543-630 | every atomic step keeps ownership, order and removal |
| StreamTable.StreamsTable.Insert | vscode/cli/src/rpc.rs:575-584 | a fresh stream starts idle and the others are untouched |
| StreamTable.StreamsTable.Write | vscode/cli/src/rpc.rs:564-573 | if the stream has a record the buffer joins its queue and its log as given, and a loop is spawned with the half if it was idle; otherwise nothing changes; the other streams are untouched |
| StreamTable.StreamsTable.Remove | vscode/cli/src/rpc.rs:543-556 | the half is taken from an idle record, which goes, and a busy one is marked for its loop with its queue kept |
| StreamTable.StreamsTable.WriteLoopLock | vscode/cli/src/rpc.rs:602-621 | the loop takes the whole queue, gives the half back, or ends |
| StreamTable.StreamsTable.WriteLoopItem | vscode/cli/src/rpc.rs:623-627 | one buffer is written, or the batch is dropped with the failure |
| OutgoingStreams.OutgoingOrder | vscode/cli/src/rpc.rs:453-524 | the announcement comes first, data is a prefix of what the reads of the run yielded, and an end follows all of it, once at most and only after the input has ended |
| OutgoingStreams.NothingIsMissing | vscode/cli/src/rpc.rs:475-500 | while the receiver is there nothing read is missing but the segment being sent, and a reader has returned only after the end of its input, with all of it and the end sent |
| OutgoingStreams.SendingGoesOn | vscode/cli/src/rpc.rs:480-500 | a segment that was accepted leaves its reader ready to read on, and one that was not ends it |
| OutgoingStreams.AllIsSent | vscode/cli/src/rpc.rs:453-524 | when the tasks have nothing left to do and the receiver is there, every stream was announced and has its reader, all it yielded was sent, and its end exactly if its input has ended |
| OutgoingStreams.StepKeepsInv | vscode/cli/src/rpc.rs:453-524 | every step of any reader keeps the order of all streams |
| Keyring.KeyringStorage.Store | vscode/cli/src/auth.rs:330-352 | succeeds exactly when no entry is refused; the keyring holds the pieces before the first refused one, laid over what was there |
| Keyring.KeyringStorage.Read | vscode/cli/src/auth.rs:308-328 | joins pieces up to the first without a marker, or nothing at a missing entry; terminates |
| Keyring.RoundTrip | vscode/cli/src/auth.rs:307-352 | a string is read back whatever the keyring held before, if and only if its last piece is not empty and does not end in the marker |
| Keyring.ReadsNothing | vscode/cli/src/auth.rs:315-344 | otherwise, with no later entry, nothing is read back |
| Keyring.LastPieceIsRemainder | vscode/cli/src/auth.rs:334-344 | the last piece is empty exactly at a multiple of the step |
| Keyring.ChunksFit | vscode/cli/src/auth.rs:220-225 | every entry, marker included, fits the limit of its platform, and all but the last fill it |
| Keyring.PieceIs | vscode/cli/src/auth.rs:334-344 | the k-th entry holds the characters from k times the step on, with the marker "<MORE>" if there are as many as a step, and the last piece reaches the end |
| Keyring.ReadsPieces | vscode/cli/src/auth.rs:308-328 | what is read from any keyring: the pieces before the first without a marker and that one, joined, or nothing if an entry is missing before it |
| Scan.ScanStream | scripts/verify-release-secrets.py:76-95 | the stream is reported once if and only if a known value occurs in the whole of it, however it is cut, for values of at most 16385 bytes |
| Scan.ScanAgrees | scripts/verify-release-secrets.py:76-95 | windowed search and whole search agree for every cut of the stream |
| Scan.BoundIsExact | scripts/verify-release-secrets.py:83-93 | agreement for every cut holds for a value if and only if its length is from 1 to 16385 |
| Scan.WindowSuffices | scripts/verify-release-secrets.py:83-93 | a short enough value is in the old data or in the window |
| DownloadCaches.DownloadCache.Touch | vscode/cli/src/download_cache.rs:119-139 | the name is first and never the one evicted; at most one name leaves the list, it was touched before every one that stays, only its directory leaves the disk, and only from a list that would exceed 5; the disk stays covered by the list, the list within its bound, and a new process could start from the file and the disk at every moment while no save has failed |
| DownloadCaches.DownloadCache.Exists | vscode/cli/src/download_cache.rs:52-60 | a hit is touched and stays on disk; a miss changes nothing; a failed save loses track of nothing |
| DownloadCaches.DownloadCache.Delete | vscode/cli/src/download_cache.rs:63-72 | the entry goes from disk and list together, or neither changes; a failed save loses track of nothing |
| DownloadCaches.DownloadCache.Create | vscode/cli/src/download_cache.rs:78-117 | an existing entry is left alone; a failed fill leaves at most the staging directory; a filled one is listed first, and is on disk if and only if its staging directory is still there and some rename attempt succeeds; a call loses track of a directory if and only if the save fails, the rename succeeds, and the file does not list the name already |
| DownloadCaches.DownloadCache.Save | vscode/cli/src/state.rs:61-70 | the cached list changes even when the file cannot be written, and the failure is counted |
| DownloadCaches.DownloadCache.Restart | vscode/cli/src/state.rs:46-59 | when every save has succeeded a new process sees the same list |
| DownloadCaches.FailedSaveLosesTrack | vscode/cli/src/download_cache.rs:98-115 | a concrete call that does: one failed save, and a directory that no file lists |
| DownloadCaches.DownloadCache.LoadOrGet | vscode/cli/src/state.rs:46-59 | the file is consulted at most once |
| DownloadCaches.TouchIsConsistent | vscode/cli/src/download_cache.rs:119-139 | after a touch the list has no duplicates, is in order of latest use, covers the disk, and exceeds its bound by at most the failed removals |
| DownloadCaches.TouchEvictsLeastRecent | vscode/cli/src/download_cache.rs:119-139 | exactly what a touch does: up to 5 names nothing goes; beyond, the one touched longest ago goes, if its directory is gone already or can be removed, and nothing else does |
| DownloadCaches.DeleteIsConsistent | vscode/cli/src/download_cache.rs:63-72 | the same after a deletion |

## Left out

- Plugin dependencies of the loader: the cycle check does not see the edge to the plugin, so the loader guarantees nothing about them.
- Errorbacks and the configured error handler are recorded, not run: they do not call back into the manager in the model.
- Exports values, `exportsPassedIn`, configuration other than `catchError`, recording of statistics, anonymous defines and build information of the loader.
- Exceptions the script loader throws of itself, and those of errorbacks and of the configured error handler.
- `ModuleIdProvider`: ids are given numbers; that equal names get equal numbers is one map lookup.
- SourceMapBuilders.SourceMapBuilder.AddSource: for well-formed maps; a byte outside the alphabet makes the code throw with part of the map copied, a source number outside the map's own list makes it compute with NaN, and a map that runs past its file's lines runs into the next file.
- Parsing of files and maps, JSON, text encoding, file watching and the HTTP server of the playground.
- Promises are modelled by the order in which they are kept; `updateContent`, which replaces content with the same requests, does not change the graph.
- Reuse of stream ids, message framing, `RpcCaller::call` and message ids.
- Keyring.RoundTrip: for ASCII strings, because a cut inside a character of several bytes makes the source panic.
- Sealing and unsealing of credentials, `clear`, failures of the keyring service while reading, and the thread with a timeout around it.
- The regular expressions of `scan_stream`, the collection of known values, and archives.
- Concurrent calls of the download cache; the time between rename attempts; a removal that deletes part of a directory; a stop in the middle of writing the file itself.
