# restify: the request engine, the JSON pipeline and the header block, verified

This project models the three stateful cores of the restify CAPL DLL in Dafny and proves what they are for.
`dafny verify dfyconfig.toml` checks all of it.

**The asynchronous request engine** (`AsyncTable`, `AsyncEngine`, `AsyncSystem`, `AsyncInvariants`, `AsyncLedger`,
`AsyncTheorems`, `AsyncAnswers`, `IdMint`). Eight slots, a worker pool that sizes itself, one mutex, two condition
variables, and a lock that is dropped while a worker performs a request. `AsyncEngines.AsyncEngine` is the object with
its fields updated in place; each method is one region that runs under the mutex, proved against a function on the
table (`AsyncTable`). `AsyncSystem` puts that table among worker threads, blocked clients and a ledger of everything
that happened; a step is one region or one event between regions, and any interleaving is a run. The theorems hold in
every state that any run reaches. Perform may return anything at any time, except `RequestCancelled` without having
seen its cancel flag. Waits may time out or wake spuriously at any moment.

**The JSON pipeline** (`JsonQuotes`, `JsonTree`, `JsonPath`, `JsonFlatten`, `JsonIndex`, `JsonLimits`, `JsonCharges`,
`JsonVerdict`, `JsonDuplicates`, `JsonStored`, `JsonReading`, `JsonPipeline`, `JsonDocumentStore`). Apostrophe strings
are rewritten, a streaming pass enforces the limits without building a key, an explicit stack with one shared path
buffer lists the leaves, RFC 6901 pointers (sections 3, 4 and 5) read them back, and a store of eight slots keeps the
results. The parser is a parameter: an arbitrary function from text to either a tree as written, which may repeat
keys, or the events before a syntax error. The document is that tree with the last value of each key kept at its first
position.

**The header block** (`HeaderBlock`). Lines of `name: value`, and the printer that inverts the parser.

A `char` stands for one byte throughout. Unsigned counters wrap (`Inc32`, `Dec32`, `Inc64`).

Two comments of the source say less than the code does. The comment at src/http/async-operations.cpp:144-145 calls
`nextId_` pre-incremented; the code hands out `nextId_` and increments it afterwards, and so does the model. The
comment at src/http/async-operations.cpp:262-267 says that `idleWorkers_` may undercount; in every reachable state
it is exactly the number of workers between going idle and leaving the wait, notified or not
(`AsyncTheorems.CountersAreExact`), which is why comparing it with the pending count strands nobody. In
`ParseHeaderBlock`, stripping a trailing CR makes no difference, because CR is white space that the trimming of the
value removes as well (`HeaderBlock.LineWithColon`).

## Model

| member | source | states |
|---|---|---|
| `AsyncTheorems.NoStrandedRequest` | src/http/async-operations.cpp:199-280 | in every reachable state there are at most as many pending slots as workers that are idle or have not yet taken the lock, also at the cap of 8 workers |
| `AsyncTheorems.PendingIsServed` | src/http/async-operations.cpp:199-280 | in every reachable state the pending requests are at most as many as the workers on their way that need no time-out: not yet at the lock, or already signalled |
| `AsyncTheorems.CountersAreExact` | src/http/async-operations.cpp:174-221 | the idle and live counters and the module references equal the numbers of threads in the matching modes, live never passes 8, busy workers and running or abandoned slots are equally many |
| `AsyncTheorems.SleepingWorkerMissesNothing` | src/http/async-operations.cpp:203-222 | a worker asleep without a signal has seen the current wake generation and no slot is pending |
| `AsyncTheorems.SleepingClientMissesNothing` | src/http/async-operations.cpp:309-323 | a client asleep in an await without a signal waits for an id that is live and not complete |
| `AsyncTheorems.OneWorkerPerHeldSlot` | src/http/async-operations.cpp:224-239 | a slot is running or abandoned exactly when some worker is inside Perform on it, and no two workers share a slot |
| `AsyncTheorems.SlotIsOwnedDuringPerform` | src/http/async-operations.cpp:224-239 | while a worker performs, every step but its own return leaves its slot's id, client, request and result alone; only the mark from running to abandoned and the cancel flag may appear |
| `AsyncTheorems.IdsAreUnique` | src/http/async-operations.cpp:135-163 | the id of an occupied slot is not zero, and no other occupied slot has it |
| `AsyncTheorems.CancelFlagMeansAbandoned` | src/http/async-operations.cpp:359-384 | the cancel flag of a slot is set exactly while it is abandoned |
| `AsyncTheorems.ReadReportsOwnResult` | src/http/async-operations.cpp:325-350 | a read of a complete request reports status, HTTP code and length of what Perform produced for the latest request dispatched under that id, whether or not the body fits, and never `RequestCancelled` |
| `AsyncTheorems.DeliveriesAreFaithful` | src/http/async-operations.cpp:325-350 | over a whole run every delivered body is the result of one Perform, called with the client and request dispatched under that id, and no request is delivered twice |
| `AsyncTheorems.PerformedAtMostOnce` | src/http/async-operations.cpp:215-239 | every Perform of a run is for a dispatch that no earlier Perform was for, and that was never discarded while pending |
| `AsyncTheorems.NothingIsLost` | src/http/async-operations.cpp:243-393 | successful dispatches = successful reads + successful discards + requests removed by discard-all + requests still live |
| `AsyncTheorems.IdsRecurRarely` | src/http/async-operations.cpp:144-163 | over a whole run two mints of the same request id have at least 2^32 - 9 other mints between them |
| `AsyncTheorems.WorkerStepLowers` | src/http/async-operations.cpp:199-241 | every worker step except a spurious wake-up lowers a measure of the work left |
| `AsyncTheorems.SpuriousChangesNothing` | src/http/async-operations.cpp:207-214 | a spurious wake-up before the time-out changes nothing |
| `AsyncTheorems.Quiescence` | src/http/async-operations.cpp:199-241 | once clients stop, every schedule of workers is bounded in length; where no step is left there is no live worker, no reference, nothing pending, running or abandoned, and every request that was live is complete under its own id |
| `AsyncTheorems.WorkersComeToRest` | src/http/async-operations.cpp:199-241 | from any state that keeps the invariant, so from any reachable state, the workers alone have a schedule to such a state of rest |
| `AsyncAnswers.DispatchAnswers` | src/http/async-operations.cpp:247-279 | in every reachable state a dispatch is refused for want of a slot exactly when all eight are pending, running, complete or abandoned; a worker is wanted exactly when there is one more pending request than idle workers and fewer than eight are live; the answer is a start failure exactly when one is wanted and not started, and Ok otherwise |
| `AsyncAnswers.DispatchChanges` | src/http/async-operations.cpp:248-279 | an accepted dispatch fills the first open slot and nothing else, raises pool, generation and notification as stated; a failed start leaves that slot empty; a refusal changes nothing |
| `AsyncAnswers.PollAnswers` | src/http/async-operations.cpp:282-291 | 2 exactly for a complete request, 1 for a pending or running one, and unknown exactly when no slot holds the id for its clients |
| `AsyncAnswers.AwaitAnswers` | src/http/async-operations.cpp:293-323 | Ok exactly for a complete request, unknown exactly when the id names none, WaitTimeout exactly for a pending or running one whose time is over, and otherwise no answer |
| `AsyncAnswers.ReadAnswers` | src/http/async-operations.cpp:325-350 | each of the five answers has its exact condition on slot and buffer size, and only a read that answers Ok changes the table, by consuming that slot |
| `AsyncAnswers.DiscardAnswers` | src/http/async-operations.cpp:352-367 | unknown exactly when the id names nothing; otherwise exactly the named slot changes, to abandoned with the flag when running and to consumed when not |
| `AsyncAnswers.DiscardAllAnswers` | src/http/async-operations.cpp:369-393 | the count is the number of slots turned abandoned; pending, complete and consumed slots end empty, the others as stated |
| `AsyncAnswers.LoopTopAnswers` | src/http/async-operations.cpp:202-206 | a worker takes the first pending slot, and sleeps exactly when none is pending |
| `AsyncAnswers.AfterWaitAnswers` | src/http/async-operations.cpp:207-224 | after a wait: the first pending slot, else it leaves exactly on time-out or a new generation, else it sleeps on |
| `Statuses.CodeIff` | src/core/status.h:9-47 | each status has its own number, and each number stands for its status |
| `AsyncLedger.StepKeeps` | src/http/async-operations.cpp:199-393 | every step, of a client or a worker, keeps the whole invariant: counts, ownership, ids, signals, tickets, results, deliveries, balance and mint log |
| `AsyncSystem.WorkerStepsRunTheLoop` | src/http/async-operations.cpp:199-241 | the worker steps of the system do to the table what the regions of the worker loop do, and leave the worker in the matching mode |
| `AsyncSystem.NoticesAreWakes` | src/http/async-operations.cpp:239-391 | a step that notifies a condition variable signals every thread still asleep on it, and a step that does not notify it signals nobody; the notifications are those that the engine object counts |
| `AsyncEngines.AsyncEngine.Dispatch` | src/http/async-operations.cpp:243-280 | the in-place dispatch refines its table function: slot choice, fresh id, start decision, undo after a refused start, generation, notification and outputs |
| `AsyncEngines.AsyncEngine.MintId` | src/http/async-operations.cpp:146-163 | the loop ends at the first candidate that is neither zero nor live |
| `AsyncEngines.AsyncEngine.StartWorker` | src/http/async-operations.cpp:174-188 | a refused reference or thread leaves both counters as they were |
| `AsyncEngines.AsyncEngine.Poll` | src/http/async-operations.cpp:282-291 | 2 for complete, 1 for pending or running, otherwise unknown |
| `AsyncEngines.AsyncEngine.AwaitAfterWait` | src/http/async-operations.cpp:309-322 | after a wake-up: gone, complete, timed out or wait again, judged in that order |
| `AsyncEngines.AsyncEngine.Read` | src/http/async-operations.cpp:325-350 | reports, copies and consumes only when the body fits; the buffer then holds body and terminator with nothing behind them touched, is left empty when too small, and is untouched otherwise |
| `AsyncEngines.AsyncEngine.Discard` | src/http/async-operations.cpp:352-367 | running becomes abandoned with the cancel flag, every other live state is consumed, and the waiting clients are notified |
| `AsyncEngines.AsyncEngine.DiscardAll` | src/http/async-operations.cpp:369-393 | the sweep frees or abandons every slot, counts the running ones, and notifies clients and workers |
| `AsyncEngines.AsyncEngine.LoopTop` | src/http/async-operations.cpp:202-206 | claim the first pending slot, or count as idle and wait |
| `AsyncEngines.AsyncEngine.AfterWait` | src/http/async-operations.cpp:207-224 | go on waiting, claim, or leave the pool, with both counters kept |
| `AsyncEngines.AsyncEngine.AfterPerform` | src/http/async-operations.cpp:230-240 | publish the result, or free an abandoned slot, notify the waiting clients, then back to the top of the loop |
| `IdMint.MintIsFresh` | src/http/async-operations.cpp:144-163 | with at most seven live ids the mint ends within nine candidates, with an id that is neither zero nor live, from any 32-bit start |
| `IdMint.MintSpacing` | src/mapping/json-document-store.cpp:67-80 | any history of mints, in either table, has at least 2^32 - 9 other mints between two mints of one id |
| `JsonQuotes.ConvertApostropheStrings` | src/mapping/json-quotes.cpp:7-55 | the three-state loop computes the chunk-wise translation, always with status Ok |
| `JsonQuotes.ConvertDoubleQuotes` | src/mapping/json-quotes.cpp:11-53 | for any sequence of quote-free text and closed literals in either notation, the output is the same sequence with every literal double-quoted |
| `JsonQuotes.SegmentsIff` | src/mapping/json-quotes.cpp:11-53 | the texts that are such sequences are exactly those whose scan ends outside every string |
| `JsonQuotes.MeaningIsKept` | src/mapping/json-quotes.cpp:33-51 | each literal's decoded content (escapes of section 7 of RFC 8259, and `\'`) is unchanged, undecodable literals stay undecodable, text between them is untouched |
| `JsonQuotes.TextParts` | src/mapping/json-quotes.cpp:11-53 | every text whatever is quote-free text and closed literals, followed by nothing or by one string left open, perhaps with a lone backslash |
| `JsonQuotes.ConvertParts` | src/mapping/json-quotes.cpp:11-53 | the output for every text: the same parts, each literal and the open string double-quoted |
| `JsonQuotes.ConvertTwice` | src/mapping/json-quotes.cpp:7-55 | converting again changes nothing, for every byte string, unterminated strings and trailing backslashes included |
| `JsonQuotes.EndIsKept` | docs/json-flatten.md:121-122 | the scan of the output ends as the scan of the input does: an unterminated string stays unterminated, now in double quotes |
| `JsonQuotes.UnchangedIff` | src/mapping/json-quotes.cpp:14-32 | a text is left as it is exactly when no apostrophe lies outside a double-quoted string |
| `JsonQuotes.ConvertSize` | src/mapping/json-quotes.cpp:9-52 | the output has at most twice the input's bytes, and is empty only for empty input |
| `JsonQuotes.ConvertKeepsByte` | src/mapping/json-quotes.cpp:7-55 | apart from the two quotes and the backslash, no byte value appears or disappears; in particular no NUL is added |
| `JsonPath.DecodeToken` | src/core/json-path.cpp:11-35 | accepts exactly the well-escaped tokens and decodes each escape once, left to right |
| `JsonPath.UnescapeEscape` | src/mapping/json-flatten.cpp:134-144 | decoding undoes the key printer's escaping, and an escaped token holds no `/` |
| `JsonPath.EscapeUnescape` | src/core/json-path.cpp:11-35 | an accepted raw token is the only spelling of what it decodes to |
| `JsonPath.EscapeSpells` | src/mapping/json-flatten.cpp:134-144 | byte by byte, `~` is spelled `~0`, `/` is spelled `~1`, and every other byte itself |
| `JsonPath.ParseIndex` | src/core/json-path.cpp:39-64 | the in-order checks and the 32-bit read-back with its overflow give the index or the right error |
| `JsonPath.IndexIff` | src/core/json-path.cpp:39-64 | a token is accepted as index n exactly when it is the decimal print of n below 2^32 |
| `JsonPath.ParsePath` | src/core/json-path.cpp:68-99 | the loop over `/` yields the tokens of the path, or the argument or syntax error |
| `JsonPath.ParsePrint` | src/core/json-path.cpp:68-99 | printing any token list and parsing it gives the list back |
| `JsonPath.PrintParse` | src/core/json-path.cpp:68-99 | every accepted path prints back byte for byte |
| `JsonPath.PathFails` | src/core/json-path.cpp:68-99 | a path is refused exactly when it has no data (InvalidArgument), or is not empty and does not start with `/` or holds a `~` that starts no escape (PathSyntaxError) |
| `JsonPath.ResolvePath` | src/core/json-path.cpp:101-138 | parse first, then walk token by token through first-match keys and indices, with the error of the first failing token |
| `JsonPath.WalkFails` | src/core/json-path.cpp:111-134 | a walk fails with an error exactly when some token is the first that leads nowhere and that is its reason: key absent, no canonical index, index out of range, or no container |
| `JsonFlatten.AppendEscapedToken` | src/mapping/json-flatten.cpp:134-144 | appends the escaped token to the buffer and nothing else |
| `JsonFlatten.FlattenDocument` | src/mapping/json-flatten.cpp:177-213 | the explicit stack over one reused path buffer ends, never fails, and returns exactly the recursive pre-order list |
| `JsonFlatten.LeafReadsBack` | src/mapping/json-flatten.cpp:215-233 | a node is shown as a text and type exactly when they read back to that node: true, false, null, `{}` and `[]` in their fixed spellings, strings and numbers as they stand |
| `JsonFlatten.TakeChild` | src/mapping/json-flatten.cpp:187-202 | taking a child moves exactly the child's entries out of what the stack still owes, and shrinks what is left to do |
| `JsonFlatten.TurnKeepsPlaces` | src/mapping/json-flatten.cpp:187-202 | at every turn each frame's `prefixSize` prefix of the buffer is the printed pointer of the container it visits, which those tokens lead to from the root, and the whole buffer is the pointer of the child just taken |
| `JsonFlatten.TurnKeepsWalking` | src/mapping/json-flatten.cpp:181-211 | a turn of the loop keeps places and list: what is listed and what is owed stay the recursive list, whether a container is opened or a leaf is listed |
| `JsonIndex.LeadsIffWalk` | src/core/json-path.cpp:111-138 | in a document the tokens that lead to a node child by child are exactly those that resolve to it |
| `JsonIndex.FlattenPrints` | src/mapping/json-flatten.cpp:166-213 | the entries are the tree's leaves in document order, each under the printed path of its tokens |
| `JsonIndex.EntriesShowLeaves` | src/mapping/json-flatten.cpp:177-233 | the n-th entry carries the pointer of the n-th leaf, and its text and type read back to that leaf |
| `JsonIndex.LeavesInOrder` | docs/json-flatten.md:44-45 | of any two leaves the earlier one takes the earlier child where their paths part |
| `JsonIndex.LookupShowsLeaf` | src/mapping/json-document-store.cpp:138-149 | a path reads a text and type exactly when it leads to the leaf they read back to |
| `JsonIndex.LeavesAreReached` | src/core/json-path.cpp:111-138 | every listed leaf is reached by walking its tokens |
| `JsonIndex.ReachedAreLeaves` | src/core/json-path.cpp:111-138 | every leaf that some token list reaches is listed |
| `JsonIndex.IndexAgreesWithTree` | src/mapping/json-document-store.cpp:107-155 | a path reads a text and type from the tree exactly when the flat list has that entry |
| `JsonIndex.EntryKeysDiffer` | src/mapping/json-flatten.cpp:177-213 | entry keys are pairwise distinct |
| `JsonIndex.FewLeavesIndexable` | src/core/json-path.cpp:52-61 | a document with at most 2^32 leaves has no array whose indices could not be read back |
| `JsonLimits.LimitCheckingSax.Key` | src/mapping/json-flatten.cpp:29-41 | counts the key's escaped bytes in its loop, or rejects a NUL |
| `JsonLimits.LimitCheckingSax.Leaf` | src/mapping/json-flatten.cpp:89-93 | charges one entry and its key, entries before bytes |
| `JsonLimits.LimitCheckingSax.Open` | src/mapping/json-flatten.cpp:95-104 | writes the next frame inside the 64-frame array, or rejects the depth |
| `JsonLimits.LimitCheckingSax.Close` | src/mapping/json-flatten.cpp:106-111 | charges an empty container as a leaf, told by one flag |
| `JsonLimits.LimitCheckingSax.Scan` | src/mapping/json-flatten.cpp:256-259 | over any well-nested event stream the object, with all array accesses in bounds and no underflow, ends as the functional pass does |
| `Numerals.DecimalDigits` | src/mapping/json-flatten.cpp:70-77 | the digit count is the length of the decimal print |
| `JsonVerdict.FeedTree` | src/mapping/json-flatten.cpp:47-111 | inside any surroundings the pass over one value fails as an audit of that value's keys, depths and leaves does, or goes on with the audited totals |
| `JsonCharges.FeedIsAudit` | src/mapping/json-flatten.cpp:29-111 | over any well-nested stream of events, whole or broken off, the pass reports what an audit of the checks those events bring reports |
| `JsonVerdict.DuesOfTree` | src/mapping/json-flatten.cpp:29-111 | the events of a value bring exactly that value's checks, with the size of every key that is never built |
| `JsonVerdict.LimitPassAccepts` | src/mapping/json-flatten.cpp:47-118 | the pass accepts a tree exactly when depth, number of leaves, total key bytes and NUL-free keys are within limits, and then its two counters equal entry count and summed key length of a list it never builds |
| `JsonVerdict.LimitPassReportsFirst` | src/mapping/json-flatten.cpp:47-118 | the status is that of the first violation in text order, given the totals before it |
| `JsonVerdict.RejectedMeans` | src/mapping/json-flatten.cpp:29-101 | a status is reported only when its own limit is broken, in the documented numbers |
| `JsonVerdict.OnlyLimitBroken` | docs/json-flatten.md:178-186 | a tree that breaks one limit only is rejected with that limit's status |
| `JsonVerdict.BrokenOffReportsFirst` | src/mapping/json-flatten.cpp:47-118 | when the text breaks off, the pass fails with a status exactly when the first violation in text order lies before the break and has that status |
| `JsonDuplicates.LastValueFirstPlace` | docs/json-flatten.md:51-61 | after collapsing, each key has its last value, no key is lost, and keys stand in order of first occurrence |
| `JsonDuplicates.CollapseIsUnique` | docs/json-flatten.md:51-61 | a collapsed document repeats no key at any depth |
| `JsonDuplicates.CollapseUniqueIsIdentity` | docs/json-flatten.md:51-61 | a tree without repeated keys is left as it is |
| `JsonDuplicates.CollapseCostsNoMore` | src/mapping/json-flatten.cpp:261-272 | for any charge per entry, the collapsed document costs at most the tree as written |
| `JsonReading.LookupReadsWritten` | docs/json-flatten.md:51-61 | reading the document by any path, failures included, is reading the tree as written by the last field of each key |
| `JsonReading.LeavesAreWritten` | docs/json-flatten.md:51-61 | the document's leaves are those of the tree as written, each key where it stands first with what was written last |
| `JsonReading.LimitPassIff` | docs/json-flatten.md:178-186 | the pass accepts exactly the trees of depth at most 64 with at most 10000 leaves, at most 4194304 bytes of pointers and no NUL in a key |
| `JsonStored.StoredCostsNoMore` | src/mapping/json-flatten.cpp:29-67 | stored entries and stored key bytes are at most the two counters, and no stored key contains a NUL |
| `JsonStored.CountersAreExactWithoutRepeats` | src/mapping/json-flatten.cpp:29-109 | without repeated keys the counters are exactly the stored totals |
| `JsonStored.AcceptedIsSound` | src/mapping/json-flatten.cpp:256-276 | what passes the limits is stored without repeated keys, within the limits, with readable indices |
| `JsonPipeline.FlattenJson` | src/mapping/json-flatten.cpp:235-278 | the checks in their order, the skipped conversion, the pass, the document and the list together compute one function of text and parser |
| `JsonPipeline.AcceptedIff` | src/mapping/json-flatten.cpp:235-264 | a text is accepted exactly when it is not empty, holds no NUL, has at most 1048576 bytes, and its converted form parses to a tree within the four limits |
| `JsonPipeline.AcceptedTextIsRead` | src/mapping/json-flatten.cpp:261-277 | every path reads from an accepted result the leaf that the tree as written holds there, by last field and by index, or fails as that walk does |
| `JsonPipeline.AcceptedTextIsListed` | src/mapping/json-flatten.cpp:266-277 | the entries of an accepted result show the leaves of the tree as written, one for one in first-occurrence order |
| `JsonPipeline.UnfitText` | src/mapping/json-flatten.cpp:236-244 | over 1048576 bytes is DocumentTooLarge; empty, or with a NUL, is ParseError |
| `JsonPipeline.AcceptedTextIsSound` | src/mapping/json-flatten.cpp:235-278 | whatever the text and the parser, an accepted result is within the limits, its list and tree agree on every path in both directions, and the list shows the document's leaves in order |
| `JsonPipeline.RejectionReasons` | src/mapping/json-flatten.cpp:235-259 | `DocumentTooLarge` exactly for oversized input, otherwise one of the four parse and limit statuses |
| `JsonPipeline.FirstLimitDecides` | docs/json-flatten.md:189-192 | a limit reached in the front of what a text reports is the status of the text, whatever follows |
| `JsonPipeline.MalformedTextVerdict` | docs/json-flatten.md:189-192 | a malformed text has the status of the tree it was going to be when a limit is reached before the break, and is a `ParseError` otherwise |
| `JsonPipeline.MalformedTextReportsFirst` | docs/json-flatten.md:189-192 | the status of a malformed text is exactly that of the first violation among the checks before the break, or `ParseError` when there is none |
| `JsonPipeline.ConvertedTextFlattensAlike` | src/mapping/json-flatten.cpp:236-253 | a text and its converted form give the same result exactly when the input limit treats both alike |
| `JsonPipeline.NotationDoesNotMatter` | docs/json-flatten.md:100-109 | a document written in either kind of quotes, mixed freely, flattens to the same result |
| `JsonDocumentStore.DocumentStore.Insert` | src/mapping/json-document-store.cpp:82-95 | fails exactly when eight documents are held, otherwise adds the result under a fresh id that is not zero, and nothing else changes |
| `JsonDocumentStore.DocumentStore.MintId` | src/mapping/json-document-store.cpp:67-80 | the loop ends at the first candidate that is neither zero nor live |
| `JsonDocumentStore.DocumentStore.IdsRecurRarely` | src/mapping/json-document-store.cpp:67-80 | over the whole life of a store two inserts that return one id have at least 2^32 - 9 other inserts between them |
| `JsonDocumentStore.DocumentStore.Count` | src/mapping/json-document-store.cpp:97-105 | the entry count of a held document, or unknown |
| `JsonDocumentStore.DocumentStore.ReadEntry` | src/mapping/json-document-store.cpp:107-127 | id, index, buffers and sizes judged in that order, each answer with its exact condition; Ok leaves key and value of the entry at that index, otherwise both buffers are emptied or both untouched |
| `JsonDocumentStore.DocumentStore.ReadValue` | src/mapping/json-document-store.cpp:129-155 | id, path, node kind and buffer judged in that order; the text copied whole with nothing behind it touched, or the buffer emptied, or untouched when it has no room at all |
| `JsonDocumentStore.DocumentStore.ReadWithTokens` | src/mapping/json-document-store.cpp:163-178 | the path's syntax is judged before the id |
| `JsonDocumentStore.DocumentStore.Discard` | src/mapping/json-document-store.cpp:180-194 | removes exactly this document |
| `JsonDocumentStore.DocumentStore.DiscardAll` | src/mapping/json-document-store.cpp:196-214 | removes every document and counts them |
| `JsonDocumentStore.ReadsAgree` | src/mapping/json-document-store.cpp:107-155 | reading by index and reading by path show the same leaves of a stored document |
| `JsonDocumentStore.EntryIsLeafAtIndex` | src/mapping/json-document-store.cpp:116-122 | in a sound document index n reads the n-th leaf in document order: its printed path, and a text and type that read back to it |
| `JsonDocumentStore.StoredTextReads` | src/mapping/json-document-store.cpp:116-122 | in a stored text index n reads the n-th leaf of the text as written |
| `JsonDocumentStore.CountBoundsIndex` | src/mapping/json-document-store.cpp:103-119 | an index is out of range exactly when it is not below the count |
| `JsonDocumentStore.ValueIsLeafAtPath` | src/mapping/json-document-store.cpp:138-149 | a value read by path is the leaf that the path leads to |
| `JsonDocumentStore.ParseJsonDocument` | src/mapping/json-text-api.cpp:23-34 | a bad text is reported before a full store, and a store of sound documents stays one |
| `BufferCopy.CopyToBuffer` | src/core/buffer-copy.cpp:5-19 | InvalidArgument exactly without buffer or size, BufferTooSmall exactly when the text does not fit with its terminator, Ok otherwise; text and terminator with nothing behind them touched, or an empty buffer, or no write at all |
| `HeaderBlock.ParseHeaderBlock` | src/http/sync-text-api.cpp:153-183 | the loop over lines yields the headers up to the first bad line |
| `HeaderBlock.Trim` | src/http/sync-text-api.cpp:23-32 | the two shrinking loops compute the trimmed text |
| `HeaderBlock.SpaceBytes` | src/http/sync-text-api.cpp:23-31 | white space is the six bytes 9 to 13 and 32 |
| `HeaderBlock.TrimParts` | src/http/sync-text-api.cpp:23-32 | trimming removes white space at both ends, all of it and nothing else |
| `HeaderBlock.AcceptedIff` | src/http/sync-text-api.cpp:153-183 | a block is accepted exactly when it is empty or every line has something before and something after its first colon; one header per line in order, and on failure the headers of the lines before the first bad one |
| `HeaderBlock.LineWithColon` | src/http/sync-text-api.cpp:34-39 | a trailing CR never matters: the header is that of the unstripped line |
| `HeaderBlock.PrintParsesIff` | src/http/sync-text-api.cpp:153-183 | headers printed as `name: value` lines with LF or CRLF parse back to the same list, duplicates and order kept, exactly when each is one that a line can carry |
| `HeaderBlock.ParsePrintParse` | src/http/sync-text-api.cpp:153-183 | what was parsed from any block prints, with either line ending, to a block that parses to the same list |

## Left out

- Transport: Perform is arbitrary apart from the cancel flag; libcurl, TLS, time-outs, redirects and the response cap are not part of this model.
- Threads, module handles, clocks and the id seed are parameters: a thread start may be refused at either of its two calls, a time-out may fire at any moment, a seed is any 32-bit number. The await deadline is not computed.
- `Poll` is not a step of the system, because it changes nothing; its result is proved on the engine object.
- The pointer from a request to its slot's cancel flag is modelled as the flag itself, seen by the worker in a step of its own.
- Exceptions from failed memory allocation, and the `InternalError` that the text layer makes of them.
- The JSON library: scanning, UTF-8, number parsing and number printing are given; number text is opaque, and every leaf text is assumed to print.
- The parser's limit pass and its document pass are assumed to see the same tree of the same text.
- `LimitCheckingSax.Scan` stands for the library's loop that calls the handlers; a binary event, which text never produces, is rejected as in the source.
- The entries and document of a discarded slot: the model empties them, the source leaves a moved-from value that nothing reads.
- `AsyncTable.Read` and `DocumentStore.Count` truncate lengths to 32 bits as the source does; that a body or list stays below that size is not assumed.
- `ReadWith`, which only forwards to `ReadWithTokens`, and the typed accessors that are passed to it.
- Type conversion, bounded input text, method names, the synchronous calls, the exported C functions and the CAPL scripts: forwarding and argument checks.
- Status codes that no modelled function returns (`VersionResourceUnavailable`, `UnknownHttpMethod`, `UnterminatedInputText`, `NullValue`, `NumericOverflow`, `NotIntegral`).
