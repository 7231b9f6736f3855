# A verified model of Millennium's core

Millennium loads plugins and themes into the Steam client.  This project models the parts of
it where correctness is hardest to see, in Dafny, and proves what those parts promise:

* the **DevTools client** (`CdpProtocol`, `CdpOutcomes`, `CdpClient`): requests, responses, timeouts
  and shutdown run in several threads; the protocol is a state machine over their atomic regions, and
  the client is a class whose methods refine its steps;
* the **plugin link** between the host and a plugin process (`PluginRpc`, `PluginWire`, `PluginTrips`,
  `RpcLog`, `RpcClient`): calls in both directions over FIFO channels, with nested calls, equal ids on
  both sides, 32-bit ids that are reused, timeouts and deferred notifications;
* the **star container** (`Words`, `StarParity`, `StarContainer`): parity weaving, section table,
  bounded load, sub-entries and the header-only asset walk, all on byte sequences;
* the **inline hooks** (`SnareDisasm`, `SnareLengths`, `SnareRelocate`, `SnareTrampoline`, `SnareHooks`):
  the x86-64 length disassembler as written, the trampoline builder working in place on an array, and
  the install/remove machine;
* the **configuration tree and its theme listener** (`JsonValue`, `Config`, `ThemeConfig`): a `set`
  that notifies a handler which itself calls `set`;
* the **Lua/JSON conversion** (`LuaJson`, `LuaTables`): a Lua state with stack and heap of tables;
* two **codecs** (`CommandLine`, `Base64`).

Each loop or state-changing operation is a method proved against a specification function, and
the theorems are about those functions.  What is not Millennium's own decision is a parameter that
the theorems quantify over: the interleaving of threads, the order in which maps, tables and
pending requests are visited, what peers and handlers answer, failing writes, the clock, the chain
function of the parity format where its injectivity is all that matters, decompression, the text
of a Lua number, and which themes exist on disk.

Where a promise turned out to depend on something, the exact condition is stated and proved both
ways, with an input that fails: ids of the DevTools client that wrap after 2^32 requests
(`QuiescentIsSettledIff`, `StrandsIff`, `WrappedIdStrandsRequest`), ids of the plugin link that are
reused (`WireGetsItsOwnReply`, `ReadIsOwnIff`, `ReusedIdGetsLateAnswer`), answers that could not be
written (`NothingIsLostIff`, `DroppedIsLost`), 64-bit sums in the
section table (`BoundedLoadAgreesIff`, `WrappedLimitLosesSection`, `WrappedLimitPassesTests`), a 32-bit
sum in the sub-entry parser (`PositionsCoincideIff`, `WrappedSumMisplacesEntry`), instructions copied
blindly into a trampoline (`MovedKeepsMeaning`, `LoopIsNotKept`) and branches into the bytes a hook
overwrites (`TrampolineEntersJumpIff`), saved bytes that already are the jump (`FlagsTellCode`,
`SavedJumpIsAmbiguous`), an active theme that is not a string (`HandlerSettles`, `NumberThrows`), keys
with a NUL (`LuaJson.RoundTrip`, `NulKeyIsCut`) and tokens that need quoting (`RoundTripIff`,
`PosixParseIsNotStable`).

`dafny verify dfyconfig.toml` checks the project.

## Model

| member | source | states |
|---|---|---|
| `CdpProtocol.IdOf` | src/include/millennium/cdp_api.h:157 | the id of the k-th request is the signed 32-bit number congruent to k + 1 modulo 2^32: the counter starts at 1 and wraps |
| `CdpProtocol.RegisterKeepsInv` | src/engine/cdp_api.cc:202-217 | registering a request, or rejecting it after shutdown began, keeps the ownership invariant |
| `CdpProtocol.FailSendKeepsInv` | src/engine/cdp_api.cc:223-235 | the failure path of a send keeps the ownership invariant |
| `CdpProtocol.LookupKeepsInv` | src/engine/cdp_api.cc:344-377 | taking a response's request out of the pending map keeps the ownership invariant |
| `CdpProtocol.WorkerExchangeKeepsInv` | src/engine/cdp_api.cc:344-377 | a worker's exchange of the completed flag keeps the ownership invariant: whoever wins holds the only right to settle |
| `CdpProtocol.WorkerSettleKeepsInv` | src/engine/cdp_api.cc:344-377 | a worker settling a promise after winning the exchange keeps the ownership invariant, every outcome so far being one that the fields of a received reply, a clock reading or a failure call for |
| `CdpProtocol.SweepRegionKeepsInv` | src/engine/cdp_api.cc:448-476 | collecting stale requests, in any iteration order, keeps the ownership invariant |
| `CdpProtocol.SweepExchangeKeepsInv` | src/engine/cdp_api.cc:448-476 | the sweeper's exchange of the completed flag keeps the ownership invariant |
| `CdpProtocol.SweepSettleKeepsInv` | src/engine/cdp_api.cc:448-476 | timing a request out keeps the ownership invariant |
| `CdpProtocol.DrainKeepsInv` | src/engine/cdp_api.cc:106-126 | draining the pending map in shutdown keeps the ownership invariant |
| `CdpProtocol.StepKeepsInv` | src/engine/cdp_api.cc:106-476 | every step of every thread keeps the ownership invariant: a pending request is unsettled and in nobody's hands, a completed unsettled one is held by exactly one thread |
| `CdpProtocol.RunKeepsInv` | src/engine/cdp_api.cc:106-476 | every interleaving of any length keeps the ownership invariant |
| `CdpProtocol.ExpiredIffOverdue` | src/engine/cdp_api.cc:452-458 | a request counts as stale exactly when its age in whole milliseconds is above its timeout |
| `CdpProtocol.SettledAtMostOnce` | src/engine/cdp_api.cc:176-476 | after every interleaving from the start, each promise has been settled at most once, and only with an outcome that really occurred: the result of a reply received under its id that carries no error, the text of the error of one that does, its own timeout having passed, its own send having failed, its send having been refused after shutdown began, or the drain |
| `CdpProtocol.SettledForGood` | src/engine/cdp_api.cc:176-476 | a settled promise keeps its outcome whatever happens next |
| `CdpProtocol.DrainedForGood` | src/engine/cdp_api.cc:106-126 | once shutdown has drained the map it stays empty in every continuation |
| `CdpProtocol.StrandedForGood` | src/engine/cdp_api.cc:176-476 | a request that is in no map and in no thread's hands, its sender having returned, stays unsettled in every continuation |
| `CdpProtocol.UntracksIff` | src/engine/cdp_api.cc:202-235 | while every unsettled request is tracked, a step changes that exactly when it takes the map entry of another request: by registering over it, or by erasing it after a failed send |
| `CdpProtocol.StrandsIff` | src/engine/cdp_api.cc:202-235 | a step strands a request exactly when it takes the entry of one already sent, or is the return of a sender whose entry was taken |
| `CdpProtocol.RunStrandsIff` | src/engine/cdp_api.cc:106-476 | a run strands nobody exactly when none of its steps does |
| `CdpProtocol.SameIdIff` | src/engine/cdp_api.cc:178-178 | two requests share an id exactly when they are a multiple of 2^32 apart |
| `CdpProtocol.FewRequestsEvictNothing` | src/engine/cdp_api.cc:202-235 | in a run of at most 2^32 requests no entry is ever taken from another request |
| `CdpProtocol.UnsettledIsOwnedIff` | src/engine/cdp_api.cc:176-476 | after any run of any length, every unsettled request is still being sent, in the map, or held by a thread about to settle it, exactly when no step stranded one |
| `CdpProtocol.UnsettledIsTracked` | src/engine/cdp_api.cc:176-476 | in a run of any length in which no registration met its id in the map and no failed send another request's entry, an unsettled request is still being created, in the map, or in a thread's hands |
| `CdpProtocol.QuiescentIsSettledIff` | src/engine/cdp_api.cc:106-126 | when shutdown is over and no thread is in the middle of anything, every future has been settled exactly once, exactly when no step of the run stranded a request |
| `CdpProtocol.QuiescentIsSettled` | src/engine/cdp_api.cc:106-126 | so it is in every run that takes no entry from another request, and in every run of at most 2^32 requests |
| `CdpProtocol.EvictedIsNeverSettled` | src/engine/cdp_api.cc:202-235 | conversely, a request whose entry is taken after its send had returned is never settled, whatever follows |
| `CdpProtocol.WrappedIdStrandsRequest` | src/engine/cdp_api.cc:202-217 | a run in which a request is sent and stays pending while 2^32 more are created, and which ends quiescent with the first future unsettled |
| `CdpProtocol.ProgressStep` | src/engine/cdp_api.cc:106-476 | short of quiescence some step other than a new request is enabled and leaves less work |
| `CdpProtocol.ShutdownCanFinish` | src/engine/cdp_api.cc:106-126 | so no reachable state is stuck: shutdown can be run to quiescence from each |
| `CdpProtocol.DrainedStepLowersWork` | src/engine/cdp_api.cc:106-476 | once the map is drained every enabled step other than a new request leaves strictly less work |
| `CdpProtocol.DrainedRunsEnd` | src/engine/cdp_api.cc:106-476 | so every run from there ends, under any scheduler: it has at most as many steps as work was left, and four for each request it creates |
| `CdpOutcomes.OutcomeHasEvent` | src/engine/cdp_api.cc:176-476 | after any run, whatever settled a request goes back to an event of that very run that calls for it: a reply under its id with that result or that error, a sweep at a time when it was overdue, its own failed send, its registration after shutdown began, or the drain |
| `CdpOutcomes.ReplySettles` | src/engine/cdp_api.cc:344-377 | a reply to a pending request, taken by the worker undisturbed, settles it with the text of its error if it carries one, else with its result, else as invalid; it leaves the map, and no other request changes |
| `CdpOutcomes.StrayReplyIsDropped` | src/engine/cdp_api.cc:352-358 | a reply whose id is not in the map changes no request and no entry |
| `CdpOutcomes.FailedSendSettles` | src/engine/cdp_api.cc:219-235 | a send that failed settles its request, unless another thread has been faster, and takes it out of the map |
| `CdpOutcomes.SentStaysPending` | src/engine/cdp_api.cc:202-222 | a send that succeeded leaves its request pending and unsettled |
| `CdpOutcomes.RefusedIsSettled` | src/engine/cdp_api.cc:202-217 | after shutdown began a request is settled at once and never enters the map |
| `CdpOutcomes.DrainSettles` | src/engine/cdp_api.cc:106-126 | the drain settles exactly the requests in the map and empties it |
| `CdpOutcomes.SweepSettlesOverdue` | src/engine/cdp_api.cc:448-476 | a sweep at any time, in any order, times out exactly the pending requests that are overdue then, and leaves all others and their entries as they were |
| `CdpClient.Client.constructor` | src/engine/cdp_api.cc:39-93 | a new client is the initial state of the protocol |
| `CdpClient.Client.CreateRequest` | src/engine/cdp_api.cc:176-200 | the request is appended with its start time and timeout, as the protocol's creation step says |
| `CdpClient.Client.Settle` | src/engine/cdp_api.cc:205-212 | a promise is set only by whoever finds the completed flag unset |
| `CdpClient.Client.RegisterRequest` | src/engine/cdp_api.cc:202-217 | refines the registration step: rejected once shutdown began, else entered in the map |
| `CdpClient.Client.RejectSend` | src/engine/cdp_api.cc:223-235 | refines the failure step |
| `CdpClient.Client.TakePending` | src/engine/cdp_api.cc:344-377 | refines the lookup step |
| `CdpClient.Client.CollectStale` | src/engine/cdp_api.cc:448-476 | one pass over the map, in any order, collects exactly the expired requests and refines the sweep step |
| `CdpClient.Client.DrainPending` | src/engine/cdp_api.cc:106-126 | the loop that releases every caller refines the drain step |
| `PluginRpc.CallerKeepsDown` | src/engine/child_process.cc:191-223 | the parent's call keeps the invariant of requests to the child |
| `PluginRpc.ReaderKeepsDownReply` | src/engine/child_process.cc:389-480 | the parent's reader keeps the invariant of responses to the parent: late ones are dropped |
| `PluginRpc.ReadInCallKeepsFrames` | src/lua_host/rpc.cc:90-143 | a message read by a waiting call keeps frames and stash matched |
| `PluginRpc.ReadInRunKeepsUpReply` | src/lua_host/rpc.cc:278-298 | a message read by the loop keeps the invariant of responses to the child: a stray response is dropped |
| `PluginRpc.StartCallKeepsFrames` | src/lua_host/rpc.cc:66-88 | starting a nested call keeps every unanswered request on the stack, each once |
| `PluginRpc.AnswerKeepsDownReply` | src/lua_host/rpc.cc:130-140 | answering a request keeps every response what its handler produced for that id |
| `PluginRpc.StepKeepsNotes` | src/lua_host/rpc.cc:125-128 | every step keeps dispatched, deferred and unread notifications together equal to those sent |
| `PluginRpc.StepKeepsInv` | src/engine/child_process.cc:191-480 | every step of either process keeps the whole invariant, with calls in flight both ways and equal ids on both sides; calls are numbered without bound |
| `PluginRpc.RunKeepsInv` | src/engine/child_process.cc:191-480 | every run of the two processes keeps the whole invariant |
| `PluginRpc.ParentGetsItsOwnReply` | src/engine/child_process.cc:191-223 | what the parent's call returns is the child handler's answer to that very request |
| `PluginRpc.ChildGetsItsOwnReply` | src/lua_host/rpc.cc:66-146 | what the child's call returns is the parent handler's answer to that very request |
| `PluginRpc.AnswersAreFinal` | src/engine/child_process.cc:389-480 | a recorded answer is never replaced and no request changes its body, in any continuation |
| `PluginRpc.PromiseSetAtMostOnce` | src/engine/child_process.cc:389-480 | whoever is about to set a promise of the parent finds it unset |
| `PluginRpc.StashFollowsFrames` | src/lua_host/rpc.cc:90-143 | while the link is up every stashed response belongs to an active frame, and with no frame the stash is empty |
| `PluginRpc.NotificationsInOrder` | src/lua_host/rpc.cc:202-298 | notifications are dispatched once each in the order sent, and none is held back when the loop polls |
| `PluginWire.WireStepThins` | src/engine/child_process.cc:191-223 | with ids cut to 32 bits, and no answer due that looks like the answer to another waiting call, every step does what it does with unbounded numbers, but for pending entries and stashed responses that are gone |
| `PluginWire.WireStepKeepsInv` | src/include/millennium/child_process.h:117 | with 32-bit ids, a step whose new id is fresh keeps the whole invariant and makes no two ids clash |
| `PluginWire.WireRunKeepsInv` | src/lua_host/include/rpc.h:73 | so does every run whose new ids are fresh: no call still waiting, and no request still to be answered, goes by them |
| `PluginWire.WireGetsItsOwnReply` | src/engine/child_process.cc:191-223 | in every such run each call of either side gets the answer to its own request |
| `PluginWire.EarlyRunIsFresh` | src/include/millennium/child_process.h:117 | the first 2^32 calls of either side have fresh ids, whatever happens in between |
| `PluginWire.RunKeepsOneEntry` | src/engine/child_process.cc:198-201 | m_pending holds one entry for an int, in every run |
| `PluginWire.ReadIsOwnIff` | src/engine/child_process.cc:401-413 | reading an answer settles no call but the one it answers, exactly when no other pending call goes by its id |
| `PluginWire.ClashMisdelivers` | src/engine/child_process.cc:401-424 | without freshness it goes wrong: a waiting call that goes by the id of an earlier one is handed the answer to that one when it is read |
| `PluginWire.ReusedIdGetsLateAnswer` | src/engine/child_process.cc:191-223 | a run from the start in which call 1 times out with its answer on the way and the call made 2^32 calls later returns that answer, its own request unhandled |
| `PluginTrips.StepKeepsTracked` | src/engine/child_process.cc:191-480 | every step but one keeps it so that, while the link is up, whoever waits has its request or the answer to it on the way, in a handler, or stashed |
| `PluginTrips.DroppedIsLost` | src/engine/child_process.cc:436-456 | that step is an answer of the parent's reader that could not be written: the child then waits for an answer that is nowhere |
| `PluginTrips.RunKeepsLost` | src/lua_host/rpc.cc:66-146 | and it waits for good, as long as the link is up |
| `PluginTrips.NothingIsLostIff` | src/engine/child_process.cc:191-480 | so in any run that ends with the link up every waiting call of either side has its request or the answer to it on the way, exactly when no answer of the parent failed to be written |
| `PluginTrips.QuietIsAnswered` | src/engine/child_process.cc:191-223 | in such a run, once nothing is on the way and no handler is active, no call of the parent is left waiting |
| `PluginTrips.DeathReleasesAll` | src/engine/child_process.cc:466-476 | when the reader loop dies every waiting call is told so, and no call that had its answer is touched |
| `PluginTrips.RunKeepsLive` | src/engine/child_process.cc:198-220 | in every run an entry of m_pending belongs to a call that has neither returned nor thrown |
| `RpcClient.Client.constructor` | src/lua_host/rpc.cc:38-40 | a new client has read nothing and holds nothing |
| `RpcClient.Client.Send` | src/lua_host/rpc.cc:56-64 | a failed write ends the connection and leaves no message |
| `RpcClient.Client.Stash` | src/lua_host/rpc.cc:120-122 | a response for another frame is kept under its id; it is rogue unless that id is active and not stashed yet |
| `RpcClient.Client.TakeOther` | src/lua_host/rpc.cc:112-142 | a message that is not the awaited response is stashed, deferred or served, losing no notification |
| `RpcClient.Client.ServeInCall` | src/lua_host/rpc.cc:130-139 | a request read while a call waits is handed to a handler and answered, notifications read meanwhile are deferred, none is lost |
| `RpcClient.Client.Serve` | src/lua_host/rpc.cc:130-139 | a handler is run for the request with its body, and while the link is up the last thing written is the response under the request's id with what that handler returned |
| `RpcClient.Client.Respond` | src/lua_host/rpc.cc:136-139 | the handler's answer is written under the request's id, or the link is gone |
| `RpcClient.Client.Handle` | src/lua_host/rpc.cc:130-139 | a handler may make any number of nested calls; it returns what it decided, and calls and answers written meanwhile are those decided on |
| `RpcClient.Client.AskNext` | src/lua_host/rpc.cc:66-146 | a nested call is made as decided, and every request read meanwhile is handled |
| `RpcClient.Client.AskParent` | src/lua_host/rpc.cc:77-88 | the request is written with its body under a fresh id, the last thing in the outbox, or the link is gone |
| `RpcClient.Client.Read` | src/lua_host/rpc.cc:97-100 | one message is taken off the socket |
| `RpcClient.Client.Call` | src/lua_host/rpc.cc:66-146 | a call that returns a value has written its request first and returns the response with its own id, read after the call began unless that id was rogue |
| `RpcClient.Client.TakeStashed` | src/lua_host/rpc.cc:92-103 | a response a nested call has read is handed to the frame it belongs to |
| `RpcClient.Client.AwaitArrival` | src/lua_host/rpc.cc:90-146 | the loop waits until its own response is read, is found in the stash, or can come no more |
| `RpcClient.Client.Await` | src/lua_host/rpc.cc:90-146 | the waiting loop returns only the response with its own id, over any nesting of calls made while it waits |
| `RpcClient.Client.AwaitTurn` | src/lua_host/rpc.cc:90-143 | one message read while waiting is the call's own response or is handled and lost to nobody |
| `RpcClient.Client.Dispatch` | src/lua_host/rpc.cc:202-208 | a notification is handed to the handler; those arriving meanwhile are deferred in order |
| `RpcClient.Client.DispatchHead` | src/lua_host/rpc.cc:210-219 | dispatching the head of a batch lets nothing overtake it |
| `RpcClient.Client.DrainDeferred` | src/lua_host/rpc.cc:210-219 | draining ends with nothing deferred, batches that arrive while draining included |
| `RpcClient.Client.ServeOne` | src/lua_host/rpc.cc:278-290 | a request taken by the loop itself is handed to a handler and answered |
| `RpcClient.Client.RunOne` | src/lua_host/rpc.cc:278-298 | one message of the loop: all notifications read up to its end are handed over in order, all requests read are handled |
| `RpcClient.Client.Run` | src/lua_host/rpc.cc:198-300 | however the loop ends, notifications were handed to handlers once each in arrival order, and so, with id and body, was every request read, as often as it was read; handlers returned what they decided; with the link up the responses written are exactly their answers under the ids they were asked under, the requests written are the calls they decided on with ids 1, 2, 3, and without a rogue response the stash is empty |
| `RpcLog.RunBooked` | src/lua_host/rpc.cc:130-139 | a handler run and the response written for it keep the written responses equal to the handlers' answers, in order |
| `RpcLog.AskWritten` | src/lua_host/rpc.cc:77-88 | a call written as decided keeps the written requests equal to the calls decided on, ids included |
| `RpcLog.BooksSay` | src/lua_host/rpc.cc:198-300 | what the books come to: answers written are the handlers' answers, requests written are the calls decided on, notifications and requests handled are those on record |
| `Words.ReadsWhatWasWritten` | src/engine/star_parser.cc:103-106 | reading a 32-bit word undoes writing it |
| `Words.WritesWhatWasRead` | src/engine/star_parser.cc:103-106 | writing a 32-bit word undoes reading it |
| `StarParity.FnvStepInState` | src/engine/star_parser.cc:125-128 | the FNV-1a step is injective in its state |
| `StarParity.FnvStepInByte` | src/engine/star_parser.cc:125-128 | the FNV-1a step is injective in its byte |
| `StarParity.ChainInState` | src/engine/star_parser.cc:193-200 | the chain over the four bytes of a word is injective in its state |
| `StarParity.ChainInValue` | src/engine/star_parser.cc:193-200 | the chain tells any two block xors apart |
| `StarParity.XorOf` | src/engine/star_parser.cc:223-225 | the loop computes the xor of the block |
| `StarParity.CheckBlock` | src/engine/star_parser.cc:214-231 | the length, xor, chain and index tests on one block give exactly the error of the specification |
| `StarParity.StripWith` | src/engine/star_parser.cc:202-240 | the stripping loop computes the specified data or error, for any chain function |
| `StarParity.StripParity` | src/engine/star_parser.cc:202-240 | star_strip_parity computes the specification with the FNV-1a chain |
| `StarParity.WovenLength` | src/engine/star_parser.cc:202-240 | a weaving is longer than its data by twelve bytes for every 64 begun |
| `StarParity.WovenAt` | src/engine/star_parser.cc:202-240 | byte i of the data stands at i + 12 * (i / 64) |
| `StarParity.StripUndoesWeave` | src/engine/star_parser.cc:202-240 | stripping a weaving gives the data back, for data of every length |
| `StarParity.StripUndoesWeaveOpen` | src/engine/star_parser.cc:202-240 | stripping gives the data back also when one empty block closes data of a whole number of blocks |
| `StarParity.AcceptedIsWoven` | src/engine/star_parser.cc:202-240 | an accepted stream is a weaving of what it strips to |
| `StarParity.StripAcceptsExactlyWeavings` | src/engine/star_parser.cc:202-240 | so a stream strips to d exactly when it is the weaving of d, or that plus an empty block when |d| is a multiple of 64 |
| `StarParity.EveryByteIsChecked` | src/engine/star_parser.cc:202-240 | changing any one byte of an accepted stream makes it rejected |
| `StarParity.FnvChainInjective` | src/engine/star_parser.cc:193-200 | the chain of the format is injective in both arguments |
| `StarParity.ChainRemembers` | src/engine/star_parser.cc:227-235 | for every injective chain: streams of equal length whose block xors differ in block k only have different stored values in exactly the blocks from k on |
| `StarParity.StoredChainsDiverge` | src/engine/star_parser.cc:227-235 | two accepted streams of equal length whose block xors differ in block k only store different rolling values in exactly the blocks from k on |
| `StarContainer.FoundBehindShimIff` | src/engine/star_parser.cc:365-396 | a container is found behind a shim, with the same sections, exactly when the shim is at most 4 MiB |
| `StarContainer.SectionsReadOwnEntries` | src/engine/star_parser.cc:391-410 | each section is read from its own 256 bytes, entries lying one behind the other inside the file: files that agree on them agree on that section |
| `StarContainer.ScanSections` | src/engine/star_parser.cc:401-427 | the loop refuses exactly a table with a section it must refuse, and finds the largest end of an eager section |
| `StarContainer.LoadBounded` | src/engine/star_parser.cc:356-436 | star_load_bounded computes the specified result |
| `StarContainer.XorDecode` | src/engine/star_parser.cc:119-123 | the loop in place computes the specified bytes |
| `StarContainer.XorDecodeTwice` | src/engine/star_parser.cc:119-123 | decoding is its own inverse |
| `StarContainer.LoadsIff` | src/engine/star_parser.cc:401-427 | a file with a readable table is refused exactly when an entry is required and of an unknown kind, or not deferred and longer than 256 MiB, read off the bytes of the entry |
| `StarContainer.KeepsSignature` | src/engine/star_parser.cc:419-433 | what is kept of a file ends 64 bytes, the place of the signature, behind the eager section that ends last, or with the file |
| `StarContainer.MaskBytes` | src/engine/star_parser.cc:119-123 | byte i is masked with 0x4D xor the low byte of i |
| `StarContainer.DecodeUndoesEncode` | src/engine/star_parser.cc:242-270 | a section that holds z, wherever it stands, woven and masked as its flags say, decodes to z if it is not compressed; if it is, for every decompressor to d exactly when z decompresses to d, and to a decompression error exactly when z does not decompress |
| `StarContainer.UnwrapsIff` | src/engine/star_parser.cc:264-270 | the bytes of a section decode to d exactly when they hold d, or a compressed form of d: no other bytes do |
| `StarContainer.DecodesFrom` | src/engine/star_parser.cc:242-262 | from a start inside the buffer a section is decoded from its own bytes, and only if all of them are there |
| `StarContainer.EagerFits` | src/engine/star_parser.cc:419-433 | what the loader keeps holds every eager section that lies inside the file |
| `StarContainer.LocateInside` | src/engine/star_parser.cc:242-262 | from a start inside the buffer the unsigned tests mean what they say: a section is used exactly when it lies inside |
| `StarContainer.PrefixDecodesIff` | src/engine/star_parser.cc:242-270 | a section decodes from a prefix of the file as from the whole file exactly when it lies outside the file or inside the prefix |
| `StarContainer.BoundedLoadAgreesIff` | src/engine/star_parser.cc:356-436 | for every file the loader accepts, sums wrapped or not, and every section of its table, deferred and encoded ones included: the bounded load decodes it as the whole file does exactly when a test on the limit and the file size holds |
| `StarContainer.BoundedLoadRefinesFullLoad` | src/engine/star_parser.cc:397-435 | absent 64-bit wrap, every non-deferred section decodes from the bounded buffer to the same bytes, or the same failure, as from the whole file |
| `StarContainer.WrappedLimitLosesSection` | src/engine/star_parser.cc:424-430 | a file whose sums wrap, for which the bounded load loses a section |
| `StarContainer.WrappedLimitPassesTests` | src/engine/star_parser.cc:258-262 | a file whose sums wrap to a limit before the container's start, where both unsigned tests of an encoded section pass although its bytes lie outside the buffer |
| `StarContainer.ReadEntry` | src/engine/star_parser.cc:272-299 | the two truncation tests, the entry and the next position, with its 32-bit sum |
| `StarContainer.ParseEntries` | src/engine/star_parser.cc:272-299 | star_parse_sub_entries computes the specified entries or fails |
| `StarContainer.WalkedIff` | src/engine/star_parser.cc:592-616 | the asset walk reads the first section of kind 5, and only one that is stored raw, is not empty and lies inside the file |
| `StarContainer.ReadAsset` | src/engine/star_parser.cc:625-651 | one header of the asset walk: its asset and where the stream stands next |
| `StarContainer.WalkAssets` | src/engine/star_parser.cc:625-651 | the loop of the asset walk computes the specified index |
| `StarContainer.PositionsCoincideIff` | src/engine/star_parser.cc:625-651 | parser and walk visit the same places exactly when no entry but the last makes the parser's 32-bit sum wrap |
| `StarContainer.AssetWalkAgreesWithParse` | src/engine/star_parser.cc:552-654 | for every assets section the parser accepts: the walk visits its places exactly under that condition, and then indexes exactly the names of the sub-entries, each (offset, length) slicing out of the file the data of the last sub-entry with that name |
| `StarContainer.SmallSectionsHaveShortEntries` | src/engine/star_parser.cc:272-299 | the condition of the former holds of every section below 4 GiB |
| `StarContainer.WrappedSumMisplacesEntry` | src/engine/star_parser.cc:295-295 | a file for which the sum wraps: the parser finds a name that star_read_asset_index does not have |
| `SnareDisasm.Decode` | thirdparty/libsnare.h:554-688 | the disassembler computes the specified length and displacement offset, or refuses |
| `SnareDisasm.DecodeFrom` | thirdparty/libsnare.h:597-687 | opcode tables, ModR/M, immediates and displacement, as specified |
| `SnareDisasm.DisasmLocal` | thirdparty/libsnare.h:554-688 | code that agrees on prefixes, opcode and ModR/M decodes alike: displacement and immediate bytes are never looked at |
| `SnareDisasm.InsnShape` | thirdparty/libsnare.h:554-688 | the displacement to fix up lies behind all examined bytes and inside the instruction, short branches are two bytes behind their prefixes |
| `SnareDisasm.SkipPrefixes` | thirdparty/libsnare.h:706-725 | the loop computes the specified prefix length |
| `SnareDisasm.SkipFindsOpcode` | thirdparty/libsnare.h:706-725 | the second prefix scan, which passes any number of REX bytes, finds the disassembler's opcode, or passes a whole one-byte instruction |
| `SnareLengths.LengthsWithoutOperand` | thirdparty/libsnare.h:498-516 | bare code whose opcode takes no ModR/M byte: opcode by opcode its length, 1, 2, 3, 4, 5 or 9 bytes, and the displacement of E8 and E9; 62, 9A, C4, C5 and EA are refused |
| `SnareLengths.LengthsWithOperand` | thirdparty/libsnare.h:498-516 | opcodes with a ModR/M byte: the length from its addressing form and the immediate, and where a RIP-relative displacement lies |
| `SnareLengths.LengthsOfGroupThree` | thirdparty/libsnare.h:631-646 | F6 and F7 carry an immediate exactly for operations 0 and 1 |
| `SnareLengths.FamiliesAreAll` | thirdparty/libsnare.h:498-516 | every byte that can start bare code is in one of these families |
| `SnareLengths.LengthsAfter0F` | thirdparty/libsnare.h:519-537 | the same for every opcode after 0F, near conditional branches with their displacement included |
| `SnareLengths.LengthsOfThreeByteMaps` | thirdparty/libsnare.h:602-613 | 0F 38 takes a ModR/M byte, 0F 3A also an immediate byte |
| `SnareLengths.LengthsUnderPrefix` | thirdparty/libsnare.h:562-596 | 66 halves full immediates and near branches, 67 the address of A0 to A3, REX.W doubles the immediate of B8 to BF only, and the other prefixes change nothing but the start |
| `SnareRelocate.ReadsWrittenI32` | thirdparty/libsnare.h:826-835 | a stored 32-bit displacement reads back unchanged exactly when it fits |
| `SnareRelocate.MovedShort` | thirdparty/libsnare.h:755-790 | EB and 70-7F, rewritten with a 32-bit displacement, keep absolute target and condition |
| `SnareRelocate.MovedDisplacement` | thirdparty/libsnare.h:822-836 | calls, jumps, conditional jumps and RIP-relative operands, their displacement adjusted, keep their absolute address and every other byte |
| `SnareRelocate.MovedVerbatim` | thirdparty/libsnare.h:822-823 | an instruction copied byte for byte keeps its meaning exactly when it is not relative or has not moved |
| `SnareRelocate.MovedKeepsMeaning` | thirdparty/libsnare.h:751-839 | a copy means at its new address what the original meant, except exactly E0-E3 and F6/F7 on a RIP-relative operand that really moved |
| `SnareRelocate.LoopIsNotKept` | thirdparty/libsnare.h:822-823 | a LOOP instruction whose copy goes somewhere else |
| `SnareTrampoline.CopyInto` | thirdparty/libsnare.h:822-823 | the bytes are written and no others |
| `SnareTrampoline.ShortTestIsExact` | thirdparty/libsnare.h:751-773 | the builder's test on raw bytes picks out exactly the short branches to rewrite |
| `SnareTrampoline.MoveShort` | thirdparty/libsnare.h:755-790 | a short branch is rewritten in place, or refused when the target is out of reach |
| `SnareTrampoline.CopyAndStore` | thirdparty/libsnare.h:822-836 | the copy is written, its word read back and shifted, and stored again exactly if it still fits |
| `SnareTrampoline.StoreDisplacement` | thirdparty/libsnare.h:822-836 | an instruction with a displacement is copied and fixed up, or refused when the new displacement does not fit |
| `SnareTrampoline.MoveCopy` | thirdparty/libsnare.h:822-838 | an instruction that is not rewritten is copied, and fixed up where it has a displacement |
| `SnareTrampoline.MoveInsn` | thirdparty/libsnare.h:735-839 | one instruction: properly placed, nothing before it touched |
| `SnareTrampoline.MoveNext` | thirdparty/libsnare.h:735-839 | one turn of the loop keeps all earlier instructions placed and adds the next, or cannot |
| `SnareTrampoline.BoundariesIncrease` | thirdparty/libsnare.h:735-749 | both offset lists increase strictly and a copy is at most three times as long |
| `SnareTrampoline.BoundariesFit` | thirdparty/libsnare.h:735-749 | with instructions of at most 15 bytes there are at most six boundaries, so the table of eight never fills, and all offsets are small |
| `SnareTrampoline.JumpMeans` | thirdparty/libsnare.h:455-461 | the two jump forms mean a transfer to their target |
| `SnareTrampoline.RelJumpReaches` | thirdparty/libsnare.h:691-702 | the relative jump reaches its destination exactly when the distance fits 32 bits |
| `SnareTrampoline.AbsJumpReaches` | thirdparty/libsnare.h:455-461 | the absolute jump always reaches its destination |
| `SnareTrampoline.ReturnJumpReaches` | thirdparty/libsnare.h:848-855 | from a page in rel32 range the jump back is never truncated |
| `SnareTrampoline.JumpBack` | thirdparty/libsnare.h:848-855 | the trampoline ends in a jump behind the moved code and fits its 59 bytes |
| `SnareTrampoline.BoundarySound` | thirdparty/libsnare.h:735-749 | what the builder needs of the code holds at every boundary it reaches; bytes inside an instruction are not constrained |
| `SnareTrampoline.MakeTrampoline` | thirdparty/libsnare.h:728-872 | on success all instructions covering five bytes are placed, the boundaries recorded and control returned; on failure, at a boundary reached, the next instruction is unsupported, a 66-prefixed near branch, or out of reach |
| `SnareTrampoline.TrampolineKeepsMeaning` | thirdparty/libsnare.h:728-872 | every moved instruction means what it meant at src, with exactly the exceptions named |
| `SnareTrampoline.TrampolineEntersJumpIff` | thirdparty/libsnare.h:728-872 | a moved branch leads past the first byte of the jump written over src exactly when the original branches to its own bytes 1 to 4, or, for the forms copied blindly, when the copy lies that close |
| `SnareHooks.ReadDstInvertsJump` | thirdparty/libsnare.h:1260-1265 | reading a written jump back gives its target exactly when the distance fits |
| `SnareHooks.HookReaches` | thirdparty/libsnare.h:911-936 | with a page near src the hook always reaches dst, directly or by the relay; without one, exactly when dst is in reach |
| `SnareHooks.FlipKeeps` | thirdparty/libsnare.h:1131-1171 | writing one hook keeps every other hook's bytes and all code outside the hooks |
| `SnareHooks.BatchKeeps` | thirdparty/libsnare.h:1197-1259 | a batch, with null and repeated entries, keeps flags and bytes matched and all other code unchanged |
| `SnareHooks.StepKeeps` | thirdparty/libsnare.h:1131-1259 | every operation keeps flags and bytes matched and all other code unchanged |
| `SnareHooks.RunKeeps` | thirdparty/libsnare.h:1131-1259 | every run of operations does |
| `SnareHooks.FlagsTellCode` | thirdparty/libsnare.h:1131-1259 | after any run, installed means the jump stands at src and not installed the saved bytes, both ways exactly when the two differ |
| `SnareHooks.SavedJumpIsAmbiguous` | thirdparty/libsnare.h:1131-1171 | a hook whose saved bytes already are its jump: not installed, and yet the jump stands at src |
| `SnareHooks.SameFlagsSameCode` | thirdparty/libsnare.h:1131-1259 | whatever was done in between, once the flags are back so is every byte of the code |
| `SnareHooks.RelayIsClear` | thirdparty/libsnare.h:911-936 | a relay stands behind the trampoline on its page, and is used exactly when the distance does not fit |
| `SnareHooks.InstallDoes` | thirdparty/libsnare.h:1143-1171 | installing succeeds exactly for a hook with a trampoline that is off: then its five bytes are the jump, its flag is set, and no other byte or flag changes; else the error is -22 and nothing changes |
| `SnareHooks.RemoveDoes` | thirdparty/libsnare.h:1172-1194 | removing succeeds exactly for a hook that is on: then its five bytes are the saved ones, and nothing else changes; else the error is -22 and nothing changes |
| `SnareHooks.StepObeys` | thirdparty/libsnare.h:1131-1259 | every operation leaves each hook in the state it asks for, and a hook it does not ask about alone |
| `SnareHooks.LastAskedWins` | thirdparty/libsnare.h:1131-1259 | after any run each hook is in the state last asked for, its bytes the jump or the saved ones accordingly |
| `SnareHooks.BatchCounts` | thirdparty/libsnare.h:1197-1259 | a batch sets exactly the listed hooks, null entries passed over, and returns how many flags it changed |
| `SnareHooks.HookTable.constructor` | thirdparty/libsnare.h:874-983 | new hooks are not installed and remember the bytes at src |
| `SnareHooks.HookTable.WriteBytes` | thirdparty/libsnare.h:1131-1141 | the five bytes and the flag change together |
| `SnareHooks.HookTable.InstallHook` | thirdparty/libsnare.h:1143-1171 | install returns 0 exactly for a hook with a trampoline that is off, and then the jump stands at src, the flag is set and all else is as before; otherwise -22 and nothing changes |
| `SnareHooks.HookTable.RemoveHook` | thirdparty/libsnare.h:1172-1194 | remove returns 0 exactly for a hook that is on, and then the saved bytes stand at src, the flag is cleared and all else is as before; otherwise -22 and nothing changes |
| `SnareHooks.HookTable.BatchOne` | thirdparty/libsnare.h:1204-1222 | one entry of a batch: null entries and hooks already there are passed over |
| `SnareHooks.HookTable.BatchLoop` | thirdparty/libsnare.h:1197-1259 | the loop over the entries computes the specified batch |
| `SnareHooks.HookTable.BatchAll` | thirdparty/libsnare.h:1197-1259 | afterwards every listed hook is as asked, all others as before, and the result is the number changed |
| `SnareHooks.IpRoundTrip` | thirdparty/libsnare.h:1099-1127 | moving an instruction pointer there and back is the identity exactly for pointers on a boundary of src or off every boundary of the trampoline |
| `SnareHooks.TrampolineIpRoundTrip` | thirdparty/libsnare.h:1099-1127 | each boundary of a trampoline goes to its partner and back |
| `SnareHooks.AdjustThreads` | thirdparty/libsnare.h:1099-1127 | the loops move every thread's pointer as specified |
| `Config.GetAfterSet` | src/system/config.cc:75-104 | after a set the path reads as the value, except exactly when null was to be stored where nothing stood |
| `Config.SetKeepsOthers` | src/system/config.cc:75-104 | every path neither above nor below the written one reads as before |
| `Config.SetMakesObjects` | src/system/config.cc:83-90 | everything above the written path is an object afterwards |
| `Config.SetSame` | src/system/config.cc:92-104 | storing what is there already changes nothing |
| `Config.SetKeepsKeys` | src/system/config.cc:75-104 | a set removes no top-level key |
| `Config.MergeAt` | src/system/config.cc:124-140 | after the merge a path is an object where the defaults have one, else what stood there, else the default |
| `Config.MergeTwice` | src/system/config.cc:124-140 | merging again changes nothing |
| `Config.MergeTwiceAddsNothing` | src/system/config.cc:124-140 | a second merge finds no leaf to announce |
| `Config.MergeKey` | src/system/config.cc:126-139 | one entry of the defaults is merged and exactly its added leaves announced |
| `Config.MergeInto` | src/system/config.cc:124-140 | the recursive loop computes the merge and announces exactly the added leaves, each once, whatever the order of keys |
| `Config.OverlayIsStored` | src/system/config.cc:275-282 | get_all is the stored tree exactly when every default top-level key is stored |
| `Config.GetAllIsStored` | src/system/config.cc:275-282 | after a merge and any run of sets, get_all is the stored tree |
| `Config.MergeSelf` | src/system/config.cc:124-140 | merging the defaults into themselves changes nothing |
| `Config.MergeIntoNothing` | src/system/config.cc:124-140 | merging the defaults into nothing gives the defaults |
| `Config.Manager.constructor` | src/system/config.cc:284-301 | a missing file is created from the defaults; the manager then holds what the file had, completed by the defaults, so the plain defaults on a fresh start; only a locked file disables saving |
| `Config.Manager.Get` | src/system/config.cc:47-63 | the loop reads the path, or gives the fallback |
| `Config.Manager.Assign` | src/system/config.cc:75-97 | the walk that makes objects on its way writes exactly the specified tree and reports the old value |
| `Config.Manager.Set` | src/system/config.cc:75-104 | a change is announced once, unless propagation is skipped, and an unchanged value never |
| `Config.Manager.Load` | src/system/config.cc:142-197 | what was stored, completed by the defaults, and the plain defaults for a missing, locked or malformed file; exactly the added leaves are announced, each once; a locked file disables saving |
| `Config.Manager.GetAll` | src/system/config.cc:275-282 | the loop computes the overlay |
| `ThemeConfig.RepairMakesValid` | src/bindings/theme_cfg.cc:340-414 | the default stored for a setting is valid for it |
| `ThemeConfig.RepairKeepsOthers` | src/bindings/theme_cfg.cc:340-414 | repairing one setting leaves every other valid one valid, with the same value |
| `ThemeConfig.ValidIsKept` | src/bindings/theme_cfg.cc:340-414 | a valid setting stays as it is through all repairs |
| `ThemeConfig.AllRepaired` | src/bindings/theme_cfg.cc:340-414 | after one pass every setting is valid |
| `ThemeConfig.StartingOver` | src/bindings/theme_cfg.cc:65-70 | starting the pass over after its first repairs comes to the same tree and the same announcements |
| `ThemeConfig.InvalidDrops` | src/bindings/theme_cfg.cc:340-414 | each repair lowers the number of invalid settings, the measure by which the recursion ends |
| `ThemeConfig.SettingsDistinct` | src/bindings/theme_cfg.cc:346-366 | settings of themes with distinct directory names live at distinct paths |
| `ThemeConfig.RepairFinishes` | src/bindings/theme_cfg.cc:65-70 | a repair in the middle of a pass runs the handler again, which finishes the whole pass |
| `ThemeConfig.Store.Set` | src/system/config.cc:92-103 | a set with the handler as listener ends, and leaves what one plain pass over the settings would |
| `ThemeConfig.Store.OnConfigChange` | src/bindings/theme_cfg.cc:65-70 | the re-entrant handler ends and equals one plain pass, tree and announcements; it throws exactly when the active theme is neither null nor a string |
| `ThemeConfig.Store.ValidateTheme` | src/bindings/theme_cfg.cc:138-147 | a missing or unknown active theme is reset; another type throws and changes nothing |
| `ThemeConfig.Store.Repair` | src/bindings/theme_cfg.cc:340-414 | one repair during the handler completes all of them |
| `ThemeConfig.Store.VisitCondition` | src/bindings/theme_cfg.cc:366-409 | one condition: left alone if valid, else reset to its default, which SliderReadsAs and ChoiceReadsAs spell out |
| `ThemeConfig.Store.SetupObject` | src/bindings/theme_cfg.cc:342-342 | the conditions are made an object first |
| `ThemeConfig.Store.SetupCondition` | src/bindings/theme_cfg.cc:366-409 | one entry of a theme: passed over when malformed, else visited |
| `ThemeConfig.Store.SetupTheme` | src/bindings/theme_cfg.cc:346-411 | the conditions of one theme are all visited, whether or not the handler ran again meanwhile |
| `ThemeConfig.Store.SetupConditionals` | src/bindings/theme_cfg.cc:340-414 | the loop over all themes leaves what one plain pass over the settings would |
| `ThemeConfig.HandlerSettles` | src/bindings/theme_cfg.cc:65-70 | every setting is valid afterwards exactly when the handler does not throw; valid choices keep their value; a second run changes and announces nothing |
| `ThemeConfig.ActiveReadsAs` | src/bindings/theme_cfg.cc:138-147 | what the handler leaves of the active theme: the stored name if it is "default" or known, "default" if there was none, null or an unknown name; any other value stops it and nothing changes |
| `ThemeConfig.SliderReadsAs` | src/bindings/theme_cfg.cc:368-386 | what the handler leaves of a slider: the string that was there, else its default text or number, else its minimum, else "0" |
| `ThemeConfig.ChoiceReadsAs` | src/bindings/theme_cfg.cc:388-409 | what the handler leaves of a choice: the stored value if it is one of its values, else the default if that is one of them, else the first |
| `ThemeConfig.DecimalIsWorth` | src/bindings/theme_cfg.cc:373-378 | the text of a number is its decimal digits, with a sign if it is negative |
| `ThemeConfig.RepairsAreAnnounced` | src/bindings/theme_cfg.cc:340-414 | each setting that was invalid is announced with the value then read, and there are no more announcements than such settings |
| `ThemeConfig.NumberThrows` | src/bindings/theme_cfg.cc:138-147 | a number stored as the active theme makes the handler throw |
| `LuaJson.IndicesAreFirst` | src/lua_host/main.cc:255-277 | as many positive integers as the largest of them are exactly 1..n |
| `LuaJson.ScanResult` | src/lua_host/main.cc:255-277 | the test after the scan holds exactly of tables whose keys are 1..n with n > 0 |
| `LuaJson.ConvertsToArrayIff` | src/lua_host/main.cc:277-292 | a table that converts becomes an array exactly when its keys are 1..n for some n > 0 |
| `LuaJson.ReadsBack` | src/lua_host/main.cc:251-354 | a pushed value converts back to itself with empty arrays as empty objects, and fails exactly when nested deeper than 64 |
| `LuaJson.RoundTrip` | src/lua_host/main.cc:251-387 | what was pushed converts back to the value under cut keys, normalised; this is the value itself, normalised, exactly when no key contains a NUL |
| `LuaJson.CutEndsAtNul` | src/lua_host/main.cc:380-383 | a key stored by lua_setfield is its part before the first NUL, and the key itself exactly when it has none |
| `LuaJson.SeenIsValueIff` | src/lua_host/main.cc:380-383 | under cut keys a value is the same value exactly when none of its keys has a NUL |
| `LuaJson.NulKeyIsCut` | src/lua_host/main.cc:251-387 | an object with the key "a", NUL, "b", pushed and read back, has the key "a" |
| `LuaJson.HeldNesting` | src/lua_host/main.cc:251-387 | a pushed value is nested in Lua exactly as deep as in JSON |
| `LuaJson.HoldsStays` | src/lua_host/main.cc:356-387 | what a table holds survives every later allocation and store above it |
| `LuaJson.Lua.PushJson` | src/lua_host/main.cc:356-387 | the stack grows by exactly one value that holds the JSON value; it throws exactly when nested too deep; older tables are untouched; a value nested no deeper than n takes at most n stack slots beyond that one, and no value more than 65 |
| `LuaJson.Lua.PushArray` | src/lua_host/main.cc:371-377 | an array becomes a table with keys 1..n whose entries hold its items |
| `LuaJson.Lua.PushItems` | src/lua_host/main.cc:373-377 | the array loop stores every item in order |
| `LuaJson.Lua.PushItem` | src/lua_host/main.cc:374-377 | one element is pushed and stored under the next index |
| `LuaJson.Lua.PushObject` | src/lua_host/main.cc:378-383 | an object becomes a table that holds its fields |
| `LuaJson.Lua.PushFields` | src/lua_host/main.cc:379-383 | all fields are stored into the new table, which then holds the object |
| `LuaJson.Lua.PushEach` | src/lua_host/main.cc:380-383 | the object loop, in any order of keys, stores every field |
| `LuaJson.Lua.PushField` | src/lua_host/main.cc:380-383 | one field is pushed and stored under its key, cut at a NUL |
| `LuaJson.Lua.StoreField` | src/lua_host/main.cc:382-382 | the value just pushed becomes the field and nothing else changes |
| `LuaJson.Lua.StoreBelow` | src/lua_host/main.cc:376-382 | a store pops the value and changes one entry of one table |
| `LuaJson.Lua.Next` | src/lua_host/main.cc:259-276 | lua_next takes the key and leaves the next key and value, or nothing |
| `LuaJson.Lua.ScanKeys` | src/lua_host/main.cc:255-277 | the scan leaves the stack as it was and recognises exactly the arrays |
| `LuaJson.Lua.ValueToJson` | src/lua_host/main.cc:326-354 | any Lua value, cyclic tables included, converts as specified with the stack restored; a failure leaves the older stack intact; what it visits being nested no deeper than n, it takes at most 2n + 3 stack slots, and never more than 131 |
| `LuaJson.Lua.ReadArray` | src/lua_host/main.cc:279-292 | the array loop converts the entries 1..n, what JSON cannot express becoming null |
| `LuaJson.Lua.ReadItem` | src/lua_host/main.cc:281-290 | one element is pushed, converted and popped |
| `LuaJson.Lua.ReadEntry` | src/lua_host/main.cc:296-322 | one entry is added to the object, or the conversion fails |
| `LuaJson.Lua.ReadObject` | src/lua_host/main.cc:294-323 | the object loop, in whatever order the runtime visits keys |
| `LuaJson.Lua.ReadField` | src/lua_host/main.cc:297-320 | one entry: its JSON key and value, dropped when either has none |
| `LuaTables.PlainConverts` | src/lua_host/main.cc:326-354 | nil and the null sentinel become null, booleans, numbers and strings themselves, and functions and other pointers have no JSON |
| `LuaTables.ArrayConverts` | src/lua_host/main.cc:255-292 | any table with the keys 1..n becomes the array of its n entries in order, null standing for what JSON cannot express, and fails exactly when an entry does |
| `LuaTables.ObjectConverts` | src/lua_host/main.cc:294-323 | any other table becomes an object that has an entry c exactly when some key, a string or the text of a number, reads as c and its value has JSON; of several such keys the one visited last wins |
| `LuaTables.FieldsAre` | src/lua_host/main.cc:294-323 | the same for any list of keys |
| `LuaTables.LastGivenWins` | src/lua_host/main.cc:294-323 | of several keys that read alike the last one visited that has JSON wins |
| `LuaTables.FailsIff` | src/lua_host/main.cc:326-354 | converting any value fails exactly when what it visits is nested deeper than 64 |
| `LuaTables.CyclesAreRejected` | src/lua_host/main.cc:326-330 | a value from which string or number keys lead into a cycle is never converted |
| `CommandLine.ScanQuoted` | src/util/cmdline_parser.cc:98-135 | a clean token, quoted as needed, is read as itself |
| `CommandLine.ScanBuilt` | src/util/cmdline_parser.cc:78-135 | what was built from clean tokens is read back token by token |
| `CommandLine.TokensReadable` | src/util/cmdline_parser.cc:114-135 | a parse yields no empty token, no NUL, and on Windows no double quote |
| `CommandLine.TokensCount` | src/util/cmdline_parser.cc:114-135 | parsing neither loses nor makes a backslash |
| `CommandLine.QuotedCount` | src/util/cmdline_parser.cc:98-112 | quoting off Windows adds one backslash for every backslash and double quote |
| `CommandLine.RoundTripIff` | src/util/cmdline_parser.cc:78-135 | parse(build(c)) is c exactly when c is empty or all its tokens are non-empty, free of NUL and double quote, and off Windows free of backslash wherever quoting is needed |
| `CommandLine.WindowsParseIsStable` | src/util/cmdline_parser.cc:78-135 | with Windows quoting parse(build(parse(s))) is parse(s) for every s |
| `CommandLine.PosixParseIsNotStable` | src/util/cmdline_parser.cc:78-135 | off Windows that fails for a double quote read inside single quotes |
| `CommandLine.RemoveAfterEnsure` | src/util/cmdline_parser.cc:54-76 | removing a parameter just ensured equals removing it alone |
| `CommandLine.LastEnsureWins` | src/util/cmdline_parser.cc:54-66 | of two values ensured for one key the later counts and nothing else changes |
| `CommandLine.RemovedHasNone` | src/util/cmdline_parser.cc:68-76 | no match is left after removing |
| `CommandLine.Entry` | src/util/cmdline_parser.cc:54-56 | the entry stored for a key is one that remove_param recognises |
| `CommandLine.EntrySpells` | src/util/cmdline_parser.cc:54-56 | the entry is the key, followed by "=" and the value if there is one |
| `CommandLine.EnsuredInPlace` | src/util/cmdline_parser.cc:54-66 | a key that is there, alone or with a value, is given its value where it stands first; all other parameters stay as and where they are |
| `CommandLine.EnsuredInFront` | src/util/cmdline_parser.cc:54-66 | a key that is not there is put in front of the others |
| `CommandLine.RemovedInTwo` | src/util/cmdline_parser.cc:68-76 | removing takes out the key with or without a value wherever it stands, and keeps the rest in order |
| `CommandLine.QuotedIff` | src/util/cmdline_parser.cc:98-112 | on Windows a token with a space or "=" is put in double quotes, elsewhere one with a space, tab or quote |
| `CommandLine.UnescapeUndoesEscape` | src/util/cmdline_parser.cc:104-111 | off Windows what stands between the quotes is the token with quotes and backslashes escaped: taking the escapes back gives the token |
| `CommandLine.Command.constructor` | src/util/cmdline_parser.cc:33-36 | the command parsed from a text; none from a null pointer |
| `CommandLine.Command.Flush` | src/util/cmdline_parser.cc:137-146 | the first token becomes the executable, later ones parameters; the token is cleared and no longer the first |
| `CommandLine.Command.Parse` | src/util/cmdline_parser.cc:114-135 | the loop with its quote state computes the specified tokens |
| `CommandLine.Command.QuoteToken` | src/util/cmdline_parser.cc:98-112 | the loop computes the specified quoting |
| `CommandLine.Command.Build` | src/util/cmdline_parser.cc:78-87 | the loop computes the specified text |
| `CommandLine.Command.EnsureParam` | src/util/cmdline_parser.cc:54-66 | the first match is replaced, or the entry put in front |
| `CommandLine.Command.RemoveParam` | src/util/cmdline_parser.cc:68-76 | every match is removed and the rest kept in order |
| `Base64.EncodedLength` | src/system/crypto.cc:60-75 | the encoded length is 4*ceil(n/3) |
| `Base64.Alphabet` | src/system/crypto.cc:39-58 | values 0 to 63 are A to Z, a to z, 0 to 9, + and /, in this order, and the inverse table has -1 for every other character |
| `Base64.InverseOfLetter` | src/system/crypto.cc:39-58 | the inverse table undoes the alphabet, and no letter is the padding sign |
| `Base64.InsertionKeepsDecoded` | src/system/crypto.cc:77-97 | a character outside the alphabet other than the padding sign may be inserted anywhere |
| `Base64.PaddingEnds` | src/system/crypto.cc:83-85 | nothing behind a padding sign is read |
| `Base64.TakeFour` | src/system/crypto.cc:86-94 | four letters give three bytes whatever is left in the 32-bit accumulator |
| `Base64.EncodedBits` | src/system/crypto.cc:60-75 | letter p of the text stands for bits 6p to 6p + 5 of the data, zeros added past its end, and is the padding sign once the bits are used up, as section 4 of RFC 4648 says |
| `Base64.RoundTrip` | src/system/crypto.cc:60-97 | decoding an encoding gives the bytes back, for all byte strings |
| `Base64.Encode` | src/system/crypto.cc:60-75 | the loop computes the specified text |
| `Base64.Decode` | src/system/crypto.cc:77-97 | the loop, with its accumulator cut to 32 bits, computes the specified bytes |

## Left out

- PluginRpc.StepKeepsInv: numbers calls without bound; PluginWire.WireStepKeepsInv is the same for 32-bit ids.
- PluginRpc.RunKeepsInv: numbers calls without bound; PluginWire.WireRunKeepsInv is the same for 32-bit ids.
- PluginRpc.ParentGetsItsOwnReply: numbers calls without bound; PluginWire.WireGetsItsOwnReply is the same for 32-bit ids.
- PluginRpc.ChildGetsItsOwnReply: numbers calls without bound; PluginWire.WireGetsItsOwnReply is the same for 32-bit ids.
- PluginWire.WireGetsItsOwnReply: fresh ids are sufficient for whole runs; that they are necessary is proved where an answer is read, by ReadIsOwnIff and ClashMisdelivers, and not for every answer still due, since a dead link may keep it from ever arriving.
- PluginTrips.NothingIsLostIff: numbers calls without bound; where ids are fresh PluginWire.WireStepThins carries every step over to 32-bit ids.
- RpcClient.Client.Call: ids do not wrap in this class.
- RpcClient.Client.Run: coroutines and watched descriptors are not modelled; a handler's decisions are read from a script fixed before the run, so the message streams are finite.
- StarContainer.AssetWalkAgreesWithParse: speaks of sections the parser accepts and of at most 65536 entries, the number at which the walk gives up.
- StarContainer.BoundedLoadRefinesFullLoad: file sizes are below 2^63, as stream offsets are signed.
- SnareTrampoline.MakeTrampoline: assumes, as the buffer size of the source does, that the code at src, from each boundary reached, is readable and its instruction not longer than 15 bytes; near branches under an operand-size prefix get no meaning, and the builder may refuse or accept them.
- SnareRelocate.MovedKeepsMeaning: the meaning of prefixes on branches is not modelled, nor is any agreement of the opcode tables with the processor manual.
- SnareHooks.HookTable.BatchAll: one method for the install and the remove batch, which differ only in the flag; memory protection, instruction cache and thread freezing are not modelled.
- Config.MergeInto: listeners that react during the merge are not modelled (none is registered when the configuration is loaded); a note carries the path as its segments, the source joins them with dots.
- Config.Manager.Load: a stored document is an object; one that is valid JSON of another kind, the backup of a malformed file and the saving itself are not modelled.
- ThemeConfig.Store.OnConfigChange: the colour settings (written without propagation) and the webkit hooks set up after the conditions are not modelled; a slider's minimum is a number (any other kind would throw), numbers are whole, and themes on disk stay the same during a run.
- LuaJson.Lua.PushJson: the source visits keys in sorted order, the model in any, so which of several keys that are cut alike wins is left open.
- LuaJson.RoundTrip: numbers are reals, so what lua_Number cannot represent exactly is not modelled, and neither are out-of-memory errors of the Lua runtime.
- Signatures, decompression, JSON text, sockets, files, processes and clocks are foreign and stay parameters or are left out.
- The 32-bit x86 and ARM64 paths of libsnare, its PLT/IAT/Mach-O walking and the search for a near page are not part of this model.
- Event listeners of the DevTools client, the queue of incoming messages and its back-pressure, script injection, installers, updaters, logging and platform start-up are not modelled.
