# A model of the LoM agent

LoM is a device-health agent. An engine detects anomalies and runs mitigation sequences, plugin
processes run actions in threads, and channels connect them. This project models the five places
where its correctness is not obvious and proves what they promise, over every input, every run and
every interleaving.

**The signalled ring** (`SignalRing`, `RingProperties`, `CacheData`). One writer and one reader share
a bounded ring, two counters, two indices and a pipe with one token per write, without a lock. Each
statement of `write` and `read` is one move of a step relation, and a run is any sequence of moves.
`CacheData` is the same code as an object whose methods let the other thread run between any two
statements; every statement is recorded as a move, so what is proved of runs holds of the object.
`TestClient` adds the one-slot look-ahead in front of the ring and the broadcast to all clients.
`DeliverySystem` puts the engine's thread and every client's thread together, one ring per client,
again statement by statement.

**The mitigation engine** (`Mitigation`, `MitigationHandler`, `MitigationEngine`,
`MitigationProperties`, `MitigationStory`, `MitigationConfig`, `AnomalyHandler`). Any number of
handlers share one lock with expiry. Each walks its action sequence, gathers a context and publishes
states. The functions say what each method does to one handler and to the shared part; the class and the loops are proved equal to them; the
properties hold in every state that the loop can reach. Each handler keeps its own trace of events as
history, and the grammar, the guards and the contexts are read off that trace.

**The plugin holder** (`HolderSteps`, `HolderProperties`, `HolderHistory`, `PluginHolder`). The main thread
and a request thread share `response`, `req_end`, the thread object and a pipe whose signals coalesce.
Again each statement is a move, and both threads' code is also given as methods of the object.

**Transport, messages and sessions** (`Framing`, `TransportSteps`, `TransportProperties`, `Transport`;
`Codec`, `ServerMessage`; `ClientSession`, `ClientLibrary`). Length-prefixed messages over FIFOs, read
by one engine from many clients; the typed message codec over JSON trees; and the client library's
session protocol over static state.

**The flap detector** (`LinkFlap`). A sliding window per interface, for any `flap_cnt` of at least one.

Where the source changes things step by step the model does too: classes with the source's fields,
arrays filled in place, loops with invariants. Each such method is tied to a function on values, and
the theorems are about those functions.

## Assumptions

- Instance ids are fresh, each outstanding request is answered at most once, and an answer names the
  action that was asked for (`MitigationEngine.Answers`).
- Plugins answer with a response object, never with None.
- `write_action_response` is given action_response messages where the session discipline is claimed.
  `OnlyResponsesAreSafe` says exactly which other messages would keep it, and the contract of
  `Client.WriteActionResponse` when the function dereferences the result of a failed decode.
- Writes to a pipe are whole. New descriptors are larger than the ones opened before.
- Waiting without bound is cut off by a parameter: `rounds` in `CacheData.Read` and the length of
  `selects` in `Client.PollForData` say after how many rounds shutdown is seen.

## Where the code and its documentation differ

The model follows the code.

- `src-c-python/lib/README:31-45` promises that all ready descriptors are read in turn before the next
  poll. `read_data` (`src-c-python/lib/transport.cpp:181-206`) tests the return code of a poll that it
  skips while descriptors are cached, so that code stays 0 and nothing is read. `ReadDelivers` and
  `ReadLeavesOver` give the exact conditions, `SecondClientIsNeverRead` a run.
- `src-c-python/lib/README:21-29` says that the terminating NUL is sent. `write_data` sends the bytes
  without it.
- `read_data` does not pass its timeout on to the poll.
- In `create_server_msg` the check after `set` has its message as its condition
  (`src-c-python/lib/lom_lib.cpp:55-57`), so refused pairs are dropped without an error.
  `DecodesExactly` states what that means.
- `yang-models/yang-models/common/action.yang:147-155` describes one publication without mitigation, as
  NO-LOCAL-MITIGATION, and a PENDING state. The engine publishes init and then complete with result
  code -1, and no PENDING.
- At three places the code would fail while logging, and the model takes the path that is meant: the
  mismatch reports of `process_plugin_response` (`src-c-python/python_plugins/tests/test_main.py:207-227`),
  the log line before a restart (line 291 there), and the busy branch of `_chk_thread_done`
  (`src-c-python/python_plugins/src/plugin_proc.py:262-267`).

## Model

| member | source | states |
|---|---|---|
| `RingProperties.NoLostWakeUp` | `src-c-python/python_plugins/tests/lib/test_client.py:88-148` | In every interleaving of one writer and one reader, outside the reader's drain-to-count stretch the pipe holds a token for every unread item but the one about to be signalled; with both threads between calls, at least wr_cnt - rd_cnt; and the blocking os.read of a drain always finds a token |
| `RingProperties.StrayTokenBound` | `src-c-python/python_plugins/tests/lib/test_client.py:88-148` | Completed reads exceed drained tokens by at most two, so the pipe never holds more than limit + 2 tokens, however long the run |
| `RingProperties.StrayTokenBoundIsTight` | `src-c-python/python_plugins/tests/lib/test_client.py:88-148` | For every positive limit some run does reach limit + 2 tokens |
| `RingProperties.ItemsComeOutInOrder` | `src-c-python/python_plugins/tests/lib/test_client.py:99-148` | At any moment the returned items are a prefix of the accepted ones, the counters differ by 0 to limit, and between calls each index is its counter modulo the limit |
| `RingProperties.CopiedSlotIsStable` | `src-c-python/python_plugins/tests/lib/test_client.py:107-143` | A slot about to be copied holds the oldest unread item, and the writer never stores into it |
| `RingProperties.RefinesQueue` | `src-c-python/python_plugins/tests/lib/test_client.py:99-148` | Linearisability: every single statement of either thread is a step of a bounded FIFO queue; an overflow answer means that the queue was full at that moment, an empty answer that it was empty |
| `RingProperties.NonEmptyRingIsReadable` | `src-c-python/python_plugins/tests/lib/test_client.py:122-148` | Between calls a non-empty ring has a token, and a read with any timeout, run alone, returns the oldest unread item |
| `RingProperties.EmptyAnswersAreDue` | `src-c-python/python_plugins/tests/lib/test_client.py:116-148` | A read answers empty only after its timeout in rounds of two seconds, a shutdown, or a token left by an earlier read; it never waits longer than its timeout, nor past the round in which shutdown comes |
| `RingProperties.ReaderLeavesTheWriterAlone` | `src-c-python/python_plugins/tests/lib/test_client.py:122-148` | Any number of the reader's statements leave the fields that only the writer assigns as they were |
| `RingProperties.WriterLeavesTheReaderAlone` | `src-c-python/python_plugins/tests/lib/test_client.py:99-113` | Any number of the writer's statements leave the fields that only the reader assigns as they were and only extend the accepted items |
| `SignalRing.SlotIsMod` | `src-c-python/python_plugins/tests/lib/test_client.py:108-110` | Advancing by one and wrapping at the limit gives the n-th item slot n modulo limit |
| `SignalRing.SlotsDiffer` | `src-c-python/python_plugins/tests/lib/test_client.py:99-113` | Two items that can be in the ring together never share a slot |
| `SignalRing.StepKeepsInv` | `src-c-python/python_plugins/tests/lib/test_client.py:88-148` | One statement of either thread keeps the relation between counters, indices, slots, tokens and the two positions |
| `SignalRing.RunKeepsInv` | `src-c-python/python_plugins/tests/lib/test_client.py:88-148` | That relation holds after every interleaving |
| `CacheDataModule.CacheData.constructor` | `src-c-python/python_plugins/tests/lib/test_client.py:69-77` | A new ring is the start of a run |
| `CacheDataModule.CacheData.TestRoom` | `src-c-python/python_plugins/tests/lib/test_client.py:102-105` | The room test, with the reader free to run around it, refuses only when the ring was full at some moment since the call |
| `CacheDataModule.CacheData.StoreItem` | `src-c-python/python_plugins/tests/lib/test_client.py:107-110` | Slot store and index advance, with the reader running between them, are the writer's next moves |
| `CacheDataModule.CacheData.CountItem` | `src-c-python/python_plugins/tests/lib/test_client.py:111-112` | Counter first and signal second, with the reader running between them, are the writer's last moves |
| `CacheDataModule.CacheData.Write` | `src-c-python/python_plugins/tests/lib/test_client.py:99-113` | With a reader interfering at every statement: true iff exactly this item was appended, false only if the ring was full at some moment during the call |
| `CacheDataModule.CacheData.SpendRound` | `src-c-python/python_plugins/tests/lib/test_client.py:124-128` | A round takes at most two seconds and never more than is left of a positive timeout; other timeouts stay |
| `CacheDataModule.CacheData.AwaitSignal` | `src-c-python/python_plugins/tests/lib/test_client.py:124-132` | One round of the wait ends with the pipe ready or goes back to the loop test with the reduced timeout, and takes no token |
| `CacheDataModule.CacheData.Wait` | `src-c-python/python_plugins/tests/lib/test_client.py:123-132` | The wait loop ends at the drain and returns nothing by itself |
| `CacheDataModule.CacheData.DrainSignal` | `src-c-python/python_plugins/tests/lib/test_client.py:88-92` | Takes at most one token, and never blocks although the writer interferes |
| `CacheDataModule.CacheData.CopyItem` | `src-c-python/python_plugins/tests/lib/test_client.py:139-139` | The slot that is copied has an entry, and it is the oldest item not handed out yet |
| `CacheDataModule.CacheData.TakeIfAny` | `src-c-python/python_plugins/tests/lib/test_client.py:136-148` | After the drain: one item, or an empty answer only if the ring was empty at some moment |
| `CacheDataModule.CacheData.Read` | `src-c-python/python_plugins/tests/lib/test_client.py:122-148` | With a writer interfering at every statement: returns the next accepted item, or nothing and then the ring was empty at some moment during the call |
| `TestClient.Client.ReadReq` | `src-c-python/python_plugins/tests/lib/test_client.py:331-351` | Keeps a taken slot; else reads the ring, fills the slot with the item if it is for this client, drops it otherwise, and reads nothing only if the ring was empty during the call |
| `TestClient.Client.ReadActionRequest` | `src-c-python/python_plugins/tests/lib/test_client.py:354-366` | Hands out the slot, or the request read for it, empties the slot, and reads nothing only if the ring was empty during the call |
| `TestClient.Poll` | `src-c-python/python_plugins/tests/lib/test_client.py:379-395` | Returns the first non-empty answer of select, or nothing after exactly as many rounds of at most two seconds as the timeout allows, or once shutdown is seen |
| `TestClient.Client.PollForData` | `src-c-python/python_plugins/tests/lib/test_client.py:400-420` | Ends at the first select that decides: a plugin's descriptor without the signal gives it, a signal after which the slot is filled gives -1, a used-up positive timeout gives -2; without one it ends only when all selects are used. After a signal the answer is -1 iff the slot is filled, and nothing was read only if the ring was empty |
| `TestClient.Client.LookAhead` | `src-c-python/python_plugins/tests/lib/test_client.py:331-366` | Requests handed out, then the slot, then the filtered ring contents, always equal the filter of everything the ring accepted |
| `TestClient.ServerWriteRequest` | `src-c-python/python_plugins/tests/lib/test_client.py:450-461` | A broadcast reaches each client's ring exactly once or finds that ring full; anything but one action request writes nowhere |
| `DeliverySystem.NextKeepsInv` | `src-c-python/python_plugins/tests/lib/test_client.py:331-366` | One statement of the engine's broadcast or of any client keeps, for every client, the ring's invariant, the filter of what was read and the answers of write in step with the broadcasts |
| `DeliverySystem.RingsHoldWhatTheyHadRoomFor` | `src-c-python/python_plugins/tests/lib/test_client.py:450-461` | In every run of the engine's thread and all clients, statement by statement, each ring has accepted exactly the broadcasts for which its write found room |
| `DeliverySystem.RefusedOnlyWhenFull` | `src-c-python/python_plugins/tests/lib/test_client.py:99-113` | A ring gives one answer per broadcast, and a no only when its queue is full at that moment |
| `DeliverySystem.NothingIsLostOnTheWay` | `src-c-python/python_plugins/tests/lib/test_client.py:331-366` | In every run, for every client: handed out, then the slot, then its share of the ring's contents equal its share of all that the ring accepted |
| `DeliverySystem.DeliveredToOwnerOnly` | `src-c-python/python_plugins/tests/lib/test_client.py:331-366` | In every run a client hands out a subsequence of the broadcasts, and an action request only if it registered that action; with disjoint action sets no other client hands it out |
| `DeliverySystem.EverythingIsDelivered` | `src-c-python/python_plugins/tests/lib/test_client.py:331-366` | With the broadcasts over, the slot and the ring empty, a client has handed out exactly its share of the broadcasts that found room, and of all broadcasts if all did |
| `DeliverySystem.EveryRequestArrives` | `src-c-python/python_plugins/tests/lib/test_client.py:331-366` | With the broadcasts over, slot and ring empty and room for all, a client has handed out every shutdown and every action request for an action it registered, as often as it was broadcast, and nothing else |
| `DeliverySystem.RequestsAreBroadcast` | `src-c-python/python_plugins/tests/lib/test_client.py:450-461` | Between broadcasts exactly the single-key action requests are taken on |
| `DeliverySystem.ReadTakesTheOldest` | `src-c-python/python_plugins/tests/lib/test_client.py:331-366` | A read call with an empty slot and a non-empty ring, undisturbed, takes the oldest item, keeps it iff it is a shutdown or for a registered action, and from the slot it is handed out |
| `MitigationProperties.MutualExclusion` | `src-c-python/python_plugins/tests/test_main.py:305-343` | In every reachable state of any number of handlers: the lock flag is set iff exactly one handler is Locked, a nonzero expiry implies Locked, a handler at index 0 neither holds nor awaits the lock, and no handler is dropped while Locked |
| `MitigationProperties.LockErrorsAreUnreachable` | `src-c-python/python_plugins/tests/test_main.py:248-260` | In every reachable state, a response that begins mitigation finds its handler's lock neither held nor waited for, so neither error branch is taken and the handler goes on waiting for the lock |
| `MitigationProperties.EngineNeverStalls` | `src-c-python/python_plugins/tests/test_main.py:505-552` | In every reachable state with a tracked handler some handler's request is outstanding, so the loop has an answer to wait for |
| `MitigationProperties.GuardedMitigation` | `src-c-python/python_plugins/tests/test_main.py:149-164` | Every request for index 1 or more was written by a handler holding the lock, never after a timeout in its sequence; every outstanding request belongs to the handler waiting for it, which past the anomaly holds the lock or has lost it by expiry |
| `MitigationProperties.PublicationGrammar` | `src-c-python/python_plugins/tests/test_main.py:171-187` | At every moment the states published since a sequence began are a prefix of init, in-progress*, (timeout, in-progress*)?, complete, and a sequence that published anything is complete before the next begins |
| `MitigationProperties.ContextExactness` | `src-c-python/python_plugins/tests/test_main.py:149-164` | Every request for the k-th action names it and carries a context whose keys are exactly the names of actions 0..k-1, each with the data of its latest good response in this sequence |
| `MitigationProperties.ResultCodes` | `src-c-python/python_plugins/tests/test_main.py:236-280` | Every published result code tells what happened: init carries its response's code, timeout -3; complete carries -1 without mitigation, else the failing response's code, else 0 iff every action answered well, and otherwise -2 and then the lock had expired |
| `MitigationProperties.ResponsesAreBounded` | `src-c-python/python_plugins/tests/test_main.py:236-302` | A handler takes at most one response per action and run before it is done, whatever result codes and timeouts occur |
| `MitigationProperties.ResponseLowersMeasure` | `src-c-python/python_plugins/tests/test_main.py:236-302` | Every accepted response lowers (runs left, actions left) lexicographically, and the handler is done iff no run is left |
| `MitigationProperties.ResponseReachesItsHandler` | `src-c-python/python_plugins/tests/test_main.py:530-546` | A response to an outstanding request is processed by the one handler that waits for it, wherever it stands, and changes no other handler |
| `MitigationProperties.SweepGrantsTheLock` | `src-c-python/python_plugins/tests/test_main.py:330-336` | A sweep that finds the lock free and some handler Pending locks the first Pending one, writes its one request and leaves all others as they were |
| `MitigationProperties.SweepKeepsTheLock` | `src-c-python/python_plugins/tests/test_main.py:548-552` | A sweep with an unexpired holder, or with the lock free and nobody Pending, changes nothing |
| `MitigationProperties.SweepReleasesTheHolder` | `src-c-python/python_plugins/tests/test_main.py:338-343` | A sweep past the holder's expiry releases it and publishes the timeout; the first Pending handler after it gets the lock in the same sweep, and without one nothing else changes |
| `MitigationStory.LockLastsItsTime` | `src-c-python/python_plugins/tests/test_main.py:305-343` | In every reachable state a Locked handler was granted the lock at some time t, and a sweep takes it away iff the clock read for it is past t plus the mitigation timeout |
| `MitigationStory.SweepGrantsAreTimed` | `src-c-python/python_plugins/tests/test_main.py:308-317` | Whoever becomes Locked in a sweep was Pending and is granted the lock at the clock read for it |
| `MitigationStory.MitigationBeginsAtOnce` | `src-c-python/python_plugins/tests/test_main.py:295-302` | A good response for the anomaly takes a free lock at once, at the time of the response, and requests the first mitigation action; with the lock taken the handler waits |
| `MitigationStory.RequestsCarryTheAnomaly` | `src-c-python/python_plugins/tests/test_main.py:149-160` | Every request carries the id of its sequence's first request as anomaly id, and the first key that a response of the sequence named |
| `MitigationStory.ResponsesArePublished` | `src-c-python/python_plugins/tests/test_main.py:229-234` | Every response taken is published next, the first as the anomaly in state init and later ones as they came, and nothing else is published so |
| `MitigationStory.HeartbeatsArePublished` | `src-c-python/python_plugins/tests/test_main.py:171-187` | A heartbeat for a handler's present action and request is published by that handler, once: as it came before the anomaly is out, afterwards as the anomaly in progress with its last code; nothing else changes |
| `MitigationStory.StrayMessagesAreIgnored` | `src-c-python/python_plugins/tests/test_main.py:195-201` | A response or heartbeat that is for no handler's present action and request changes nothing |
| `MitigationConfig.HandlersAreConfigured` | `src-c-python/python_plugins/tests/test_main.py:490-502` | Handlers start in configuration order, and at all times those tracked and those done are exactly the configured ones, each with its name and bindings as sequence, its run count and its timeout |
| `MitigationHandler.RespondRuns` | `src-c-python/python_plugins/tests/test_main.py:195-302` | Whatever the response, the handler keeps its lock shape, its publication order, its exact context and its response count |
| `MitigationHandler.RespondShares` | `src-c-python/python_plugins/tests/test_main.py:195-302` | A response changes the lock, the ids and the outstanding requests only in the handler's own part |
| `MitigationHandler.ResumeRuns` | `src-c-python/python_plugins/tests/test_main.py:330-343` | The same for resume: a handler's own invariant survives acquiring, expiring and doing nothing |
| `MitigationHandler.ResumeShares` | `src-c-python/python_plugins/tests/test_main.py:330-343` | Resume changes the lock, the ids and the outstanding requests only in the handler's own part |
| `MitigationHandler.HeartbeatRuns` | `src-c-python/python_plugins/tests/test_main.py:171-187` | A heartbeat, for the handler or not, keeps the handler's invariant |
| `MitigationHandler.StartRuns` | `src-c-python/python_plugins/tests/test_main.py:126-146` | Starting a sequence from rest establishes the handler's invariant |
| `MitigationEngine.StartAllInv` | `src-c-python/python_plugins/tests/test_main.py:493-502` | Starting every configured handler establishes the engine's invariant |
| `MitigationEngine.OfferResponseKeepsInv` | `src-c-python/python_plugins/tests/test_main.py:530-546` | Offering a response to the handlers in order until one ends a sequence keeps the invariant |
| `MitigationEngine.OfferHeartbeatKeepsInv` | `src-c-python/python_plugins/tests/test_main.py:530-543` | Offering a heartbeat to the handlers in order keeps the invariant |
| `MitigationEngine.DropKeepsInv` | `src-c-python/python_plugins/tests/test_main.py:544-546` | Dropping a finished handler strands neither the lock nor a request |
| `MitigationEngine.SweepKeepsInv` | `src-c-python/python_plugins/tests/test_main.py:548-552` | A resume sweep with any clock readings keeps the invariant |
| `MitigationEngine.PassKeepsInv` | `src-c-python/python_plugins/tests/test_main.py:505-552` | One pass of the loop keeps the invariant |
| `MitigationEngine.ReachedInv` | `src-c-python/python_plugins/tests/test_main.py:505-552` | So does every sequence of passes |
| `AnomalyHandlerModule.AnomalyHandler.Start` | `src-c-python/python_plugins/tests/test_main.py:126-146` | The object's start is the specified one, and true iff runs are left |
| `AnomalyHandlerModule.AnomalyHandler.WriteRequest` | `src-c-python/python_plugins/tests/test_main.py:149-164` | A fresh id, the anomaly id on first use, and the request for the present action with the present context become outstanding |
| `AnomalyHandlerModule.AnomalyHandler.ProcessHeartbeat` | `src-c-python/python_plugins/tests/test_main.py:171-187` | Taken iff action and instance id are the present ones; publishes the anomaly as in-progress once it exists |
| `AnomalyHandlerModule.AnomalyHandler.ManageLock` | `src-c-python/python_plugins/tests/test_main.py:305-327` | Acquires only a pending, free lock and releases only a held one, on the handler and on the global flag together, with the expiry that LockLastsItsTime rests on |
| `AnomalyHandlerModule.AnomalyHandler.Resume` | `src-c-python/python_plugins/tests/test_main.py:330-343` | The object's resume is the specified one |
| `AnomalyHandlerModule.AnomalyHandler.Judge` | `src-c-python/python_plugins/tests/test_main.py:236-267` | The verdict on a result code, the index and the lock state are the specified ones in all six branches |
| `AnomalyHandlerModule.AnomalyHandler.Finish` | `src-c-python/python_plugins/tests/test_main.py:269-293` | Release, final publication, run count and restart are the specified ones |
| `AnomalyHandlerModule.AnomalyHandler.ProcessResponse` | `src-c-python/python_plugins/tests/test_main.py:195-302` | The object's whole response processing is the specified one; true iff the response was taken and ended a sequence |
| `AnomalyHandlerModule.StartHandlers` | `src-c-python/python_plugins/tests/test_main.py:493-502` | Builds and starts one handler object per configured anomaly, as specified |
| `AnomalyHandlerModule.Sweep` | `src-c-python/python_plugins/tests/test_main.py:548-552` | The loop of resume calls over the handler objects is the specified sweep |
| `AnomalyHandlerModule.OfferResponse` | `src-c-python/python_plugins/tests/test_main.py:530-546` | The response loop with its break and the removal of a done handler is the specified dispatch |
| `AnomalyHandlerModule.OfferHeartbeat` | `src-c-python/python_plugins/tests/test_main.py:530-543` | The heartbeat loop with its break is the specified dispatch |
| `AnomalyHandlerModule.RunPass` | `src-c-python/python_plugins/tests/test_main.py:505-552` | One pass over the handler objects is the specified pass and keeps the engine's invariant |
| `AnomalyHandlerModule.RunLoop` | `src-c-python/python_plugins/tests/test_main.py:505-552` | The while loop over the tracked handlers ends in exactly the state that the specified passes lead to |
| `HolderProperties.ExactlyOnce` | `src-c-python/python_plugins/src/plugin_proc.py:238-326` | In every interleaving the i-th response written is the plugin's answer to the i-th accepted request, at most one accepted request is unanswered or unwritten, and the 'Expect response' branch is never reached |
| `HolderProperties.OneLiveThread` | `src-c-python/python_plugins/src/plugin_proc.py:254-326` | At most one request thread of a holder is alive |
| `HolderProperties.NoLostCompletion` | `src-c-python/python_plugins/src/plugin_proc.py:220-251` | While a thread has raised its last signal, its response is unwritten and main is outside handle_response, the pipe is non-empty, although one drain may swallow many signals |
| `HolderProperties.CompletionIsWritten` | `src-c-python/python_plugins/src/plugin_proc.py:277-298` | Such a completion is found by the poll, and one undisturbed handle_response writes exactly the last answer and clears both flags |
| `HolderProperties.HeartbeatIsSent` | `src-c-python/python_plugins/src/plugin_proc.py:277-288` | With no request ended, one undisturbed handle_response sends one heartbeat iff there was a new touch, marks it as sent and drains up to 100 bytes |
| `HolderHistory.ExactlyOnceFromTheCalls` | `src-c-python/python_plugins/src/plugin_proc.py:238-326` | Told by the calls alone: the responses written are the plugin's results in order, each for the request that was passed in and got a thread, with at most one outstanding |
| `HolderHistory.EveryCallAnswersOrBeats` | `src-c-python/python_plugins/src/plugin_proc.py:277-301` | However the threads interleave, a call of handle_response writes one response and no heartbeat, or none, and then it ends with the present touch marked and one heartbeat sent iff that touch was new |
| `HolderHistory.TouchIsLatest` | `src-c-python/python_plugins/src/plugin_proc.py:193-193` | The touch that main looks at is always the time of the plugin's latest touch |
| `HolderHistory.NoLostTouch` | `src-c-python/python_plugins/src/plugin_proc.py:185-195` | A signalled touch that main has neither looked at nor passed over for a response leaves the pipe non-empty outside handle_response |
| `HolderHistory.SignalsStayWhole` | `src-c-python/python_plugins/src/plugin_proc.py:220-235` | The pipe never holds part of a signal |
| `HolderHistory.RequestRunsToItsEnd` | `src-c-python/python_plugins/src/plugin_proc.py:238-251` | From the plugin's return a thread alone sets the response, then req_end, raises one signal and dies |
| `HolderHistory.RequestIsStartedOrDropped` | `src-c-python/python_plugins/src/plugin_proc.py:304-326` | send_request, undisturbed, drops the request while the last thread lives or its response is unwritten, and starts a new thread with it otherwise |
| `HolderProperties.ThreadsGuarantee` | `src-c-python/python_plugins/src/plugin_proc.py:185-251` | However many statements the request threads run, they change only their own fields, only add answers and signals, and never take back a response or req_end; with the newest thread dead they change nothing |
| `HolderProperties.MainGuarantee` | `src-c-python/python_plugins/src/plugin_proc.py:277-326` | However many statements main runs, it leaves a request thread where it stands, with its touch and answers, and while the thread lives also its request |
| `HolderSteps.StepKeepsInv` | `src-c-python/python_plugins/src/plugin_proc.py:185-326` | One statement of main or of a request thread keeps the relation between threads, requests, answers, flags and signals |
| `HolderSteps.RunKeepsInv` | `src-c-python/python_plugins/src/plugin_proc.py:185-326` | That relation holds after every interleaving |
| `PluginHolderModule.LoMPluginHolder.DrainSignal` | `src-c-python/python_plugins/src/plugin_proc.py:228-235` | One read of up to 100 bytes, with the thread interfering, loses no answer and no req_end |
| `PluginHolderModule.LoMPluginHolder.SendHeartbeat` | `src-c-python/python_plugins/src/plugin_proc.py:198-203` | One heartbeat iff the touch differs from the one sent last |
| `PluginHolderModule.LoMPluginHolder.HandOver` | `src-c-python/python_plugins/src/plugin_proc.py:290-298` | With req_end set there is a response; it is written once, and afterwards response is None and req_end is clear |
| `PluginHolderModule.LoMPluginHolder.HandleResponse` | `src-c-python/python_plugins/src/plugin_proc.py:277-301` | With the request thread interfering at every statement: at most one response is written, always the next answer in order, and certainly one if req_end was set at the call; if none is written the present touch is marked as sent, with one heartbeat iff it is new |
| `PluginHolderModule.LoMPluginHolder.CheckThreadDone` | `src-c-python/python_plugins/src/plugin_proc.py:254-274` | True only when the last thread is dead, and always then |
| `PluginHolderModule.LoMPluginHolder.SendRequest` | `src-c-python/python_plugins/src/plugin_proc.py:304-326` | A request is accepted whole or dropped whole; dropped while a response is pending, and with the last thread dead accepted iff none is |
| `PluginHolderModule.LoMPluginHolder.DoTouchHeartbeat` | `src-c-python/python_plugins/src/plugin_proc.py:185-195` | With main interfering: the time is stored, then the signal raised, and the thread goes on with its request |
| `PluginHolderModule.LoMPluginHolder.RunRequest` | `src-c-python/python_plugins/src/plugin_proc.py:238-251` | With main interfering at every statement and any number of touches: exactly one answer, the plugin's result for the request that was kept, and the thread is dead |
| `LinkFlap.ReportsExactlyBursts` | `src-c-python/python_plugins/src/vendors/sonic/actions/link_flap.py:40-57` | With non-decreasing times, a down event is reported iff some flap_cnt down events of its interface in the whole history, itself included, span at most flap_int |
| `LinkFlap.WindowAgreesWithHistory` | `src-c-python/python_plugins/src/vendors/sonic/actions/link_flap.py:48-53` | Looking at the newest flap_cnt times decides the search over all subsets of the history |
| `LinkFlap.InterfacesAreIndependent` | `src-c-python/python_plugins/src/vendors/sonic/actions/link_flap.py:42-46` | The times, and so the reports, of an interface depend on its own events only |
| `LinkFlap.DownTracks` | `src-c-python/python_plugins/src/vendors/sonic/actions/link_flap.py:42-49` | Append and trim keep every stored list equal to the last min(n, flap_cnt) times of its interface |
| `LinkFlap.Trim` | `src-c-python/python_plugins/src/vendors/sonic/actions/link_flap.py:48-49` | The pop loop leaves exactly the newest entries |
| `LinkFlap.Detector.Record` | `src-c-python/python_plugins/src/vendors/sonic/actions/link_flap.py:40-49` | The stored list after a down event is the interface's newest times, and all other lists are untouched |
| `LinkFlap.Detector.Receive` | `src-c-python/python_plugins/src/vendors/sonic/actions/link_flap.py:37-58` | One event is reported iff the window says so, with the spanned time; any other event sends one heartbeat |
| `LinkFlap.Detector.Request` | `src-c-python/python_plugins/src/vendors/sonic/actions/link_flap.py:35-58` | Returns at the first event of the stream that is to be reported, with its interface and span, and only there |
| `Framing.SizeOfHeader` | `src-c-python/lib/transport.cpp:209-231` | The four header bytes read back as the size that was written |
| `Framing.CStringKeepsAll` | `src-c-python/lib/transport.cpp:234-238` | Reading a buffer as a C string keeps all of it iff it holds no zero byte |
| `Framing.FrameRoundTrip` | `src-c-python/lib/transport.cpp:209-242` | A written message is read back unchanged iff it is at most 2048 bytes long and free of zero bytes; up to that length the reader stays in step whatever follows |
| `Framing.ReadOldest` | `src-c-python/lib/transport.cpp:223-242` | A pipe of whole frames gives up its oldest message and keeps the others |
| `TransportProperties.EachClientIsReadInOrder` | `src-c-python/lib/transport.cpp:292-362` | For any interleaving of complete writes and reads, the messages read under a client's name are a prefix, in order, of those it wrote, told by the writes alone, and its pipe holds exactly the frames of the rest; nothing is read under other names |
| `TransportProperties.ReadsAreNoted` | `src-c-python/lib/transport.cpp:348-362` | What a read hands out is appended to what counts as read, and nothing else is |
| `TransportProperties.MapsInvertEachOther` | `src-c-python/lib/transport.cpp:292-314` | The fd-to-client map inverts the client-to-fd map iff the configured names are distinct |
| `TransportProperties.ReadDelivers` | `src-c-python/lib/transport.cpp:181-206` | A read delivers a message iff some pipe holds one and no descriptor is left over from an earlier poll |
| `TransportProperties.ReadLeavesOver` | `src-c-python/lib/transport.cpp:181-206` | A read leaves descriptors over iff some were left over before or the poll found at least two |
| `TransportProperties.LeftOversBlockTheReader` | `src-c-python/lib/README:31-45` | The documented round robin fails: with a descriptor left over no later read delivers anything, whatever is written |
| `TransportProperties.ReaderStaysOpen` | `src-c-python/lib/transport.cpp:181-206` | After any run from the start the reader is free of left-over descriptors iff each read of the run found at most one client with unread messages |
| `TransportProperties.SecondClientIsNeverRead` | `src-c-python/lib/README:31-45` | A concrete run: two clients write one message each, the first is read and the second never |
| `TransportSteps.WriteKeepsInv` | `src-c-python/lib/transport.cpp:316-346` | A complete write keeps every pipe equal to the frames of what its client wrote and the engine has not read |
| `TransportSteps.ReadKeepsInv` | `src-c-python/lib/transport.cpp:181-206` | A read keeps the same |
| `TransportSteps.OpenInv` | `src-c-python/lib/transport.cpp:292-314` | Opening one FIFO per name, repeated names included, establishes it |
| `Transport.PathsDiffer` | `src-c-python/lib/transport.cpp:384-399` | Different clients have different FIFO paths |
| `Transport.GetPath` | `src-c-python/lib/transport.cpp:384-399` | No path iff the whole path does not fit into 100 bytes |
| `Transport.ReaderWriter.PollForData` | `src-c-python/lib/transport.cpp:133-165` | Fills the array in place with exactly the descriptors that have data, in order |
| `Transport.ReaderWriter.ReadOne` | `src-c-python/lib/transport.cpp:223-242` | One header and one body leave the pipe, or the header alone when the size is out of bounds |
| `Transport.ReaderWriter.WriteData` | `src-c-python/lib/transport.cpp:209-220` | Appends the frame of the message to the pipe |
| `Transport.ServerTransport.ReadData` | `src-c-python/lib/transport.cpp:181-206` | The object's read_data is the specified read, and keeps the invariant |
| `Transport.ServerTransport.Read` | `src-c-python/lib/transport.cpp:348-362` | The message with its client's name, or two empty strings |
| `Transport.ServerTransport.ClientWrite` | `src-c-python/lib/transport.cpp:316-346` | A client's write of any message through the path of its own name lands in the pipe that the engine reads for it, and fails iff the engine does not know the name; a message that the transport can carry keeps the invariant |
| `Transport.OpenReadEnds` | `src-c-python/lib/transport.cpp:300-305` | Opens the read ends in order and succeeds iff every name has a path |
| `Transport.InitServerTransport` | `src-c-python/lib/transport.cpp:473-494` | Null iff there are no names or one of them is too long; otherwise the maps, the descriptor list and the empty pipes are the specified ones |
| `Codec.NamesAreKinds` | `src-c-python/common/consts.h:21-26` | The six type names tell the types apart and nothing else names one |
| `Codec.BuiltBySet` | `src-c-python/lib/lom_lib.cpp:84-100` | Sequences of set calls build exactly the data whose keys are declared and whose required values are not empty |
| `Codec.DecodesToProjection` | `src-c-python/lib/lom_lib.cpp:26-65` | A single-key object of strings with a known type decodes iff every required key is present and non-empty, to the projection onto the declared keys |
| `Codec.DecodesExactly` | `src-c-python/lib/common.cpp:161-180` | Which objects decode and to what: an iff over all objects and all messages |
| `Codec.WhatMessagesCarry` | `src-c-python/common/server.h:52-105` | Key by key over all six types: which values a message must have to decode, and which keys of it are kept |
| `Codec.RoundTrip` | `src-c-python/common/server.h:21-48` | A message decodes from its own text to itself iff set could have built it and validate accepts it |
| `Codec.SameTextSameMessage` | `src-c-python/lib/lom_lib.cpp:102-106` | Equality of type and data is equality of the texts |
| `Codec.DecodedIsValid` | `src-c-python/lib/lom_lib.cpp:26-82` | Whatever decodes is complete, buildable and survives the wire again |
| `ServerMessage.ServerMsg.Set` | `src-c-python/lib/lom_lib.cpp:84-100` | Refuses an undeclared key and an empty required value and then changes nothing; otherwise updates that key only |
| `ServerMessage.ServerMsg.Validate` | `src-c-python/lib/lom_lib.cpp:68-82` | The loop over the required keys answers true iff all are present and non-empty |
| `ServerMessage.ServerMsg.Equals` | `src-c-python/lib/lom_lib.cpp:102-106` | True iff both objects have the same text |
| `ServerMessage.ServerMsg.ActionRequest` | `src-c-python/common/server.h:84-94` | A new action request is empty and has the four required and four optional keys |
| `ServerMessage.ServerMsg.ActionResponse` | `src-c-python/common/server.h:97-105` | A new action response is empty and has the eight required keys |
| `ServerMessage.ConvertToJson` | `src-c-python/lib/common.cpp:132-144` | The loop builds the single-key object of all pairs |
| `ServerMessage.GetParams` | `src-c-python/lib/common.cpp:146-159` | Fails iff some value is not a string, else collects every pair |
| `ServerMessage.ConvertFromJson` | `src-c-python/lib/common.cpp:161-180` | One key gives a type and its parameters; no key or several give no type |
| `ServerMessage.CreateServerMsg` | `src-c-python/lib/lom_lib.cpp:26-65` | Null unless the object decodes, else a new object with exactly the decoded message, in whatever order the pairs are set |
| `ClientSession.SessionsFollowOneAnother` | `src-c-python/lib/lom_lib.cpp:113-237` | Over any sequence of calls: a transport iff a name; on the wire no session opens inside another, everything else is sent inside one and bears its name |
| `ClientSession.RegisteredOncePerSession` | `src-c-python/lib/lom_lib.cpp:188-203` | Between two registrations of one action a session began or ended |
| `ClientSession.HeartbeatsNameRegisteredActions` | `src-c-python/lib/lom_lib.cpp:209-237` | Every heartbeat names an action registered earlier in the same session |
| `ClientSession.EveryMessageDecodes` | `src-c-python/lib/lom_lib.cpp:26-65` | Whatever the library puts on the wire, create_server_msg decodes to what was sent |
| `ClientSession.MessagesSayWhatWasCalled` | `src-c-python/lib/lom_lib.cpp:113-290` | After any calls the next one puts exactly one message on the wire iff its conditions hold, with the caller's own action, instance and data under the session's name; a deregistration always ends the session |
| `ClientSession.OnlyResponsesAreSafe` | `src-c-python/lib/lom_lib.cpp:269-290` | write_action_response keeps the session discipline iff its message is a response, or a heartbeat of a registered action |
| `ClientSession.RegisteredMeans` | `src-c-python/lib/lom_lib.cpp:188-203` | What counting as registered means, in positions on the wire |
| `ClientSession.SessionMeans` | `src-c-python/lib/lom_lib.cpp:113-176` | What an open session means, in positions on the wire |
| `ClientSession.StepKeepsInv` | `src-c-python/lib/lom_lib.cpp:113-290` | Every call, successful or not, keeps state and wire in agreement |
| `ClientLibrary.Client.RegisterClient` | `src-c-python/lib/lom_lib.cpp:113-150` | Succeeds iff the name is not empty, no transport exists and both transport calls succeed; otherwise nothing changes |
| `ClientLibrary.Client.DeregisterClient` | `src-c-python/lib/lom_lib.cpp:153-176` | Resets the state always, and sends the closing message iff a transport exists and its write succeeds |
| `ClientLibrary.Client.RegisterAction` | `src-c-python/lib/lom_lib.cpp:179-206` | Succeeds iff the action is new and not empty and the write succeeds |
| `ClientLibrary.Client.TouchHeartbeat` | `src-c-python/lib/lom_lib.cpp:208-237` | Succeeds iff the action is registered, the instance id is not empty and the write succeeds |
| `ClientLibrary.Client.WriteActionResponse` | `src-c-python/lib/lom_lib.cpp:268-290` | Dereferences a null message iff there is a transport and the text does not decode; otherwise sends any decoded message under the session's name, and a response keeps the session discipline |

## Left out

- TransportSteps.WriteKeepsInv: messages over 2048 bytes or with a zero byte are excluded, because the reader cannot recover them (`Framing.FrameRoundTrip` says exactly when it can).
- Transport.ReaderWriter.ReadOne: a pipe with fewer than four bytes, from which the source would take a size that is partly unset, is excluded; with whole writes it does not occur (`TransportSteps.PipeCanBeRead`).
- CacheDataModule.CacheData.Wait: the unbounded wait for a signal is cut off after `rounds` empty rounds, when shutdown is seen; that the wait ends otherwise is not claimed.
- DeliverySystem.EverythingIsDelivered: a write into a full ring is dropped and ignored, as in the source, so a broadcast that found no room is not delivered.
- TestClient.Client.PollForData: what select returns is a parameter, not derived from the pipes.
- PluginHolderModule.LoMPluginHolder.SendHeartbeat: which instance id a heartbeat carries is not modelled, because touch and instance_id are set in separate steps.
- Transport.InitServerTransport: mknod and open never fail for a path that fits; the engine-to-client direction and set_client_mode work alike and are not modelled.
- Partial writes, end of file, closed peers, poll errors and the contents of wake-up tokens.
- Progress and fairness of the transport beyond the exact condition for one read.
- JSON text syntax, duplicate keys and parse exceptions: a message is a tree whose top level is an object.
- The expectations in the test configuration, configured instance ids and timeouts, and result strings: they only reach log lines or are copied through.
- The comparison of anomaly ids and keys in a response: a mismatch is only logged.
- read_action_request, write_server_message and read_server_message: they add no state to the codec and the transport.
- Configuration files, registration polling, logging, signal handlers, argument parsing and plugin import.
- link_down.py, link_safety.py, helpers.py, lom_ut.cpp, the ZMQ transport and the YANG schemas.
