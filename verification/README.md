# Verified models of the bot API server and its end-to-end encrypted bridge

Three parts of the repository are modelled and proved: the webhook delivery
scheduler (`telegram-bot-api/WebhookActor.cpp`), the encrypted sessions and board
messages of the MCP server (`mcp-server/src`), and the client registry with the life
of queries and their statistics (`ClientManager.cpp`, `Query.cpp`, `Stats.h`).
`dafny verify dfyconfig.toml` checks everything.

## The webhook scheduler

The actor loads updates from a persistent log, keeps them in one queue for each
queue id, and holds an index of the queues whose head may be sent, ordered by
wake-up time. A head that is sent is out of the index until its connection brings an
answer.

- `DeliveryBook`: the linked structures (loaded updates, queues, index, connections,
  idle list) as one value, and the invariant that ties them together.
- `Scheduler`: the steps of the actor and of its environment (clock, log, peers) and
  the proof that every step keeps the invariant.
- `SchedulerRuns`, `EventQueues`, `DeliveryGuarantees`, `Fairness`, `Counting`: what follows
  for whole runs. Order and completeness of loading, the order of events that name the
  same queue, at-least-once delivery, finite retries, bounded overtaking, the logged
  figures.
- `RetryPolicy`, `UnixClock`, `CallbackProtocol`: backoff, the saturating clock, the
  order of messages to the owner.
- `ActorSteps`, `WebhookActors`: the actor as a class with a field for each of its fields and
  a method for each of its methods. Every method records the steps it takes in a ghost
  trace; `Valid()` says that the trace is a run of the scheduler that leads to the fields
  as they are. So the theorems about runs hold for the class, and the `CHECK`s of the
  modelled methods are proved, apart from those that are named under "Left out".
- `HeaderFailure`: a run in which the headers of a request cannot be built.

Time is an integer number of nanoseconds, the unit in which the index compares
wake-ups. Random numbers, the network, flood control and the log's answers are
arbitrary within small stated contracts.

Three things the proofs show about the code as it is:

- When the headers of a request cannot be built, `send_update` has already taken the
  queue out of the index and puts it nowhere. The model has an explicit set of such
  parked queues. A parked queue is never served again (`Fairness.ParkedForever`), and no
  queue is stranded if and only if no header build fails (`Fairness.NothingStranded`).
  The failed build also ends the sending loop: nothing that can be sent is then left
  without a timer if and only if no other entry of the index is earlier than the timer
  (`ActorSteps.ServedAfterParking`; for the actor, `Worked` in the contract of `Loop`).
  A timer that has gone off is not set any more: if the build fails in the turn that it
  starts, and this turn sets no new timer, what is left in the index waits for some other
  event (`TimeoutExpired`).
  `HeaderFailure.HeaderFailureLosesWakeup` is a run from the start after which something is.
- Every load that returns all that waits, while the last answer was a success, is
  announced by `webhook_success`, whether the webhook has been verified or not
  (`LoadUpdates`). The ghost history `loads` has what the log answered each time:
  `webhook_success` comes before `webhook_verified` exactly if such a load does, and never
  for an actor restored from the database (`MessagesOrderly`). For an actor that starts,
  the exact condition is that it is not restored and that the log gives all that it says
  is waiting, which it does whenever its events fit into one load (`StartAndLoad`,
  `LoadEmptyLog`).
- A load brings a new event if and only if there is one and fewer loaded events than the
  load may take lie between the offset and it. From an offset that follows the last load this is any
  live event; after the offset went back to the head, a load may consist of loaded events
  alone, and then neither advances the offset nor marks the log exhausted
  (`ActorSteps.BatchBringsNew`, `SchedulerRuns.OffsetAfterLoads`, `LoadUpdates`).

## Encrypted sessions and board messages

- `Base64`: the strict decoder accepts exactly what the encoder produces.
- `E2ee`, `E2eeSessions`: opening an envelope, the replay window over whole runs, and the
  session class with its set and queue of nonces. NaCl is a record of functions with the
  contract `Box.Sound`: peers agree on a key, sealing adds 16 bytes, and a ciphertext
  opens to the message that it is the seal of or not at all. For the XSalsa20-Poly1305
  box this last part is exact, since the tag is recomputed from the ciphertext;
  `SoundBoxExists` shows that the contract is not contradictory.
- `JsonText`, `JsonReading`, `TelegramBoard`: the length of JSON text in UTF-8, that it can
  be read back, the exact bound on board messages, and their round trip.

The comment at `mcp-server/src/crypto/e2ee.ts:62-64` says that a captured frame is not
accepted twice during the lifetime of a session. That is so only as long as fewer frames
than the window holds have been accepted since: `E2ee.CapturedEnvelopeAgain` is the exact
condition, `E2ee.AcceptedTwice` a run that accepts the same frame twice. The model
follows the code.

## Registry, queries and statistics

- `ClientRegistry`, `ClientManagers`: the two maps of the registry, creation and shutdown.
- `TopClients`: the selection of the busiest clients with its pruning.
- `QueryLifecycle`, `Queries`: when a query is counted, answered and released, and the
  counters of outstanding work.

## Model

| member | source | states |
|---|---|---|
| UnixClock.UnixTime | telegram-bot-api/ClientParameters.h:45-54 | The wall clock stays within the 32-bit range whatever the offset |
| UnixClock.UnixTimeIsSeconds | telegram-bot-api/ClientParameters.h:45-54 | Between its clamps 0 and 2147483647 the clock shows the whole seconds since the epoch |
| UnixClock.UnixTimeMonotone | telegram-bot-api/ClientParameters.h:45-54 | Clamping keeps the clock monotone |
| UnixClock.UnixTimeAdvances | telegram-bot-api/ClientParameters.h:45-54 | Above the lower clamp, k seconds of sleep advance the wall clock by exactly k, or to the upper clamp |
| RetryPolicy.BackoffClosedForm | telegram-bot-api/WebhookActor.cpp:502-518 | After j doubling failures the delay lies between min(60, 2^j) and min(120, 2^j), whatever the random caps and the retry-after answers in between |
| RetryPolicy.WaitBounds | telegram-bot-api/WebhookActor.cpp:502-510 | The wait is at most an hour, and zero only for a first failure without retry-after |
| RetryPolicy.RetryAfterObeyed | telegram-bot-api/WebhookActor.cpp:501-518 | A retry-after is waited for exactly, up to 3600 seconds, and leaves the delay alone; without one the first failure waits for nothing, and every other one for twice the delay or the drawn cap |
| DeliveryBook.AddKeepsConsistent | telegram-bot-api/WebhookActor.cpp:400-424 | Loading an update at the end of its queue keeps the queues, the index and the connections in agreement |
| DeliveryBook.FirstIsLeast | telegram-bot-api/WebhookActor.h:125-127 | The first entry of the index has the least wake-up, and among those the least queue id |
| DeliveryBook.SendKeepsConsistent | telegram-bot-api/WebhookActor.cpp:540-573 | Sending a head moves its queue from the index to exactly one connection |
| DeliveryBook.ParkKeepsConsistent | telegram-bot-api/WebhookActor.cpp:540-570 | A failed header build takes the queue out of the index and puts it nowhere; the rest stays in agreement |
| DeliveryBook.CarriedAlone | telegram-bot-api/WebhookActor.cpp:664-671 | An update in flight is the head of a queue without an index entry, and only one connection carries it |
| DeliveryBook.FinishKeepsConsistent | telegram-bot-api/WebhookActor.cpp:457-475 | Dropping the carried head lets its successor into the index under the successor's own wake-up |
| DeliveryBook.RetryKeepsConsistent | telegram-bot-api/WebhookActor.cpp:516-519 | A failure puts the head back into the index, once, under its new wake-up |
| DeliveryBook.IdleChangeKeepsConsistent | telegram-bot-api/WebhookActor.cpp:228-237 | Opening or closing an idle connection moves no update |
| Scheduler.StepKeepsInv | telegram-bot-api/WebhookActor.cpp:358-583 | In every reachable state every queue is non-empty and is in the index under its head's wake-up, or has its head in flight on one connection, or is parked: exactly one of the three; loading is complete and within its limit |
| Scheduler.LoadIsNew | telegram-bot-api/WebhookActor.cpp:400-424 | A newly loaded event comes after everything loaded before, and a made-up queue id is unused |
| Scheduler.CarriedIsHead | telegram-bot-api/WebhookActor.cpp:458-466 | What a connection carries is loaded and is the head of its queue |
| SchedulerRuns.QueueOrder | telegram-bot-api/WebhookActor.cpp:420-475 | Over any run, the events finished for a queue followed by those still queued are exactly those loaded for it, in load order |
| SchedulerRuns.SentInOrder | telegram-bot-api/WebhookActor.cpp:540-549 | An event is sent only when all events loaded before it for its queue are finished |
| SchedulerRuns.LoadedOnce | telegram-bot-api/WebhookActor.cpp:369-425 | No event is loaded twice, not even after the offset went back to the head; a loaded event is pending or finished, never both |
| SchedulerRuns.NothingSkipped | telegram-bot-api/WebhookActor.cpp:369-425 | Every live event up to the last one loaded is pending |
| SchedulerRuns.OffsetAfterLoads | telegram-bot-api/WebhookActor.cpp:368-413 | Unless the offset went back to the head since the last load, it comes right after the highest event ever loaded, or is unset with none loaded |
| SchedulerRuns.DrainedMeansLoaded | telegram-bot-api/WebhookActor.cpp:352-356 | While the log is believed exhausted, every live event is pending or was appended since |
| SchedulerRuns.StepKeepsOrder | telegram-bot-api/WebhookActor.cpp:420-475 | A step changes a queue only by loading at its end or finishing its front |
| EventQueues.LoadedIntoItsQueue | telegram-bot-api/WebhookActor.cpp:411-417 | In any run an event that names a queue is loaded into that queue, and any other one into a queue with a number from 2^60 on that no other load of the run gets |
| EventQueues.SameQueueInOrder | telegram-bot-api/WebhookActor.cpp:411-424 | Of two loaded events of a run that name the same queue, the later one is sent only after the earlier one is finished |
| EventQueues.LoadedAsLogged | telegram-bot-api/WebhookActor.cpp:403-417 | In every state of a run a loaded update has the expiry time of its event in the log, and waits in the queue that the event names |
| DeliveryGuarantees.CarriedWasSent | telegram-bot-api/WebhookActor.cpp:572-573 | A connection carries only what was sent through it, and nothing has happened to it or to the event since |
| DeliveryGuarantees.AnswerFreesConnection | telegram-bot-api/WebhookActor.cpp:664-682 | After an answer its connection carries nothing and is on the ready list, if it is kept, or is gone; the others are as before |
| DeliveryGuarantees.SendUsesConnection | telegram-bot-api/WebhookActor.cpp:530-573 | A send takes its connection off the ready list and puts the event on it, whose wake-up has come |
| DeliveryGuarantees.ForgottenOnlyWhenDone | telegram-bot-api/WebhookActor.cpp:457-514 | The actor forgets an event, whenever it was appended, only on the answer to its last send: a success, or a failure whose retry would come after the event expires |
| DeliveryGuarantees.FailureReturnsToIndex | telegram-bot-api/WebhookActor.cpp:516-519 | Every other failure, hangups included, puts the event back into the index after its delay and leaves it in the log |
| DeliveryGuarantees.BackoffFollowsFailures | telegram-bot-api/WebhookActor.cpp:504-518 | The delay and failure count of a pending update are those of its failures in the run |
| DeliveryGuarantees.PendingDelay | telegram-bot-api/WebhookActor.cpp:504-518 | So a pending update waits 2^j seconds after j doublings, up to caps between 60 and 120 |
| DeliveryGuarantees.RunAccounted | telegram-bot-api/WebhookActor.cpp:493-538 | In any run each retry of an update but the first has moved the time of its next send by at least a second |
| DeliveryGuarantees.FinitelyManySends | telegram-bot-api/WebhookActor.cpp:493-538 | An update that survives its first failure at unix time u and expires at x is sent at most x - u + 2 times |
| Fairness.NobodyJoins | telegram-bot-api/WebhookActor.cpp:410-519 | New loads and retries never get a wake-up that has already passed |
| Fairness.AheadShrinks | telegram-bot-api/WebhookActor.cpp:533-546 | While a past-due queue waits, every send of another queue uses up one of the updates ahead of it |
| Fairness.BoundedOvertaking | telegram-bot-api/WebhookActor.cpp:533-546 | A past-due queue is overtaken by fewer sends than there were loaded updates with a wake-up not later than its own |
| Fairness.ParkedForever | telegram-bot-api/WebhookActor.cpp:542-570 | None of the updates of a parked queue is ever sent or finished |
| Fairness.NothingStranded | telegram-bot-api/WebhookActor.cpp:542-570 | In a run from the start every queue of loaded updates is in the index or in flight if and only if no header build has failed |
| Counting.PendingFigure | telegram-bot-api/WebhookActor.cpp:585-587 | The loaded updates are the sum of the queue lengths, queues out of the index are busy connections and parked queues, so the logged figure counts the updates not in flight and not parked at a head |
| CallbackProtocol.SendKeepsOrderly | telegram-bot-api/WebhookActor.h:46-53 | Closing is announced once and last, a failed opening only by an actor never verified, errors and queries only after verification |
| ActorSteps.FirstIsHead | telegram-bot-api/WebhookActor.cpp:533-549 | The first entry of the index stands for a loaded, valid head that is due with it: the checks of `send_update` hold |
| ActorSteps.BatchBringsNew | telegram-bot-api/WebhookActor.cpp:374-405 | A batch has an event beyond those loaded if and only if the log has one and fewer live events than the limit come before it from the offset on |
| ActorSteps.BatchNewAbove | telegram-bot-api/WebhookActor.cpp:397-405 | The events of a batch that count as duplicates are exactly those not above the highest one ever loaded |
| ActorSteps.FollowsLoad | telegram-bot-api/WebhookActor.cpp:397-425 | Working through a batch loads each event in its turn and never overfills the actor |
| ActorSteps.CarriedFacts | telegram-bot-api/WebhookActor.cpp:664-671 | The checks of `drop_event`, `on_update_ok` and `on_update_error` hold for the event of a busy connection |
| ActorSteps.AfterErrorWaits | telegram-bot-api/WebhookActor.cpp:493-523 | After a failure the update is dropped from the actor and the log exactly if unix time and wait pass its expiry, and is otherwise in the index under the time after the wait |
| ActorSteps.ConnectedTells | telegram-bot-api/WebhookActor.cpp:144-246 | A connection, or a socket behind the proxy, verifies the webhook; without either an error is told, which closes an unverified actor |
| ActorSteps.ServedAfterParking | telegram-bot-api/WebhookActor.cpp:567-590 | After a failed header build nothing that can be sent is left without a timer if and only if no other entry of the index is earlier than the timer |
| HeaderFailure.HeaderFailureLosesWakeup | telegram-bot-api/WebhookActor.cpp:567-590 | A run from the start that parks a queue and leaves another one due with an idle connection, unserved unless a timer is already due |
| WebhookActors.WebhookActor.QueueHoldsTheRest | telegram-bot-api/WebhookActor.cpp:420-475 | In every state of the actor a queue holds, in order, what was loaded for it and is not finished |
| WebhookActors.WebhookActor.HeldAsLogged | telegram-bot-api/WebhookActor.cpp:403-417 | In every state of the actor a loaded update has the expiry time of its event, and waits in the queue that the event names |
| WebhookActors.WebhookActor.WaitsBehind | telegram-bot-api/WebhookActor.cpp:411-424 | Of two loaded events that name the same queue the later one waits behind the earlier one |
| WebhookActors.WebhookActor.SizesFit | telegram-bot-api/WebhookActor.cpp:299-316 | In every state connections, pending and ready sockets stay within `max_connections_` and queues within `max_loaded_updates_`, and the sizes behind the logged figure agree |
| WebhookActors.WebhookActor.MessagesOrderly | telegram-bot-api/WebhookActor.h:46-53 | In every state the owner has heard an orderly sequence of messages, with a success before the verification exactly if an answer of the log before it was complete, the last answer of the webhook being a success; and never for a restored actor |
| WebhookActors.WebhookActor.RelaxWakeupAt | telegram-bot-api/WebhookActor.cpp:78-83 | The timer is set to the earlier of what was set and what is asked for |
| WebhookActors.WebhookActor.ResolveIpAddress | telegram-bot-api/WebhookActor.cpp:85-100 | The address is asked for exactly when it is not fixed, not being asked for, and its time has come; otherwise, unless it is fixed, the timer is set for that time |
| WebhookActors.WebhookActor.TakeAddress | telegram-bot-api/WebhookActor.cpp:114-129 | An invalid address, and unless in local mode one that is reserved or not IPv4, is an error; a new one starts a new generation and is told to the owner of a verified webhook |
| WebhookActors.WebhookActor.OnResolvedIpAddress | telegram-bot-api/WebhookActor.cpp:102-131 | A good address is taken, a new one starts a new generation of connections, and a turn of the loop follows |
| WebhookActors.WebhookActor.FinishResolving | telegram-bot-api/WebhookActor.cpp:103-130 | The next resolving is 30 to 33 minutes ahead |
| WebhookActors.WebhookActor.OnSslContextCreated | telegram-bot-api/WebhookActor.cpp:133-142 | A failure closes an unverified actor with one message, a context is taken, and a turn of the loop follows |
| WebhookActors.WebhookActor.CreateConnection | telegram-bot-api/WebhookActor.cpp:144-197 | One more connection, or one more pending socket behind a proxy, or no change but a reported error |
| WebhookActors.WebhookActor.CreateConnectionOn | telegram-bot-api/WebhookActor.cpp:225-246 | A new idle connection of the current generation and nothing else, which verifies the webhook, or an error that is reported |
| WebhookActors.WebhookActor.OnSocketReadyAsync | telegram-bot-api/WebhookActor.cpp:248-259 | The socket is no longer pending, a failure closes an unverified actor, and a turn of the loop follows |
| WebhookActors.WebhookActor.TakeSocket | telegram-bot-api/WebhookActor.cpp:249-257 | The pending socket becomes a ready one or a reported error |
| WebhookActors.WebhookActor.WantedConnections | telegram-bot-api/WebhookActor.cpp:271-294 | One connection before the verification. After it, one for each queue within the limit, but at most one without a success in the last 10 seconds and at least one with it |
| WebhookActors.WebhookActor.CreateNewConnections | telegram-bot-api/WebhookActor.cpp:261-324 | Before the address and the SSL context are there, nothing. Otherwise at least as many connections and sockets as are wanted at the clock reading of this call, or the timer is set, and no more than wanted unless there were before; never more than the limit |
| WebhookActors.WebhookActor.Loop | telegram-bot-api/WebhookActor.cpp:326-350 | Unless the actor stops: updates are loaded or the log is exhausted; while a connection is idle nothing that is due is left unsent; and no connection is idle, the index is empty, or the armed timer is no later than its first entry. After a failed header build the last holds exactly if no entry is earlier than the timer. The timer is the one of this turn, which is in the future of its beginning, or, if it set none, the one before |
| WebhookActors.WebhookActor.TimeoutExpired | telegram-bot-api/WebhookActor.cpp:326-350 | The timer that goes off is used up: afterwards the timer is the one that this turn sets, or none, and then after a failed header build nothing is left waiting exactly if the index is empty |
| WebhookActors.WebhookActor.Update | telegram-bot-api/WebhookActor.cpp:352-356 | New events are looked for first, and a turn of the loop follows |
| WebhookActors.WebhookActor.FetchUpdates | telegram-bot-api/WebhookActor.cpp:368-395 | A batch in id order from the offset or, when that is refused, from the head; an empty one marks the log exhausted |
| WebhookActors.WebhookActor.LoadAll | telegram-bot-api/WebhookActor.cpp:397-425 | What is loaded afterwards is what was before and the whole batch; the new events are those above the highest one loaded before, and the offset comes after the last of them |
| WebhookActors.WebhookActor.LoadUpdates | telegram-bot-api/WebhookActor.cpp:358-455 | Nothing changes when the log is exhausted or the actor full. Otherwise a whole batch of up to 1000 events, and no more than there is room for, is loaded from the offset, or from the head if the offset was unset or came after events that are still in the log; the offset comes after the last new event, and an empty batch alone marks the log exhausted; a new event comes exactly if the batch gets beyond the loaded ones. A success is announced exactly if all that waits was returned and the last answer was a success |
| WebhookActors.StartAndLoad | telegram-bot-api/WebhookActor.cpp:446-448 | The first load of an actor is announced as a success before the verification if and only if the actor is neither closed at its start nor restored, and the log gives all that it says is waiting; which it does if no event has expired and all fit into one load |
| WebhookActors.LoadEmptyLog | telegram-bot-api/WebhookActor.cpp:446-448 | A new actor with an empty log announces a success that nothing has verified |
| WebhookActors.WebhookActor.DropEvent | telegram-bot-api/WebhookActor.cpp:457-478 | The head leaves its queue, the actor and the log, and its successor enters the index |
| WebhookActors.WebhookActor.OnUpdateOk | telegram-bot-api/WebhookActor.cpp:480-491 | A success drops the update and is remembered |
| WebhookActors.WebhookActor.OnUpdateError | telegram-bot-api/WebhookActor.cpp:493-523 | A failure drops the update from actor and log exactly if unix time and wait pass its expiry, and otherwise puts it into the index under the time after the wait. The wait is the retry-after up to an hour; without one nothing at first, and then twice the delay or a cap between 60 and 120 |
| WebhookActors.WebhookActor.SendUpdate | telegram-bot-api/WebhookActor.cpp:525-583 | Sends one due head on an idle connection, or leaves nothing unserved without a timer, or parks a queue |
| WebhookActors.WebhookActor.SendUpdates | telegram-bot-api/WebhookActor.cpp:585-590 | Sending ends, and nothing that can be sent is left without a timer: always if no header build failed, and otherwise exactly if no entry of the index is earlier than the timer |
| WebhookActors.WebhookActor.CheckGone | telegram-bot-api/WebhookActor.cpp:634-648 | The actor closes after answers 410 that follow each other for more than 23 hours |
| WebhookActors.WebhookActor.ReadResponse | telegram-bot-api/WebhookActor.cpp:613-656 | What a response tells the owner, the time of the first 410, and that the actor is to close exactly for a 410 more than 23 hours after it |
| WebhookActors.WebhookActor.HandleAnswer | telegram-bot-api/WebhookActor.cpp:603-682 | An answer of the 200s finishes what its connection carries, any other one, or a hangup, is a failure with the retry-after that came; the connection is ready again exactly for a response with keep-alive on the present address when the actor does not close, and gone otherwise; the owner is told of errors and of queries; the actor is to close exactly for a 410 more than 23 hours after the first of those that follow each other |
| WebhookActors.WebhookActor.Handle | telegram-bot-api/WebhookActor.cpp:592-689 | An unknown connection changes nothing. Otherwise the delivery is answered, and a turn of the loop follows unless the actor is to close: exactly for a 410 read more than 23 hours after the first of those that follow each other |
| WebhookActors.WebhookActor.HangupShared | telegram-bot-api/WebhookActor.cpp:743-746 | What the connection carried is answered like a failure, and a turn of the loop follows |
| WebhookActors.WebhookActor.StartUp | telegram-bot-api/WebhookActor.cpp:691-741 | The actor closes at once exactly for a forbidden port, protocol or fixed address, and otherwise counts as verified exactly if it comes from the database |
| WebhookActors.WebhookActor.Hangup | telegram-bot-api/WebhookActor.cpp:748-752 | The actor stops without a further message |
| WebhookActors.WebhookActor.Close | telegram-bot-api/WebhookActor.cpp:754-758 | The owner, if there, hears of the closing, and the actor stops |
| WebhookActors.WebhookActor.OnError | telegram-bot-api/WebhookActor.cpp:789-796 | An error closes the actor, with one message, exactly if it was never verified and is not closing |
| WebhookActors.WebhookActor.OnWebhookError | telegram-bot-api/WebhookActor.cpp:803-809 | Errors are told only once the webhook is verified |
| Base64.QuadDecodes | mcp-server/src/crypto/e2ee.ts:43-45 | Four characters stand for the three bytes they were made from |
| Base64.CharsOfAlphabet | mcp-server/src/crypto/e2ee.ts:43-45 | The alphabet is that of section 4 of RFC 4648 |
| Base64.QuadBits | mcp-server/src/crypto/e2ee.ts:43-45 | Four characters are the 24 bits of three bytes, the first ones first |
| Base64.WellFormedIff | mcp-server/src/crypto/e2ee.ts:48-50 | A text is well formed exactly if it is groups of four characters of the alphabet with at most two characters of padding at the end |
| Base64.EncodeDecodes | mcp-server/src/crypto/e2ee.ts:43-56 | Every encoding is well formed and decodes to the bytes it was made from |
| Base64.EncodedLength | mcp-server/src/crypto/e2ee.ts:43-45 | Four characters for each group of three bytes begun |
| Base64.DecodeInvertsEncode | mcp-server/src/crypto/e2ee.ts:47-56 | The strict decoder returns given bytes for a text if and only if the text is their encoding |
| Base64.TextsStandForBytes | mcp-server/src/crypto/e2ee.ts:47-56 | Among accepted texts, equal texts mean equal bytes and conversely |
| E2eeSessions.ConstantTimeEqual | mcp-server/src/crypto/e2ee.ts:152-159 | True exactly for equal keys, although no byte ends the loop early |
| E2eeSessions.E2eeSession.Create | mcp-server/src/crypto/e2ee.ts:71-89 | A session exists exactly for keys of 32 bytes and a positive safe window, and starts with nothing remembered |
| E2eeSessions.E2eeSession.Open | mcp-server/src/crypto/e2ee.ts:103-140 | The verdict on the envelope; a refused one changes neither the set nor the queue |
| E2eeSessions.E2eeSession.RememberNonce | mcp-server/src/crypto/e2ee.ts:142-149 | The queue is the last accepted nonces without duplicates, and the set is what is in the queue |
| E2ee.SoundBoxExists | mcp-server/src/crypto/e2ee.ts:88-127 | What is assumed of NaCl can hold |
| E2ee.RememberedIffGenuine | mcp-server/src/crypto/e2ee.ts:103-133 | An envelope gets past the checks if and only if the configured peer's key sealed it and its nonce is not remembered |
| E2ee.GenuineOpens | mcp-server/src/crypto/e2ee.ts:103-140 | A genuine envelope is a replay, not JSON, or opens to its message; no other outcome |
| E2ee.WhyHeaderRefused | mcp-server/src/crypto/e2ee.ts:104-116 | The version, the sender and the length of the nonce are each refused in exactly one case, in this order |
| E2ee.WhyTextRefused | mcp-server/src/crypto/e2ee.ts:47-56 | A field that is no encoding is refused as malformed, or as not canonical if it is well formed |
| E2ee.WhyBoxRefused | mcp-server/src/crypto/e2ee.ts:117-130 | With a good header, an envelope is a replay exactly if its nonce is remembered, and else too short or not authentic exactly if its ciphertext is |
| E2ee.SealOpens | mcp-server/src/crypto/e2ee.ts:91-140 | What one peer seals the other opens, for keys made from secret keys and exchanged |
| E2ee.ReceiveKeepsSpread | mcp-server/src/crypto/e2ee.ts:118-133 | One more envelope keeps equal nonces a full window apart |
| E2ee.RunKeepsSpread | mcp-server/src/crypto/e2ee.ts:103-149 | In any run the same nonce is accepted again only after a full window of others, and all are texts of 24 bytes |
| E2ee.WindowOfRun | mcp-server/src/crypto/e2ee.ts:142-149 | In no run is a nonce twice among the last W accepted |
| E2ee.ReplayIffBytesRecent | mcp-server/src/crypto/e2ee.ts:111-121 | In any run an envelope is refused as a replay if and only if the bytes of its nonce are those of one of the last W accepted |
| E2ee.CapturedEnvelopeAgain | mcp-server/src/crypto/e2ee.ts:58-65 | A captured envelope is refused as a replay if and only if fewer than W others have been accepted since, and accepted again otherwise |
| E2ee.AcceptedTwice | mcp-server/src/crypto/e2ee.ts:58-65 | A run in which the same envelope is accepted twice |
| JsonText.EscapedUtf8Size | mcp-server/src/telegramBoardE2ee.ts:17-19 | The bytes of an escaped string, counted per code point |
| JsonText.EscapingIsReversible | mcp-server/src/telegramBoardE2ee.ts:17-18 | Escaping loses nothing |
| JsonText.EscapedAs | mcp-server/src/telegramBoardE2ee.ts:18 | The short escapes of QuoteJSONString, and what is left as it is |
| JsonText.EscapedByValue | mcp-server/src/telegramBoardE2ee.ts:18 | Other control characters and lone surrogates are written as four hexadecimal digits with their value |
| JsonText.HexDigits | mcp-server/src/telegramBoardE2ee.ts:18 | The digits are the lower-case hexadecimal ones |
| JsonText.Utf8Bits | mcp-server/src/crypto/e2ee.ts:93 | One to four bytes hold the bits of a code point, as in section 3 of RFC 3629 |
| JsonText.PrintUtf8Size | mcp-server/src/telegramBoardE2ee.ts:17-19 | The bytes of a printed object, from those of its keys and values |
| TelegramBoard.PayloadSize | mcp-server/src/telegramBoardE2ee.ts:16-18 | The plaintext is 43 bytes longer than the escaped body |
| TelegramBoard.MessageSize | mcp-server/src/telegramBoardE2ee.ts:16-19 | The text is 143 bytes longer than the base64 text of the box |
| TelegramBoard.ExactSizeBound | mcp-server/src/telegramBoardE2ee.ts:16-23 | Encoding succeeds if and only if the escaped body has at most 2905 bytes |
| TelegramBoard.DecodeMessage | mcp-server/src/telegramBoardE2ee.ts:25-50 | A text without an envelope leaves the session alone; any other yields a body exactly if the envelope is genuine and new and its message is a board message with that body, and is told from JSON of another shape, from what is not JSON, and from what is refused |
| TelegramBoard.FoundIffCarried | mcp-server/src/telegramBoardE2ee.ts:26-39 | An envelope is found exactly behind the prefix, as a JSON object of version 1 with its three texts |
| TelegramBoard.OutcomeMeans | mcp-server/src/telegramBoardE2ee.ts:40-49 | What becomes of an envelope, case by case and each if and only if, in terms of what the peer sealed |
| TelegramBoard.BoardRoundTrip | mcp-server/src/telegramBoardE2ee.ts:11-50 | The peer finds the body in every message that could be sent, unless it lately accepted the nonce |
| TelegramBoard.PlaintextReadersExist | mcp-server/src/crypto/e2ee.ts:135-139 | Readers with the promised properties of JSON.parse and of UTF-8 decoding exist |
| JsonReading.PrintsDiffer | mcp-server/src/telegramBoardE2ee.ts:17-18 | Different objects have different prints |
| JsonReading.Utf8Differs | mcp-server/src/crypto/e2ee.ts:93 | Different texts have different bytes |
| TelegramBoard.OnlyThePeersBodies | mcp-server/src/telegramBoardE2ee.ts:25-50 | A body is only taken from an envelope that the peer sealed and that is no replay |
| ClientRegistry.StepKeepsInv | telegram-bot-api/ClientManager.cpp:47-158 | The two maps stay inverse to each other, the activity counters are exact, and the databases are closed once, with no clients left |
| ClientRegistry.NobodyActive | telegram-bot-api/ClientManager.cpp:580-582 | With the last client gone, no activity is counted |
| ClientRegistry.EveryPromiseOnce | telegram-bot-api/ClientManager.cpp:599-606 | Over any run the promises fulfilled and waiting are those of the requests to close, in order; after the end all are fulfilled |
| ClientRegistry.NoClientAfterClose | telegram-bot-api/ClientManager.cpp:67-71 | No client is created after a request to close |
| ClientRegistry.ShutdownWaitsForEveryClient | telegram-bot-api/ClientManager.cpp:572-584 | A shutdown takes one hang-up of each client that was left, and closes the databases then and not before |
| ClientManagers.TqueueIdsApart | telegram-bot-api/ClientManager.cpp:313-315 | No two bots share an update queue, and no queue id is zero |
| ClientManagers.KeysApart | telegram-bot-api/ClientManager.cpp:87-89 | The test suffix cannot make two bots share a registry key |
| ClientManagers.TqueueIdNamesBot | telegram-bot-api/WebhookActor.cpp:625-628 | The number of an update queue gives back the bot and its data center |
| ClientManagers.RefusedIff | telegram-bot-api/ClientManager.cpp:74-85 | A token is accepted exactly if it is well formed and names a bot of this server; it is misdirected exactly if its identifier is unreadable or of another server, and unauthorized otherwise |
| ClientManagers.HeldBackIff | telegram-bot-api/ClientManager.cpp:93-133 | A new client is refused exactly for closing a bot that is not there, and has to wait exactly for the flood control of its address and then for the global one |
| ClientManagers.SecondsUntil | telegram-bot-api/ClientManager.cpp:114-119 | Whoever waits as told comes after the flood control's wake-up, by at most a second |
| ClientManagers.ClientManager.Send | telegram-bot-api/ClientManager.cpp:66-158 | A query is dropped, refused, told to wait, or handed to the only client of its token, which is created when there is none |
| ClientManagers.ClientManager.TellClients | telegram-bot-api/ClientManager.cpp:57-62 | Every client is told to close, once |
| ClientManagers.ClientManager.Close | telegram-bot-api/ClientManager.cpp:47-65 | The promise is kept, and the first request starts the shutdown |
| ClientManagers.ClientManager.RawEvent | telegram-bot-api/ClientManager.cpp:528-541 | The counter of the client's queue follows its activity and never goes below zero |
| ClientManagers.ClientManager.HangupShared | telegram-bot-api/ClientManager.cpp:572-584 | The client leaves both maps, and the last one of a shutdown closes the databases |
| ClientManagers.ClientManager.FinishClose | telegram-bot-api/ClientManager.cpp:599-606 | All promises ever accepted are fulfilled, in order |
| TopClients.Score | telegram-bot-api/Stats.cpp:160-174 | Scores are not negative |
| TopClients.ScoreGrows | telegram-bot-api/Stats.cpp:160-174 | An idle bot has score 0, and what each event, request in progress and byte in upload adds |
| TopClients.KeyOrder | telegram-bot-api/ClientManager.cpp:173-177 | Keys put better scores first and tell apart scores that differ by 1e-9; only a score below that has key 0 |
| TopClients.PartialSort | telegram-bot-api/ClientManager.cpp:182 | The same entries, with the least ones in order at the front |
| TopClients.CandidatesOneMore | telegram-bot-api/ClientManager.cpp:164-178 | A client that is skipped has no score, and there are enough candidates without it |
| TopClients.FrontIsTop | telegram-bot-api/ClientManager.cpp:179-188 | The front of the candidates is the best of all matching clients, although some were skipped |
| TopClients.TopKeysAreUnique | telegram-bot-api/ClientManager.cpp:173-188 | All such selections have the same scores, so skipping cannot change them |
| TopClients.GetTopClients | telegram-bot-api/ClientManager.cpp:160-191 | min(max_count, matching) distinct matching clients, best first, nobody left out better; and the number of active clients |
| QueryLifecycle.MaxIsGreatest | telegram-bot-api/Query.cpp:65-79 | The size of the largest file is that of a file, and at most the sum |
| QueryLifecycle.SumJoins | telegram-bot-api/Query.cpp:65-74 | The sizes of a query are the sums over its parts |
| QueryLifecycle.StepConserves | telegram-bot-api/Stats.h:206-218 | Every step keeps the counters equal to the sums over the queries in progress, for each bot and for all |
| QueryLifecycle.RunConserves | telegram-bot-api/Query.h:244-258 | The same over whole runs, and no promise is fulfilled twice |
| QueryLifecycle.CountersAreSums | telegram-bot-api/Stats.h:206-218 | The counters are the sums over the outstanding queries and never negative |
| QueryLifecycle.EveryCheckHolds | telegram-bot-api/Stats.h:206-212 | So after every single event the checks of the statistics actor hold |
| QueryLifecycle.CountersOfBot | telegram-bot-api/Stats.h:163-173 | A bot's actor counts what the common log says about the bot |
| QueryLifecycle.BotPasses | telegram-bot-api/Stats.h:206-212 | The checks of a bot's actor hold however many of the bot's events have arrived |
| QueryLifecycle.OrderIsIrrelevant | telegram-bot-api/Stats.h:163-173 | The parent's counters do not depend on how the events of different bots are interleaved |
| QueryLifecycle.NextEventPasses | telegram-bot-api/Stats.h:206-212 | Whatever a run has told the actors so far, and in whatever order the events of different bots come, the checks hold for the next event, at the bot's actor and at the parent |
| QueryLifecycle.OnlyForgottenStayCounted | telegram-bot-api/Query.h:246-255 | When all queries are released, exactly those dropped unanswered without a promise are still counted |
| QueryLifecycle.PromiseFulfilledOnce | telegram-bot-api/Query.h:246-258 | A promise is fulfilled if and only if its query is released, once, and with an answer |
| QueryLifecycle.PromiseGetsTheAnswer | telegram-bot-api/Query.h:246-258 | A promise is fulfilled with the one answer that the run gives to its query or, if it gives none, with code 429 and a request to retry after 5 seconds |
| Queries.Query.SetStatActor | telegram-bot-api/Query.cpp:81-84 | The bot is told of the request with the sizes of the query; the call is the action of the same name on any set of queries |
| Queries.Query.SetOk | telegram-bot-api/Query.cpp:86-93 | The query becomes answered with code 200 and the bot is told; the call is an answer in the sense of the runs |
| Queries.Query.SetError | telegram-bot-api/Query.cpp:95-103 | The query becomes failed with the code and the bot is told; the call is an answer in the sense of the runs |
| Queries.Query.SetRetryAfterError | telegram-bot-api/Query.cpp:105-112 | The query becomes failed with code 429 and the time to wait |
| Queries.Query.Release | telegram-bot-api/Query.h:246-255 | An unanswered query is given back as an error with code 429 and a request to retry after 5 seconds, and counted as such; an answered one with its own code, and not counted again; without a promise nothing is told |
| Queries.Query.AnswerQuery | telegram-bot-api/Query.h:265-269 | The promise gets the answer and nothing else |
| Queries.Query.FailQuery | telegram-bot-api/Query.h:271-277 | The promise gets the error and nothing else |
| Queries.BotStatActor.AddEvent | telegram-bot-api/Stats.h:163-218 | Counters and totals are those of all events so far, and the parent gets the same event |
| Queries.DeliverEvents | telegram-bot-api/Stats.h:163-173 | Given all events of a run, the parent those of different bots in any order, no check fails, the parent's events of a bot are those passed on, and the counters are the numbers of queries in progress, for one bot and for all |
| Queries.OnEventSummarizes | telegram-bot-api/Stats.h:112-136 | The totals since the start are the sums, and the maximum, over the events |
| Queries.ActiveIsDifference | telegram-bot-api/Stats.h:206-218 | The requests in progress are the difference of the totals |

## Left out

Assumed of the environment:

- The `extra` of an event is below 2^60, where made-up queue ids begin, and expiry times fit in 32 bits.
- A response arrives only on a connection with a request in flight, which is what the `CHECK` at WebhookActor.cpp:672 says; a proxy answers once for each socket.
- The resolver answers once for each question, which is what the `CHECK` at WebhookActor.cpp:103 says.
- The log returns an increasing run of unexpired events from an offset, reports a total between the number of those and that of all, fails only for an offset that is not the head, and forgets what it is told to; others may append to it and purge it.
- Messages from one actor to another arrive in the order they were sent, with any delay; those of different actors arrive in any order.
- A timer of the actor framework goes off once for each time it is armed, as `ClientManager::timeout_expired` relies on (ClientManager.cpp:544-546).
- The difference between the wall clock and actor time never falls, as `Client::update_shared_unix_time_difference` ensures.
- A client announces the beginning and the end of its activity in turns, and hangs up when inactive, all while it is registered.
- Queries are handed to one bot at most, before they are answered, as `Client::send` does; and a query is answered only while it is unanswered, which is what the `CHECK`s at Query.cpp:87 and 98 say.
- JSON.parse inverts JSON.stringify on flat objects, and decoding inverts encoding in UTF-8.

Not modelled:

- Sockets, TLS, DNS, proxy handshakes and HTTP text: only their outcomes are inputs.
- The internals of flood control, of timed statistics and of NaCl.
- Floating point: times are integers of nanoseconds, scores and rates are real numbers.
- 32-bit and 64-bit overflow outside the wall clock and the token range: the sum of unix time and delay, and counters.
- The windows of the statistics that expire, and update events, which change no counter of work.
- Warnings, log messages, `total_connection_count_`, `dump_statistics`, `get_stats` and the watchdog.
- The webhook restore query that a new client gets first: its printer is in `Client.cpp`.
- `get_unix_time` of the garbage collection, and its run over the log, beyond purging by others.
- `std::partial_sort` and the order of `Container::ids()`: any order of the ids is covered, and the sort is one with the same contract.
- Secrecy of keys and messages, and the timing of `constantTimeEqual`.
- mcp-google, cloudflare-worker, the tool registration and the configuration files.
- DeliveryGuarantees.FinitelyManySends: for a wall clock that is above zero at the start, because at its lower clamp the clock does not advance while an update waits.
