# SlimMQ, modelled and proved in Dafny

SlimMQ is a publish/subscribe broker and client library over UDP, in the style of MQTT. This project models
its five parts and proves each against a simple specification, then puts them together:

- the wire format (`Bytes`, `Codec`, `Messages`): packed little-endian header, PUBLISH/SUBSCRIBE and CONTROL
  packets, parsed back as they were built;
- the topic trie (`TopicNames`, `TopicFilters`, `SubscriberLists`, `TopicTables`): a heap tree changed in place,
  which answers like a plain set of (filter, address) pairs;
- the hash-chained tables (`ChainTables`, `StateTables`): linked buckets that refine a finite map, with expiry;
- the client's event queue (`EventQueues`, `EventHistories`): a 128-slot ring with removal from the middle that
  refines a sequence, conserves events and frees each data buffer at most once;
- the QoS 0/1/2 protocol: broker and client as state machines (`BrokerModel`, `ClientModel`), as objects whose
  methods follow the source and are proved equal to those machines (`Brokers`, `Clients`), and together over a
  network that loses, duplicates, delays and reorders packets (`Delivery`, `Retries`, `MessageIds`), poll by poll
  (`Waits`), over a network with a given schedule of losses and delays (`LossSchedules`), whose calls are runs of the
  former (`ScheduledRuns`), from a subscription to the subscriber's queue (`SubscribedRuns`), down to bytes
  (`Relay`), and down to the two objects (`EndToEnd`).

## How the parts fit

`Delivery.World` holds all clients, the broker, every packet ever sent, and ghost records of what was handled,
forwarded and returned. A step is one statement of `slimmq_publish` between two accesses to shared state, one
message heard by a listener, one message served by the broker, or another call on a client. Any packet ever sent may
be delivered any number of times or never. `Delivery.Inv` is the causal invariant: a RELEASE was sent only after a
RECEIVED, a RECEIVED only for an entry of the pending table, an entry only after exactly one forward. It has to cope
with three facts of the code: a RELEASE creates its table entry unconditionally, a late RECEIVED moves a client's
entry back from completed to waiting, and a COMPLETE may come after the last poll.

The objects are tied to the machines by ghost histories. A `Brokers.Broker` records the messages it handled, a
`Clients.Client` the moves it and the other threads made; both keep the fact that the machine, run over that
history, gives their own state, and that the datagrams they sent are the machine's messages, encoded and in order. Between
two accesses to shared state the publishing thread calls `Interleave`: any number of datagrams heard by the listener and
of calls of the other functions, in any order. `EndToEnd` then speaks about the two objects and
the datagrams they sent, which are exactly the packets of the run in which they took part.

Where names differ from the source: `ChainTable` stands for both tables (same code, other key and state types), `Hear`
for one round of `listener_loop`, `HandleDatagram` for one round of `broker_main_loop`. `now`, `mallocOk` and
whether a send succeeds are inputs.

## Where the code and its documentation disagree

The code is followed in each case.

- README.md:12 promises a 14-byte header; the packed struct (include/slim_msg.h:20-33) has 15 bytes.
- README.md:17 advertises the filter `/sensor/#`. Its first level is empty, `strtok` skips it, and one slot of the
  array stays null: `TopicNames.LeadingSlashLeavesSlotEmpty`. `TopicNames.TokensFillLevels` states exactly when that
  happens; such topics are excluded by precondition.
- include/event_queue.h:52 explains -2 as "queue locked"; the code returns it when an allocation fails.
- `a/#` does not select `a`, although section 4.7.1.2 of MQTT 3.1.1 says it should; a `#` that is not last takes
  one level. `TopicFilters.AgreesWithStandard` states exactly when the two agree.
- -1 from a QoS 2 publish does not mean that nothing was delivered: `LossSchedules.FailureAfterForward` states exactly
  when a call fails although its message was forwarded, `LossSchedules.FailureDoesNotMeanUndelivered` gives three inputs.
- A retry timeout below 100 ms, such as the zero that `slimmq_connect` leaves, makes every QoS 1 and QoS 2 publish fail,
  although the message is forwarded as always: in `LossSchedules.AtLeastOnceCondition` and
  `LossSchedules.ExactlyOnceSchedule` no answer is then in time.
- A QoS 2 call can fail although its COMPLETE was heard before a poll that took place: a late copy of the RECEIVED
  undoes it (`Waits.LateReceivedUndoesComplete`, and as a run `ScheduledRuns.LateReceivedFails`).
- A QoS 1 publisher subscribed to its own topic can fail although no packet is lost: its own copy takes the last slot
  of the event queue, and the ACK finds none (`LossSchedules.OwnCopyCrowdsOutAck`).

## Assumptions

One client session per source address and one publish call at a time on a client, as the single handshake table
supposes; the retry policy changes only between two publish calls (`Delivery.Enabled`, `Clients.Client.SetRetryPolicy`; the
source accepts a change at any time, and then a call can send more packets than the policy it began with allows, or poll without
end); no wrap of the 32-bit `next_msg_id`; every call on the event queue and on a state table is atomic (the
client's handshake table has no lock in the source). Received packets may declare any lengths whose bytes lie within the
receive buffer, topics hold no NUL byte, and topics looked up in the trie have no empty level: outside
these the source reads or writes memory it does not own.

## Model

| member | source | states |
|---|---|---|
| EndToEnd.PublishReturnedZero | src/slimmq_client.c:143-235 | when `slimmq_publish` on a client object has returned 0 at QoS 2, the broker object's log holds exactly one forward for that address and id, with that call's packet; exactly the addresses subscribed with a matching filter by then have one delivery for it, all others none; and among the datagrams the broker sent, those with the packet's bytes to an address are the ones the log counts, so exactly one or none unless another call has the same bytes |
| EndToEnd.BrokerObjectAgrees | src/broker.c:304-348 | a broker object that served the messages of a system run has that run's state and log, and the datagrams it sent are exactly the packets that clients of the run can hear, so the guarantees to publishers and subscribers hold of it |
| EndToEnd.WireIsToClient | src/broker.c:122-248 | in every run, a datagram was sent by the broker iff it is the encoding of a packet under way to a client: every ACK, RECEIVED, COMPLETE and publication, and nothing else |
| EndToEnd.ClientWireIsToBroker | src/slimmq_client.c:119-218 | the datagrams of a client object that took part in a run are its packets to the broker in that run, encoded, each as often |
| EndToEnd.BrokerRunsInside | src/broker.c:304-348 | seen from the broker, every run of clients, network and broker is one of the broker's own runs |
| EndToEnd.ClientRunsInside | src/slimmq_client.c:17-69 | seen from one client, every such run is a life of that client: same state, same calls, same results |
| EndToEnd.FirstService | src/broker.c:156-167 | a QoS 2 packet in the log was served when its id was new to the broker |
| Delivery.ExactlyOnceOnSuccess | src/slimmq_client.c:189-227 | over any run with loss, duplication, delay and reordering: a QoS 2 publish that returned 0 was forwarded exactly once, as the very packet it built |
| Delivery.ForwardedIffHandled | src/broker.c:156-167 | whatever a QoS 2 call returned: its packet is forwarded, and then once, iff some copy of it was handled, iff the pending table has its entry |
| Delivery.AtLeastOnceOnSuccess | src/slimmq_client.c:177-187 | a QoS 1 publish that returned 0 was forwarded, and the ACK with its own id was sent to this client: without that one, no ACK for another id or client confirms the call |
| Delivery.CausalChain | src/broker.c:222-248 | RELEASE sent implies RECEIVED sent implies a pending entry implies exactly one forward; a client that sees Completed is right about the broker |
| Delivery.QueuedEvents | src/slimmq_client.c:41-62 | in every run, an event queued at a client is an ACK the broker sent it, or carries the data and the first 127 bytes of the topic of some call, selected by a filter of that client |
| Delivery.StepKeepsInvariant | src/slimmq_client.c:40-58 | every step of publisher, listener, network and broker keeps the causal invariant |
| Delivery.RunsKeepInvariant | src/broker.c:304-348 | so it holds in every reachable world |
| Delivery.ServeKeepsInvariant | src/broker.c:152-297 | the broker's half: serving any packet in flight |
| Delivery.ServedCounts | src/broker.c:156-167 | after serving a packet, forwards, handled copies and pending entries still agree for every key |
| Delivery.ServedReplies | src/broker.c:170-248 | ACK, RECEIVED and COMPLETE are only sent with their cause established |
| Delivery.ActKeepsInvariant | src/slimmq_client.c:143-235 | the clients' half: a step whose message and result are justified keeps the invariant |
| Delivery.TickIsOk | src/slimmq_client.c:165-227 | each step of the publishing thread is justified: a RELEASE by a RECEIVED, a result 0 by the ACK or COMPLETE of that very id |
| Delivery.ListenIsOk | src/slimmq_client.c:41-61 | what the listener stores is justified by the packet it heard |
| Delivery.PublishIsOk | src/slimmq_client.c:143-163 | a new call uses an id no earlier call, packet or forward has |
| Delivery.AckConfirms | src/event_queue.c:78-103 | an ACK in a client's queue means that its id was forwarded |
| Delivery.CompleteConfirms | src/broker.c:238-242 | a COMPLETE in flight means that the broker's entry is completed |
| Delivery.CopiesCount | src/broker.c:122-143 | the forward count is positive iff the log has an entry for the key, and at most one iff no two entries have it |
| MessageIds.OnePacketPerId | src/slimmq_client.c:119-163 | in every run, two publications or subscriptions of one client with the same id are copies of one packet |
| SubscribedRuns.SubscriptionTakesEffect | src/slimmq_client.c:119-141 | from every reachable world, for every client and every good topic that fits, some run adds exactly this subscription to the broker and takes exactly one id |
| SubscribedRuns.PublicationReaches | src/broker.c:122-143 | from every reachable world in which an address is subscribed with a matching filter and has a free queue slot, some run puts the published data there as the last event, with the call's id and the first 127 bytes of its topic |
| SubscribedRuns.SubscriberHears | src/slimmq_client.c:60-62 | both together: a client subscribes, a client publishes on a topic the filter selects, and the event is in the subscriber's queue |
| Retries.ForwardsBounded | src/slimmq_client.c:165-187 | a call sends its packet at most max_retries + 1 times; below QoS 2 forwards equal handled copies; without duplication forwards are at most max_retries + 1 |
| Retries.StepCounts | src/slimmq_client.c:165-187 | invariant of every step: while a call runs, packets sent equal its `retries`, plus one after a send |
| Retries.CallsReturn | src/slimmq_client.c:165-235 | in every run, a call has a result iff it is no longer in progress, and that is 0 or -1 |
| Retries.AtMostOnceResult | src/slimmq_client.c:171-175 | at QoS 0, in every run: 0 was returned iff the packet was sent, then once; -1 iff the call returned without sending it |
| Waits.LastHeardCounts | src/slimmq_client.c:46-57 | whatever messages the listener hears, the entry of an id is that of the last RECEIVED or COMPLETE for it |
| Waits.HeardEventsQueue | src/slimmq_client.c:41-66 | whatever messages the listener hears, the queue gains exactly the events of the ACKs and publications among them, in order, as far as its 128 slots go; other types leave none |
| Waits.FailedSends | src/slimmq_client.c:168-218 | a publication that cannot be sent ends the call with -1 at every level; a RELEASE that cannot be sent is as good as lost, the wait for COMPLETE follows; no other step sends |
| Waits.AckWait | src/slimmq_client.c:177-187 | poll i of the wait for an ACK happens iff 100 * (i + 1) ms are within the timeout; it takes the first ACK of this id and the call returns 0, or the next poll follows; then comes the next attempt |
| Waits.ReceivedWait | src/slimmq_client.c:190-196 | the same for RECEIVED: the wait ends with the first poll that finds the id waiting to complete, or with the timeout, and never the call |
| Waits.CompleteWait | src/slimmq_client.c:220-231 | the same for COMPLETE: over at the first poll that finds the id completed, and else, with the timeout, on to the next attempt |
| Waits.CompletePoll | src/slimmq_client.c:220-226 | a poll ends the wait for COMPLETE iff the timeout lasts and the last handshake message heard for this id was a COMPLETE |
| Waits.ReceivedCheck | src/slimmq_client.c:198-202 | the check goes on to the RELEASE iff the last handshake message heard for this id was a RECEIVED |
| Waits.LateReceivedUndoesComplete | src/slimmq_client.c:51-52 | COMPLETE, then RECEIVED, then the poll: it does not end the call; the other way round it does |
| LossSchedules.ExactlyOnceSchedule | src/slimmq_client.c:165-231 | with, for each attempt, the fate of every packet and the poll before which each answer comes, for every timeout and retry limit: QoS 2 returns 0 iff in an attempt j PUBLISH gets through and RECEIVED comes within the timeout (100 * poll <= timeout), and in an attempt k RELEASE gets through and COMPLETE comes before a poll within it (100 * (poll + 1) <= timeout), j <= k <= max_retries; the message is forwarded once iff some PUBLISH arrives, else never |
| LossSchedules.FailureAfterForward | src/slimmq_client.c:220-234 | a QoS 2 call returns -1 although its message was forwarded iff some PUBLISH arrives and that condition fails |
| LossSchedules.FailureDoesNotMeanUndelivered | src/slimmq_client.c:220-234 | three inputs: the only COMPLETE is lost; it comes after the last of ten polls; nothing is lost or late but the timeout is zero |
| LossSchedules.AtLeastOnceSchedule | src/slimmq_client.c:177-187 | QoS 1 succeeds with the first attempt that gets PUBLISH through and whose ACK comes before a poll within the timeout and finds a queue slot behind the publisher's own copies, and fails iff there is none; the forwards are that one and one for each earlier attempt whose PUBLISH arrived |
| LossSchedules.AtLeastOnceCondition | src/event_queue.c:28-31 | the same as a condition on the schedule: 0 iff in some attempt PUBLISH gets through and ACK comes before poll i with 100 * (i + 1) <= timeout, while events queued plus own copies so far are below 128 |
| LossSchedules.AtMostOnceSchedule | src/slimmq_client.c:171-175 | QoS 0 returns 0 iff the retry limit is not negative, and the message is then forwarded once iff the one PUBLISH arrives |
| LossSchedules.OwnCopyCrowdsOutAck | src/broker.c:192-209 | the witness: nothing lost or late, one slot left, publisher subscribed to its own topic, result -1 |
| LossSchedules.TurnRuns | src/slimmq_client.c:167-232 | every step that does not end a call leaves fewer attempts, stages or polls: calls end |
| LossSchedules.FirstHalf | src/slimmq_client.c:190-202 | PUBLISH and RECEIVED in one attempt: who waits (those whose RECEIVED comes in time), whether the broker has an entry, what is forwarded |
| LossSchedules.SecondHalf | src/slimmq_client.c:204-231 | RELEASE and COMPLETE in one attempt of a waiting client: success iff RELEASE gets through and COMPLETE comes in time, else the next attempt |
| LossSchedules.FromAttempt | src/slimmq_client.c:167-232 | the outcome and the forwards of a QoS 2 call from any attempt on |
| LossSchedules.FromQos1Attempt | src/slimmq_client.c:167-187 | the outcome and the number of forwards of a QoS 1 call from any attempt on, with the publisher's own copies in its queue |
| ScheduledRuns.ScheduleIsRun | src/slimmq_client.c:143-235 | a call under a schedule, started in any reachable world, is a run of the whole system that reaches the same client, broker, forwards and result |
| ScheduledRuns.FinishReaches | src/slimmq_client.c:165-232 | so is the rest of a call from any step on |
| ScheduledRuns.NextIdIsFresh | src/slimmq_client.c:151 | in every reachable world the next id of a client is unknown to its tables, its queue and the broker, and the queue holds at most 128 events |
| ScheduledRuns.ConfiguredCall | src/slimmq_client.c:268-283 | from every reachable world with an idle client, for every QoS level up to 2, timeout, retry limit and schedule set: in some run the client takes these settings and publishes, its packet carries this level, and the call returns 0 iff the schedule says so for these settings |
| ScheduledRuns.SomeCallSucceeds | src/slimmq_client.c:71-235 | for each QoS level, a reachable world with a call that returned 0; at QoS 2 it was forwarded once |
| ScheduledRuns.LateReceivedInRun | src/slimmq_client.c:49-54 | in any reachable world where a client waits for a COMPLETE the broker has sent: hearing it and then the RECEIVED again leaves the client waiting after the poll; the other way round the call returns 0 |
| ScheduledRuns.LateReceivedFails | src/slimmq_client.c:220-234 | a reachable world with a QoS 2 call that returned -1 although its message was forwarded once and the handshake is completed at the broker |
| Relay.RelayIdentity | src/broker.c:122-137 | every matching subscriber gets the publisher's bytes unchanged; its event carries the published data and the first 127 bytes of the topic |
| Relay.BrokerReadsWhatWasSent | src/broker.c:310-343 | in every run, each packet to the broker satisfies its handlers' memory preconditions and is parsed as the message sent |
| Relay.ClientReadsWhatWasSent | src/slimmq_client.c:33-47 | likewise each packet to a client |
| BrokerModel.AtMostOncePerSubscriber | src/broker.c:122-167 | for any messages from anyone: at most one QoS 2 forward per publisher and id, and at most one packet of it per subscriber, whatever filters overlap |
| BrokerModel.DeliveredToSubscribers | src/broker.c:122-167 | if a QoS 2 publication is served when its id is new, then whatever is served before and after, an address has exactly one delivery for it if it had subscribed with a matching filter by then, and none otherwise |
| BrokerModel.ForwardOrigin | src/broker.c:156-167 | every QoS 2 forward was caused by a publication whose id was new |
| BrokerModel.EntriesOnlyAdvance | src/broker.c:156-271 | between messages no entry disappears or falls back in Received < WaitRelease < Released < Completed, and Released is never seen |
| BrokerModel.EntryOfRun | src/broker.c:156-271 | after any messages an entry exists iff a QoS 2 publication or a RELEASE of this publisher and id was among them; it is Completed iff a RELEASE was, else WaitRelease iff a RECEIVED came behind the publication, else Received |
| BrokerModel.SubscriptionsOfRun | src/broker.c:115-120 | after any messages the subscriptions are exactly those of the SUBSCRIBE messages among them |
| BrokerModel.OrderOfSubscriptions | src/topic_table.c:185-201 | order and repetition of messages do not change any later match set |
| BrokerModel.StepKeepsGuard | src/broker.c:152-220 | the invariant behind at-most-once: no entry means no forward yet, and packets to a subscriber never exceed forwards |
| Brokers.Broker.HandleDatagram | src/broker.c:304-348 | one round of the main loop does to tables, log and network what the state machine does with the parsed message; an unparsable datagram changes nothing |
| Brokers.WireAgreesWithLog | src/broker.c:122-143 | over all datagrams the broker has sent, a publication's bytes went to an address as often as the log of forwards says |
| Brokers.AnswersOnWire | src/broker.c:159-248 | over all datagrams sent, a client got each answer as often as its messages called for it: an ACK for each QoS 1 publication, a RECEIVED for each QoS 2 one not yet completed, a COMPLETE for each RELEASE |
| Brokers.SilentOnceCompleted | src/broker.c:158-163 | once an entry is completed it stays so, and no message makes the broker send its RECEIVED again |
| Brokers.EncodeTellsApart | src/packet_handler.c:69-132 | different messages have different bytes, and no answer has those of a publication |
| Brokers.Broker.Dispatch | src/broker.c:320-346 | the branches of the main loop after receiving |
| Brokers.Broker.HandlePublish | src/broker.c:152-220 | the handler on the real tables performs the state machine's QoS 0/1/2 reaction, with all packets in order; at QoS 1 the last datagram is the ACK to the publisher |
| Brokers.Broker.HandleExactlyOnce | src/broker.c:156-189 | forwards only when the id is new, is silent once completed, otherwise ends with RECEIVED to the publisher |
| Brokers.Broker.PublishToSubscribers | src/broker.c:122-143 | sends one packet to each matching subscriber, in list order, if the message fits the packet buffer |
| Brokers.Broker.SendAll | src/broker.c:130-140 | the sending loop emits exactly the packets of the list |
| Brokers.Broker.HandleControlRelease | src/broker.c:222-248 | the entry, known or not, ends completed and one COMPLETE is sent |
| Brokers.Broker.HandleControlReceived | src/broker.c:250-271 | only an entry in state Received moves, to WaitRelease |
| Brokers.Broker.HandleControl | src/broker.c:273-297 | a parsed CONTROL packet has the state machine's effect, a malformed one none |
| Brokers.Broker.HandleSubscribe | src/broker.c:115-120 | the subscriptions gain exactly this pair |
| Brokers.Broker.SendControl | src/broker.c:170-181 | the packet sent is the encoded two-step answer |
| Clients.Client.Publish | src/slimmq_client.c:143-235 | the call's own moves, mixed with any moves of other threads, are the state machine's from its first line to the result it returns and records; that is 0 or -1, and when it is 0 a datagram with this level's publication has been sent |
| Clients.Client.Interleave | src/slimmq_client.c:17-69 | between two accesses to shared state: any datagrams heard and any other calls, all recorded as moves; the call in progress stays where it is |
| Clients.Client.Begin | src/slimmq_client.c:147-163 | takes the next id and builds the packet, or fails iff it does not fit 2048 bytes |
| Clients.Client.Attempt | src/slimmq_client.c:167-232 | one round of the retry loop, at any QoS level, ends the call with a result or leads to the next attempt; at QoS 0 the result is 0 iff the datagram was sent; at a level above 2 to the same attempt again |
| Clients.Client.AwaitAck | src/slimmq_client.c:177-187 | polls as the state machine does (how often is `Waits.AckWait`); true iff the ACK was taken |
| Clients.Client.Handshake | src/slimmq_client.c:189-231 | the QoS 2 half of an attempt |
| Clients.Client.AwaitReceived | src/slimmq_client.c:190-196 | ends at the check, when a poll finds the id waiting to complete or none is left (`Waits.ReceivedWait`) |
| Clients.Client.SendRelease | src/slimmq_client.c:204-218 | the RELEASE is the publication's header with type and length replaced |
| Clients.Client.AwaitComplete | src/slimmq_client.c:220-231 | success only with a completed entry, which is then removed (`Waits.CompleteWait`) |
| Clients.Client.PollComplete | src/slimmq_client.c:220-226 | one poll, and the removal after it |
| Clients.Client.Subscribe | src/slimmq_client.c:119-141 | takes an id; if the result is not negative, exactly one datagram was sent, which parses as a SUBSCRIBE with this topic and id, and the result is its length; else nothing was sent, always when it does not fit |
| Clients.Client.NextEvent | src/slimmq_client.c:254-266 | hands out the oldest event's data and the part of its topic that fits |
| Clients.Client.SetQos | src/slimmq_client.c:268-276 | choosing QoS 2 forgets all handshakes |
| Clients.Client.SetRetryPolicy | src/slimmq_client.c:278-283 | sets both limits |
| Clients.Client.Hear | src/slimmq_client.c:27-67 | one round of the listener does what the state machine does with the parsed message; an unparsable datagram changes nothing |
| Clients.Client.HearControl | src/slimmq_client.c:46-58 | RECEIVED and COMPLETE set the id's state, whatever it was (`Waits.LastHeardCounts`), other types nothing |
| Clients.Client.constructor | src/slimmq_client.c:71-98 | a new client: ids from 1, QoS 0, empty queue and table |
| TopicTables.TopicTable.GetMatchingSubscribers | src/topic_table.c:247-260 | the list holds exactly the addresses subscribed with a matching filter, each once, and `count` is their number |
| TopicTables.TopicTable.Subscribe | src/topic_table.c:185-201 | the subscriptions gain exactly this pair; a pair already there changes nothing in the whole trie |
| TopicTables.TopicTable.MatchRecursive | src/topic_table.c:212-238 | adds exactly the matching subscribers whose filter runs through the node |
| TopicTables.TopicTable.VisitChildren | src/topic_table.c:230-237 | the loop adds the union over all children |
| TopicTables.TopicTable.CopyInto | src/topic_table.c:215-225 | adds the node's subscribers without repeats |
| TopicTables.TopicTable.Descend | src/topic_table.c:189-192 | reaches the node of the filter, creating only what is missing |
| TopicTables.TopicTable.FindOrCreateChild | src/topic_table.c:134-146 | the child for this segment; nothing changes if it exists |
| TopicTables.TopicTable.AddSubscriber | src/topic_table.c:194-196 | the node's list gains the address unless it is there |
| TopicTables.TopicTable.constructor | src/topic_table.c:94-97 | an empty table |
| TopicTables.SiblingsDiffer | src/topic_table.c:134-146 | no two siblings share a segment |
| TopicTables.AddedChildKeepsShape | src/topic_table.c:141-145 | a new child keeps the shape invariant of the trie |
| TopicTables.AddedSubscriberKeepsShape | src/topic_table.c:118-123 | so does a new subscriber; lists stay without repeats and agree with the flat set |
| TopicTables.MatchingBelowSplits | src/topic_table.c:212-238 | the matches below a node are its own and those below its children |
| TopicTables.NothingBelowLastLevel | src/topic_table.c:228 | stopping at the topic's last level loses nothing |
| TopicFilters.AgreesWithStandard | src/topic_table.c:212-238 | for filters with `#` only last, the code matches iff sections 4.7.1.2 and 4.7.1.3 of MQTT 3.1.1 do and the filter is not longer than the topic; they differ only in the parent level |
| TopicFilters.ParentLevelDiffers | src/topic_table.c:228-237 | the witness: `sport/#` does not select `sport` |
| TopicFilters.InnerHashTakesOneLevel | src/topic_table.c:232-235 | a `#` that is not last means the same as `+` |
| TopicNames.SplitTopic | src/topic_table.c:156-175 | slots hold the tokens in order, never more than the slash-derived count; slots no token reached stay null |
| TopicNames.CountLevels | src/topic_table.c:158-162 | the count is the number of levels, empty ones included |
| TopicNames.FillSlots | src/topic_table.c:164-170 | every store is inside the array; the slots hold the tokens |
| TopicNames.TokensFillLevels | src/topic_table.c:156-175 | all slots are filled iff no level is empty, and then joining the tokens gives the topic back |
| TopicNames.LeadingSlashLeavesSlotEmpty | src/topic_table.c:156-175 | the advertised filter `/sensor/#`: three slots, two tokens |
| TopicNames.JoinOfLevels | src/topic_table.c:156-175 | joining the levels of any topic restores it |
| TopicNames.LevelsOfJoin | src/topic_table.c:156-175 | no two level lists spell the same topic |
| TopicNames.NextToken | src/topic_table.c:165-170 | `strtok` yields the next non-empty level and leaves the rest |
| SubscriberLists.SubscriberList.RemoveDuplicates | src/topic_table.c:27-55 | relinked in place, the list keeps the first occurrence of each address in order, and `count` falls by the number removed |
| SubscriberLists.FirstOccurrencesKeepsMembers | src/topic_table.c:27-55 | first occurrences are the same members, once each; nothing changes iff there were no repeats |
| SubscriberLists.DroppedRepeat | src/topic_table.c:43-49 | dropping one repeat does not change the outcome |
| SubscriberLists.SubscriberList.Contains | src/topic_table.c:65-72 | true iff the address is listed |
| SubscriberLists.IsDuplicate | src/topic_table.c:82-89 | true iff the address is in the node's list |
| EventQueues.EventQueue.Push | src/event_queue.c:24-59 | appends the event with its topic cut to 127 bytes, or leaves the queue as it was and says why |
| EventQueues.EventQueue.Pop | src/event_queue.c:61-76 | removes the head and hands its buffer over |
| EventQueues.EventQueue.WaitAck | src/event_queue.c:78-103 | removes exactly the first ACK with this id and keeps the others in order across the wrap; -1 iff there is none |
| EventQueues.EventQueue.ShiftDown | src/event_queue.c:89-93 | the copying loop moves every later slot one place towards the head |
| EventQueues.EventQueue.RemoveAt | src/event_queue.c:86-96 | frees the event's buffer and closes the gap |
| EventQueues.EventQueue.Destroy | src/event_queue.c:14-22 | every buffer ever allocated was given away or freed, and none freed twice |
| EventQueues.EventQueue.constructor | src/event_queue.c:8-12 | an empty ring |
| EventQueues.NoSharingWithout | src/event_queue.c:89-93 | removal from the middle keeps live buffers distinct |
| EventQueues.HandedOver | src/event_queue.c:61-76 | giving the first buffer away keeps the account of allocated, given and freed buffers |
| EventQueues.FreedOne | src/event_queue.c:87 | freeing one buffer keeps the account |
| EventQueues.FirstAck | src/event_queue.c:81-85 | the result is the place of the first ACK with this id, or the length |
| EventQueues.Cut | src/event_queue.c:38-39 | the stored topic is a prefix of at most 127 bytes, the topic itself when it is that short |
| EventHistories.MessagesFirstInFirstOut | src/event_queue.c:24-103 | over any interleaving, accepted messages are the popped ones followed by the queued ones, in order |
| EventHistories.EventsAreConserved | src/event_queue.c:24-103 | every accepted event is popped, taken as an ACK or still queued, exactly once; at most 128 are queued |
| ChainTables.ChainTable.Put | src/pending_table.c:32-53 | map put, whatever the chain looks like; every entry stays in its own bucket and keys stay unique |
| ChainTables.ChainTable.Get | src/pending_table.c:55-67 | map lookup |
| ChainTables.ChainTable.Remove | src/pending_table.c:69-84 | deletes exactly this key |
| ChainTables.ChainTable.CleanupExpired | src/pending_table.c:86-105 | keeps exactly the entries with now - timestamp <= expiration, with their states and time stamps |
| ChainTables.ChainTable.CleanupBucket | src/pending_table.c:89-103 | does so for one bucket, touching no unexpired entry |
| ChainTables.ChainTable.Find | src/pending_table.c:34-44 | the walk ends at the key's only node, with its predecessor, or the key is absent |
| ChainTables.ChainTable.OnePlace | src/pending_table.c:37-44 | a key sits in one place of one bucket only |
| ChainTables.ChainTable.Clear | src/qos2_table.c:12-14 | forgets every entry |
| ChainTables.ChainTable.constructor | src/pending_table.c:16-18 | an empty map |
| PendingTables.BucketOf | src/pending_table.c:12-14 | the exclusive or of address, port and id always names one of the 1024 buckets |
| Qos2Tables.BucketOf | src/qos2_table.c:8-10 | always one of the 256 buckets |
| Qos2Tables.GetState | src/qos2_table.c:50-61 | the state of the id, None when unknown |
| Messages.DecodeEncoded | src/packet_handler.c:69-224 | every message client and broker build is parsed as it was built, whatever is left in the receive buffer |
| Messages.ProtocolMessagesEncodable | src/slimmq_client.c:119-163 | a publication or subscription that fits 2048 bytes was not truncated in its 16-bit length, and conversely; the fixed messages always encode |
| Messages.ReplyBytes | src/broker.c:168-248 | ACK, RECEIVED and COMPLETE, byte by byte |
| Messages.RequestBytes | src/slimmq_client.c:119-218 | PUBLISH, RELEASE and SUBSCRIBE, byte by byte |
| Messages.Parse | src/broker.c:322-325 | header, topic and data as C string and byte range |
| Codec.HeaderRoundTrip | include/slim_msg.h:20-33 | all ten fields survive the 15 bytes |
| Codec.HeaderBytesRoundTrip | include/slim_msg.h:20-33 | and the 15 bytes survive the fields |
| Codec.HeaderLayout | include/slim_msg.h:20-33 | where each field lies in the 15 bytes, the least significant byte first |
| Codec.MessageLayout | src/packet_handler.c:69-101 | length byte at 15, topic from 16 on, data behind it |
| Codec.SerializeMessage | src/packet_handler.c:69-101 | writes header, topic length, topic, data and nothing else, or fails iff they do not fit |
| Codec.DeserializeMessage | src/packet_handler.c:182-224 | result code, header and both output buffers, on success and in every error case |
| Codec.MessageRoundTrip | src/packet_handler.c:69-224 | parsing undoes serialising iff the header declares the true payload length |
| Codec.ParsedBytesRoundTrip | src/packet_handler.c:182-224 | whatever parses serialises back to the bytes it was read from |
| Codec.SerializeControl | src/packet_handler.c:115-132 | overwrites type and length, writes header, control type and data, or fails iff they do not fit |
| Codec.DeserializeControl | src/packet_handler.c:146-167 | result code, header, type and data; a declared length of zero wraps and is rejected |
| Codec.ControlRoundTrip | src/packet_handler.c:115-167 | a control packet parses back iff its 16-bit length did not wrap |
| Bytes.CStringOfTerminated | src/packet_handler.c:210-213 | a NUL-terminated copy reads back as the text, whatever follows |

## Left out

- Sockets and transports (src/transport_udp.c, src/transport_tcp.c): operating-system calls; the network is a set of packets.
- Real time, `usleep` and `time(NULL)`: `now` is an argument, a sleep is a point where other threads run.
- pthread locks and condition variables: each queue operation is one step.
- Clients.Client.Interleave: moves of other threads between two accesses to shared state, not races inside one access to the unlocked handshake table.
- Clients.Client.Publish: excludes a QoS level above 2, with which the loop sends until a send fails, and the wrap of the 32-bit message id.
- Clients.Client.SetRetryPolicy: does not model a change while a publish call is running, with which its loops need not end.
- Clients.Client.NextEvent: begins when there is an event; the wait for one is not modelled.
- EventQueues.EventQueue.Pop: begins when there is an event; the wait on the condition variable is not modelled.
- LossSchedules: a packet that gets through to the broker is handled at once, an answer that misses its own wait never comes, and no other traffic reaches the client during the call; `Delivery` has none of these restrictions.
- Clients.Client.SetQos: does not model that the forgotten table entries are never freed.
- `slimmq_close`, the error paths of `slimmq_connect`, and `slimmq_receive`, which bypasses the queue.
- Delivery to the application: forwarding from broker to subscriber is neither acknowledged nor deduplicated on the subscriber's side, so nothing is claimed end to end beyond the broker.
- Malformed packets in `Delivery`: its clients are honest; `BrokerModel` covers arbitrary messages.
- Codec.DeserializeMessage: does not model null output buffers, which only the unused `receive_from_client` passes.
- Freeing of tables, tries and result lists at shutdown, and all allocation failures except the queue's -2.
- `unsubscribe_topic` is declared but not implemented; `echo_to_client` is unused.
- Debug dumps, `print_topic_tree`, `main` functions, command lines, example and performance clients, test/lossy_broker.c.
