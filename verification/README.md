# NFD-QoS forwarding core in Dafny

This project models the QoS forwarding machinery of an NFD forwarder running
inside the ns-3 simulator (`daemon/fw/`):

- **`QosQueue`**: one bounded FIFO class queue. It also carries a WFQ
  (weighted fair queueing) weight and a last virtual finish time.
- **`NdnPriorityTxQueue`**: the three class queues of one outgoing face, with
  weights 3, 2 and 1. It maps a priority level to a class and advances the
  class's virtual finish time on enqueue. It picks the class to send from
  token availability and the smallest virtual finish time.
- **`TokenBucket`**: per-class token buckets. They hold per-face token and
  need counts.
- **`QosStrategy2`**: the main strategy. It has:
  - name-based classification;
  - the loss-aware fan-out, which adds the most reliable unused face until a
    success target is met;
  - the best-route fallback for best-effort traffic;
  - the token-gated drain pass `prioritySend`;
  - the per-prefix EWMA (exponentially weighted moving average) loss
    statistics with their bootstrap counter.
- **`QosStrategy`**: the older variant. It multicasts the two gated classes to
  every usable next hop.
- **`QosMitigation`**: a 100-entry window of recent prefixes, a loss estimate,
  and demotion of the most frequent prefix once losses run high.
- **`BestRouteStrategyAttacker`**: best-route forwarding that also counts
  interests per device. At every ten-second boundary it records the most
  counted device as the node's target.

Everything is modelled with immutable datatypes and pure functions.

- Queues are sequences and token buckets are maps.
- A FIB next hop is a record. It carries what the strategies ask about its face:
  - whether the face is ad hoc;
  - whether forwarding there would violate scope;
  - the out-record on it;
  - its transport and device occupancy;
  - its per-upstream retransmission-suppression verdict.
- Names are sequences of components.
- Loss rates and probabilities are `real`.

Module layout:

| file | module | models |
|---|---|---|
| `wrappers.dfy` | `Wrappers` | `Option` |
| `names.dfy` | `Names` | names, `getSubName` prefixes, string tests |
| `qos_queue.dfy` | `QosQueue` | `QosQueue`, `QueueItem`, packet kinds |
| `priority_tx_queue.dfy` | `PriorityTxQueue` | `NdnPriorityTxQueue` |
| `token_bucket.dfy` | `TokenBucket` | `TokenBucket` |
| `next_hops.dfy` | `NextHops` | eligibility, earliest out-record, best-route choice, pending downstreams |
| `scheduler.dfy` | `Scheduler` | per-face queue sets, the three buckets, `prioritySend` |
| `loss_estimator.dfy` | `LossEstimator` | `FaceStats`, `initialize`, `getFaceProb`, satisfy and expiry updates |
| `qos_strategy.dfy` | `QosStrategy` | `QosStrategy2` triggers and fan-out |
| `qos_strategy_org.dfy` | `QosStrategyOrg` | `QosStrategy` triggers |
| `qos_mitigation.dfy` | `QosMitigation` | `QosMitigation` |
| `best_route_attacker.dfy` | `BestRouteAttacker` | `BestRouteStrategyAttacker` |

Behaviour of the code that a reader might not expect, and that the model
keeps:

- **Refill always signals.** `addToken` computes whether some face's need is
  now met, never reads that flag, and calls `send` after every refill
  (`daemon/fw/ndn-token-bucket.cpp` lines 36-50).
- **Admission needs more than one token.** A class qualifies for sending only
  while its bucket holds strictly more than one token (`highTokens > 1` and
  the like, `daemon/fw/ndn-priority-tx-queue.cpp` lines 63, 69 and 79).
- **Nacks do nothing.** `afterReceiveNack` of `QosStrategy2` and of
  `QosStrategy` returns on its first statement, so the enqueueing code after
  it never runs (`daemon/fw/qos-strategy.cpp` line 375,
  `daemon/fw/qos-strategy-org.hpp` line 307).
- **The attacker never clears its counts.** The clears of `popMap` and
  `nameMap` are commented out (`daemon/fw/best-route-attacker.cpp` lines 199
  and 202), so device counts accumulate across periods.

## Model

| member | source | states |
|---|---|---|
| `QosQueue.KindCode` | daemon/fw/ndn-qos-queue.hpp:44-50 | INVALID is the only packet kind with code -1, and every code lies in -1..2 |
| `QosQueue.NewQueue` | daemon/fw/ndn-qos-queue.cpp:30-35 | a fresh queue is empty, holds up to `QUEUE_SIZE` (10) items, and has weight 0 and last virtual finish time 0 |
| `QosQueue.SetMaxQueueSize` | daemon/fw/ndn-qos-queue.cpp:37-41 | reading the capacity back gives the value set; items, weight and finish time are untouched |
| `QosQueue.SetWeight` | daemon/fw/ndn-qos-queue.cpp:49-53 | reading the weight back gives the value set; every other field is untouched |
| `QosQueue.SetLastVirtualFinishTime` | daemon/fw/ndn-qos-queue.cpp:61-65 | reading the finish time back gives the value set; every other field is untouched |
| `QosQueue.Enqueue` | daemon/fw/ndn-qos-queue.cpp:73-90 | succeeds iff the queue is below capacity; success appends the item at the back; failure leaves the queue unchanged; the capacity bound is preserved |
| `QosQueue.Dequeue` | daemon/fw/ndn-qos-queue.cpp:92-107 | a non-empty queue hands out its head and loses exactly that item; an empty queue hands out the default INVALID item and is unchanged |
| `QosQueue.IsEmpty` | daemon/fw/ndn-qos-queue.cpp:128-132 | a queue is empty exactly when a dequeue leaves it unchanged, and then the dequeue hands out the default item |
| `QosQueue.GetFirstElement` | daemon/fw/ndn-qos-queue.cpp:134-146 | peeks at the item `Dequeue` would hand out; an empty queue gives the default item, with no pending entry and no faces |
| `QosQueue.EnqueueAllAppends` | daemon/fw/ndn-qos-queue.cpp:73-90 | while there is room, a batch of enqueues appends the whole batch in order |
| `QosQueue.DequeueNIsPrefix` | daemon/fw/ndn-qos-queue.cpp:92-107 | n dequeues return the first n items in queue order |
| `QosQueue.FifoRoundTrip` | daemon/fw/ndn-qos-queue.cpp:73-107 | up to capacity, whatever enters a fresh queue comes back out unchanged and in insertion order |
| `QosQueue.FreshQueueHoldsQueueSize` | daemon/fw/ndn-qos-queue.cpp:30-90 | a fresh queue takes exactly 10 items; the eleventh enqueue fails and changes nothing |
| `PriorityTxQueue.ClassOfChoice` | daemon/fw/ndn-priority-tx-queue.cpp:114-126 | choice 0 names the high queue and 1 the medium queue; any other value, including out-of-range ones, names the low queue |
| `PriorityTxQueue.NewTxQueue` | daemon/fw/ndn-priority-tx-queue.cpp:30-35 | three empty queues with capacity 10 and finish time 0, weighted 3, 2 and 1 |
| `PriorityTxQueue.FlowRate` | daemon/fw/ndn-priority-tx-queue.cpp:37-44 | a class's flow rate is a share between 0 and 1 |
| `PriorityTxQueue.FlowRatesSumToOne` | daemon/fw/ndn-priority-tx-queue.cpp:37-44 | the three flow rates of any queue set with positive total weight add up to one |
| `PriorityTxQueue.NewTxQueueFlowRates` | daemon/fw/ndn-priority-tx-queue.cpp:30-44 | with the constructor's weights the shares are 1/2, 1/3 and 1/6 |
| `PriorityTxQueue.NextVft` | daemon/fw/ndn-priority-tx-queue.cpp:46-54 | the new finish time is at least the current time and at least the old finish time, and exceeds their maximum by at most the packet size |
| `PriorityTxQueue.NextVftIsFloorOfFlowRateFormula` | daemon/fw/ndn-priority-tx-queue.cpp:46-54 | the integer finish-time increment is the floor of `size * (1 - flowRate)` |
| `PriorityTxQueue.SelectQueueToSend` | daemon/fw/ndn-priority-tx-queue.cpp:56-89 | returns no class iff no class is non-empty with more than one token; otherwise a qualifying class with the smallest finish time, the lowest index on a tie |
| `PriorityTxQueue.ClassOfLevel` | daemon/fw/ndn-priority-tx-queue.cpp:91-104 | levels 1-20 map to high, 21-40 to medium and 41-64 to low; any other level maps to no class |
| `PriorityTxQueue.DoEnqueue` | daemon/fw/ndn-priority-tx-queue.cpp:91-112 | succeeds iff the level has a class whose queue has room; success appends to that class only and advances its finish time; failure changes nothing |
| `PriorityTxQueue.IsEmpty` | daemon/fw/ndn-priority-tx-queue.cpp:134-138 | the set is empty iff its three queues hold no item in total |
| `PriorityTxQueue.DoDequeue` | daemon/fw/ndn-priority-tx-queue.cpp:114-132 | dequeues from the chosen class only; a non-empty chosen queue loses one item; an all-empty set hands out the default item unchanged |
| `PriorityTxQueue.TokenReq` | daemon/fw/ndn-priority-tx-queue.cpp:140-168 | a class needs one token iff its queue is non-empty, else none |
| `PriorityTxQueue.SelectedClassDequeuesOne` | daemon/fw/ndn-priority-tx-queue.cpp:56-132 | dequeueing the class `SelectQueueToSend` picked hands out that class's head and removes exactly one item |
| `TokenBucket.NewBucket` | daemon/fw/ndn-token-bucket.cpp:28-32 | a fresh bucket has capacity 0, tracks no face, and is not marked in use |
| `TokenBucket.AddToken` | daemon/fw/ndn-token-bucket.cpp:34-51 | each tracked face below capacity gains exactly one token; the others keep theirs; no face becomes tracked; every tracked face without a need gets a zero need |
| `TokenBucket.ConsumeToken` | daemon/fw/ndn-token-bucket.cpp:53-61 | an untracked face starts from a full bucket; the amount is subtracted from that face only, with no lower clamp |
| `TokenBucket.SetNeed` | daemon/fw/qos-strategy.cpp:534-536 | records the token need of one face; tokens, capacity, the face set and every other face's need are unchanged |
| `TokenBucket.AddTokenKeepsBound` | daemon/fw/ndn-token-bucket.cpp:34-51 | refill keeps every count within [lo, capacity] once it starts there |
| `TokenBucket.AddTokenStepsByOne` | daemon/fw/ndn-token-bucket.cpp:37-43 | a refill raises a tracked count by 0 or 1, and never raises it past capacity |
| `TokenBucket.ConsumeThenRefillRestores` | daemon/fw/ndn-token-bucket.cpp:34-61 | consuming one token and then refilling restores a count that was at most capacity |
| `TokenBucket.ConsumeCanGoNegative` | daemon/fw/ndn-token-bucket.cpp:53-61 | consuming from a fresh bucket drives the count to -1 |
| `Names.DropLast` | daemon/fw/qos-strategy.cpp:192 | dropping k components shortens a name by k and keeps a prefix; with fewer than k components the unsigned count wraps and the whole name is kept |
| `NextHops.Eligible` | daemon/fw/qos-strategy.cpp:101-135 | an eligible hop is never the arrival face unless that face is ad hoc, never violates scope, has no unexpired out-record when an unused hop is wanted, and with the link test is a net-device face with at most 100 packets queued |
| `NextHops.FindFirstEligible` | daemon/fw/qos-strategy.cpp:101-135 | finds the first eligible hop, with no eligible hop before it, or reports that none is eligible |
| `NextHops.FindEarliestOutRecord` | daemon/fw/qos-strategy.cpp:137-162 | finds an eligible hop whose out-record was renewed no later than any other, strictly earlier than every hop before it; or reports none |
| `NextHops.BestRouteChoice` | daemon/fw/qos-strategy.cpp:292-366 | suppressed iff the entry verdict is SUPPRESS; NO_ROUTE iff a new entry has no eligible hop; a retry is dropped iff no hop is eligible; a new entry goes to the first eligible hop; a retry goes to the first eligible hop without an unexpired out-record, and when there is none to an eligible hop renewed no later than any other |
| `NextHops.RetryNeedsNoMissingRecord` | daemon/fw/qos-strategy.cpp:333-353 | when no eligible hop is unused, every eligible hop has an unexpired out-record, so the assertion in the earliest search holds |
| `NextHops.PendingDownstreams` | daemon/fw/qos-strategy.cpp:428-440 | lists each face with an unexpired in-record exactly once, leaving out the arrival face unless it is ad hoc |
| `Scheduler.NewSched` | daemon/fw/qos-strategy-2.hpp:148-153 | no face has a queue set yet; the invariant of the queue map holds |
| `Scheduler.QueueAt` | daemon/fw/qos-strategy.cpp:260 | a face with a queue set reads that set; a face without one reads a fresh, empty queue set with the default weights |
| `Scheduler.EnqueueAt` | daemon/fw/qos-strategy.cpp:259-260 | enqueues on one face, creating its queue set on first use; other faces and the buckets are unchanged |
| `Scheduler.EnqueueEach` | daemon/fw/qos-strategy.cpp:442-447 | after enqueueing on a list of faces, the faces with a queue set are the old ones plus the listed ones; unlisted faces are unchanged |
| `Scheduler.EnqueueEachLands` | daemon/fw/qos-strategy.cpp:442-447 | when no face is listed twice, each listed face's queue set afterwards is exactly its earlier one (an empty one if it had none) after one `DoEnqueue` of the item addressed to that face |
| `Scheduler.EnqueueEachDelivered` | daemon/fw/qos-strategy.cpp:442-449 | enqueueing on distinct faces and then a pass that loses no packet: each listed face ends with its earlier packets plus one exactly when its queue set accepted the item, counting those still queued and those sent through it; every other face ends with what it had |
| `Scheduler.EnqueueAtDelivered` | daemon/fw/qos-strategy.cpp:322-329 | the same for one face: it gains one packet, queued or sent through it, exactly when its queue set accepted the item; every other face ends with what it had |
| `Scheduler.DrainDelivered` | daemon/fw/qos-strategy.cpp:368 | a drain pass on its own leaves every face with its packets, queued there or sent through it |
| `Scheduler.PassesChain` | daemon/fw/qos-strategy.cpp:272-368 | two drain passes in a row lose no packet, like one pass whose dispatch log is the two logs joined |
| `Scheduler.ChargeSend` | daemon/fw/qos-strategy.cpp:489-501 | a send takes one token from the chosen class for that face only, clears that need, marks the bucket in use, and leaves other classes alone |
| `Scheduler.RecordNeed` | daemon/fw/qos-strategy.cpp:532-539 | a failed selection records, for every class, whether the face still has packets of that class; tokens are untouched |
| `Scheduler.DrainFace` | daemon/fw/qos-strategy.cpp:474-540 | everything a face's drain sends leaves through that face, and the packets sent plus those left queued number exactly those queued before; class weights are kept |
| `Scheduler.DrainFaceConservesClasses` | daemon/fw/qos-strategy.cpp:474-540 | per class, the sent packets followed by what stays queued are exactly the queue before the drain: nothing is lost or reordered |
| `Scheduler.DrainFaceRespectsOccupancy` | daemon/fw/qos-strategy.cpp:469-506 | a drain never fills the device queue beyond the limit of 25 packets |
| `Scheduler.DrainFaceRunsToEnd` | daemon/fw/qos-strategy.cpp:474-540 | a drain that does not block stops only when the face is empty or its device queue is full |
| `Scheduler.DrainFaceBlocksOnlyWhenStuck` | daemon/fw/qos-strategy.cpp:532-539 | a drain that sets `tokenwait` leaves packets queued with no class able to send, and each class's need recorded |
| `Scheduler.DrainFaceKeepsOtherFaces` | daemon/fw/qos-strategy.cpp:474-540 | draining one face changes no other face's token counts, nor any capacity |
| `Scheduler.DrainAt` | daemon/fw/qos-strategy.cpp:464-542 | draining the i-th face replaces only that face's queue set and the buckets; the queue map invariant holds |
| `Scheduler.DrainFrom` | daemon/fw/qos-strategy.cpp:462-543 | once `tokenwait` is set no later face is drained; per face, the packets still queued plus those sent through it equal what was queued; faces before position i keep their queues and send nothing |
| `Scheduler.TokenWaitHaltsPass` | daemon/fw/qos-strategy.cpp:474-538 | when a face blocks, every other face keeps its queues and sends nothing for the rest of the pass |
| `Scheduler.PrioritySend` | daemon/fw/qos-strategy.cpp:453-544 | one pass over all faces keeps the set of faces, and per face the packets still queued plus those sent through it equal what was queued |
| `Scheduler.TokenTick` | daemon/fw/ndn-token-bucket.cpp:34-51 | a refill of one class followed by the drain it signals conserves packets per face and keeps the set of faces |
| `Scheduler.StartRate` | daemon/fw/qos-strategy.cpp:468-474 | QosStrategy2 starts a face's drain from its device-queue occupancy, and a face without a net device counts as full (25), so it never sends; QosStrategy sets no bound |
| `LossEstimator.Rate` | daemon/fw/qos-strategy.cpp:650-652 | a face with no loss rate recorded reads 0, as `operator[]` default-constructs it; a rate table of probabilities gives a probability |
| `LossEstimator.Initialize` | daemon/fw/qos-strategy.cpp:612-633 | a new entry is not bootstrapped, has counted no send, and has zero loss on exactly the next hops that are not the blocked first in-record face and do not violate scope |
| `LossEstimator.CountSend` | daemon/fw/qos-strategy.cpp:200-204 | counts one send; the entry is bootstrapped iff it already was or more than 3 sends are counted |
| `LossEstimator.CountSends` | daemon/fw/qos-strategy.cpp:200-204 | a run of gated interests never touches either loss table; zero sends change nothing |
| `LossEstimator.CountSendsFrom` | daemon/fw/qos-strategy.cpp:200-204 | after n sends the counter grew by n; the bootstrap flag never reverts and is set once the count passes 3 |
| `LossEstimator.BootstrapAfterFourthSend` | daemon/fw/qos-strategy.cpp:200-204 | a fresh entry is bootstrapped exactly from its fourth send on |
| `LossEstimator.FaceProb` | daemon/fw/qos-strategy.cpp:644-661 | the probability is 0 before bootstrap; afterwards, it is one minus the absolute loss rate when `relative` is off and one minus the relative loss rate when it is on; a fan-out pass sets it once the pass has a best face (`bestFaceID != 0`); it lies in [0,1] |
| `LossEstimator.Decay` | daemon/fw/qos-strategy.cpp:673-677 | a success never raises a loss rate in [0,1] and strictly lowers a positive one |
| `LossEstimator.TowardOne` | daemon/fw/qos-strategy.cpp:681 | a loss never lowers a rate in [0,1], keeps it at most 1, and strictly raises one below 1 |
| `LossEstimator.MarkLoss` | daemon/fw/qos-strategy.cpp:681 | one face ends exactly one loss step above its old rate (a missing face counts as 0); every other face is unchanged; rates stay in [0,1] |
| `LossEstimator.ChargeOthers` | daemon/fw/qos-strategy.cpp:679-682 | when no face is listed twice, every upstream other than the answering face ends exactly one loss step above its old rate; in any case each such upstream is charged at least one step; the answering face and unlisted faces keep their rates; rates stay in [0,1] |
| `LossEstimator.SatisfyUpdate` | daemon/fw/qos-strategy.cpp:673-682 | the answering face is credited on both rates; when no upstream is listed twice, every other upstream ends exactly one loss step above its old absolute rate (at least one step in any case); no other rate changes and bootstrap state is untouched |
| `LossEstimator.ExpireAsWritten` | daemon/fw/qos-strategy.cpp:694-699 | as written, every upstream's absolute rate becomes a loss step applied to its relative rate, which itself is never updated |
| `LossEstimator.ExpireAsWrittenCanLowerLoss` | daemon/fw/qos-strategy.cpp:694-699 | as written, an expiry drops a face at loss 1 with relative rate 0 to 0.833 |
| `LossEstimator.ExpireUpdate` | daemon/fw/qos-strategy.cpp:694-699 | corrected: when no upstream is listed twice, an expiry moves both rates of every upstream exactly one loss step up; in any case at least one step; it never lowers any rate, leaves unlisted faces alone and keeps rates in [0,1] |
| `LossEstimator.MarkLosses` | daemon/fw/qos-strategy.cpp:694-699 | when no face is listed twice, each listed face ends exactly one loss step above its old rate (at least one step in any case); unlisted faces keep their rates; rates stay in [0,1] |
| `LossEstimator.ExpireUpdateKeepsLoss` | daemon/fw/qos-strategy.cpp:694-699 | corrected: the counterexample face stays at loss 1 |
| `LossEstimator.StatsKey` | daemon/fw/qos-strategy.cpp:192 | the forwarding path files statistics under the name minus its last component |
| `LossEstimator.StatsKeyAsWritten` | daemon/fw/qos-strategy.cpp:667 | the satisfy and expiry handlers as written use the name minus two components |
| `LossEstimator.UpdateEntry` | daemon/fw/qos-strategy.cpp:668-671 | an update of a prefix that has no statistics leaves the table as it is; otherwise only that prefix's entry is replaced |
| `LossEstimator.OnSatisfyAsWritten` | daemon/fw/qos-strategy.cpp:663-683 | as written, only the entry of the data name minus two components can change, and it gets the satisfy update |
| `LossEstimator.SatisfyAsWrittenMissesOwnEntry` | daemon/fw/qos-strategy.cpp:663-683 | as written, answering an interest never updates the entry its forwarding read |
| `LossEstimator.OnExpireAsWritten` | daemon/fw/qos-strategy.cpp:685-702 | as written, only the entry of the name minus two components can change, and it gets the overwriting expiry update |
| `LossEstimator.ExpireAsWrittenMissesOwnEntry` | daemon/fw/qos-strategy.cpp:688 | as written, the expiry of an interest never updates the entry its forwarding filed |
| `LossEstimator.OnSatisfyCorrected` | daemon/fw/qos-strategy.cpp:663-683 | corrected key: the entry the forwarding read gets the satisfy update; no other entry changes |
| `LossEstimator.OnExpireCorrected` | daemon/fw/qos-strategy.cpp:685-702 | corrected key and update: only the interest's own entry changes, by the expiry update |
| `LossEstimator.UpdatesKeepRatesProbabilities` | daemon/fw/qos-strategy.cpp:663-702 | satisfy and expiry keep every loss rate of the table in [0,1] |
| `QosStrategy.Classify` | daemon/fw/qos-strategy.cpp:169-184 | typeI gives level 1, typeII level 21, typeIII level 59, anything else best effort (60); best effort has target 0, the others a target in (0,1] |
| `QosStrategy.DataLevel` | daemon/fw/qos-strategy.cpp:412-423 | data keeps level 1 or 21 for typeI and typeII; everything else is best effort |
| `QosStrategy.CountFreshShrinks` | daemon/fw/qos-strategy.cpp:214-262 | choosing a face never adds unchosen candidates; choosing a fresh candidate face removes one, so the fan-out loop terminates |
| `QosStrategy.Scan` | daemon/fw/qos-strategy.cpp:219-253 | one inner pass counts the candidates on unchosen faces and notes any suppression; it picks an unchosen candidate whenever one exists; the best probability stays in [0,1] |
| `QosStrategy.FirstScan` | daemon/fw/qos-strategy.cpp:214-253 | a pass started with no best face counts exactly the candidates on unchosen faces and reports suppression iff some hop is suppressed |
| `QosStrategy.FirstScanPicksBest` | daemon/fw/qos-strategy.cpp:214-253 | one pass finds no face iff no candidate face is unchosen; otherwise its face is a fresh candidate whose reading (absolute rate for the first fresh candidate of the pass, relative after) no fresh candidate beats, and every later fresh candidate reads strictly less, since `>=` lets a tie go to the later hop |
| `QosStrategy.FanOut` | daemon/fw/qos-strategy.cpp:211-271 | the loop only extends the picks, and never lowers the count or the summed probability |
| `QosStrategy.FanOutDistinct` | daemon/fw/qos-strategy.cpp:213-262 | no face is picked twice for one interest |
| `QosStrategy.FanOutAddsCandidates` | daemon/fw/qos-strategy.cpp:219-262 | every picked face is a candidate (not suppressed, not the blocked arrival face, in scope) and not the reserved id 0 |
| `QosStrategy.FanOutCountsZero` | daemon/fw/qos-strategy.cpp:208-262 | the eligible-hop counter stays unchanged iff the target is already met or no unchosen candidate exists |
| `QosStrategy.FanOutSuppressed` | daemon/fw/qos-strategy.cpp:209-228 | the suppression flag is set iff it was set or the loop runs while some hop is suppressed |
| `QosStrategy.FanOutStops` | daemon/fw/qos-strategy.cpp:214-258 | the loop ends only when the summed probability reaches the target or every candidate face is picked |
| `QosStrategy.FanOutNoGainBeforeBootstrap` | daemon/fw/qos-strategy.cpp:211-262 | before bootstrap the summed probability never grows |
| `QosStrategy.FanOutForPicks` | daemon/fw/qos-strategy.cpp:211-271 | a gated interest goes only to candidate faces, each at most once, never to id 0 |
| `QosStrategy.FanOutPicksAreScans` | daemon/fw/qos-strategy.cpp:213-262 | every face the loop adds is the face a fresh pass finds over the faces picked before it |
| `QosStrategy.FanOutForPicksBest` | daemon/fw/qos-strategy.cpp:213-262 | the n-th face a gated interest is queued on is the best fresh face given the n faces picked before it |
| `QosStrategy.GatedNackIff` | daemon/fw/qos-strategy.cpp:274-283 | a gated interest is Nacked NO_ROUTE iff no next hop is a candidate and none is suppressed |
| `QosStrategy.BootstrapFloodsAllCandidates` | daemon/fw/qos-strategy.cpp:200-262 | before bootstrap, a gated interest goes to exactly the candidate faces, each once |
| `QosStrategy.CountedStats` | daemon/fw/qos-strategy.cpp:195-204 | the prefix's entry is created if absent and counts one more send; other prefixes are unchanged |
| `QosStrategy.OnInterest` | daemon/fw/qos-strategy.cpp:165-369 | gated traffic has a statistics entry under its prefix afterwards, gives a queue set to exactly the faces the fan-out picks, and is Nacked iff no next hop is a candidate and none is suppressed; its first drain reads the device queues once, and the second drain (an interest the entry verdict does not suppress) reads them again; best effort leaves statistics alone, gives a queue set to exactly the best-route face, is Nacked iff the entry is new and no hop is eligible, and changes nothing when suppressed. Where each packet goes is stated by `QosStrategy.GatedInterestDelivered` and `QosStrategy.BestEffortInterestDelivered` |
| `QosStrategy.GatedInterestGoesToBestFaces` | daemon/fw/qos-strategy.cpp:195-262 | a gated interest gives a queue set to exactly the fan-out's faces, each the best fresh face given those before it, read from the prefix's statistics after this send is counted |
| `QosStrategy.GatedInterestDelivered` | daemon/fw/qos-strategy.cpp:195-368 | each face the fan-out picks ends with one more packet, queued there or handed to the forwarder through it over both drain passes, exactly when its queue set accepted the interest; every other face ends with what it had |
| `QosStrategy.SendVia` | daemon/fw/qos-strategy.cpp:322-329 | queueing on one face and draining: that face gains one packet, queued or sent through it, exactly when its queue set accepted it; every other face ends with what it had |
| `QosStrategy.DrainOnly` | daemon/fw/qos-strategy.cpp:350-368 | a retransmission with no eligible hop only drains: the faces with queue sets are kept and every face ends with what it had |
| `QosStrategy.ForwardChoice` | daemon/fw/qos-strategy.cpp:292-368 | a best-effort interest gives a queue set to exactly the chosen face; that face gains one packet, queued or sent through it, exactly when its queue set accepted it; every other face ends with what it had; suppression and NO_ROUTE leave the queues alone and send nothing |
| `QosStrategy.BestEffortInterestDelivered` | daemon/fw/qos-strategy.cpp:292-368 | through the handler: the best-route face, if any, gains one packet, queued or sent through it, exactly when its queue set accepted the interest; every other face ends with what it had |
| `QosStrategy.ForwardData` | daemon/fw/qos-strategy.cpp:420-449 | the data is queued on the pending downstreams and drained: the faces with queue sets afterwards are the earlier ones plus the pending downstreams |
| `QosStrategy.DataDelivered` | daemon/fw/qos-strategy.cpp:420-449 | each pending downstream gains one packet, queued or sent through it, exactly when its queue set accepted the data; every other face ends with what it had |
| `QosStrategy.OnData` | daemon/fw/qos-strategy.cpp:400-450 | as written: only the entry of the data name minus two components changes, crediting the answering face on both rates and, when no upstream is listed twice, moving every other upstream exactly one loss step up (at least one step in any case); the interest's own entry is untouched; the faces with queues afterwards are the earlier ones plus the pending downstreams; nothing is Nacked |
| `QosStrategy.OnDataCorrected` | daemon/fw/qos-strategy.cpp:400-450 | with the corrected key, the statistics change exactly by the satisfy rule on the interest's own entry; queues as in `OnData` |
| `QosStrategy.OnExpire` | daemon/fw/qos-strategy.cpp:685-702 | as written: queues and prefixes are kept; only the entry of the name minus two components changes, each upstream's absolute rate becoming a loss step from its relative rate, which stays as it was; the interest's own entry is untouched |
| `QosStrategy.ExpireHandlerCanLowerLoss` | daemon/fw/qos-strategy.cpp:685-702 | as written, the expiry of `/a/typeI/x` drops the `/a` face at loss 1 with relative loss 0 to 0.833 |
| `QosStrategy.OnExpireCorrected` | daemon/fw/qos-strategy.cpp:685-702 | with the corrected key and update, an expiry leaves the queues alone, keeps the set of prefixes, never lowers either loss rate of an upstream of the expiring entry, and, when no upstream is listed twice, moves both rates of each exactly one loss step up |
| `QosStrategy.OnTokenTick` | daemon/fw/ndn-token-bucket.cpp:34-51 | a refill tick leaves statistics alone and conserves every queued packet |
| `QosStrategyOrg.FacesOf` | daemon/fw/qos-strategy-org.hpp:175-204 | the multicast targets are exactly the faces of the selected hops, one entry per hop; there are none iff no hop is selected |
| `QosStrategyOrg.MulticastReachesCandidates` | daemon/fw/qos-strategy-org.hpp:175-197 | the multicast sends to exactly the candidate faces |
| `QosStrategyOrg.OnInterest` | daemon/fw/qos-strategy-org.hpp:147-301 | gated traffic gives a queue set to exactly the candidate faces besides the earlier ones, is Nacked iff there is no candidate and no suppression, and widens the interval on exactly the candidate FORWARD hops; best effort gives a queue set to exactly the best-route face chosen without the link test, is Nacked iff the entry is new and no hop is eligible without that test, and changes nothing when suppressed. Where each packet goes is stated by `QosStrategyOrg.GatedMulticastDelivered` and `QosStrategyOrg.BestEffortInterestDelivered` |
| `QosStrategyOrg.FacesOfDistinct` | daemon/fw/qos-strategy-org.hpp:175-197 | with one next hop per face, as a FIB entry has, the multicast lists no face twice |
| `QosStrategyOrg.GatedMulticastDelivered` | daemon/fw/qos-strategy-org.hpp:169-225 | each candidate face gains one packet, queued or sent through it, exactly when its queue set accepted the interest; every other face ends with what it had; the drain is skipped when the entry verdict suppresses |
| `QosStrategyOrg.BestEffortInterestDelivered` | daemon/fw/qos-strategy-org.hpp:226-300 | the best-route face chosen without the link test, if any, gains one packet, queued or sent through it, exactly when its queue set accepted the interest; every other face ends with what it had |
| `QosStrategyOrg.ThirdClassIsBestEffortHere` | daemon/fw/qos-strategy-org.hpp:155-163 | the older strategy treats typeIII as best effort |
| `QosStrategyOrg.OnData` | daemon/fw/qos-strategy-org.hpp:333-382 | after the data is queued and drained, the faces with queues are the earlier ones plus the pending downstreams; where each packet goes is stated by `QosStrategyOrg.DataDelivered` |
| `QosStrategyOrg.DataDelivered` | daemon/fw/qos-strategy-org.hpp:360-381 | each pending downstream gains one packet, queued or sent through it, exactly when its queue set accepted the data; every other face ends with what it had |
| `QosMitigation.PrefixOf` | daemon/fw/qos-mitigation-strategy.cpp:95 | the prefix is the name without its last component, which appended gives back the name; the empty name gives the empty name |
| `QosMitigation.PrType` | daemon/fw/qos-mitigation-strategy.cpp:92-99 | class 3 iff the name's prefix is monitored with an estimate above 0.8; otherwise the base class |
| `QosMitigation.SuccessTarget` | daemon/fw/qos-mitigation-strategy.cpp:67-99 | demotion never raises an interest's success target; a demoted interest has target 0 |
| `QosMitigation.Push` | daemon/fw/qos-mitigation-strategy.cpp:106-107 | appends the prefix and drops the oldest entry beyond 100, so the window never exceeds 100 |
| `QosMitigation.OnSatisfy` | daemon/fw/qos-mitigation-strategy.cpp:101-114 | the prefix joins the window; a monitored prefix's estimate takes exactly one success step `(1 - beta) * old` and the aggregate is kept; otherwise the aggregate takes that step and the monitored table is kept; all values stay in [0,1] |
| `QosMitigation.ScanPopular` | daemon/fw/qos-mitigation-strategy.cpp:144-150 | after the counting loop, the leader's count is the maximum, and the leader reached it strictly before every other prefix |
| `QosMitigation.MostPopular` | daemon/fw/qos-mitigation-strategy.cpp:141-150 | no prefix occurs in the window more often than the picked count; an empty window gives the empty name |
| `QosMitigation.MostPopularIsFirstMaximum` | daemon/fw/qos-mitigation-strategy.cpp:141-150 | the picked prefix occurs in the window at least as often as any other and was first to its count; an empty window gives the empty name |
| `QosMitigation.FindSusFlow` | daemon/fw/qos-mitigation-strategy.cpp:137-153 | the most frequent prefix becomes monitored with estimate 0, the aggregate resets, and the window empties; other estimates are kept |
| `QosMitigation.OnExpire` | daemon/fw/qos-mitigation-strategy.cpp:116-153 | a rejected entry changes nothing; otherwise the window empties iff the aggregate after the update exceeds 0.6 with a full window. Without a search, the window is the old one with the prefix pushed, and a monitored prefix's estimate (else the aggregate) takes exactly one loss step `beta + (1 - beta) * old`. After a search, the aggregate is 0, the most frequent prefix of the pushed window is monitored at 0, and every other monitored prefix keeps its value, except the expiring prefix, which took its loss step |
| `QosMitigation.MonitoredEstimateMoves` | daemon/fw/qos-mitigation-strategy.cpp:109-130 | for a monitored prefix, an expiry raises its estimate (unless the culprit search ran) and a retrieval lowers it |
| `QosMitigation.CulpritStartsClean` | daemon/fw/qos-mitigation-strategy.cpp:92-153 | right after the culprit search, interests under the culprit prefix keep their base class |
| `BestRouteAttacker.ComponentUri` | daemon/fw/best-route-attacker.cpp:141-142 | the URI of one component: `/` followed by the component, counting a negative index from the end; `/` alone past the last component |
| `BestRouteAttacker.Counted` | daemon/fw/best-route-attacker.cpp:141-147 | only a name with at least four components can pass the filter |
| `BestRouteAttacker.CountedIff` | daemon/fw/best-route-attacker.cpp:141-147 | the URI filter counts exactly the names whose fourth component starts with PV or BESS and whose second-to-last does not contain "attack" |
| `BestRouteAttacker.CountedDevice` | daemon/fw/best-route-attacker.cpp:141-147 | a counted interest's device is a countable device name |
| `BestRouteAttacker.Count` | daemon/fw/best-route-attacker.cpp:140-168 | a filtered-out interest changes nothing; otherwise the device's count grows by one from 0 or its old value and records the payload; its `popMap` entry becomes 1 on a first sighting and otherwise grows by one, from 0 if it is missing; nothing else changes |
| `BestRouteAttacker.CountIsTally` | daemon/fw/best-route-attacker.cpp:140-168 | from no counts, a device's count equals the number of filtered interests addressed to it, and it has an entry iff that number is positive |
| `BestRouteAttacker.MaxEntry` | daemon/fw/best-route-attacker.cpp:173-184 | no listed device has a larger count; a positive maximum is the first device in iteration order to reach it; a zero maximum gives the initial pair |
| `BestRouteAttacker.NextCheck` | daemon/fw/best-route-attacker.cpp:196-197 | the new checktime is a multiple of the 10-second period |
| `BestRouteAttacker.NextCheckIsNextBoundary` | daemon/fw/best-route-attacker.cpp:196-197 | the new checktime is a multiple of 10 strictly after now, and for a non-negative clock it is the first such multiple |
| `BestRouteAttacker.RaiseLastClear` | daemon/fw/best-route-attacker.cpp:198-201 | `lastClear` never decreases and ends at least at the new checktime |
| `BestRouteAttacker.Close` | daemon/fw/best-route-attacker.cpp:170-203 | closing keeps the counts, moves checktime past now, and changes only this node's target; when the target changes, the node's flag is set |
| `BestRouteAttacker.CloseRecordsMostCounted` | daemon/fw/best-route-attacker.cpp:173-194 | a target is recorded iff some device has a positive count and the context is at most 3600; the target is a device with the largest count |
| `BestRouteAttacker.OnInterest` | daemon/fw/best-route-attacker.cpp:133-266 | before checktime the attacker state and the shared maps are exactly what `Count` gives (one more for the device in `nameMap` and `popMap`), otherwise exactly what `Close` gives; counts never drop and `lastClear` never decreases; the next-hop choice is best-route without the link test: a new entry to the first eligible hop, a retry to the first eligible hop without an unexpired out-record, else to the one renewed earliest |

## Left out

- **External calls.** Retransmission suppression, scope checks, and FIB/PIT
  lookups are not modelled; their results enter as data. The per-upstream
  verdict, the scope flag and the out-record are fields of each next hop. The
  per-entry verdict is a parameter.
- **Link-state queries.** The ns-3 transport downcast and the device queue
  occupancy are not modelled. The link kind is a next-hop field, and the
  occupancy enters as data, read once at the start of each drain pass. A
  gated `QosStrategy2` interest that is not suppressed runs two passes
  (lines 272 and 368), so `QosStrategy.OnInterest` takes one occupancy map
  for each. Within a pass the count read for a face grows by one per packet
  sent (line 506).
- `LossEstimator.ChargeOthers`, `LossEstimator.MarkLosses`,
  `LossEstimator.SatisfyUpdate`, `LossEstimator.ExpireUpdate`,
  `QosStrategy.OnData` and `QosStrategy.OnExpireCorrected` promise the
  exact single loss step only when no upstream face is listed twice, as a
  PIT entry keeps one out-record per face. A face listed twice would be
  charged twice; for it they promise at least one step.
- `QosStrategyOrg.GatedMulticastDelivered` assumes one next hop per face,
  as a FIB entry keeps. With a face listed twice the interest would be
  queued on it twice.
- **Sending.** `sendInterest`, `sendData`, `sendNack`, `processNack`,
  `rejectPendingInterest` and the `prioritySendX` wrappers are not modelled.
  A drain pass returns the items it hands to the forwarder, and a Nack with
  rejection is a flag or a `NoRoute` choice.
- **afterReceiveNack.** In `QosStrategy2` and `QosStrategy` it returns at
  once, so it has no model. In the attacker it only calls `processNack`,
  which is not part of this model.
- **Wire format.** `wireEncode` and `wireDecode` are not modelled. An item
  carries its encoding as bytes, and only the length is used, for the
  virtual finish time.
- **URI escaping.** `toUri` escaping is not modelled. Component tests compare
  component text directly.
- **Floating point.** IEEE-754 rounding is not modelled. This covers float
  flow rates, the float `minVirtualFinishTime` in `SelectQueueToSend`, and
  double token counts. Weights and tokens are integers (they only ever hold
  integers), and loss rates are exact reals.
- **Fixed-width integers.** `totalPacketsSent` (32-bit), the attacker's
  `int` counts and the 64-bit virtual times are unbounded here.
- **Global registry and signals.** The global bucket registry `CT` and the
  `send` signal wiring become direct calls: `TokenTick` runs the drain that
  `send` triggers.
- **Iteration order of hash maps.** The order of `m_tx_queue` is fixed to
  the order in which faces were first used. For the attacker's `nameMap`
  the order is a parameter. The `pendingDownstreams` set is ordered by
  memory address; the model lists its faces in in-record order.
- **Latency statistics.** `latency` and `latencyVariance` are never read or
  written, so they are not modelled.
- **Capacity configuration.** Bucket capacity is set outside the shown
  code, so it is part of the state.
- **QosMitigation's base class.** `setUp`, `setSuccessReqs`, `wasRejected`
  and the base `getPrType` belong to a base class not part of this model.
  The rejected flag and the base class are parameters. The fourth bucket
  `m_sender4` is left out.
- **Simulator context and clock.** For the attacker, the simulator context,
  node id and clock are parameters. The console output and the payload
  length are not used by any decision.
- **Constructors and names.** Parameter checks in constructors,
  `getStrategyName`, `DisplayQueue`, and debug counters (`TBucketDebug.hpp`)
  are not modelled.
- `QosStrategy.FanOutFor` has no contract of its own. It starts `FanOut`
  from the empty state, and the lemmas about it carry its properties.
- **Handlers as written and corrected.** `QosStrategy.OnData` and
  `QosStrategy.OnExpire` follow the code, including its statistics key and
  its expiry update. `QosStrategy.OnDataCorrected` and
  `QosStrategy.OnExpireCorrected` are separate members with the intended
  behaviour; nothing else calls them.
- `LossEstimator.Initialize`: the scope test uses each hop's
  `violatesScope` flag, which is computed against the arrival face. The code
  tests scope against the face of the entry's first in-record (line 624).
  The flag for that face is not modelled.
- **Face id 0.** The fan-out uses `bestFaceID == 0` to mean "no face yet".
  The best-pick lemmas (`QosStrategy.FirstScanPicksBest`,
  `QosStrategy.FanOutForPicksBest`,
  `QosStrategy.GatedInterestGoesToBestFaces`) assume no candidate face has
  id 0. For a hop on face 0 the pass would not remember it as best.
- `QosMitigation.SuccessTarget` assumes the base strategy indexes its
  configured targets by the class `getPrType` returns. That base class is not
  part of this model.

## Findings

| source | as written | input that shows it | evidently intended | confidence | as-written member | corrected member |
|---|---|---|---|---|---|---|
| daemon/fw/qos-strategy.cpp:697-698 | the second assignment of the expiry loop overwrites the absolute loss rate with `beta + (1 - beta) * rel`, and the relative rate is never charged | a face with absolute loss 1.0 and relative loss 0.0 ends at 0.833 after an expiry, so the loss estimate drops on a loss | charge a loss on both the absolute and the relative rate | high; not executed | `QosStrategy.ExpireHandlerCanLowerLoss` | `LossEstimator.ExpireUpdateKeepsLoss` |
| daemon/fw/qos-strategy.cpp:667 | the satisfy handler keys statistics by the data name minus two components, but `afterReceiveInterest` files them under the name minus one (line 192) | any interest `/a/typeI/x`: its statistics live under `/a/typeI`, while a satisfy updates `/a` | use the same key as the forwarding path | medium; not executed | `LossEstimator.SatisfyAsWrittenMissesOwnEntry` | `LossEstimator.OnSatisfyCorrected` |
| daemon/fw/qos-strategy.cpp:688 | the expiry handler keys statistics by the name minus two components as well | the expiry of `/a/typeI/x` updates `/a` and leaves `/a/typeI` as it was | use the same key as the forwarding path | medium; not executed | `LossEstimator.ExpireAsWrittenMissesOwnEntry` | `LossEstimator.OnExpireCorrected` |
