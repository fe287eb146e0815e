# Verified model of the auction platform's event pipeline

A Dafny 4.11 model of the parts of the platform that decide, store, publish, audit and
settle bids, and of five smaller state machines beside them. The code is Rust and one
TypeScript file; the paths below are the repository's own. `dafny verify dfyconfig.toml`
checks the whole project.

## What is modelled

**The bid pipeline.** A partition worker reads bid records from Kafka and hands each to the
one actor of its auction. The actor decides with `is_better_bid` against a cached price and
writes the decision to Redis with one script. Actors die before or after a write takes
effect and reload from Redis; script errors, redelivery from the committed offset, commits
that are refused, lost or retried late, and deadlines all interleave freely.

| file | what it holds |
|---|---|
| `Bidding.dfy` | bids, decisions, the bid rule |
| `AuctionFold.dfy` | the reference meaning: one left fold of the bid rule with request-id dedupe over a log prefix |
| `Ledger.dfy` | one auction's Redis keys and `write_bid` |
| `Actor.dfy` | `load_runtime` and the actor loop |
| `StoredConfig.dfy` | what a stored auction state means to a starting actor |
| `Pipeline.dfy` | log, worker, actors and ledgers as a state machine; commit safety |
| `Refinement.dfy` | every run of the pipeline carries out the fold |
| `Replay.dfy` | redelivery changes nothing; what a lost script reply breaks, exactly; which deliveries append a decision |
| `Verdicts.dfy` | all decisions for a request agree, lost replies included |
| `Decisions.dfy` | what every decision document says of its record, in plain arithmetic |
| `PartitionWorker.dfy` | the worker's loops in place, proved to be runs of the state machine |
| `Outbox.dfy` | the publisher that drains the pending stream |
| `Audit.dfy` | the decision audit table, first row wins |
| `EndToEnd.dfy` | pipeline, outbox and audit composed |
| `Settlement.dfy` | the announced winner, the persisted winner, finalization |
| `Registry.dfy` | which actor loops run in one process |
| `Archive.dfy` | the raw request archive |
| `Decoder.dfy`, `Codec.dfy` | the pgoutput decoder, the matching encoder and the round trip |
| `Wire.dfy` | the decoder on bytes written out in full |
| `Truncation.dfy` | messages cut short: when they are skipped and when they are misread, exactly |
| `Catalog.dfy` | the versioned catalog cache |
| `Breaker.dfy`, `Limiter.dfy` | the gateway's circuit breaker and local rate limiter |
| `AuctionSlice.dfy` | the client's incremental price |

Code that updates fields in place is a class whose methods are proved against functions on
values; those functions are what the lemmas are about. Concurrency is a state machine whose
steps may come in any order.

## Fault model

- One process owns a partition at a time and starts with no actors when it takes one over.
  The script itself does not compare prices (apps/auction-engine/src/ledger.rs:96-108). A
  process that loses a partition and regains it without restarting would still hold actors
  with old prices; that is excluded.
- Dedupe keys do not expire. They live 86,400 seconds (apps/auction-engine/src/ledger.rs:8),
  so redelivery later than a day is excluded.
- A failed script call means the script did not run. The predicate `Refinement.Faithful`
  states this, for new acceptances only, and only the results that need it assume it;
  `Replay.InStepThroughoutIffFaithful` shows that it is exactly what is needed. Verdict
  agreement, commit safety and the outbox results hold without it.
- A script takes effect before the actor that sent it is restarted, or not at all. One still
  on its way when a failing publisher drops the actor
  (apps/auction-engine/src/actor/supervisor.rs:67-76) could land after the next actor has read
  the sorted set; that order is excluded.
- Two ids are the same exactly when their texts are. The dedupe key is the raw text
  (apps/auction-engine/src/ledger.rs:35) and a UUID has several spellings, so a producer that
  does not write ids the way the ingestion service does (apps/grpc/src/main.rs:49-55) could use
  two keys for what the audit table takes for one request.
- Where verdicts are compared, a request id determines its auction and amount
  (`Verdicts.Determined`). It may come again with another timestamp or bidder.
- Reads while an actor reloads or closes succeed or the actor dies. Where the code falls back
  on a default instead (apps/auction-engine/src/actor/runtime.rs:24-29, 103, 107 and
  apps/auction-engine/src/ledger.rs:184, 188) an actor could restart at the starting price.
- An auction has a stored configuration that does not change while it runs, and the clock
  does not go back past its deadline. An auction with no stored state gets a fresh
  three-minute window at every load (apps/auction-engine/src/actor/runtime.rs:32), so its
  deadline would move.
- Money is `real`. In f64 a price minus a step can round back to the price.

## Where the code and its documentation differ

- README.md:152 of the repository says every decision appends a decision record before its
  bid is committed. An accepted id that is delivered again while its amount still improves
  the price appends nothing: the script returns early
  (apps/auction-engine/src/ledger.rs:98-101, 125-127). `Replay.CommitWithoutAppend` is a run
  that commits this way after a lost reply, `Replay.AcknowledgedAppendsIff` is the exact
  condition, and `Replay.EveryAcknowledgementAppends` shows the promise kept in every run
  in which script errors are truthful and ids keep their amount. What holds without that is
  `Pipeline.CommitNeverPassesUnresolved`: the request has a decision from some delivery.
- The comment at apps/auction-engine/src/actor/loop_.rs:123-125 says duplicates add no entry
  to the pending stream. A duplicate adds one exactly when its bid no longer improves
  (`Replay.DuplicateAppendsIff`), which is every ordinary replay (`Replay.ReplayAppendsAgain`).
- The announced and the persisted winner differ when the announced bid has a bidder id that
  is no UUID or a timestamp that is no date: close announces it, the sync scan skips it.
  `Settlement.RunWinnersAgreeIff` gives the exact condition and `Settlement.UnreadableWinnerRun`
  the runs that fail it.
- When the sync worker cannot read an auction's configuration it goes on as for a reverse
  auction without reserve (apps/notification-worker/src/main.rs:608-615). For a forward auction
  this can write a wrong winner, and because the update without a winner leaves the column
  alone (main.rs:741-753) a later correct attempt does not take it back when the reserve was
  missed (`Settlement.StaleWinnerSurvives`). `Settlement.FinalizationIsIdempotent` says exactly
  when the final database is right all the same.
- An update whose old row is cut short is not always skipped: when the bytes left of it read as
  a new row, an update nobody sent comes out (`Truncation.MisreadExample`).
  `Truncation.OldRowTruncationIff` says for which messages every cut is skipped.
- Loading a state asks whether the auction record has a type before falling back on it
  (apps/auction-engine/src/actor/runtime.rs:65-72). The answer makes no difference
  (`StoredConfig.RulesFromFirstRecord`).
- The half-open test `|| probe_in_flight` of the circuit breaker never decides anything
  (`Breaker.ProbeTestIsRedundant`).

## Model

| member | source | states |
|---|---|---|
| AuctionFold.PassedIsSettled | apps/auction-engine/src/types.rs:43-62 | in the reference fold, a record once passed can never be accepted later: its id is known or it no longer improves, because the price only tightens |
| AuctionFold.RerunChangesNothing | apps/auction-engine/src/consumer.rs:106-181 | folding any already folded stretch of the log again leaves price and acceptances unchanged |
| AuctionFold.FoldIsChain | apps/auction-engine/src/types.rs:43-62 | in every fold the price is the last accepted amount, each acceptance improves on the one before it, and no request id is accepted twice |
| AuctionFold.FoldIsSourced | apps/auction-engine/src/ledger.rs:37-51 | each acceptance is the record at its own offset below the prefix, and offsets increase |
| AuctionFold.StepsApart | apps/auction-engine/src/types.rs:58-61 | any two prices of a chain k acceptances apart differ by at least k steps in the auction's direction |
| AuctionFold.LaterBeatsEarlier | apps/auction-engine/src/types.rs:58-61 | a later acceptance strictly beats every earlier one, so accepted amounts are pairwise distinct |
| AuctionFold.StepBound | apps/auction-engine/src/types.rs:43-62 | n accepted reverse bids satisfy n * step < starting price; n forward bids reach at least start + n * step |
| AuctionFold.RefusedIffShortOfAStep | apps/auction-engine/src/types.rs:58-61 | a valid bid with a new id is refused exactly when it is less than one step better than the price; otherwise it becomes the price |
| AuctionFold.StepBoundIsReached | apps/auction-engine/src/types.rs:58-61 | the bound is reached: for every n whose steps fit, n bids each exactly one step better are all accepted, and the price is then n steps from the start |
| AuctionFold.AcceptedAtFoldPrice | apps/auction-engine/src/types.rs:43-62 | each acceptance was made at the price the fold had reached just before its own record |
| Ledger.ZAddContents | apps/auction-engine/src/ledger.rs:104 | adding to the sorted set adds exactly that member |
| Ledger.ZAddKeepsSorted | apps/auction-engine/src/ledger.rs:104 | adding to the sorted set keeps it ordered by amount |
| Ledger.ZAddKeepsOrder | apps/auction-engine/src/ledger.rs:104 | members of equal amount stay ordered by their bytes |
| Ledger.HeadIsBest | apps/auction-engine/src/ledger.rs:180-192 | the first entry (reverse) or last entry (forward) is a member no other member beats |
| Ledger.RedisLedger.InvokeScript | apps/auction-engine/src/ledger.rs:96-108 | all five keys take the decision and it reports applied, or the id was known and nothing changes |
| Ledger.RedisLedger.WriteBid | apps/auction-engine/src/ledger.rs:27-131 | new keys and outcome for the apply, duplicate, reject and replay branches under each fault: not run, run, run with the answer lost |
| Actor.ReadConfig | apps/auction-engine/src/actor/runtime.rs:32-95 | the configuration a state document denotes, with every default and the fallback between its records; the step is positive and the reserve not negative |
| Actor.LoadRuntime | apps/auction-engine/src/actor/runtime.rs:12-124 | a reload restores the configured auction at the best stored price, or at its starting price when nothing is stored; a per-auction key hides the shared hash even when its text does not parse |
| StoredConfig.WrittenLoadsBack | apps/scheduler/src/main.rs:198-204 | every usable configuration and deadline, written as the scheduler writes them, loads back unchanged |
| StoredConfig.ForwardInAnyCase | apps/auction-engine/src/actor/runtime.rs:75-84 | a type is forward exactly when it is a text of seven letters spelling FORWARD in any case |
| StoredConfig.RulesFromFirstRecord | apps/auction-engine/src/actor/runtime.rs:65-94 | kind, step and reserve come from the config record, else the auction, else the shipment record, with unusable values defaulted |
| StoredConfig.PriceFromFirstRecord | apps/auction-engine/src/actor/runtime.rs:41-63 | starting price and deadline come from the auction record, else the shipment record |
| StoredConfig.Defaults | apps/auction-engine/src/actor/runtime.rs:32-36 | each default as a literal value |
| StoredConfig.KeyBeforeHash | apps/auction-engine/src/actor/runtime.rs:23-31 | the per-auction key is read first, the shared hash only when nothing is stored under it |
| Actor.AuctionActor.constructor | apps/auction-engine/src/actor/loop_.rs:38-41 | a restarted actor begins at the restored price with the queue it inherits |
| Actor.AuctionActor.HandleTask | apps/auction-engine/src/actor/loop_.rs:81-147 | price, ledger and reply after one task: the price moves only on an applied acceptance, a foreign auction is rejected, an error is retryable |
| Actor.AuctionActor.RejectQueuedTasks | apps/auction-engine/src/actor/loop_.rs:152-158 | every queued task is answered with the reason, in order, and the inbox is empty |
| Actor.AuctionActor.HandleAndDie | apps/auction-engine/src/actor/loop_.rs:106-146 | a write that panics leaves the ledger written or not, no reply, and the task in hand |
| Actor.AuctionActor.Finish | apps/auction-engine/src/ledger.rs:171-255 | closing publishes one sync record and announces the winner by the reserve rule, as far as it gets before a failure |
| Actor.AuctionActor.CloseAndExit | apps/auction-engine/src/actor/loop_.rs:161-183 | every queued task is answered with AUCTION_ENDED, the ledger stays, and the loop ends or, when closing fails, panics |
| Actor.AuctionActor.TakeOne | apps/auction-engine/src/actor/loop_.rs:43-147 | one turn: the deadline before the queue, then the oldest queued task |
| Actor.AuctionActor.Run | apps/auction-engine/src/actor/loop_.rs:30-149 | a whole life of the loop is the fold of its turns |
| Actor.NothingWrittenAfterDeadline | apps/auction-engine/src/actor/loop_.rs:44-56 | from the first turn whose clock is at or past the deadline the ledger stays as it was and the loop is closed, whatever is queued or arrives |
| Actor.PriceOnlyTightens | apps/auction-engine/src/actor/loop_.rs:117-129 | within one life the cached price only tightens, whatever the ledger answers |
| Actor.TasksAnsweredInOrder | apps/auction-engine/src/actor/loop_.rs:62-158 | over a whole life, the answers, then the task a panic took, then the queue left, are exactly the tasks queued and arrived, once each and in order; a loop that ended left no queue |
| Actor.TakenTaskIsAnswered | apps/auction-engine/src/actor/loop_.rs:81-147 | one task before the deadline: a foreign one is refused and touches nothing, any other is committed exactly when the ledger answered and otherwise handed back |
| Actor.EmptyQueueWaits | apps/auction-engine/src/actor/loop_.rs:62-66 | with nothing queued before the deadline the loop waits, and ends only when its channel is closed |
| Actor.ClosingRejectsQueue | apps/auction-engine/src/actor/loop_.rs:152-183 | at the turn that closes, the k-th queued task gets exactly AUCTION_ENDED, the ledger stays, one sync record goes out unless closing fails before it, and the winner is announced if closing does not fail |
| Actor.CommittedMeansDecided | apps/auction-engine/src/actor/loop_.rs:117-139 | over a whole life, every Committed reply belongs to a task given to the actor whose request has a decision in the outbox it leaves |
| Actor.EndAnnouncesWinner | apps/auction-engine/src/actor/loop_.rs:161-183 | a life that ends the auction published exactly one sync record and announced the winner of the set it leaves; no other life announced anything |
| Pipeline.AttemptIsActorTurn | apps/auction-engine/src/consumer.rs:134-158 | every attempt of the worker, crashes included, is one turn of the actor loop: same ledger, same price or the one the next life restores, and acknowledged exactly when the reply is Committed |
| Pipeline.DeadLetteredIff | apps/auction-engine/src/consumer.rs:116-163 | a delivered record goes to the dead-letter topic exactly when it is no envelope, its amount is not finite and positive, or its auction has closed, and then reaches no ledger |
| Pipeline.OnlyAcknowledgedIsPassed | apps/auction-engine/src/consumer.rs:154-216 | a bid in time is passed exactly when acknowledged, and its commit is stored, queued or lost for the offset right after it |
| Pipeline.RedeliveryStartsAtCommit | apps/auction-engine/src/consumer.rs:73-102 | redelivery starts again at the committed offset and touches no store, so no uncommitted record is skipped |
| Pipeline.PanicForgetsPrice | apps/auction-engine/src/actor/runtime.rs:97-115 | an actor that panicked goes on from the price it restores |
| Pipeline.RunIsSafe | apps/auction-engine/src/consumer.rs:106-216 | in every run offsets, queued retries and closing marks stay within what was carried out, and everything carried out is resolved |
| Pipeline.CommitNeverPassesUnresolved | apps/auction-engine/src/consumer.rs:39-71 | in every run, late commit retries included, each record below the committed offset has a decision for its request in the outbox, or is in the dead-letter topic if it was malformed or late |
| Refinement.RestoredIsBookPrice | apps/auction-engine/src/actor/runtime.rs:97-115 | a restart finds exactly the price the fold has reached |
| Refinement.WriteIsPlacement | apps/auction-engine/src/ledger.rs:54-131 | one write decided at the fold's price is one placement in the fold: same price, same acceptances in every key |
| Refinement.CarryOut | apps/auction-engine/src/consumer.rs:114-181 | carrying out the record at hand, fresh or redelivered, is one placement for every open auction |
| Refinement.StepRefines | apps/auction-engine/src/consumer.rs:114-216 | each step of the machine other than a lost reply keeps every auction in step with its fold |
| Refinement.PipelineRefinesFold | apps/auction-engine/src/consumer.rs:106-181 | main result: for every run with panics, restarts, retries and redelivery, accepted bids, dedupe keys, sorted set and price of every auction are those of one left fold over the records first carried out before it closed |
| Refinement.PriceIsCacheOfBest | apps/auction-engine/src/actor/loop_.rs:88-129 | in every run the cached price is the best stored amount, or the starting price when there is none |
| Refinement.AcceptedNeverImprovesAgain | apps/auction-engine/src/ledger.rs:58-80 | in every run a stored bid does not improve on the current price, so a replay of it takes the replay branch |
| Refinement.StoredBidsStepApart | apps/auction-engine/src/types.rs:58-61 | across restarts the stored bids are whole steps apart in acceptance order |
| Refinement.StoredBidsBounded | apps/auction-engine/src/types.rs:43-62 | n stored reverse bids fit strictly under the starting price; n stored forward bids climb n steps |
| Replay.RunKeepsAccepted | apps/auction-engine/src/ledger.rs:96-108 | no continuation of any run takes an accepted bid back or reorders the accepted bids |
| Replay.ReplayChangesNothing | apps/auction-engine/src/consumer.rs:106-181 | a stretch of run that only goes over records already carried out leaves acceptances, dedupe keys, sorted set and price as they were |
| Replay.ClosedAuctionIsFrozen | apps/auction-engine/src/actor/loop_.rs:44-56 | once the deadline of an auction has passed, no run adds anything to its ledger |
| Replay.LostReplyLeavesActorBehind | apps/auction-engine/src/actor/loop_.rs:117-129 | applying a new acceptance and losing the reply puts the actor out of step with the fold |
| Replay.InStepIffReplyKept | apps/auction-engine/src/ledger.rs:110-127 | a delivery keeps all auctions in step with their folds if and only if it does not apply a new acceptance and lose the reply |
| Replay.InStepThroughoutIffFaithful | apps/auction-engine/src/actor/loop_.rs:117-142 | over whole runs, every auction is in step with its fold at every moment if and only if no such reply was ever lost |
| Replay.LostReplyExample | apps/auction-engine/src/actor/loop_.rs:117-129 | a concrete case: 50 is stored, its reply lost, and 80 is then accepted in a reverse auction |
| Replay.DuplicateAppendsIff | apps/auction-engine/src/ledger.rs:63-101 | a duplicate appends nothing to the pending stream if and only if its bid still improved; otherwise it appends the stored decision |
| Replay.AcknowledgedAppendsIff | apps/auction-engine/src/ledger.rs:54-131 | an acknowledged delivery appends no decision exactly when its id is known and its bid still improves, and one otherwise |
| Replay.CommitWithoutAppend | apps/auction-engine/src/consumer.rs:154-158 | a run in which the commit passes a bid by a delivery that appended nothing |
| Replay.ReplayAppendsAgain | apps/auction-engine/src/ledger.rs:69-80 | an ordinary replay is reported as a duplicate and appends the stored decision again |
| Replay.EveryAcknowledgementAppends | apps/auction-engine/src/ledger.rs:54-131 | in every run with truthful script errors and ids that keep auction and amount, each acknowledged delivery of a bid in time appends one decision for it |
| Verdicts.RunConsistent | apps/auction-engine/src/ledger.rs:58-131 | in every run, lost replies included, every decision in the outbox is sound: an acceptance is the stored document, a rejection would still be one |
| Verdicts.ActorNeverStricterThanBest | apps/auction-engine/src/actor/runtime.rs:97-115 | even with lost replies the actor never asks more of a bid than the best stored bid does |
| Verdicts.VerdictsAgree | apps/auction-engine/src/ledger.rs:58-107 | when a request id determines its auction and amount, any two decisions for it in any run agree, and two acceptances are the same document |
| Verdicts.UndeterminedVerdictsDiffer | apps/auction-engine/src/ledger.rs:54-131 | nothing weaker would do: any two bids of one id that differ in auction or amount are rejected and accepted in some run |
| Decisions.EveryDecisionSays | apps/auction-engine/src/ledger.rs:37-51 | in every run, lost replies included, every decision in the outbox is about the record at its own offset, is executed exactly when its amount is a whole step better than the price it names, and results in the amount or in that price accordingly |
| Decisions.DecidedAtFoldPrice | apps/auction-engine/src/ledger.rs:45 | with truthful script errors the price a decision names is one the fold stood at, no earlier than its record |
| Decisions.AcceptedAtItsOwnPrice | apps/auction-engine/src/ledger.rs:45-46 | with truthful script errors the price an acceptance names is the fold's just before its own record |
| Decisions.FreshBidIsDecidedByTheRule | apps/auction-engine/src/actor/loop_.rs:88-129 | delivering a bid with a new id appends one decision for it, made at the fold's price and executed exactly when the bid is a whole step better |
| PartitionWorker.Worker.CommitOffset | apps/auction-engine/src/consumer.rs:183-216 | a commit stores the next offset, queues it for the retry task, or changes nothing |
| PartitionWorker.Worker.AskActor | apps/auction-engine/src/consumer.rs:148-153 | one attempt leaves the stores and prices of the machine's step, and replies Committed exactly when acknowledged |
| PartitionWorker.Worker.AttemptOnce | apps/auction-engine/src/consumer.rs:134-179 | one turn of the retry loop is one delivery step, and ends the loop exactly when the worker moves on |
| PartitionWorker.Worker.HandleRecord | apps/auction-engine/src/consumer.rs:114-180 | a malformed record is dead-lettered; any other is attempted until it is resolved |
| PartitionWorker.Worker.RetryQueuedCommits | apps/auction-engine/src/consumer.rs:39-71 | the retry task commits queued offsets in order, each tried until it is taken |
| PartitionWorker.TryIsARun | apps/auction-engine/src/consumer.rs:114-180 | what the worker's loop does to a reachable state is a run of the machine, so every result about runs applies to it |
| PartitionWorker.TryKeepsAtIt | apps/auction-engine/src/consumer.rs:134-179 | the worker keeps at a record until an attempt is acknowledged; one such attempt is enough, however late |
| PartitionWorker.DrainIsARun | apps/auction-engine/src/consumer.rs:39-71 | what the retry task does to a reachable state is a run of the machine |
| PartitionWorker.QueuedCommitLands | apps/auction-engine/src/consumer.rs:39-71 | a refused commit lands once the retry task has had its queue taken, whatever was refused in between |
| PartitionWorker.MovedOnMeansResolved | apps/auction-engine/src/consumer.rs:154-163 | a record the worker has moved past is resolved, whatever its attempts went through |
| Outbox.FirstPublicationsArePrefix | apps/auction-engine/src/actor/publisher.rs:32-119 | under crashes, lost acknowledgements and failed deletes, the first publications on the decision topic are a prefix of the parsable entries in append order |
| Outbox.NothingIsLost | apps/auction-engine/src/actor/publisher.rs:81-118 | in every run a parsable entry is still pending, or it is on both topics and acknowledged on both |
| Outbox.PublishAnswers | apps/auction-engine/src/actor/publisher.rs:135-163 | whatever is not refused is on its topic, acknowledged or not, and only an acknowledgement moves the loop on |
| Outbox.CrashStartsOver | apps/auction-engine/src/actor/publisher.rs:32-73 | a crash loses only the place: everything still pending is read again from the front |
| Outbox.KafkaPublisher.PublishDecision | apps/auction-engine/src/actor/publisher.rs:135-164 | retries are publish steps of the machine and end with the acknowledgement |
| Outbox.KafkaPublisher.PublishNotification | apps/auction-engine/src/actor/publisher.rs:209-232 | the same for the notification topic |
| Outbox.KafkaPublisher.DrainEntry | apps/auction-engine/src/actor/publisher.rs:82-118 | a parsable entry is acknowledged on both topics before its delete is tried; a garbled one is only deleted |
| Outbox.KafkaPublisher.DrainOnce | apps/auction-engine/src/actor/publisher.rs:32-119 | a pass over all pending entries, with the actor appending meanwhile, is a run of the machine and computes what is left pending |
| Outbox.PassLeaves | apps/auction-engine/src/actor/publisher.rs:81-118 | what a pass leaves pending is exactly the entries whose delete failed and those appended meanwhile |
| Audit.BidAuditWorker.Process | apps/notification-worker/src/main.rs:94-157 | a decision is dead-lettered or inserted first-wins, the offset moves only after an acknowledged insert, and lost acknowledgements do not matter |
| Audit.RowsComeFromDecisions | apps/notification-worker/src/main.rs:161-209 | every row was made from a delivered decision, and every auditable delivered decision left its request a row |
| Audit.RowTellsItsRecord | apps/notification-worker/src/main.rs:161-209 | in every run a row names its record's place, bidder, amount and time, and its verdict and resulting price follow the rule from the price it names |
| Audit.AcceptedRowHasFoldPrice | apps/notification-worker/src/main.rs:192-208 | with truthful script errors the previous price of an accepted row is the fold's just before its record |
| Audit.FirstWinsRowIsTheVerdict | apps/notification-worker/src/main.rs:122-157 | whichever copies arrive and in whatever order, the row of a request carries the verdict of every decision appended for it, lost replies included |
| Audit.VerdictIsTheFolds | apps/auction-engine/src/ledger.rs:54-131 | a decision says accepted exactly when the fold accepted its request |
| EndToEnd.CommittedBidHasTheFoldsVerdict | apps/notification-worker/src/main.rs:68-159 | once the outbox is drained and its topic consumed, every committed and timely bid whose id only ever came with auditable bids has an audit row with its auction, its amount and the fold's verdict |
| Settlement.ScanFindsBest | apps/notification-worker/src/main.rs:643-732 | the scan finds a readable bid no readable bid beats, exactly when one exists |
| Settlement.WinnersAgreeIff | apps/auction-engine/src/ledger.rs:180-204 | with distinct amounts, announced and persisted winner agree if and only if nobody is announced or the scan can read the announced bid |
| Settlement.ForwardTieDisagrees | apps/notification-worker/src/main.rs:688-694 | why distinct amounts matter: a forward tie is announced for one bidder and persisted for another |
| Settlement.RunWinnersAgreeIff | apps/notification-worker/src/main.rs:644-739 | in every run the two winners agree exactly under that condition, since accepted amounts are distinct |
| Settlement.UnreadableWinnerRun | apps/notification-worker/src/main.rs:664-696 | runs in which they disagree: a first bid with an unreadable bidder or timestamp is announced and nobody is persisted |
| Settlement.AnnouncedIsLastAcceptance | apps/auction-engine/src/ledger.rs:180-204 | in every run the bid announced is the last one the fold accepted, withheld exactly when there is none or the forward reserve was not reached |
| Settlement.SyncWorker.ScanBids | apps/notification-worker/src/main.rs:644-732 | the loop computes the best readable bid and the rows to insert |
| Settlement.SyncWorker.InsertOnConflictDoNothing | apps/notification-worker/src/main.rs:773-794 | rows already present stay as they are, the others are added |
| Settlement.SyncWorker.TryOnce | apps/notification-worker/src/main.rs:566-841 | the state one attempt leaves for each place it can stop, and whether it counts as a success |
| Settlement.WhatOneAttemptLeaves | apps/notification-worker/src/main.rs:741-833 | for each place of stopping, whether status, rows and sorted set have been written |
| Settlement.SyncWorker.SyncRecord | apps/notification-worker/src/main.rs:564-842 | one to three attempts; failure only after the third, success exactly when some attempt got through |
| Settlement.SyncManyWinner | apps/notification-worker/src/main.rs:734-771 | after any attempts the winner column is the last winner written by an update made while the sorted set was still there |
| Settlement.FinalizationIsIdempotent | apps/notification-worker/src/main.rs:741-842 | once one attempt gets through, whatever partial or repeated attempts surround it, status and bids are those of one clean run, and so is the whole database if and only if the last update knew the rules or both rules pick the same bidder, or, with no winner to write, no update wrote one |
| Settlement.FinalizedBids | apps/notification-worker/src/main.rs:706-731 | what finalization stores, field by field: earlier rows stay, every new row is the row of a stored bid, and every stored bid that can have a row has one under its id |
| Settlement.StaleWinnerSurvives | apps/notification-worker/src/main.rs:741-753 | how it fails: an attempt that could not read the configuration writes a winner below the reserve, and the correct attempt after it leaves that winner in place |
| Settlement.FallbackRulesAgreeIffReverse | apps/notification-worker/src/main.rs:608-615 | the fallback rules choose the auction's own winner for every sorted set if and only if it is a reverse auction |
| Settlement.CleanForEverySetIffRulesKnown | apps/notification-worker/src/main.rs:608-615 | a successful attempt leaves the clean database for every stored state if and only if it read the configuration or the auction is a reverse one |
| Registry.SingleWriter | apps/auction-engine/src/registry.rs:62-96 | under every interleaving of creation, panic, restart, exit, removal and receiver drop, at most one loop runs per auction |
| Registry.RunningIsRegistered | apps/auction-engine/src/registry.rs:98-106 | in every run a running actor is the registered one of its auction |
| Registry.LifeOfAGeneration | apps/auction-engine/src/actor/supervisor.rs:79-126 | a panicked loop comes back under its own generation; one that ended leaves the registry and the process |
| Registry.GenerationTestNeverFails | apps/auction-engine/src/registry.rs:98-106 | in every run a generation about to retire is the registered one |
| Registry.StaleGenerationRemovesNothing | apps/auction-engine/src/registry.rs:98-106 | over whole runs: once a generation holds an auction, nothing but its own steps takes the entry away, however other generations retire, die or restart and callers interleave |
| Registry.AuctionRegistry.GetOrCreate | apps/auction-engine/src/registry.rs:62-96 | returns an open handle that is registered, an existing open one if there is one |
| Registry.AuctionRegistry.RemoveIfSame | apps/auction-engine/src/registry.rs:98-106 | removes the entry exactly when it is of the given generation |
| Registry.AuctionRegistry.Retire | apps/auction-engine/src/actor/supervisor.rs:79-83 | the tail of a supervisor keeps every live actor registered |
| Archive.ArchiveIsExact | apps/notification-worker/src/request_audit.rs:22-142 | after any run the table has exactly one row per well-formed position reached, holding what the record says field by field, and the dead-letter topic exactly the malformed ones |
| Archive.CommitNeverPassesUnstored | apps/notification-worker/src/request_audit.rs:138-140 | a committed record is in the table under its own position with its own fields, or dead-lettered if malformed |
| Archive.OnlyStoredIsPassed | apps/notification-worker/src/request_audit.rs:67-83 | a record acknowledged as stored is committed and passed, any other stays at hand |
| Archive.TriedUntilStored | apps/notification-worker/src/request_audit.rs:67-83 | a record is tried until it is acknowledged as stored, however many tries fail before |
| Archive.RequestArchive.Persist | packages/db/src/schema.rs:26 | an insert at a position already stored changes nothing |
| Archive.RequestArchive.Consume | apps/notification-worker/src/request_audit.rs:97-142 | one record is stored or dead-lettered, tried until acknowledged, then committed |
| Decoder.Parser.ReadCStr | apps/cdc-worker/src/decoder.rs:265-270 | reads up to the first NUL and skips it, or fails and consumes nothing |
| Decoder.Parser.ReadColumns | apps/cdc-worker/src/decoder.rs:77-84 | reads the column definitions of a Relation message |
| Decoder.Parser.ReadTuple | apps/cdc-worker/src/decoder.rs:193-219 | the fields and the bytes left, also where a tuple breaks off |
| Decoder.FirstZero | apps/cdc-worker/src/decoder.rs:266 | the place of the first NUL: a NUL is there, none before it; none anywhere if there is no such place |
| Decoder.RelationRegistry.HandleRelation | apps/cdc-worker/src/decoder.rs:62-87 | the registry after a Relation message, complete or cut short |
| Decoder.RelationRegistry.HandleInsert | apps/cdc-worker/src/decoder.rs:91-118 | the event of an Insert message |
| Decoder.RelationRegistry.HandleUpdate | apps/cdc-worker/src/decoder.rs:122-159 | the event of an Update message, with or without an old tuple |
| Decoder.RelationRegistry.HandleDelete | apps/cdc-worker/src/decoder.rs:163-188 | the event of a Delete message |
| Decoder.RelationRegistry.ProcessMessage | apps/cdc-worker/src/decoder.rs:40-58 | total on every byte string, with no read out of bounds; the new registry and the event |
| Codec.RelationDecodes | apps/cdc-worker/src/decoder.rs:62-87 | an encoded Relation message updates the registry to exactly that relation |
| Codec.RowChangeDecodes | apps/cdc-worker/src/decoder.rs:91-188 | an encoded Insert, Update or Delete decodes to exactly its fields under the latest relation of its oid, or is skipped when the oid is unknown |
| Codec.StreamRoundTrip | apps/cdc-worker/src/decoder.rs:40-219 | decoding the encodings of any stream of valid messages, written in the letters of the published format, from any registry, yields exactly what the stream means |
| Wire.InsertBytes | apps/cdc-worker/src/decoder.rs:91-118 | literal Insert messages with a null, an unchanged value and one value more than there are columns |
| Wire.TextBytes | apps/cdc-worker/src/decoder.rs:208-213 | a literal Insert message with a text |
| Wire.UpdateBytes | apps/cdc-worker/src/decoder.rs:148 | a literal Update message without old row |
| Wire.OldRowBytes | apps/cdc-worker/src/decoder.rs:140-147 | literal Update messages with a whole old row and with a key, which leave no trace |
| Wire.DeleteBytes | apps/cdc-worker/src/decoder.rs:163-188 | literal Delete messages with a whole old row and with a key |
| Wire.RelationBytes | apps/cdc-worker/src/decoder.rs:62-87 | a literal Relation message |
| Codec.FieldsDetermineTuple | apps/cdc-worker/src/decoder.rs:193-219 | with distinct column names the decoded fields determine every value sent, unchanged columns being the omitted ones |
| Truncation.TruncatedIsSkipped | apps/cdc-worker/src/decoder.rs:91-118 | every strict prefix of an Insert, a Delete or an Update without old tuple is skipped and leaves the registry alone |
| Truncation.ShortTupleFails | apps/cdc-worker/src/decoder.rs:193-219 | a cut tuple never parses, and leaves exactly the bytes it could not use |
| Truncation.OldRowCutIff | apps/cdc-worker/src/decoder.rs:139-150 | for every strict prefix of an Update with an old tuple, the event: skipped, unless the cut is in the old tuple and the bytes left of it read as a new row |
| Truncation.OldRowTruncationIff | apps/cdc-worker/src/decoder.rs:139-150 | every strict prefix of such an Update is skipped if and only if its relation is unknown, or for every old text neither a strict prefix of it nor the first three bytes of its length read as a new row |
| Truncation.TruncatedOldRowMisreads | apps/cdc-worker/src/decoder.rs:140-146 | how it fails: whenever any text of the old row begins with an encoded new row, some cut yields an update with that row |
| Truncation.MisreadExample | apps/cdc-worker/src/decoder.rs:140-146 | a concrete message and cut: an update of no column that nobody sent |
| Catalog.ReadsAreFresh | apps/http-server/src/services/auction.rs:446-455 | under any interleaving of readers and writers in which every acknowledgement and every version read has its answer from Redis, or does no harm without it, a page returned was queried after every write that had returned Ok when its reader started |
| Catalog.OutageServesStale | apps/http-server/src/services/auction.rs:591-611 | a lost bump, or a reader that falls back to version 0, does serve a page from before an acknowledged write |
| Catalog.UncoveredAckServesStale | apps/http-server/src/services/auction.rs:604-611 | from any state, acknowledging a write that no bump covers serves a stale page while an older one is cached under the current version |
| Catalog.UnreadVersionServesStaleIff | apps/http-server/src/services/auction.rs:591-602 | a reader that does not learn the version is served a stale page from the cache if and only if version 0 still keeps one older than the last acknowledgement |
| Catalog.ExpiredPageIsNotServed | apps/http-server/src/services/auction.rs:448-494 | a page that expired is not served: the reader queries the database and gets every commit so far |
| Catalog.MethodReadIsFresh | apps/http-server/src/services/auction.rs:438-589 | what the service's own methods return in such a run is fresh, whatever ran between their calls |
| Catalog.BumpLeavesPagesBehind | apps/http-server/src/services/auction.rs:604-611 | a bump leaves every cached page under an older version |
| Catalog.CatalogCache.Invalidate | apps/http-server/src/services/auction.rs:604-611 | the version goes up by one, or stays when Redis is not reached, and every cached page stays right for its version |
| Catalog.CatalogCache.Write | apps/http-server/src/services/auction.rs:275 | a write is a commit, a bump that may fail and an acknowledgement, with any steps of others between them |
| Catalog.CatalogCache.GetAuctions | apps/http-server/src/services/auction.rs:438-589 | a read is a run of version read, cache read, query and store, with any steps of others between them and calls that go unanswered, and returns its page |
| Breaker.StateIsTrace | apps/gateway-keeper/src/circuit_breaker.rs:41-68 | after any calls the three fields are determined by failures since the last success, the time of the last failure and the requests since the last outcome |
| Breaker.AdmissionIsTrace | apps/gateway-keeper/src/circuit_breaker.rs:41-52 | a request is admitted if and only if the failures since the last success are below the threshold, or the open period after the last failure is over and no probe has been let through since |
| Breaker.OneProbeWhileOpen | apps/gateway-keeper/src/circuit_breaker.rs:43-51 | while open at most one request is admitted between outcomes, and none before the open period ends |
| Breaker.ProbeTestIsRedundant | apps/gateway-keeper/src/circuit_breaker.rs:64 | in every reachable state a failed probe reopens the breaker by the failure count alone |
| Breaker.CircuitBreaker.AllowRequest | apps/gateway-keeper/src/circuit_breaker.rs:41-52 | the answer and the state after an admission test |
| Breaker.CircuitBreaker.RecordFailure | apps/gateway-keeper/src/circuit_breaker.rs:61-68 | the state after a failure, with the u32 counter saturating |
| Limiter.DecisionIsExact | apps/gateway-keeper/src/throttle.rs:67-77 | a call is let through up to the limit and not beyond; a refusal names the window's whole seconds and at least one |
| Limiter.RoomHolds | apps/gateway-keeper/src/throttle.rs:48-62 | an invariant on the open window: how many calls of an interval it can still let through, by where the window lies |
| Limiter.OtherKeysDoNotMatter | apps/gateway-keeper/src/throttle.rs:48-63 | the verdicts for one key are those of its own calls alone, whatever other keys are called in between |
| Limiter.AtMostTwiceTheLimit | apps/gateway-keeper/src/throttle.rs:48-78 | over any calls on any keys with a nondecreasing clock, at most 2 * limit - 1 calls of a key are answered with Allowed in any half-open interval of one window's length, and none when the limit is 0 |
| Limiter.BoundIsReached | apps/gateway-keeper/src/throttle.rs:48-78 | the bound is reached by verdicts, for every key, limit of at least one and window of at least two milliseconds |
| Limiter.RateLimiter.Check | apps/gateway-keeper/src/throttle.rs:48-64 | one call is one step of such a run: only its own key's window changes, and the verdict is the run's |
| AuctionSlice.ReconcileSetsPriceRight | apps/web/store/slices/auctionSlice.ts:94-124 | after any reconciliation the price is the best amount not rejected, or the starting price |
| AuctionSlice.ReconcileTouchesOneBid | apps/web/store/slices/auctionSlice.ts:94-112 | a report replaces exactly the bid it matches, keeping that bid's id, or joins the list; all others stay |
| AuctionSlice.MatchFinds | apps/web/store/slices/auctionSlice.ts:95-103 | a report is about the first bid with its non-empty id, else the first pending one of its amount, else none |
| AuctionSlice.ReportIsShown | apps/web/store/slices/auctionSlice.ts:105-109 | the list after a report holds the bid it reports with the reported status, amount, bidder and time, under the matched bid's id, the report's, or a fresh one |
| AuctionSlice.RejectedReportWithdraws | apps/web/store/slices/auctionSlice.ts:105-124 | a matched bid reported rejected no longer counts: the price is the best of the others, or the starting price |
| AuctionSlice.SortingKeepsBids | apps/web/store/slices/auctionSlice.ts:112 | sorting orders the list newest first and keeps the same bids |
| AuctionSlice.SortingIsStable | apps/web/store/slices/auctionSlice.ts:112 | bids of one moment keep their order |
| AuctionSlice.OptimisticIsShownFirst | apps/web/store/slices/auctionSlice.ts:84-93 | an optimistic bid is put in front of all others and moves the price only if it beats it |
| AuctionSlice.OptimisticKeepsPriceIff | apps/web/store/slices/auctionSlice.ts:84-93 | an optimistic bid keeps a right price right if and only if some bid already counts, no starting price is known, or the amount is no worse than it |
| AuctionSlice.IncrementalIsRecomputed | apps/web/store/slices/auctionSlice.ts:45-124 | from a fresh auction, over any run of reports and sensible pending optimistic bids, the price shown is the price recomputed from the bids |
| AuctionSlice.RightThroughoutIffSensible | apps/web/store/slices/auctionSlice.ts:45-124 | over any run of reports and pending optimistic bids the price is right at every moment if and only if every optimistic bid was sensible: some bid counted, no starting price was known, or it was no worse than it |
| AuctionSlice.Slice.Reconcile | apps/web/store/slices/auctionSlice.ts:94-124 | the bids and price after a report |
| AuctionSlice.Slice.AddOptimistic | apps/web/store/slices/auctionSlice.ts:84-93 | the bids and price after an optimistic bid |

## Left out

- f64 arithmetic: money is `real`, so rounding, NaN and infinities inside the engine are not
  modelled; a record whose amount is not finite is dead-lettered before it.
- JSON, UUID and timestamp parsing, and UTF-8 lossy conversion: a string is either the value
  it parses to or unparsable, and decoder text is bytes.
- Fields that decide nothing: username, trace context, source topic and partition, processing
  time (`rank` stands for its effect on the order of equal scores), notification text.
- The live-update publish, and who receives what is announced at close.
- The status and winner written into the state hash at close, which nothing modelled reads.
- Delays, backoff, tracing, error reporting and mutex poisoning.
- Outbox liveness: the replay branch appends without waking the publisher, and the end of an
  actor drops it, so only safety is stated.
- A bid for an actor that closed is dead-lettered at once in the model; in the code it may
  first see retryable errors, which change nothing.
- The registry's lifecycle states map, and wrap-around of the 64-bit generation counter.
- A record that reaches an auction after its Redis state was cleaned up by the sync worker: it
  would meet an actor with default settings; configurations are taken to stay.
- The dead-letter publish of a sync record that failed three times, and the sweep that closes
  missed auctions.
- The Redis path of the rate limiter: one counter in foreign code; only the local window is
  modelled, in milliseconds.
- Other writers of catalog data than create, join and leave, the page's contents and its
  time to live, which appears as expiry at any moment.
- Binary tuple columns, which the decoder does not consume.
- The status line, deadline and connection fields of the client state, which no price depends on.
- CDC slot handling, the scheduler, the other services and all user interface code.
