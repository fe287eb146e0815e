/**
 * One partition of the bid topic, its worker, the actors it feeds and their ledgers, as a
 * state machine with crashes, retries and redelivery (apps/auction-engine/src/consumer.rs).
 */
module Pipeline {
  import opened Wrappers
  import opened Bidding
  import opened AuctionFold
  import opened Ledger
  import opened Actor

  /** Every auction has a configuration; it does not change while the auction runs. */
  type Configs = AuctionId -> Config

  /** One attempt to have the actor decide a record. */
  datatype Attempt =
    | Answered(fault: LedgerFault)  // the actor replies
    | CrashBefore                   // the actor dies before the write took effect
    | CrashAfter                    // the write took effect, then the actor died without replying

  /** What became of an offset commit: stored, queued for the retry task, or lost. */
  datatype CommitOutcome = Landed | Queued | Dropped

  /**
   * `prices` holds the cached price of every live actor. `reach` and `ended` only observe:
   * `reach` counts the records ever carried out, and `ended[a]` is what `reach` was when
   * the deadline of auction `a` passed.
   */
  datatype State = State(
    log: seq<BidRecord>,
    next: nat,
    committed: nat,
    retries: seq<nat>,
    dlq: set<nat>,
    stores: map<AuctionId, Store>,
    prices: map<AuctionId, real>,
    ended: map<AuctionId, nat>,
    reach: nat)

  const Initial := State([], 0, 0, [], {}, map[], map[], map[], 0)

  datatype Step =
    | Produce(record: BidRecord)
    | Deliver(attempt: Attempt, rank: nat, commit: CommitOutcome)
    | RetryCommit
    | ActorPanic(auction: AuctionId)
    | DeadlinePasses(auction: AuctionId)
    | Redeliver(freshProcess: bool)  // read again from the committed offset

  function StoreOf(s: State, a: AuctionId): Store {
    if a in s.stores then s.stores[a] else EmptyStore
  }

  /** A live actor's cached price, or what a new actor would restore. */
  function PriceOf(cfgs: Configs, s: State, a: AuctionId): real {
    if a in s.prices then s.prices[a] else RestoredPrice(cfgs(a), StoreOf(s, a).zset)
  }

  function Commit(s: State, outcome: CommitOutcome): State {
    match outcome
    case Landed => s.(committed := s.next + 1)
    case Queued => s.(retries := s.retries + [s.next + 1])
    case Dropped => s
  }

  /** The record at `next` is finished with: commit its offset and move on. */
  function Finish(s: State, outcome: CommitOutcome): State {
    Commit(s, outcome).(next := s.next + 1, reach := Max(s.reach, s.next + 1))
  }

  function DeadLetter(s: State, outcome: CommitOutcome): State {
    Finish(s.(dlq := s.dlq + {s.next}), outcome)
  }

  function DecisionAt(cfgs: Configs, s: State, r: BidRecord, rank: nat): Decision
    requires Biddable(r)
  {
    DecisionFor(cfgs(r.auction), PriceOf(cfgs, s, r.auction), Task(RequestOf(r), s.next), rank)
  }

  /** The write took effect at auction `a`, leaving its actor at `price`. */
  function Wrote(s: State, a: AuctionId, st: Store, price: real): State {
    s.(stores := s.stores[a := st], prices := s.prices[a := price], reach := Max(s.reach, s.next + 1))
  }

  /** What the attempt leaves in Redis and in the actor, before the worker hears of it. */
  function Effect(cfgs: Configs, s: State, r: BidRecord, attempt: Attempt, rank: nat): State
    requires Biddable(r)
  {
    var a, price := r.auction, PriceOf(cfgs, s, r.auction);
    var st, d := StoreOf(s, a), DecisionAt(cfgs, s, r, rank);
    match attempt
    case CrashBefore => s.(prices := s.prices - {a})
    case CrashAfter => var w := Wrote(s, a, Write(st, d), price); w.(prices := w.prices - {a})
    case Answered(fault) =>
      if fault.NotApplied? then s.(prices := s.prices[a := price])
      else Wrote(s, a, Write(st, d), NextPrice(cfgs(a), price, st, d, fault))
  }

  /** The worker receives `Committed`; anything else makes it try the same record again. */
  predicate Acknowledged(attempt: Attempt) {
    attempt == Answered(NoFault)
  }

  /** How a turn of the actor loop on the record at hand goes. */
  function WakeFor(attempt: Attempt, rank: nat): Wake {
    match attempt
    case Answered(fault) => Received(fault, rank)
    case CrashBefore => Panicked(false, rank)
    case CrashAfter => Panicked(true, rank)
  }

  /**
   * An attempt is one turn of the actor loop with the record in its inbox: the same ledger
   * afterwards, the same price or the one the next life restores, and a reply of `Committed`
   * exactly when the worker may move on.
   */
  lemma AttemptIsActorTurn(cfgs: Configs, s: State, r: BidRecord, attempt: Attempt, rank: nat, endMs: int, now: int)
    requires Biddable(r) && now < endMs
    ensures var a := r.auction;
      var actor := ActorState(PriceOf(cfgs, s, a), StoreOf(s, a), [], [], Outgoing(0, []), Running);
      var turn := Turn(now, [Task(RequestOf(r), s.next)], WakeFor(attempt, rank), NoCloseFault);
      var after := TakeTurn(cfgs(a), a, endMs, actor, turn);
      var e := Effect(cfgs, s, r, attempt, rank);
      && StoreOf(e, a) == after.store
      && PriceOf(cfgs, e, a) == (if after.exit.Running? then after.price else RestoredPrice(cfgs(a), after.store.zset))
      && (Acknowledged(attempt) <==> after.replies == [(s.next, Committed)])
      && (attempt.Answered? <==> after.exit.Running?)
  {
    var a, task := r.auction, Task(RequestOf(r), s.next);
    var actor := ActorState(PriceOf(cfgs, s, a), StoreOf(s, a), [], [], Outgoing(0, []), Running);
    assert [] + [task] == [task] && [task][1..] == [];
    match attempt {
      case Answered(fault) =>
        var after := Handle(cfgs(a), a, actor, task, fault, rank);
        assert after.replies == [(s.next, ReplyTo(actor.store, DecisionAt(cfgs, s, r, rank), fault))];
      case CrashBefore =>
      case CrashAfter =>
    }
  }

  function AttemptBid(cfgs: Configs, s: State, r: BidRecord, attempt: Attempt, rank: nat, commit: CommitOutcome): State
    requires Biddable(r)
  {
    var e := Effect(cfgs, s, r, attempt, rank);
    if Acknowledged(attempt) then Finish(e, commit) else e
  }

  function DeliverNext(cfgs: Configs, s: State, attempt: Attempt, rank: nat, commit: CommitOutcome): State {
    if s.next >= |s.log| then s
    else
      var r := s.log[s.next];
      if !Biddable(r) then DeadLetter(s, commit)
      else if r.auction in s.ended then DeadLetter(s.(prices := s.prices - {r.auction}), commit)
      else AttemptBid(cfgs, s, r, attempt, rank, commit)
  }

  function Apply(cfgs: Configs, s: State, step: Step): State {
    match step
    case Produce(r) => s.(log := s.log + [r])
    case Deliver(attempt, rank, commit) => DeliverNext(cfgs, s, attempt, rank, commit)
    case RetryCommit => if s.retries == [] then s else s.(committed := s.retries[0], retries := s.retries[1..])
    case ActorPanic(a) => s.(prices := s.prices - {a})
    case DeadlinePasses(a) =>
      if a in s.ended then s else s.(ended := s.ended[a := s.reach], prices := s.prices - {a})
    case Redeliver(freshProcess) =>
      if freshProcess then s.(next := s.committed, prices := map[], retries := []) else s.(next := s.committed)
  }

  function Run(cfgs: Configs, steps: seq<Step>): State {
    if steps == [] then Initial
    else Apply(cfgs, Run(cfgs, steps[..|steps| - 1]), steps[|steps| - 1])
  }

  lemma RunSnoc(cfgs: Configs, steps: seq<Step>, step: Step)
    ensures Run(cfgs, steps + [step]) == Apply(cfgs, Run(cfgs, steps), step)
  {
    assert (steps + [step])[..|steps|] == steps;
  }

  /** The state once the first record is in the log. */
  lemma FirstProduced(cfgs: Configs, r: BidRecord)
    ensures Run(cfgs, [Produce(r)]) == Initial.(log := [r])
  {
    RunSnoc(cfgs, [], Produce(r));
    assert [] + [Produce(r)] == [Produce(r)] && Initial.log + [r] == [r];
  }

  lemma StepKeepsLog(cfgs: Configs, s: State, step: Step)
    ensures s.log <= Apply(cfgs, s, step).log
  {
    if step.Deliver? && s.next < |s.log| && Biddable(s.log[s.next]) {
      assert Effect(cfgs, s, s.log[s.next], step.attempt, step.rank).log == s.log;
    }
  }

  /**
   * A delivered record goes to the dead-letter topic exactly when it is no envelope, its amount
   * is not a finite positive number, or its auction has closed; such a record reaches no ledger.
   */
  lemma DeadLetteredIff(cfgs: Configs, s: State, attempt: Attempt, rank: nat, commit: CommitOutcome)
    requires s.next < |s.log|
    ensures var r, s' := s.log[s.next], DeliverNext(cfgs, s, attempt, rank, commit);
      var refused := r.Malformed? || r.amount.NotFinite? || r.amount.value <= 0.0 || r.auction in s.ended;
      && s'.dlq == (if refused then s.dlq + {s.next} else s.dlq)
      && (refused ==> s'.stores == s.stores && s'.next == s.next + 1)
  {
    var r := s.log[s.next];
    if Biddable(r) {
      assert Effect(cfgs, s, r, attempt, rank).dlq == s.dlq;
    }
  }

  /**
   * An acknowledged bid is passed and its commit stored, queued or lost, for the offset right
   * after it; an attempt not acknowledged leaves the worker where it was.
   */
  lemma OnlyAcknowledgedIsPassed(cfgs: Configs, s: State, attempt: Attempt, rank: nat, commit: CommitOutcome)
    requires s.next < |s.log| && Biddable(s.log[s.next]) && s.log[s.next].auction !in s.ended
    ensures var s' := DeliverNext(cfgs, s, attempt, rank, commit);
      if Acknowledged(attempt) then
        && s'.next == s.next + 1
        && s'.committed == (if commit.Landed? then s.next + 1 else s.committed)
        && s'.retries == (if commit.Queued? then s.retries + [s.next + 1] else s.retries)
      else s'.next == s.next && s'.committed == s.committed && s'.retries == s.retries
  {
    var e := Effect(cfgs, s, s.log[s.next], attempt, rank);
    assert e.next == s.next && e.committed == s.committed && e.retries == s.retries;
  }

  /** Redelivery starts again at the committed offset, so no uncommitted record is skipped, and touches no store. */
  lemma RedeliveryStartsAtCommit(cfgs: Configs, s: State, freshProcess: bool)
    ensures var s' := Apply(cfgs, s, Redeliver(freshProcess));
      && s'.next == s'.committed == s.committed && s'.log == s.log && s'.stores == s.stores && s'.dlq == s.dlq
      && (forall a :: PriceOf(cfgs, s', a) ==
            if freshProcess then RestoredPrice(cfgs(a), StoreOf(s, a).zset) else PriceOf(cfgs, s, a))
  {
  }

  /** An actor that panicked knows nothing but what it restores. */
  lemma PanicForgetsPrice(cfgs: Configs, s: State, a: AuctionId)
    ensures var s' := Apply(cfgs, s, ActorPanic(a));
      PriceOf(cfgs, s', a) == RestoredPrice(cfgs(a), StoreOf(s, a).zset) && s'.stores == s.stores
  {
  }

  // ---------- commit safety ----------

  /** Record `i` is a valid bid first carried out before its auction closed. */
  predicate InTime(s: State, i: nat)
    requires i < |s.log|
  {
    Biddable(s.log[i]) && (s.log[i].auction in s.ended ==> i < s.ended[s.log[i].auction])
  }

  /** Its request has a decision in the outbox, or it is in the dead-letter topic, as it should be. */
  ghost predicate Resolved(s: State, i: nat)
    requires i < |s.log|
  {
    if InTime(s, i) then HasDecision(StoreOf(s, s.log[i].auction), s.log[i].id) else i in s.dlq
  }

  ghost predicate Safe(s: State) {
    && s.next <= s.reach <= |s.log|
    && s.committed <= s.reach
    && (forall k :: 0 <= k < |s.retries| ==> s.retries[k] <= s.reach)
    && (forall a :: a in s.ended ==> s.ended[a] <= s.reach)
    && (forall a :: a in s.stores ==> DedupeBacked(s.stores[a]))
    && (forall i :: 0 <= i < s.reach ==> Resolved(s, i))
  }

  lemma ResolvedStays(s: State, s': State, i: nat)
    requires i < |s.log| && s.log <= s'.log && s.dlq <= s'.dlq
    requires forall a :: StoreOf(s, a).outbox <= StoreOf(s', a).outbox
    requires forall a :: a in s.ended ==> a in s'.ended && s'.ended[a] == s.ended[a]
    requires forall a :: a in s'.ended && a !in s.ended ==> i < s'.ended[a]
    requires Resolved(s, i)
    ensures Resolved(s', i)
  {
  }

  /** Safety for a state that carried out the record at `next` and touched nothing else below. */
  lemma SafeAfter(s: State, s': State)
    requires Safe(s) && s.next < |s.log| && s'.log == s.log && s'.ended == s.ended
    requires s.dlq <= s'.dlq && forall a :: StoreOf(s, a).outbox <= StoreOf(s', a).outbox
    requires forall a :: a in s'.stores ==> DedupeBacked(s'.stores[a])
    requires s'.next <= s'.reach && s'.committed <= s'.reach && s.reach <= s'.reach <= Max(s.reach, s.next + 1)
    requires forall k :: 0 <= k < |s'.retries| ==> s'.retries[k] <= s'.reach
    requires s'.reach == s.reach || Resolved(s', s.next)
    ensures Safe(s')
  {
    forall i | 0 <= i < s'.reach ensures Resolved(s', i) {
      if i < s.reach {
        ResolvedStays(s, s', i);
      }
    }
  }

  lemma WroteIsSafe(s: State, a: AuctionId, st: Store, price: real)
    requires Safe(s) && s.next < |s.log| && Biddable(s.log[s.next]) && s.log[s.next].auction == a && a !in s.ended
    requires DedupeBacked(st) && StoreOf(s, a).outbox <= st.outbox && HasDecision(st, s.log[s.next].id)
    ensures Safe(Wrote(s, a, st, price))
  {
    SafeAfter(s, Wrote(s, a, st, price));
  }

  lemma FinishIsSafe(s: State, commit: CommitOutcome)
    requires Safe(s) && s.next < s.reach
    ensures Safe(Finish(s, commit))
  {
    var s' := Finish(s, commit);
    forall i | 0 <= i < s'.reach ensures Resolved(s', i) {
      ResolvedStays(s, s', i);
    }
  }

  lemma PricesAreSafe(s: State, prices: map<AuctionId, real>)
    requires Safe(s)
    ensures Safe(s.(prices := prices))
  {
    var s' := s.(prices := prices);
    forall i | 0 <= i < s'.reach ensures Resolved(s', i) {
      ResolvedStays(s, s', i);
    }
  }

  lemma EffectIsSafe(cfgs: Configs, s: State, attempt: Attempt, rank: nat)
    requires Safe(s) && s.next < |s.log| && Biddable(s.log[s.next]) && s.log[s.next].auction !in s.ended
    ensures Safe(Effect(cfgs, s, s.log[s.next], attempt, rank))
  {
    var r := s.log[s.next];
    var a, price := r.auction, PriceOf(cfgs, s, r.auction);
    var st, d := StoreOf(s, a), DecisionAt(cfgs, s, r, rank);
    WriteResolves(st, d);
    var st' := Write(st, d);
    match attempt {
      case CrashBefore =>
        PricesAreSafe(s, s.prices - {a});
      case CrashAfter =>
        WroteIsSafe(s, a, st', price);
        PricesAreSafe(Wrote(s, a, st', price), Wrote(s, a, st', price).prices - {a});
      case Answered(fault) =>
        if fault.NotApplied? {
          PricesAreSafe(s, s.prices[a := price]);
        } else {
          WroteIsSafe(s, a, st', NextPrice(cfgs(a), price, st, d, fault));
        }
    }
  }

  /** A record that no actor will take: malformed, or for an auction already closed. */
  lemma DeadLetterIsSafe(s: State, prices: map<AuctionId, real>, commit: CommitOutcome)
    requires Safe(s) && s.next < |s.log|
    requires !Biddable(s.log[s.next]) || s.log[s.next].auction in s.ended
    ensures Safe(DeadLetter(s.(prices := prices), commit))
  {
    SafeAfter(s, DeadLetter(s.(prices := prices), commit));
  }

  lemma DeliverIsSafe(cfgs: Configs, s: State, attempt: Attempt, rank: nat, commit: CommitOutcome)
    requires Safe(s)
    ensures Safe(DeliverNext(cfgs, s, attempt, rank, commit))
  {
    if s.next < |s.log| {
      var r := s.log[s.next];
      if !Biddable(r) {
        DeadLetterIsSafe(s, s.prices, commit);
      } else if r.auction in s.ended {
        DeadLetterIsSafe(s, s.prices - {r.auction}, commit);
      } else {
        EffectIsSafe(cfgs, s, attempt, rank);
        if Acknowledged(attempt) {
          FinishIsSafe(Effect(cfgs, s, r, attempt, rank), commit);
        }
      }
    }
  }

  lemma StepIsSafe(cfgs: Configs, s: State, step: Step)
    requires Safe(s)
    ensures Safe(Apply(cfgs, s, step))
  {
    if step.Deliver? {
      DeliverIsSafe(cfgs, s, step.attempt, step.rank, step.commit);
    } else {
      var s' := Apply(cfgs, s, step);
      forall i | 0 <= i < s.reach ensures Resolved(s', i) {
        ResolvedStays(s, s', i);
      }
    }
  }

  lemma {:induction false} RunIsSafe(cfgs: Configs, steps: seq<Step>)
    ensures Safe(Run(cfgs, steps))
  {
    if steps != [] {
      RunIsSafe(cfgs, steps[..|steps| - 1]);
      StepIsSafe(cfgs, Run(cfgs, steps[..|steps| - 1]), steps[|steps| - 1]);
    }
  }

  /**
   * In every run, late retries and all, each record below the committed offset has a
   * decision for its request in its auction's outbox if it is a valid bid first carried out
   * before its auction closed, and is in the dead-letter topic otherwise.
   */
  lemma CommitNeverPassesUnresolved(cfgs: Configs, steps: seq<Step>)
    ensures var s := Run(cfgs, steps);
      s.committed <= |s.log| && forall i :: 0 <= i < s.committed ==> Resolved(s, i)
  {
    RunIsSafe(cfgs, steps);
  }
}
