/**
 * The pipeline carries out exactly the fold of module AuctionFold, in every run in which
 * a failed script call means the script did not run.
 */
module Refinement {
  import opened Wrappers
  import opened Bidding
  import opened AuctionFold
  import opened Ledger
  import opened Actor
  import opened Pipeline

  /** This step applies a new acceptance and then reports failure to the actor. */
  ghost predicate LosesReply(cfgs: Configs, s: State, step: Step) {
    && step.Deliver? && step.attempt == Answered(ReplyLost)
    && s.next < |s.log| && Biddable(s.log[s.next]) && s.log[s.next].auction !in s.ended
    && DecisionAt(cfgs, s, s.log[s.next], step.rank).executed
    && s.log[s.next].id !in StoreOf(s, s.log[s.next].auction).dedupe
  }

  ghost predicate Faithful(cfgs: Configs, steps: seq<Step>) {
    steps == [] ||
    (var before := steps[..|steps| - 1];
     Faithful(cfgs, before) && !LosesReply(cfgs, Run(cfgs, before), steps[|steps| - 1]))
  }

  lemma FaithfulSnoc(cfgs: Configs, steps: seq<Step>, step: Step)
    requires Faithful(cfgs, steps) && !LosesReply(cfgs, Run(cfgs, steps), step)
    ensures Faithful(cfgs, steps + [step])
  {
    assert (steps + [step])[..|steps|] == steps;
  }

  /** How much of the log counts for auction `a`: everything first carried out before it closed. */
  function Horizon(s: State, a: AuctionId): nat {
    if a in s.ended then s.ended[a] else s.reach
  }

  ghost function BookOf(cfgs: Configs, s: State, a: AuctionId): Book
    requires Safe(s)
  {
    Fold(cfgs(a), a, s.log, Horizon(s, a))
  }

  /** `d` is the stored form of acceptance `e`. */
  predicate Stores(cfg: Config, d: Decision, e: Acceptance) {
    d == Decide(cfg.kind, e.request, true, e.previous, e.offset, d.rank)
  }

  ghost predicate DedupeIs(dedupe: map<Id, Decision>, sync: seq<Decision>) {
    && (forall k :: 0 <= k < |sync| ==> sync[k].request.id in dedupe && dedupe[sync[k].request.id] == sync[k])
    && (forall id :: id in dedupe ==> dedupe[id] in sync && dedupe[id].request.id == id)
  }

  /** Redis holds exactly the acceptances of the book, in every one of its keys. */
  ghost predicate Matches(cfg: Config, st: Store, book: Book) {
    && |st.sync| == |book.accepted| && st.live == st.sync
    && (forall k :: 0 <= k < |st.sync| ==> Stores(cfg, st.sync[k], book.accepted[k]))
    && DedupeIs(st.dedupe, st.sync)
    && Sorted(st.zset) && multiset(st.zset) == multiset(st.sync)
    && (forall d :: d in st.outbox && d.executed ==> d in st.sync)
  }

  ghost predicate Refines(cfgs: Configs, s: State, a: AuctionId)
    requires Safe(s)
  {
    && Matches(cfgs(a), StoreOf(s, a), BookOf(cfgs, s, a))
    && (a in s.prices ==> s.prices[a] == BookOf(cfgs, s, a).price)
  }

  lemma KnownIsStored(cfg: Config, st: Store, book: Book, id: Id)
    requires Matches(cfg, st, book)
    ensures Knows(book, id) <==> id in st.dedupe
  {
  }

  /** A restart finds the price the fold has reached: the best stored bid is the latest one. */
  lemma RestoredIsBookPrice(cfg: Config, a: AuctionId, st: Store, book: Book)
    requires Matches(cfg, st, book) && Chain(cfg, a, book)
    ensures RestoredPrice(cfg, st.zset) == book.price
  {
    if st.sync == [] {
      assert |multiset(st.zset)| == |st.zset|;
    } else {
      var last := |st.sync| - 1;
      assert st.sync[last] in multiset(st.sync);
      HeadIsBest(cfg.kind, st.zset);
      var head := Head(cfg.kind, st.zset).value;
      assert head in multiset(st.zset);
      var j :| 0 <= j <= last && st.sync[j] == head;
      assert Stores(cfg, st.sync[j], book.accepted[j]) && Stores(cfg, st.sync[last], book.accepted[last]);
      if j < last {
        LaterBeatsEarlier(cfg, a, book, j, last);
      }
    }
  }

  lemma NewAcceptanceMatches(cfg: Config, st: Store, book: Book, e: Acceptance, d: Decision)
    requires Matches(cfg, st, book) && !Knows(book, e.request.id) && Stores(cfg, d, e)
    ensures Matches(cfg, Script(st, d), Book(e.request.bid.amount, book.accepted + [e]))
  {
    KnownIsStored(cfg, st, book, d.request.id);
    var st' := Script(st, d);
    ZAddKeepsSorted(st.zset, d);
    ZAddContents(st.zset, d);
    assert st'.sync[|st.sync|] == d;
    forall x | x in st.sync ensures x in st'.sync {
      var k :| 0 <= k < |st.sync| && st.sync[k] == x;
      assert st'.sync[k] == x;
    }
    assert DedupeIs(st'.dedupe, st'.sync);
  }

  lemma RejectionMatches(cfg: Config, st: Store, book: Book, d: Decision)
    requires Matches(cfg, st, book) && !d.executed
    ensures Matches(cfg, Reject(st, d), book)
  {
  }

  /** One write, from a price that agrees with the book, is one placement in the book. */
  lemma WriteIsPlacement(cfg: Config, a: AuctionId, st: Store, book: Book, r: BidRecord, pos: nat, rank: nat)
    requires Matches(cfg, st, book) && Biddable(r) && r.auction == a
    ensures var d := DecisionFor(cfg, book.price, Task(RequestOf(r), pos), rank);
      && Matches(cfg, Write(st, d), Place(cfg, a, book, r, pos))
      && NextPrice(cfg, book.price, st, d, NoFault) == Place(cfg, a, book, r, pos).price
      && (!(d.executed && r.id !in st.dedupe) ==> Place(cfg, a, book, r, pos) == book)
  {
    var d := DecisionFor(cfg, book.price, Task(RequestOf(r), pos), rank);
    KnownIsStored(cfg, st, book, r.id);
    if !d.executed {
      RejectionMatches(cfg, st, book, d);
    } else if r.id !in st.dedupe {
      NewAcceptanceMatches(cfg, st, book, Acceptance(RequestOf(r), book.price, pos), d);
    }
  }

  /** Carrying out the record at `next`, fresh or again, is one placement for every open auction. */
  lemma CarryOut(cfgs: Configs, s: State, b: AuctionId)
    requires Safe(s) && s.next < |s.log| && b !in s.ended
    ensures Fold(cfgs(b), b, s.log, Max(s.reach, s.next + 1)) ==
      Place(cfgs(b), b, BookOf(cfgs, s, b), s.log[s.next], s.next)
  {
    if s.next < s.reach {
      PassedIsSettled(cfgs(b), b, s.log, s.reach, s.next);
    }
  }

  lemma PriceAgrees(cfgs: Configs, s: State, a: AuctionId)
    requires Safe(s) && Refines(cfgs, s, a)
    ensures PriceOf(cfgs, s, a) == BookOf(cfgs, s, a).price
  {
    FoldIsChain(cfgs(a), a, s.log, Horizon(s, a));
    RestoredIsBookPrice(cfgs(a), a, StoreOf(s, a), BookOf(cfgs, s, a));
  }

  /** Nothing that matters to open or closed auction `b` has changed. */
  lemma Elsewhere(cfgs: Configs, s: State, s': State, b: AuctionId)
    requires Safe(s) && Safe(s') && Refines(cfgs, s, b)
    requires s'.log == s.log && s'.ended == s.ended && StoreOf(s', b) == StoreOf(s, b)
    requires b in s'.prices ==> b in s.prices && s'.prices[b] == s.prices[b]
    requires s'.reach == s.reach || (s.next < |s.log| && s'.reach == Max(s.reach, s.next + 1) &&
               (b !in s.ended ==> Place(cfgs(b), b, BookOf(cfgs, s, b), s.log[s.next], s.next) == BookOf(cfgs, s, b)))
    ensures Refines(cfgs, s', b)
  {
    if b !in s.ended && s'.reach != s.reach {
      CarryOut(cfgs, s, b);
    }
  }

  /** Auction `a` has carried out the record at `next`. */
  lemma Here(cfgs: Configs, s: State, s': State, a: AuctionId)
    requires Safe(s) && Safe(s') && s.next < |s.log| && a !in s.ended
    requires s'.log == s.log && s'.ended == s.ended && s'.reach == Max(s.reach, s.next + 1)
    requires Matches(cfgs(a), StoreOf(s', a), Place(cfgs(a), a, BookOf(cfgs, s, a), s.log[s.next], s.next))
    requires a in s'.prices ==> s'.prices[a] == Place(cfgs(a), a, BookOf(cfgs, s, a), s.log[s.next], s.next).price
    ensures Refines(cfgs, s', a)
  {
    CarryOut(cfgs, s, a);
  }

  /** As Here, said of the write itself; `fault` is what the actor heard of it. */
  lemma WroteRefines(cfgs: Configs, s: State, s': State, r: BidRecord, rank: nat, fault: LedgerFault)
    requires Safe(s) && Safe(s') && s.next < |s.log| && r == s.log[s.next] && Biddable(r) && r.auction !in s.ended
    requires Refines(cfgs, s, r.auction)
    requires s'.log == s.log && s'.ended == s.ended && s'.reach == Max(s.reach, s.next + 1)
    requires StoreOf(s', r.auction) == Write(StoreOf(s, r.auction), DecisionAt(cfgs, s, r, rank))
    requires var a, d := r.auction, DecisionAt(cfgs, s, r, rank);
      a in s'.prices ==>
        && s'.prices[a] == NextPrice(cfgs(a), PriceOf(cfgs, s, a), StoreOf(s, a), d, fault)
        && (fault.NoFault? || !(d.executed && r.id !in StoreOf(s, a).dedupe))
    ensures Refines(cfgs, s', r.auction)
  {
    PriceAgrees(cfgs, s, r.auction);
    WriteIsPlacement(cfgs(r.auction), r.auction, StoreOf(s, r.auction), BookOf(cfgs, s, r.auction), r, s.next, rank);
    Here(cfgs, s, s', r.auction);
  }

  lemma EffectRefinesHere(cfgs: Configs, s: State, r: BidRecord, attempt: Attempt, rank: nat)
    requires Safe(s) && s.next < |s.log| && r == s.log[s.next] && Biddable(r) && r.auction !in s.ended
    requires Refines(cfgs, s, r.auction)
    requires attempt == Answered(ReplyLost) ==>
      !(DecisionAt(cfgs, s, r, rank).executed && r.id !in StoreOf(s, r.auction).dedupe)
    requires Safe(Effect(cfgs, s, r, attempt, rank))
    ensures Refines(cfgs, Effect(cfgs, s, r, attempt, rank), r.auction)
  {
    var e := Effect(cfgs, s, r, attempt, rank);
    match attempt {
      case CrashBefore =>
      case CrashAfter => WroteRefines(cfgs, s, e, r, rank, NoFault);
      case Answered(fault) =>
        if fault.NotApplied? {
          PriceAgrees(cfgs, s, r.auction);
        } else {
          WroteRefines(cfgs, s, e, r, rank, fault);
        }
    }
  }

  /** An attempt on another auction's record. */
  lemma EffectElsewhere(cfgs: Configs, s: State, r: BidRecord, attempt: Attempt, rank: nat, b: AuctionId)
    requires Safe(s) && s.next < |s.log| && r == s.log[s.next] && Biddable(r) && r.auction != b
    requires Refines(cfgs, s, b)
    requires Safe(Effect(cfgs, s, r, attempt, rank))
    ensures Refines(cfgs, Effect(cfgs, s, r, attempt, rank), b)
  {
    Elsewhere(cfgs, s, Effect(cfgs, s, r, attempt, rank), b);
  }

  lemma FinishRefines(cfgs: Configs, s: State, commit: CommitOutcome, b: AuctionId)
    requires Safe(s) && s.next < s.reach && Refines(cfgs, s, b) && Safe(Finish(s, commit))
    ensures Refines(cfgs, Finish(s, commit), b)
  {
  }

  lemma AttemptRefines(cfgs: Configs, s: State, step: Step, b: AuctionId)
    requires Safe(s) && Refines(cfgs, s, b)
    requires step.Deliver? && s.next < |s.log| && Biddable(s.log[s.next]) && s.log[s.next].auction !in s.ended
    requires !LosesReply(cfgs, s, step)
    ensures Safe(AttemptBid(cfgs, s, s.log[s.next], step.attempt, step.rank, step.commit))
    ensures Refines(cfgs, AttemptBid(cfgs, s, s.log[s.next], step.attempt, step.rank, step.commit), b)
  {
    var r := s.log[s.next];
    EffectIsSafe(cfgs, s, step.attempt, step.rank);
    if r.auction == b {
      EffectRefinesHere(cfgs, s, r, step.attempt, step.rank);
    } else {
      EffectElsewhere(cfgs, s, r, step.attempt, step.rank, b);
    }
    if Acknowledged(step.attempt) {
      FinishIsSafe(Effect(cfgs, s, r, step.attempt, step.rank), step.commit);
      FinishRefines(cfgs, Effect(cfgs, s, r, step.attempt, step.rank), step.commit, b);
    }
  }

  /** A record that never reaches a ledger changes no open auction's book. */
  lemma DeadLetterRefines(cfgs: Configs, s: State, prices: map<AuctionId, real>, commit: CommitOutcome, b: AuctionId)
    requires Safe(s) && s.next < |s.log| && Refines(cfgs, s, b)
    requires b in prices ==> b in s.prices && prices[b] == s.prices[b]
    requires !Biddable(s.log[s.next]) || s.log[s.next].auction in s.ended
    requires Safe(DeadLetter(s.(prices := prices), commit))
    ensures Refines(cfgs, DeadLetter(s.(prices := prices), commit), b)
  {
    Elsewhere(cfgs, s, DeadLetter(s.(prices := prices), commit), b);
  }

  lemma DeliverRefines(cfgs: Configs, s: State, step: Step, b: AuctionId)
    requires Safe(s) && Refines(cfgs, s, b) && step.Deliver? && !LosesReply(cfgs, s, step)
    requires Safe(Apply(cfgs, s, step))
    ensures Refines(cfgs, Apply(cfgs, s, step), b)
  {
    if s.next < |s.log| {
      var r := s.log[s.next];
      if !Biddable(r) {
        DeadLetterRefines(cfgs, s, s.prices, step.commit, b);
      } else if r.auction in s.ended {
        DeadLetterRefines(cfgs, s, s.prices - {r.auction}, step.commit, b);
      } else {
        AttemptRefines(cfgs, s, step, b);
      }
    }
  }

  lemma StepRefines(cfgs: Configs, s: State, step: Step, b: AuctionId)
    requires Safe(s) && Refines(cfgs, s, b) && !LosesReply(cfgs, s, step)
    requires Safe(Apply(cfgs, s, step))
    ensures Refines(cfgs, Apply(cfgs, s, step), b)
  {
    if step.Deliver? {
      DeliverRefines(cfgs, s, step, b);
    } else if step.Produce? {
      FoldPrefix(cfgs(b), b, s.log, [step.record], Horizon(s, b));
    } else if !step.DeadlinePasses? {
      Elsewhere(cfgs, s, Apply(cfgs, s, step), b);
    }
  }

  /**
   * The main result: whatever panics, restarts, retries, redeliveries and commit failures
   * occur, every auction's Redis state and price are those of the fold over its prefix.
   */
  lemma {:induction false} PipelineRefinesFold(cfgs: Configs, steps: seq<Step>, a: AuctionId)
    requires Faithful(cfgs, steps)
    ensures Safe(Run(cfgs, steps)) && Refines(cfgs, Run(cfgs, steps), a)
  {
    RunIsSafe(cfgs, steps);
    if steps != [] {
      var before := steps[..|steps| - 1];
      RunIsSafe(cfgs, before);
      PipelineRefinesFold(cfgs, before, a);
      StepRefines(cfgs, Run(cfgs, before), steps[|steps| - 1], a);
    }
  }

  // ---------- consequences ----------

  /** The cached price is always the best stored amount, or the starting price. */
  lemma PriceIsCacheOfBest(cfgs: Configs, steps: seq<Step>, a: AuctionId)
    requires Faithful(cfgs, steps)
    ensures var s := Run(cfgs, steps); a in s.prices ==> s.prices[a] == RestoredPrice(cfgs(a), StoreOf(s, a).zset)
  {
    PipelineRefinesFold(cfgs, steps, a);
    var s := Run(cfgs, steps);
    FoldIsChain(cfgs(a), a, s.log, Horizon(s, a));
    RestoredIsBookPrice(cfgs(a), a, StoreOf(s, a), BookOf(cfgs, s, a));
  }

  /** So an accepted bid that is replayed never looks improving. */
  lemma AcceptedNeverImprovesAgain(cfgs: Configs, steps: seq<Step>, a: AuctionId, d: Decision)
    requires Faithful(cfgs, steps) && d in StoreOf(Run(cfgs, steps), a).zset
    ensures !Improves(cfgs(a), PriceOf(cfgs, Run(cfgs, steps), a), d.request.bid.amount)
  {
    var s := Run(cfgs, steps);
    PipelineRefinesFold(cfgs, steps, a);
    PriceAgrees(cfgs, s, a);
    var st, book := StoreOf(s, a), BookOf(cfgs, s, a);
    FoldIsChain(cfgs(a), a, s.log, Horizon(s, a));
    RestoredIsBookPrice(cfgs(a), a, st, book);
    HeadIsBest(cfgs(a).kind, st.zset);
  }

  lemma SyncStepsApart(cfg: Config, a: AuctionId, st: Store, book: Book, j: nat, k: nat)
    requires Matches(cfg, st, book) && Chain(cfg, a, book) && j < k < |st.sync|
    ensures AtLeastAsStrict(cfg.kind, st.sync[k].request.bid.amount,
              match cfg.kind
              case Reverse => st.sync[j].request.bid.amount - Steps(k - j, cfg.step)
              case Forward => st.sync[j].request.bid.amount + Steps(k - j, cfg.step))
  {
    StepsApart(cfg, a, book, j + 1, k + 1);
    assert Stores(cfg, st.sync[j], book.accepted[j]) && Stores(cfg, st.sync[k], book.accepted[k]);
  }

  /** Across restarts, the stored bids are a whole step apart in the order they were accepted. */
  lemma StoredBidsStepApart(cfgs: Configs, steps: seq<Step>, a: AuctionId, j: nat, k: nat)
    requires Faithful(cfgs, steps) && j < k < |StoreOf(Run(cfgs, steps), a).sync|
    ensures var sync, cfg := StoreOf(Run(cfgs, steps), a).sync, cfgs(a);
      AtLeastAsStrict(cfg.kind, sync[k].request.bid.amount,
        match cfg.kind
        case Reverse => sync[j].request.bid.amount - Steps(k - j, cfg.step)
        case Forward => sync[j].request.bid.amount + Steps(k - j, cfg.step))
  {
    PipelineRefinesFold(cfgs, steps, a);
    var s := Run(cfgs, steps);
    FoldIsChain(cfgs(a), a, s.log, Horizon(s, a));
    SyncStepsApart(cfgs(a), a, StoreOf(s, a), BookOf(cfgs, s, a), j, k);
  }

  /**
   * n stored reverse bids fit under the starting price; n stored forward bids climb n steps.
   * (`Steps(n, step)` is n times the step: AuctionFold.StepsIsProduct.)
   */
  lemma StoredBidsBounded(cfgs: Configs, steps: seq<Step>, a: AuctionId)
    requires Faithful(cfgs, steps) && StoreOf(Run(cfgs, steps), a).sync != []
    ensures var st, cfg := StoreOf(Run(cfgs, steps), a), cfgs(a);
      && (cfg.kind.Reverse? ==> Steps(|st.sync|, cfg.step) < cfg.startingPrice)
      && (cfg.kind.Forward? ==> RestoredPrice(cfg, st.zset) >= cfg.startingPrice + Steps(|st.sync|, cfg.step))
  {
    PipelineRefinesFold(cfgs, steps, a);
    var s := Run(cfgs, steps);
    var cfg, book := cfgs(a), BookOf(cfgs, s, a);
    FoldIsChain(cfg, a, s.log, Horizon(s, a));
    RestoredIsBookPrice(cfg, a, StoreOf(s, a), book);
    StepsApart(cfg, a, book, 0, |book.accepted|);
    assert Link(cfg, a, book.accepted, |book.accepted| - 1);
  }
}
