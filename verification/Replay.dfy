/** What redelivery leaves alone, and what a lost script reply breaks. */
module Replay {
  import Wrappers
  import opened Bidding
  import opened AuctionFold
  import opened Ledger
  import opened Actor
  import opened Pipeline
  import opened Refinement
  import opened Verdicts

  // ---------- redelivery ----------

  lemma EffectKeepsAccepted(cfgs: Configs, s: State, r: BidRecord, attempt: Attempt, rank: nat, a: AuctionId)
    requires Biddable(r)
    ensures StoreOf(s, a).sync <= StoreOf(Effect(cfgs, s, r, attempt, rank), a).sync
  {
  }

  lemma DeliverKeepsAccepted(cfgs: Configs, s: State, attempt: Attempt, rank: nat, commit: CommitOutcome, a: AuctionId)
    requires s.next < |s.log|
    ensures StoreOf(s, a).sync <= StoreOf(DeliverNext(cfgs, s, attempt, rank, commit), a).sync
  {
    var r := s.log[s.next];
    if Biddable(r) && r.auction !in s.ended {
      EffectKeepsAccepted(cfgs, s, r, attempt, rank, a);
      var e := Effect(cfgs, s, r, attempt, rank);
      assert DeliverNext(cfgs, s, attempt, rank, commit).stores == e.stores;
    }
  }

  lemma StepKeepsAccepted(cfgs: Configs, s: State, step: Step, a: AuctionId)
    ensures StoreOf(s, a).sync <= StoreOf(Apply(cfgs, s, step), a).sync
  {
    if step.Deliver? && s.next < |s.log| {
      DeliverKeepsAccepted(cfgs, s, step.attempt, step.rank, step.commit, a);
    }
  }

  /** No run ever takes an accepted bid back. */
  lemma {:induction false} RunKeepsAccepted(cfgs: Configs, steps: seq<Step>, more: seq<Step>, a: AuctionId)
    ensures StoreOf(Run(cfgs, steps), a).sync <= StoreOf(Run(cfgs, steps + more), a).sync
    ensures Run(cfgs, steps).log <= Run(cfgs, steps + more).log
  {
    if more == [] {
      assert steps + more == steps;
    } else {
      var n := |more| - 1;
      RunKeepsAccepted(cfgs, steps, more[..n], a);
      assert (steps + more)[..|steps + more| - 1] == steps + more[..n];
      StepKeepsAccepted(cfgs, Run(cfgs, steps + more[..n]), more[n], a);
      StepKeepsLog(cfgs, Run(cfgs, steps + more[..n]), more[n]);
    }
  }

  lemma EffectElsewhereFrozen(cfgs: Configs, s: State, r: BidRecord, attempt: Attempt, rank: nat, a: AuctionId)
    requires Biddable(r) && r.auction != a
    ensures var e := Effect(cfgs, s, r, attempt, rank); e.ended == s.ended && StoreOf(e, a) == StoreOf(s, a)
  {
  }

  lemma ClosedStaysFrozen(cfgs: Configs, s: State, step: Step, a: AuctionId)
    requires a in s.ended
    ensures var s' := Apply(cfgs, s, step);
      a in s'.ended && s'.ended[a] == s.ended[a] && StoreOf(s', a) == StoreOf(s, a)
  {
    if step.Deliver? && s.next < |s.log| {
      var r := s.log[s.next];
      if Biddable(r) && r.auction !in s.ended {
        EffectElsewhereFrozen(cfgs, s, r, step.attempt, step.rank, a);
        var e := Effect(cfgs, s, r, step.attempt, step.rank);
        assert Apply(cfgs, s, step) == e || Apply(cfgs, s, step) == Finish(e, step.commit);
      }
    }
  }

  /** Once the deadline of an auction has passed, no run adds anything to its ledger. */
  lemma {:induction false} ClosedAuctionIsFrozen(cfgs: Configs, steps: seq<Step>, more: seq<Step>, a: AuctionId)
    ensures var s, s' := Run(cfgs, steps + [DeadlinePasses(a)]), Run(cfgs, steps + [DeadlinePasses(a)] + more);
      a in s'.ended && s.ended[a] == s'.ended[a] && StoreOf(s', a) == StoreOf(Run(cfgs, steps), a)
  {
    var closed := steps + [DeadlinePasses(a)];
    RunSnoc(cfgs, steps, DeadlinePasses(a));
    if more == [] {
      assert closed + more == closed;
    } else {
      var n := |more| - 1;
      ClosedAuctionIsFrozen(cfgs, steps, more[..n], a);
      RunSnoc(cfgs, closed + more[..n], more[n]);
      ClosedStaysFrozen(cfgs, Run(cfgs, closed + more[..n]), more[n], a);
      assert closed + more == closed + more[..n] + [more[n]];
    }
  }

  /** Equal lists of acceptances give equal dedupe maps. */
  lemma SameDedupe(st: Store, st': Store)
    requires st.sync == st'.sync && DedupeIs(st.dedupe, st.sync) && DedupeIs(st'.dedupe, st'.sync)
    ensures st.dedupe == st'.dedupe
  {
  }

  /**
   * Going over records already carried out, any number of times and through any faults,
   * leaves the accepted bids, the dedupe keys and the price of every auction as they were.
   */
  lemma ReplayChangesNothing(cfgs: Configs, steps: seq<Step>, more: seq<Step>, a: AuctionId)
    requires Faithful(cfgs, steps) && Faithful(cfgs, steps + more)
    requires Horizon(Run(cfgs, steps + more), a) == Horizon(Run(cfgs, steps), a)
    ensures var s, s' := Run(cfgs, steps), Run(cfgs, steps + more);
      && StoreOf(s', a).sync == StoreOf(s, a).sync && StoreOf(s', a).live == StoreOf(s, a).live
      && StoreOf(s', a).dedupe == StoreOf(s, a).dedupe
      && multiset(StoreOf(s', a).zset) == multiset(StoreOf(s, a).zset)
      && PriceOf(cfgs, s', a) == PriceOf(cfgs, s, a)
  {
    var s, s' := Run(cfgs, steps), Run(cfgs, steps + more);
    PipelineRefinesFold(cfgs, steps, a);
    PipelineRefinesFold(cfgs, steps + more, a);
    RunKeepsAccepted(cfgs, steps, more, a);
    var tail := s'.log[|s.log|..];
    assert s'.log == s.log + tail;
    FoldPrefix(cfgs(a), a, s.log, tail, Horizon(s, a));
    assert BookOf(cfgs, s', a) == BookOf(cfgs, s, a);
    assert |StoreOf(s', a).sync| == |StoreOf(s, a).sync|;
    SameDedupe(StoreOf(s, a), StoreOf(s', a));
    PriceAgrees(cfgs, s, a);
    PriceAgrees(cfgs, s', a);
  }

  // ---------- a lost reply ----------

  /** An attempt whose reply is lost leaves the actor behind the ledger it just changed. */
  lemma LostReplyLeavesActorBehind(cfgs: Configs, s: State, step: Step)
    requires Safe(s) && LosesReply(cfgs, s, step) && Refines(cfgs, s, s.log[s.next].auction)
    requires Safe(Apply(cfgs, s, step))
    ensures !Refines(cfgs, Apply(cfgs, s, step), s.log[s.next].auction)
  {
    var r := s.log[s.next];
    var a, s', st := r.auction, Apply(cfgs, s, step), StoreOf(s, r.auction);
    var price := PriceOf(cfgs, s, a);
    assert s'.prices[a] == price;
    PriceAgrees(cfgs, s, a);
    KnownIsStored(cfgs(a), st, BookOf(cfgs, s, a), r.id);
    CarryOut(cfgs, s, a);
    assert BookOf(cfgs, s', a).price == r.amount.value;
    assert Improves(cfgs(a), price, r.amount.value);
  }

  /**
   * The exact condition: from a state in step with the fold, a delivery stays in step
   * if and only if it does not apply a new acceptance and then lose the reply.
   */
  lemma InStepIffReplyKept(cfgs: Configs, s: State, step: Step)
    requires Safe(s) && step.Deliver?
    requires s.next < |s.log| && Biddable(s.log[s.next]) && s.log[s.next].auction !in s.ended
    requires forall a :: Refines(cfgs, s, a)
    ensures Safe(Apply(cfgs, s, step))
    ensures (forall a :: Refines(cfgs, Apply(cfgs, s, step), a)) <==> !LosesReply(cfgs, s, step)
  {
    StepIsSafe(cfgs, s, step);
    if LosesReply(cfgs, s, step) {
      LostReplyLeavesActorBehind(cfgs, s, step);
    } else {
      forall a ensures Refines(cfgs, Apply(cfgs, s, step), a) {
        StepRefines(cfgs, s, step, a);
      }
    }
  }

  /** Every auction's ledger and price are those of its fold. */
  ghost predicate InStep(cfgs: Configs, s: State) {
    Safe(s) && forall a :: Refines(cfgs, s, a)
  }

  ghost predicate InStepThroughout(cfgs: Configs, steps: seq<Step>) {
    forall k :: 0 <= k <= |steps| ==> InStep(cfgs, Run(cfgs, steps[..k]))
  }

  lemma FaithfulIsInStep(cfgs: Configs, steps: seq<Step>)
    requires Faithful(cfgs, steps)
    ensures InStep(cfgs, Run(cfgs, steps))
  {
    RunIsSafe(cfgs, steps);
    forall a ensures Refines(cfgs, Run(cfgs, steps), a) {
      PipelineRefinesFold(cfgs, steps, a);
    }
  }

  lemma InStepLosesNoReply(cfgs: Configs, before: seq<Step>, step: Step)
    requires InStep(cfgs, Run(cfgs, before)) && InStep(cfgs, Run(cfgs, before + [step]))
    ensures !LosesReply(cfgs, Run(cfgs, before), step)
  {
    RunSnoc(cfgs, before, step);
    if LosesReply(cfgs, Run(cfgs, before), step) {
      LostReplyLeavesActorBehind(cfgs, Run(cfgs, before), step);
    }
  }

  lemma {:induction false} FaithfulPrefix(cfgs: Configs, steps: seq<Step>, k: nat)
    requires Faithful(cfgs, steps) && k <= |steps|
    ensures Faithful(cfgs, steps[..k])
  {
    if k < |steps| {
      FaithfulPrefix(cfgs, steps[..|steps| - 1], k);
      assert steps[..|steps| - 1][..k] == steps[..k];
    } else {
      assert steps[..k] == steps;
    }
  }

  lemma {:induction false} InStepThroughoutIsFaithful(cfgs: Configs, steps: seq<Step>)
    requires InStepThroughout(cfgs, steps)
    ensures Faithful(cfgs, steps)
  {
    if steps != [] {
      var n := |steps| - 1;
      var before := steps[..n];
      forall k | 0 <= k <= n ensures InStep(cfgs, Run(cfgs, before[..k])) {
        assert before[..k] == steps[..k];
      }
      InStepThroughoutIsFaithful(cfgs, before);
      assert InStep(cfgs, Run(cfgs, steps[..n])) && InStep(cfgs, Run(cfgs, steps[..n + 1]));
      assert steps[..n + 1] == steps == before + [steps[n]];
      InStepLosesNoReply(cfgs, before, steps[n]);
    }
  }

  /** The same for whole runs: the pipeline is in step with the fold at every moment iff it never lost such a reply. */
  lemma InStepThroughoutIffFaithful(cfgs: Configs, steps: seq<Step>)
    ensures InStepThroughout(cfgs, steps) <==> Faithful(cfgs, steps)
  {
    if InStepThroughout(cfgs, steps) {
      InStepThroughoutIsFaithful(cfgs, steps);
    }
    if Faithful(cfgs, steps) {
      forall k | 0 <= k <= |steps| ensures InStep(cfgs, Run(cfgs, steps[..k])) {
        FaithfulPrefix(cfgs, steps, k);
        FaithfulIsInStep(cfgs, steps[..k]);
      }
    }
  }

  /** For instance: 50 is stored but its reply is lost, and the actor then takes 80 at its old price of 100. */
  lemma LostReplyExample()
    ensures var cfg := Config(Reverse, 100.0, 1.0, Wrappers.None);
      var low := Task(Request(Uuid(1), Bid(0, Uuid(7), 50.0, InRange(0))), 0);
      var high := Task(Request(Uuid(2), Bid(0, Uuid(8), 80.0, InRange(1))), 1);
      var start := ActorState(100.0, EmptyStore, [], [], Outgoing(0, []), Running);
      var end := Handle(cfg, 0, Handle(cfg, 0, start, low, ReplyLost, 0), high, NoFault, 0);
      end.price == 80.0 && RestoredPrice(cfg, end.store.zset) == 50.0 && |end.store.sync| == 2
  {
    var cfg := Config(Reverse, 100.0, 1.0, Wrappers.None);
    var low := Task(Request(Uuid(1), Bid(0, Uuid(7), 50.0, InRange(0))), 0);
    var d := DecisionFor(cfg, 100.0, low, 0);
    assert ZAdd([], d) == [d];
  }

  // ---------- which acknowledged deliveries append a decision ----------

  /** A duplicate appends nothing to the pending stream if and only if its bid still improved. */
  lemma DuplicateAppendsIff(st: Store, d: Decision)
    requires WriteOutcome(st, d, NoFault) == Wrappers.Ok(Duplicate)
    ensures Write(st, d).outbox == st.outbox <==> d.executed
    ensures !d.executed ==> Write(st, d).outbox == st.outbox + [st.dedupe[d.request.id]]
  {
    assert |Reject(st, d).outbox| == |st.outbox| + 1;
  }

  /** An acknowledged delivery appends no decision exactly when its id is known and its bid still improves. */
  lemma AcknowledgedAppendsIff(cfgs: Configs, s: State, r: BidRecord, rank: nat)
    requires Biddable(r)
    ensures var before := StoreOf(s, r.auction);
      var after := StoreOf(Effect(cfgs, s, r, Answered(NoFault), rank), r.auction);
      && (after.outbox == before.outbox <==> (DecisionAt(cfgs, s, r, rank).executed && r.id in before.dedupe))
      && (after.outbox != before.outbox ==>
            |after.outbox| == |before.outbox| + 1 && before.outbox < after.outbox)
  {
  }

  /** Such a delivery: the reply to an acceptance is lost, the retry finds the id and moves the commit past it. */
  lemma CommitWithoutAppend(cfgs: Configs, r: BidRecord)
    requires Biddable(r) && Improves(cfgs(r.auction), cfgs(r.auction).startingPrice, r.amount.value)
    ensures var steps := [Produce(r), Deliver(Answered(ReplyLost), 0, Landed)];
      var s, s' := Run(cfgs, steps), Run(cfgs, steps + [Deliver(Answered(NoFault), 0, Landed)]);
      && s.committed == 0 && s'.committed == 1
      && StoreOf(s', r.auction).outbox == StoreOf(s, r.auction).outbox
  {
    var lost, kept := Deliver(Answered(ReplyLost), 0, Landed), Deliver(Answered(NoFault), 0, Landed);
    FirstProduced(cfgs, r);
    RunSnoc(cfgs, [Produce(r)], lost);
    assert [Produce(r)] + [lost] == [Produce(r), lost];
    RunSnoc(cfgs, [Produce(r), lost], kept);
    var s := Run(cfgs, [Produce(r), lost]);
    AcknowledgedAppendsIff(cfgs, s, r, 0);
  }

  /** An ordinary replay, by contrast, is a duplicate that appends the stored decision again. */
  lemma ReplayAppendsAgain(cfgs: Configs, r: BidRecord)
    requires Biddable(r) && Improves(cfgs(r.auction), cfgs(r.auction).startingPrice, r.amount.value)
    ensures var steps := [Produce(r), Deliver(Answered(NoFault), 0, Dropped), Redeliver(true)];
      var s, s' := Run(cfgs, steps), Run(cfgs, steps + [Deliver(Answered(NoFault), 0, Landed)]);
      && WriteOutcome(StoreOf(s, r.auction), DecisionAt(cfgs, s, r, 0), NoFault) == Wrappers.Ok(Duplicate)
      && |StoreOf(s, r.auction).outbox| == 1
      && StoreOf(s', r.auction).outbox == StoreOf(s, r.auction).outbox + StoreOf(s, r.auction).outbox
  {
    var first, again := Deliver(Answered(NoFault), 0, Dropped), Deliver(Answered(NoFault), 0, Landed);
    FirstProduced(cfgs, r);
    RunSnoc(cfgs, [Produce(r)], first);
    assert [Produce(r)] + [first] == [Produce(r), first];
    RunSnoc(cfgs, [Produce(r), first], Redeliver(true));
    assert [Produce(r), first] + [Redeliver(true)] == [Produce(r), first, Redeliver(true)];
    RunSnoc(cfgs, [Produce(r), first, Redeliver(true)], again);
    var d := DecisionAt(cfgs, Initial.(log := [r]), r, 0);
    var s := Run(cfgs, [Produce(r), first, Redeliver(true)]);
    assert ZAdd([], d) == [d];
    assert StoreOf(s, r.auction).outbox == [d] && StoreOf(s, r.auction).zset == [d];
  }

  /** A stored id that comes again with its amount does not improve. */
  lemma KnownDoesNotImprove(cfgs: Configs, steps: seq<Step>, r: BidRecord)
    requires Faithful(cfgs, steps) && Determined(Run(cfgs, steps).log)
    requires r in Run(cfgs, steps).log && Biddable(r) && r.id in StoreOf(Run(cfgs, steps), r.auction).dedupe
    ensures !Improves(cfgs(r.auction), PriceOf(cfgs, Run(cfgs, steps), r.auction), r.amount.value)
  {
    var s, a := Run(cfgs, steps), r.auction;
    var st := StoreOf(s, a);
    var d := st.dedupe[r.id];
    PipelineRefinesFold(cfgs, steps, a);
    assert d in multiset(st.sync) && d in multiset(st.zset);
    AcceptedNeverImprovesAgain(cfgs, steps, a, d);
    RunConsistent(cfgs, steps, a);
    assert Sound(cfgs(a), s.log, a, st, PriceOf(cfgs, s, a), d);
    var i :| 0 <= i < |s.log| && s.log[i] == r;
    assert InLog(s.log, a, RequestOf(s.log[i]));
    SameRequest(s.log, a, a, d.request, RequestOf(r));
  }

  /**
   * So the promise holds in every run in which script errors are truthful and an id keeps its
   * auction and amount: each acknowledged delivery of a bid in time appends one decision for it.
   */
  lemma EveryAcknowledgementAppends(cfgs: Configs, steps: seq<Step>, rank: nat, commit: CommitOutcome)
    requires Faithful(cfgs, steps) && Determined(Run(cfgs, steps).log)
    requires var s := Run(cfgs, steps);
      s.next < |s.log| && Biddable(s.log[s.next]) && s.log[s.next].auction !in s.ended
    ensures var s, s' := Run(cfgs, steps), Run(cfgs, steps + [Deliver(Answered(NoFault), rank, commit)]);
      var r := s.log[s.next];
      var outbox, outbox' := StoreOf(s, r.auction).outbox, StoreOf(s', r.auction).outbox;
      s'.next == s.next + 1 && |outbox'| == |outbox| + 1 && outbox < outbox' && outbox'[|outbox|].request.id == r.id
  {
    var s := Run(cfgs, steps);
    var r := s.log[s.next];
    RunSnoc(cfgs, steps, Deliver(Answered(NoFault), rank, commit));
    AcknowledgedAppendsIff(cfgs, s, r, rank);
    RunIsSafe(cfgs, steps);
    if r.id in StoreOf(s, r.auction).dedupe {
      KnownDoesNotImprove(cfgs, steps, r);
    }
  }
}
