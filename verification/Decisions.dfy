/**
 * What a decision document says of the record it was made for, in plain arithmetic: in every
 * run for the document itself, and in runs with truthful script errors for the price it names.
 */
module Decisions {
  import opened Wrappers
  import opened Bidding
  import opened AuctionFold
  import opened Ledger
  import opened Actor
  import opened Pipeline
  import opened Refinement

  /** At least one whole step better than the price, in the auction's direction. */
  predicate BetterByAStep(cfg: Config, price: real, amount: real) {
    cfg.step > 0.0 &&
    match cfg.kind
    case Reverse => price - amount >= cfg.step
    case Forward => amount - price >= cfg.step
  }

  /** The document is about the record at its own offset, and follows the rule from the price it names. */
  ghost predicate Says(cfg: Config, a: AuctionId, log: seq<BidRecord>, d: Decision) {
    var q := d.request;
    && q.bid.auction == a && q.bid.amount > 0.0 && d.offset < |log|
    && log[d.offset] == Envelope(q.id, a, q.bid.bidder, Finite(q.bid.amount), q.bid.timestamp)
    && d.kind == cfg.kind
    && (d.executed <==> BetterByAStep(cfg, d.previous, q.bid.amount))
    && (d.executed ==> d.resulting == q.bid.amount)
    && (!d.executed ==> d.resulting == d.previous)
  }

  ghost predicate AllSay(cfgs: Configs, s: State) {
    forall a, d :: d in StoreOf(s, a).outbox ==> Says(cfgs(a), a, s.log, d)
  }

  lemma DecisionSays(cfgs: Configs, s: State, r: BidRecord, rank: nat)
    requires s.next < |s.log| && r == s.log[s.next] && Biddable(r)
    ensures Says(cfgs(r.auction), r.auction, s.log, DecisionAt(cfgs, s, r, rank))
  {
  }

  /** A write appends one decision, the one made now or a stored one of the same store. */
  lemma WriteAppendsOld(st: Store, d: Decision, e: Decision)
    requires DedupeBacked(st) && e in Write(st, d).outbox
    ensures e in st.outbox || e == d
  {
  }

  lemma EffectSays(cfgs: Configs, s: State, attempt: Attempt, rank: nat, a: AuctionId, e: Decision)
    requires Safe(s) && s.next < |s.log| && Biddable(s.log[s.next])
    requires e in StoreOf(Effect(cfgs, s, s.log[s.next], attempt, rank), a).outbox
    ensures e in StoreOf(s, a).outbox || (a == s.log[s.next].auction && e == DecisionAt(cfgs, s, s.log[s.next], rank))
  {
    var r := s.log[s.next];
    if a == r.auction && (attempt.CrashAfter? || (attempt.Answered? && !attempt.fault.NotApplied?)) {
      WriteAppendsOld(StoreOf(s, a), DecisionAt(cfgs, s, r, rank), e);
    }
  }

  /** Only a delivered bid appends, and only the decision made for it. */
  lemma StepAppends(cfgs: Configs, s: State, step: Step, a: AuctionId, e: Decision)
    requires Safe(s) && e in StoreOf(Apply(cfgs, s, step), a).outbox && e !in StoreOf(s, a).outbox
    ensures step.Deliver? && s.next < |s.log| && Biddable(s.log[s.next]) && s.log[s.next].auction == a && a !in s.ended
    ensures e == DecisionAt(cfgs, s, s.log[s.next], step.rank)
  {
    if step.Deliver? && s.next < |s.log| && Biddable(s.log[s.next]) && s.log[s.next].auction !in s.ended {
      var after := Effect(cfgs, s, s.log[s.next], step.attempt, step.rank);
      assert Apply(cfgs, s, step).stores == after.stores;
      EffectSays(cfgs, s, step.attempt, step.rank, a, e);
    }
  }

  /** In every run, lost replies included, every decision ever appended says the truth about its record. */
  lemma {:induction false} EveryDecisionSays(cfgs: Configs, steps: seq<Step>)
    ensures AllSay(cfgs, Run(cfgs, steps))
  {
    if steps != [] {
      var before, step := steps[..|steps| - 1], steps[|steps| - 1];
      var s := Run(cfgs, before);
      EveryDecisionSays(cfgs, before);
      RunIsSafe(cfgs, before);
      StepKeepsLog(cfgs, s, step);
      forall a, d | d in StoreOf(Run(cfgs, steps), a).outbox ensures Says(cfgs(a), a, Run(cfgs, steps).log, d) {
        if d !in StoreOf(s, a).outbox {
          StepAppends(cfgs, s, step, a, d);
          DecisionSays(cfgs, s, s.log[s.next], step.rank);
        }
        assert Says(cfgs(a), a, s.log, d);
      }
    }
  }

  // ---------- the price it names ----------

  /** The decision was made at the price of the fold over the first `n` records, its own not yet passed or passed. */
  ghost predicate MadeAt(cfg: Config, a: AuctionId, log: seq<BidRecord>, d: Decision, n: nat) {
    d.offset <= n <= |log| && d.previous == Fold(cfg, a, log, n).price
  }

  lemma MadeAtStays(cfg: Config, a: AuctionId, log: seq<BidRecord>, log': seq<BidRecord>, d: Decision, n: nat)
    requires MadeAt(cfg, a, log, d, n) && log <= log'
    ensures MadeAt(cfg, a, log', d, n)
  {
    assert log' == log + log'[|log|..];
    FoldPrefix(cfg, a, log, log'[|log|..], n);
  }

  /** With truthful script errors, every decision names a price the fold really stood at, no earlier than its record. */
  lemma {:induction false} DecidedAtFoldPrice(cfgs: Configs, steps: seq<Step>, a: AuctionId, d: Decision)
    requires Faithful(cfgs, steps) && d in StoreOf(Run(cfgs, steps), a).outbox
    ensures exists n :: MadeAt(cfgs(a), a, Run(cfgs, steps).log, d, n)
  {
    if steps != [] {
      var before, step := steps[..|steps| - 1], steps[|steps| - 1];
      var s := Run(cfgs, before);
      RunIsSafe(cfgs, before);
      StepKeepsLog(cfgs, s, step);
      if d in StoreOf(s, a).outbox {
        DecidedAtFoldPrice(cfgs, before, a, d);
        var n :| MadeAt(cfgs(a), a, s.log, d, n);
        MadeAtStays(cfgs(a), a, s.log, Run(cfgs, steps).log, d, n);
      } else {
        StepAppends(cfgs, s, step, a, d);
        PipelineRefinesFold(cfgs, before, a);
        PriceAgrees(cfgs, s, a);
        assert MadeAt(cfgs(a), a, s.log, d, s.reach);
        MadeAtStays(cfgs(a), a, s.log, Run(cfgs, steps).log, d, s.reach);
      }
    }
  }

  /** An acceptance names the price just before its own record. */
  lemma AcceptedAtItsOwnPrice(cfgs: Configs, steps: seq<Step>, a: AuctionId, d: Decision)
    requires Faithful(cfgs, steps) && d in StoreOf(Run(cfgs, steps), a).outbox && d.executed
    ensures d.offset <= |Run(cfgs, steps).log|
    ensures d.previous == Fold(cfgs(a), a, Run(cfgs, steps).log, d.offset).price
  {
    PipelineRefinesFold(cfgs, steps, a);
    var s := Run(cfgs, steps);
    var k :| 0 <= k < |StoreOf(s, a).sync| && StoreOf(s, a).sync[k] == d;
    assert Stores(cfgs(a), d, BookOf(cfgs, s, a).accepted[k]);
    AcceptedAtFoldPrice(cfgs(a), a, s.log, Horizon(s, a), k);
  }

  /**
   * What one delivery decides: a bid whose id is new is accepted exactly when it is a whole
   * step better than the fold's price, and the document appended says so.
   */
  lemma FreshBidIsDecidedByTheRule(cfgs: Configs, steps: seq<Step>, rank: nat, commit: CommitOutcome)
    requires Faithful(cfgs, steps)
    requires var s := Run(cfgs, steps);
      s.next < |s.log| && Biddable(s.log[s.next]) && s.log[s.next].auction !in s.ended
      && s.log[s.next].id !in StoreOf(s, s.log[s.next].auction).dedupe
    ensures Safe(Run(cfgs, steps))
    ensures var s, s' := Run(cfgs, steps), Run(cfgs, steps + [Deliver(Answered(NoFault), rank, commit)]);
      var r := s.log[s.next];
      var outbox, outbox' := StoreOf(s, r.auction).outbox, StoreOf(s', r.auction).outbox;
      var price := BookOf(cfgs, s, r.auction).price;
      && outbox' == outbox + [outbox'[|outbox|]]
      && (var d := outbox'[|outbox|];
          && d.offset == s.next && d.request == RequestOf(r) && d.previous == price
          && (d.executed <==> BetterByAStep(cfgs(r.auction), price, r.amount.value))
          && (d.executed <==> r.id in StoreOf(s', r.auction).dedupe))
  {
    var s := Run(cfgs, steps);
    var r := s.log[s.next];
    RunSnoc(cfgs, steps, Deliver(Answered(NoFault), rank, commit));
    RunIsSafe(cfgs, steps);
    PipelineRefinesFold(cfgs, steps, r.auction);
    PriceAgrees(cfgs, s, r.auction);
    DecisionSays(cfgs, s, r, rank);
  }
}
