/**
 * All decisions ever appended for one request agree, in every run, lost script replies
 * included, as long as a request id always carries the same bid.
 */
module Verdicts {
  import opened Wrappers
  import opened Bidding
  import opened AuctionFold
  import opened Ledger
  import opened Actor
  import opened Pipeline

  /**
   * A request id determines its auction and amount. A client may send it again with another
   * timestamp, or another bidder.
   */
  ghost predicate Determined(log: seq<BidRecord>) {
    forall i, j :: 0 <= i < |log| && 0 <= j < |log| && Biddable(log[i]) && Biddable(log[j]) ==>
      log[i].id == log[j].id ==> log[i].auction == log[j].auction && log[i].amount == log[j].amount
  }

  ghost predicate InLog(log: seq<BidRecord>, a: AuctionId, q: Request) {
    q.bid.auction == a && exists i :: 0 <= i < |log| && Biddable(log[i]) && RequestOf(log[i]) == q
  }

  /** What one decision in the outbox of `a` must look like while the actor stands at `price`. */
  ghost predicate Sound(cfg: Config, log: seq<BidRecord>, a: AuctionId, st: Store, price: real, d: Decision) {
    && InLog(log, a, d.request)
    && (d.executed ==> d.request.id in st.dedupe && st.dedupe[d.request.id] == d)
    && (!d.executed ==>
          && !Improves(cfg, price, d.request.bid.amount)
          && (Determined(log) ==> d.request.id !in st.dedupe))
  }

  ghost predicate Consistent(cfgs: Configs, s: State, a: AuctionId) {
    var st, price := StoreOf(s, a), PriceOf(cfgs, s, a);
    && Sorted(st.zset)
    && DedupeBacked(st)
    && AtLeastAsStrict(cfgs(a).kind, RestoredPrice(cfgs(a), st.zset), price)
    && (forall d :: d in st.outbox ==> Sound(cfgs(a), s.log, a, st, price, d))
  }

  lemma InLogStays(log: seq<BidRecord>, more: seq<BidRecord>, a: AuctionId, q: Request)
    requires InLog(log, a, q)
    ensures InLog(log + more, a, q)
  {
    var i :| 0 <= i < |log| && Biddable(log[i]) && RequestOf(log[i]) == q;
    assert (log + more)[i] == log[i];
  }

  lemma DeterminedEarlier(log: seq<BidRecord>, more: seq<BidRecord>)
    requires Determined(log + more)
    ensures Determined(log)
  {
    assert forall i :: 0 <= i < |log| ==> (log + more)[i] == log[i];
  }

  /** A sorted set that gained a member is led by something at least as strict as both. */
  lemma ZAddTightens(cfg: Config, z: seq<Decision>, d: Decision)
    requires Sorted(z)
    ensures Sorted(ZAdd(z, d))
    ensures AtLeastAsStrict(cfg.kind, RestoredPrice(cfg, ZAdd(z, d)), d.request.bid.amount)
    ensures z != [] ==> AtLeastAsStrict(cfg.kind, RestoredPrice(cfg, ZAdd(z, d)), RestoredPrice(cfg, z))
  {
    ZAddKeepsSorted(z, d);
    ZAddMembers(z, d, d);
    HeadIsBest(cfg.kind, ZAdd(z, d));
    if z != [] {
      HeadIsBest(cfg.kind, z);
      ZAddMembers(z, d, Head(cfg.kind, z).value);
    }
  }

  /** A decision stays sound as the price tightens and the store only gains other requests. */
  lemma SoundStays(cfg: Config, log: seq<BidRecord>, a: AuctionId, st: Store, st': Store, price: real, price': real,
                   d: Decision)
    requires Sound(cfg, log, a, st, price, d)
    requires AtLeastAsStrict(cfg.kind, price', price)
    requires forall id :: id in st.dedupe ==> id in st'.dedupe && st'.dedupe[id] == st.dedupe[id]
    requires Determined(log) && !d.executed ==> d.request.id !in st'.dedupe
    ensures Sound(cfg, log, a, st', price', d)
  {
  }

  /** The write of a bid decided at the actor's price, whatever price the next actor finds. */
  lemma WriteConsistent(cfgs: Configs, s: State, s': State, a: AuctionId, task: Task, rank: nat)
    requires Consistent(cfgs, s, a) && InLog(s.log, a, task.request) && s'.log == s.log
    requires StoreOf(s', a) == Write(StoreOf(s, a), DecisionFor(cfgs(a), PriceOf(cfgs, s, a), task, rank))
    requires a in s'.prices ==>
      AtLeastAsStrict(cfgs(a).kind, RestoredPrice(cfgs(a), StoreOf(s', a).zset), s'.prices[a])
      && AtLeastAsStrict(cfgs(a).kind, s'.prices[a], PriceOf(cfgs, s, a))
    requires AtLeastAsStrict(cfgs(a).kind, RestoredPrice(cfgs(a), StoreOf(s', a).zset), PriceOf(cfgs, s, a))
    requires Sorted(StoreOf(s', a).zset)
    ensures Consistent(cfgs, s', a)
  {
    var cfg, st, st', p, p' := cfgs(a), StoreOf(s, a), StoreOf(s', a), PriceOf(cfgs, s, a), PriceOf(cfgs, s', a);
    var d := DecisionFor(cfg, p, task, rank);
    forall e | e in st'.outbox ensures Sound(cfg, s.log, a, st', p', e) {
      if e in st.outbox {
        if Determined(s.log) && !e.executed && d.executed && e.request.id == d.request.id {
          SameRequest(s.log, a, a, e.request, d.request);
        }
        SoundStays(cfg, s.log, a, st, st', p, p', e);
      } else {
        assert e == d;
      }
    }
    forall id | id in st'.dedupe
      ensures st'.dedupe[id] in st'.outbox && st'.dedupe[id].executed && st'.dedupe[id].request.id == id
    {
      if id in st.dedupe {
        assert st.dedupe[id] in st.outbox;
      }
    }
  }

  lemma SameRequest(log: seq<BidRecord>, a: AuctionId, b: AuctionId, p: Request, q: Request)
    requires Determined(log) && InLog(log, a, p) && InLog(log, b, q) && p.id == q.id
    ensures a == b && p.bid.amount == q.bid.amount
  {
  }

  /** How the prices move when a decision made at `p` is written. */
  lemma WriteTightens(cfg: Config, st: Store, p: real, task: Task, rank: nat, fault: LedgerFault)
    requires Sorted(st.zset) && AtLeastAsStrict(cfg.kind, RestoredPrice(cfg, st.zset), p)
    ensures var d := DecisionFor(cfg, p, task, rank);
      var best := RestoredPrice(cfg, Write(st, d).zset);
      && Sorted(Write(st, d).zset)
      && AtLeastAsStrict(cfg.kind, best, p)
      && AtLeastAsStrict(cfg.kind, best, NextPrice(cfg, p, st, d, fault))
      && AtLeastAsStrict(cfg.kind, NextPrice(cfg, p, st, d, fault), p)
  {
    var d := DecisionFor(cfg, p, task, rank);
    if d.executed && d.request.id !in st.dedupe {
      ZAddTightens(cfg, st.zset, d);
    }
  }

  lemma EffectConsistent(cfgs: Configs, s: State, r: BidRecord, attempt: Attempt, rank: nat)
    requires s.next < |s.log| && r == s.log[s.next] && Biddable(r)
    requires Consistent(cfgs, s, r.auction)
    ensures Consistent(cfgs, Effect(cfgs, s, r, attempt, rank), r.auction)
  {
    var a, p, task := r.auction, PriceOf(cfgs, s, r.auction), Task(RequestOf(r), s.next);
    var e := Effect(cfgs, s, r, attempt, rank);
    var st := StoreOf(s, a);
    assert InLog(s.log, a, task.request);
    match attempt {
      case CrashBefore =>
        LosePrice(cfgs, s, e, a);
      case CrashAfter =>
        WriteTightens(cfgs(a), st, p, task, rank, NoFault);
        WriteConsistent(cfgs, s, e, a, task, rank);
      case Answered(fault) =>
        if !fault.NotApplied? {
          WriteTightens(cfgs(a), st, p, task, rank, fault);
          WriteConsistent(cfgs, s, e, a, task, rank);
        }
    }
  }

  /** An actor that dies leaves a restored price at least as strict as its own. */
  lemma LosePrice(cfgs: Configs, s: State, s': State, a: AuctionId)
    requires Consistent(cfgs, s, a)
    requires s'.log == s.log && StoreOf(s', a) == StoreOf(s, a)
    requires a in s'.prices ==> a in s.prices && s'.prices[a] == s.prices[a]
    ensures Consistent(cfgs, s', a)
  {
  }

  lemma MoreLog(cfgs: Configs, s: State, r: BidRecord, a: AuctionId)
    requires Consistent(cfgs, s, a)
    ensures Consistent(cfgs, s.(log := s.log + [r]), a)
  {
    var s' := s.(log := s.log + [r]);
    var st := StoreOf(s, a);
    forall d | d in st.outbox ensures Sound(cfgs(a), s'.log, a, st, PriceOf(cfgs, s', a), d) {
      InLogStays(s.log, [r], a, d.request);
      if Determined(s'.log) {
        DeterminedEarlier(s.log, [r]);
      }
    }
  }

  /** An attempt on another auction's record. */
  lemma EffectElsewhereConsistent(cfgs: Configs, s: State, r: BidRecord, attempt: Attempt, rank: nat, b: AuctionId)
    requires Consistent(cfgs, s, b) && Biddable(r) && r.auction != b
    ensures Consistent(cfgs, Effect(cfgs, s, r, attempt, rank), b)
  {
    LosePrice(cfgs, s, Effect(cfgs, s, r, attempt, rank), b);
  }

  lemma FinishConsistent(cfgs: Configs, s: State, commit: CommitOutcome, b: AuctionId)
    requires Consistent(cfgs, s, b)
    ensures Consistent(cfgs, Finish(s, commit), b)
  {
    LosePrice(cfgs, s, Finish(s, commit), b);
  }

  lemma AttemptConsistent(cfgs: Configs, s: State, attempt: Attempt, rank: nat, commit: CommitOutcome, b: AuctionId)
    requires Consistent(cfgs, s, b) && s.next < |s.log| && Biddable(s.log[s.next])
    ensures Consistent(cfgs, AttemptBid(cfgs, s, s.log[s.next], attempt, rank, commit), b)
  {
    var r := s.log[s.next];
    var e := Effect(cfgs, s, r, attempt, rank);
    if r.auction == b {
      EffectConsistent(cfgs, s, r, attempt, rank);
    } else {
      EffectElsewhereConsistent(cfgs, s, r, attempt, rank, b);
    }
    if Acknowledged(attempt) {
      FinishConsistent(cfgs, e, commit, b);
    }
  }

  lemma DeliverConsistent(cfgs: Configs, s: State, attempt: Attempt, rank: nat, commit: CommitOutcome, b: AuctionId)
    requires Consistent(cfgs, s, b)
    ensures Consistent(cfgs, DeliverNext(cfgs, s, attempt, rank, commit), b)
  {
    if s.next < |s.log| {
      var r := s.log[s.next];
      if Biddable(r) && r.auction !in s.ended {
        AttemptConsistent(cfgs, s, attempt, rank, commit, b);
      } else {
        LosePrice(cfgs, s, DeliverNext(cfgs, s, attempt, rank, commit), b);
      }
    }
  }

  lemma StepConsistent(cfgs: Configs, s: State, step: Step, b: AuctionId)
    requires Consistent(cfgs, s, b)
    ensures Consistent(cfgs, Apply(cfgs, s, step), b)
  {
    if step.Deliver? {
      DeliverConsistent(cfgs, s, step.attempt, step.rank, step.commit, b);
    } else if step.Produce? {
      MoreLog(cfgs, s, step.record, b);
    } else {
      LosePrice(cfgs, s, Apply(cfgs, s, step), b);
    }
  }

  lemma {:induction false} RunConsistent(cfgs: Configs, steps: seq<Step>, a: AuctionId)
    ensures Consistent(cfgs, Run(cfgs, steps), a)
  {
    if steps != [] {
      RunConsistent(cfgs, steps[..|steps| - 1], a);
      StepConsistent(cfgs, Run(cfgs, steps[..|steps| - 1]), steps[|steps| - 1], a);
    }
  }

  /** Even when replies are lost, a live actor never asks more of a bid than the best stored one does. */
  lemma ActorNeverStricterThanBest(cfgs: Configs, steps: seq<Step>, a: AuctionId)
    ensures var s := Run(cfgs, steps);
      a in s.prices ==> AtLeastAsStrict(cfgs(a).kind, RestoredPrice(cfgs(a), StoreOf(s, a).zset), s.prices[a])
  {
    RunConsistent(cfgs, steps, a);
  }

  /** Any two decisions for a request agree, and two acceptances of it are the same document. */
  lemma VerdictsAgree(cfgs: Configs, steps: seq<Step>, a: AuctionId, b: AuctionId, d: Decision, e: Decision)
    requires Determined(Run(cfgs, steps).log)
    requires d in StoreOf(Run(cfgs, steps), a).outbox && e in StoreOf(Run(cfgs, steps), b).outbox
    requires d.request.id == e.request.id
    ensures a == b && d.request.bid.amount == e.request.bid.amount && d.executed == e.executed
    ensures d.executed ==> d == e
  {
    RunConsistent(cfgs, steps, a);
    RunConsistent(cfgs, steps, b);
    SameRequest(Run(cfgs, steps).log, a, b, d.request, e.request);
  }

  // ---------- why ids must determine auction and amount ----------

  /** Both records arrive, then each is delivered once. */
  function TwoBids(r: BidRecord, q: BidRecord): seq<Step> {
    [Produce(r), Produce(q), Deliver(Answered(NoFault), 0, Landed), Deliver(Answered(NoFault), 0, Landed)]
  }

  /** The first does not improve its auction's starting price, the second does. */
  lemma RejectedThenAccepted(cfgs: Configs, r: BidRecord, q: BidRecord) returns (d: Decision, e: Decision)
    requires Biddable(r) && Biddable(q)
    requires !Improves(cfgs(r.auction), cfgs(r.auction).startingPrice, r.amount.value)
    requires Improves(cfgs(q.auction), cfgs(q.auction).startingPrice, q.amount.value)
    ensures var s := Run(cfgs, TwoBids(r, q));
      && s.log == [r, q] && d in StoreOf(s, r.auction).outbox && e in StoreOf(s, q.auction).outbox
      && d.request == RequestOf(r) && e.request == RequestOf(q) && !d.executed && e.executed
  {
    var deliver := Deliver(Answered(NoFault), 0, Landed);
    FirstProduced(cfgs, r);
    RunSnoc(cfgs, [Produce(r)], Produce(q));
    RunSnoc(cfgs, [Produce(r)] + [Produce(q)], deliver);
    RunSnoc(cfgs, [Produce(r)] + [Produce(q)] + [deliver], deliver);
    assert TwoBids(r, q) == [Produce(r)] + [Produce(q)] + [deliver] + [deliver];
    var s1 := Run(cfgs, [Produce(r)] + [Produce(q)]);
    var s2 := Apply(cfgs, s1, deliver);
    assert s1 == Initial.(log := [r, q]);
    d := DecisionAt(cfgs, s1, r, 0);
    e := DecisionAt(cfgs, s2, q, 0);
    assert StoreOf(s2, r.auction).outbox == [d];
    assert StoreOf(s2, q.auction).dedupe == map[];
    var last := StoreOf(Apply(cfgs, s2, deliver), q.auction).outbox;
    assert last[|last| - 1] == e;
    assert StoreOf(Apply(cfgs, s2, deliver), r.auction).outbox[0] == d;
  }

  /**
   * Nothing weaker would do: for any two bids of one id that differ in auction or amount,
   * there are configurations and a run that reject the first and accept the second.
   */
  lemma UndeterminedVerdictsDiffer(r: BidRecord, q: BidRecord) returns (cfgs: Configs, d: Decision, e: Decision)
    requires Biddable(r) && Biddable(q) && r.id == q.id && !Determined([r, q])
    ensures var s := Run(cfgs, TwoBids(r, q));
      && s.log == [r, q] && d in StoreOf(s, r.auction).outbox && e in StoreOf(s, q.auction).outbox
      && d.request.id == e.request.id && !d.executed && e.executed
  {
    var x, y := r.amount.value, q.amount.value;
    var accepting := if y < x then Config(Reverse, y + 1.0, 1.0, None) else Config(Forward, y - 1.0, 1.0, None);
    if r.auction == q.auction {
      assert x != y;
      cfgs := a => accepting;
    } else {
      cfgs := a => if a == r.auction then Config(Forward, x, 1.0, None) else accepting;
    }
    d, e := RejectedThenAccepted(cfgs, r, q);
  }
}
