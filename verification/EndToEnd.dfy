/**
 * From the bid topic to the audit table: what a bidder who asks the table is told, through
 * the pipeline, the outbox and the audit worker together.
 */
module EndToEnd {
  import opened Bidding
  import opened AuctionFold
  import opened Ledger
  import opened Pipeline
  import opened Refinement
  import opened Verdicts
  import opened Audit
  import Outbox

  /** The outbox run `o` carried the decisions of `outbox`, whose payloads the engine wrote itself. */
  ghost predicate Carries(o: Outbox.State, outbox: seq<Decision>) {
    |o.appended| == |outbox| && forall k :: 0 <= k < |outbox| ==> o.appended[k] == Outbox.Parsable(outbox[k])
  }

  /** The audit worker has been given everything `o` put on the decision topic, possibly more than once. */
  ghost predicate DeliveredAll(o: Outbox.State, outbox: seq<Decision>, delivered: seq<Decision>)
    requires Carries(o, outbox)
  {
    forall k :: 0 <= k < |outbox| && k in o.decisions ==> outbox[k] in delivered
  }

  /** The audit worker can store what it says: the ids are UUIDs and the timestamp a date. */
  predicate Auditable(r: BidRecord) {
    Biddable(r) && r.id.Uuid? && r.bidder.Uuid? && r.timestamp.InRange?
  }

  /** Every bid sent under this id can be stored. */
  ghost predicate AllAuditable(log: seq<BidRecord>, id: Id) {
    forall j :: 0 <= j < |log| && Biddable(log[j]) && log[j].id == id ==> Auditable(log[j])
  }

  /** A decision for a record's id is on some record of that id, in the same auction and of the same amount. */
  lemma DecisionIsOnRecord(cfgs: Configs, s: State, a: AuctionId, d: Decision, i: nat)
    requires Consistent(cfgs, s, a) && Determined(s.log) && d in StoreOf(s, a).outbox
    requires i < |s.log| && Biddable(s.log[i]) && s.log[i].id == d.request.id
    requires AllAuditable(s.log, s.log[i].id)
    ensures d.request.bid.amount == s.log[i].amount.value && s.log[i].auction == a
    ensures ToAuditEvent(d).Ok?
  {
    assert Sound(cfgs(a), s.log, a, StoreOf(s, a), PriceOf(cfgs, s, a), d);
    var j :| 0 <= j < |s.log| && Biddable(s.log[j]) && RequestOf(s.log[j]) == d.request;
    assert Auditable(s.log[j]);
  }

  /**
   * Take any run of the pipeline, any run of the outbox that has emptied it, and any
   * delivery of the decision topic, repetitions included. Every committed bid that came in
   * time then has an audit row, and the row says accepted exactly if the fold accepted it.
   */
  lemma CommittedBidHasTheFoldsVerdict(cfgs: Configs, steps: seq<Step>, a: AuctionId, i: nat,
                                       publishing: seq<Outbox.Step>, delivered: seq<Decision>)
    requires Faithful(cfgs, steps) && Determined(Run(cfgs, steps).log)
    requires Safe(Run(cfgs, steps)) && i < Run(cfgs, steps).committed
    requires Biddable(Run(cfgs, steps).log[i]) && Run(cfgs, steps).log[i].auction == a && InTime(Run(cfgs, steps), i)
    requires AllAuditable(Run(cfgs, steps).log, Run(cfgs, steps).log[i].id)
    requires Carries(Outbox.Run(Outbox.Initial, publishing), StoreOf(Run(cfgs, steps), a).outbox)
    requires Outbox.Run(Outbox.Initial, publishing).pending == []
    requires DeliveredAll(Outbox.Run(Outbox.Initial, publishing), StoreOf(Run(cfgs, steps), a).outbox, delivered)
    requires Published(Run(cfgs, steps), delivered)
    ensures var s := Run(cfgs, steps);
      var r, table := s.log[i], Consume(delivered);
      && r.id.value in table
      && table[r.id.value].auction == a && table[r.id.value].amount == r.amount.value
      && (table[r.id.value].accepted <==> Knows(BookOf(cfgs, s, a), r.id))
  {
    var s, o := Run(cfgs, steps), Outbox.Run(Outbox.Initial, publishing);
    CommitNeverPassesUnresolved(cfgs, steps);
    assert Resolved(s, i);
    var d :| d in StoreOf(s, a).outbox && d.request.id == s.log[i].id;
    var k :| 0 <= k < |StoreOf(s, a).outbox| && StoreOf(s, a).outbox[k] == d;
    Outbox.NothingIsLost(publishing, k);
    RunConsistent(cfgs, steps, a);
    DecisionIsOnRecord(cfgs, s, a, d, i);
    RowsComeFromDecisions(delivered);
    FirstWinsRowIsTheVerdict(cfgs, steps, delivered, a, d);
    VerdictIsTheFolds(cfgs, steps, a, d);
  }
}
