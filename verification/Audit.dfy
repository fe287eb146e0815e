/**
 * The audit worker (apps/notification-worker/src/main.rs, `run_bid_audit_worker` and
 * `to_new_bid_audit_event`): decisions become rows, first one per request wins.
 */
module Audit {
  import opened Wrappers
  import opened Bidding
  import opened AuctionFold
  import opened Ledger
  import opened Actor
  import opened Pipeline
  import opened Refinement
  import opened Verdicts
  import opened Decisions

  datatype AuditEvent = AuditEvent(
    requestId: nat,
    auction: AuctionId,
    bidder: nat,
    amount: real,
    kind: AuctionType,
    accepted: bool,
    previous: real,
    resulting: real,
    submittedAt: int,
    offset: nat)

  function ToAuditEvent(d: Decision): Result<AuditEvent, string> {
    var q := d.request;
    if !q.id.Uuid? then Err("invalid request_id")
    else if !q.bid.bidder.Uuid? then Err("invalid bidder_id")
    else if q.bid.amount <= 0.0 then Err("amount must be finite and greater than zero")
    else if !q.bid.timestamp.InRange? then Err("invalid bid timestamp")
    else Ok(AuditEvent(q.id.value, q.bid.auction, q.bid.bidder.value, q.bid.amount, d.kind, d.executed,
                       d.previous, d.resulting, q.bid.timestamp.ms, d.offset))
  }

  type AuditTable = map<nat, AuditEvent>

  /** `INSERT ... ON CONFLICT (request_id) DO NOTHING` */
  function InsertFirst(table: AuditTable, row: AuditEvent): AuditTable {
    if row.requestId in table then table else table[row.requestId := row]
  }

  /** The table after consuming `delivered` in order. */
  function Consume(delivered: seq<Decision>): AuditTable {
    if delivered == [] then map[]
    else
      var table := Consume(delivered[..|delivered| - 1]);
      match ToAuditEvent(delivered[|delivered| - 1])
      case Ok(row) => InsertFirst(table, row)
      case Err(_) => table
  }

  class BidAuditWorker {
    var table: AuditTable
    var deadLetters: seq<Decision>
    var committed: nat

    constructor ()
      ensures table == map[] && deadLetters == [] && committed == 0
    {
      table, deadLetters, committed := map[], [], 0;
    }

    /**
     * One record, tried until the database acknowledges it. The offset moves only then, and
     * however many attempts went through the row is the one a single insert would leave.
     */
    method Process(d: Decision, outcomes: seq<StoreOutcome>)
      modifies this
      ensures ToAuditEvent(d).Err? ==>
                table == old(table) && deadLetters == old(deadLetters) + [d] && committed == old(committed) + 1
      ensures ToAuditEvent(d).Ok? ==> deadLetters == old(deadLetters)
      ensures ToAuditEvent(d).Ok? && Stored in outcomes ==>
                table == InsertFirst(old(table), ToAuditEvent(d).value) && committed == old(committed) + 1
      ensures ToAuditEvent(d).Ok? && Stored !in outcomes ==>
                && committed == old(committed)
                && (table == old(table) || table == InsertFirst(old(table), ToAuditEvent(d).value))
    {
      var event := ToAuditEvent(d);
      if event.Err? {
        deadLetters := deadLetters + [d];
        committed := committed + 1;
        return;
      }
      var attempts := 0;
      while attempts < |outcomes|
        invariant 0 <= attempts <= |outcomes| && Stored !in outcomes[..attempts]
        invariant table == old(table) || table == InsertFirst(old(table), event.value)
        invariant deadLetters == old(deadLetters) && committed == old(committed)
      {
        if !outcomes[attempts].Failed? && event.value.requestId !in table {
          table := table[event.value.requestId := event.value];
        }
        if outcomes[attempts].Stored? {
          committed := committed + 1;
          return;
        }
        attempts := attempts + 1;
      }
    }
  }

  /** Every row was made from a delivered decision, and every auditable one left its request a row. */
  lemma {:induction false} RowsComeFromDecisions(delivered: seq<Decision>)
    ensures forall id :: id in Consume(delivered) ==>
      exists d :: d in delivered && ToAuditEvent(d) == Ok(Consume(delivered)[id]) && d.request.id == Uuid(id)
    ensures forall d :: d in delivered && ToAuditEvent(d).Ok? ==>
      d.request.id.Uuid? && d.request.id.value in Consume(delivered)
  {
    if delivered != [] {
      var n := |delivered| - 1;
      RowsComeFromDecisions(delivered[..n]);
      var table, last := Consume(delivered), delivered[n];
      forall id | id in table
        ensures exists d :: d in delivered && ToAuditEvent(d) == Ok(table[id]) && d.request.id == Uuid(id)
      {
        if id in Consume(delivered[..n]) {
          var row := Consume(delivered[..n])[id];
          var d :| d in delivered[..n] && ToAuditEvent(d) == Ok(row) && d.request.id == Uuid(id);
          assert d in delivered;
        } else {
          assert last in delivered && ToAuditEvent(last) == Ok(table[id]);
        }
      }
    }
  }

  lemma RowHasSource(delivered: seq<Decision>, id: nat) returns (d: Decision)
    requires id in Consume(delivered)
    ensures d in delivered && ToAuditEvent(d) == Ok(Consume(delivered)[id]) && d.request.id == Uuid(id)
  {
    RowsComeFromDecisions(delivered);
    d :| d in delivered && ToAuditEvent(d) == Ok(Consume(delivered)[id]) && d.request.id == Uuid(id);
  }

  /** Every delivered decision was appended to some auction's outbox. */
  ghost predicate Published(s: State, delivered: seq<Decision>) {
    forall d :: d in delivered ==> exists a :: a in s.stores && d in s.stores[a].outbox
  }

  /**
   * Whichever copies arrive, in whatever order and however often, the row of a request
   * carries the verdict of every decision appended for it.
   */
  lemma FirstWinsRowIsTheVerdict(cfgs: Configs, steps: seq<Step>, delivered: seq<Decision>, a: AuctionId, e: Decision)
    requires Determined(Run(cfgs, steps).log) && Published(Run(cfgs, steps), delivered)
    requires e in StoreOf(Run(cfgs, steps), a).outbox
    requires e.request.id.Uuid? && e.request.id.value in Consume(delivered)
    ensures var row := Consume(delivered)[e.request.id.value];
      && row.accepted == e.executed && row.auction == a && row.amount == e.request.bid.amount
      && (e.executed ==> Ok(row) == ToAuditEvent(e))
  {
    var s := Run(cfgs, steps);
    var d := RowHasSource(delivered, e.request.id.value);
    var b :| b in s.stores && d in s.stores[b].outbox;
    VerdictsAgree(cfgs, steps, b, a, d, e);
    RunConsistent(cfgs, steps, a);
    assert Sound(cfgs(a), s.log, a, StoreOf(s, a), PriceOf(cfgs, s, a), e);
  }

  /** With truthful script errors, that verdict is the fold's: accepted exactly if the book knows the request. */
  lemma VerdictIsTheFolds(cfgs: Configs, steps: seq<Step>, a: AuctionId, d: Decision)
    requires Faithful(cfgs, steps) && Determined(Run(cfgs, steps).log)
    requires d in StoreOf(Run(cfgs, steps), a).outbox
    ensures Safe(Run(cfgs, steps))
    ensures d.executed <==> Knows(BookOf(cfgs, Run(cfgs, steps), a), d.request.id)
  {
    PipelineRefinesFold(cfgs, steps, a);
    RunConsistent(cfgs, steps, a);
    var s := Run(cfgs, steps);
    KnownIsStored(cfgs(a), StoreOf(s, a), BookOf(cfgs, s, a), d.request.id);
  }

  /**
   * What a row says, against the record it stands for: in every run it names its record's
   * place, bidder, amount and time, and its verdict follows the rule from the price it names.
   */
  lemma RowTellsItsRecord(cfgs: Configs, steps: seq<Step>, delivered: seq<Decision>, id: nat)
    requires Published(Run(cfgs, steps), delivered) && id in Consume(delivered)
    ensures var log, row := Run(cfgs, steps).log, Consume(delivered)[id];
      var cfg := cfgs(row.auction);
      && row.requestId == id && row.offset < |log|
      && log[row.offset] ==
           Envelope(Uuid(id), row.auction, Uuid(row.bidder), Finite(row.amount), InRange(row.submittedAt))
      && row.kind == cfg.kind
      && (row.accepted <==> BetterByAStep(cfg, row.previous, row.amount))
      && row.resulting == (if row.accepted then row.amount else row.previous)
  {
    var d := RowHasSource(delivered, id);
    var s := Run(cfgs, steps);
    var a :| a in s.stores && d in s.stores[a].outbox;
    EveryDecisionSays(cfgs, steps);
    assert d in StoreOf(s, a).outbox;
  }

  /** With truthful script errors, the price of an accepted row is the fold's just before its record. */
  lemma AcceptedRowHasFoldPrice(cfgs: Configs, steps: seq<Step>, delivered: seq<Decision>, id: nat)
    requires Faithful(cfgs, steps) && Published(Run(cfgs, steps), delivered)
    requires id in Consume(delivered) && Consume(delivered)[id].accepted
    ensures var log, row := Run(cfgs, steps).log, Consume(delivered)[id];
      row.offset <= |log| && row.previous == Fold(cfgs(row.auction), row.auction, log, row.offset).price
  {
    var d := RowHasSource(delivered, id);
    var s := Run(cfgs, steps);
    var a :| a in s.stores && d in s.stores[a].outbox;
    EveryDecisionSays(cfgs, steps);
    assert d in StoreOf(s, a).outbox && Says(cfgs(a), a, s.log, d);
    AcceptedAtItsOwnPrice(cfgs, steps, a, d);
  }
}
