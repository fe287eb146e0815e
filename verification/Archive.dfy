/**
 * The raw request archive (apps/notification-worker/src/request_audit.rs): one consumer
 * group that stores every record of the bid topic by its position before committing it.
 */
module Archive {
  import opened Wrappers
  import opened Bidding
  import opened AuctionFold

  datatype Row = Row(requestId: nat, auction: AuctionId, bidder: nat, amount: real, submittedAt: int, offset: nat)

  /** Stricter than the engine's own check: ids must be UUIDs and the timestamp a date. */
  function AuditEvent(r: BidRecord, offset: nat): Result<Row, string> {
    if !r.Envelope? || !r.id.Uuid? || !r.bidder.Uuid? then Err("malformed envelope")
    else if !r.amount.Finite? || r.amount.value <= 0.0 then Err("amount must be finite and greater than zero")
    else if !r.timestamp.InRange? then Err("invalid bid timestamp")
    else Ok(Row(r.id.value, r.auction, r.bidder.value, r.amount.value, r.timestamp.ms, offset))
  }

  /** `reach` only observes: how many records have ever been stored somewhere. */
  datatype State = State(
    log: seq<BidRecord>,
    next: nat,
    committed: nat,
    table: map<nat, Row>,
    dlq: set<nat>,
    reach: nat)

  const Initial := State([], 0, 0, map[], {}, 0)

  datatype Step =
    | Produce(record: BidRecord)
    | Try(outcome: StoreOutcome, commitLands: bool)
    | Redeliver

  /** `INSERT ... ON CONFLICT DO NOTHING`, or the dead-letter topic. */
  function Keep(s: State): State
    requires s.next < |s.log|
  {
    match AuditEvent(s.log[s.next], s.next)
    case Ok(row) =>
      s.(table := if s.next in s.table then s.table else s.table[s.next := row], reach := Max(s.reach, s.next + 1))
    case Err(_) => s.(dlq := s.dlq + {s.next}, reach := Max(s.reach, s.next + 1))
  }

  function Apply(s: State, step: Step): State {
    match step
    case Produce(r) => s.(log := s.log + [r])
    case Redeliver => s.(next := s.committed)
    case Try(outcome, lands) =>
      if s.next >= |s.log| || outcome.Failed? then s
      else if outcome.AckLost? then Keep(s)
      else Keep(s).(next := s.next + 1, committed := if lands then s.next + 1 else s.committed)
  }

  function Run(steps: seq<Step>): State {
    if steps == [] then Initial else Apply(Run(steps[..|steps| - 1]), steps[|steps| - 1])
  }

  /** What the archive asks of a record, field by field. */
  predicate WellFormed(r: BidRecord) {
    && r.Envelope? && r.id.Uuid? && r.bidder.Uuid?
    && r.amount.Finite? && r.amount.value > 0.0 && r.timestamp.InRange?
  }

  /** The row holds exactly what the record at position `i` says. */
  predicate RowIsFor(row: Row, r: BidRecord, i: nat) {
    && row.offset == i
    && r == Envelope(Uuid(row.requestId), row.auction, Uuid(row.bidder), Finite(row.amount), InRange(row.submittedAt))
  }

  /** Exactly one right row per well-formed record reached, every other one dead-lettered. */
  ghost predicate Exact(s: State) {
    && s.next <= s.reach <= |s.log| && s.committed <= s.reach
    && (forall i :: i in s.table <==> 0 <= i < s.reach && WellFormed(s.log[i]))
    && (forall i :: i in s.table ==> RowIsFor(s.table[i], s.log[i], i))
    && (forall i :: i in s.dlq <==> 0 <= i < s.reach && !WellFormed(s.log[i]))
  }

  /** Storing the record at hand, again or for the first time, keeps the tables exact. */
  lemma KeepStaysExact(s: State)
    requires Exact(s) && s.next < |s.log|
    ensures Exact(Keep(s)) && s.next < Keep(s).reach
  {
  }

  lemma ProduceStaysExact(s: State, r: BidRecord)
    requires Exact(s)
    ensures Exact(s.(log := s.log + [r]))
  {
  }

  lemma {:induction false} ArchiveIsExact(steps: seq<Step>)
    ensures Exact(Run(steps))
  {
    if steps != [] {
      ArchiveIsExact(steps[..|steps| - 1]);
      var s := Run(steps[..|steps| - 1]);
      match steps[|steps| - 1] {
        case Produce(r) => ProduceStaysExact(s, r);
        case Redeliver =>
        case Try(_, _) => if s.next < |s.log| { KeepStaysExact(s); }
      }
    }
  }

  /** So a committed record is in the table under its own position, or in the dead-letter topic. */
  lemma CommitNeverPassesUnstored(steps: seq<Step>, i: nat)
    requires i < Run(steps).committed
    ensures var s := Run(steps);
      && i < |s.log|
      && (WellFormed(s.log[i]) ==> i in s.table && RowIsFor(s.table[i], s.log[i], i))
      && (!WellFormed(s.log[i]) ==> i in s.dlq)
  {
    ArchiveIsExact(steps);
  }

  /** A record acknowledged as stored is committed and passed; one that failed stays at hand. */
  lemma OnlyStoredIsPassed(s: State, outcome: StoreOutcome)
    requires s.next < |s.log|
    ensures var s' := Apply(s, Try(outcome, true));
      if outcome.Stored? then s'.next == s'.committed == s.next + 1
      else s'.next == s.next && s'.committed == s.committed
    ensures outcome.Failed? ==> Apply(s, Try(outcome, true)) == s
    ensures !outcome.Failed? ==>
      var s' := Apply(s, Try(outcome, true)); s.next in (if WellFormed(s.log[s.next]) then s'.table.Keys else s'.dlq)
  {
  }

  function TryAll(s: State, outcomes: seq<StoreOutcome>, lands: bool): State
    decreases |outcomes|
  {
    if outcomes == [] then s
    else if outcomes[0].Stored? then Apply(s, Try(outcomes[0], lands))
    else TryAll(Apply(s, Try(outcomes[0], lands)), outcomes[1..], lands)
  }

  /** The record is tried until it is acknowledged as stored, however many tries fail before. */
  lemma {:induction false} TriedUntilStored(s: State, outcomes: seq<StoreOutcome>, lands: bool)
    requires s.next < |s.log|
    ensures TryAll(s, outcomes, lands).next == if Stored in outcomes then s.next + 1 else s.next
    decreases |outcomes|
  {
    if outcomes != [] && !outcomes[0].Stored? {
      TriedUntilStored(Apply(s, Try(outcomes[0], lands)), outcomes[1..], lands);
      assert outcomes == [outcomes[0]] + outcomes[1..];
    }
  }

  class RequestArchive {
    var log: seq<BidRecord>
    var next: nat
    var committed: nat
    var table: map<nat, Row>
    var dlq: set<nat>
    ghost var reach: nat

    ghost function View(): State
      reads this
    {
      State(log, next, committed, table, dlq, reach)
    }

    constructor ()
      ensures View() == Initial
    {
      log, next, committed, table, dlq, reach := [], 0, 0, map[], {}, 0;
    }

    method Persist(row: Row)
      modifies this`table
      ensures table == if row.offset in old(table) then old(table) else old(table)[row.offset := row]
    {
      if row.offset !in table {
        table := table[row.offset := row];
      }
    }

    /** `retry_until_stored` around one record, then its commit. */
    method Consume(outcomes: seq<StoreOutcome>, commitLands: bool)
      requires next < |log|
      modifies this
      ensures View() == TryAll(old(View()), outcomes, commitLands)
    {
      var event := AuditEvent(log[next], next);
      var i := 0;
      while i < |outcomes|
        invariant 0 <= i <= |outcomes| && log == old(log) && next == old(next)
        invariant TryAll(View(), outcomes[i..], commitLands) == TryAll(old(View()), outcomes, commitLands)
      {
        ghost var before := View();
        assert outcomes[i..][1..] == outcomes[i + 1..];
        if !outcomes[i].Failed? {
          match event {
            case Ok(row) => Persist(row);
            case Err(_) => dlq := dlq + {next};
          }
          reach := Max(reach, next + 1);
        }
        if outcomes[i].Stored? {
          committed := if commitLands then next + 1 else committed;
          next := next + 1;
          assert View() == Apply(before, Try(outcomes[i], commitLands));
          return;
        }
        i := i + 1;
      }
    }
  }
}
