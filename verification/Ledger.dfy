/**
 * One auction's Redis keys and the write that records a decision
 * (apps/auction-engine/src/ledger.rs, `write_bid`).
 */
module Ledger {
  import opened Wrappers
  import opened Bidding

  /**
   * `outbox` is everything ever appended to the pending-events stream, in order; which
   * entries the publisher has since deleted is the business of module Outbox.
   */
  datatype Store = Store(
    dedupe: map<Id, Decision>,
    sync: seq<Decision>,
    live: seq<Decision>,
    zset: seq<Decision>,
    outbox: seq<Decision>)

  const EmptyStore := Store(map[], [], [], [], [])

  datatype LedgerWrite = Applied | Duplicate

  /** What the network does to one write: nothing, refuse it, or run it and lose the answer. */
  datatype LedgerFault = NoFault | NotApplied | ReplyLost

  // ---------- the sorted set ----------

  /** Redis order: by score, then by the bytes of the member. */
  predicate Before(d: Decision, e: Decision) {
    d.request.bid.amount < e.request.bid.amount || (d.request.bid.amount == e.request.bid.amount && d.rank <= e.rank)
  }

  function ZAdd(z: seq<Decision>, d: Decision): seq<Decision> {
    if z == [] || Before(d, z[0]) then [d] + z else [z[0]] + ZAdd(z[1..], d)
  }

  ghost predicate Sorted(z: seq<Decision>) {
    forall i, j :: 0 <= i < j < |z| ==> z[i].request.bid.amount <= z[j].request.bid.amount
  }

  /** `zrange 0 0` for a reverse auction, `zrevrange 0 0` for a forward one. */
  function Head(kind: AuctionType, z: seq<Decision>): Option<Decision> {
    if z == [] then None
    else match kind
      case Reverse => Some(z[0])
      case Forward => Some(z[|z| - 1])
  }

  /** The price an actor starts from: the best stored bid, else the starting price. */
  function RestoredPrice(cfg: Config, z: seq<Decision>): real {
    match Head(cfg.kind, z)
    case None => cfg.startingPrice
    case Some(best) => best.request.bid.amount
  }

  lemma {:induction false} ZAddContents(z: seq<Decision>, d: Decision)
    ensures multiset(ZAdd(z, d)) == multiset(z) + multiset{d}
  {
    if z == [] || Before(d, z[0]) {
    } else {
      assert z == [z[0]] + z[1..];
      ZAddContents(z[1..], d);
    }
  }

  lemma ZAddMembers(z: seq<Decision>, d: Decision, e: Decision)
    ensures e in ZAdd(z, d) <==> e in z || e == d
  {
  }

  lemma {:induction false} ZAddKeepsSorted(z: seq<Decision>, d: Decision)
    requires Sorted(z)
    ensures Sorted(ZAdd(z, d))
  {
    if z != [] && !Before(d, z[0]) {
      var rest := ZAdd(z[1..], d);
      ZAddKeepsSorted(z[1..], d);
      forall j | 0 <= j < |rest| ensures z[0].request.bid.amount <= rest[j].request.bid.amount {
        ZAddMembers(z[1..], d, rest[j]);
      }
    }
  }

  /** By amount and, among equal amounts, by the bytes of the member. */
  ghost predicate Ordered(z: seq<Decision>) {
    forall i, j :: 0 <= i < j < |z| ==>
      var x, y := z[i].request.bid.amount, z[j].request.bid.amount; x < y || (x == y && z[i].rank <= z[j].rank)
  }

  lemma {:induction false} ZAddKeepsOrder(z: seq<Decision>, d: Decision)
    requires Ordered(z)
    ensures Ordered(ZAdd(z, d))
  {
    if z != [] && !Before(d, z[0]) {
      var rest := ZAdd(z[1..], d);
      ZAddKeepsOrder(z[1..], d);
      forall j | 0 <= j < |rest| ensures Before(z[0], rest[j]) {
        ZAddMembers(z[1..], d, rest[j]);
      }
    }
  }

  /** The head is a member no other member beats. */
  lemma HeadIsBest(kind: AuctionType, z: seq<Decision>)
    requires Sorted(z) && z != []
    ensures Head(kind, z).Some? && Head(kind, z).value in z
    ensures forall e :: e in z ==>
      AtLeastAsStrict(kind, Head(kind, z).value.request.bid.amount, e.request.bid.amount)
  {
  }

  // ---------- write_bid ----------

  /** The Lua script: all five keys change together, or none does. */
  function Script(st: Store, d: Decision): Store {
    if d.request.id in st.dedupe then st
    else Store(st.dedupe[d.request.id := d], st.sync + [d], st.live + [d], ZAdd(st.zset, d), st.outbox + [d])
  }

  /** The rejection path: republish an earlier acceptance of this id, or the rejection itself. */
  function Reject(st: Store, d: Decision): Store {
    st.(outbox := st.outbox + [if d.request.id in st.dedupe then st.dedupe[d.request.id] else d])
  }

  function Write(st: Store, d: Decision): Store {
    if d.executed then Script(st, d) else Reject(st, d)
  }

  function WriteOutcome(st: Store, d: Decision, fault: LedgerFault): Result<LedgerWrite, string> {
    if !fault.NoFault? then Err("redis")
    else if d.request.id in st.dedupe then Ok(Duplicate)
    else Ok(Applied)
  }

  // ---------- decisions ----------

  ghost predicate HasDecision(st: Store, id: Id) {
    exists d :: d in st.outbox && d.request.id == id
  }

  /** An id counts as seen only together with its decision. */
  ghost predicate DedupeBacked(st: Store) {
    forall id :: id in st.dedupe ==>
      st.dedupe[id] in st.outbox && st.dedupe[id].request.id == id && st.dedupe[id].executed
  }

  lemma WriteResolves(st: Store, d: Decision)
    requires DedupeBacked(st)
    ensures DedupeBacked(Write(st, d))
    ensures st.outbox <= Write(st, d).outbox
    ensures HasDecision(Write(st, d), d.request.id)
  {
  }

  // ---------- close_auction ----------

  /** The head of the sorted set, unless a forward auction's reserve is not met. */
  function Announced(kind: AuctionType, reserve: Option<real>, z: seq<Decision>): Option<Decision> {
    var head := Head(kind, z);
    if kind.Forward? && reserve.Some? && (head.None? || head.value.request.bid.amount < reserve.value) then None
    else head
  }

  /** What closing sends out: records on the sync topic, and winners to the auction's room. */
  datatype Outgoing = Outgoing(syncs: nat, announced: seq<Option<Decision>>)

  /** Where closing fails: nowhere, before the sync record is published, or after it. */
  datatype CloseFault = NoCloseFault | BeforeSync | AfterSync

  function CloseAuction(cfg: Config, z: seq<Decision>, sent: Outgoing, fault: CloseFault): Outgoing {
    match fault
    case BeforeSync => sent
    case AfterSync => sent.(syncs := sent.syncs + 1)
    case NoCloseFault => Outgoing(sent.syncs + 1, sent.announced + [Announced(cfg.kind, cfg.reserve, z)])
  }

  class RedisLedger {
    var dedupe: map<Id, Decision>
    var sync: seq<Decision>
    var live: seq<Decision>
    var zset: seq<Decision>
    var outbox: seq<Decision>

    function Contents(): Store
      reads this
    {
      Store(dedupe, sync, live, zset, outbox)
    }

    constructor ()
      ensures Contents() == EmptyStore
    {
      dedupe, sync, live, zset, outbox := map[], [], [], [], [];
    }

    method InvokeScript(d: Decision) returns (applied: bool)
      modifies this
      ensures Contents() == Script(old(Contents()), d)
      ensures applied <==> d.request.id !in old(dedupe)
    {
      if d.request.id in dedupe {
        return false;
      }
      sync := sync + [d];
      live := live + [d];
      zset := ZAdd(zset, d);
      dedupe := dedupe[d.request.id := d];
      outbox := outbox + [d];
      applied := true;
    }

    method WriteBid(request: Request, kind: AuctionType, isExecuted: bool, previousPrice: real, offset: nat,
                    rank: nat, fault: LedgerFault)
      returns (write: Result<LedgerWrite, string>)
      modifies this
      ensures var d := Decide(kind, request, isExecuted, previousPrice, offset, rank);
        && Contents() == (if fault.NotApplied? then old(Contents()) else Write(old(Contents()), d))
        && write == WriteOutcome(old(Contents()), d, fault)
    {
      var payload := Decide(kind, request, isExecuted, previousPrice, offset, rank);
      if fault.NotApplied? {
        return Err("redis");
      }
      if !isExecuted {
        var duplicate := request.id in dedupe;
        if duplicate {
          outbox := outbox + [dedupe[request.id]];
        } else {
          outbox := outbox + [payload];
        }
        if fault.ReplyLost? {
          return Err("redis");
        }
        return Ok(if duplicate then Duplicate else Applied);
      }
      var applied := InvokeScript(payload);
      if fault.ReplyLost? {
        return Err("redis");
      }
      return Ok(if applied then Applied else Duplicate);
    }
  }
}
