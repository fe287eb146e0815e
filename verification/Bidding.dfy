/**
 * Bids, requests, decisions and the rule that decides a bid
 * (apps/auction-engine/src/types.rs). Money is `real`.
 */
module Bidding {
  import opened Wrappers

  datatype AuctionType = Reverse | Forward

  type AuctionId = nat

  /** A string the engine passes through and later consumers parse as a UUID. */
  datatype Id = Uuid(value: nat) | Text(raw: string)

  /** Milliseconds, with the outcome of the later conversion to a calendar date. */
  datatype Timestamp = InRange(ms: int) | OutOfRange(ms: int)

  datatype Bid = Bid(auction: AuctionId, bidder: Id, amount: real, timestamp: Timestamp)

  datatype Request = Request(id: Id, bid: Bid)

  datatype Config = Config(kind: AuctionType, startingPrice: real, step: real, reserve: Option<real>)

  /**
   * The JSON document written for one decision. `rank` stands for everything the other
   * fields do not determine: the place of the text in byte order, which Redis uses to
   * order sorted-set members of equal score.
   */
  datatype Decision = Decision(
    request: Request,
    kind: AuctionType,
    executed: bool,
    previous: real,
    resulting: real,
    offset: nat,
    rank: nat)

  predicate IsBetterBid(kind: AuctionType, price: real, amount: real, step: real) {
    && amount > 0.0
    && step > 0.0
    && match kind
       case Reverse => amount <= price - step
       case Forward => amount >= price + step
  }

  predicate Improves(cfg: Config, price: real, amount: real) {
    IsBetterBid(cfg.kind, price, amount, cfg.step)
  }

  function Decide(kind: AuctionType, request: Request, executed: bool, price: real, offset: nat, rank: nat): Decision {
    Decision(request, kind, executed, price, if executed then request.bid.amount else price, offset, rank)
  }

  /** `p` admits no bid that `q` refuses. */
  predicate AtLeastAsStrict(kind: AuctionType, p: real, q: real) {
    match kind
    case Reverse => p <= q
    case Forward => p >= q
  }

  /** `a` beats `b` outright in the auction's direction. */
  predicate Beats(kind: AuctionType, a: real, b: real) {
    match kind
    case Reverse => a < b
    case Forward => a > b
  }
}
