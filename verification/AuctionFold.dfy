/**
 * The reference meaning of one auction: a left fold of the bid rule, with request-id
 * dedupe, over a prefix of the partition log. No actors, no Redis, no retries.
 */
module AuctionFold {
  import opened Bidding

  /** A JSON number as the worker sees it before its validity check. */
  datatype Amount = Finite(value: real) | NotFinite

  datatype BidRecord =
    | Malformed
    | Envelope(id: Id, auction: AuctionId, bidder: Id, amount: Amount, timestamp: Timestamp)

  /** The worker's guard: anything else goes to the dead-letter topic unseen by an actor. */
  predicate Biddable(r: BidRecord) {
    r.Envelope? && r.amount.Finite? && r.amount.value > 0.0
  }

  function RequestOf(r: BidRecord): Request
    requires Biddable(r)
  {
    Request(r.id, Bid(r.auction, r.bidder, r.amount.value, r.timestamp))
  }

  datatype Acceptance = Acceptance(request: Request, previous: real, offset: nat)

  datatype Book = Book(price: real, accepted: seq<Acceptance>)

  ghost predicate Knows(book: Book, id: Id) {
    exists k :: 0 <= k < |book.accepted| && book.accepted[k].request.id == id
  }

  /** One record, offered to the book at log position `pos`. */
  ghost function Place(cfg: Config, a: AuctionId, book: Book, r: BidRecord, pos: nat): Book {
    if !Biddable(r) || r.auction != a || Knows(book, r.id) || !Improves(cfg, book.price, r.amount.value)
    then book
    else Book(r.amount.value, book.accepted + [Acceptance(RequestOf(r), book.price, pos)])
  }

  ghost function Fold(cfg: Config, a: AuctionId, log: seq<BidRecord>, n: nat): Book
    requires n <= |log|
  {
    if n == 0 then Book(cfg.startingPrice, [])
    else Place(cfg, a, Fold(cfg, a, log, n - 1), log[n - 1], n - 1)
  }

  /** Continue a fold over the stretch `[i, j)` of the log. */
  ghost function Resume(cfg: Config, a: AuctionId, book: Book, log: seq<BidRecord>, i: nat, j: nat): Book
    requires i <= j <= |log|
    decreases j - i
  {
    if i == j then book else Resume(cfg, a, Place(cfg, a, book, log[i], i), log, i + 1, j)
  }

  /** Offering `r` again would change nothing. */
  ghost predicate Settled(cfg: Config, a: AuctionId, book: Book, r: BidRecord) {
    Biddable(r) && r.auction == a ==> Knows(book, r.id) || !Improves(cfg, book.price, r.amount.value)
  }

  lemma {:induction false} FoldPrefix(cfg: Config, a: AuctionId, log: seq<BidRecord>, more: seq<BidRecord>, n: nat)
    requires n <= |log|
    ensures Fold(cfg, a, log + more, n) == Fold(cfg, a, log, n)
  {
    if n > 0 {
      FoldPrefix(cfg, a, log, more, n - 1);
    }
  }

  lemma SettledAfterPlace(cfg: Config, a: AuctionId, book: Book, r: BidRecord, pos: nat)
    ensures Settled(cfg, a, Place(cfg, a, book, r, pos), r)
  {
  }

  lemma SettledStays(cfg: Config, a: AuctionId, book: Book, r: BidRecord, q: BidRecord, pos: nat)
    requires Settled(cfg, a, book, r)
    ensures Settled(cfg, a, Place(cfg, a, book, q, pos), r)
  {
    var book' := Place(cfg, a, book, q, pos);
    if Biddable(r) && r.auction == a && Knows(book, r.id) {
      var k :| 0 <= k < |book.accepted| && book.accepted[k].request.id == r.id;
      assert book'.accepted[k] == book.accepted[k];
    }
  }

  /** Every record the fold has passed is settled: the price only ever tightens. */
  lemma {:induction false} PassedIsSettled(cfg: Config, a: AuctionId, log: seq<BidRecord>, n: nat, i: nat)
    requires i < n <= |log|
    ensures Settled(cfg, a, Fold(cfg, a, log, n), log[i])
  {
    var before := Fold(cfg, a, log, n - 1);
    if i == n - 1 {
      SettledAfterPlace(cfg, a, before, log[i], i);
    } else {
      PassedIsSettled(cfg, a, log, n - 1, i);
      SettledStays(cfg, a, before, log[i], log[n - 1], n - 1);
    }
  }

  /** Re-running any stretch already folded changes nothing. */
  lemma {:induction false} RerunChangesNothing(cfg: Config, a: AuctionId, log: seq<BidRecord>, n: nat, i: nat, j: nat)
    requires i <= j <= n <= |log|
    ensures Resume(cfg, a, Fold(cfg, a, log, n), log, i, j) == Fold(cfg, a, log, n)
    decreases j - i
  {
    if i < j {
      PassedIsSettled(cfg, a, log, n, i);
      RerunChangesNothing(cfg, a, log, n, i + 1, j);
    }
  }

  /** The price a book stood at when its `k`-th acceptance was made. */
  function PriceBefore(cfg: Config, accepted: seq<Acceptance>, k: nat): real
    requires k <= |accepted|
  {
    if k == 0 then cfg.startingPrice else accepted[k - 1].request.bid.amount
  }

  /** The `k`-th acceptance improved on the price left by the one before it. */
  ghost predicate Link(cfg: Config, a: AuctionId, accepted: seq<Acceptance>, k: nat)
    requires k < |accepted|
  {
    && accepted[k].previous == PriceBefore(cfg, accepted, k)
    && accepted[k].request.bid.auction == a
    && Improves(cfg, accepted[k].previous, accepted[k].request.bid.amount)
  }

  ghost predicate Links(cfg: Config, a: AuctionId, accepted: seq<Acceptance>) {
    forall k :: 0 <= k < |accepted| ==> Link(cfg, a, accepted, k)
  }

  ghost predicate DistinctIds(accepted: seq<Acceptance>) {
    forall j, k :: 0 <= j < k < |accepted| ==> accepted[j].request.id != accepted[k].request.id
  }

  /** What every reachable book looks like. */
  ghost predicate Chain(cfg: Config, a: AuctionId, book: Book) {
    && book.price == PriceBefore(cfg, book.accepted, |book.accepted|)
    && Links(cfg, a, book.accepted)
    && DistinctIds(book.accepted)
  }

  /** Each acceptance is the record at its own offset, and offsets increase. */
  ghost predicate Sourced(accepted: seq<Acceptance>, log: seq<BidRecord>, n: nat)
    requires n <= |log|
  {
    && (forall k :: 0 <= k < |accepted| ==>
          && accepted[k].offset < n && Biddable(log[accepted[k].offset])
          && RequestOf(log[accepted[k].offset]) == accepted[k].request)
    && (forall j, k :: 0 <= j < k < |accepted| ==> accepted[j].offset < accepted[k].offset)
  }

  lemma PlaceKeepsChain(cfg: Config, a: AuctionId, book: Book, r: BidRecord, pos: nat)
    requires Chain(cfg, a, book)
    ensures Chain(cfg, a, Place(cfg, a, book, r, pos))
  {
    var book' := Place(cfg, a, book, r, pos);
    if book' != book {
      var n := |book.accepted|;
      forall k | 0 <= k <= n ensures Link(cfg, a, book'.accepted, k) {
        if k < n {
          assert Link(cfg, a, book.accepted, k);
        }
      }
    }
  }

  lemma {:induction false} FoldIsChain(cfg: Config, a: AuctionId, log: seq<BidRecord>, n: nat)
    requires n <= |log|
    ensures Chain(cfg, a, Fold(cfg, a, log, n))
  {
    if n > 0 {
      FoldIsChain(cfg, a, log, n - 1);
      PlaceKeepsChain(cfg, a, Fold(cfg, a, log, n - 1), log[n - 1], n - 1);
    }
  }

  lemma {:induction false} FoldIsSourced(cfg: Config, a: AuctionId, log: seq<BidRecord>, n: nat)
    requires n <= |log|
    ensures Sourced(Fold(cfg, a, log, n).accepted, log, n)
  {
    if n > 0 {
      FoldIsSourced(cfg, a, log, n - 1);
    }
  }

  function Steps(n: nat, step: real): real {
    if n == 0 then 0.0 else Steps(n - 1, step) + step
  }

  lemma {:induction false} StepsIsProduct(n: nat, step: real)
    ensures Steps(n, step) == n as real * step
  {
    if n > 0 {
      StepsIsProduct(n - 1, step);
      calc {
        Steps(n, step);
        (n - 1) as real * step + step;
        ((n - 1) as real + 1.0) * step;
        { assert (n - 1) as real + 1.0 == n as real; }
        n as real * step;
      }
    }
  }

  lemma {:induction false} StepsGrow(n: nat, step: real)
    requires step > 0.0
    ensures Steps(n, step) >= 0.0
  {
    if n > 0 {
      StepsGrow(n - 1, step);
    }
  }

  /** Accepted prices are a whole step apart for every place between them. */
  lemma {:induction false} StepsApart(cfg: Config, a: AuctionId, book: Book, j: nat, k: nat)
    requires Chain(cfg, a, book) && j <= k <= |book.accepted|
    ensures AtLeastAsStrict(cfg.kind, PriceBefore(cfg, book.accepted, k),
              match cfg.kind
              case Reverse => PriceBefore(cfg, book.accepted, j) - Steps(k - j, cfg.step)
              case Forward => PriceBefore(cfg, book.accepted, j) + Steps(k - j, cfg.step))
  {
    if j < k {
      StepsApart(cfg, a, book, j, k - 1);
      assert Link(cfg, a, book.accepted, k - 1);
    }
  }

  /** An earlier acceptance is strictly beaten by every later one, so no two amounts are equal. */
  lemma LaterBeatsEarlier(cfg: Config, a: AuctionId, book: Book, j: nat, k: nat)
    requires Chain(cfg, a, book) && j < k < |book.accepted|
    ensures Beats(cfg.kind, book.accepted[k].request.bid.amount, book.accepted[j].request.bid.amount)
  {
    StepsApart(cfg, a, book, j + 1, k);
    assert Link(cfg, a, book.accepted, k);
    StepsGrow(k - (j + 1), cfg.step);
  }

  /** n accepted reverse bids fit strictly under the starting price; n forward bids climb n steps. */
  lemma StepBound(cfg: Config, a: AuctionId, log: seq<BidRecord>, n: nat)
    requires n <= |log|
    requires Fold(cfg, a, log, n).accepted != []
    ensures cfg.kind.Reverse? ==> |Fold(cfg, a, log, n).accepted| as real * cfg.step < cfg.startingPrice
    ensures cfg.kind.Forward? ==>
      Fold(cfg, a, log, n).price >= cfg.startingPrice + |Fold(cfg, a, log, n).accepted| as real * cfg.step
  {
    var book := Fold(cfg, a, log, n);
    var count := |book.accepted|;
    FoldIsChain(cfg, a, log, n);
    StepsApart(cfg, a, book, 0, count);
    StepsIsProduct(count, cfg.step);
    assert Link(cfg, a, book.accepted, count - 1);
  }

  // ---------- the rule from the other side: what must be taken ----------

  /**
   * A valid bid on this auction with a new id is refused exactly when it is less than one
   * whole step better than the price; otherwise it becomes the price.
   */
  lemma RefusedIffShortOfAStep(cfg: Config, a: AuctionId, book: Book, r: BidRecord, pos: nat)
    requires cfg.step > 0.0 && Biddable(r) && r.auction == a && !Knows(book, r.id)
    ensures var refused := match cfg.kind
        case Reverse => r.amount.value > book.price - cfg.step
        case Forward => r.amount.value < book.price + cfg.step;
      Place(cfg, a, book, r, pos) ==
        if refused then book else Book(r.amount.value, book.accepted + [Acceptance(RequestOf(r), book.price, pos)])
  {
  }

  /** The price after `n` bids, each exactly one step better than the one before. */
  function Stair(cfg: Config, n: nat): real {
    match cfg.kind
    case Reverse => cfg.startingPrice - Steps(n, cfg.step)
    case Forward => cfg.startingPrice + Steps(n, cfg.step)
  }

  function StairLog(cfg: Config, a: AuctionId, n: nat): seq<BidRecord> {
    if n == 0 then []
    else StairLog(cfg, a, n - 1) + [Envelope(Uuid(n - 1), a, Uuid(0), Finite(Stair(cfg, n)), InRange(0))]
  }

  /** Acceptance `k` is the bid `k + 1` steps from the starting price. */
  ghost predicate OnStair(cfg: Config, e: Acceptance, k: nat) {
    e.request.id == Uuid(k) && e.request.bid.amount == Stair(cfg, k + 1) && e.previous == Stair(cfg, k) && e.offset == k
  }

  lemma {:induction false} StairIsAccepted(cfg: Config, a: AuctionId, n: nat)
    requires cfg.step > 0.0
    requires cfg.kind.Reverse? ==> Steps(n, cfg.step) < cfg.startingPrice
    requires cfg.kind.Forward? ==> cfg.startingPrice >= 0.0
    ensures |StairLog(cfg, a, n)| == n
    ensures var book := Fold(cfg, a, StairLog(cfg, a, n), n);
      && book.price == Stair(cfg, n) && |book.accepted| == n
      && forall k :: 0 <= k < n ==> OnStair(cfg, book.accepted[k], k)
  {
    if n > 0 {
      StairIsAccepted(cfg, a, n - 1);
      var before, r := StairLog(cfg, a, n - 1), StairLog(cfg, a, n)[n - 1];
      FoldPrefix(cfg, a, before, [r], n - 1);
      var book := Fold(cfg, a, before, n - 1);
      assert Fold(cfg, a, StairLog(cfg, a, n), n) == Place(cfg, a, book, r, n - 1);
      StepsGrow(n - 1, cfg.step);
      assert !Knows(book, r.id) by {
        forall k | 0 <= k < n - 1 ensures book.accepted[k].request.id != r.id {
          assert OnStair(cfg, book.accepted[k], k);
        }
      }
      RefusedIffShortOfAStep(cfg, a, book, r, n - 1);
    }
  }

  /**
   * The step bound is reached: n reverse bids, each exactly one step lower, are all accepted
   * whenever n steps fit under the starting price; any number of forward bids one step up are.
   */
  lemma StepBoundIsReached(cfg: Config, a: AuctionId, n: nat)
    requires cfg.step > 0.0
    requires cfg.kind.Reverse? ==> n as real * cfg.step < cfg.startingPrice
    requires cfg.kind.Forward? ==> cfg.startingPrice >= 0.0
    ensures |StairLog(cfg, a, n)| == n && |Fold(cfg, a, StairLog(cfg, a, n), n).accepted| == n
    ensures Fold(cfg, a, StairLog(cfg, a, n), n).price ==
      match cfg.kind
      case Reverse => cfg.startingPrice - n as real * cfg.step
      case Forward => cfg.startingPrice + n as real * cfg.step
  {
    var total := Steps(n, cfg.step);
    assert total == n as real * cfg.step by {
      StepsIsProduct(n, cfg.step);
    }
    StairEnds(cfg, a, n, total);
  }

  lemma StairEnds(cfg: Config, a: AuctionId, n: nat, total: real)
    requires cfg.step > 0.0 && total == Steps(n, cfg.step)
    requires match cfg.kind case Reverse => total < cfg.startingPrice case Forward => cfg.startingPrice >= 0.0
    ensures |StairLog(cfg, a, n)| == n && |Fold(cfg, a, StairLog(cfg, a, n), n).accepted| == n
    ensures Fold(cfg, a, StairLog(cfg, a, n), n).price ==
      if cfg.kind.Reverse? then cfg.startingPrice - total else cfg.startingPrice + total
  {
    StairIsAccepted(cfg, a, n);
  }

  /** Each acceptance was made at the price the fold had reached just before its record. */
  lemma {:induction false} AcceptedAtFoldPrice(cfg: Config, a: AuctionId, log: seq<BidRecord>, n: nat, k: nat)
    requires n <= |log| && k < |Fold(cfg, a, log, n).accepted|
    ensures var e := Fold(cfg, a, log, n).accepted[k];
      e.offset < n && e.previous == Fold(cfg, a, log, e.offset).price
  {
    if k < |Fold(cfg, a, log, n - 1).accepted| {
      AcceptedAtFoldPrice(cfg, a, log, n - 1, k);
    }
  }
}
