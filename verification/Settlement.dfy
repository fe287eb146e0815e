/**
 * The winner announced when an auction closes (apps/auction-engine/src/ledger.rs,
 * `close_auction`) and the winner the sync worker persists afterwards
 * (apps/notification-worker/src/main.rs, `run_sync_worker`).
 */
module Settlement {
  import opened Wrappers
  import opened Bidding
  import opened AuctionFold
  import opened Ledger
  import opened Actor
  import opened Pipeline
  import opened Refinement

  datatype Winner = Winner(bidder: nat, amount: real)

  datatype BidRow = BidRow(id: nat, amount: real, createdAt: int, carrier: nat, auction: AuctionId)

  // ---------- the sync scan ----------

  /** A stored bid the scan does not skip. */
  predicate Syncable(d: Decision) {
    d.executed && d.request.bid.bidder.Uuid? && d.request.bid.timestamp.InRange?
  }

  function Scan(kind: AuctionType, z: seq<Decision>): Option<Winner> {
    if z == [] then None
    else
      var best, d := Scan(kind, z[..|z| - 1]), z[|z| - 1];
      if Syncable(d) && (best.None? || Beats(kind, d.request.bid.amount, best.value.amount))
      then Some(Winner(d.request.bid.bidder.value, d.request.bid.amount))
      else best
  }

  function Persisted(kind: AuctionType, reserve: Option<real>, z: seq<Decision>): Option<Winner> {
    var best := Scan(kind, z);
    if best.Some? && kind.Forward? && reserve.Some? && best.value.amount < reserve.value then None else best
  }

  /** The rows to insert: a bid whose request id is no UUID can win but leaves no row. */
  function RowsOf(z: seq<Decision>): seq<BidRow> {
    if z == [] then []
    else
      var rest, d := RowsOf(z[..|z| - 1]), z[|z| - 1];
      if Syncable(d) && d.request.id.Uuid?
      then rest + [BidRow(d.request.id.value, d.request.bid.amount, d.request.bid.timestamp.ms,
                          d.request.bid.bidder.value, d.request.bid.auction)]
      else rest
  }

  function WinnerFrom(d: Decision): Winner
    requires Syncable(d)
  {
    Winner(d.request.bid.bidder.value, d.request.bid.amount)
  }

  /** The scan finds a syncable bid that no syncable bid beats, if there is one. */
  lemma {:induction false} ScanFindsBest(kind: AuctionType, z: seq<Decision>)
    ensures Scan(kind, z).None? <==> forall d :: d in z ==> !Syncable(d)
    ensures Scan(kind, z).Some? ==>
      && (exists d :: d in z && Syncable(d) && Scan(kind, z).value == WinnerFrom(d))
      && (forall d :: d in z && Syncable(d) ==> AtLeastAsStrict(kind, Scan(kind, z).value.amount, d.request.bid.amount))
  {
    if z != [] {
      var n := |z| - 1;
      ScanFindsBest(kind, z[..n]);
      assert z == z[..n] + [z[n]];
      assert z[n] in z;
      if Scan(kind, z) == Scan(kind, z[..n]) && Scan(kind, z).Some? {
        var d :| d in z[..n] && Syncable(d) && Scan(kind, z).value == WinnerFrom(d);
        assert d in z;
      }
    }
  }

  // ---------- the two winners ----------

  ghost predicate Agree(announced: Option<Decision>, persisted: Option<Winner>) {
    match (announced, persisted)
    case (None, None) => true
    case (Some(d), Some(w)) => d.request.bid.bidder == Uuid(w.bidder) && d.request.bid.amount == w.amount
    case _ => false
  }

  /** Its bidder is a UUID and its timestamp a date. */
  predicate Readable(b: Bid) {
    b.bidder.Uuid? && b.timestamp.InRange?
  }

  /** No two stored bids share an amount. */
  ghost predicate DistinctAmounts(z: seq<Decision>) {
    forall d, e :: d in z && e in z && d.request.bid.amount == e.request.bid.amount ==> d == e
  }

  /**
   * The two agree exactly when nobody is announced or the announced bid is one the scan
   * can read: its bidder is a UUID and its timestamp a date.
   */
  lemma WinnersAgreeIff(kind: AuctionType, reserve: Option<real>, z: seq<Decision>)
    requires Sorted(z) && DistinctAmounts(z) && forall d :: d in z ==> d.executed
    ensures Agree(Announced(kind, reserve, z), Persisted(kind, reserve, z)) <==>
      (Announced(kind, reserve, z).None? || Readable(Announced(kind, reserve, z).value.request.bid))
  {
    ScanFindsBest(kind, z);
    if z != [] {
      HeadIsBest(kind, z);
      var head := Head(kind, z).value;
      var best := Scan(kind, z);
      if best.Some? {
        var d :| d in z && Syncable(d) && best.value == WinnerFrom(d);
        assert AtLeastAsStrict(kind, head.request.bid.amount, d.request.bid.amount);
      }
    }
  }

  /** Why distinct amounts matter: a forward tie is announced for one bidder and persisted for another. */
  lemma ForwardTieDisagrees(a: AuctionId, amount: real, first: nat, second: nat)
    requires first != second && amount > 0.0
    ensures var d := Decide(Forward, Request(Uuid(0), Bid(a, Uuid(first), amount, InRange(0))), true, 0.0, 0, 0);
      var e := Decide(Forward, Request(Uuid(1), Bid(a, Uuid(second), amount, InRange(1))), true, 0.0, 1, 1);
      Sorted([d, e]) && !Agree(Announced(Forward, None, [d, e]), Persisted(Forward, None, [d, e]))
  {
    var d := Decide(Forward, Request(Uuid(0), Bid(a, Uuid(first), amount, InRange(0))), true, 0.0, 0, 0);
    var e := Decide(Forward, Request(Uuid(1), Bid(a, Uuid(second), amount, InRange(1))), true, 0.0, 1, 1);
    assert [d, e][..1] == [d];
    assert Scan(Forward, [d]) == Some(Winner(first, amount)) by {
      assert [d][..0] == [];
    }
  }

  lemma RefinedAmountsDistinct(cfg: Config, a: AuctionId, st: Store, book: Book)
    requires Matches(cfg, st, book) && Chain(cfg, a, book)
    ensures DistinctAmounts(st.zset) && forall d :: d in st.zset ==> d.executed
  {
    forall d | d in st.zset
      ensures exists k :: 0 <= k < |st.sync| && st.sync[k] == d && Stores(cfg, d, book.accepted[k])
    {
      assert d in multiset(st.zset);
      var k :| 0 <= k < |st.sync| && st.sync[k] == d;
      assert Stores(cfg, st.sync[k], book.accepted[k]);
    }
    forall d, e | d in st.zset && e in st.zset && d.request.bid.amount == e.request.bid.amount ensures d == e {
      var j :| 0 <= j < |st.sync| && st.sync[j] == d && Stores(cfg, d, book.accepted[j]);
      var k :| 0 <= k < |st.sync| && st.sync[k] == e && Stores(cfg, e, book.accepted[k]);
      if j < k {
        LaterBeatsEarlier(cfg, a, book, j, k);
      } else if k < j {
        LaterBeatsEarlier(cfg, a, book, k, j);
      }
    }
  }

  /** In every run, the announced winner is the persisted one exactly when the scan can read it. */
  lemma RunWinnersAgreeIff(cfgs: Configs, steps: seq<Step>, a: AuctionId)
    requires Faithful(cfgs, steps)
    ensures var cfg, z := cfgs(a), StoreOf(Run(cfgs, steps), a).zset;
      Agree(Announced(cfg.kind, cfg.reserve, z), Persisted(cfg.kind, cfg.reserve, z)) <==>
      (Announced(cfg.kind, cfg.reserve, z).None? || Readable(Announced(cfg.kind, cfg.reserve, z).value.request.bid))
  {
    PipelineRefinesFold(cfgs, steps, a);
    var s := Run(cfgs, steps);
    FoldIsChain(cfgs(a), a, s.log, Horizon(s, a));
    RefinedAmountsDistinct(cfgs(a), a, StoreOf(s, a), BookOf(cfgs, s, a));
    WinnersAgreeIff(cfgs(a).kind, cfgs(a).reserve, StoreOf(s, a).zset);
  }

  /**
   * A run in which they differ: the first bid of an auction is accepted with a bidder that is
   * no UUID or a timestamp that is no date. It is announced, and nobody is persisted.
   */
  lemma UnreadableWinnerRun(cfgs: Configs, r: BidRecord, rank: nat)
    requires Biddable(r) && Improves(cfgs(r.auction), cfgs(r.auction).startingPrice, r.amount.value)
    requires !r.bidder.Uuid? || !r.timestamp.InRange?
    requires cfgs(r.auction).reserve.None?
    ensures var steps, cfg := [Produce(r), Deliver(Answered(NoFault), rank, Landed)], cfgs(r.auction);
      var z := StoreOf(Run(cfgs, steps), r.auction).zset;
      && Faithful(cfgs, steps)
      && Announced(cfg.kind, cfg.reserve, z).Some? && Announced(cfg.kind, cfg.reserve, z).value.request == RequestOf(r)
      && Persisted(cfg.kind, cfg.reserve, z).None?
  {
    var steps := [Produce(r), Deliver(Answered(NoFault), rank, Landed)];
    FirstProduced(cfgs, r);
    RunSnoc(cfgs, [Produce(r)], steps[1]);
    FaithfulSnoc(cfgs, [], Produce(r));
    FaithfulSnoc(cfgs, [Produce(r)], steps[1]);
    assert [] + [Produce(r)] == [Produce(r)] && steps == [Produce(r)] + [steps[1]];
    var s := Run(cfgs, [Produce(r)]);
    var d := DecisionAt(cfgs, s, r, rank);
    assert ZAdd([], d) == [d] && [d][..0] == [];
    assert StoreOf(Run(cfgs, steps), r.auction).zset == [d];
    ScanFindsBest(cfgs(r.auction).kind, [d]);
  }

  /** The head of a ledger that matches a book is the book's last acceptance. */
  lemma HeadIsLastAcceptance(cfg: Config, a: AuctionId, st: Store, book: Book)
    requires Matches(cfg, st, book) && Chain(cfg, a, book) && book.accepted != []
    ensures Head(cfg.kind, st.zset).Some?
    ensures Head(cfg.kind, st.zset).value.request == book.accepted[|book.accepted| - 1].request
  {
    var last := |st.sync| - 1;
    assert st.sync[last] in multiset(st.sync) && st.sync[last] in multiset(st.zset);
    HeadIsBest(cfg.kind, st.zset);
    RestoredIsBookPrice(cfg, a, st, book);
    RefinedAmountsDistinct(cfg, a, st, book);
    assert Stores(cfg, st.sync[last], book.accepted[last]);
  }

  /** The last acceptance of the book, or nobody when there is none or a forward reserve was not reached. */
  ghost predicate IsLastAcceptance(cfg: Config, announced: Option<Decision>, book: Book) {
    && (announced.None? <==>
          book.accepted == [] || (cfg.kind.Forward? && cfg.reserve.Some? && book.price < cfg.reserve.value))
    && (announced.Some? ==>
          book.accepted != [] && announced.value.request == book.accepted[|book.accepted| - 1].request)
  }

  lemma AnnouncedOfMatching(cfg: Config, a: AuctionId, st: Store, book: Book)
    requires Matches(cfg, st, book) && Chain(cfg, a, book)
    ensures IsLastAcceptance(cfg, Announced(cfg.kind, cfg.reserve, st.zset), book)
  {
    assert |multiset(st.zset)| == |st.zset|;
    if book.accepted != [] {
      HeadIsLastAcceptance(cfg, a, st, book);
    }
  }

  /**
   * In every run the bid announced is the last one the fold accepted, withheld exactly when
   * there is none or a forward auction's reserve was not reached.
   */
  lemma AnnouncedIsLastAcceptance(cfgs: Configs, steps: seq<Step>, a: AuctionId)
    requires Faithful(cfgs, steps)
    ensures Safe(Run(cfgs, steps))
    ensures IsLastAcceptance(cfgs(a), Announced(cfgs(a).kind, cfgs(a).reserve, StoreOf(Run(cfgs, steps), a).zset),
                             BookOf(cfgs, Run(cfgs, steps), a))
  {
    PipelineRefinesFold(cfgs, steps, a);
    var s := Run(cfgs, steps);
    FoldIsChain(cfgs(a), a, s.log, Horizon(s, a));
    AnnouncedOfMatching(cfgs(a), a, StoreOf(s, a), BookOf(cfgs, s, a));
  }

  // ---------- finalization ----------

  /** The row of a stored bid, or none: a readable bid whose id is a UUID. */
  predicate IsRowOf(row: BidRow, d: Decision) {
    && d.executed && Readable(d.request.bid) && d.request.id == Uuid(row.id)
    && row.amount == d.request.bid.amount && row.carrier == d.request.bid.bidder.value
    && row.createdAt == d.request.bid.timestamp.ms && row.auction == d.request.bid.auction
  }

  lemma {:induction false} RowsAreOfBids(z: seq<Decision>)
    ensures forall row :: row in RowsOf(z) ==> exists d :: d in z && IsRowOf(row, d)
    ensures forall d :: d in z && d.executed && Readable(d.request.bid) && d.request.id.Uuid? ==>
      exists row :: row in RowsOf(z) && IsRowOf(row, d)
  {
    if z != [] {
      var n := |z| - 1;
      RowsAreOfBids(z[..n]);
      var before := RowsOf(z[..n]);
      assert z == z[..n] + [z[n]];
      forall row | row in RowsOf(z) ensures exists d :: d in z && IsRowOf(row, d) {
        if row in before {
          var d :| d in z[..n] && IsRowOf(row, d);
          assert d in z;
        } else {
          assert z[n] in z && IsRowOf(row, z[n]);
        }
      }
      forall d | d in z && d.executed && Readable(d.request.bid) && d.request.id.Uuid?
        ensures exists row :: row in RowsOf(z) && IsRowOf(row, d)
      {
        if d in z[..n] {
          var row :| row in before && IsRowOf(row, d);
          assert row in RowsOf(z);
        } else {
          var row := RowsOf(z)[|RowsOf(z)| - 1];
          assert row in RowsOf(z) && IsRowOf(row, d);
        }
      }
    }
  }

  datatype Db = Db(completed: bool, winner: Option<nat>, bids: map<nat, BidRow>)

  datatype World = World(db: Db, zset: seq<Decision>)

  /**
   * What goes wrong in one attempt. A statement whose answer is lost took effect; a crash
   * between two statements is the loss of the first one's answer.
   */
  datatype SyncFault =
    | NoSyncFault
    | NoConnection
    | UpdateFailed
    | UpdateAckLost
    | InsertFailed
    | InsertAckLost
    | CleanupFailed

  /** `configRead` is false when the configuration query fails and the code falls back to reverse, no reserve. */
  datatype Conditions = Conditions(configRead: bool, fault: SyncFault)

  function InsertRows(table: map<nat, BidRow>, rows: seq<BidRow>): map<nat, BidRow> {
    if rows == [] then table
    else
      var before, row := InsertRows(table, rows[..|rows| - 1]), rows[|rows| - 1];
      if row.id in before then before else before[row.id := row]
  }

  /** `UPDATE auctions`: without a winner the winner column is left alone. */
  function UpdateAuction(db: Db, winner: Option<Winner>): Db {
    db.(completed := true, winner := if winner.Some? then Some(winner.value.bidder) else db.winner)
  }

  function Clean(kind: AuctionType, reserve: Option<real>, w: World): Db {
    var db := UpdateAuction(w.db, Persisted(kind, reserve, w.zset));
    db.(bids := InsertRows(db.bids, RowsOf(w.zset)))
  }

  function ReadKind(cfg: Config, c: Conditions): AuctionType { if c.configRead then cfg.kind else Reverse }

  function ReadReserve(cfg: Config, c: Conditions): Option<real> { if c.configRead then cfg.reserve else None }

  predicate Succeeds(w: World, c: Conditions) {
    || c.fault.NoSyncFault? || c.fault.CleanupFailed?
    || ((c.fault.InsertFailed? || c.fault.InsertAckLost?) && RowsOf(w.zset) == [])
  }

  function SyncOnce(cfg: Config, w: World, c: Conditions): World {
    var kind, reserve := ReadKind(cfg, c), ReadReserve(cfg, c);
    if c.fault.NoConnection? || c.fault.UpdateFailed? then w
    else if !Succeeds(w, c) then
      var updated := UpdateAuction(w.db, Persisted(kind, reserve, w.zset));
      w.(db := if c.fault.InsertAckLost? then Clean(kind, reserve, w) else updated)
    else World(Clean(kind, reserve, w), if c.fault.CleanupFailed? then w.zset else [])
  }

  /**
   * What each place of stopping leaves: status and winner are written unless the attempt stops
   * before, the rows unless it stops before them, and the set is emptied only at the very end.
   */
  lemma WhatOneAttemptLeaves(cfg: Config, w: World, c: Conditions)
    ensures var w' := SyncOnce(cfg, w, c);
      var noRows := RowsOf(w.zset) == [];
      var rowsWritten := c.fault.NoSyncFault? || c.fault.CleanupFailed? || c.fault.InsertAckLost?;
      && w'.db.completed == (if c.fault.NoConnection? || c.fault.UpdateFailed? then w.db.completed else true)
      && w'.db.bids == (if rowsWritten then InsertRows(w.db.bids, RowsOf(w.zset)) else w.db.bids)
      && w'.zset == (if c.fault.NoSyncFault? || (noRows && (c.fault.InsertFailed? || c.fault.InsertAckLost?))
                     then [] else w.zset)
  {
  }

  function SyncMany(cfg: Config, w: World, cs: seq<Conditions>): World {
    if cs == [] then w else SyncOnce(cfg, SyncMany(cfg, w, cs[..|cs| - 1]), cs[|cs| - 1])
  }

  ghost predicate SomeSucceeded(cfg: Config, w: World, cs: seq<Conditions>) {
    exists k :: 0 <= k < |cs| && Succeeds(SyncMany(cfg, w, cs[..k]), cs[k])
  }

  lemma {:induction false} InsertHasAll(table: map<nat, BidRow>, rows: seq<BidRow>)
    ensures forall id :: id in table ==> id in InsertRows(table, rows)
    ensures forall k :: 0 <= k < |rows| ==> rows[k].id in InsertRows(table, rows)
  {
    if rows != [] {
      InsertHasAll(table, rows[..|rows| - 1]);
      forall k | 0 <= k < |rows| ensures rows[k].id in InsertRows(table, rows) {
        if k < |rows| - 1 {
          assert rows[k] == rows[..|rows| - 1][k];
        }
      }
    }
  }

  lemma {:induction false} InsertAgainNothing(table: map<nat, BidRow>, rows: seq<BidRow>)
    requires forall k :: 0 <= k < |rows| ==> rows[k].id in table
    ensures InsertRows(table, rows) == table
  {
    if rows != [] {
      InsertAgainNothing(table, rows[..|rows| - 1]);
    }
  }

  /** The attempt saw the auction's own rules, or the rules it fell back to are equivalent. */
  predicate RulesKnown(cfg: Config, c: Conditions) {
    c.configRead || cfg.kind.Reverse?
  }

  /** Its UPDATE took effect. */
  predicate Touches(c: Conditions) {
    !c.fault.NoConnection? && !c.fault.UpdateFailed?
  }

  /** Some attempt got through to the clean-up and the clean-up worked, so the sorted set is gone. */
  predicate Emptied(w: World, cs: seq<Conditions>) {
    cs != [] && (Emptied(w, cs[..|cs| - 1]) || (Succeeds(w, cs[|cs| - 1]) && !cs[|cs| - 1].fault.CleanupFailed?))
  }

  /** The attempts whose UPDATE took effect while the sorted set was still there. */
  function Updates(w: World, cs: seq<Conditions>): seq<Conditions> {
    if cs == [] then []
    else
      var before, last := cs[..|cs| - 1], cs[|cs| - 1];
      Updates(w, before) + if Emptied(w, before) || !Touches(last) then [] else [last]
  }

  /** The winner column after these updates, each by the rules it read. */
  function WinnerAfter(cfg: Config, w: World, us: seq<Conditions>): Option<nat> {
    if us == [] then w.db.winner
    else
      var c := us[|us| - 1];
      var picked := Persisted(ReadKind(cfg, c), ReadReserve(cfg, c), w.zset);
      if picked.Some? then Some(picked.value.bidder) else WinnerAfter(cfg, w, us[..|us| - 1])
  }

  /** How far the bid rows and the sorted set can have got. */
  ghost predicate Progress(w0: World, w: World) {
    var rows := InsertRows(w0.db.bids, RowsOf(w0.zset));
    && (w.zset == w0.zset || w.zset == [])
    && ((w.db.bids == w0.db.bids && w.zset == w0.zset) || w.db.bids == rows)
  }

  lemma SyncOnceProgresses(cfg: Config, w0: World, w: World, c: Conditions)
    requires Progress(w0, w)
    ensures Progress(w0, SyncOnce(cfg, w, c))
    ensures Succeeds(w, c) || w.db.bids == InsertRows(w0.db.bids, RowsOf(w0.zset)) ==>
      SyncOnce(cfg, w, c).db.bids == InsertRows(w0.db.bids, RowsOf(w0.zset))
    ensures Succeeds(w, c) || w.db.completed ==> SyncOnce(cfg, w, c).db.completed
  {
    InsertHasAll(w0.db.bids, RowsOf(w0.zset));
    InsertAgainNothing(InsertRows(w0.db.bids, RowsOf(w0.zset)), RowsOf(w0.zset));
  }

  lemma {:induction false} SyncManyProgress(cfg: Config, w: World, cs: seq<Conditions>)
    ensures Progress(w, SyncMany(cfg, w, cs))
    ensures SomeSucceeded(cfg, w, cs) ==>
      var db := SyncMany(cfg, w, cs).db;
      db.completed && db.bids == InsertRows(w.db.bids, RowsOf(w.zset))
  {
    if cs != [] {
      var n := |cs| - 1;
      SyncManyProgress(cfg, w, cs[..n]);
      SyncOnceProgresses(cfg, w, SyncMany(cfg, w, cs[..n]), cs[n]);
      if SomeSucceeded(cfg, w, cs) {
        var k :| 0 <= k < |cs| && Succeeds(SyncMany(cfg, w, cs[..k]), cs[k]);
        if k < n {
          assert cs[..n][..k] == cs[..k] && cs[..n][k] == cs[k];
        }
      }
    }
  }

  /** One attempt over the set as it was, then over the set already gone. */
  lemma SyncOnceWinner(cfg: Config, w0: World, w: World, c: Conditions)
    requires w.zset == w0.zset || w.zset == []
    ensures w.zset == w0.zset ==>
      var picked, w' := Persisted(ReadKind(cfg, c), ReadReserve(cfg, c), w0.zset), SyncOnce(cfg, w, c);
      && w'.db.winner == (if Touches(c) && picked.Some? then Some(picked.value.bidder) else w.db.winner)
      && w'.zset == (if Succeeds(w0, c) && !c.fault.CleanupFailed? then [] else w0.zset)
    ensures w.zset == [] ==> SyncOnce(cfg, w, c).db.winner == w.db.winner && SyncOnce(cfg, w, c).zset == []
  {
  }

  lemma WinnerAfterOneMore(cfg: Config, w: World, us: seq<Conditions>, c: Conditions)
    ensures var picked := Persisted(ReadKind(cfg, c), ReadReserve(cfg, c), w.zset);
      WinnerAfter(cfg, w, us + [c]) == if picked.Some? then Some(picked.value.bidder) else WinnerAfter(cfg, w, us)
  {
    assert (us + [c])[..|us|] == us;
  }

  /** The winner column, told from the attempts alone. */
  lemma {:induction false} SyncManyWinner(cfg: Config, w: World, cs: seq<Conditions>)
    ensures SyncMany(cfg, w, cs).db.winner == WinnerAfter(cfg, w, Updates(w, cs))
    ensures SyncMany(cfg, w, cs).zset == if Emptied(w, cs) then [] else w.zset
  {
    if cs != [] {
      var n := |cs| - 1;
      SyncManyWinner(cfg, w, cs[..n]);
      SyncOnceWinner(cfg, w, SyncMany(cfg, w, cs[..n]), cs[n]);
      var us := Updates(w, cs[..n]);
      WinnerAfterOneMore(cfg, w, us, cs[n]);
      assert us + [] == us;
    }
  }

  /** An attempt got through, so some update was made while the set was still there. */
  lemma {:induction false} SuccessUpdates(cfg: Config, w: World, cs: seq<Conditions>, k: nat)
    requires k < |cs| && Succeeds(SyncMany(cfg, w, cs[..k]), cs[k])
    ensures Updates(w, cs) != []
  {
    var n := |cs| - 1;
    if k < n {
      assert cs[..n][..k] == cs[..k] && cs[..n][k] == cs[k];
      SuccessUpdates(cfg, w, cs[..n], k);
    } else if Emptied(w, cs[..n]) {
      EmptiedUpdates(w, cs[..n]);
    }
  }

  lemma {:induction false} EmptiedUpdates(w: World, cs: seq<Conditions>)
    requires Emptied(w, cs)
    ensures Updates(w, cs) != []
  {
    if Emptied(w, cs[..|cs| - 1]) {
      EmptiedUpdates(w, cs[..|cs| - 1]);
    }
  }

  /**
   * When the winner column ends up right, by what each update read. With a winner to write,
   * the last update must know the rules, or both rules pick the same bidder. With none,
   * no update may write one, because no later update takes it back.
   */
  ghost predicate WinnerIsRight(cfg: Config, w: World, us: seq<Conditions>) {
    var right, fallback := Persisted(cfg.kind, cfg.reserve, w.zset), Persisted(Reverse, None, w.zset);
    if right.Some? then
      || (fallback.Some? && fallback.value.bidder == right.value.bidder)
      || (us != [] && RulesKnown(cfg, us[|us| - 1]))
    else
      || fallback.None? || w.db.winner == Some(fallback.value.bidder)
      || forall c :: c in us ==> RulesKnown(cfg, c)
  }

  lemma {:induction false} WinnerWithoutRight(cfg: Config, w: World, us: seq<Conditions>)
    requires Persisted(cfg.kind, cfg.reserve, w.zset).None? && Persisted(Reverse, None, w.zset).Some?
    ensures WinnerAfter(cfg, w, us) ==
      if forall c :: c in us ==> RulesKnown(cfg, c) then w.db.winner
      else Some(Persisted(Reverse, None, w.zset).value.bidder)
  {
    if us != [] {
      var n := |us| - 1;
      WinnerWithoutRight(cfg, w, us[..n]);
      assert us == us[..n] + [us[n]];
      assert forall c :: c in us <==> c in us[..n] || c == us[n];
      assert RulesKnown(cfg, us[n]) <==> Persisted(ReadKind(cfg, us[n]), ReadReserve(cfg, us[n]), w.zset).None?;
    }
  }

  lemma {:induction false} WinnerWithoutAny(cfg: Config, w: World, us: seq<Conditions>)
    requires Persisted(cfg.kind, cfg.reserve, w.zset).None? && Persisted(Reverse, None, w.zset).None?
    ensures WinnerAfter(cfg, w, us) == w.db.winner
  {
    if us != [] {
      WinnerWithoutAny(cfg, w, us[..|us| - 1]);
    }
  }

  lemma WinnerIsRightIff(cfg: Config, w: World, us: seq<Conditions>)
    requires us != []
    ensures WinnerAfter(cfg, w, us) == UpdateAuction(w.db, Persisted(cfg.kind, cfg.reserve, w.zset)).winner <==>
      WinnerIsRight(cfg, w, us)
  {
    ScanFindsBest(cfg.kind, w.zset);
    ScanFindsBest(Reverse, w.zset);
    var right, fallback := Persisted(cfg.kind, cfg.reserve, w.zset), Persisted(Reverse, None, w.zset);
    if right.None? && fallback.None? {
      WinnerWithoutAny(cfg, w, us);
    } else if right.None? {
      WinnerWithoutRight(cfg, w, us);
    }
  }

  /**
   * Once one attempt gets through, whatever attempts came before or after it, status and
   * bids are as one undisturbed run would have left them, and so is the whole database if
   * and only if the updates made before the clean-up left the right winner. Attempts that
   * all knew the rules always do.
   */
  lemma FinalizationIsIdempotent(cfg: Config, w: World, cs: seq<Conditions>)
    requires SomeSucceeded(cfg, w, cs)
    ensures var db, clean := SyncMany(cfg, w, cs).db, Clean(cfg.kind, cfg.reserve, w);
      && db.completed && db.bids == clean.bids
      && (db == clean <==> WinnerIsRight(cfg, w, Updates(w, cs)))
      && ((forall k :: 0 <= k < |cs| ==> RulesKnown(cfg, cs[k])) ==> db == clean)
  {
    SyncManyProgress(cfg, w, cs);
    FinalWinnerIff(cfg, w, cs);
    SomeUpdate(cfg, w, cs);
    if forall k :: 0 <= k < |cs| ==> RulesKnown(cfg, cs[k]) {
      KnownRulesAreRight(cfg, w, cs);
    }
  }

  lemma FinalWinnerIff(cfg: Config, w: World, cs: seq<Conditions>)
    requires SomeSucceeded(cfg, w, cs)
    ensures SyncMany(cfg, w, cs).db.winner == Clean(cfg.kind, cfg.reserve, w).winner <==>
      WinnerIsRight(cfg, w, Updates(w, cs))
  {
    SomeUpdate(cfg, w, cs);
    SyncManyWinner(cfg, w, cs);
    WinnerIsRightIff(cfg, w, Updates(w, cs));
  }

  lemma SomeUpdate(cfg: Config, w: World, cs: seq<Conditions>)
    requires SomeSucceeded(cfg, w, cs)
    ensures Updates(w, cs) != []
  {
    var k :| 0 <= k < |cs| && Succeeds(SyncMany(cfg, w, cs[..k]), cs[k]);
    SuccessUpdates(cfg, w, cs, k);
  }

  lemma KnownRulesAreRight(cfg: Config, w: World, cs: seq<Conditions>)
    requires Updates(w, cs) != [] && forall k :: 0 <= k < |cs| ==> RulesKnown(cfg, cs[k])
    ensures WinnerIsRight(cfg, w, Updates(w, cs))
  {
    UpdatesAreAttempts(w, cs);
    var us := Updates(w, cs);
    assert us[|us| - 1] in us;
  }

  lemma {:induction false} UpdatesAreAttempts(w: World, cs: seq<Conditions>)
    ensures forall c :: c in Updates(w, cs) ==> c in cs
  {
    if cs != [] {
      UpdatesAreAttempts(w, cs[..|cs| - 1]);
    }
  }

  lemma {:induction false} InsertedRowsAre(table: map<nat, BidRow>, rows: seq<BidRow>, id: nat)
    requires id in InsertRows(table, rows)
    ensures id in table ==> InsertRows(table, rows)[id] == table[id]
    ensures id !in table ==> InsertRows(table, rows)[id] in rows && InsertRows(table, rows)[id].id == id
  {
    if rows != [] {
      var n := |rows| - 1;
      assert rows == rows[..n] + [rows[n]];
      InsertHasAll(table, rows[..n]);
      if id in InsertRows(table, rows[..n]) {
        InsertedRowsAre(table, rows[..n], id);
      }
    }
  }

  /**
   * What finalization stores, field by field. Rows there before stay; every new row is the row
   * of a stored bid, and every stored bid that can have a row has one under its id.
   */
  lemma FinalizedBids(cfg: Config, w: World, cs: seq<Conditions>, id: nat)
    requires SomeSucceeded(cfg, w, cs)
    ensures var bids := SyncMany(cfg, w, cs).db.bids;
      && (id in w.db.bids ==> id in bids && bids[id] == w.db.bids[id])
      && (id in bids && id !in w.db.bids ==> bids[id].id == id && exists d :: d in w.zset && IsRowOf(bids[id], d))
      && (forall d :: d in w.zset && d.executed && Readable(d.request.bid) && d.request.id == Uuid(id) ==> id in bids)
  {
    SyncManyProgress(cfg, w, cs);
    var rows := RowsOf(w.zset);
    var bids := InsertRows(w.db.bids, rows);
    InsertHasAll(w.db.bids, rows);
    RowsAreOfBids(w.zset);
    if id in bids {
      InsertedRowsAre(w.db.bids, rows, id);
    }
    forall d | d in w.zset && d.executed && Readable(d.request.bid) && d.request.id == Uuid(id) ensures id in bids {
      var row :| row in rows && IsRowOf(row, d);
      var k :| 0 <= k < |rows| && rows[k] == row;
      assert rows[k].id in bids;
    }
  }

  /**
   * How it fails: a forward auction whose one bid misses the reserve. The first attempt cannot
   * read the configuration and dies at the insert; the second reads it and succeeds, and the
   * bidder stays in the winner column.
   */
  lemma StaleWinnerSurvives(a: AuctionId, reserve: real, amount: real, bidder: nat)
    requires 0.0 < amount < reserve
    ensures var cfg := Config(Forward, 0.0, 1.0, Some(reserve));
      var d := Decide(Forward, Request(Uuid(0), Bid(a, Uuid(bidder), amount, InRange(0))), true, 0.0, 0, 0);
      var w := World(Db(false, None, map[]), [d]);
      var cs := [Conditions(false, InsertFailed), Conditions(true, NoSyncFault)];
      && Succeeds(SyncMany(cfg, w, cs[..1]), cs[1])
      && SyncMany(cfg, w, cs).db.winner == Some(bidder) && Clean(cfg.kind, cfg.reserve, w).winner == None
  {
    var cfg := Config(Forward, 0.0, 1.0, Some(reserve));
    var d := Decide(Forward, Request(Uuid(0), Bid(a, Uuid(bidder), amount, InRange(0))), true, 0.0, 0, 0);
    var w := World(Db(false, None, map[]), [d]);
    var cs := [Conditions(false, InsertFailed), Conditions(true, NoSyncFault)];
    assert [d][..0] == [] && cs[..1][..0] == [];
    assert Scan(Reverse, [d]) == Scan(Forward, [d]) == Some(Winner(bidder, amount));
    assert |RowsOf([d])| == 1;
    assert SyncMany(cfg, w, cs[..1]) == w.(db := UpdateAuction(w.db, Some(Winner(bidder, amount))));
  }

  /** A set from which a forward auction's rules and the fallback rules pick different bidders. */
  lemma FallbackPicksAnother(reserve: Option<real>) returns (z: seq<Decision>)
    ensures var right, fallback := Persisted(Forward, reserve, z), Persisted(Reverse, None, z);
      right.Some? && fallback.Some? && right.value.bidder != fallback.value.bidder
  {
    var amount := if reserve.Some? && reserve.value > 0.0 then reserve.value else 1.0;
    var d := Decide(Forward, Request(Uuid(0), Bid(0, Uuid(0), amount, InRange(0))), true, 0.0, 0, 0);
    var e := Decide(Forward, Request(Uuid(1), Bid(0, Uuid(1), amount + 1.0, InRange(1))), true, amount, 1, 1);
    z := [d, e];
    assert z[..1] == [d] && [d][..0] == [];
    assert Scan(Reverse, [d]) == Scan(Forward, [d]) == Some(Winner(0, amount));
  }

  /** The fallback rules pick the auction's own winner for every sorted set exactly when it is a reverse auction. */
  lemma FallbackRulesAgreeIffReverse(kind: AuctionType, reserve: Option<real>)
    ensures (forall z :: Persisted(Reverse, None, z) == Persisted(kind, reserve, z)) <==> kind.Reverse?
  {
    if kind.Forward? {
      var z := FallbackPicksAnother(reserve);
      assert Persisted(Reverse, None, z) != Persisted(kind, reserve, z);
    }
  }

  /** One attempt that gets through leaves the clean result whatever was stored exactly when it knew the rules. */
  lemma CleanForEverySetIffRulesKnown(cfg: Config, c: Conditions)
    requires c.fault.NoSyncFault? || c.fault.CleanupFailed?
    ensures (forall w :: SyncOnce(cfg, w, c).db == Clean(cfg.kind, cfg.reserve, w)) <==> RulesKnown(cfg, c)
  {
    if RulesKnown(cfg, c) {
      forall w ensures SyncOnce(cfg, w, c).db == Clean(cfg.kind, cfg.reserve, w) {
        assert Persisted(ReadKind(cfg, c), ReadReserve(cfg, c), w.zset) == Persisted(cfg.kind, cfg.reserve, w.zset);
      }
    } else {
      var z := FallbackPicksAnother(cfg.reserve);
      var w := World(Db(false, None, map[]), z);
      assert SyncOnce(cfg, w, c).db.winner != Clean(cfg.kind, cfg.reserve, w).winner;
    }
  }

  class SyncWorker {
    var completed: bool
    var winner: Option<nat>
    var bids: map<nat, BidRow>
    var zset: seq<Decision>

    function View(): World
      reads this
    {
      World(Db(completed, winner, bids), zset)
    }

    constructor (w: World)
      ensures View() == w
    {
      completed, winner, bids, zset := w.db.completed, w.db.winner, w.db.bids, w.zset;
    }

    /** The loop over the stored bids. */
    method ScanBids(kind: AuctionType, stored: seq<Decision>) returns (best: Option<Winner>, rows: seq<BidRow>)
      ensures best == Scan(kind, stored) && rows == RowsOf(stored)
    {
      best, rows := None, [];
      var i := 0;
      while i < |stored|
        invariant 0 <= i <= |stored| && best == Scan(kind, stored[..i]) && rows == RowsOf(stored[..i])
      {
        var d := stored[i];
        assert stored[..i + 1][..i] == stored[..i];
        if d.executed && d.request.bid.bidder.Uuid? && d.request.bid.timestamp.InRange? {
          if best.None? || Beats(kind, d.request.bid.amount, best.value.amount) {
            best := Some(Winner(d.request.bid.bidder.value, d.request.bid.amount));
          }
          if d.request.id.Uuid? {
            rows := rows + [BidRow(d.request.id.value, d.request.bid.amount, d.request.bid.timestamp.ms,
                                   d.request.bid.bidder.value, d.request.bid.auction)];
          }
        }
        i := i + 1;
      }
      assert stored[..|stored|] == stored;
    }

    method InsertOnConflictDoNothing(rows: seq<BidRow>)
      modifies this`bids
      ensures bids == InsertRows(old(bids), rows)
    {
      var i := 0;
      while i < |rows|
        invariant 0 <= i <= |rows| && bids == InsertRows(old(bids), rows[..i])
      {
        assert rows[..i + 1][..i] == rows[..i];
        if rows[i].id !in bids {
          bids := bids[rows[i].id := rows[i]];
        }
        i := i + 1;
      }
      assert rows[..|rows|] == rows;
    }

    method TryOnce(cfg: Config, c: Conditions) returns (ok: bool)
      modifies this
      ensures View() == SyncOnce(cfg, old(View()), c) && ok == Succeeds(old(View()), c)
    {
      if c.fault.NoConnection? {
        return false;
      }
      var kind := if c.configRead then cfg.kind else Reverse;
      var reserve := if c.configRead then cfg.reserve else None;
      var best, rows := ScanBids(kind, zset);
      if best.Some? && kind.Forward? && reserve.Some? && best.value.amount < reserve.value {
        best := None;
      }
      if c.fault.UpdateFailed? {
        return false;
      }
      completed := true;
      if best.Some? {
        winner := Some(best.value.bidder);
      }
      if c.fault.UpdateAckLost? {
        return false;
      }
      if rows != [] {
        if c.fault.InsertFailed? {
          return false;
        }
        InsertOnConflictDoNothing(rows);
        if c.fault.InsertAckLost? {
          return false;
        }
      }
      if !c.fault.CleanupFailed? {
        zset := [];
      }
      return true;
    }

    /** At most three attempts; only the third may end in failure. */
    method SyncRecord(cfg: Config, conditions: seq<Conditions>) returns (success: bool, attempts: nat)
      requires |conditions| >= 3
      modifies this
      ensures 1 <= attempts <= 3 && View() == SyncMany(cfg, old(View()), conditions[..attempts])
      ensures success <==> SomeSucceeded(cfg, old(View()), conditions[..attempts])
      ensures !success ==> attempts == 3
    {
      attempts, success := 0, false;
      while !success && attempts < 3
        invariant 0 <= attempts <= 3 && View() == SyncMany(cfg, old(View()), conditions[..attempts])
        invariant success ==> attempts > 0
        invariant success ==> Succeeds(SyncMany(cfg, old(View()), conditions[..attempts - 1]), conditions[attempts - 1])
        invariant !success ==> forall k :: 0 <= k < attempts ==>
          !Succeeds(SyncMany(cfg, old(View()), conditions[..k]), conditions[k])
        decreases 3 - attempts, !success
      {
        assert conditions[..attempts + 1][..attempts] == conditions[..attempts];
        success := TryOnce(cfg, conditions[attempts]);
        attempts := attempts + 1;
      }
      forall k | 0 <= k < attempts
        ensures conditions[..attempts][..k] == conditions[..k] && conditions[..attempts][k] == conditions[k] {}
    }
  }
}
