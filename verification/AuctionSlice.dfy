/**
 * The client's auction state (apps/web/store/slices/auctionSlice.ts): a price kept up to
 * date bid by bid, against the price recomputed from the bids.
 */
module AuctionSlice {
  import opened Wrappers
  import opened Bidding

  datatype Status = Pending | Confirmed | Rejected

  datatype ClientBid = ClientBid(id: string, amount: real, bidder: string, timestamp: int, status: Status)

  /** What the server says about a bid; an empty id counts as none, as in the code. */
  datatype Report = Report(id: Option<string>, status: Status, amount: real, bidder: string, timestamp: int)

  datatype State = State(
    kind: AuctionType,
    startingPrice: Option<real>,
    bids: seq<ClientBid>,
    currentPrice: Option<real>)

  // ---------- the price recomputed from the bids ----------

  predicate Counts(b: ClientBid) { !b.status.Rejected? }

  ghost predicate AnyCounts(bids: seq<ClientBid>) {
    exists b :: b in bids && (b.status.Pending? || b.status.Confirmed?)
  }

  /** The best amount among the bids not rejected, or the starting price when there is none. */
  ghost predicate IsPriceOf(kind: AuctionType, startingPrice: Option<real>, bids: seq<ClientBid>, price: Option<real>) {
    if AnyCounts(bids) then
      && price.Some?
      && (exists b :: b in bids && !b.status.Rejected? && b.amount == price.value)
      && (forall b :: b in bids && !b.status.Rejected? ==>
            match kind case Reverse => price.value <= b.amount case Forward => price.value >= b.amount)
    else price == startingPrice
  }

  ghost predicate PriceIsRight(s: State) {
    IsPriceOf(s.kind, s.startingPrice, s.bids, s.currentPrice)
  }

  // ---------- the reducers ----------

  function InitAuction(kind: AuctionType, initialPrice: Option<real>): State {
    State(kind, initialPrice, [], initialPrice)
  }

  predicate ImprovesOn(s: State, amount: real) {
    s.currentPrice.None? || Beats(s.kind, amount, s.currentPrice.value)
  }

  function AddOptimisticBid(s: State, b: ClientBid): State {
    s.(bids := [b] + s.bids, currentPrice := if ImprovesOn(s, b.amount) then Some(b.amount) else s.currentPrice)
  }

  function FindById(bids: seq<ClientBid>, id: string): Option<nat> {
    if bids == [] then None
    else if bids[0].id == id then Some(0)
    else match FindById(bids[1..], id) case None => None case Some(k) => Some(k + 1)
  }

  function FindPending(bids: seq<ClientBid>, amount: real): Option<nat> {
    if bids == [] then None
    else if bids[0].status.Pending? && bids[0].amount == amount then Some(0)
    else match FindPending(bids[1..], amount) case None => None case Some(k) => Some(k + 1)
  }

  function HasId(r: Report): bool { r.id.Some? && r.id.value != "" }

  function Match(bids: seq<ClientBid>, r: Report): Option<nat> {
    var byId := if HasId(r) then FindById(bids, r.id.value) else None;
    if byId.Some? then byId else FindPending(bids, r.amount)
  }

  function Merged(r: Report, id: string): ClientBid {
    ClientBid(id, r.amount, r.bidder, r.timestamp, r.status)
  }

  /** The report replaces the bid it matches, under that bid's id, or joins at the front. */
  function Merge(bids: seq<ClientBid>, r: Report, freshId: string): seq<ClientBid> {
    match Match(bids, r)
    case Some(k) => if k < |bids| then bids[k := Merged(r, bids[k].id)] else bids
    case None => [Merged(r, if HasId(r) then r.id.value else freshId)] + bids
  }

  /** Stable, newest first. */
  function Place(b: ClientBid, sorted: seq<ClientBid>): seq<ClientBid> {
    if sorted == [] || b.timestamp >= sorted[0].timestamp then [b] + sorted
    else [sorted[0]] + Place(b, sorted[1..])
  }

  function NewestFirst(bids: seq<ClientBid>): seq<ClientBid> {
    if bids == [] then [] else Place(bids[0], NewestFirst(bids[1..]))
  }

  ghost predicate Newest(bids: seq<ClientBid>) {
    forall i, j :: 0 <= i < j < |bids| ==> bids[i].timestamp >= bids[j].timestamp
  }

  lemma {:induction false} PlaceAddsOne(b: ClientBid, sorted: seq<ClientBid>)
    ensures multiset(Place(b, sorted)) == multiset(sorted) + multiset{b}
  {
    if sorted != [] && b.timestamp < sorted[0].timestamp {
      PlaceAddsOne(b, sorted[1..]);
      assert sorted == [sorted[0]] + sorted[1..];
    }
  }

  lemma NewestFront(front: ClientBid, rest: seq<ClientBid>)
    requires Newest(rest) && (rest != [] ==> front.timestamp >= rest[0].timestamp)
    ensures Newest([front] + rest)
  {
  }

  lemma {:induction false} PlaceSorts(b: ClientBid, sorted: seq<ClientBid>)
    requires Newest(sorted)
    ensures Newest(Place(b, sorted))
    ensures Place(b, sorted) != []
    ensures Place(b, sorted)[0] == b || (sorted != [] && Place(b, sorted)[0] == sorted[0])
  {
    if sorted != [] && b.timestamp < sorted[0].timestamp {
      PlaceSorts(b, sorted[1..]);
      NewestFront(sorted[0], Place(b, sorted[1..]));
    } else {
      NewestFront(b, sorted);
    }
  }

  /** The bids of one moment, in the order they stand. */
  function At(bids: seq<ClientBid>, t: int): seq<ClientBid> {
    if bids == [] then []
    else (if bids[0].timestamp == t then [bids[0]] else []) + At(bids[1..], t)
  }

  lemma AtFront(b: ClientBid, rest: seq<ClientBid>, t: int)
    ensures At([b] + rest, t) == (if b.timestamp == t then [b] else []) + At(rest, t)
  {
    assert ([b] + rest)[1..] == rest;
  }

  lemma {:induction false} PlaceKeepsAt(b: ClientBid, sorted: seq<ClientBid>, t: int)
    ensures At(Place(b, sorted), t) == (if b.timestamp == t then [b] else []) + At(sorted, t)
  {
    if sorted == [] || b.timestamp >= sorted[0].timestamp {
      AtFront(b, sorted, t);
    } else {
      PlaceKeepsAt(b, sorted[1..], t);
      AtFront(sorted[0], Place(b, sorted[1..]), t);
    }
  }

  /** Sorting is stable: bids of one moment keep their order. */
  lemma {:induction false} SortingIsStable(bids: seq<ClientBid>, t: int)
    ensures At(NewestFirst(bids), t) == At(bids, t)
  {
    if bids != [] {
      SortingIsStable(bids[1..], t);
      PlaceKeepsAt(bids[0], NewestFirst(bids[1..]), t);
    }
  }

  /** An optimistic bid is shown in front of all others, and moves the price only if it beats it. */
  lemma OptimisticIsShownFirst(s: State, b: ClientBid)
    ensures var after := AddOptimisticBid(s, b);
      && |after.bids| == |s.bids| + 1 && after.bids[0] == b && after.bids[1..] == s.bids
      && (after.currentPrice == Some(b.amount) || after.currentPrice == s.currentPrice)
      && (s.currentPrice.Some? ==>
            var p := s.currentPrice.value;
            after.currentPrice.value == if s.kind.Reverse? then (if b.amount < p then b.amount else p)
                                        else (if b.amount > p then b.amount else p))
  {
  }

  lemma {:induction false} SortingKeepsBids(bids: seq<ClientBid>)
    ensures Newest(NewestFirst(bids)) && multiset(NewestFirst(bids)) == multiset(bids)
  {
    if bids != [] {
      SortingKeepsBids(bids[1..]);
      PlaceSorts(bids[0], NewestFirst(bids[1..]));
      PlaceAddsOne(bids[0], NewestFirst(bids[1..]));
      assert bids == [bids[0]] + bids[1..];
    }
  }

  /** `Math.min` or `Math.max` over the bids not rejected. */
  function BestAmount(kind: AuctionType, bids: seq<ClientBid>): Option<real> {
    if bids == [] then None
    else
      var rest, b := BestAmount(kind, bids[..|bids| - 1]), bids[|bids| - 1];
      if Counts(b) && (rest.None? || Beats(kind, b.amount, rest.value)) then Some(b.amount) else rest
  }

  function ReconcileBid(s: State, r: Report, freshId: string): State {
    var bids := NewestFirst(Merge(s.bids, r, freshId));
    var best := BestAmount(s.kind, bids);
    s.(bids := bids, currentPrice := if best.Some? then best else s.startingPrice)
  }

  lemma {:induction false} BestAmountIsBest(kind: AuctionType, bids: seq<ClientBid>)
    ensures BestAmount(kind, bids).Some? <==> AnyCounts(bids)
    ensures BestAmount(kind, bids).Some? ==>
      && (exists b :: b in bids && Counts(b) && b.amount == BestAmount(kind, bids).value)
      && (forall b :: b in bids && Counts(b) ==> AtLeastAsStrict(kind, BestAmount(kind, bids).value, b.amount))
  {
    if bids != [] {
      var n := |bids| - 1;
      BestAmountIsBest(kind, bids[..n]);
      assert bids == bids[..n] + [bids[n]];
      assert bids[n] in bids;
      if AnyCounts(bids[..n]) {
        var b :| b in bids[..n] && Counts(b) && b.amount == BestAmount(kind, bids[..n]).value;
        assert b in bids;
      }
    }
  }

  /** A reconciliation leaves the right price whatever it found. */
  lemma ReconcileSetsPriceRight(s: State, r: Report, freshId: string)
    ensures PriceIsRight(ReconcileBid(s, r, freshId))
  {
    BestAmountIsBest(s.kind, NewestFirst(Merge(s.bids, r, freshId)));
  }

  lemma {:induction false} FindByIdFinds(bids: seq<ClientBid>, id: string)
    ensures var k := FindById(bids, id);
      && (k.Some? ==> k.value < |bids| && bids[k.value].id == id && forall j :: 0 <= j < k.value ==> bids[j].id != id)
      && (k.None? ==> forall j :: 0 <= j < |bids| ==> bids[j].id != id)
  {
    if bids != [] {
      FindByIdFinds(bids[1..], id);
    }
  }

  lemma {:induction false} FindPendingFinds(bids: seq<ClientBid>, amount: real)
    ensures var k := FindPending(bids, amount);
      && (k.Some? ==> k.value < |bids| && bids[k.value].status.Pending? && bids[k.value].amount == amount)
      && (k.None? ==> forall j :: 0 <= j < |bids| ==> !(bids[j].status.Pending? && bids[j].amount == amount))
  {
    if bids != [] {
      FindPendingFinds(bids[1..], amount);
    }
  }

  /**
   * Which bid a report is about: the first with its id if it has a non-empty one that occurs,
   * else the first pending one of its amount, else none.
   */
  lemma MatchFinds(bids: seq<ClientBid>, r: Report)
    ensures var k, named := Match(bids, r), r.id.Some? && |r.id.value| > 0;
      && (k.Some? ==> k.value < |bids|)
      && ((exists b :: b in bids && named && b.id == r.id.value) ==>
            k.Some? && bids[k.value].id == r.id.value && forall j :: 0 <= j < k.value ==> bids[j].id != r.id.value)
      && (!(exists b :: b in bids && named && b.id == r.id.value) ==>
            && (k.Some? ==> bids[k.value].status.Pending? && bids[k.value].amount == r.amount)
            && (k.Some? ==> forall j :: 0 <= j < k.value ==> !(bids[j].status.Pending? && bids[j].amount == r.amount))
            && (k.None? ==> forall b :: b in bids ==> !(b.status.Pending? && b.amount == r.amount)))
  {
    if HasId(r) {
      FindByIdFinds(bids, r.id.value);
      var k := FindById(bids, r.id.value);
      if k.Some? {
        assert bids[k.value] in bids;
      }
    }
    FindPendingFinds(bids, r.amount);
    FindPendingFirst(bids, r.amount);
  }

  /** The list after a report holds the bid it reports, as reported; a matched bid keeps its id. */
  lemma ReportIsShown(s: State, r: Report, freshId: string)
    ensures var k, after := Match(s.bids, r), ReconcileBid(s, r, freshId).bids;
      exists b :: b in after && b.status == r.status && b.amount == r.amount && b.bidder == r.bidder &&
        b.timestamp == r.timestamp &&
        (if k.Some? then k.value < |s.bids| && b.id == s.bids[k.value].id
         else if r.id.Some? && |r.id.value| > 0 then b.id == r.id.value else b.id == freshId)
  {
    MatchFinds(s.bids, r);
    var merged := Merge(s.bids, r, freshId);
    var k := Match(s.bids, r);
    SortingKeepsBids(merged);
    var i := if k.Some? then k.value else 0;
    assert merged[i] in multiset(merged);
    assert merged[i] in ReconcileBid(s, r, freshId).bids;
  }

  function AllBut(bids: seq<ClientBid>, i: nat): seq<ClientBid>
    requires i < |bids|
  {
    bids[..i] + bids[i + 1..]
  }

  lemma SwappedMembers(bids: seq<ClientBid>, i: nat, after: seq<ClientBid>, new_: ClientBid)
    requires i < |bids| && multiset(after) == multiset(bids) - multiset{bids[i]} + multiset{new_}
    ensures forall b :: b in after <==> b in AllBut(bids, i) || b == new_
  {
    var others := AllBut(bids, i);
    assert bids == bids[..i] + [bids[i]] + bids[i + 1..];
    assert multiset(after) == multiset(others) + multiset{new_};
    forall b ensures b in after <==> b in others || b == new_ {
      assert b in after <==> b in multiset(after);
      assert b in others <==> b in multiset(others);
    }
  }

  lemma RejectedDoesNotCount(kind: AuctionType, start: Option<real>, others: seq<ClientBid>, after: seq<ClientBid>,
                             gone: ClientBid, price: Option<real>)
    requires gone.status.Rejected? && forall b :: b in after <==> b in others || b == gone
    requires IsPriceOf(kind, start, after, price)
    ensures IsPriceOf(kind, start, others, price)
  {
  }

  /**
   * A bid reported rejected no longer counts: the price is then the best of the other bids not
   * rejected, or the starting price when it was the last of them.
   */
  lemma RejectedReportWithdraws(s: State, r: Report, freshId: string)
    requires r.status.Rejected? && Match(s.bids, r).Some?
    ensures var i, after := Match(s.bids, r).value, ReconcileBid(s, r, freshId);
      i < |s.bids| && IsPriceOf(s.kind, s.startingPrice, AllBut(s.bids, i), after.currentPrice)
  {
    MatchFinds(s.bids, r);
    ReconcileTouchesOneBid(s, r, freshId);
    ReconcileSetsPriceRight(s, r, freshId);
    var i, after := Match(s.bids, r).value, ReconcileBid(s, r, freshId);
    SwappedMembers(s.bids, i, after.bids, Merged(r, s.bids[i].id));
    var gone := Merged(r, s.bids[i].id);
    RejectedDoesNotCount(s.kind, s.startingPrice, AllBut(s.bids, i), after.bids, gone, after.currentPrice);
  }

  /** Reconciling touches one bid: it swaps the matched one for the report, or adds the report. */
  lemma ReconcileTouchesOneBid(s: State, r: Report, freshId: string)
    ensures var k, after := Match(s.bids, r), ReconcileBid(s, r, freshId).bids;
      match k
      case Some(i) => i < |s.bids| &&
        multiset(after) == multiset(s.bids) - multiset{s.bids[i]} + multiset{Merged(r, s.bids[i].id)}
      case None => |after| == |s.bids| + 1 && forall b :: b in s.bids ==> b in after
  {
    if HasId(r) {
      FindByIdFinds(s.bids, r.id.value);
    }
    FindPendingFinds(s.bids, r.amount);
    var merged := Merge(s.bids, r, freshId);
    SortingKeepsBids(merged);
    assert |NewestFirst(merged)| == |multiset(NewestFirst(merged))| == |merged|;
    if Match(s.bids, r).None? {
      forall b | b in s.bids ensures b in NewestFirst(merged) {
        assert b in multiset(merged);
      }
    }
  }

  /** Some bid already counts, or the new amount is no worse than the starting price, if one is known. */
  ghost predicate SensibleNow(s: State, b: ClientBid) {
    AnyCounts(s.bids) || s.startingPrice.None? || AtLeastAsStrict(s.kind, b.amount, s.startingPrice.value)
  }

  /**
   * An optimistic bid keeps a right price right if and only if one of these holds: some bid
   * already counts, no starting price is known, or the amount is at least as good as it.
   */
  lemma OptimisticKeepsPriceIff(s: State, b: ClientBid)
    requires PriceIsRight(s) && Counts(b)
    ensures PriceIsRight(AddOptimisticBid(s, b)) <==> SensibleNow(s, b)
  {
  }

  // ---------- runs ----------

  datatype Action = Optimistic(bid: ClientBid) | Reconcile(report: Report, freshId: string)

  function Reduce(s: State, a: Action): State {
    match a
    case Optimistic(b) => AddOptimisticBid(s, b)
    case Reconcile(r, freshId) => ReconcileBid(s, r, freshId)
  }

  function Run(s: State, actions: seq<Action>): State {
    if actions == [] then s else Reduce(Run(s, actions[..|actions| - 1]), actions[|actions| - 1])
  }

  /** Every optimistic bid is pending and sensible when it is made. */
  ghost predicate Sensible(s: State, actions: seq<Action>) {
    forall k :: 0 <= k < |actions| && actions[k].Optimistic? ==>
      actions[k].bid.status.Pending? && SensibleNow(Run(s, actions[..k]), actions[k].bid)
  }

  /** From a fresh auction the price shown is always the price recomputed from the bids. */
  lemma {:induction false} IncrementalIsRecomputed(kind: AuctionType, initialPrice: Option<real>, actions: seq<Action>)
    requires Sensible(InitAuction(kind, initialPrice), actions)
    ensures PriceIsRight(Run(InitAuction(kind, initialPrice), actions))
  {
    var s := InitAuction(kind, initialPrice);
    if actions != [] {
      var n := |actions| - 1;
      forall k | 0 <= k < n ensures actions[..n][..k] == actions[..k] && actions[..n][k] == actions[k] {}
      IncrementalIsRecomputed(kind, initialPrice, actions[..n]);
      match actions[n] {
        case Optimistic(b) => OptimisticKeepsPriceIff(Run(s, actions[..n]), b);
        case Reconcile(r, freshId) => ReconcileSetsPriceRight(Run(s, actions[..n]), r, freshId);
      }
    }
  }

  ghost predicate RightThroughout(s: State, actions: seq<Action>) {
    forall k :: 0 <= k <= |actions| ==> PriceIsRight(Run(s, actions[..k]))
  }

  /**
   * The exact condition: the price shown is right at every moment of a run of pending
   * optimistic bids and reports if and only if every optimistic bid was sensible.
   */
  lemma RightThroughoutIffSensible(kind: AuctionType, initialPrice: Option<real>, actions: seq<Action>)
    requires forall k :: 0 <= k < |actions| && actions[k].Optimistic? ==> actions[k].bid.status.Pending?
    ensures var s := InitAuction(kind, initialPrice); RightThroughout(s, actions) <==> Sensible(s, actions)
  {
    var s := InitAuction(kind, initialPrice);
    if Sensible(s, actions) {
      forall k | 0 <= k <= |actions| ensures PriceIsRight(Run(s, actions[..k])) {
        forall j | 0 <= j < k ensures actions[..k][..j] == actions[..j] && actions[..k][j] == actions[j] {}
        IncrementalIsRecomputed(kind, initialPrice, actions[..k]);
      }
    }
    if RightThroughout(s, actions) {
      forall k | 0 <= k < |actions| && actions[k].Optimistic?
        ensures SensibleNow(Run(s, actions[..k]), actions[k].bid)
      {
        assert PriceIsRight(Run(s, actions[..k])) && PriceIsRight(Run(s, actions[..k + 1]));
        assert actions[..k + 1][..k] == actions[..k];
        OptimisticKeepsPriceIff(Run(s, actions[..k]), actions[k].bid);
      }
    }
  }

  class Slice {
    var kind: AuctionType
    var startingPrice: Option<real>
    var bids: seq<ClientBid>
    var currentPrice: Option<real>

    function View(): State
      reads this
    {
      State(kind, startingPrice, bids, currentPrice)
    }

    constructor (auctionType: AuctionType, initialPrice: Option<real>)
      ensures View() == InitAuction(auctionType, initialPrice)
    {
      kind, startingPrice, bids, currentPrice := auctionType, initialPrice, [], initialPrice;
    }

    method AddOptimistic(b: ClientBid)
      modifies this`bids, this`currentPrice
      ensures View() == AddOptimisticBid(old(View()), b)
    {
      bids := [b] + bids;
      var improvesPrice := currentPrice.None?
        || (match kind case Reverse => b.amount < currentPrice.value case Forward => b.amount > currentPrice.value);
      if improvesPrice {
        currentPrice := Some(b.amount);
      }
    }

    method IndexOf(r: Report) returns (index: int)
      ensures index == match Match(bids, r) case Some(k) => k case None => -1
      ensures -1 <= index < |bids|
    {
      index := -1;
      if HasId(r) {
        FindByIdFinds(bids, r.id.value);
        var i := 0;
        while i < |bids| && index == -1
          invariant 0 <= i <= |bids| && -1 <= index < |bids|
          invariant index == -1 ==> forall j :: 0 <= j < i ==> bids[j].id != r.id.value
          invariant index >= 0 ==>
            bids[index].id == r.id.value && forall j :: 0 <= j < index ==> bids[j].id != r.id.value
        {
          if bids[i].id == r.id.value {
            index := i;
          }
          i := i + 1;
        }
      }
      if index == -1 {
        FindPendingIs(bids, r.amount);
        var i := 0;
        while i < |bids| && index == -1
          invariant 0 <= i <= |bids| && -1 <= index < |bids|
          invariant index == -1 ==> FirstPendingFrom(bids, r.amount, i)
          invariant index >= 0 ==> FindPending(bids, r.amount) == Some(index)
        {
          if bids[i].status.Pending? && bids[i].amount == r.amount {
            index := i;
          }
          i := i + 1;
        }
      }
    }

    method Reconcile(r: Report, freshId: string)
      modifies this`bids, this`currentPrice
      ensures View() == ReconcileBid(old(View()), r, freshId)
    {
      var bidIndex := IndexOf(r);
      if bidIndex >= 0 {
        bids := bids[bidIndex := Merged(r, bids[bidIndex].id)];
      } else {
        bids := [Merged(r, if HasId(r) then r.id.value else freshId)] + bids;
      }
      SortByTimestamp();
      var best := Recompute();
      currentPrice := if best.Some? then best else startingPrice;
    }

    /** Insertion from the oldest entry of the list to the newest. */
    method SortByTimestamp()
      modifies this`bids
      ensures bids == NewestFirst(old(bids))
    {
      var sorted: seq<ClientBid> := [];
      var i := |bids|;
      while i > 0
        invariant 0 <= i <= |bids| && bids == old(bids) && sorted == NewestFirst(bids[i..])
      {
        i := i - 1;
        assert bids[i..][1..] == bids[i + 1..];
        sorted := Place(bids[i], sorted);
      }
      assert bids[0..] == bids;
      bids := sorted;
    }

    method Recompute() returns (best: Option<real>)
      ensures best == BestAmount(kind, bids)
    {
      best := None;
      for i := 0 to |bids|
        invariant best == BestAmount(kind, bids[..i])
      {
        assert bids[..i + 1][..i] == bids[..i];
        if Counts(bids[i]) && (best.None? || Beats(kind, bids[i].amount, best.value)) {
          best := Some(bids[i].amount);
        }
      }
      assert bids[..|bids|] == bids;
    }
  }

  /** No pending bid of this amount before place `i`. */
  ghost predicate FirstPendingFrom(bids: seq<ClientBid>, amount: real, i: nat) {
    forall j :: 0 <= j < i && j < |bids| ==> !(bids[j].status.Pending? && bids[j].amount == amount)
  }

  lemma {:induction false} FindPendingIs(bids: seq<ClientBid>, amount: real)
    ensures forall i :: 0 <= i < |bids| && FirstPendingFrom(bids, amount, i) ==>
      bids[i].status.Pending? && bids[i].amount == amount ==> FindPending(bids, amount) == Some(i)
    ensures FirstPendingFrom(bids, amount, |bids|) ==> FindPending(bids, amount) == None
  {
    FindPendingFinds(bids, amount);
    FindPendingFirst(bids, amount);
  }

  lemma {:induction false} FindPendingFirst(bids: seq<ClientBid>, amount: real)
    ensures FindPending(bids, amount).Some? ==> FirstPendingFrom(bids, amount, FindPending(bids, amount).value)
  {
    if bids != [] && !(bids[0].status.Pending? && bids[0].amount == amount) {
      FindPendingFirst(bids[1..], amount);
      var k := FindPending(bids[1..], amount);
      if k.Some? {
        forall j | 0 <= j < k.value + 1 && j < |bids| ensures !(bids[j].status.Pending? && bids[j].amount == amount) {
          if j > 0 {
            assert bids[1..][j - 1] == bids[j];
          }
        }
      }
    }
  }
}
