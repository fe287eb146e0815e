/**
 * The actor that decides one auction's bids: restoring its runtime
 * (apps/auction-engine/src/actor/runtime.rs) and its task loop
 * (apps/auction-engine/src/actor/loop_.rs).
 */
module Actor {
  import opened Wrappers
  import opened Bidding
  import opened Ledger

  // ---------- load_runtime ----------

  /** A member that may be missing, or there with another type than a string. */
  datatype TypeField = NoType | OddType | TypeText(text: string)

  /** The fields of a stored JSON record that the actor looks up; None is "absent or wrong type". */
  datatype Fields = Fields(
    startingPrice: Option<real>,
    endTime: Option<int>,
    auctionType: TypeField,
    step: Option<real>,
    reserve: Option<real>)

  datatype StateDocument = StateDocument(auction: Option<Fields>, shipment: Option<Fields>, config: Option<Fields>)

  /** What is stored under a key. */
  datatype KeyContent = NotStored | Unparsable | Readable(document: StateDocument)

  /** The per-auction key hides the shared hash behind it, even when its text does not parse. */
  function DocumentOf(fromKey: KeyContent, fromHash: KeyContent): Option<StateDocument> {
    var stored := if fromKey.NotStored? then fromHash else fromKey;
    if stored.Readable? then Some(stored.document) else None
  }

  datatype Runtime = Runtime(kind: AuctionType, currentPrice: real, step: real, reserve: Option<real>, endMs: int)

  /** f64::MAX */
  const MAX_PRICE: real := 179769313486231570814527423731704356798070567525844996598917476803157260780028538760589558632766878171540458953514382464234321326889464182768467546703537516986049910576551282076245490090389328944075868508455133942304583236903222948165808559332123347764797926204144723168738177180919299881250404026184124858368.0

  const DEFAULT_WINDOW_MS := 180_000

  function AuctionRecord(doc: StateDocument): Option<Fields> {
    if doc.auction.Some? then doc.auction else doc.shipment
  }

  function ConfigRecord(doc: StateDocument): Option<Fields> {
    if doc.config.Some? then doc.config
    else if doc.auction.Some? && !doc.auction.value.auctionType.NoType? then doc.auction
    else AuctionRecord(doc)
  }

  function UpperChar(c: char): char {
    if 'a' <= c <= 'z' then c - 'a' + 'A' else c
  }

  function Upper(s: string): string {
    seq(|s|, i requires 0 <= i < |s| => UpperChar(s[i]))
  }

  predicate SaysForward(auctionType: TypeField) {
    auctionType.TypeText? && Upper(auctionType.text) == "FORWARD"
  }

  function Or<T>(o: Option<T>, fallback: T): T {
    if o.Some? then o.value else fallback
  }

  /** The configuration a state document denotes, with the documented defaults for what is missing. */
  function ConfigOf(state: Option<StateDocument>): Config {
    var record := if state.Some? then AuctionRecord(state.value) else None;
    var config := if state.Some? then ConfigRecord(state.value) else None;
    var price := if record.Some? then Or(record.value.startingPrice, MAX_PRICE) else MAX_PRICE;
    match config
    case None => Config(Reverse, price, 1.0, None)
    case Some(c) =>
      Config(
        if SaysForward(c.auctionType) then Forward else Reverse,
        price,
        if c.step.Some? && c.step.value > 0.0 then c.step.value else 1.0,
        if c.reserve.Some? && c.reserve.value >= 0.0 then c.reserve else None)
  }

  function EndOf(state: Option<StateDocument>, now: int): int {
    var record := if state.Some? then AuctionRecord(state.value) else None;
    Or(if record.Some? then record.value.endTime else None, now + DEFAULT_WINDOW_MS)
  }

  /** The configured values of a state document, before the sorted set is looked at. */
  method ReadConfig(state: Option<StateDocument>, now: int) returns (r: Runtime)
    ensures var cfg := ConfigOf(state);
      r == Runtime(cfg.kind, cfg.startingPrice, cfg.step, cfg.reserve, EndOf(state, now))
    ensures r.step > 0.0 && (r.reserve.Some? ==> r.reserve.value >= 0.0)
  {
    var endMs := now + DEFAULT_WINDOW_MS;
    var kind := Reverse;
    var currentPrice := MAX_PRICE;
    var step := 1.0;
    var reserve: Option<real> := None;

    if state.Some? {
      var record := if state.value.auction.Some? then state.value.auction else state.value.shipment;
      if record.Some? {
        if record.value.startingPrice.Some? {
          currentPrice := record.value.startingPrice.value;
        }
        if record.value.endTime.Some? {
          endMs := record.value.endTime.value;
        }
      }
      var config := ConfigRecord(state.value);
      if config.Some? {
        if SaysForward(config.value.auctionType) {
          kind := Forward;
        }
        if config.value.step.Some? && config.value.step.value > 0.0 {
          step := config.value.step.value;
        }
        if config.value.reserve.Some? && config.value.reserve.value >= 0.0 {
          reserve := config.value.reserve;
        }
      }
    }
    r := Runtime(kind, currentPrice, step, reserve, endMs);
  }

  /**
   * A restart recovers the configured auction with the best stored price, and always a
   * usable step. `fromKey` is the per-auction key, `fromHash` the shared hash behind it.
   */
  method LoadRuntime(fromKey: KeyContent, fromHash: KeyContent, zset: seq<Decision>, now: int) returns (r: Runtime)
    ensures var state := DocumentOf(fromKey, fromHash);
      && r.currentPrice == RestoredPrice(ConfigOf(state), zset)
      && r.kind == ConfigOf(state).kind && r.step == ConfigOf(state).step && r.reserve == ConfigOf(state).reserve
      && r.endMs == EndOf(state, now)
    ensures r.step > 0.0 && (r.reserve.Some? ==> r.reserve.value >= 0.0)
  {
    var stored := fromKey;
    if stored.NotStored? {
      stored := fromHash;
    }
    var state := None;
    if stored.Readable? {
      state := Some(stored.document);
    }
    r := ReadConfig(state, now);
    var best := Head(r.kind, zset);
    if best.Some? {
      r := r.(currentPrice := best.value.request.bid.amount);
    }
  }

  // ---------- run_actor_loop ----------

  datatype Task = Task(request: Request, offset: nat)

  datatype TaskResult = Committed | Rejected(reason: string) | Retryable(error: string)

  /** `Died` is a panic in the ledger write, with one task taken and not answered. */
  datatype ActorExit = Running | AuctionEnded | ChannelClosed | CloseFailed | Died(inHand: Task)

  /** What wakes the select, and how the handling of a received task ends. */
  datatype Wake =
    | Received(fault: LedgerFault, rank: nat)
    | Panicked(written: bool, rank: nat)
    | InboxClosed
    | DeadlineTimer

  /** One turn of the loop: the clock, the tasks queued since the last turn, and what wakes it. */
  datatype Turn = Turn(now: int, arrivals: seq<Task>, wake: Wake, closing: CloseFault)

  datatype ActorState = ActorState(
    price: real,
    store: Store,
    inbox: seq<Task>,
    replies: seq<(nat, TaskResult)>,
    sent: Outgoing,
    exit: ActorExit)

  /** The price after a bid was offered to the ledger. */
  function NextPrice(cfg: Config, price: real, st: Store, d: Decision, fault: LedgerFault): real {
    if WriteOutcome(st, d, fault) == Ok(Applied) && d.executed then d.request.bid.amount else price
  }

  function ReplyTo(st: Store, d: Decision, fault: LedgerFault): TaskResult {
    match WriteOutcome(st, d, fault)
    case Ok(_) => Committed
    case Err(e) => Retryable(e)
  }

  function StoreAfter(st: Store, d: Decision, fault: LedgerFault): Store {
    if fault.NotApplied? then st else Write(st, d)
  }

  function DecisionFor(cfg: Config, price: real, task: Task, rank: nat): Decision {
    Decide(cfg.kind, task.request, Improves(cfg, price, task.request.bid.amount), price, task.offset, rank)
  }

  function Handle(cfg: Config, auction: AuctionId, s: ActorState, task: Task, fault: LedgerFault, rank: nat)
    : ActorState
  {
    if task.request.bid.auction != auction then
      s.(replies := s.replies + [(task.offset, Rejected("AUCTION_ID_MISMATCH"))])
    else
      var d := DecisionFor(cfg, s.price, task, rank);
      s.(price := NextPrice(cfg, s.price, s.store, d, fault),
         store := StoreAfter(s.store, d, fault),
         replies := s.replies + [(task.offset, ReplyTo(s.store, d, fault))])
  }

  /** The write panics, having taken effect or not. A foreign task never gets as far as the write. */
  function Die(cfg: Config, auction: AuctionId, s: ActorState, task: Task, written: bool, rank: nat): ActorState {
    if task.request.bid.auction != auction then Handle(cfg, auction, s, task, NoFault, rank)
    else
      var d := DecisionFor(cfg, s.price, task, rank);
      s.(store := if written then Write(s.store, d) else s.store, exit := Died(task))
  }

  function RejectAll(inbox: seq<Task>, reason: string): seq<(nat, TaskResult)> {
    seq(|inbox|, i requires 0 <= i < |inbox| => (inbox[i].offset, Rejected(reason)))
  }

  function Close(cfg: Config, s: ActorState, fault: CloseFault): ActorState {
    s.(inbox := [],
       replies := s.replies + RejectAll(s.inbox, "AUCTION_ENDED"),
       sent := CloseAuction(cfg, s.store.zset, s.sent, fault),
       exit := if fault.NoCloseFault? then AuctionEnded else CloseFailed)
  }

  /** Nothing queued: the loop waits on. A closed channel still hands out what was queued. */
  function TakeTurn(cfg: Config, auction: AuctionId, endMs: int, s: ActorState, turn: Turn): ActorState {
    var q := s.(inbox := s.inbox + turn.arrivals);
    if turn.now >= endMs || turn.wake.DeadlineTimer? then Close(cfg, q, turn.closing)
    else if q.inbox == [] then
      if turn.wake.InboxClosed? then q.(exit := ChannelClosed) else q
    else
      var rest := q.(inbox := q.inbox[1..]);
      match turn.wake
      case Received(fault, rank) => Handle(cfg, auction, rest, q.inbox[0], fault, rank)
      case Panicked(written, rank) => Die(cfg, auction, rest, q.inbox[0], written, rank)
      case _ => q
  }

  function RunTurns(cfg: Config, auction: AuctionId, endMs: int, s: ActorState, turns: seq<Turn>): ActorState
    decreases |turns|
  {
    if turns == [] || !s.exit.Running? then s
    else RunTurns(cfg, auction, endMs, TakeTurn(cfg, auction, endMs, s, turns[0]), turns[1..])
  }

  class AuctionActor {
    const auction: AuctionId
    const cfg: Config
    const endMs: int
    const ledger: RedisLedger
    var currentPrice: real
    var inbox: seq<Task>
    var replies: seq<(nat, TaskResult)>
    var sent: Outgoing
    var exit: ActorExit

    function View(): ActorState
      reads this, ledger
    {
      ActorState(currentPrice, ledger.Contents(), inbox, replies, sent, exit)
    }

    /** A (re)started actor seeds its price from the sorted set it finds and inherits the queue. */
    constructor (auction: AuctionId, fromKey: KeyContent, fromHash: KeyContent, now: int, ledger: RedisLedger,
                 queued: seq<Task>, sent: Outgoing)
      ensures var state := DocumentOf(fromKey, fromHash);
        && View() ==
             ActorState(RestoredPrice(ConfigOf(state), ledger.zset), ledger.Contents(), queued, [], sent, Running)
        && cfg == ConfigOf(state) && endMs == EndOf(state, now)
      ensures this.ledger == ledger && this.auction == auction
    {
      var runtime := LoadRuntime(fromKey, fromHash, ledger.zset, now);
      this.auction := auction;
      this.cfg := ConfigOf(DocumentOf(fromKey, fromHash));
      this.endMs := runtime.endMs;
      this.ledger := ledger;
      currentPrice, inbox, replies, this.sent, exit := runtime.currentPrice, queued, [], sent, Running;
    }

    method HandleTask(task: Task, fault: LedgerFault, rank: nat)
      modifies this, ledger
      ensures View() == Handle(cfg, auction, old(View()), task, fault, rank)
    {
      if task.request.bid.auction != auction {
        replies := replies + [(task.offset, Rejected("AUCTION_ID_MISMATCH"))];
        return;
      }
      var isExecuted := IsBetterBid(cfg.kind, currentPrice, task.request.bid.amount, cfg.step);
      var write := ledger.WriteBid(task.request, cfg.kind, isExecuted, currentPrice, task.offset, rank, fault);
      match write {
        case Ok(w) =>
          if w.Applied? && isExecuted {
            currentPrice := task.request.bid.amount;
          }
          replies := replies + [(task.offset, Committed)];
        case Err(e) =>
          replies := replies + [(task.offset, Retryable(e))];
      }
    }

    /** The same, with a write that panics; whatever answer it had is never seen. */
    method HandleAndDie(task: Task, written: bool, rank: nat)
      modifies this, ledger
      ensures View() == Die(cfg, auction, old(View()), task, written, rank)
    {
      if task.request.bid.auction != auction {
        HandleTask(task, NoFault, rank);
        return;
      }
      var isExecuted := IsBetterBid(cfg.kind, currentPrice, task.request.bid.amount, cfg.step);
      var fault := if written then ReplyLost else NotApplied;
      var _ := ledger.WriteBid(task.request, cfg.kind, isExecuted, currentPrice, task.offset, rank, fault);
      exit := Died(task);
    }

    method RejectQueuedTasks(reason: string)
      modifies this`inbox, this`replies
      ensures inbox == [] && replies == old(replies) + RejectAll(old(inbox), reason)
    {
      ghost var done := 0;
      while inbox != []
        invariant done + |inbox| == |old(inbox)| && inbox == old(inbox)[done..]
        invariant replies == old(replies) + RejectAll(old(inbox), reason)[..done]
        decreases |inbox|
      {
        replies := replies + [(inbox[0].offset, Rejected(reason))];
        inbox := inbox[1..];
        done := done + 1;
      }
    }

    /** `close_auction`: find the winner, publish the sync record, announce. */
    method Finish(fault: CloseFault) returns (ok: bool)
      modifies this`sent
      ensures sent == CloseAuction(cfg, ledger.zset, old(sent), fault) && ok == fault.NoCloseFault?
    {
      var winner := Head(cfg.kind, ledger.zset);
      if cfg.kind.Forward? && cfg.reserve.Some? {
        if winner.None? || winner.value.request.bid.amount < cfg.reserve.value {
          winner := None;
        }
      }
      if fault.BeforeSync? {
        return false;
      }
      sent := sent.(syncs := sent.syncs + 1);
      if fault.AfterSync? {
        return false;
      }
      sent := sent.(announced := sent.announced + [winner]);
      return true;
    }

    method CloseAndExit(fault: CloseFault)
      modifies this`inbox, this`replies, this`sent, this`exit
      ensures View() == Close(cfg, old(View()), fault)
    {
      RejectQueuedTasks("AUCTION_ENDED");
      var ok := Finish(fault);
      exit := if ok then AuctionEnded else CloseFailed;
    }

    method TakeOne(turn: Turn)
      modifies this, ledger
      ensures View() == TakeTurn(cfg, auction, endMs, old(View()), turn)
    {
      inbox := inbox + turn.arrivals;
      if turn.now >= endMs || turn.wake.DeadlineTimer? {
        CloseAndExit(turn.closing);
      } else if inbox == [] {
        if turn.wake.InboxClosed? {
          exit := ChannelClosed;
        }
      } else if !turn.wake.InboxClosed? {
        var task := inbox[0];
        inbox := inbox[1..];
        match turn.wake {
          case Received(fault, rank) => HandleTask(task, fault, rank);
          case Panicked(written, rank) => HandleAndDie(task, written, rank);
        }
      }
    }

    method Run(turns: seq<Turn>)
      requires exit.Running?
      modifies this, ledger
      ensures View() == RunTurns(cfg, auction, endMs, old(View()), turns)
    {
      var i := 0;
      while i < |turns| && exit.Running?
        invariant 0 <= i <= |turns|
        invariant RunTurns(cfg, auction, endMs, View(), turns[i..]) == RunTurns(cfg, auction, endMs, old(View()), turns)
      {
        TakeOne(turns[i]);
        assert turns[i..][1..] == turns[i + 1..];
        i := i + 1;
      }
    }
  }

  // ---------- what a whole life of the loop keeps ----------

  /**
   * From the first turn that reads a clock at or past the deadline, whatever is still queued
   * or arrives, the ledger stays as it was: the loop closes there if it had not ended before.
   */
  lemma {:induction false} NothingWrittenAfterDeadline(cfg: Config, auction: AuctionId, endMs: int, s: ActorState,
                                                       turns: seq<Turn>, k: nat)
    requires k < |turns| && turns[k].now >= endMs
    ensures var before, end := RunTurns(cfg, auction, endMs, s, turns[..k]), RunTurns(cfg, auction, endMs, s, turns);
      && end == (if before.exit.Running? then TakeTurn(cfg, auction, endMs, before, turns[k]) else before)
      && end.store == before.store && !end.exit.Running?
    decreases k
  {
    if s.exit.Running? && k > 0 {
      NothingWrittenAfterDeadline(cfg, auction, endMs, TakeTurn(cfg, auction, endMs, s, turns[0]), turns[1..], k - 1);
      assert turns[..k][1..] == turns[1..][..k - 1];
    }
  }

  /** Within one life the cached price only tightens, whatever the ledger answers. */
  lemma {:induction false} PriceOnlyTightens(cfg: Config, auction: AuctionId, endMs: int, s: ActorState,
                                             turns: seq<Turn>)
    ensures AtLeastAsStrict(cfg.kind, RunTurns(cfg, auction, endMs, s, turns).price, s.price)
    decreases |turns|
  {
    if turns != [] && s.exit.Running? {
      PriceOnlyTightens(cfg, auction, endMs, TakeTurn(cfg, auction, endMs, s, turns[0]), turns[1..]);
    }
  }

  function Offsets(tasks: seq<Task>): seq<nat> {
    seq(|tasks|, i requires 0 <= i < |tasks| => tasks[i].offset)
  }

  function Answered(replies: seq<(nat, TaskResult)>): seq<nat> {
    seq(|replies|, i requires 0 <= i < |replies| => replies[i].0)
  }

  /** The task a panic took down with it. */
  function InHand(exit: ActorExit): seq<Task> {
    if exit.Died? then [exit.inHand] else []
  }

  /** Where every task the actor has been given is: answered, lost in a panic, or still queued. */
  function Accounted(s: ActorState): seq<nat> {
    Answered(s.replies) + Offsets(InHand(s.exit)) + Offsets(s.inbox)
  }

  /** What arrives in the turns the loop lives to take. */
  function ArrivedIn(cfg: Config, auction: AuctionId, endMs: int, s: ActorState, turns: seq<Turn>): seq<Task>
    decreases |turns|
  {
    if turns == [] || !s.exit.Running? then []
    else turns[0].arrivals + ArrivedIn(cfg, auction, endMs, TakeTurn(cfg, auction, endMs, s, turns[0]), turns[1..])
  }

  lemma OffsetsJoin(p: seq<Task>, q: seq<Task>)
    ensures Offsets(p + q) == Offsets(p) + Offsets(q)
  {
  }

  lemma CloseAccounts(cfg: Config, s: ActorState, fault: CloseFault)
    requires s.exit.Running?
    ensures Accounted(Close(cfg, s, fault)) == Accounted(s)
  {
    var s' := Close(cfg, s, fault);
    assert Answered(s'.replies) == Answered(s.replies) + Offsets(s.inbox);
  }

  /** The first task queued is answered, or is the one in hand when the loop dies. */
  lemma FirstAccounts(s: ActorState, s': ActorState)
    requires s.exit.Running? && s.inbox != [] && s'.inbox == s.inbox[1..]
    requires
      || (s'.exit.Running? && exists result :: s'.replies == s.replies + [(s.inbox[0].offset, result)])
      || (s'.exit == Died(s.inbox[0]) && s'.replies == s.replies)
    ensures Accounted(s') == Accounted(s)
  {
    assert s.inbox == [s.inbox[0]] + s'.inbox;
    OffsetsJoin([s.inbox[0]], s'.inbox);
  }

  lemma TurnAccounts(cfg: Config, auction: AuctionId, endMs: int, s: ActorState, turn: Turn)
    requires s.exit.Running?
    ensures Accounted(TakeTurn(cfg, auction, endMs, s, turn)) == Accounted(s) + Offsets(turn.arrivals)
  {
    var s', q := TakeTurn(cfg, auction, endMs, s, turn), s.(inbox := s.inbox + turn.arrivals);
    OffsetsJoin(s.inbox, turn.arrivals);
    if turn.now >= endMs || turn.wake.DeadlineTimer? {
      CloseAccounts(cfg, q, turn.closing);
    } else if q.inbox != [] && !turn.wake.InboxClosed? {
      FirstAccounts(q, s');
    }
  }

  /**
   * Tasks are answered once each and in the order they came: the answers, then the task a
   * panic took, then the queue the next life inherits. A loop that ended left no queue.
   */
  lemma {:induction false} TasksAnsweredInOrder(cfg: Config, auction: AuctionId, endMs: int, s: ActorState,
                                                turns: seq<Turn>)
    requires s.exit.Running?
    ensures var end := RunTurns(cfg, auction, endMs, s, turns);
      && Accounted(end) == Accounted(s) + Offsets(ArrivedIn(cfg, auction, endMs, s, turns))
      && (end.exit.AuctionEnded? || end.exit.CloseFailed? || end.exit.ChannelClosed? ==> end.inbox == [])
    decreases |turns|
  {
    if turns == [] {
      assert Offsets([]) == [] && Accounted(s) + [] == Accounted(s);
    } else {
      var next := TakeTurn(cfg, auction, endMs, s, turns[0]);
      TurnAccounts(cfg, auction, endMs, s, turns[0]);
      var later := ArrivedIn(cfg, auction, endMs, next, turns[1..]);
      assert Offsets(turns[0].arrivals + later) == Offsets(turns[0].arrivals) + Offsets(later);
      if next.exit.Running? {
        TasksAnsweredInOrder(cfg, auction, endMs, next, turns[1..]);
      }
    }
  }

  /** A loop that ends the auction has published one sync record and announced the winner of the set it leaves. */
  lemma {:induction false} EndAnnouncesWinner(cfg: Config, auction: AuctionId, endMs: int, s: ActorState,
                                              turns: seq<Turn>)
    requires s.exit.Running?
    ensures var end := RunTurns(cfg, auction, endMs, s, turns);
      && (end.exit.AuctionEnded? ==>
            && end.sent.syncs == s.sent.syncs + 1
            && end.sent.announced == s.sent.announced + [Announced(cfg.kind, cfg.reserve, end.store.zset)])
      && (!end.exit.AuctionEnded? ==> end.sent.announced == s.sent.announced)
      && (end.exit.CloseFailed? ==> s.sent.syncs <= end.sent.syncs <= s.sent.syncs + 1)
      && (!end.exit.AuctionEnded? && !end.exit.CloseFailed? ==> end.sent.syncs == s.sent.syncs)
    decreases |turns|
  {
    if turns != [] {
      var next := TakeTurn(cfg, auction, endMs, s, turns[0]);
      if next.exit.Running? {
        EndAnnouncesWinner(cfg, auction, endMs, next, turns[1..]);
      }
    }
  }

  // ---------- what the replies say ----------

  /**
   * One task before the deadline, told without the loop's own functions. A foreign task is
   * refused and touches nothing. Any other is committed exactly when the ledger answered,
   * and otherwise handed back to be tried again.
   */
  lemma TakenTaskIsAnswered(cfg: Config, auction: AuctionId, endMs: int, s: ActorState, turn: Turn)
    requires s.exit.Running? && turn.now < endMs && turn.wake.Received? && s.inbox + turn.arrivals != []
    ensures var task := (s.inbox + turn.arrivals)[0];
      var foreign, after := task.request.bid.auction != auction, TakeTurn(cfg, auction, endMs, s, turn);
      && |after.replies| == |s.replies| + 1 && after.replies[..|s.replies|] == s.replies
      && after.replies[|s.replies|].0 == task.offset && after.inbox == (s.inbox + turn.arrivals)[1..]
      && (var result := after.replies[|s.replies|].1;
          && (foreign ==> result == Rejected("AUCTION_ID_MISMATCH") && after.store == s.store && after.price == s.price)
          && (!foreign && turn.wake.fault.NoFault? ==> result == Committed)
          && (!foreign && !turn.wake.fault.NoFault? ==> result.Retryable? && after.price == s.price))
      && after.exit.Running?
  {
  }

  /** With nothing queued before the deadline the loop waits, and ends only when its channel is closed. */
  lemma EmptyQueueWaits(cfg: Config, auction: AuctionId, endMs: int, s: ActorState, turn: Turn)
    requires s.exit.Running? && turn.now < endMs && !turn.wake.DeadlineTimer? && s.inbox + turn.arrivals == []
    ensures TakeTurn(cfg, auction, endMs, s, turn) ==
      s.(inbox := [], exit := if turn.wake.InboxClosed? then ChannelClosed else Running)
  {
  }

  /**
   * At the turn that closes, each queued task gets exactly `AUCTION_ENDED`, in order, and the
   * ledger stays. One sync record goes out unless closing fails before it; a winner is
   * announced only when closing does not fail.
   */
  lemma ClosingRejectsQueue(cfg: Config, auction: AuctionId, endMs: int, s: ActorState, turn: Turn)
    requires turn.now >= endMs || turn.wake.DeadlineTimer?
    ensures var queue, after := s.inbox + turn.arrivals, TakeTurn(cfg, auction, endMs, s, turn);
      && |after.replies| == |s.replies| + |queue| && after.replies[..|s.replies|] == s.replies
      && (forall k :: 0 <= k < |queue| ==>
            after.replies[|s.replies| + k] == (queue[k].offset, Rejected("AUCTION_ENDED")))
      && after.inbox == [] && after.store == s.store && after.price == s.price
      && after.exit == (if turn.closing.NoCloseFault? then AuctionEnded else CloseFailed)
      && after.sent.syncs == (if turn.closing.BeforeSync? then s.sent.syncs else s.sent.syncs + 1)
      && (!turn.closing.NoCloseFault? ==> after.sent.announced == s.sent.announced)
      && (turn.closing.NoCloseFault? ==>
            after.sent.announced == s.sent.announced + [Announced(cfg.kind, cfg.reserve, s.store.zset)])
  {
  }

  /** `reply` commits a task of `given` whose request has a decision in the outbox. */
  ghost predicate Backed(reply: (nat, TaskResult), given: seq<Task>, st: Store) {
    exists t :: t in given && t.offset == reply.0 && HasDecision(st, t.request.id)
  }

  /** Every `Committed` after the first `n` replies is backed. */
  ghost predicate AllBacked(replies: seq<(nat, TaskResult)>, n: nat, given: seq<Task>, st: Store) {
    forall j :: n <= j < |replies| && replies[j].1.Committed? ==> Backed(replies[j], given, st)
  }

  lemma BackedStays(reply: (nat, TaskResult), given: seq<Task>, given': seq<Task>, st: Store, st': Store)
    requires Backed(reply, given, st) && st.outbox <= st'.outbox
    requires forall t :: t in given ==> t in given'
    ensures Backed(reply, given', st')
  {
    var t :| t in given && t.offset == reply.0 && HasDecision(st, t.request.id);
    var d :| d in st.outbox && d.request.id == t.request.id;
    assert d in st'.outbox && HasDecision(st', t.request.id) && t in given';
  }

  lemma TurnKeepsOutbox(cfg: Config, auction: AuctionId, endMs: int, s: ActorState, turn: Turn)
    requires DedupeBacked(s.store)
    ensures var after := TakeTurn(cfg, auction, endMs, s, turn);
      DedupeBacked(after.store) && s.store.outbox <= after.store.outbox
  {
    var queue := s.inbox + turn.arrivals;
    if queue != [] && (turn.wake.Received? || turn.wake.Panicked?) {
      WriteResolves(s.store, DecisionFor(cfg, s.price, queue[0], turn.wake.rank));
    }
  }

  lemma TurnBacksCommits(cfg: Config, auction: AuctionId, endMs: int, s: ActorState, turn: Turn)
    requires s.exit.Running? && DedupeBacked(s.store)
    ensures var after := TakeTurn(cfg, auction, endMs, s, turn);
      |s.replies| <= |after.replies| && after.replies[..|s.replies|] == s.replies
      && AllBacked(after.replies, |s.replies|, s.inbox + turn.arrivals, after.store)
  {
    var queue, after := s.inbox + turn.arrivals, TakeTurn(cfg, auction, endMs, s, turn);
    if turn.now < endMs && !turn.wake.DeadlineTimer? && queue != [] && (turn.wake.Received? || turn.wake.Panicked?) {
      var task := queue[0];
      assert task in queue;
      WriteResolves(s.store, DecisionFor(cfg, s.price, task, turn.wake.rank));
      if after.replies != s.replies && after.replies[|s.replies|].1.Committed? {
        assert HasDecision(after.store, task.request.id);
      }
    }
  }

  /**
   * Over a whole life: whoever is told `Committed` was given to the actor, and its request
   * has a decision in the outbox the actor leaves.
   */
  lemma {:induction false} CommittedMeansDecided(cfg: Config, auction: AuctionId, endMs: int, s: ActorState,
                                                 turns: seq<Turn>, j: nat)
    requires s.exit.Running? && DedupeBacked(s.store)
    requires |s.replies| <= j < |RunTurns(cfg, auction, endMs, s, turns).replies|
    requires RunTurns(cfg, auction, endMs, s, turns).replies[j].1.Committed?
    ensures var end := RunTurns(cfg, auction, endMs, s, turns);
      Backed(end.replies[j], s.inbox + ArrivedIn(cfg, auction, endMs, s, turns), end.store)
    decreases |turns|
  {
    var next := TakeTurn(cfg, auction, endMs, s, turns[0]);
    var end := RunTurns(cfg, auction, endMs, s, turns);
    var queue, later := s.inbox + turns[0].arrivals, ArrivedIn(cfg, auction, endMs, next, turns[1..]);
    TurnKeepsOutbox(cfg, auction, endMs, s, turns[0]);
    TurnBacksCommits(cfg, auction, endMs, s, turns[0]);
    RepliesAndOutboxGrow(cfg, auction, endMs, next, turns[1..]);
    assert forall t :: t in queue || t in later ==> t in s.inbox + (turns[0].arrivals + later);
    if j < |next.replies| {
      assert end.replies[j] == next.replies[j];
      BackedStays(next.replies[j], queue, s.inbox + (turns[0].arrivals + later), next.store, end.store);
    } else {
      CommittedMeansDecided(cfg, auction, endMs, next, turns[1..], j);
      InboxShrinks(cfg, auction, endMs, s, turns[0]);
      BackedStays(end.replies[j], next.inbox + later, s.inbox + (turns[0].arrivals + later), end.store, end.store);
    }
  }

  lemma InboxShrinks(cfg: Config, auction: AuctionId, endMs: int, s: ActorState, turn: Turn)
    ensures forall t :: t in TakeTurn(cfg, auction, endMs, s, turn).inbox ==> t in s.inbox + turn.arrivals
  {
  }

  lemma {:induction false} RepliesAndOutboxGrow(cfg: Config, auction: AuctionId, endMs: int, s: ActorState,
                                                turns: seq<Turn>)
    requires DedupeBacked(s.store)
    ensures var end := RunTurns(cfg, auction, endMs, s, turns);
      && |s.replies| <= |end.replies| && end.replies[..|s.replies|] == s.replies
      && s.store.outbox <= end.store.outbox
    decreases |turns|
  {
    if turns != [] && s.exit.Running? {
      TurnKeepsOutbox(cfg, auction, endMs, s, turns[0]);
      TurnBacksCommits(cfg, auction, endMs, s, turns[0]);
      RepliesAndOutboxGrow(cfg, auction, endMs, TakeTurn(cfg, auction, endMs, s, turns[0]), turns[1..]);
    }
  }
}
