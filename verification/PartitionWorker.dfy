/**
 * The worker of one partition as the program runs it: fields updated in place, loops that
 * retry (apps/auction-engine/src/consumer.rs), each proved to be steps of module Pipeline.
 */
module PartitionWorker {
  import opened Wrappers
  import opened Bidding
  import opened AuctionFold
  import opened Ledger
  import opened Actor
  import opened Pipeline

  /** The retry loop around one record: attempt after attempt until the worker moves on. */
  function Try(cfgs: Configs, s: State, attempts: seq<(Attempt, nat)>, commit: CommitOutcome): State
    decreases |attempts|
  {
    if attempts == [] then s
    else
      var s' := DeliverNext(cfgs, s, attempts[0].0, attempts[0].1, commit);
      if s'.next != s.next then s' else Try(cfgs, s', attempts[1..], commit)
  }

  /** The commit-retry task: the head of the queue is tried until the broker takes it. */
  function Drain(cfgs: Configs, s: State, accepted: seq<bool>): State
    decreases |accepted|
  {
    if accepted == [] then s
    else Drain(cfgs, if accepted[0] then Apply(cfgs, s, RetryCommit) else s, accepted[1..])
  }

  class Worker {
    const cfgs: Configs
    var log: seq<BidRecord>
    var next: nat
    var committed: nat
    var retries: seq<nat>
    var dlq: set<nat>
    var stores: map<AuctionId, Store>
    var prices: map<AuctionId, real>
    var ended: map<AuctionId, nat>
    ghost var reach: nat

    ghost function View(): State
      reads this
    {
      State(log, next, committed, retries, dlq, stores, prices, ended, reach)
    }

    constructor (cfgs: Configs)
      ensures this.cfgs == cfgs && View() == Initial
    {
      this.cfgs := cfgs;
      log, next, committed, retries, dlq := [], 0, 0, [], {};
      stores, prices, ended, reach := map[], map[], map[], 0;
    }

    /** Commit the offset after `next`; a refused commit is handed to the retry task. */
    method CommitOffset(outcome: CommitOutcome)
      modifies this`committed, this`retries
      ensures View() == Commit(old(View()), outcome)
    {
      match outcome {
        case Landed => committed := next + 1;
        case Queued => retries := retries + [next + 1];
        case Dropped =>
      }
    }

    method MoveOn(outcome: CommitOutcome)
      modifies this`committed, this`retries, this`next, this`reach
      ensures View() == Finish(old(View()), outcome)
    {
      CommitOffset(outcome);
      next := next + 1;
      reach := Max(reach, next);
    }

    method LoseActor(a: AuctionId)
      modifies this`prices
      ensures View() == old(View()).(prices := old(prices) - {a})
    {
      prices := prices - {a};
    }

    /** The script took effect, and the actor stands at `price`. */
    method RecordWrite(a: AuctionId, st: Store, price: real)
      modifies this`stores, this`prices, this`reach
      ensures View() == Wrote(old(View()), a, st, price)
    {
      stores := stores[a := st];
      prices := prices[a := price];
      reach := Max(reach, next + 1);
    }

    /** The actor's side of one attempt: restore if needed, decide, write, reply. */
    method AskActor(r: BidRecord, attempt: Attempt, rank: nat) returns (reply: TaskResult)
      requires Biddable(r)
      modifies this`stores, this`prices, this`reach
      ensures View() == Effect(cfgs, old(View()), r, attempt, rank)
      ensures reply.Committed? <==> Acknowledged(attempt)
      ensures !reply.Rejected?
    {
      var a := r.auction;
      var st := if a in stores then stores[a] else EmptyStore;
      var price := if a in prices then prices[a] else RestoredPrice(cfgs(a), st.zset);
      var d := DecisionFor(cfgs(a), price, Task(RequestOf(r), next), rank);
      if attempt.CrashBefore? {
        LoseActor(a);
        return Retryable("actor restarted before reply");
      }
      if attempt == Answered(NotApplied) {
        prices := prices[a := price];
        return Retryable("redis");
      }
      if attempt.CrashAfter? {
        RecordWrite(a, Write(st, d), price);
        LoseActor(a);
        return Retryable("actor restarted before reply");
      }
      RecordWrite(a, Write(st, d), NextPrice(cfgs(a), price, st, d, attempt.fault));
      reply := ReplyTo(st, d, attempt.fault);
    }

    /** `dead_letter_until_stored`, then on to the next record. */
    method DeadLetterRecord(commit: CommitOutcome)
      modifies this`committed, this`retries, this`next, this`reach, this`dlq
      ensures View() == DeadLetter(old(View()), commit)
    {
      dlq := dlq + {next};
      MoveOn(commit);
    }

    /** One turn of the retry loop: a closed auction dead-letters the bid, any other is asked to decide it. */
    method AttemptOnce(r: BidRecord, attempt: Attempt, rank: nat, commit: CommitOutcome) returns (done: bool)
      requires next < |log| && r == log[next] && Biddable(r)
      modifies this`committed, this`retries, this`next, this`reach, this`dlq, this`stores, this`prices
      ensures View() == DeliverNext(cfgs, old(View()), attempt, rank, commit)
      ensures next == if done then old(next) + 1 else old(next)
    {
      if r.auction in ended {
        prices := prices - {r.auction};
        DeadLetterRecord(commit);
        return true;
      }
      var reply := AskActor(r, attempt, rank);
      done := reply.Committed?;
      if done {
        MoveOn(commit);
      }
    }

    /** Take the record at `next` and keep at it until it is resolved or the attempts given run out. */
    method HandleRecord(attempts: seq<(Attempt, nat)>, commit: CommitOutcome)
      requires next < |log| && attempts != []
      modifies this`committed, this`retries, this`next, this`reach, this`dlq, this`stores, this`prices
      ensures View() == Try(cfgs, old(View()), attempts, commit)
    {
      var r := log[next];
      if !Biddable(r) {
        MalformedIsDeadLettered(cfgs, View(), attempts, commit);
        DeadLetterRecord(commit);
        return;
      }
      var i := 0;
      while i < |attempts|
        invariant 0 <= i <= |attempts| && log == old(log) && next == old(next) && ended == old(ended)
        invariant Try(cfgs, View(), attempts[i..], commit) == Try(cfgs, old(View()), attempts, commit)
      {
        assert attempts[i..][1..] == attempts[i + 1..];
        var done := AttemptOnce(r, attempts[i].0, attempts[i].1, commit);
        if done {
          return;
        }
        i := i + 1;
      }
    }

    /** The retry task's loop: `accepted[k]` says whether the broker took the k-th try. */
    method RetryQueuedCommits(accepted: seq<bool>)
      modifies this`committed, this`retries
      ensures View() == Drain(cfgs, old(View()), accepted)
    {
      var k := 0;
      while k < |accepted|
        invariant 0 <= k <= |accepted|
        invariant Drain(cfgs, View(), accepted[k..]) == Drain(cfgs, old(View()), accepted)
      {
        assert accepted[k..][1..] == accepted[k + 1..];
        if accepted[k] && retries != [] {
          committed := retries[0];
          retries := retries[1..];
        }
        k := k + 1;
      }
    }
  }

  lemma MalformedIsDeadLettered(cfgs: Configs, s: State, attempts: seq<(Attempt, nat)>, commit: CommitOutcome)
    requires s.next < |s.log| && !Biddable(s.log[s.next]) && attempts != []
    ensures Try(cfgs, s, attempts, commit) == DeadLetter(s, commit)
  {
  }

  /** What the worker does to a reachable state is again a run, so every result about runs is about it. */
  lemma {:induction false} TryIsARun(cfgs: Configs, before: seq<Step>, attempts: seq<(Attempt, nat)>,
                                     commit: CommitOutcome)
    returns (steps: seq<Step>)
    ensures before <= steps && Run(cfgs, steps) == Try(cfgs, Run(cfgs, before), attempts, commit)
    decreases |attempts|
  {
    if attempts == [] {
      return before;
    }
    var s := Run(cfgs, before);
    var step := Deliver(attempts[0].0, attempts[0].1, commit);
    steps := before + [step];
    assert steps[..|steps| - 1] == before;
    if Apply(cfgs, s, step).next == s.next {
      steps := TryIsARun(cfgs, steps, attempts[1..], commit);
    }
  }

  lemma {:induction false} DrainIsARun(cfgs: Configs, before: seq<Step>, accepted: seq<bool>) returns (steps: seq<Step>)
    ensures before <= steps && Run(cfgs, steps) == Drain(cfgs, Run(cfgs, before), accepted)
    decreases |accepted|
  {
    if accepted == [] {
      return before;
    }
    var first := if accepted[0] then before + [RetryCommit] else before;
    assert accepted[0] ==> first[..|first| - 1] == before;
    steps := DrainIsARun(cfgs, first, accepted[1..]);
  }

  /** The worker keeps at a record until an attempt is acknowledged: one such attempt is enough, however late. */
  lemma {:induction false} TryKeepsAtIt(cfgs: Configs, s: State, attempts: seq<(Attempt, nat)>, commit: CommitOutcome,
                                        k: nat)
    requires s.next < |s.log| && k < |attempts| && Acknowledged(attempts[k].0)
    ensures Try(cfgs, s, attempts, commit).next == s.next + 1
    decreases k
  {
    DeliverMovesOnce(cfgs, s, attempts[0].0, attempts[0].1, commit);
    var s' := DeliverNext(cfgs, s, attempts[0].0, attempts[0].1, commit);
    if s'.next == s.next {
      if k == 0 {
        DeadLetteredIff(cfgs, s, attempts[0].0, attempts[0].1, commit);
        if Biddable(s.log[s.next]) && s.log[s.next].auction !in s.ended {
          OnlyAcknowledgedIsPassed(cfgs, s, attempts[0].0, attempts[0].1, commit);
        }
      } else {
        TryKeepsAtIt(cfgs, s', attempts[1..], commit, k - 1);
      }
    }
  }

  function Taken(accepted: seq<bool>): nat {
    if accepted == [] then 0 else (if accepted[0] then 1 else 0) + Taken(accepted[1..])
  }

  lemma {:induction false} DrainTakesQueue(cfgs: Configs, s: State, accepted: seq<bool>)
    requires Taken(accepted) == |s.retries|
    ensures var s' := Drain(cfgs, s, accepted);
      s'.retries == [] && s'.committed == if s.retries == [] then s.committed else s.retries[|s.retries| - 1]
    decreases |accepted|
  {
    if accepted != [] {
      DrainTakesQueue(cfgs, if accepted[0] then Apply(cfgs, s, RetryCommit) else s, accepted[1..]);
    }
  }

  /** A refused commit lands once the retry task has had its queue taken, whatever was refused in between. */
  lemma QueuedCommitLands(cfgs: Configs, s: State, accepted: seq<bool>)
    requires Taken(accepted) == |s.retries| + 1
    ensures Drain(cfgs, Finish(s, Queued), accepted).committed == s.next + 1
  {
    DrainTakesQueue(cfgs, Finish(s, Queued), accepted);
  }

  /** A record the worker has moved past is resolved, whatever its attempts went through. */
  lemma MovedOnMeansResolved(cfgs: Configs, before: seq<Step>, attempts: seq<(Attempt, nat)>, commit: CommitOutcome)
    requires Run(cfgs, before).next < |Run(cfgs, before).log|
    requires Try(cfgs, Run(cfgs, before), attempts, commit).next != Run(cfgs, before).next
    ensures var s' := Try(cfgs, Run(cfgs, before), attempts, commit);
      Run(cfgs, before).next < |s'.log| && Resolved(s', Run(cfgs, before).next)
  {
    var steps := TryIsARun(cfgs, before, attempts, commit);
    RunIsSafe(cfgs, steps);
    TryMovesOnce(cfgs, Run(cfgs, before), attempts, commit);
  }

  lemma DeliverMovesOnce(cfgs: Configs, s: State, attempt: Attempt, rank: nat, commit: CommitOutcome)
    ensures var s' := DeliverNext(cfgs, s, attempt, rank, commit);
      s'.log == s.log && (s'.next == s.next || (s.next < |s.log| && s'.next == s.next + 1))
  {
    if s.next < |s.log| && Biddable(s.log[s.next]) {
      assert Effect(cfgs, s, s.log[s.next], attempt, rank).next == s.next;
    }
  }

  lemma {:induction false} TryMovesOnce(cfgs: Configs, s: State, attempts: seq<(Attempt, nat)>, commit: CommitOutcome)
    ensures var s' := Try(cfgs, s, attempts, commit);
      s'.log == s.log && (s'.next == s.next || (s.next < |s.log| && s'.next == s.next + 1))
    decreases |attempts|
  {
    if attempts != [] {
      DeliverMovesOnce(cfgs, s, attempts[0].0, attempts[0].1, commit);
      var s' := DeliverNext(cfgs, s, attempts[0].0, attempts[0].1, commit);
      if s'.next == s.next {
        TryMovesOnce(cfgs, s', attempts[1..], commit);
      }
    }
  }
}
