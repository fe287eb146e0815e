/**
 * The outbox of one auction and the loop that drains it to Kafka
 * (apps/auction-engine/src/actor/publisher.rs), with lost acknowledgements, failed
 * deletes and crashes at any point. An entry is named by its place in the append order.
 */
module Outbox {
  import opened Bidding

  datatype Payload = Parsable(decision: Decision) | Garbled

  /** What the loop still owes the entry it is at. */
  datatype Phase = ToDecide | ToNotify | ToDelete

  datatype Position = Parked | Draining(batch: seq<nat>, k: nat, phase: Phase)

  /** `decisions` and `notices` are the two topics; the acked sets only observe. */
  datatype State = State(
    appended: seq<Payload>,
    pending: seq<nat>,
    decisions: seq<nat>,
    notices: seq<nat>,
    ackedDecisions: set<nat>,
    ackedNotices: set<nat>,
    position: Position)

  const Initial := State([], [], [], [], {}, {}, Parked)

  datatype PublishOutcome = Acked | AckLost | NotSent

  datatype Step =
    | Append(payload: Payload)
    | Read
    | Publish(outcome: PublishOutcome)
    | Delete(ok: bool)
    | Crash

  /** A payload that does not parse is deleted without being published. */
  function FirstPhase(appended: seq<Payload>, id: nat): Phase {
    if id < |appended| && appended[id].Parsable? then ToDecide else ToDelete
  }

  function At(appended: seq<Payload>, batch: seq<nat>, k: nat): Position {
    if k < |batch| then Draining(batch, k, FirstPhase(appended, batch[k])) else Parked
  }

  function Without(ids: seq<nat>, id: nat): seq<nat> {
    if ids == [] then [] else if ids[0] == id then ids[1..] else [ids[0]] + Without(ids[1..], id)
  }

  function Send(topic: seq<nat>, id: nat, outcome: PublishOutcome): seq<nat> {
    if outcome.NotSent? then topic else topic + [id]
  }

  function Apply(s: State, step: Step): State {
    match step
    case Append(p) => s.(appended := s.appended + [p], pending := s.pending + [|s.appended|])
    case Read => if s.position.Parked? then s.(position := At(s.appended, s.pending, 0)) else s
    case Crash => s.(position := Parked)
    case Publish(outcome) =>
      if s.position.Parked? || s.position.phase.ToDelete? || s.position.k >= |s.position.batch| then s
      else
        var id := s.position.batch[s.position.k];
        if s.position.phase.ToDecide? then
          s.(decisions := Send(s.decisions, id, outcome),
             ackedDecisions := if outcome.Acked? then s.ackedDecisions + {id} else s.ackedDecisions,
             position := if outcome.Acked? then s.position.(phase := ToNotify) else s.position)
        else
          s.(notices := Send(s.notices, id, outcome),
             ackedNotices := if outcome.Acked? then s.ackedNotices + {id} else s.ackedNotices,
             position := if outcome.Acked? then s.position.(phase := ToDelete) else s.position)
    case Delete(ok) =>
      if s.position.Parked? || !s.position.phase.ToDelete? || s.position.k >= |s.position.batch| then s
      else
        s.(pending := if ok then Without(s.pending, s.position.batch[s.position.k]) else s.pending,
           position := At(s.appended, s.position.batch, s.position.k + 1))
  }

  function Run(s: State, steps: seq<Step>): State {
    if steps == [] then s else Apply(Run(s, steps[..|steps| - 1]), steps[|steps| - 1])
  }

  /**
   * One answer of the broker: whatever is not refused is on the topic, acknowledged or not, and
   * only an acknowledgement moves the loop on.
   */
  lemma PublishAnswers(s: State, outcome: PublishOutcome)
    requires s.position.Draining? && s.position.k < |s.position.batch| && !s.position.phase.ToDelete?
    ensures var id, s' := s.position.batch[s.position.k], Apply(s, Publish(outcome));
      && s'.decisions == (if s.position.phase.ToDecide? && !outcome.NotSent? then s.decisions + [id] else s.decisions)
      && s'.notices == (if s.position.phase.ToNotify? && !outcome.NotSent? then s.notices + [id] else s.notices)
      && s'.pending == s.pending
      && (!outcome.Acked? ==> s'.position == s.position)
      && (outcome.Acked? ==>
            s'.position == s.position.(phase := if s.position.phase.ToDecide? then ToNotify else ToDelete))
  {
  }

  /** A crash loses only the place: everything still pending is read again from the front. */
  lemma CrashStartsOver(s: State)
    ensures var s' := Apply(Apply(s, Crash), Read);
      && s'.pending == s.pending && s'.decisions == s.decisions && s'.notices == s.notices
      && (s.pending == [] ==> s'.position == Parked)
      && (s.pending != [] ==> s'.position.Draining? && s'.position.batch == s.pending && s'.position.k == 0)
  {
  }

  // ---------- first publications ----------

  /** A topic with every repetition removed: the order in which entries first appeared. */
  function Firsts(topic: seq<nat>): seq<nat> {
    if topic == [] then []
    else
      var before, last := Firsts(topic[..|topic| - 1]), topic[|topic| - 1];
      if last in before then before else before + [last]
  }

  /** The parsable entries among the first `m` appended, in order. */
  function ParsableUpTo(appended: seq<Payload>, m: nat): seq<nat>
    requires m <= |appended|
  {
    if m == 0 then []
    else ParsableUpTo(appended, m - 1) + if appended[m - 1].Parsable? then [m - 1] else []
  }

  lemma {:induction false} ParsableUpToMembers(appended: seq<Payload>, m: nat, i: nat)
    requires m <= |appended|
    ensures i in ParsableUpTo(appended, m) <==> i < m && appended[i].Parsable?
  {
    if m > 0 {
      ParsableUpToMembers(appended, m - 1, i);
    }
  }

  lemma {:induction false} ParsableUpToSkip(appended: seq<Payload>, m: nat, n: nat)
    requires m <= n <= |appended|
    requires forall i :: m <= i < n ==> !appended[i].Parsable?
    ensures ParsableUpTo(appended, n) == ParsableUpTo(appended, m)
  {
    if m < n {
      ParsableUpToSkip(appended, m, n - 1);
    }
  }

  lemma {:induction false} ParsableUpToGrows(appended: seq<Payload>, more: seq<Payload>, m: nat, n: nat)
    requires m <= n <= |appended|
    ensures ParsableUpTo(appended, m) <= ParsableUpTo(appended, n)
    ensures ParsableUpTo(appended + more, n) == ParsableUpTo(appended, n)
    decreases n
  {
    if n > 0 {
      ParsableUpToGrows(appended, more, if m < n then m else n - 1, n - 1);
    }
  }

  // ---------- the invariant ----------

  ghost predicate Increasing(ids: seq<nat>) {
    forall j, k :: 0 <= j < k < |ids| ==> ids[j] < ids[k]
  }

  ghost predicate Below(ids: seq<nat>, n: nat) {
    forall k :: 0 <= k < |ids| ==> ids[k] < n
  }

  /** A parsable entry not pending has been acknowledged on both topics. */
  ghost predicate NoLoss(s: State) {
    forall i :: 0 <= i < |s.appended| && s.appended[i].Parsable? && i !in s.pending ==>
      i in s.ackedDecisions && i in s.ackedNotices
  }

  ghost predicate AckedMeansSent(s: State) {
    && (forall i :: i in s.ackedDecisions ==> i in s.decisions)
    && (forall i :: i in s.ackedNotices ==> i in s.notices)
  }

  /** Everything parsable before the entry the loop is at has been on the decision topic. */
  ghost predicate InOrder(s: State) {
    s.position.Draining? ==>
      var batch, k := s.position.batch, s.position.k;
      && k < |batch| && Increasing(batch) && Below(batch, |s.appended|)
      && (forall i :: 0 <= i < |s.appended| && s.appended[i].Parsable? ==> Covered(s.decisions, batch, k, i))
      && (s.position.phase.ToDecide? ==> s.appended[batch[k]].Parsable?)
      && (s.appended[batch[k]].Parsable? && !s.position.phase.ToDecide? ==> batch[k] in s.ackedDecisions)
      && (s.appended[batch[k]].Parsable? && s.position.phase.ToDelete? ==> batch[k] in s.ackedNotices)
  }

  /** `i` is published, or still ahead of position `k` of the batch, or newer than the batch. */
  ghost predicate Covered(decisions: seq<nat>, batch: seq<nat>, k: nat, i: nat)
    requires k < |batch|
  {
    i in decisions || i in batch[k..] || batch[|batch| - 1] < i
  }

  /** The first publications are exactly the parsable entries below some point. */
  ghost predicate PrefixAt(s: State, m: nat) {
    m <= |s.appended| && Firsts(s.decisions) == ParsableUpTo(s.appended, m)
  }

  ghost predicate Inv(s: State) {
    && Increasing(s.pending) && Below(s.pending, |s.appended|)
    && NoLoss(s) && AckedMeansSent(s) && InOrder(s)
    && exists m :: PrefixAt(s, m)
  }

  lemma {:induction false} FirstsMembers(topic: seq<nat>, i: nat)
    ensures i in Firsts(topic) <==> i in topic
  {
    if topic != [] {
      FirstsMembers(topic[..|topic| - 1], i);
      assert topic == topic[..|topic| - 1] + [topic[|topic| - 1]];
    }
  }

  lemma {:induction false} WithoutMembers(ids: seq<nat>, id: nat)
    requires Increasing(ids)
    ensures forall i :: i in Without(ids, id) <==> i in ids && i != id
  {
    if ids != [] {
      assert ids == [ids[0]] + ids[1..];
      if ids[0] != id {
        WithoutMembers(ids[1..], id);
      }
    }
  }

  lemma {:induction false} WithoutKeeps(ids: seq<nat>, id: nat, n: nat)
    requires Increasing(ids) && Below(ids, n)
    ensures Increasing(Without(ids, id)) && Below(Without(ids, id), n)
  {
    if ids != [] && ids[0] != id {
      WithoutKeeps(ids[1..], id, n);
      WithoutMembers(ids[1..], id);
      var rest := Without(ids[1..], id);
      forall k | 0 <= k < |rest| ensures ids[0] < rest[k] < n {
        assert rest[k] in ids[1..];
      }
    }
  }

  /** Publishing an entry with nothing unpublished before it extends the prefix, or repeats. */
  lemma PublishExtendsPrefix(s: State, m: nat, id: nat) returns (m': nat)
    requires PrefixAt(s, m) && id < |s.appended| && s.appended[id].Parsable?
    requires forall i :: 0 <= i < id && s.appended[i].Parsable? ==> i in s.decisions
    ensures m' <= |s.appended| && Firsts(s.decisions + [id]) == ParsableUpTo(s.appended, m')
  {
    assert (s.decisions + [id])[..|s.decisions|] == s.decisions;
    FirstsMembers(s.decisions, id);
    ParsableUpToMembers(s.appended, m, id);
    if id in s.decisions {
      m' := m;
    } else {
      forall i | m <= i < id ensures !s.appended[i].Parsable? {
        if s.appended[i].Parsable? {
          FirstsMembers(s.decisions, i);
          ParsableUpToMembers(s.appended, m, i);
        }
      }
      ParsableUpToSkip(s.appended, m, id);
      m' := id + 1;
    }
  }

  lemma AppendKeeps(s: State, p: Payload)
    requires Inv(s)
    ensures Inv(Apply(s, Append(p)))
  {
    var s' := Apply(s, Append(p));
    var m :| PrefixAt(s, m);
    ParsableUpToGrows(s.appended, [p], m, m);
    assert PrefixAt(s', m);
    forall i | 0 <= i < |s'.appended| && s'.appended[i].Parsable? && i !in s'.pending
      ensures i in s'.ackedDecisions && i in s'.ackedNotices
    {
      assert s'.pending[|s.pending|] == |s.appended|;
    }
    if s.position.Draining? {
      forall i | 0 <= i < |s'.appended| && s'.appended[i].Parsable?
        ensures Covered(s'.decisions, s.position.batch, s.position.k, i)
      {
        if i < |s.appended| {
          assert Covered(s.decisions, s.position.batch, s.position.k, i);
        }
      }
    }
  }

  lemma ReadKeeps(s: State)
    requires Inv(s) && s.position.Parked?
    ensures Inv(Apply(s, Read))
  {
    var s' := Apply(s, Read);
    var m :| PrefixAt(s, m);
    assert PrefixAt(s', m);
    if s.pending != [] {
      forall i | 0 <= i < |s.appended| && s.appended[i].Parsable? ensures Covered(s.decisions, s.pending, 0, i) {
        assert s.pending[0..] == s.pending;
      }
    }
  }

  /** Every parsable entry older than the one at `k` has been published. */
  lemma OlderArePublished(s: State, i: nat)
    requires InOrder(s) && s.position.Draining?
    requires i < s.position.batch[s.position.k] && i < |s.appended| && s.appended[i].Parsable?
    ensures i in s.decisions
  {
  }

  lemma PublishKeeps(s: State, outcome: PublishOutcome)
    requires Inv(s)
    ensures Inv(Apply(s, Publish(outcome)))
  {
    var s' := Apply(s, Publish(outcome));
    var m :| PrefixAt(s, m);
    if s.position.Draining? && s.position.phase.ToDecide? && !outcome.NotSent? {
      var id := s.position.batch[s.position.k];
      forall i | 0 <= i < id && s.appended[i].Parsable? ensures i in s.decisions {
        OlderArePublished(s, i);
      }
      var m' := PublishExtendsPrefix(s, m, id);
      assert PrefixAt(s', m');
      forall i | 0 <= i < |s.appended| && s.appended[i].Parsable?
        ensures Covered(s'.decisions, s.position.batch, s.position.k, i)
      {
        assert Covered(s.decisions, s.position.batch, s.position.k, i);
      }
      assert id in s'.decisions;
    } else {
      assert PrefixAt(s', m);
      if s.position.Draining? && s.position.phase.ToNotify? && !outcome.NotSent? {
        assert s'.notices[|s.notices|] == s.position.batch[s.position.k];
      }
    }
  }

  /** The entry at `k` is dealt with, so everything still owed lies ahead of `k + 1`. */
  lemma NextEntryInOrder(s: State, batch: seq<nat>, k: nat, i: nat)
    requires k + 1 < |batch| && Covered(s.decisions, batch, k, i)
    requires i == batch[k] ==> i in s.decisions
    ensures Covered(s.decisions, batch, k + 1, i)
  {
  }

  lemma DeleteKeeps(s: State, ok: bool)
    requires Inv(s)
    ensures Inv(Apply(s, Delete(ok)))
  {
    var s' := Apply(s, Delete(ok));
    var m :| PrefixAt(s, m);
    assert PrefixAt(s', m);
    if s.position.Draining? && s.position.phase.ToDelete? {
      var batch, k := s.position.batch, s.position.k;
      WithoutKeeps(s.pending, batch[k], |s.appended|);
      WithoutMembers(s.pending, batch[k]);
      if k + 1 < |batch| {
        forall i | 0 <= i < |s.appended| && s.appended[i].Parsable? ensures Covered(s.decisions, batch, k + 1, i) {
          NextEntryInOrder(s, batch, k, i);
        }
      }
    }
  }

  lemma StepKeeps(s: State, step: Step)
    requires Inv(s)
    ensures Inv(Apply(s, step))
  {
    match step {
      case Append(p) => AppendKeeps(s, p);
      case Read => if s.position.Parked? { ReadKeeps(s); }
      case Publish(outcome) => PublishKeeps(s, outcome);
      case Delete(ok) => DeleteKeeps(s, ok);
      case Crash =>
        var m :| PrefixAt(s, m);
        assert PrefixAt(Apply(s, Crash), m);
    }
  }

  lemma {:induction false} RunKeeps(steps: seq<Step>)
    ensures Inv(Run(Initial, steps))
  {
    if steps == [] {
      assert PrefixAt(Initial, 0);
    } else {
      RunKeeps(steps[..|steps| - 1]);
      StepKeeps(Run(Initial, steps[..|steps| - 1]), steps[|steps| - 1]);
    }
  }

  /** In every run, entries first reach the decision topic in the order they were appended, none skipped. */
  lemma FirstPublicationsArePrefix(steps: seq<Step>)
    ensures var s := Run(Initial, steps); Firsts(s.decisions) <= ParsableUpTo(s.appended, |s.appended|)
  {
    RunKeeps(steps);
    var s := Run(Initial, steps);
    var m :| PrefixAt(s, m);
    ParsableUpToGrows(s.appended, [], m, |s.appended|);
  }

  /** In every run, a parsable entry is still pending or acknowledged on both topics. */
  lemma NothingIsLost(steps: seq<Step>, i: nat)
    requires i < |Run(Initial, steps).appended| && Run(Initial, steps).appended[i].Parsable?
    ensures var s := Run(Initial, steps);
      i in s.pending || (i in s.ackedDecisions && i in s.decisions && i in s.ackedNotices && i in s.notices)
  {
    RunKeeps(steps);
  }

  // ---------- the loop itself ----------

  /**
   * What one entry meets on its way: the decisions the actor appends meanwhile, the answers
   * to its publishes, and whether its delete works.
   */
  datatype Fate = Fate(
    arrivals: seq<Payload>,
    decision: seq<PublishOutcome>,
    notice: seq<PublishOutcome>,
    deleted: bool)

  /** The names of `count` entries appended after the first `n`. */
  function Names(n: nat, count: nat): seq<nat> {
    seq(count, i requires 0 <= i < count => n + i)
  }

  /** What a pass over `batch` makes of everything appended and of what is pending. */
  function Pass(appended: seq<Payload>, pending: seq<nat>, batch: seq<nat>, fates: seq<Fate>): (seq<Payload>, seq<nat>)
    requires |batch| == |fates|
    decreases |batch|
  {
    if batch == [] then (appended, pending)
    else
      var now := pending + Names(|appended|, |fates[0].arrivals|);
      var kept := if fates[0].deleted then Without(now, batch[0]) else now;
      Pass(appended + fates[0].arrivals, kept, batch[1..], fates[1..])
  }

  /** The delete of entry `i` worked. */
  predicate Deleted(i: nat, batch: seq<nat>, fates: seq<Fate>)
    requires |batch| == |fates|
    decreases |batch|
  {
    batch != [] && ((batch[0] == i && fates[0].deleted) || Deleted(i, batch[1..], fates[1..]))
  }

  lemma {:induction false} DeletedIsInBatch(i: nat, batch: seq<nat>, fates: seq<Fate>)
    requires |batch| == |fates| && Deleted(i, batch, fates)
    ensures i in batch
    decreases |batch|
  {
    if !(batch[0] == i && fates[0].deleted) {
      DeletedIsInBatch(i, batch[1..], fates[1..]);
    }
  }

  lemma NewEntriesPending(pending: seq<nat>, n: nat, count: nat)
    requires Increasing(pending) && Below(pending, n)
    ensures Increasing(pending + Names(n, count)) && Below(pending + Names(n, count), n + count)
    ensures forall i :: i in pending + Names(n, count) <==> i in pending || n <= i < n + count
  {
    forall i | n <= i < n + count ensures i in pending + Names(n, count) {
      assert Names(n, count)[i - n] == i;
    }
  }

  /** A pass leaves pending exactly the entries whose delete failed and those appended meanwhile. */
  lemma {:induction false} PassLeaves(appended: seq<Payload>, pending: seq<nat>, batch: seq<nat>, fates: seq<Fate>,
                                      i: nat)
    requires |batch| == |fates| && Increasing(pending) && Below(pending, |appended|) && Below(batch, |appended|)
    ensures var after := Pass(appended, pending, batch, fates);
      && appended <= after.0
      && (i in after.1 <==> (i in pending && !Deleted(i, batch, fates)) || |appended| <= i < |after.0|)
    decreases |batch|
  {
    if batch != [] {
      var n, count := |appended|, |fates[0].arrivals|;
      var now := pending + Names(n, count);
      NewEntriesPending(pending, n, count);
      WithoutKeeps(now, batch[0], n + count);
      WithoutMembers(now, batch[0]);
      var kept := if fates[0].deleted then Without(now, batch[0]) else now;
      PassLeaves(appended + fates[0].arrivals, kept, batch[1..], fates[1..], i);
      if Deleted(i, batch[1..], fates[1..]) {
        DeletedIsInBatch(i, batch[1..], fates[1..]);
      }
    }
  }

  lemma RunSnoc(s: State, steps: seq<Step>, step: Step)
    ensures Run(s, steps + [step]) == Apply(Run(s, steps), step)
  {
    assert (steps + [step])[..|steps|] == steps;
  }

  lemma {:induction false} RunAppend(s: State, steps: seq<Step>, more: seq<Step>)
    ensures Run(s, steps + more) == Run(Run(s, steps), more)
  {
    if more == [] {
      assert steps + more == steps;
    } else {
      var n := |more| - 1;
      assert (steps + more)[..|steps + more| - 1] == steps + more[..n];
      RunAppend(s, steps, more[..n]);
    }
  }

  class KafkaPublisher {
    var appended: seq<Payload>
    var pending: seq<nat>
    var decisions: seq<nat>
    var notices: seq<nat>
    ghost var ackedDecisions: set<nat>
    ghost var ackedNotices: set<nat>
    ghost var position: Position

    ghost function View(): State
      reads this
    {
      State(appended, pending, decisions, notices, ackedDecisions, ackedNotices, position)
    }

    constructor ()
      ensures View() == Initial
    {
      appended, pending, decisions, notices := [], [], [], [];
      ackedDecisions, ackedNotices, position := {}, {}, Parked;
    }

    /** The loop is at the entry `id`, in this phase. */
    ghost predicate AtEntry(id: nat, phase: Phase)
      reads this`position
    {
      && position.Draining? && position.phase == phase
      && position.k < |position.batch| && position.batch[position.k] == id
    }

    method TryDecision(id: nat, outcome: PublishOutcome)
      requires AtEntry(id, ToDecide)
      modifies this`decisions, this`ackedDecisions, this`position
      ensures View() == Apply(old(View()), Publish(outcome))
      ensures position == if outcome.Acked? then old(position).(phase := ToNotify) else old(position)
      ensures outcome.Acked? ==> id in ackedDecisions
    {
      decisions := Send(decisions, id, outcome);
      if outcome.Acked? {
        ackedDecisions := ackedDecisions + {id};
        position := position.(phase := ToNotify);
      }
    }

    /** Retry until the broker acknowledges; a lost acknowledgement publishes again. */
    method PublishDecision(id: nat, outcomes: seq<PublishOutcome>) returns (ghost steps: seq<Step>)
      requires Acked in outcomes && AtEntry(id, ToDecide)
      modifies this`decisions, this`ackedDecisions, this`position
      ensures View() == Run(old(View()), steps)
      ensures position == old(position).(phase := ToNotify) && id in ackedDecisions
    {
      steps := [];
      var attempts := 0;
      while true
        invariant 0 <= attempts <= |outcomes| && forall j :: 0 <= j < attempts ==> !outcomes[j].Acked?
        invariant View() == Run(old(View()), steps) && position == old(position)
        decreases |outcomes| - attempts
      {
        assert attempts < |outcomes|;
        TryDecision(id, outcomes[attempts]);
        RunSnoc(old(View()), steps, Publish(outcomes[attempts]));
        steps := steps + [Publish(outcomes[attempts])];
        if outcomes[attempts].Acked? {
          return;
        }
        attempts := attempts + 1;
      }
    }

    method TryNotification(id: nat, outcome: PublishOutcome)
      requires AtEntry(id, ToNotify)
      modifies this`notices, this`ackedNotices, this`position
      ensures View() == Apply(old(View()), Publish(outcome))
      ensures position == if outcome.Acked? then old(position).(phase := ToDelete) else old(position)
      ensures outcome.Acked? ==> id in ackedNotices
    {
      notices := Send(notices, id, outcome);
      if outcome.Acked? {
        ackedNotices := ackedNotices + {id};
        position := position.(phase := ToDelete);
      }
    }

    /** The same for the notification topic. */
    method PublishNotification(id: nat, outcomes: seq<PublishOutcome>) returns (ghost steps: seq<Step>)
      requires Acked in outcomes && AtEntry(id, ToNotify)
      modifies this`notices, this`ackedNotices, this`position
      ensures View() == Run(old(View()), steps)
      ensures position == old(position).(phase := ToDelete) && id in ackedNotices
    {
      steps := [];
      var attempts := 0;
      while true
        invariant 0 <= attempts <= |outcomes| && forall j :: 0 <= j < attempts ==> !outcomes[j].Acked?
        invariant View() == Run(old(View()), steps) && position == old(position)
        decreases |outcomes| - attempts
      {
        assert attempts < |outcomes|;
        TryNotification(id, outcomes[attempts]);
        RunSnoc(old(View()), steps, Publish(outcomes[attempts]));
        steps := steps + [Publish(outcomes[attempts])];
        if outcomes[attempts].Acked? {
          return;
        }
        attempts := attempts + 1;
      }
    }

    method AppendOne(p: Payload)
      modifies this`appended, this`pending
      ensures View() == Apply(old(View()), Append(p))
      ensures appended == old(appended) + [p] && pending == old(pending) + [|old(appended)|]
    {
      pending := pending + [|appended|];
      appended := appended + [p];
    }

    /** What the actor does to the pending stream while the publisher is at work. */
    method AppendAll(arrivals: seq<Payload>) returns (ghost steps: seq<Step>)
      modifies this`appended, this`pending
      ensures View() == Run(old(View()), steps)
      ensures appended == old(appended) + arrivals
      ensures pending == old(pending) + Names(|old(appended)|, |arrivals|)
    {
      steps := [];
      for i := 0 to |arrivals|
        invariant View() == Run(old(View()), steps)
        invariant appended == old(appended) + arrivals[..i]
        invariant pending == old(pending) + Names(|old(appended)|, i)
      {
        AppendOne(arrivals[i]);
        RunSnoc(old(View()), steps, Append(arrivals[i]));
        steps := steps + [Append(arrivals[i])];
      }
    }

    /** Move on to the next entry, having tried to delete this one. */
    method DeleteEntry(entries: seq<nat>, k: nat, deleted: bool)
      requires k < |entries| && position == Draining(entries, k, ToDelete)
      modifies this`pending, this`position
      ensures View() == Apply(old(View()), Delete(deleted))
      ensures position == At(appended, entries, k + 1)
      ensures pending == if deleted then Without(old(pending), entries[k]) else old(pending)
    {
      if deleted {
        pending := Without(pending, entries[k]);
      }
      position := At(appended, entries, k + 1);
    }

    /** Publish the entry the loop is at on both topics, then try to delete it; a garbled one is only deleted. */
    method DrainEntry(entries: seq<nat>, k: nat, fate: Fate) returns (ghost steps: seq<Step>)
      requires k < |entries| && Below(entries, |appended|) && position == At(appended, entries, k)
      requires Acked in fate.decision && Acked in fate.notice
      modifies this
      ensures View() == Run(old(View()), steps) && appended == old(appended) + fate.arrivals
      ensures position == At(appended, entries, k + 1)
      ensures var now := old(pending) + Names(|old(appended)|, |fate.arrivals|);
        pending == if fate.deleted then Without(now, entries[k]) else now
    {
      var id := entries[k];
      steps := AppendAll(fate.arrivals);
      assert position == At(appended, entries, k);
      if appended[id].Parsable? {
        ghost var published := PublishDecision(id, fate.decision);
        RunAppend(old(View()), steps, published);
        steps := steps + published;
        ghost var notified := PublishNotification(id, fate.notice);
        RunAppend(old(View()), steps, notified);
        steps := steps + notified;
      }
      DeleteEntry(entries, k, fate.deleted);
      RunSnoc(old(View()), steps, Delete(fate.deleted));
      steps := steps + [Delete(fate.deleted)];
    }

    /** One turn of the outer loop: read everything pending, then take it entry by entry. */
    method DrainOnce(fates: seq<Fate>) returns (ghost steps: seq<Step>)
      requires position.Parked? && |fates| == |pending| && Below(pending, |appended|)
      requires forall k :: 0 <= k < |fates| ==> Acked in fates[k].decision && Acked in fates[k].notice
      modifies this
      ensures View() == Run(old(View()), steps)
      ensures position.Parked? && (appended, pending) == Pass(old(appended), old(pending), old(pending), fates)
    {
      var entries := pending;
      var k := 0;
      steps := [Read];
      position := At(appended, entries, 0);
      assert steps[..0] == [];
      while k < |entries|
        invariant 0 <= k <= |entries| && position == At(appended, entries, k) && Below(entries, |appended|)
        invariant View() == Run(old(View()), steps)
        invariant Pass(appended, pending, entries[k..], fates[k..])
               == Pass(old(appended), old(pending), old(pending), fates)
      {
        assert entries[k..][1..] == entries[k + 1..] && fates[k..][1..] == fates[k + 1..];
        ghost var entry := DrainEntry(entries, k, fates[k]);
        RunAppend(old(View()), steps, entry);
        steps := steps + entry;
        k := k + 1;
      }
    }
  }
}
