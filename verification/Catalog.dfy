/**
 * The versioned catalog cache (apps/http-server/src/services/auction.rs): readers that
 * read a version, then a cached page or the database, then store; writers that commit,
 * then bump the version.
 */
module Catalog {
  import opened Wrappers

  type User = nat

  /**
   * A page is known by how many writes had committed when it was queried. `asked` is, for
   * a reader, the last commit whose writer had returned Ok when the reader started.
   */
  datatype Reader =
    | Started(user: User, version: nat, asked: nat)
    | Queried(user: User, version: nat, asked: nat, page: nat)
    | Returned(asked: nat, page: nat)

  /**
   * `bumps[c]` is the version the writer of commit `c` left behind; `acked` the highest commit
   * whose writer returned Ok.
   */
  datatype State = State(
    commits: nat,
    version: nat,
    cache: map<(nat, User), nat>,
    bumps: map<nat, nat>,
    acked: nat,
    readers: map<nat, Reader>)

  const Initial := State(0, 0, map[], map[], 0, map[])

  datatype Step =
    | Commit                                     // a create, join or leave commits
    | Bump(commit: nat, reached: bool)           // its INCR; false when Redis did not get it
    | Ack(commit: nat)                           // it returns Ok, INCR answered or not
    | Start(reader: nat, user: User, reached: bool)  // a reader reads the version, or 0 when Redis does not answer
    | Hit(reader: nat)
    | Query(reader: nat)
    | Store(reader: nat, reached: bool)
    | Expire(key: (nat, User))

  function Apply(s: State, step: Step): State {
    match step
    case Commit => s.(commits := s.commits + 1)
    case Bump(c, reached) =>
      if !(1 <= c <= s.commits) || c in s.bumps || !reached then s
      else s.(version := s.version + 1, bumps := s.bumps[c := s.version + 1])
    case Ack(c) => if 1 <= c <= s.commits then s.(acked := Max(s.acked, c)) else s
    case Start(r, u, reached) => s.(readers := s.readers[r := Started(u, if reached then s.version else 0, s.acked)])
    case Hit(r) =>
      if r in s.readers && s.readers[r].Started? && (s.readers[r].version, s.readers[r].user) in s.cache then
        s.(readers := s.readers[r := Returned(s.readers[r].asked, s.cache[(s.readers[r].version, s.readers[r].user)])])
      else s
    case Query(r) =>
      if r in s.readers && s.readers[r].Started? then
        var q := s.readers[r];
        s.(readers := s.readers[r := Queried(q.user, q.version, q.asked, s.commits)])
      else s
    case Store(r, reached) =>
      if r in s.readers && s.readers[r].Queried? then
        var q := s.readers[r];
        s.(cache := if reached then s.cache[(q.version, q.user) := q.page] else s.cache,
           readers := s.readers[r := Returned(q.asked, q.page)])
      else s
    case Expire(key) => s.(cache := s.cache - {key})
  }

  function Run(steps: seq<Step>): State {
    if steps == [] then Initial else Apply(Run(steps[..|steps| - 1]), steps[|steps| - 1])
  }

  /**
   * The step has its answer from Redis, or does no harm without it: the write it acknowledges
   * is covered by an earlier acknowledgement or by the bump of a later write, or nothing has
   * been acknowledged that the reader could miss.
   */
  ghost predicate Answered(s: State, step: Step) {
    match step
    case Ack(c) => c <= s.acked || c > s.commits || exists later :: later >= c && later in s.bumps
    case Start(_, _, reached) => reached || s.acked == 0
    case _ => true
  }

  ghost predicate RedisAnswers(steps: seq<Step>) {
    steps == [] ||
    (var before, last := steps[..|steps| - 1], steps[|steps| - 1];
     RedisAnswers(before) && Answered(Run(before), last))
  }

  /** A page read under version `v` has every write whose bump made the version at most `v`. */
  ghost predicate Fresh(s: State, v: nat, page: nat) {
    forall c :: c in s.bumps && s.bumps[c] <= v ==> c <= page
  }

  /** Everything acknowledged up to `asked` shows under version `v`. */
  ghost predicate Covers(s: State, v: nat, asked: nat) {
    asked == 0 || exists c :: c >= asked && c in s.bumps && s.bumps[c] <= v
  }

  ghost predicate ReaderOk(s: State, q: Reader) {
    match q
    case Started(_, v, asked) => v <= s.version && Covers(s, v, asked)
    case Queried(_, v, asked, page) => v <= s.version && Covers(s, v, asked) && Fresh(s, v, page)
    case Returned(asked, page) => asked <= page
  }

  ghost predicate Inv(s: State) {
    && (forall c :: c in s.bumps ==> 1 <= c <= s.commits && s.bumps[c] <= s.version)
    && Covers(s, s.version, s.acked)
    && (forall key :: key in s.cache ==> key.0 <= s.version && Fresh(s, key.0, s.cache[key]))
    && (forall r :: r in s.readers ==> ReaderOk(s, s.readers[r]))
  }

  lemma CoversStays(s: State, s': State, v: nat, v': nat, asked: nat)
    requires Covers(s, v, asked) && v <= v'
    requires forall c :: c in s.bumps ==> c in s'.bumps && s'.bumps[c] == s.bumps[c]
    ensures Covers(s', v', asked)
  {
    if asked != 0 {
      var c :| c >= asked && c in s.bumps && s.bumps[c] <= v;
      assert c in s'.bumps && s'.bumps[c] <= v';
    }
  }

  lemma BumpKeeps(s: State, c: nat)
    requires Inv(s) && 1 <= c <= s.commits && c !in s.bumps
    ensures Inv(Apply(s, Bump(c, true)))
  {
    var s' := Apply(s, Bump(c, true));
    CoversStays(s, s', s.version, s'.version, s.acked);
    forall r | r in s.readers ensures ReaderOk(s', s.readers[r]) {
      assert ReaderOk(s, s.readers[r]);
      if !s.readers[r].Returned? {
        CoversStays(s, s', s.readers[r].version, s.readers[r].version, s.readers[r].asked);
      }
    }
  }

  /** A step of one reader: the others and the writers see nothing of it but the cache. */
  lemma ReaderStepKeeps(s: State, r: nat, q: Reader, cache: map<(nat, User), nat>)
    requires Inv(s) && ReaderOk(s, q)
    requires forall key :: key in cache ==> (key.0 <= s.version && Fresh(s, key.0, cache[key]))
    ensures Inv(s.(readers := s.readers[r := q], cache := cache))
  {
  }

  lemma WriterStepKeeps(s: State, commits: nat, acked: nat)
    requires Inv(s) && s.commits <= commits && Covers(s, s.version, acked)
    ensures Inv(s.(commits := commits, acked := acked))
  {
  }

  lemma QueryKeeps(s: State, r: nat)
    requires Inv(s) && r in s.readers && s.readers[r].Started?
    ensures Inv(Apply(s, Query(r)))
  {
  }

  lemma HitKeeps(s: State, r: nat)
    requires Inv(s)
    ensures Inv(Apply(s, Hit(r)))
  {
  }

  lemma StoreKeeps(s: State, r: nat, reached: bool)
    requires Inv(s) && r in s.readers && s.readers[r].Queried?
    ensures Inv(Apply(s, Store(r, reached)))
  {
  }

  lemma StepKeeps(s: State, step: Step)
    requires Inv(s) && Answered(s, step)
    ensures Inv(Apply(s, step))
  {
    match step {
      case Commit => WriterStepKeeps(s, s.commits + 1, s.acked);
      case Bump(c, reached) =>
        if 1 <= c <= s.commits && c !in s.bumps && reached {
          BumpKeeps(s, c);
        }
      case Ack(c) => if s.acked < c <= s.commits { WriterStepKeeps(s, s.commits, c); }
      case Start(r, u, _) => ReaderStepKeeps(s, r, Started(u, s.version, s.acked), s.cache);
      case Hit(r) => HitKeeps(s, r);
      case Query(r) => if r in s.readers && s.readers[r].Started? { QueryKeeps(s, r); }
      case Store(r, reached) => if r in s.readers && s.readers[r].Queried? { StoreKeeps(s, r, reached); }
      case Expire(key) =>
        forall r | r in s.readers ensures ReaderOk(Apply(s, step), s.readers[r]) {
          assert ReaderOk(s, s.readers[r]);
        }
    }
  }

  lemma {:induction false} RunKeeps(steps: seq<Step>)
    requires RedisAnswers(steps)
    ensures Inv(Run(steps))
  {
    if steps != [] {
      RunKeeps(steps[..|steps| - 1]);
      StepKeeps(Run(steps[..|steps| - 1]), steps[|steps| - 1]);
    }
  }

  /**
   * Under any interleaving of readers and writers, slow ones included, a page returned was
   * queried after every write that had returned Ok when its reader started.
   */
  lemma ReadsAreFresh(steps: seq<Step>, r: nat)
    requires RedisAnswers(steps)
    requires r in Run(steps).readers && Run(steps).readers[r].Returned?
    ensures Run(steps).readers[r].asked <= Run(steps).readers[r].page
  {
    RunKeeps(steps);
    assert ReaderOk(Run(steps), Run(steps).readers[r]);
  }

  lemma RunSnoc(steps: seq<Step>, step: Step)
    ensures Run(steps + [step]) == Apply(Run(steps), step)
  {
  }

  /**
   * Freshness does need both answers. Without the bump, or with a reader that falls back to
   * version 0, a writer returns Ok and the page from before its commit is still served.
   */
  lemma OutageServesStale(bumped: bool)
    ensures var steps :=
        [Start(1, 7, true), Query(1), Store(1, true), Commit, Bump(1, bumped), Ack(1), Start(2, 7, !bumped), Hit(2)];
      2 in Run(steps).readers && Run(steps).readers[2] == Returned(1, 0)
  {
    RunSnoc([], Start(1, 7, true));
    RunSnoc([Start(1, 7, true)], Query(1));
    RunSnoc([Start(1, 7, true)] + [Query(1)], Store(1, true));
    var s3 := [Start(1, 7, true)] + [Query(1)] + [Store(1, true)];
    RunSnoc(s3, Commit);
    RunSnoc(s3 + [Commit], Bump(1, bumped));
    RunSnoc(s3 + [Commit] + [Bump(1, bumped)], Ack(1));
    var s6 := s3 + [Commit] + [Bump(1, bumped)] + [Ack(1)];
    RunSnoc(s6, Start(2, 7, !bumped));
    RunSnoc(s6 + [Start(2, 7, !bumped)], Hit(2));
    assert s6 + [Start(2, 7, !bumped)] + [Hit(2)] ==
      [Start(1, 7, true), Query(1), Store(1, true), Commit, Bump(1, bumped), Ack(1), Start(2, 7, !bumped), Hit(2)];
  }

  /** In general: an acknowledgement not covered by a bump is harmful while an older page is still served. */
  lemma UncoveredAckServesStale(s: State, c: nat, r: nat, u: User)
    requires s.acked < c <= s.commits && (s.version, u) in s.cache && s.cache[(s.version, u)] < c
    ensures var s' := Apply(Apply(Apply(s, Ack(c)), Start(r, u, true)), Hit(r));
      && r in s'.readers && s'.readers[r] == Returned(c, s.cache[(s.version, u)])
      && s'.readers[r].page < s'.readers[r].asked
  {
  }

  /** And a reader that does not learn the version is served stale exactly when version 0 keeps an older page. */
  lemma UnreadVersionServesStaleIff(s: State, r: nat, u: User)
    ensures var s' := Apply(Apply(s, Start(r, u, false)), Hit(r));
      (s'.readers[r].Returned? && s'.readers[r].page < s'.readers[r].asked) <==>
      ((0, u) in s.cache && s.cache[(0, u)] < s.acked)
  {
  }

  /** A page that expired is not served: a reader that would have found it goes on to the database. */
  lemma ExpiredPageIsNotServed(s: State, r: nat)
    requires r in s.readers && s.readers[r].Started?
    ensures var q := s.readers[r];
      var s' := Apply(s, Expire((q.version, q.user)));
      && s'.version == s.version && s'.commits == s.commits && Apply(s', Hit(r)) == s'
      && Apply(s', Query(r)).readers[r] == Queried(q.user, q.version, q.asked, s.commits)
  {
  }

  // ---------- the service's own steps, with others between them ----------

  function RunFrom(s: State, steps: seq<Step>): State {
    if steps == [] then s else Apply(RunFrom(s, steps[..|steps| - 1]), steps[|steps| - 1])
  }

  lemma RunFromSnoc(s: State, steps: seq<Step>, step: Step)
    ensures RunFrom(s, steps + [step]) == Apply(RunFrom(s, steps), step)
  {
    assert (steps + [step])[..|steps|] == steps;
  }

  lemma {:induction false} RunFromAppend(s: State, steps: seq<Step>, more: seq<Step>)
    ensures RunFrom(s, steps + more) == RunFrom(RunFrom(s, steps), more)
  {
    if more == [] {
      assert steps + more == steps;
    } else {
      var n := |more| - 1;
      assert steps + more == steps + more[..n] + [more[n]];
      RunFromAppend(s, steps, more[..n]);
      RunFromSnoc(s, steps + more[..n], more[n]);
    }
  }

  lemma {:induction false} RunThenRunFrom(before: seq<Step>, steps: seq<Step>)
    ensures RunFrom(Run(before), steps) == Run(before + steps)
  {
    if steps == [] {
      assert before + steps == before;
    } else {
      var n := |steps| - 1;
      RunThenRunFrom(before, steps[..n]);
      RunSnoc(before + steps[..n], steps[n]);
      assert before + steps == before + steps[..n] + [steps[n]];
    }
  }

  lemma FirstStep(s: State, step: Step)
    ensures RunFrom(s, [step]) == Apply(s, step)
  {
    RunFromSnoc(s, [], step);
    assert [] + [step] == [step];
  }

  lemma {:induction false} CommitsGrow(s: State, steps: seq<Step>)
    ensures s.commits <= RunFrom(s, steps).commits
  {
    if steps != [] {
      CommitsGrow(s, steps[..|steps| - 1]);
    }
  }

  predicate StepOfReader(step: Step, r: nat) {
    match step
    case Start(x, _, _) => x == r
    case Hit(x) => x == r
    case Query(x) => x == r
    case Store(x, _) => x == r
    case _ => false
  }

  predicate StepOfWriter(step: Step, c: nat) {
    (step.Bump? || step.Ack?) && step.commit == c
  }

  ghost predicate LeavesReader(steps: seq<Step>, r: nat) {
    forall k :: 0 <= k < |steps| ==> !StepOfReader(steps[k], r)
  }

  ghost predicate LeavesWriter(steps: seq<Step>, c: nat) {
    forall k :: 0 <= k < |steps| ==> !StepOfWriter(steps[k], c)
  }

  lemma {:induction false} OthersLeaveReader(s: State, steps: seq<Step>, r: nat)
    requires r in s.readers && LeavesReader(steps, r)
    ensures r in RunFrom(s, steps).readers && RunFrom(s, steps).readers[r] == s.readers[r]
  {
    if steps != [] {
      OthersLeaveReader(s, steps[..|steps| - 1], r);
    }
  }

  lemma {:induction false} OthersLeaveWriter(s: State, steps: seq<Step>, c: nat)
    requires 1 <= c <= s.commits && c !in s.bumps && LeavesWriter(steps, c)
    ensures c <= RunFrom(s, steps).commits && c !in RunFrom(s, steps).bumps
  {
    if steps != [] {
      OthersLeaveWriter(s, steps[..|steps| - 1], c);
    }
  }

  /** A page returned by what a service method did, in a run with Redis answering, is fresh. */
  lemma MethodReadIsFresh(before: seq<Step>, steps: seq<Step>, r: nat)
    requires RedisAnswers(before + steps)
    requires r in RunFrom(Run(before), steps).readers && RunFrom(Run(before), steps).readers[r].Returned?
    ensures RunFrom(Run(before), steps).readers[r].asked <= RunFrom(Run(before), steps).readers[r].page
  {
    RunThenRunFrom(before, steps);
    ReadsAreFresh(before + steps, r);
  }

  /** Every page cached so far is left behind by a bump. */
  lemma BumpLeavesPagesBehind(s: State, c: nat, u: User)
    requires Inv(s) && 1 <= c <= s.commits && c !in s.bumps
    ensures var s' := Apply(s, Bump(c, true)); s'.cache == s.cache && (s'.version, u) !in s'.cache
  {
  }

  /** The gaps of a method are what other requests do while it waits for its own. */
  class CatalogCache {
    var commits: nat
    var version: nat
    var cache: map<(nat, User), nat>
    var bumps: map<nat, nat>
    var acked: nat
    var readers: map<nat, Reader>

    function View(): State
      reads this
    {
      State(commits, version, cache, bumps, acked, readers)
    }

    constructor ()
      ensures View() == Initial
    {
      commits, version, cache, bumps, acked, readers := 0, 0, map[], map[], 0, map[];
    }

    method Others(gap: seq<Step>)
      modifies this
      ensures View() == RunFrom(old(View()), gap)
    {
      for i := 0 to |gap|
        invariant View() == RunFrom(old(View()), gap[..i])
      {
        assert gap[..i + 1] == gap[..i] + [gap[i]];
        RunFromSnoc(old(View()), gap[..i], gap[i]);
        var s := Apply(View(), gap[i]);
        commits, version, cache, bumps, acked, readers := s.commits, s.version, s.cache, s.bumps, s.acked, s.readers;
      }
      assert gap[..|gap|] == gap;
    }

    /** `invalidate_auction_catalog`, which may not reach Redis. */
    method Invalidate(c: nat, reached: bool)
      requires 1 <= c <= commits && c !in bumps
      modifies this`version, this`bumps
      ensures View() == Apply(old(View()), Bump(c, reached))
      ensures old(Inv(View())) ==> Inv(View())
    {
      if Inv(View()) {
        StepKeeps(View(), Bump(c, reached));
      }
      if reached {
        version := version + 1;
        bumps := bumps[c := version];
      }
    }

    /** A create, join or leave: commit, then bump, then return Ok. */
    method Write(reached: bool, gap0: seq<Step>, gap1: seq<Step>) returns (c: nat, ghost steps: seq<Step>)
      requires Inv(View())
      requires LeavesWriter(gap0, commits + 1) && LeavesWriter(gap1, commits + 1)
      modifies this
      ensures c == old(commits) + 1 && acked >= c
      ensures steps == [Commit] + gap0 + [Bump(c, reached)] + gap1 + [Ack(c)]
      ensures View() == RunFrom(old(View()), steps)
    {
      ghost var s0 := View();
      commits := commits + 1;
      c := commits;
      FirstStep(s0, Commit);
      OthersLeaveWriter(View(), gap0, c);
      Others(gap0);
      RunFromAppend(s0, [Commit], gap0);
      Invalidate(c, reached);
      RunFromSnoc(s0, [Commit] + gap0, Bump(c, reached));
      CommitsGrow(View(), gap1);
      Others(gap1);
      RunFromAppend(s0, [Commit] + gap0 + [Bump(c, reached)], gap1);
      acked := Max(acked, c);
      RunFromSnoc(s0, [Commit] + gap0 + [Bump(c, reached)] + gap1, Ack(c));
      steps := [Commit] + gap0 + [Bump(c, reached)] + gap1 + [Ack(c)];
    }

    /** `auction_catalog_version`: the version, or 0 when Redis does not answer. */
    method ReadVersion(r: nat, user: User, reached: bool) returns (seen: nat)
      modifies this`readers
      ensures View() == Apply(old(View()), Start(r, user, reached))
      ensures r in readers && readers[r] == Started(user, seen, acked)
    {
      seen := if reached then version else 0;
      readers := readers[r := Started(user, seen, acked)];
    }

    method ReadCache(r: nat, user: User, seen: nat, ghost asked: nat) returns (cached: Option<nat>)
      requires r in readers && readers[r] == Started(user, seen, asked)
      modifies this`readers
      ensures View() == Apply(old(View()), Hit(r)) && r in readers
      ensures cached.Some? ==> readers[r] == Returned(asked, cached.value)
      ensures cached.None? ==> readers[r] == Started(user, seen, asked)
    {
      if (seen, user) !in cache {
        return None;
      }
      cached := Some(cache[(seen, user)]);
      readers := readers[r := Returned(readers[r].asked, cache[(seen, user)])];
    }

    method QueryDatabase(r: nat, user: User, seen: nat, ghost asked: nat) returns (page: nat)
      requires r in readers && readers[r] == Started(user, seen, asked)
      modifies this`readers
      ensures View() == Apply(old(View()), Query(r))
      ensures r in readers && readers[r] == Queried(user, seen, asked, page)
    {
      page := commits;
      readers := readers[r := Queried(user, seen, readers[r].asked, page)];
    }

    method StorePage(r: nat, user: User, seen: nat, page: nat, ghost asked: nat, stored: bool)
      requires r in readers && readers[r] == Queried(user, seen, asked, page)
      modifies this`readers, this`cache
      ensures View() == Apply(old(View()), Store(r, stored))
      ensures r in readers && readers[r] == Returned(asked, page)
    {
      if stored {
        cache := cache[(seen, user) := page];
      }
      readers := readers[r := Returned(readers[r].asked, page)];
    }

    /** `get_auctions_service`: read the version, look in the cache, else query and store. */
    method GetAuctions(r: nat, user: User, versionRead: bool, stored: bool, gap0: seq<Step>, gap1: seq<Step>)
      returns (page: nat, ghost steps: seq<Step>)
      requires LeavesReader(gap0, r) && LeavesReader(gap1, r)
      modifies this
      ensures View() == RunFrom(old(View()), steps)
      ensures r in readers && readers[r] == Returned(old(acked), page)
    {
      ghost var s0, asked := View(), acked;
      var seen := ReadVersion(r, user, versionRead);
      FirstStep(s0, Start(r, user, versionRead));
      steps := [Start(r, user, versionRead)];
      OthersLeaveReader(View(), gap0, r);
      Others(gap0);
      RunFromAppend(s0, steps, gap0);
      steps := steps + gap0;
      var cached := ReadCache(r, user, seen, asked);
      RunFromSnoc(s0, steps, Hit(r));
      steps := steps + [Hit(r)];
      if cached.Some? {
        return cached.value, steps;
      }
      page := QueryDatabase(r, user, seen, asked);
      RunFromSnoc(s0, steps, Query(r));
      steps := steps + [Query(r)];
      OthersLeaveReader(View(), gap1, r);
      Others(gap1);
      RunFromAppend(s0, steps, gap1);
      steps := steps + gap1;
      StorePage(r, user, seen, page, asked, stored);
      RunFromSnoc(s0, steps, Store(r, stored));
      steps := steps + [Store(r, stored)];
    }
  }
}
