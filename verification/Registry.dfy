/**
 * Which actor loops run in one process: the registry (apps/auction-engine/src/registry.rs)
 * and the supervisors that restart and retire them (apps/auction-engine/src/actor/supervisor.rs).
 */
module Registry {
  import opened Bidding

  /**
   * A supervisor from its creation to the drop of its receiver. `Orphaned`: the supervising
   * task died but the loop it spawned still holds the receiver. `Retired`: removed itself
   * from the registry, receiver still held.
   */
  datatype Phase = Looping | Sleeping | Finished | Retired | Orphaned | Gone

  datatype Supervisor = Supervisor(auction: AuctionId, phase: Phase)

  datatype State = State(actors: map<AuctionId, nat>, generation: nat, supervisors: map<nat, Supervisor>)

  const Initial := State(map[], 1, map[])

  datatype Step =
    | EvictClosed(auction: AuctionId)     // get_or_create on an occupied entry whose receiver is gone
    | CreateIfVacant(auction: AuctionId)  // get_or_create on a vacant entry
    | Panic(generation: nat)
    | Restart(generation: nat)
    | Exit(generation: nat)
    | RemoveIfGeneration(generation: nat)
    | SupervisorDies(generation: nat)
    | DropReceiver(generation: nat)

  /** `sender.is_closed()` */
  predicate Closed(s: State, g: nat) {
    g !in s.supervisors || s.supervisors[g].phase.Gone?
  }

  /** The loop of generation `g` is running. */
  predicate Running(s: State, g: nat) {
    g in s.supervisors && (s.supervisors[g].phase.Looping? || s.supervisors[g].phase.Orphaned?)
  }

  predicate In(s: State, g: nat, phases: set<Phase>) {
    g in s.supervisors && s.supervisors[g].phase in phases
  }

  function Move(s: State, g: nat, phase: Phase): State
    requires g in s.supervisors
  {
    s.(supervisors := s.supervisors[g := s.supervisors[g].(phase := phase)])
  }

  function Unregister(s: State, a: AuctionId, g: nat): State {
    if a in s.actors && s.actors[a] == g then s.(actors := s.actors - {a}) else s
  }

  function Apply(s: State, step: Step): State {
    match step
    case EvictClosed(a) => if a in s.actors && Closed(s, s.actors[a]) then s.(actors := s.actors - {a}) else s
    case CreateIfVacant(a) =>
      if a in s.actors then s
      else State(s.actors[a := s.generation], s.generation + 1, s.supervisors[s.generation := Supervisor(a, Looping)])
    case Panic(g) => if In(s, g, {Looping}) then Move(s, g, Sleeping) else s
    case Restart(g) => if In(s, g, {Sleeping}) then Move(s, g, Looping) else s
    case Exit(g) => if In(s, g, {Looping}) then Move(s, g, Finished) else s
    case RemoveIfGeneration(g) =>
      if In(s, g, {Finished}) then Unregister(Move(s, g, Retired), s.supervisors[g].auction, g) else s
    case SupervisorDies(g) =>
      if In(s, g, {Looping}) then Move(s, g, Orphaned)
      else if In(s, g, {Sleeping, Finished}) then Move(s, g, Gone) else s
    case DropReceiver(g) => if In(s, g, {Retired, Orphaned}) then Move(s, g, Gone) else s
  }

  function Run(steps: seq<Step>): State {
    if steps == [] then Initial else Apply(Run(steps[..|steps| - 1]), steps[|steps| - 1])
  }

  /** Not yet retired and still holding its receiver. */
  predicate Live(s: State, g: nat) {
    In(s, g, {Looping, Sleeping, Finished, Orphaned})
  }

  /** Every live actor is the registered one of its auction. */
  ghost predicate Inv(s: State) {
    && (forall g :: g in s.supervisors ==> g < s.generation)
    && (forall g :: Live(s, g) ==> s.supervisors[g].auction in s.actors && s.actors[s.supervisors[g].auction] == g)
    && (forall a :: a in s.actors ==> s.actors[a] in s.supervisors && s.supervisors[s.actors[a]].auction == a)
  }

  lemma StepKeeps(s: State, step: Step)
    requires Inv(s)
    ensures Inv(Apply(s, step))
  {
  }

  lemma {:induction false} RunKeeps(steps: seq<Step>)
    ensures Inv(Run(steps))
  {
    if steps != [] {
      RunKeeps(steps[..|steps| - 1]);
      StepKeeps(Run(steps[..|steps| - 1]), steps[|steps| - 1]);
    }
  }

  /** Under every interleaving, at most one loop runs per auction. */
  lemma SingleWriter(steps: seq<Step>, g: nat, h: nat)
    requires Running(Run(steps), g) && Running(Run(steps), h)
    requires Run(steps).supervisors[g].auction == Run(steps).supervisors[h].auction
    ensures g == h
  {
    RunKeeps(steps);
  }

  /** And no step of any generation leaves a running actor out of the registry. */
  lemma RunningIsRegistered(steps: seq<Step>, g: nat)
    requires Running(Run(steps), g)
    ensures var s := Run(steps);
      s.supervisors[g].auction in s.actors && s.actors[s.supervisors[g].auction] == g
  {
    RunKeeps(steps);
  }

  /** A panicked loop comes back under its own generation; one that ended leaves the registry and the process. */
  lemma LifeOfAGeneration(s: State, g: nat)
    requires In(s, g, {Looping})
    ensures var back := Apply(Apply(s, Panic(g)), Restart(g));
      !Running(Apply(s, Panic(g)), g) && Running(back, g) && back.actors == s.actors
    ensures var gone := Apply(Apply(Apply(s, Exit(g)), RemoveIfGeneration(g)), DropReceiver(g));
      && Closed(gone, g) && !Running(gone, g)
      && (var a := s.supervisors[g].auction;
          gone.actors == if a in s.actors && s.actors[a] == g then s.actors - {a} else s.actors)
    ensures var orphan := Apply(s, SupervisorDies(g));
      Running(orphan, g) && orphan.actors == s.actors && Closed(Apply(orphan, DropReceiver(g)), g)
  {
  }

  /** In every run, a generation about to retire is the registered one, so the test of its number never fails. */
  lemma GenerationTestNeverFails(steps: seq<Step>, g: nat)
    requires In(Run(steps), g, {Finished})
    ensures var s := Run(steps); s.supervisors[g].auction in s.actors && s.actors[s.supervisors[g].auction] == g
  {
    RunKeeps(steps);
  }

  lemma RunSnoc(steps: seq<Step>, step: Step)
    ensures Run(steps + [step]) == Apply(Run(steps), step)
  {
    assert (steps + [step])[..|steps|] == steps;
  }

  /** A step of the supervisor of generation `g`, or of the loop under it. */
  predicate IsStepOf(step: Step, g: nat) {
    match step
    case EvictClosed(_) => false
    case CreateIfVacant(_) => false
    case _ => step.generation == g
  }

  ghost predicate NoStepOf(steps: seq<Step>, g: nat) {
    forall k :: 0 <= k < |steps| ==> !IsStepOf(steps[k], g)
  }

  predicate Holds(s: State, a: AuctionId, h: nat) {
    a in s.actors && s.actors[a] == h && !Closed(s, h)
  }

  lemma EntryStays(s: State, step: Step, a: AuctionId, h: nat)
    requires Inv(s) && Holds(s, a, h) && !IsStepOf(step, h)
    ensures Holds(Apply(s, step), a, h)
  {
  }

  /**
   * Once a generation holds an auction, nothing but its own steps takes the entry away: not
   * the late retirement, death or restart of any other generation, and no caller of
   * `get_or_create`, however they interleave.
   */
  lemma {:induction false} StaleGenerationRemovesNothing(steps: seq<Step>, more: seq<Step>, a: AuctionId, h: nat)
    requires Holds(Run(steps), a, h) && NoStepOf(more, h)
    ensures Holds(Run(steps + more), a, h)
  {
    if more == [] {
      assert steps + more == steps;
    } else {
      var n := |more| - 1;
      StaleGenerationRemovesNothing(steps, more[..n], a, h);
      RunKeeps(steps + more[..n]);
      RunSnoc(steps + more[..n], more[n]);
      EntryStays(Run(steps + more[..n]), more[n], a, h);
      assert steps + more == steps + more[..n] + [more[n]];
    }
  }

  class AuctionRegistry {
    var actors: map<AuctionId, nat>
    var generation: nat
    var supervisors: map<nat, Supervisor>

    function View(): State
      reads this
    {
      State(actors, generation, supervisors)
    }

    constructor ()
      ensures View() == Initial
    {
      actors, generation, supervisors := map[], 1, map[];
    }

    /** The handle it returns is open, and is a new one only if there was no open one. */
    method GetOrCreate(a: AuctionId) returns (handle: nat)
      requires Inv(View())
      modifies this
      ensures View() == Apply(Apply(old(View()), EvictClosed(a)), CreateIfVacant(a))
      ensures Inv(View()) && a in actors && handle == actors[a] && !Closed(View(), handle)
      ensures a in old(actors) && !Closed(old(View()), old(actors)[a]) ==> handle == old(actors)[a]
    {
      StepKeeps(View(), EvictClosed(a));
      StepKeeps(Apply(View(), EvictClosed(a)), CreateIfVacant(a));
      while a in actors
        invariant View() == old(View()) || View() == Apply(old(View()), EvictClosed(a))
        invariant a !in actors ==> View() == Apply(old(View()), EvictClosed(a))
        decreases a in actors
      {
        var entry := actors[a];
        if entry in supervisors && !supervisors[entry].phase.Gone? {
          return entry;
        }
        actors := actors - {a};
      }
      handle := generation;
      generation := generation + 1;
      actors := actors[a := handle];
      supervisors := supervisors[handle := Supervisor(a, Looping)];
    }

    method RemoveIfSame(a: AuctionId, g: nat)
      modifies this`actors
      ensures actors == if a in old(actors) && old(actors)[a] == g then old(actors) - {a} else old(actors)
    {
      if a in actors && actors[a] == g {
        actors := actors - {a};
      }
    }

    /** The tail of a supervisor whose loop returned: retire, then drop the receiver. */
    method Retire(g: nat)
      requires Inv(View()) && In(View(), g, {Finished})
      modifies this
      ensures View() == Apply(Apply(old(View()), RemoveIfGeneration(g)), DropReceiver(g))
      ensures Inv(View())
    {
      StepKeeps(View(), RemoveIfGeneration(g));
      StepKeeps(Apply(View(), RemoveIfGeneration(g)), DropReceiver(g));
      var a := supervisors[g].auction;
      supervisors := supervisors[g := Supervisor(a, Retired)];
      RemoveIfSame(a, g);
      supervisors := supervisors[g := Supervisor(a, Gone)];
    }
  }
}
