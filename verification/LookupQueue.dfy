/** Waiting for a lookup slot (src/net.rs): whose turn it is, what one poll does, and how long a wait can be. */
module LookupQueue {
  import opened Bytes
  import opened Resolver

  predicate Subject(s: State, step: Step, c: nat) {
    match step
    case Open(d) => d == c
    case Close(d) => d == c
    case Begin(_, d) => d == c
    case _ => step.lookup in s.lookups && s.lookups[step.lookup].connection == c
  }

  /** What other connections do leaves a connection's own two semaphores alone. */
  lemma OthersCannotTouch(s: State, step: Step, c: nat, pool: Pool)
    requires Conserved(s) && Enabled(s, step) && pool in s.sems && !Subject(s, step, c)
    requires pool == ReservedOf(c) || pool == BurstOf(c)
    ensures pool in Apply(s, step).sems && Apply(s, step).sems[pool] == s.sems[pool]
  {
    hide SemOk, Drop, DropAll;
    match step
    case Open(_) =>
    case Close(_) =>
    case Begin(_, _) =>
    case Ask(_, _) =>
    case Start(t, slot) => StartSem(s, t, slot, pool);
    case GiveUp(t) => DropAllSem(s, t, pool);
    case ThreadEnds(t) => DropAllSem(s, t, pool);
  }

  /** What starting does to a semaphore: only the branch that lost is dropped. */
  lemma StartSem(s: State, t: nat, slot: Slot, pool: Pool)
    requires Conserved(s) && Enabled(s, Start(t, slot)) && pool in s.sems
    ensures Apply(s, Start(t, slot)).sems[pool] ==
      if slot == Reserved && pool.ReservedOf? then s.sems[pool]
      else if slot == Shared && !pool.ReservedOf? then s.sems[pool]
      else Settled(s.sems[pool], t, s.lookups[t].On(pool))
  {
    hide SemOk, Drop, Settled;
    var c := s.lookups[t].connection;
    SettledUnasked(s.sems[pool], t);
    if slot == Reserved {
      DropStep(s, t, SharedPool);
      DropSem(s, t, SharedPool, pool);
      DropSem(Drop(s, t, SharedPool), t, BurstOf(c), pool);
    } else {
      DropSem(s, t, ReservedOf(c), pool);
    }
  }

  /** Whatever others hold, even with no shared permit left: asking gets the reserved permit unless the connection's own lookup has it. */
  lemma FreeReservedIsGranted(s: State, t: nat)
    requires Conserved(s) && IsWaiting(s, t) && s.lookups[t].reserved == Unasked
    ensures var ask := Ask(t, ReservedOf(s.lookups[t].connection));
      && Enabled(s, ask)
      && (Apply(s, ask).lookups[t].reserved == Granted <==> Holders(s.lookups, ask.pool) == {})
      && (Apply(s, ask).lookups[t].reserved == Granted <==> Enabled(Apply(s, ask), Start(t, Reserved)))
  {
    var pool := ReservedOf(s.lookups[t].connection);
    assert SemOk(s, pool);
  }

  ghost predicate Queues(s: State, t: nat, c: nat) {
    t in s.lookups && s.lookups[t].On(ReservedOf(c)) == Queued
  }

  /** Serial at worst: the only thing a waiter waits for is one lookup of its own connection. */
  lemma WaitsForOwnConnection(s: State, t: nat, c: nat) returns (u: nat)
    requires Conserved(s) && Queues(s, t, c)
    ensures Holders(s.lookups, ReservedOf(c)) == {u} && u != t && s.lookups[u].connection == c
  {
    var pool := ReservedOf(c);
    assert SemOk(s, pool);
    var holders := Holders(s.lookups, pool);
    assert |holders| == 1;
    u :| u in holders;
    assert holders == {u} by { Singleton(holders, u); }
  }

  lemma Singleton(a: set<nat>, u: nat)
    requires |a| == 1 && u in a
    ensures a == {u}
  {
    assert |a - {u}| == 0;
  }

  /** How many wait before `t`. */
  function Place(queue: seq<nat>, t: nat): nat {
    if queue == [] || queue[0] == t then 0 else 1 + Place(queue[1..], t)
  }

  lemma {:induction false} PlaceInLonger(queue: seq<nat>, t: nat, u: nat)
    requires t in queue
    ensures Place(queue + [u], t) == Place(queue, t)
  {
    if queue[0] != t {
      assert (queue + [u])[1..] == queue[1..] + [u];
      PlaceInLonger(queue[1..], t, u);
    }
  }

  lemma {:induction false} PlaceInShorter(queue: seq<nat>, t: nat, u: nat)
    requires t in queue && t != u
    ensures t in Without(queue, u) && Place(Without(queue, u), t) <= Place(queue, t)
  {
    if queue[0] == t {
      assert Without(queue, u)[0] == t;
    } else if queue[0] != u {
      PlaceInShorter(queue[1..], t, u);
      assert Without(queue, u)[1..] == Without(queue[1..], u);
    }
  }

  /** A step at which the lookup that holds a connection's reserved permit lets go of it. */
  predicate Returns(s: State, step: Step, c: nat) {
    && (step.ThreadEnds? || (step.GiveUp? && IsWaiting(s, step.lookup)) || (step.Start? && step.slot == Shared))
    && step.lookup in s.lookups && s.lookups[step.lookup].On(ReservedOf(c)) == Granted
  }

  ghost function ReturnsIn(s: State, steps: seq<Step>, c: nat): nat
    requires IsRun(s, steps)
    decreases |steps|
  {
    if steps == [] then 0
    else (if Returns(s, steps[0], c) then 1 else 0) + ReturnsIn(Apply(s, steps[0]), steps[1..], c)
  }

  /** What one step does to the queue for a reserved permit. */
  lemma QueueAfter(s: State, step: Step, c: nat)
    requires Conserved(s) && Enabled(s, step) && ReservedOf(c) in s.sems && s.sems[ReservedOf(c)].queue != []
    ensures var pool := ReservedOf(c); var queue := s.sems[pool].queue;
      && pool in Apply(s, step).sems
      && var later := Apply(s, step).sems[pool].queue;
      && (Returns(s, step, c) ==> later == queue[1..])
      && (!Returns(s, step, c) ==>
            || later == queue
            || (step.Ask? && later == queue + [step.lookup])
            || ((step.GiveUp? || step.Start?) && step.lookup in queue && later == Without(queue, step.lookup)))
  {
    hide Drop, DropAll;
    var pool := ReservedOf(c);
    assert SemOk(s, pool);
    match step
    case Open(_) =>
    case Close(_) =>
    case Begin(_, _) =>
    case Ask(_, _) =>
    case Start(t, slot) => StartSem(s, t, slot, pool);
    case GiveUp(t) =>
      if s.lookups[t].phase.Waiting? {
        DropAllSem(s, t, pool);
      }
    case ThreadEnds(t) =>
      DropAllSem(s, t, pool);
      assert s.lookups[t].Shaped();
  }

  /** A queued waiter that neither gives up nor starts on a shared slot is queued or granted after any step. */
  lemma QueuedOrGranted(s: State, step: Step, t: nat, c: nat)
    requires Conserved(s) && Enabled(s, step) && Queues(s, t, c) && step != GiveUp(t) && step != Start(t, Shared)
    ensures var q := Apply(s, step);
      t in q.lookups && q.lookups[t].connection == c && (Queues(q, t, c) || Enabled(q, Start(t, Reserved)))
  {
    hide SemOk, Drop, DropAll;
    assert s.lookups[t].Shaped() && IsWaiting(s, t);
    var pool := ReservedOf(c);
    match step
    case Open(_) =>
    case Close(_) =>
    case Begin(_, _) =>
    case Ask(_, _) =>
    case Start(u, slot) => StartOther(s, u, slot, t, pool);
    case GiveUp(u) => DropAllOther(s, u, t, pool);
    case ThreadEnds(u) => DropAllOther(s, u, t, pool);
  }

  /** One step: a waiter moves up by one at every return of the permit, and never falls back. */
  lemma MovesUp(s: State, step: Step, t: nat, c: nat)
    requires Conserved(s) && Enabled(s, step) && Queues(s, t, c) && Queues(Apply(s, step), t, c)
    requires step != GiveUp(t) && step != Start(t, Shared) && ReservedOf(c) in s.sems
    ensures ReservedOf(c) in Apply(s, step).sems
    ensures Place(Apply(s, step).sems[ReservedOf(c)].queue, t) + (if Returns(s, step, c) then 1 else 0)
         <= Place(s.sems[ReservedOf(c)].queue, t)
  {
    var pool := ReservedOf(c);
    var q := Apply(s, step);
    var queue := s.sems[pool].queue;
    assert t in queue by { assert SemOk(s, pool); }
    StepConserves(s, step);
    QueueAfter(s, step, c);
    hide Apply, Enabled, Returns;
    assert t in q.sems[pool].queue by { assert SemOk(q, pool); }
    if step.Ask? {
      PlaceInLonger(queue, t, step.lookup);
    } else if (step.GiveUp? || step.Start?) && step.lookup != t {
      PlaceInShorter(queue, t, step.lookup);
    }
    assert queue[0] == t ==> t !in queue[1..] by { assert SemOk(s, pool); }
    assert step.GiveUp? || step.Start? ==> step.lookup in queue ==> step.lookup != t || step == Start(t, Reserved);
  }

  /**
   First come, first served: a waiter with k earlier ones of its own connection has been handed the reserved
   permit by the time it has been let go of k + 1 times, unless it went away or got a shared slot before.
   */
  lemma {:induction false} ServedInTurn(s: State, steps: seq<Step>, t: nat, c: nat) returns (n: nat)
    requires Conserved(s) && IsRun(s, steps) && Queues(s, t, c) && ReservedOf(c) in s.sems
    requires GiveUp(t) !in steps && Start(t, Shared) !in steps
    requires ReturnsIn(s, steps, c) >= Place(s.sems[ReservedOf(c)].queue, t) + 1
    ensures n <= |steps| && IsRun(s, steps[..n]) && Enabled(After(s, steps[..n]), Start(t, Reserved))
    decreases |steps|
  {
    hide Apply, Enabled, Returns, SemOk;
    var step := steps[0];
    var q := Apply(s, step);
    StepConserves(s, step);
    QueuedOrGranted(s, step, t, c);
    if Queues(q, t, c) {
      MovesUp(s, step, t, c);
      n := ServedInTurn(q, steps[1..], t, c);
      n := n + 1;
      assert steps[..n][1..] == steps[1..][..n - 1];
    } else {
      n := 1;
      assert steps[..1][1..] == [];
    }
  }

  // ---------------------------------------------------------------- one poll

  /** What the race does next when polled: the reserved branch first, then the shared one as far as it gets. */
  function NextAction(l: Lookup, t: nat): Option<Step> {
    if l.reserved == Granted then Some(Start(t, Reserved))
    else if l.reserved == Unasked then Some(Ask(t, ReservedOf(l.connection)))
    else if l.burst == Unasked then Some(Ask(t, BurstOf(l.connection)))
    else if l.burst == Queued then None
    else if l.shared == Unasked then Some(Ask(t, SharedPool))
    else if l.shared == Queued then None
    else Some(Start(t, Shared))
  }

  function Unaskeds(l: Lookup): nat {
    (if l.reserved == Unasked then 1 else 0) + (if l.burst == Unasked then 1 else 0) + (if l.shared == Unasked then 1 else 0)
  }

  /** Everything one poll does, undisturbed. */
  function Poll(s: State, t: nat): seq<Step>
    requires Pollable(s, t)
    decreases Unaskeds(s.lookups[t])
  {
    match NextAction(s.lookups[t], t)
    case None => []
    case Some(step) => if step.Start? then [step] else [step] + Poll(Apply(s, step), t)
  }

  predicate Pollable(s: State, t: nat) {
    && IsWaiting(s, t) && SharedPool in s.sems
    && ReservedOf(s.lookups[t].connection) in s.sems && BurstOf(s.lookups[t].connection) in s.sems
  }

  /**
   A poll that leaves the lookup waiting leaves it in the queue for its reserved permit and in the queue for the
   next permit of the shared branch; a free reserved permit is taken before anything shared is touched.
   */
  lemma {:induction false} PollOutcome(s: State, t: nat)
    requires Conserved(s) && IsWaiting(s, t)
    ensures Pollable(s, t) && IsRun(s, Poll(s, t))
    ensures var q, l, c := After(s, Poll(s, t)), s.lookups[t], s.lookups[t].connection;
      && t in q.lookups && q.lookups[t].connection == c
      && (IsWaiting(q, t) ==>
            && q.lookups[t].reserved == Queued
            && (q.lookups[t].burst == Queued || (q.lookups[t].burst == Granted && q.lookups[t].shared == Queued)))
      && (l.reserved == Granted || (l.reserved == Unasked && Holders(s.lookups, ReservedOf(c)) == {}) ==>
            && HasThread(q, t, c, Reserved)
            && (l.burst == Unasked && l.shared == Unasked ==>
                  SharedPool in q.sems && q.sems[SharedPool] == s.sems[SharedPool]))
    decreases Unaskeds(s.lookups[t])
  {
    hide SemOk, Drop, Holders, AskFor, SetClaim, Lookup.Shaped;
    var l := s.lookups[t];
    match NextAction(l, t)
    case None =>
    case Some(step) =>
      var q := Apply(s, step);
      if step.Start? {
        assert [step][1..] == [];
        StartedHasThread(s, t, step.slot);
        StartSem(s, t, step.slot, SharedPool);
      } else {
        AskEffect(s, t, step.pool);
        StepConserves(s, step);
        PollOutcome(q, t);
        assert ([step] + Poll(q, t))[1..] == Poll(q, t);
        if l.reserved == Unasked {
          FreeReservedIsGranted(s, t);
        }
      }
  }

  lemma AskEffect(s: State, t: nat, pool: Pool)
    requires pool in s.sems && t in s.lookups
    ensures var q := AskFor(s, t, pool);
      && t in q.lookups && q.lookups[t] == s.lookups[t].With(pool, if s.sems[pool].free > 0 then Granted else Queued)
      && q.sems.Keys == s.sems.Keys && forall other :: other in s.sems && other != pool ==> q.sems[other] == s.sems[other]
  {
  }

  lemma StartedHasThread(s: State, t: nat, slot: Slot)
    requires Conserved(s) && Enabled(s, Start(t, slot))
    ensures HasThread(Apply(s, Start(t, slot)), t, s.lookups[t].connection, slot)
  {
    hide SemOk, Drop, Lookup.Shaped, Lookup.On;
    var c := s.lookups[t].connection;
    if slot == Reserved {
      DropStep(s, t, SharedPool);
      DropStep(Drop(s, t, SharedPool), t, BurstOf(c));
    } else {
      DropStep(s, t, ReservedOf(c));
    }
  }
}
