/** The threads that lookups take (src/net.rs): how many there can be, against the size of the pool they run on. */
module BlockingPool {
  import opened Resolver

  /** The connections the pool is sized to reserve a thread for. */
  function ReservedFor(maxConnections: nat): nat {
    if maxConnections == 0 || maxConnections > RESERVED_LOOKUP_CEILING then RESERVED_LOOKUP_CEILING else maxConnections
  }

  function BlockingPoolSize(maxConnections: nat): nat {
    ReservedFor(maxConnections) + SHARED_LOOKUPS + LOOKUP_FREE_THREADS
  }

  /** One thread per connection of the limit up to 1024, as many without a limit, and 128 + 64 more. */
  lemma PoolSizes(maxConnections: nat)
    ensures 1 <= maxConnections <= 1024 ==> ReservedFor(maxConnections) == maxConnections
    ensures maxConnections == 0 || maxConnections > 1024 ==> ReservedFor(maxConnections) == 1024
    ensures BlockingPoolSize(maxConnections) == ReservedFor(maxConnections) + 192
  {
  }

  /** Every lookup in the system resolver needs a thread. */
  ghost function Threads(s: State): set<nat> { set t | t in s.lookups && s.lookups[t].phase.Running? }

  ghost function ThreadsOn(s: State, slot: Slot): set<nat> {
    set t | t in s.lookups && s.lookups[t].phase.Running? && s.lookups[t].phase.slot == slot
  }

  ghost function ConnectionsOf(s: State, ts: set<nat>): set<nat>
    requires ts <= s.lookups.Keys
  {
    set t | t in ts :: s.lookups[t].connection
  }

  /** The connections, open or closed, whose reserved lookup runs. */
  ghost function Busy(s: State): set<nat> { ConnectionsOf(s, ThreadsOn(s, Reserved)) }

  lemma OneReservedThread(s: State, t: nat, u: nat)
    requires Conserved(s) && t in ThreadsOn(s, Reserved) && u in ThreadsOn(s, Reserved)
    requires s.lookups[t].connection == s.lookups[u].connection
    ensures t == u
  {
    var pool := ReservedOf(s.lookups[t].connection);
    assert SemOk(s, pool);
    var holders := Holders(s.lookups, pool);
    assert s.lookups[t].Shaped() && s.lookups[u].Shaped();
    SubsetSize({t, u}, holders);
  }

  lemma {:induction false} AsManyConnections(s: State, ts: set<nat>)
    requires Conserved(s) && ts <= ThreadsOn(s, Reserved)
    ensures |ConnectionsOf(s, ts)| == |ts|
    decreases |ts|
  {
    hide Conserved;
    if ts != {} {
      var t :| t in ts;
      var fewer := ts - {t};
      AsManyConnections(s, fewer);
      var c := s.lookups[t].connection;
      forall u | u in fewer ensures s.lookups[u].connection != c {
        if s.lookups[u].connection == c {
          OneReservedThread(s, t, u);
        }
      }
      assert ConnectionsOf(s, ts) == ConnectionsOf(s, fewer) + {c};
    }
  }

  /** How many threads lookups need: the shared ones, and one for each busy connection, open or closed. */
  lemma ThreadsCounted(s: State)
    requires Conserved(s)
    ensures |Threads(s)| == |ThreadsOn(s, Shared)| + |Busy(s) * s.open| + |Busy(s) - s.open|
    ensures |ThreadsOn(s, Shared)| <= 128 && |Busy(s) * s.open| <= |s.open|
  {
    assert SemOk(s, SharedPool);
    forall t | t in ThreadsOn(s, Shared) ensures t in Holders(s.lookups, SharedPool) {
      assert s.lookups[t].Shaped();
    }
    SubsetSize(ThreadsOn(s, Shared), Holders(s.lookups, SharedPool));
    SubsetSize(Busy(s) * s.open, s.open);
    AsManyConnections(s, ThreadsOn(s, Reserved));
    assert Threads(s) == ThreadsOn(s, Shared) + ThreadsOn(s, Reserved);
    assert Busy(s) == Busy(s) * s.open + (Busy(s) - s.open);
  }

  /**
   On every run: lookups need at most 128 threads, one for each open connection, and one for each closed
   connection whose reserved lookup still runs.
   */
  lemma ThreadBound(steps: seq<Step>)
    requires IsRun(START, steps)
    ensures var s := After(START, steps);
      |Threads(s)| <= 128 + |s.open| + |Busy(s) - s.open|
  {
    StartConserved();
    RunConserves(START, steps);
    ThreadsCounted(After(START, steps));
  }

  /**
   The threads kept clear of lookups stay clear exactly while the closed connections still in the resolver
   are no more than what open connections and the shared allowance leave unused.
   */
  lemma ClearExactlyWhenRoomIsLeft(s: State, maxConnections: nat)
    requires Conserved(s)
    ensures |Threads(s)| + 64 <= BlockingPoolSize(maxConnections) <==>
      |Busy(s) - s.open| <=
        (ReservedFor(maxConnections) - |Busy(s) * s.open|) + (128 - |ThreadsOn(s, Shared)|)
  {
    ThreadsCounted(s);
  }

  /** With the limit on open connections kept, and no closed one still in the resolver, they always are. */
  lemma ClearWithoutLeftovers(s: State, maxConnections: nat)
    requires Conserved(s) && |s.open| <= ReservedFor(maxConnections) && Busy(s) <= s.open
    ensures |Threads(s)| + 64 <= BlockingPoolSize(maxConnections)
  {
    ThreadsCounted(s);
    assert Busy(s) - s.open == {};
  }

  /** A run with at most one connection open at any moment. */
  ghost predicate OneAtATime(s: State, steps: seq<Step>)
    decreases |steps|
  {
    |s.open| <= 1 && (steps != [] ==> Enabled(s, steps[0]) && OneAtATime(Apply(s, steps[0]), steps[1..]))
  }

  lemma {:induction false} OneAtATimeIsRun(s: State, steps: seq<Step>)
    requires OneAtATime(s, steps)
    ensures IsRun(s, steps)
    decreases |steps|
  {
    hide Apply, Enabled;
    if steps != [] {
      OneAtATimeIsRun(Apply(s, steps[0]), steps[1..]);
    }
  }

  lemma {:induction false} RunsJoin(s: State, a: seq<Step>, b: seq<Step>)
    requires OneAtATime(s, a) && IsRun(s, a) && OneAtATime(After(s, a), b) && IsRun(After(s, a), b)
    ensures OneAtATime(s, a + b) && IsRun(s, a + b) && After(s, a + b) == After(After(s, a), b)
    decreases |a|
  {
    hide Apply, Enabled;
    if a == [] {
      assert a + b == b;
    } else {
      assert (a + b)[1..] == a[1..] + b;
      RunsJoin(Apply(s, a[0]), a[1..], b);
    }
  }

  /** A connection that opens, sends its reserved lookup to the resolver, gives up and closes. */
  function Visit(c: nat): seq<Step> {
    [Open(c), Begin(c, c), Ask(c, ReservedOf(c)), Start(c, Reserved), GiveUp(c), Close(c)]
  }

  ghost predicate UnusedFrom(s: State, n: nat) {
    && s.open == {} && (forall c :: n <= c ==> ReservedOf(c) !in s.sems && BurstOf(c) !in s.sems)
    && (forall t :: n <= t ==> t !in s.lookups)
  }

  /** A visit's state: its own semaphores, its place, and its one lookup. */
  ghost function During(s: State, c: nat, free: nat, open: set<nat>, claim: Claim, phase: Phase): State {
    State(s.sems[ReservedOf(c) := Semaphore(free, [])][BurstOf(c) := Semaphore(BURST_LOOKUPS, [])], open,
          s.lookups[c := Lookup(c, claim, Unasked, Unasked, phase)])
  }

  ghost function Visited(s: State, c: nat): State { During(s, c, 0, {}, Granted, Running(Reserved, true)) }

  lemma VisitBegins(s: State, c: nat)
    requires UnusedFrom(s, c)
    ensures Enabled(s, Open(c)) && Apply(s, Open(c)).open == {c} && Enabled(Apply(s, Open(c)), Begin(c, c))
    ensures Apply(Apply(s, Open(c)), Begin(c, c)) == During(s, c, 1, {c}, Unasked, Waiting)
  {
  }

  lemma VisitAsks(s: State, c: nat)
    ensures var q := During(s, c, 1, {c}, Unasked, Waiting);
      && Enabled(q, Ask(c, ReservedOf(c)))
      && Apply(q, Ask(c, ReservedOf(c))) == During(s, c, 0, {c}, Granted, Waiting)
  {
    var q := Apply(During(s, c, 1, {c}, Unasked, Waiting), Ask(c, ReservedOf(c)));
    assert q.sems == During(s, c, 0, {c}, Granted, Waiting).sems;
    assert q.lookups == During(s, c, 0, {c}, Granted, Waiting).lookups;
  }

  lemma VisitStarts(s: State, c: nat)
    ensures var q := During(s, c, 0, {c}, Granted, Waiting);
      && Enabled(q, Start(c, Reserved))
      && Apply(q, Start(c, Reserved)) == During(s, c, 0, {c}, Granted, Running(Reserved, false))
  {
    var q := During(s, c, 0, {c}, Granted, Waiting);
    assert Drop(Drop(q, c, SharedPool), c, BurstOf(c)) == q;
  }

  lemma VisitEnds(s: State, c: nat)
    ensures var q, r := During(s, c, 0, {c}, Granted, Running(Reserved, false)), During(s, c, 0, {c}, Granted, Running(Reserved, true));
      && Enabled(q, GiveUp(c)) && Apply(q, GiveUp(c)) == r
      && Enabled(r, Close(c)) && Apply(r, Close(c)) == Visited(s, c)
  {
  }

  lemma OneVisit(s: State, c: nat)
    requires UnusedFrom(s, c)
    ensures OneAtATime(s, Visit(c)) && IsRun(s, Visit(c)) && After(s, Visit(c)) == Visited(s, c)
  {
    VisitBegins(s, c);
    VisitAsks(s, c);
    VisitStarts(s, c);
    VisitEnds(s, c);
    hide Apply, Enabled, IsRun, OneAtATime, During;
    DuringOpen(s, c);
    var s1 := Apply(s, Open(c));
    var s2 := Apply(s1, Begin(c, c));
    var s3 := Apply(s2, Ask(c, ReservedOf(c)));
    var s4 := Apply(s3, Start(c, Reserved));
    var s5 := Apply(s4, GiveUp(c));
    var close: seq<Step> := [Close(c)] + [];
    var giveUp := [GiveUp(c)] + close;
    var start := [Start(c, Reserved)] + giveUp;
    var ask := [Ask(c, ReservedOf(c))] + start;
    var begin := [Begin(c, c)] + ask;
    assert Visit(c) == [Open(c)] + begin;
    NoSteps(Visited(s, c));
    Unroll(s5, Close(c), []);
    Unroll(s4, GiveUp(c), close);
    Unroll(s3, Start(c, Reserved), giveUp);
    Unroll(s2, Ask(c, ReservedOf(c)), start);
    Unroll(s1, Begin(c, c), ask);
    Unroll(s, Open(c), begin);
  }

  lemma DuringOpen(s: State, c: nat)
    ensures forall free: nat, open, claim, phase :: During(s, c, free, open, claim, phase).open == open
  {
  }

  lemma NoSteps(s: State)
    requires |s.open| <= 1
    ensures OneAtATime(s, []) && IsRun(s, []) && After(s, []) == s
  {
  }

  lemma Unroll(s: State, step: Step, rest: seq<Step>)
    requires Enabled(s, step) && |s.open| <= 1
    ensures OneAtATime(Apply(s, step), rest) ==> OneAtATime(s, [step] + rest)
    ensures IsRun(Apply(s, step), rest) ==> IsRun(s, [step] + rest) && After(s, [step] + rest) == After(Apply(s, step), rest)
  {
    hide Apply, Enabled;
    assert ([step] + rest)[1..] == rest;
  }

  /** Visits one after another leave a thread each behind. */
  lemma {:induction false} Visits(n: nat) returns (steps: seq<Step>)
    ensures OneAtATime(START, steps) && IsRun(START, steps)
    ensures UnusedFrom(After(START, steps), n) && |Threads(After(START, steps))| == n
  {
    hide Apply, Enabled;
    if n == 0 {
      steps := [];
      assert Threads(START) == {};
    } else {
      hide OneAtATime, IsRun, UnusedFrom, Threads, Visit, Visited;
      var before := Visits(n - 1);
      var s := After(START, before);
      OneVisit(s, n - 1);
      RunsJoin(START, before, Visit(n - 1));
      steps := before + Visit(n - 1);
      VisitLeavesThread(s, n - 1);
    }
  }

  lemma VisitLeavesThread(s: State, c: nat)
    requires UnusedFrom(s, c)
    ensures UnusedFrom(Visited(s, c), c + 1) && |Threads(Visited(s, c))| == |Threads(s)| + 1
  {
    assert Threads(Visited(s, c)) == Threads(s) + {c};
  }

  /**
   So the size of the pool is no bound by itself: whatever the limit on connections, some run never has
   more than one open and still needs more threads than the whole pool has.
   */
  lemma PoolCanBeOutgrown(maxConnections: nat) returns (steps: seq<Step>)
    ensures OneAtATime(START, steps) && IsRun(START, steps)
    ensures |Threads(After(START, steps))| > BlockingPoolSize(maxConnections)
  {
    steps := Visits(BlockingPoolSize(maxConnections) + 1);
  }
}
