/**
 The name-lookup budget (src/net.rs): a reserved slot and a burst limit per connection, and an
 allowance shared by all. A lookup races for its connection's reserved slot and, through a burst
 permit, for a shared one; its caller may give up at any time, but a thread in the system resolver
 keeps its slot until it ends. The protocol is a state machine over single movements of permits
 between first-come, first-served semaphores.
 */
module Resolver {
  import opened Bytes

  const SHARED_LOOKUPS: nat := 128
  const BURST_LOOKUPS: nat := 32
  const LOOKUP_FREE_THREADS: nat := 64
  const RESERVED_LOOKUP_CEILING: nat := 1024

  /** One semaphore: the server's, or one of a connection's two. */
  datatype Pool = SharedPool | ReservedOf(connection: nat) | BurstOf(connection: nat)

  /** Free permits, and the lookups waiting for one in the order they asked. */
  datatype Semaphore = Semaphore(free: nat, queue: seq<nat>)

  function Limit(pool: Pool): nat {
    match pool case SharedPool => SHARED_LOOKUPS case ReservedOf(_) => 1 case BurstOf(_) => BURST_LOOKUPS
  }

  /** Where a lookup stands with a semaphore; a permit is granted before the waiter is next polled. */
  datatype Claim = Unasked | Queued | Granted

  datatype Slot = Reserved | Shared

  datatype Phase = Waiting | Running(slot: Slot, abandoned: bool)

  datatype Lookup = Lookup(connection: nat, reserved: Claim, burst: Claim, shared: Claim, phase: Phase)
  {
    predicate May(pool: Pool) { pool.SharedPool? || pool.connection == connection }

    function On(pool: Pool): Claim {
      if !May(pool) then Unasked else
      match pool case SharedPool => shared case ReservedOf(_) => reserved case BurstOf(_) => burst
    }

    function With(pool: Pool, claim: Claim): Lookup {
      if !May(pool) then this else
      match pool
      case SharedPool => this.(shared := claim)
      case ReservedOf(_) => this.(reserved := claim)
      case BurstOf(_) => this.(burst := claim)
    }

    /** The burst permit comes first, and a thread holds its own slot and nothing else. */
    predicate Shaped() {
      match phase
      case Waiting => shared != Unasked ==> burst == Granted
      case Running(Reserved, _) => reserved == Granted && burst == shared == Unasked
      case Running(Shared, _) => reserved == Unasked && burst == shared == Granted
    }
  }

  /** The semaphores, the connections that count against the server's limit, and every lookup not yet over. */
  datatype State = State(sems: map<Pool, Semaphore>, open: set<nat>, lookups: map<nat, Lookup>)

  const START: State := State(map[SharedPool := Semaphore(SHARED_LOOKUPS, [])], {}, map[])

  /**
   Closing a connection frees its place on the server and nothing else: its request tasks are detached,
   so a waiter goes when its own caller gives up, and a thread keeps its slot.
   */
  datatype Step =
    | Open(connection: nat)
    | Close(connection: nat)
    | Begin(lookup: nat, connection: nat)
    | Ask(lookup: nat, pool: Pool)
    | Start(lookup: nat, slot: Slot)
    | GiveUp(lookup: nat)
    | ThreadEnds(lookup: nat)

  // ---------------------------------------------------------------- the steps

  function SetClaim(lookups: map<nat, Lookup>, t: nat, pool: Pool, claim: Claim): (r: map<nat, Lookup>)
    ensures r.Keys == lookups.Keys
  {
    if t in lookups then lookups[t := lookups[t].With(pool, claim)] else lookups
  }

  function SetPhase(lookups: map<nat, Lookup>, t: nat, phase: Phase): map<nat, Lookup> {
    if t in lookups then lookups[t := lookups[t].(phase := phase)] else lookups
  }

  function Without(queue: seq<nat>, t: nat): seq<nat> {
    if queue == [] then [] else if queue[0] == t then queue[1..] else [queue[0]] + Without(queue[1..], t)
  }

  /** Takes a free permit or joins the queue. */
  function AskFor(s: State, t: nat, pool: Pool): State
    requires pool in s.sems
  {
    var m := s.sems[pool];
    if m.free > 0 then
      s.(sems := s.sems[pool := m.(free := m.free - 1)], lookups := SetClaim(s.lookups, t, pool, Granted))
    else
      s.(sems := s.sems[pool := m.(queue := m.queue + [t])], lookups := SetClaim(s.lookups, t, pool, Queued))
  }

  /** Leaves the queue, or gives the permit to the oldest waiter, or back. */
  function Drop(s: State, t: nat, pool: Pool): (r: State)
    ensures r.lookups.Keys == s.lookups.Keys && r.sems.Keys == s.sems.Keys && r.open == s.open
  {
    if t !in s.lookups || pool !in s.sems then s else
    var m := s.sems[pool];
    var without := SetClaim(s.lookups, t, pool, Unasked);
    match s.lookups[t].On(pool)
    case Unasked => s
    case Queued => s.(sems := s.sems[pool := m.(queue := Without(m.queue, t))], lookups := without)
    case Granted =>
      if m.queue == [] then s.(sems := s.sems[pool := m.(free := m.free + 1)], lookups := without)
      else s.(sems := s.sems[pool := m.(queue := m.queue[1..])],
              lookups := SetClaim(without, m.queue[0], pool, Granted))
  }

  /** Everything a lookup holds or waits for. */
  function DropAll(s: State, t: nat, c: nat): (r: State)
    ensures r.lookups.Keys == s.lookups.Keys && r.sems.Keys == s.sems.Keys && r.open == s.open
  {
    Drop(Drop(Drop(s, t, SharedPool), t, BurstOf(c)), t, ReservedOf(c))
  }

  predicate IsWaiting(s: State, t: nat) { t in s.lookups && s.lookups[t].phase.Waiting? }

  predicate Enabled(s: State, step: Step) {
    match step
    case Open(c) => ReservedOf(c) !in s.sems
    case Close(c) => c in s.open
    case Begin(t, c) => t !in s.lookups && ReservedOf(c) in s.sems
    case Ask(t, pool) =>
      && IsWaiting(s, t) && pool in s.sems && s.lookups[t].May(pool) && s.lookups[t].On(pool) == Unasked
      && (pool.BurstOf? ==> s.lookups[t].reserved != Unasked)
      && (pool.SharedPool? ==> s.lookups[t].burst == Granted)
    case Start(t, slot) =>
      IsWaiting(s, t) && (if slot == Reserved then s.lookups[t].reserved else s.lookups[t].shared) == Granted
    case GiveUp(t) => t in s.lookups && (s.lookups[t].phase.Running? ==> !s.lookups[t].phase.abandoned)
    case ThreadEnds(t) => t in s.lookups && s.lookups[t].phase.Running?
  }

  function Apply(s: State, step: Step): State
    requires Enabled(s, step)
  {
    match step
    case Open(c) =>
      State(s.sems[ReservedOf(c) := Semaphore(1, [])][BurstOf(c) := Semaphore(BURST_LOOKUPS, [])], s.open + {c}, s.lookups)
    case Close(c) => s.(open := s.open - {c})
    case Begin(t, c) => s.(lookups := s.lookups[t := Lookup(c, Unasked, Unasked, Unasked, Waiting)])
    case Ask(t, pool) => AskFor(s, t, pool)
    case Start(t, slot) =>
      // Winning the race drops the other branch and whatever it holds.
      var c := s.lookups[t].connection;
      var q := if slot == Reserved then Drop(Drop(s, t, SharedPool), t, BurstOf(c)) else Drop(s, t, ReservedOf(c));
      q.(lookups := SetPhase(q.lookups, t, Running(slot, false)))
    case GiveUp(t) =>
      var l := s.lookups[t];
      if l.phase.Running? then s.(lookups := SetPhase(s.lookups, t, Running(l.phase.slot, true)))
      else var q := DropAll(s, t, l.connection); q.(lookups := q.lookups - {t})
    case ThreadEnds(t) =>
      var q := DropAll(s, t, s.lookups[t].connection);
      q.(lookups := q.lookups - {t})
  }

  // ---------------------------------------------------------------- the invariant

  ghost function Holders(lookups: map<nat, Lookup>, pool: Pool): set<nat> {
    set t | t in lookups && lookups[t].On(pool) == Granted
  }

  ghost predicate Distinct(queue: seq<nat>) {
    forall i, j :: 0 <= i < j < |queue| ==> queue[i] != queue[j]
  }

  /** Every permit is free or held, none is free while someone waits, and the queue is who waits. */
  ghost predicate SemOk(s: State, pool: Pool)
    requires pool in s.sems
  {
    var m := s.sems[pool];
    && m.free + |Holders(s.lookups, pool)| == Limit(pool)
    && (m.free > 0 ==> m.queue == [])
    && Distinct(m.queue)
    && (forall t :: t in m.queue <==> t in s.lookups && s.lookups[t].On(pool) == Queued)
  }

  ghost predicate Conserved(s: State) {
    && SharedPool in s.sems
    && (forall c :: ReservedOf(c) in s.sems <==> BurstOf(c) in s.sems)
    && (forall c :: c in s.open ==> ReservedOf(c) in s.sems)
    && (forall t :: t in s.lookups ==> ReservedOf(s.lookups[t].connection) in s.sems && s.lookups[t].Shaped())
    && (forall pool {:trigger SemOk(s, pool)} :: pool in s.sems ==> SemOk(s, pool))
  }

  lemma OtherClaims(lookups: map<nat, Lookup>, t: nat, pool: Pool, claim: Claim, other: Pool)
    requires pool != other
    ensures forall u :: u in lookups ==> SetClaim(lookups, t, pool, claim)[u].On(other) == lookups[u].On(other)
    ensures Holders(SetClaim(lookups, t, pool, claim), other) == Holders(lookups, other)
  {
  }

  lemma OwnClaim(lookups: map<nat, Lookup>, t: nat, pool: Pool, claim: Claim)
    requires t in lookups && lookups[t].May(pool)
    ensures var r := SetClaim(lookups, t, pool, claim);
      && (forall u :: u in lookups ==> r[u].On(pool) == if u == t then claim else lookups[u].On(pool))
      && Holders(r, pool) == if claim == Granted then Holders(lookups, pool) + {t} else Holders(lookups, pool) - {t}
  {
  }

  lemma AskKeeps(s: State, t: nat, pool: Pool, other: Pool)
    requires pool in s.sems && other in s.sems && SemOk(s, other)
    requires t in s.lookups && s.lookups[t].May(pool) && s.lookups[t].On(pool) == Unasked
    ensures SemOk(AskFor(s, t, pool), other)
  {
    hide Holders, Lookup.On, Lookup.With, SetClaim, SemOk;
    var m := s.sems[pool];
    if pool != other {
      OtherClaims(s.lookups, t, pool, if m.free > 0 then Granted else Queued, other);
      SameClaims(s, AskFor(s, t, pool), other);
    } else if m.free > 0 {
      TakesFree(s, t, pool);
    } else {
      QueueGrows(s, t, pool);
    }
  }

  lemma SameClaims(s: State, q: State, pool: Pool)
    requires pool in s.sems && pool in q.sems && q.sems[pool] == s.sems[pool] && q.lookups.Keys == s.lookups.Keys
    requires forall u :: u in s.lookups ==> q.lookups[u].On(pool) == s.lookups[u].On(pool)
    requires SemOk(s, pool)
    ensures SemOk(q, pool)
  {
    assert Holders(q.lookups, pool) == Holders(s.lookups, pool);
    hide Holders, Distinct, Lookup.On;
  }

  lemma TakesFree(s: State, t: nat, pool: Pool)
    requires pool in s.sems && SemOk(s, pool) && s.sems[pool].free > 0
    requires t in s.lookups && s.lookups[t].May(pool) && s.lookups[t].On(pool) == Unasked
    ensures SemOk(AskFor(s, t, pool), pool)
  {
    hide Holders, Lookup.On, Lookup.With, SetClaim, SemOk, Limit;
    OwnClaim(s.lookups, t, pool, Granted);
    NotHolder(s.lookups, t, pool);
    UnpackSem(s, pool);
    PackSem(AskFor(s, t, pool), pool);
  }

  lemma QueueGrows(s: State, t: nat, pool: Pool)
    requires pool in s.sems && SemOk(s, pool) && s.sems[pool].free == 0
    requires t in s.lookups && s.lookups[t].May(pool) && s.lookups[t].On(pool) == Unasked
    ensures SemOk(AskFor(s, t, pool), pool)
  {
    hide Holders, Lookup.On, Lookup.With, SetClaim, SemOk;
    var m, q := s.sems[pool], AskFor(s, t, pool);
    OwnClaim(s.lookups, t, pool, Queued);
    NotHolder(s.lookups, t, pool);
    UnpackSem(s, pool);
    var holders := Holders(s.lookups, pool);
    assert holders - {t} == holders;
    assert t !in m.queue;
    assert Distinct(m.queue + [t]);
    PackSem(q, pool);
  }

  /** The parts of a semaphore's order, one by one. */
  ghost predicate QueueIsWhoWaits(s: State, pool: Pool)
    requires pool in s.sems
  {
    forall t :: t in s.sems[pool].queue <==> t in s.lookups && s.lookups[t].On(pool) == Queued
  }

  lemma UnpackSem(s: State, pool: Pool)
    requires pool in s.sems && SemOk(s, pool)
    ensures s.sems[pool].free + |Holders(s.lookups, pool)| == Limit(pool)
    ensures s.sems[pool].free > 0 ==> s.sems[pool].queue == []
    ensures Distinct(s.sems[pool].queue) && QueueIsWhoWaits(s, pool)
  {
    hide Holders, Distinct;
  }

  lemma PackSem(s: State, pool: Pool)
    requires pool in s.sems && s.sems[pool].free + |Holders(s.lookups, pool)| == Limit(pool)
    requires s.sems[pool].free > 0 ==> s.sems[pool].queue == []
    requires Distinct(s.sems[pool].queue) && QueueIsWhoWaits(s, pool)
    ensures SemOk(s, pool)
  {
    hide Holders, Distinct;
  }

  lemma NotHolder(lookups: map<nat, Lookup>, t: nat, pool: Pool)
    requires t in lookups
    ensures t in Holders(lookups, pool) <==> lookups[t].On(pool) == Granted
  {
  }

  lemma MayAsk(l: Lookup, pool: Pool)
    ensures l.On(pool) != Unasked ==> l.May(pool)
  {
  }

  lemma {:induction false} WithoutOne(queue: seq<nat>, t: nat)
    requires Distinct(queue) && t in queue
    ensures Distinct(Without(queue, t)) && |Without(queue, t)| == |queue| - 1
    ensures forall u :: u in Without(queue, t) <==> u in queue && u != t
  {
    var rest := queue[1..];
    assert queue == [queue[0]] + rest;
    assert forall u :: u in queue <==> u == queue[0] || u in rest;
    if queue[0] != t {
      WithoutOne(rest, t);
      var shorter := Without(rest, t);
      assert Without(queue, t) == [queue[0]] + shorter;
      assert queue[0] !in rest;
      assert forall i :: 0 <= i < |shorter| ==> shorter[i] in shorter;
    }
  }

  /** Dropping a claim: the lookup has none on that semaphore any more, and every semaphore stays in order. */
  lemma DropKeeps(s: State, t: nat, pool: Pool, other: Pool)
    requires pool in s.sems && other in s.sems && SemOk(s, pool) && SemOk(s, other) && t in s.lookups
    ensures SemOk(Drop(s, t, pool), other)
  {
    hide Holders, Lookup.On, Lookup.With, SetClaim, Without;
    var m, claim := s.sems[pool], s.lookups[t].On(pool);
    MayAsk(s.lookups[t], pool);
    var without := SetClaim(s.lookups, t, pool, Unasked);
    if claim == Unasked {
    } else if pool != other {
      OtherClaims(s.lookups, t, pool, Unasked, other);
      if claim == Granted && m.queue != [] {
        OtherClaims(without, m.queue[0], pool, Granted, other);
      }
    } else {
      OwnClaim(s.lookups, t, pool, Unasked);
      NotHolder(s.lookups, t, pool);
      if claim == Queued {
        WithoutOne(m.queue, t);
      } else if m.queue != [] {
        HandoverKeeps(s, t, pool);
      }
    }
  }

  lemma HandoverKeeps(s: State, t: nat, pool: Pool)
    requires pool in s.sems && SemOk(s, pool) && t in s.lookups && s.lookups[t].On(pool) == Granted
    requires s.sems[pool].queue != []
    ensures SemOk(Drop(s, t, pool), pool)
  {
    hide Holders, Lookup.On, Lookup.With, SetClaim, SemOk, Limit, Distinct;
    var queue, q := s.sems[pool].queue, Drop(s, t, pool);
    UnpackSem(s, pool);
    assert queue[0] in queue;
    PassesOn(s.lookups, t, queue[0], pool);
    TailOf(queue);
    PackSem(q, pool);
  }

  lemma TailOf(queue: seq<nat>)
    requires queue != [] && Distinct(queue)
    ensures Distinct(queue[1..]) && forall u :: u in queue[1..] <==> u in queue && u != queue[0]
  {
    assert queue == [queue[0]] + queue[1..];
  }

  /** A permit moves from its holder to the head of the queue, and no other claim moves. */
  lemma PassesOn(lookups: map<nat, Lookup>, t: nat, head: nat, pool: Pool)
    requires t in lookups && head in lookups && lookups[t].On(pool) == Granted && lookups[head].On(pool) == Queued
    ensures var r := SetClaim(SetClaim(lookups, t, pool, Unasked), head, pool, Granted);
      && (forall u :: u in lookups ==>
            r[u].On(pool) == if u == head then Granted else if u == t then Unasked else lookups[u].On(pool))
      && |Holders(r, pool)| == |Holders(lookups, pool)|
  {
    hide Holders, Lookup.On, Lookup.With, SetClaim;
    var without := SetClaim(lookups, t, pool, Unasked);
    MayAsk(lookups[t], pool);
    OwnClaim(lookups, t, pool, Unasked);
    NotHolder(lookups, t, pool);
    MayAsk(without[head], pool);
    OwnClaim(without, head, pool, Granted);
    NotHolder(without, head, pool);
  }

  /** What dropping a claim does to the lookups: its own claim, and the claim of the waiter it lets in. */
  lemma DropLookups(s: State, t: nat, pool: Pool, u: nat)
    requires pool in s.sems && SemOk(s, pool) && t in s.lookups && u in s.lookups
    ensures var l, r := s.lookups[u], Drop(s, t, pool).lookups[u];
      && r.connection == l.connection && r.phase == l.phase
      && (u == t ==> r == l.With(pool, Unasked))
      && (u != t && l.Shaped() ==> r.Shaped())
      && (u != t ==> r == l || (l.On(pool) == Queued && r == l.With(pool, Granted)))
  {
    var m := s.sems[pool];
    if s.lookups[t].On(pool) == Granted && m.queue != [] {
      assert m.queue[0] in m.queue;
    }
  }

  lemma RemoveKeeps(s: State, t: nat, pool: Pool)
    requires pool in s.sems && SemOk(s, pool) && t in s.lookups && s.lookups[t].On(pool) == Unasked
    ensures SemOk(s.(lookups := s.lookups - {t}), pool)
  {
    assert Holders(s.lookups - {t}, pool) == Holders(s.lookups, pool);
  }

  lemma PhaseKeeps(s: State, t: nat, phase: Phase, pool: Pool)
    requires pool in s.sems && SemOk(s, pool)
    ensures SemOk(s.(lookups := SetPhase(s.lookups, t, phase)), pool)
  {
    assert Holders(SetPhase(s.lookups, t, phase), pool) == Holders(s.lookups, pool);
  }

  /** All is in order, except that one lookup, on its way to another phase, may have any claims. */
  ghost predicate ConservedBut(s: State, t: nat) {
    && SharedPool in s.sems
    && (forall c :: ReservedOf(c) in s.sems <==> BurstOf(c) in s.sems)
    && (forall c :: c in s.open ==> ReservedOf(c) in s.sems)
    && (forall u :: u in s.lookups ==> ReservedOf(s.lookups[u].connection) in s.sems && (u != t ==> s.lookups[u].Shaped()))
    && (forall pool {:trigger SemOk(s, pool)} :: pool in s.sems ==> SemOk(s, pool))
  }

  lemma DropStep(s: State, t: nat, pool: Pool)
    requires ConservedBut(s, t) && t in s.lookups && pool in s.sems
    ensures ConservedBut(Drop(s, t, pool), t)
    ensures Drop(s, t, pool).lookups[t] == s.lookups[t].With(pool, Unasked)
  {
    hide SemOk, Lookup.Shaped, Lookup.With, Lookup.On;
    var q := Drop(s, t, pool);
    hide Drop;
    forall other | other in q.sems ensures SemOk(q, other) {
      DropKeeps(s, t, pool, other);
    }
    forall u | u in q.lookups
      ensures ReservedOf(q.lookups[u].connection) in q.sems && (u != t ==> q.lookups[u].Shaped())
    {
      DropLookups(s, t, pool, u);
    }
    DropLookups(s, t, pool, t);
  }

  lemma DropAllStep(s: State, t: nat)
    requires ConservedBut(s, t) && t in s.lookups
    ensures var c := s.lookups[t].connection; var q := DropAll(s, t, c);
      ConservedBut(q, t) && q.lookups[t] == s.lookups[t].(reserved := Unasked, burst := Unasked, shared := Unasked)
  {
    hide SemOk, Drop, Lookup.Shaped, Lookup.On;
    var c := s.lookups[t].connection;
    DropStep(s, t, SharedPool);
    var a := Drop(s, t, SharedPool);
    DropStep(a, t, BurstOf(c));
    DropStep(Drop(a, t, BurstOf(c)), t, ReservedOf(c));
  }

  /** A lookup that has dropped everything can go. */
  lemma GoneKeeps(s: State, t: nat)
    requires ConservedBut(s, t) && t in s.lookups
    ensures var q := DropAll(s, t, s.lookups[t].connection); Conserved(q.(lookups := q.lookups - {t}))
  {
    hide SemOk, DropAll;
    DropAllStep(s, t);
    var q := DropAll(s, t, s.lookups[t].connection);
    forall pool | pool in q.sems ensures SemOk(q.(lookups := q.lookups - {t}), pool) {
      RemoveKeeps(q, t, pool);
    }
  }

  /** A lookup that has the claims its new phase calls for. */
  lemma EnterPhase(s: State, t: nat, phase: Phase)
    requires ConservedBut(s, t) && t in s.lookups && s.lookups[t].(phase := phase).Shaped()
    ensures Conserved(s.(lookups := SetPhase(s.lookups, t, phase)))
  {
    hide SemOk;
    var q := s.(lookups := SetPhase(s.lookups, t, phase));
    forall pool | pool in q.sems ensures SemOk(q, pool) {
      PhaseKeeps(s, t, phase, pool);
    }
  }

  lemma StartKeeps(s: State, t: nat, slot: Slot)
    requires Conserved(s) && Enabled(s, Start(t, slot))
    ensures Conserved(Apply(s, Start(t, slot)))
  {
    hide SemOk, Drop;
    var c := s.lookups[t].connection;
    if slot == Reserved {
      DropStep(s, t, SharedPool);
      DropStep(Drop(s, t, SharedPool), t, BurstOf(c));
      EnterPhase(Drop(Drop(s, t, SharedPool), t, BurstOf(c)), t, Running(Reserved, false));
    } else {
      DropStep(s, t, ReservedOf(c));
      EnterPhase(Drop(s, t, ReservedOf(c)), t, Running(Shared, false));
    }
  }

  lemma OpenKeeps(s: State, c: nat)
    requires Conserved(s) && Enabled(s, Open(c))
    ensures Conserved(Apply(s, Open(c)))
  {
    hide SemOk;
    var q := Apply(s, Open(c));
    forall pool | pool in q.sems ensures SemOk(q, pool) {
      if pool in s.sems {
        SameSem(s, q, pool);
      } else {
        FreshSem(s, q, pool, c);
      }
    }
  }

  lemma SameSem(s: State, q: State, pool: Pool)
    requires pool in s.sems && pool in q.sems && SemOk(s, pool) && q.sems[pool] == s.sems[pool] && q.lookups == s.lookups
    ensures SemOk(q, pool)
  {
  }

  lemma FreshSem(s: State, q: State, pool: Pool, c: nat)
    requires Conserved(s) && ReservedOf(c) !in s.sems && q.lookups == s.lookups && (pool == ReservedOf(c) || pool == BurstOf(c))
    requires pool in q.sems && q.sems[pool] == Semaphore(Limit(pool), [])
    ensures SemOk(q, pool)
  {
    hide SemOk;
    assert forall t :: t in s.lookups ==> s.lookups[t].connection != c;
    NobodyAsks(q, pool);
  }

  lemma NobodyAsks(q: State, pool: Pool)
    requires pool in q.sems && q.sems[pool] == Semaphore(Limit(pool), [])
    requires forall t :: t in q.lookups ==> q.lookups[t].On(pool) == Unasked
    ensures SemOk(q, pool)
  {
    assert Holders(q.lookups, pool) == {};
  }

  lemma NewLookup(s: State, t: nat, c: nat, pool: Pool)
    requires pool in s.sems && SemOk(s, pool) && t !in s.lookups
    ensures SemOk(s.(lookups := s.lookups[t := Lookup(c, Unasked, Unasked, Unasked, Waiting)]), pool)
  {
    var q := s.(lookups := s.lookups[t := Lookup(c, Unasked, Unasked, Unasked, Waiting)]);
    assert Holders(q.lookups, pool) == Holders(s.lookups, pool);
  }

  lemma BeginKeeps(s: State, t: nat, c: nat)
    requires Conserved(s) && Enabled(s, Begin(t, c))
    ensures Conserved(Apply(s, Begin(t, c)))
  {
    hide SemOk;
    var q := Apply(s, Begin(t, c));
    forall pool | pool in q.sems ensures SemOk(q, pool) {
      NewLookup(s, t, c, pool);
    }
  }

  lemma AskKeepsAll(s: State, t: nat, pool: Pool)
    requires Conserved(s) && Enabled(s, Ask(t, pool))
    ensures Conserved(Apply(s, Ask(t, pool)))
  {
    hide SemOk;
    forall other | other in s.sems ensures SemOk(AskFor(s, t, pool), other) {
      AskKeeps(s, t, pool, other);
    }
  }

  lemma CloseKeeps(s: State, c: nat)
    requires Conserved(s)
    ensures Conserved(s.(open := s.open - {c}))
  {
    hide SemOk;
    forall pool | pool in s.sems ensures SemOk(s.(open := s.open - {c}), pool) {
      SameSem(s, s.(open := s.open - {c}), pool);
    }
  }

  /** Every step of every lookup and connection keeps all semaphores in order. */
  lemma StepConserves(s: State, step: Step)
    requires Conserved(s) && Enabled(s, step)
    ensures Conserved(Apply(s, step))
  {
    hide SemOk, Drop, DropAll, AskFor;
    match step
    case Open(c) => OpenKeeps(s, c);
    case Close(c) => CloseKeeps(s, c);
    case Begin(t, c) => BeginKeeps(s, t, c);
    case Ask(t, pool) => AskKeepsAll(s, t, pool);
    case Start(t, slot) => StartKeeps(s, t, slot);
    case GiveUp(t) =>
      if s.lookups[t].phase.Running? {
        EnterPhase(s, t, Running(s.lookups[t].phase.slot, true));
      } else {
        GoneKeeps(s, t);
      }
    case ThreadEnds(t) => GoneKeeps(s, t);
  }

  // ---------------------------------------------------------------- every interleaving

  /** A run: each step enabled where it is taken. */
  ghost predicate IsRun(s: State, steps: seq<Step>)
    decreases |steps|
  {
    steps == [] || (Enabled(s, steps[0]) && IsRun(Apply(s, steps[0]), steps[1..]))
  }

  function After(s: State, steps: seq<Step>): State
    requires IsRun(s, steps)
    decreases |steps|
  {
    if steps == [] then s else After(Apply(s, steps[0]), steps[1..])
  }

  lemma StartConserved()
    ensures Conserved(START)
  {
    assert Holders(START.lookups, SharedPool) == {};
  }

  lemma {:induction false} RunConserves(s: State, steps: seq<Step>)
    requires Conserved(s) && IsRun(s, steps)
    ensures Conserved(After(s, steps))
    decreases |steps|
  {
    hide Conserved, Enabled, Apply;
    if steps != [] {
      StepConserves(s, steps[0]);
      RunConserves(Apply(s, steps[0]), steps[1..]);
    }
  }

  /**
   On every interleaving from the start: shared permits held and free are 128 in all; a connection, open or
   closed, has one reserved and 32 burst permits, each held or free; and no permit is free while a lookup waits for it.
   */
  lemma PermitsConserved(steps: seq<Step>, pool: Pool)
    requires IsRun(START, steps) && pool in After(START, steps).sems
    ensures var s := After(START, steps);
      && s.sems[pool].free + |Holders(s.lookups, pool)| ==
           (match pool case SharedPool => 128 case ReservedOf(_) => 1 case BurstOf(_) => 32)
      && (forall t :: t in s.lookups && s.lookups[t].On(pool) == Queued ==> s.sems[pool].free == 0)
  {
    hide Holders;
    StartConserved();
    RunConserves(START, steps);
    assert SemOk(After(START, steps), pool);
  }

  ghost function SharedSlotsOf(s: State, c: nat): set<nat> {
    set t | t in s.lookups && s.lookups[t].connection == c && s.lookups[t].shared == Granted
  }

  /** The shared permits a connection holds are among its burst permits. */
  lemma SharedWithinBurst(s: State, c: nat)
    requires Conserved(s) && BurstOf(c) in s.sems
    ensures |SharedSlotsOf(s, c)| <= 32
  {
    var burst := Holders(s.lookups, BurstOf(c));
    assert SemOk(s, BurstOf(c));
    forall t | t in SharedSlotsOf(s, c) ensures t in burst {
      assert s.lookups[t].Shaped();
    }
    SubsetSize(SharedSlotsOf(s, c), burst);
  }

  lemma {:induction false} SubsetSize(a: set<nat>, b: set<nat>)
    requires a <= b
    ensures |a| <= |b|
    decreases |a|
  {
    if a != {} {
      var x :| x in a;
      SubsetSize(a - {x}, b - {x});
    }
  }

  // ---------------------------------------------------------------- giving up

  /** A semaphore after a lookup with this claim on it is gone. */
  function Settled(m: Semaphore, t: nat, claim: Claim): Semaphore {
    match claim
    case Unasked => m
    case Queued => m.(queue := Without(m.queue, t))
    case Granted => if m.queue == [] then m.(free := m.free + 1) else m.(queue := m.queue[1..])
  }

  lemma DropSem(s: State, t: nat, pool: Pool, other: Pool)
    requires t in s.lookups && other in s.sems
    ensures Drop(s, t, pool).sems[other] ==
      if pool == other then Settled(s.sems[other], t, s.lookups[t].On(pool)) else s.sems[other]
  {
  }

  lemma DropAllSem(s: State, t: nat, pool: Pool)
    requires Conserved(s) && t in s.lookups && pool in s.sems
    ensures DropAll(s, t, s.lookups[t].connection).sems[pool] == Settled(s.sems[pool], t, s.lookups[t].On(pool))
  {
    hide SemOk, Drop, Settled;
    var c := s.lookups[t].connection;
    var a := Drop(s, t, SharedPool);
    var b := Drop(a, t, BurstOf(c));
    DropStep(s, t, SharedPool);
    DropStep(a, t, BurstOf(c));
    DropSem(s, t, SharedPool, pool);
    DropSem(a, t, BurstOf(c), pool);
    DropSem(b, t, ReservedOf(c), pool);
    assert !s.lookups[t].May(pool) ==> s.lookups[t].On(pool) == Unasked && Settled(s.sems[pool], t, Unasked) == s.sems[pool]
      by { SettledUnasked(s.sems[pool], t); }
  }

  lemma SettledUnasked(m: Semaphore, t: nat)
    ensures Settled(m, t, Unasked) == m
  {
  }

  /** Another lookup's claim can only move from queued to granted when someone drops theirs. */
  lemma DropAllOther(s: State, t: nat, u: nat, pool: Pool)
    requires Conserved(s) && t in s.lookups && u in s.lookups && u != t
    ensures var l, r := s.lookups[u], DropAll(s, t, s.lookups[t].connection).lookups[u];
      && r.connection == l.connection && r.phase == l.phase
      && (r.On(pool) == l.On(pool) || (l.On(pool) == Queued && r.On(pool) == Granted))
  {
    hide SemOk, Drop;
    var c := s.lookups[t].connection;
    var a := Drop(s, t, SharedPool);
    var b := Drop(a, t, BurstOf(c));
    DropStep(s, t, SharedPool);
    DropStep(a, t, BurstOf(c));
    DropLookups(s, t, SharedPool, u);
    DropLookups(a, t, BurstOf(c), u);
    DropLookups(b, t, ReservedOf(c), u);
  }

  /** A waiter that gives up leaves nothing held: each permit it had goes to the next in line, or back. */
  lemma WaiterReturnsItsPermits(s: State, t: nat, pool: Pool)
    requires Conserved(s) && IsWaiting(s, t) && pool in s.sems
    ensures var q, m := Apply(s, GiveUp(t)), s.sems[pool];
      && t !in q.lookups && pool in q.sems && t !in q.sems[pool].queue
      && (s.lookups[t].On(pool) == Granted && m.queue == [] ==> q.sems[pool].free == m.free + 1)
      && (s.lookups[t].On(pool) == Granted && m.queue != [] ==>
            m.queue[0] in q.lookups && q.lookups[m.queue[0]].On(pool) == Granted && q.sems[pool].queue == m.queue[1..])
  {
    hide Drop, DropAll;
    DropAllSem(s, t, pool);
    StepConserves(s, GiveUp(t));
    var q, m := Apply(s, GiveUp(t)), s.sems[pool];
    assert SemOk(q, pool) && SemOk(s, pool);
    if s.lookups[t].On(pool) == Granted && m.queue != [] {
      assert m.queue[0] in m.queue;
      DropAllOther(s, t, m.queue[0], pool);
      assert m.queue[0] !in m.queue[1..];
    }
  }

  ghost predicate HasThread(s: State, t: nat, c: nat, slot: Slot) {
    t in s.lookups && s.lookups[t].connection == c && s.lookups[t].phase.Running? && s.lookups[t].phase.slot == slot
  }

  lemma ThreadStays(s: State, step: Step, t: nat, c: nat, slot: Slot)
    requires Conserved(s) && Enabled(s, step) && HasThread(s, t, c, slot) && step != ThreadEnds(t)
    ensures HasThread(Apply(s, step), t, c, slot)
  {
    hide SemOk, Drop, DropAll;
    match step
    case Open(_) =>
    case Close(_) =>
    case Begin(_, _) =>
    case Ask(_, _) =>
    case Start(u, won) => StartOther(s, u, won, t, SharedPool);
    case GiveUp(u) =>
      if u != t {
        DropAllOther(s, u, t, SharedPool);
      }
    case ThreadEnds(u) => DropAllOther(s, u, t, SharedPool);
  }

  lemma StartOther(s: State, t: nat, slot: Slot, u: nat, pool: Pool)
    requires Conserved(s) && Enabled(s, Start(t, slot)) && u in s.lookups && u != t
    ensures var l, q := s.lookups[u], Apply(s, Start(t, slot));
      && u in q.lookups && q.lookups[u].connection == l.connection && q.lookups[u].phase == l.phase
      && (q.lookups[u].On(pool) == l.On(pool) || (l.On(pool) == Queued && q.lookups[u].On(pool) == Granted))
  {
    hide SemOk, Drop;
    var c := s.lookups[t].connection;
    if slot == Reserved {
      DropStep(s, t, SharedPool);
      DropLookups(s, t, SharedPool, u);
      DropLookups(Drop(s, t, SharedPool), t, BurstOf(c), u);
    } else {
      DropLookups(s, t, ReservedOf(c), u);
    }
  }

  /** A slot stays held until its thread ends: neither giving up nor closing the connection frees it. */
  lemma {:induction false} SlotOutlivesCaller(s: State, steps: seq<Step>, t: nat, c: nat, slot: Slot)
    requires Conserved(s) && IsRun(s, steps) && HasThread(s, t, c, slot) && ThreadEnds(t) !in steps
    ensures var q := After(s, steps);
      HasThread(q, t, c, slot) && q.lookups[t].On(if slot == Reserved then ReservedOf(c) else SharedPool) == Granted
    decreases |steps|
  {
    hide Apply, Enabled, SemOk;
    if steps != [] {
      assert steps[0] != ThreadEnds(t);
      StepConserves(s, steps[0]);
      ThreadStays(s, steps[0], t, c, slot);
      SlotOutlivesCaller(Apply(s, steps[0]), steps[1..], t, c, slot);
    } else {
      assert s.lookups[t].Shaped();
    }
  }
}
