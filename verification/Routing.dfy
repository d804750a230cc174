/** The connection's datagram routing table (src/h3/connection.rs; section 2.1 of RFC 9297). */
module Routing {
  import opened Bytes
  import D = Datagram

  const INBOUND_QUEUE_DEPTH: nat := 64

  type Payload = seq<byte>

  datatype Drops = Drops(unknownContext: nat, unroutable: nat, queueFull: nat, malformed: nat, total: nat)

  /** Each live session's queue, the drop counters, and whether the router has stopped. */
  datatype Table = Table(sessions: map<nat, seq<Payload>>, drops: Drops, closed: bool)

  const EMPTY: Table := Table(map[], Drops(0, 0, 0, 0, 0), false)

  /** A session claiming its Quarter Stream ID, a QUIC datagram, a session reading, a receiver dropped. */
  datatype Op = Claim(id: nat) | Arrive(datagram: seq<byte>) | Receive(id: nat) | Release(id: nat)

  datatype DropKind = UnknownContext | Unroutable | QueueFull | Malformed

  function CountDrop(t: Table, kind: DropKind): Table {
    var d := t.drops.(total := t.drops.total + 1);
    t.(drops := match kind
      case UnknownContext => d.(unknownContext := d.unknownContext + 1)
      case Unroutable => d.(unroutable := d.unroutable + 1)
      case QueueFull => d.(queueFull := d.queueFull + 1)
      case Malformed => d.(malformed := d.malformed + 1))
  }

  function Deliver(t: Table, d: D.Datagram): Table {
    if d.contextId != D.CONTEXT_ID_UDP_PAYLOAD then CountDrop(t, UnknownContext)
    else if d.quarterStreamId !in t.sessions then CountDrop(t, Unroutable)
    else if |t.sessions[d.quarterStreamId]| >= INBOUND_QUEUE_DEPTH then CountDrop(t, QueueFull)
    else t.(sessions := t.sessions[d.quarterStreamId := t.sessions[d.quarterStreamId] + [d.payload]])
  }

  function Route(t: Table, datagram: seq<byte>): Table {
    if t.closed then t else
    match D.DecodeDatagram(datagram)
    case Ok(d) => Deliver(t, d)
    case Err(e) => if e.IsConnectionError() then t.(closed := true) else CountDrop(t, Malformed)
  }

  function Step(t: Table, op: Op): Table {
    match op
    case Claim(id) => if id in t.sessions then t else t.(sessions := t.sessions[id := []])
    case Arrive(datagram) => Route(t, datagram)
    case Receive(id) =>
      if id in t.sessions && t.sessions[id] != [] then t.(sessions := t.sessions[id := t.sessions[id][1..]]) else t
    case Release(id) => t.(sessions := t.sessions - {id})
  }

  function Execute(ops: seq<Op>): Table {
    if ops == [] then EMPTY else Step(Execute(ops[..|ops| - 1]), ops[|ops| - 1])
  }

  // ---------------------------------------------------------------- one session, by itself

  /** Whether a datagram makes the router stop. */
  predicate Closes(datagram: seq<byte>) {
    D.DecodeDatagram(datagram).Err? && D.DecodeDatagram(datagram).error.IsConnectionError()
  }

  /** A UDP payload for this session. */
  predicate For(datagram: seq<byte>, id: nat) {
    match D.DecodeDatagram(datagram)
    case Ok(d) => d.contextId == 0 && d.quarterStreamId == id
    case Err(_) => false
  }

  /** Whether the router still runs after these operations. */
  predicate Running(ops: seq<Op>) {
    forall i :: 0 <= i < |ops| && ops[i].Arrive? ==> !Closes(ops[i].datagram)
  }

  /**
   What one session saw since it claimed its id: the payloads taken in, in order of arrival, and how
   many of them it has read. Other sessions' operations play no part.
   */
  datatype Session = Session(accepted: seq<Payload>, read: nat)

  predicate Holds(s: Option<Session>) {
    s.Some? ==> s.value.read <= |s.value.accepted| <= s.value.read + 64
  }

  function WatchStep(s: Option<Session>, op: Op, id: nat, running: bool): (r: Option<Session>)
    requires Holds(s)
    ensures Holds(r)
  {
    match s
    case None => if op == Claim(id) then Some(Session([], 0)) else None
    case Some(v) =>
      if op == Release(id) then None
      else if op == Receive(id) && v.read < |v.accepted| then Some(v.(read := v.read + 1))
      else if running && op.Arrive? && For(op.datagram, id) && |v.accepted| < v.read + 64 then
        Some(v.(accepted := v.accepted + [D.DecodeDatagram(op.datagram).value.payload]))
      else s
  }

  function Watch(ops: seq<Op>, id: nat): (s: Option<Session>)
    ensures Holds(s)
  {
    if ops == [] then None else
    var init := ops[..|ops| - 1];
    WatchStep(Watch(init, id), ops[|ops| - 1], id, Running(init))
  }

  lemma {:induction false} ClosedExactlyWhenNotRunning(ops: seq<Op>)
    ensures Execute(ops).closed <==> !Running(ops)
  {
    hide D.DecodeDatagram;
    if ops != [] {
      ClosedExactlyWhenNotRunning(ops[..|ops| - 1]);
      assert ops == ops[..|ops| - 1] + [ops[|ops| - 1]];
    }
  }

  /** The queue holds exactly what the session took in and has not read; its key is there exactly while it lives. */
  ghost predicate Mirrors(t: Table, id: nat, s: Option<Session>) {
    && (id in t.sessions <==> s.Some?)
    && (s.Some? ==> s.value.read <= |s.value.accepted| && t.sessions[id] == s.value.accepted[s.value.read..])
  }

  lemma {:induction false} TableMirrorsSession(ops: seq<Op>, id: nat)
    ensures Mirrors(Execute(ops), id, Watch(ops, id))
  {
    hide D.DecodeDatagram, Running, WatchStep, Step;
    if ops != [] {
      var init, op := ops[..|ops| - 1], ops[|ops| - 1];
      TableMirrorsSession(init, id);
      ClosedExactlyWhenNotRunning(init);
      StepMirrors(Execute(init), id, Watch(init, id), op);
    }
  }

  lemma StepMirrors(t: Table, id: nat, s: Option<Session>, op: Op)
    requires Mirrors(t, id, s) && Holds(s)
    ensures Mirrors(Step(t, op), id, WatchStep(s, op, id, !t.closed))
  {
    hide D.DecodeDatagram;
    if s.Some? {
      var v := s.value;
      if op == Receive(id) && v.read < |v.accepted| {
        assert v.accepted[v.read..][1..] == v.accepted[v.read + 1..];
      } else if op.Arrive? && For(op.datagram, id) {
        var p := D.DecodeDatagram(op.datagram).value.payload;
        assert (v.accepted + [p])[v.read..] == v.accepted[v.read..] + [p];
      }
    }
  }

  /** Which sessions are live: claimed and not released since. */
  function Live(ops: seq<Op>): set<nat> {
    if ops == [] then {} else
    match ops[|ops| - 1]
    case Claim(id) => Live(ops[..|ops| - 1]) + {id}
    case Release(id) => Live(ops[..|ops| - 1]) - {id}
    case _ => Live(ops[..|ops| - 1])
  }

  lemma {:induction false} KeysAreLiveReceivers(ops: seq<Op>)
    ensures Execute(ops).sessions.Keys == Live(ops)
  {
    hide D.DecodeDatagram;
    if ops != [] {
      KeysAreLiveReceivers(ops[..|ops| - 1]);
    }
  }

  /**
   Over every run: what a session reads next is the oldest payload it took in and has not read, so
   what it has read and what is queued are together, in order, exactly what it took in.
   */
  lemma SessionReadsInOrder(ops: seq<Op>, id: nat)
    ensures var t, s := Execute(ops), Watch(ops, id);
      && (id in t.sessions <==> s.Some?)
      && (s.Some? ==>
           && s.value.accepted[..s.value.read] + t.sessions[id] == s.value.accepted
           && |t.sessions[id]| <= 64
           && (t.sessions[id] != [] ==> t.sessions[id][0] == s.value.accepted[s.value.read]))
  {
    TableMirrorsSession(ops, id);
  }

  // ---------------------------------------------------------------- accounting

  /** How many datagrams the router handled without stopping. */
  function Handled(ops: seq<Op>): nat {
    if ops == [] then 0 else
    var init, op := ops[..|ops| - 1], ops[|ops| - 1];
    Handled(init) + if op.Arrive? && Running(ops) then 1 else 0
  }

  datatype Fate = TakenIn | Dropped(kind: DropKind)

  /** What a datagram that does not stop the router meets, told from the sessions alone. */
  function FateOf(ops: seq<Op>, datagram: seq<byte>): Fate {
    match D.DecodeDatagram(datagram)
    case Err(_) => Dropped(Malformed)
    case Ok(d) =>
      if !For(datagram, d.quarterStreamId) then Dropped(UnknownContext)
      else match Watch(ops, d.quarterStreamId)
        case None => Dropped(Unroutable)
        case Some(v) => if |v.accepted| < v.read + 64 then TakenIn else Dropped(QueueFull)
  }

  /** How many handled datagrams met a fate. */
  function Met(ops: seq<Op>, fate: Fate): nat {
    if ops == [] then 0 else
    var init, op := ops[..|ops| - 1], ops[|ops| - 1];
    Met(init, fate) + if op.Arrive? && Running(ops) && FateOf(init, op.datagram) == fate then 1 else 0
  }

  ghost predicate Accounted(ops: seq<Op>, d: Drops) {
    && d.unknownContext == Met(ops, Dropped(UnknownContext)) && d.unroutable == Met(ops, Dropped(Unroutable))
    && d.queueFull == Met(ops, Dropped(QueueFull)) && d.malformed == Met(ops, Dropped(Malformed))
    && d.total == d.unknownContext + d.unroutable + d.queueFull + d.malformed
    && Handled(ops) == Met(ops, TakenIn) + d.total
  }

  /** Delivery does what the sessions' own histories say. */
  lemma RouteFollowsFate(ops: seq<Op>, datagram: seq<byte>)
    requires Running(ops + [Arrive(datagram)])
    ensures var t, fate := Execute(ops), FateOf(ops, datagram);
      Route(t, datagram).drops == if fate.TakenIn? then t.drops else CountDrop(t, fate.kind).drops
  {
    hide D.DecodeDatagram, Execute, Watch;
    var all := ops + [Arrive(datagram)];
    assert forall i :: 0 <= i < |ops| ==> all[i] == ops[i];
    assert all[|ops|] == Arrive(datagram);
    ClosedExactlyWhenNotRunning(ops);
    if D.DecodeDatagram(datagram).Ok? {
      TableMirrorsSession(ops, D.DecodeDatagram(datagram).value.quarterStreamId);
    }
  }

  /** A closed router counts nothing, and neither does the datagram that closes it. */
  lemma StoppedCountsNothing(ops: seq<Op>, datagram: seq<byte>)
    requires !Running(ops + [Arrive(datagram)])
    ensures Route(Execute(ops), datagram).drops == Execute(ops).drops
  {
    hide D.DecodeDatagram, Execute;
    ClosedExactlyWhenNotRunning(ops);
    if Running(ops) {
      assert Closes(datagram);
    }
  }

  /**
   Every handled datagram is taken in by one session or counted once, in the total and under the one shape
   that the sessions' own histories give it.
   */
  lemma {:induction false} EveryDatagramIsAccountedFor(ops: seq<Op>)
    ensures Accounted(ops, Execute(ops).drops)
  {
    hide Running, FateOf, Route;
    if ops != [] {
      var init, op := ops[..|ops| - 1], ops[|ops| - 1];
      EveryDatagramIsAccountedFor(init);
      assert ops == init + [op];
      if op.Arrive? {
        if Running(ops) {
          RouteFollowsFate(init, op.datagram);
        } else {
          StoppedCountsNothing(init, op.datagram);
        }
      }
    }
  }

  // ---------------------------------------------------------------- what one more datagram does

  lemma ExecuteMore(ops: seq<Op>, op: Op)
    ensures Execute(ops + [op]) == Step(Execute(ops), op)
  {
    assert (ops + [op])[..|ops|] == ops;
  }

  /** A Quarter Stream ID with less than a Context ID after it is dropped and counted, and the router goes on. */
  lemma CutShortIsDropped(ops: seq<Op>, a: seq<byte>, id: nat, t: seq<byte>)
    requires Running(ops) && D.IsVarint(a, id) && id <= 0xfff_ffff_ffff_ffff && D.Unfinished(t)
    ensures var before, after := Execute(ops), Execute(ops + [Arrive(a + t)]);
      && after.sessions == before.sessions && !after.closed
      && after.drops == before.drops.(malformed := before.drops.malformed + 1, total := before.drops.total + 1)
  {
    hide D.DecodeDatagram, D.IsVarint, D.Unfinished, Execute;
    ExecuteMore(ops, Arrive(a + t));
    ClosedExactlyWhenNotRunning(ops);
    D.MissingContextIdFails(a, id, t);
  }

  /** Without a legal Quarter Stream ID, cut short or from 2^60 on, the router stops, and nothing is counted. */
  lemma NoStreamIdCloses(ops: seq<Op>, datagram: seq<byte>, a: seq<byte>, id: nat, rest: seq<byte>)
    requires Running(ops)
    requires D.Unfinished(datagram) || (datagram == a + rest && D.IsVarint(a, id) && id >= 0x1000_0000_0000_0000)
    ensures var before, after := Execute(ops), Execute(ops + [Arrive(datagram)]);
      after.closed && after.sessions == before.sessions && after.drops == before.drops
  {
    hide D.DecodeDatagram, D.IsVarint, D.Unfinished, Execute;
    ExecuteMore(ops, Arrive(datagram));
    ClosedExactlyWhenNotRunning(ops);
    if D.Unfinished(datagram) {
      D.MissingQuarterStreamIdExactly(datagram);
    } else {
      D.TooLargeIdFails(a, id, rest);
    }
  }

  /** A whole datagram: a UDP payload for a live session with fewer than 64 queued is queued last; any other is dropped. */
  lemma WholeDatagramArrives(ops: seq<Op>, d: D.Datagram)
    requires Running(ops) && D.Legal(d)
    ensures var before, after, id := Execute(ops), Execute(ops + [Arrive(D.EncodeDatagram(d))]), d.quarterStreamId;
      && !after.closed
      && (d.contextId == 0 && id in before.sessions && |before.sessions[id]| < 64 ==>
            after == before.(sessions := before.sessions[id := before.sessions[id] + [d.payload]]))
      && (d.contextId == 0 && id in before.sessions && |before.sessions[id]| >= 64 ==>
            after == before.(drops := before.drops.(queueFull := before.drops.queueFull + 1, total := before.drops.total + 1)))
      && (d.contextId == 0 && id !in before.sessions ==>
            after == before.(drops := before.drops.(unroutable := before.drops.unroutable + 1, total := before.drops.total + 1)))
      && (d.contextId != 0 ==>
            after == before.(drops := before.drops.(unknownContext := before.drops.unknownContext + 1, total := before.drops.total + 1)))
  {
    hide D.DecodeDatagram, D.EncodeDatagram, Execute;
    ExecuteMore(ops, Arrive(D.EncodeDatagram(d)));
    ClosedExactlyWhenNotRunning(ops);
    D.DatagramRoundTrip(d);
  }

  // ---------------------------------------------------------------- the shared object

  class Shared {
    var sessions: map<nat, seq<Payload>>
    var drops: Drops
    var closed: bool
    /** Why this endpoint is closing the connection: the first reason is kept. */
    var localError: Option<D.DecodeError>

    function View(): Table reads this { Table(sessions, drops, closed) }

    constructor ()
      ensures View() == EMPTY && localError == None
    {
      sessions, drops, closed, localError := map[], Drops(0, 0, 0, 0, 0), false, None;
    }

    method Record(violation: D.DecodeError) returns (kept: D.DecodeError)
      modifies this
      ensures View() == old(View()) && localError == Some(kept)
      ensures kept == if old(localError).Some? then old(localError).value else violation
    {
      if localError == None {
        localError := Some(violation);
      }
      kept := localError.value;
    }

    method RegisterDatagrams(id: nat) returns (registered: bool)
      modifies this
      ensures View() == Step(old(View()), Claim(id)) && localError == old(localError)
      ensures registered <==> id !in old(sessions)
    {
      if id in sessions {
        return false;
      }
      sessions := sessions[id := []];
      registered := true;
    }

    method CountDropped(kind: DropKind)
      modifies this
      ensures View() == CountDrop(old(View()), kind) && localError == old(localError)
    {
      match kind {
        case UnknownContext => drops := drops.(unknownContext := drops.unknownContext + 1);
        case Unroutable => drops := drops.(unroutable := drops.unroutable + 1);
        case QueueFull => drops := drops.(queueFull := drops.queueFull + 1);
        case Malformed => drops := drops.(malformed := drops.malformed + 1);
      }
      drops := drops.(total := drops.total + 1);
    }

    method DeliverDatagram(d: D.Datagram)
      modifies this
      ensures View() == Deliver(old(View()), d) && localError == old(localError)
    {
      if d.contextId != D.CONTEXT_ID_UDP_PAYLOAD {
        CountDropped(UnknownContext);
      } else if d.quarterStreamId !in sessions {
        CountDropped(Unroutable);
      } else if |sessions[d.quarterStreamId]| >= INBOUND_QUEUE_DEPTH {
        CountDropped(QueueFull);
      } else {
        sessions := sessions[d.quarterStreamId := sessions[d.quarterStreamId] + [d.payload]];
      }
    }

    /** Decodes one QUIC datagram and delivers it, or ends the connection. */
    method RouteDatagram(datagram: seq<byte>) returns (broke: bool)
      requires !closed
      modifies this
      ensures View() == Step(old(View()), Arrive(datagram))
      ensures broke == closed
      ensures localError == if closed && old(localError).None? then Some(D.DecodeDatagram(datagram).error) else old(localError)
    {
      hide D.DecodeDatagram;
      var decoded := D.Decode(datagram);
      match decoded
      case Ok(d) =>
        DeliverDatagram(d);
        broke := false;
      case Err(e) =>
        if e.IsConnectionError() {
          var _ := Record(e);
          closed := true;
          broke := true;
        } else {
          CountDropped(Malformed);
          broke := false;
        }
    }

    method ReceivePayload(id: nat) returns (payload: Option<Payload>)
      modifies this
      ensures View() == Step(old(View()), Receive(id)) && localError == old(localError)
      ensures payload == if id in old(sessions) && old(sessions)[id] != [] then Some(old(sessions)[id][0]) else None
    {
      if id in sessions && sessions[id] != [] {
        payload := Some(sessions[id][0]);
        sessions := sessions[id := sessions[id][1..]];
      } else {
        payload := None;
      }
    }

    method DropReceiver(id: nat)
      modifies this
      ensures View() == Step(old(View()), Release(id)) && localError == old(localError)
    {
      sessions := sessions - {id};
    }
  }
}
