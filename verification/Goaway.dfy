/** GOAWAY identifiers this server sends (src/h3/connection.rs; section 5.2 of RFC 9114). */
module Goaway {
  import opened Bytes
  import D = Datagram

  const REQUEST_STREAM_STEP: nat := 4

  /** Four past the last accepted request, clamped to what a varint can carry. */
  function NextRequestId(lastAccepted: Option<nat>): nat {
    match lastAccepted case None => 0 case Some(id) => Min(id + REQUEST_STREAM_STEP, D.VARINT_MAX)
  }

  /** A request stream of the client's arriving, or this endpoint starting (or repeating) a shutdown. */
  datatype Event = Arrive(id: nat) | Shutdown

  /** The connection, with everything it ever handed to its caller and every identifier it ever sent. */
  datatype Connection = Connection(lastAccepted: Option<nat>, goingAway: Option<nat>,
                                   handed: seq<nat>, sent: seq<nat>)

  const FRESH: Connection := Connection(None, None, [], [])

  function Step(c: Connection, e: Event): Connection {
    match e
    case Arrive(id) =>
      if c.goingAway.Some? && id >= c.goingAway.value then c
      else c.(lastAccepted := Some(id), handed := c.handed + [id])
    case Shutdown =>
      var next := NextRequestId(c.lastAccepted);
      var identifier := if c.goingAway.Some? then Min(c.goingAway.value, next) else next;
      c.(goingAway := Some(identifier), sent := c.sent + [identifier])
  }

  function Execute(es: seq<Event>): Connection {
    if es == [] then FRESH else Step(Execute(es[..|es| - 1]), es[|es| - 1])
  }

  /** The ids of the arrivals, in order. */
  function Arrivals(es: seq<Event>): seq<nat> {
    if es == [] then []
    else Arrivals(es[..|es| - 1]) + match es[|es| - 1] case Arrive(id) => [id] case Shutdown => []
  }

  /** The arrivals before the first shutdown. */
  function Early(es: seq<Event>): seq<nat> {
    if es == [] then []
    else if Shutdown in es[..|es| - 1] then Early(es[..|es| - 1])
    else Arrivals(es)
  }

  /** What QUIC guarantees: client-initiated bidirectional stream ids, opened in increasing order. */
  ghost predicate ClientStreams(ids: seq<nat>) {
    && (forall i :: 0 <= i < |ids| ==> ids[i] % 4 == 0 && ids[i] <= 0x3fff_ffff_ffff_ffff)
    && (forall i, j :: 0 <= i < j < |ids| ==> ids[i] < ids[j])
  }

  ghost predicate Invariant(c: Connection, es: seq<Event>) {
    && c.handed == Early(es)
    && c.lastAccepted == (if c.handed == [] then None else Some(c.handed[|c.handed| - 1]))
    && (c.goingAway.Some? <==> Shutdown in es) && (c.goingAway.None? ==> c.sent == [])
    && (c.goingAway.Some? ==> c.goingAway.value == NextRequestId(c.lastAccepted))
    && (forall i :: 0 <= i < |c.sent| ==> c.goingAway == Some(c.sent[i]))
  }

  lemma {:induction false} EarlyIsPrefix(es: seq<Event>)
    ensures Early(es) <= Arrivals(es)
  {
    if es != [] {
      EarlyIsPrefix(es[..|es| - 1]);
    }
  }

  lemma {:induction false} InvariantHolds(es: seq<Event>)
    requires ClientStreams(Arrivals(es))
    ensures Invariant(Execute(es), es)
  {
    hide Invariant, Execute, Arrivals;
    if es == [] {
      InvariantAtStart();
    } else {
      var init, e := es[..|es| - 1], es[|es| - 1];
      assert es == init + [e];
      Unfold(init, e);
      assert forall i :: 0 <= i < |Arrivals(init)| ==> Arrivals(init)[i] == Arrivals(es)[i];
      InvariantHolds(init);
      InvariantStep(init, e);
    }
  }

  lemma InvariantAtStart()
    ensures Invariant(Execute([]), [])
  {
  }

  lemma Unfold(es: seq<Event>, e: Event)
    ensures Execute(es + [e]) == Step(Execute(es), e)
    ensures Arrivals(es + [e]) == Arrivals(es) + if e.Arrive? then [e.id] else []
    ensures Early(es + [e]) == if Shutdown in es then Early(es) else Arrivals(es + [e])
  {
    assert (es + [e])[..|es|] == es;
  }

  lemma InvariantStep(es: seq<Event>, e: Event)
    requires Invariant(Execute(es), es) && ClientStreams(Arrivals(es + [e]))
    ensures Invariant(Execute(es + [e]), es + [e])
  {
    hide Execute, Arrivals, Early, ClientStreams;
    Unfold(es, e);
    EarlyIsPrefix(es);
    var c := Execute(es);
    if Shutdown !in es {
      NoShutdownYet(es);
    } else if e.Arrive? {
      LateArrivalIsPast(c, Arrivals(es), e.id);
    }
  }

  lemma {:induction false} NoShutdownYet(es: seq<Event>)
    requires Shutdown !in es
    ensures Early(es) == Arrivals(es)
  {
  }

  /** A stream the client opens after a GOAWAY has an id at or past its identifier. */
  lemma LateArrivalIsPast(c: Connection, before: seq<nat>, id: nat)
    requires ClientStreams(before + [id]) && c.handed <= before
    requires c.lastAccepted == (if c.handed == [] then None else Some(c.handed[|c.handed| - 1]))
    ensures id >= NextRequestId(c.lastAccepted)
  {
    var ids := before + [id];
    if c.handed != [] {
      var last := |c.handed| - 1;
      assert ids[last] == c.handed[last] && ids[|before|] == id;
      assert ids[last] < ids[|before|];
    }
  }

  /**
   Over every run: all identifiers sent are one and the same, so they never increase; each fits in a
   varint; every request ever handed over is below every identifier ever sent, before or after; and
   the requests handed over are exactly the ones that arrived before the first GOAWAY.
   */
  lemma GoawayIsSafe(es: seq<Event>)
    requires ClientStreams(Arrivals(es))
    ensures var c := Execute(es);
      && c.handed == Early(es)
      && (forall i, j :: 0 <= i < j < |c.sent| ==> c.sent[j] == c.sent[i])
      && (forall i :: 0 <= i < |c.sent| ==> c.sent[i] <= 0x3fff_ffff_ffff_ffff)
      && (forall h, g :: h in c.handed && g in c.sent ==> h < g)
  {
    hide Execute, Arrivals, Early;
    InvariantHolds(es);
    EarlyIsPrefix(es);
    var c := Execute(es);
    var all := Arrivals(es);
    forall h, g | h in c.handed && g in c.sent ensures h < g {
      var i :| 0 <= i < |c.handed| && c.handed[i] == h;
      var last := |c.handed| - 1;
      assert all[i] == h && all[last] == c.handed[last];
      assert h <= c.handed[last];
    }
  }

  /**
   Which identifier that is: 0 when nothing was handed over, else the last id plus four, or 2^62 - 1 if that is
   less. Below the clamp it is the least client request stream id above everything handed over.
   */
  lemma IdentifierIsNextRequest(es: seq<Event>, g: nat)
    requires ClientStreams(Arrivals(es)) && g in Execute(es).sent
    ensures var handed := Execute(es).handed;
      && (handed == [] ==> g == 0)
      && (handed != [] ==> g == Min(handed[|handed| - 1] + 4, 0x3fff_ffff_ffff_ffff))
      && (g < 0x3fff_ffff_ffff_ffff ==>
            && g % 4 == 0 && (forall h :: h in handed ==> h < g)
            && (forall id: nat :: id % 4 == 0 && (forall h :: h in handed ==> h < id) ==> g <= id))
  {
    hide Execute, Arrivals, Early;
    InvariantHolds(es);
    EarlyIsPrefix(es);
    GoawayIsSafe(es);
    var c := Execute(es);
    if c.handed != [] {
      var last := |c.handed| - 1;
      assert c.handed[last] in c.handed && Arrivals(es)[last] == c.handed[last];
    }
  }

  /**
   Whatever ids arrive and in whatever order: identifiers never increase, each fits in a varint, and nothing
   at or past the last one is handed over after it.
   */
  lemma {:induction false} IdentifiersNeverIncrease(es: seq<Event>, id: nat)
    ensures var c := Execute(es);
      && (forall i, j :: 0 <= i < j < |c.sent| ==> c.sent[j] <= c.sent[i])
      && (forall i :: 0 <= i < |c.sent| ==> c.sent[i] <= 0x3fff_ffff_ffff_ffff)
      && c.goingAway == (if c.sent == [] then None else Some(c.sent[|c.sent| - 1]))
      && (c.sent != [] && id >= c.sent[|c.sent| - 1] ==> Execute(es + [Arrive(id)]).handed == c.handed)
  {
    hide Execute, Arrivals, Early;
    Unfold(es, Arrive(id));
    if es == [] {
      InvariantAtStart();
    } else {
      var init, e := es[..|es| - 1], es[|es| - 1];
      assert es == init + [e];
      IdentifiersNeverIncrease(init, id);
      Unfold(init, e);
    }
  }

  /** The connection object the server holds. */
  class Server {
    var lastAccepted: Option<nat>
    var goingAway: Option<nat>
    ghost var handed: seq<nat>
    ghost var sent: seq<nat>

    ghost function View(): Connection
      reads this
    {
      Connection(lastAccepted, goingAway, handed, sent)
    }

    constructor ()
      ensures View() == FRESH
    {
      lastAccepted, goingAway, handed, sent := None, None, [], [];
    }

    /** One turn of the accept loop: the stream is handed over, or rejected and the loop goes on. */
    method Offer(id: nat) returns (accepted: bool)
      modifies this
      ensures View() == Step(old(View()), Arrive(id))
      ensures accepted <==> handed == old(handed) + [id]
    {
      if goingAway.Some? && id >= goingAway.value {
        assert |handed + [id]| == |handed| + 1;
        return false;
      }
      lastAccepted := Some(id);
      handed := handed + [id];
      accepted := true;
    }

    /** Sends GOAWAY and returns the identifier in it. */
    method StartShutdown() returns (identifier: nat)
      modifies this
      ensures View() == Step(old(View()), Shutdown) && goingAway == Some(identifier)
    {
      var next := NextRequestId(lastAccepted);
      identifier := if goingAway.Some? then Min(goingAway.value, next) else next;
      goingAway := Some(identifier);
      sent := sent + [identifier];
    }
  }
}
