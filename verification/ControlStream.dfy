/** The rules of the peer's control stream (src/h3/connection.rs; section 6.2.1 of RFC 9114). */
module ControlStream {
  import opened Bytes

  /** What the frame reader hands over; contents the rules do not look at are left out. */
  datatype Item =
    | Data
    | Skipped
    | Settings(datagrams: bool)
    | PeerGoaway(id: nat)
    | CancelPush(id: nat)
    | MaxPushId(id: nat)
    | PushPromise
    | Headers

  datatype Code = MissingSettings | FrameUnexpected | IdError

  datatype Control = Control(settings: bool, goaway: Option<nat>, maxPushId: Option<nat>, peerDatagrams: bool)

  const OPENED: Control := Control(false, None, None, false)

  function Accept(c: Control, item: Item): Result<Control, Code> {
    if !c.settings then
      match item
      case Settings(datagrams) => Ok(c.(settings := true, peerDatagrams := c.peerDatagrams || datagrams))
      case _ => Err(MissingSettings)
    else
      match item
      case Skipped => Ok(c)
      case PeerGoaway(id) =>
        if c.goaway.Some? && id > c.goaway.value then Err(IdError) else Ok(c.(goaway := Some(id)))
      case MaxPushId(id) =>
        if c.maxPushId.Some? && id < c.maxPushId.value then Err(IdError) else Ok(c.(maxPushId := Some(id)))
      case CancelPush(_) => Err(IdError)
      case _ => Err(FrameUnexpected)
  }

  function AcceptAll(items: seq<Item>): Result<Control, Code> {
    if items == [] then Ok(OPENED) else
    match AcceptAll(items[..|items| - 1])
    case Err(code) => Err(code)
    case Ok(c) => Accept(c, items[|items| - 1])
  }

  ghost predicate Shaped(items: seq<Item>) {
    && (items != [] ==> items[0].Settings?)
    && (forall i :: 0 < i < |items| ==> items[i].Skipped? || items[i].PeerGoaway? || items[i].MaxPushId?)
  }

  ghost predicate GoawaysShrink(items: seq<Item>) {
    forall i, j :: 0 <= i < j < |items| && items[i].PeerGoaway? && items[j].PeerGoaway? ==> items[j].id <= items[i].id
  }

  ghost predicate PushIdsGrow(items: seq<Item>) {
    forall i, j :: 0 <= i < j < |items| && items[i].MaxPushId? && items[j].MaxPushId? ==> items[i].id <= items[j].id
  }

  /** Section 6.2.1 of RFC 9114 and its neighbours, said of a whole stream at once. */
  ghost predicate Conforms(items: seq<Item>) {
    Shaped(items) && GoawaysShrink(items) && PushIdsGrow(items)
  }

  /** The last, and so the least, GOAWAY identifier of the stream. */
  ghost predicate LeastGoaway(least: Option<nat>, items: seq<Item>) {
    match least
    case None => forall i :: 0 <= i < |items| ==> !items[i].PeerGoaway?
    case Some(id) =>
      && PeerGoaway(id) in items
      && forall i :: 0 <= i < |items| && items[i].PeerGoaway? ==> id <= items[i].id
  }

  ghost predicate LargestPushId(largest: Option<nat>, items: seq<Item>) {
    match largest
    case None => forall i :: 0 <= i < |items| ==> !items[i].MaxPushId?
    case Some(id) =>
      && MaxPushId(id) in items
      && forall i :: 0 <= i < |items| && items[i].MaxPushId? ==> items[i].id <= id
  }

  /** What the state remembers of a conforming stream. */
  ghost predicate Remembers(c: Control, items: seq<Item>) {
    && (c.settings <==> items != [])
    && c.peerDatagrams == (items != [] && items[0] == Settings(true))
    && LeastGoaway(c.goaway, items)
    && LargestPushId(c.maxPushId, items)
  }

  lemma GoawayStep(least: Option<nat>, items: seq<Item>, item: Item)
    requires GoawaysShrink(items) && LeastGoaway(least, items)
    ensures GoawaysShrink(items + [item]) <==> !(item.PeerGoaway? && least.Some? && item.id > least.value)
    ensures GoawaysShrink(items + [item]) ==>
      LeastGoaway(if item.PeerGoaway? then Some(item.id) else least, items + [item])
  {
    var all, n := items + [item], |items|;
    assert forall i :: 0 <= i < n ==> all[i] == items[i];
    assert all[n] == item;
    if item.PeerGoaway? && least.Some? {
      var i :| 0 <= i < n && items[i] == PeerGoaway(least.value);
      assert all[i].PeerGoaway? && all[i].id == least.value;
    }
  }

  lemma PushIdStep(largest: Option<nat>, items: seq<Item>, item: Item)
    requires PushIdsGrow(items) && LargestPushId(largest, items)
    ensures PushIdsGrow(items + [item]) <==> !(item.MaxPushId? && largest.Some? && item.id < largest.value)
    ensures PushIdsGrow(items + [item]) ==>
      LargestPushId(if item.MaxPushId? then Some(item.id) else largest, items + [item])
  {
    var all, n := items + [item], |items|;
    assert forall i :: 0 <= i < n ==> all[i] == items[i];
    assert all[n] == item;
    if item.MaxPushId? && largest.Some? {
      var i :| 0 <= i < n && items[i] == MaxPushId(largest.value);
      assert all[i].MaxPushId? && all[i].id == largest.value;
    }
  }

  lemma ShapeStep(items: seq<Item>, item: Item)
    requires Shaped(items)
    ensures Shaped(items + [item]) <==>
      if items == [] then item.Settings? else item.Skipped? || item.PeerGoaway? || item.MaxPushId?
  {
    var all, n := items + [item], |items|;
    assert forall i :: 0 <= i < n ==> all[i] == items[i];
    assert all[n] == item;
  }

  lemma StepConforms(c: Control, items: seq<Item>, item: Item)
    requires Conforms(items) && Remembers(c, items)
    ensures Accept(c, item).Ok? <==> Conforms(items + [item])
    ensures Accept(c, item).Ok? ==> Remembers(Accept(c, item).value, items + [item])
  {
    hide Shaped, GoawaysShrink, PushIdsGrow, LeastGoaway, LargestPushId;
    ShapeStep(items, item);
    GoawayStep(c.goaway, items, item);
    PushIdStep(c.maxPushId, items, item);
    assert items != [] ==> (items + [item])[0] == items[0];
  }

  /** A control stream is accepted exactly when it conforms. */
  lemma {:induction false} AcceptedExactlyWhenConforming(items: seq<Item>)
    ensures AcceptAll(items).Ok? <==> Conforms(items)
    ensures AcceptAll(items).Ok? ==> Remembers(AcceptAll(items).value, items)
  {
    if items != [] {
      var init, item := items[..|items| - 1], items[|items| - 1];
      AcceptedExactlyWhenConforming(init);
      assert items == init + [item];
      if AcceptAll(init).Ok? {
        StepConforms(AcceptAll(init).value, init, item);
      } else {
        PrefixConforms(init, item);
      }
    }
  }

  lemma PrefixConforms(init: seq<Item>, item: Item)
    ensures Conforms(init + [item]) ==> Conforms(init)
  {
    var all := init + [item];
    assert forall i :: 0 <= i < |init| ==> all[i] == init[i];
  }

  /** The first item that breaks the rules decides the error code. */
  lemma FirstFaultDecides(items: seq<Item>, item: Item)
    requires Conforms(items) && !Conforms(items + [item])
    ensures AcceptAll(items + [item]) == Err(
      if items == [] then MissingSettings
      else if item.PeerGoaway? || item.MaxPushId? || item.CancelPush? then IdError
      else FrameUnexpected)
  {
    AcceptedExactlyWhenConforming(items);
    AcceptedExactlyWhenConforming(items + [item]);
    assert (items + [item])[..|items|] == items;
    if items == [] {
      assert items + [item] == [item];
    }
  }

  /** The state the reading loop holds. */
  class PeerControl {
    var settings: bool
    var goaway: Option<nat>
    var maxPushId: Option<nat>
    var peerDatagrams: bool

    function View(): Control reads this { Control(settings, goaway, maxPushId, peerDatagrams) }

    constructor ()
      ensures View() == OPENED
    {
      settings, goaway, maxPushId, peerDatagrams := false, None, None, false;
    }

    method AcceptItem(item: Item) returns (r: Option<Code>)
      modifies this
      ensures match Accept(old(View()), item)
        case Ok(c) => r == None && View() == c
        case Err(code) => r == Some(code) && View() == old(View())
    {
      if item.Data? {
        return Some(if settings then FrameUnexpected else MissingSettings);
      }
      if item.Skipped? {
        return if settings then None else Some(MissingSettings);
      }
      if !settings {
        if !item.Settings? {
          return Some(MissingSettings);
        }
        settings := true;
        if item.datagrams {
          peerDatagrams := true;
        }
        return None;
      }
      match item
      case PeerGoaway(id) =>
        if goaway.Some? && id > goaway.value {
          return Some(IdError);
        }
        goaway := Some(id);
        return None;
      case MaxPushId(id) =>
        if maxPushId.Some? && id < maxPushId.value {
          return Some(IdError);
        }
        maxPushId := Some(id);
        return None;
      case CancelPush(_) => return Some(IdError);
      case _ => return Some(FrameUnexpected);
    }
  }
}
