/**
 What the SNI gate reads out of an Initial packet's frames (src/gate.rs): the frame walk
 (section 17.2.2 of RFC 9000) and the reassembly of CRYPTO data from offset 0.
 */
module CryptoStream {
  import opened Bytes
  import D = Datagram

  datatype Fragment = Fragment(offset: nat, data: seq<byte>)
  {
    function End(): nat { offset + |data| }

    predicate Covers(p: nat) { offset <= p < End() }
  }

  ghost predicate Covered(fs: seq<Fragment>, p: nat) {
    exists i :: 0 <= i < |fs| && fs[i].Covers(p)
  }

  // ---------------------------------------------------------------- reassembly

  predicate Sorted(fs: seq<Fragment>) {
    forall i, j :: 0 <= i < j < |fs| ==> fs[i].offset <= fs[j].offset
  }

  /** A stable insertion: after every fragment whose offset is not larger. */
  function Insert(fs: seq<Fragment>, f: Fragment): seq<Fragment> {
    if fs == [] || fs[|fs| - 1].offset <= f.offset then fs + [f]
    else Insert(fs[..|fs| - 1], f) + [fs[|fs| - 1]]
  }

  /** A stable sort by offset. */
  function SortByOffset(fs: seq<Fragment>): seq<Fragment> {
    if fs == [] then [] else Insert(SortByOffset(fs[..|fs| - 1]), fs[|fs| - 1])
  }

  lemma AppendSorted(fs: seq<Fragment>, f: Fragment)
    requires Sorted(fs) && forall i :: 0 <= i < |fs| ==> fs[i].offset <= f.offset
    ensures Sorted(fs + [f])
  {
  }

  lemma {:induction false} InsertSorts(fs: seq<Fragment>, f: Fragment)
    requires Sorted(fs)
    ensures Sorted(Insert(fs, f)) && multiset(Insert(fs, f)) == multiset(fs) + multiset{f}
    ensures forall g :: g in Insert(fs, f) <==> g == f || g in fs
  {
    if fs != [] && fs[|fs| - 1].offset > f.offset {
      var init, last := fs[..|fs| - 1], fs[|fs| - 1];
      assert fs == init + [last];
      var r := Insert(init, f);
      assert Insert(fs, f) == r + [last];
      InsertSorts(init, f);
      hide Insert;
      forall i | 0 <= i < |r| ensures r[i].offset <= last.offset {
        assert r[i] in r;
      }
      AppendSorted(r, last);
    } else {
      hide Insert;
      assert Insert(fs, f) == fs + [f];
      AppendSorted(fs, f);
    }
  }

  lemma {:induction false} SortSorts(fs: seq<Fragment>)
    ensures Sorted(SortByOffset(fs)) && multiset(SortByOffset(fs)) == multiset(fs)
    ensures forall g :: g in SortByOffset(fs) <==> g in fs
  {
    if fs != [] {
      var init, last := fs[..|fs| - 1], fs[|fs| - 1];
      SortSorts(init);
      InsertSorts(SortByOffset(init), last);
      assert fs == init + [last];
    }
  }

  /** Appends each fragment's fresh bytes while the fragments stay contiguous. */
  function Assemble(fs: seq<Fragment>, stream: seq<byte>): seq<byte>
    decreases |fs|
  {
    if fs == [] || fs[0].offset > |stream| then stream else
    var skip := |stream| - fs[0].offset;
    Assemble(fs[1..], if skip <= |fs[0].data| then stream + fs[0].data[skip..] else stream)
  }

  /** The bytes from offset 0 up to the first gap. */
  function Prefix(fs: seq<Fragment>): seq<byte> {
    Assemble(SortByOffset(fs), [])
  }

  /** A byte that some fragment supplied for its place. */
  ghost predicate Supplied(fs: seq<Fragment>, p: nat, b: byte) {
    exists i :: 0 <= i < |fs| && fs[i].Covers(p) && fs[i].data[p - fs[i].offset] == b
  }

  ghost predicate AllSupplied(fs: seq<Fragment>, stream: seq<byte>) {
    forall p :: 0 <= p < |stream| ==> Supplied(fs, p, stream[p])
  }

  lemma {:induction false} AssembleStops(all: seq<Fragment>, n: nat, stream: seq<byte>)
    requires n <= |all| && Sorted(all) && AllSupplied(all, stream)
    requires forall i :: 0 <= i < n ==> all[i].End() <= |stream|
    ensures AllSupplied(all, Assemble(all[n..], stream))
    ensures !Covered(all, |Assemble(all[n..], stream)|)
    decreases |all| - n
  {
    if n < |all| && all[n].offset <= |stream| {
      var f := all[n];
      var skip := |stream| - f.offset;
      var longer := if skip <= |f.data| then stream + f.data[skip..] else stream;
      forall p | 0 <= p < |longer| ensures Supplied(all, p, longer[p]) {
        if p >= |stream| {
          assert f.Covers(p) && f.data[p - f.offset] == longer[p];
        }
      }
      assert all[n..][1..] == all[n + 1..];
      AssembleStops(all, n + 1, longer);
    }
  }

  /** Every byte comes from a fragment that covers its place, and no fragment covers the next place. */
  lemma PrefixIsExact(fs: seq<Fragment>)
    ensures AllSupplied(fs, Prefix(fs))
    ensures !Covered(fs, |Prefix(fs)|)
  {
    hide SortByOffset, Assemble, Supplied, Covered, Sorted;
    var sorted := SortByOffset(fs);
    SortSorts(fs);
    assert sorted[0..] == sorted;
    AssembleStops(sorted, 0, []);
    var s := Prefix(fs);
    forall p | 0 <= p < |s| ensures Supplied(fs, p, s[p]) {
      assert Supplied(sorted, p, s[p]);
      SameSupply(sorted, fs, p, s[p]);
    }
    SameCover(fs, sorted, |s|);
  }

  lemma SameSupply(gs: seq<Fragment>, fs: seq<Fragment>, p: nat, b: byte)
    requires Supplied(gs, p, b) && forall g :: g in gs <==> g in fs
    ensures Supplied(fs, p, b)
  {
    var i :| 0 <= i < |gs| && gs[i].Covers(p) && gs[i].data[p - gs[i].offset] == b;
    assert gs[i] in fs;
  }

  lemma SameCover(fs: seq<Fragment>, gs: seq<Fragment>, p: nat)
    requires forall g :: g in gs <==> g in fs
    ensures Covered(fs, p) <==> Covered(gs, p)
  {
    if Covered(fs, p) {
      var i :| 0 <= i < |fs| && fs[i].Covers(p);
      assert fs[i] in gs;
    }
    if Covered(gs, p) {
      var i :| 0 <= i < |gs| && gs[i].Covers(p);
      assert gs[i] in fs;
    }
  }

  lemma SuppliedIsCovered(fs: seq<Fragment>, stream: seq<byte>)
    requires AllSupplied(fs, stream)
    ensures forall p :: 0 <= p < |stream| ==> Covered(fs, p)
  {
    forall p | 0 <= p < |stream| ensures Covered(fs, p) {
      assert Supplied(fs, p, stream[p]);
    }
  }

  /** The prefix ends at the least place no fragment covers. */
  lemma PrefixEndsAtLeastGap(fs: seq<Fragment>, gap: nat)
    requires !Covered(fs, gap) && forall p :: 0 <= p < gap ==> Covered(fs, p)
    ensures |Prefix(fs)| == gap
  {
    PrefixIsExact(fs);
    SuppliedIsCovered(fs, Prefix(fs));
  }

  ghost predicate SliceOf(f: Fragment, stream: seq<byte>) {
    f.End() <= |stream| && f.data == stream[f.offset..f.End()]
  }

  ghost predicate AllSlices(fs: seq<Fragment>, stream: seq<byte>) {
    forall i :: 0 <= i < |fs| ==> SliceOf(fs[i], stream)
  }

  lemma SuppliedFromStream(fs: seq<Fragment>, stream: seq<byte>, p: nat, b: byte)
    requires AllSlices(fs, stream) && Supplied(fs, p, b)
    ensures p < |stream| && b == stream[p]
  {
    var i :| 0 <= i < |fs| && fs[i].Covers(p) && fs[i].data[p - fs[i].offset] == b;
    assert SliceOf(fs[i], stream);
  }

  /** Fragments of one stream reassemble to a prefix of it. */
  lemma SlicesGivePrefix(fs: seq<Fragment>, stream: seq<byte>)
    requires AllSlices(fs, stream)
    ensures Prefix(fs) <= stream
  {
    hide Prefix, AllSlices, Supplied;
    PrefixIsExact(fs);
    var s := Prefix(fs);
    forall p | 0 <= p < |s| ensures p < |stream| && s[p] == stream[p] {
      assert Supplied(fs, p, s[p]);
      SuppliedFromStream(fs, stream, p, s[p]);
    }
    if s != [] {
      assert Supplied(fs, |s| - 1, s[|s| - 1]);
      SuppliedFromStream(fs, stream, |s| - 1, s[|s| - 1]);
    }
  }

  /** Which fragments of the stream arrive, in which order and how often, matters only by what they cover. */
  lemma OrderAndOverlapDoNotMatter(fs: seq<Fragment>, gs: seq<Fragment>, stream: seq<byte>)
    requires AllSlices(fs, stream) && AllSlices(gs, stream)
    requires forall p :: 0 <= p < |stream| ==> (Covered(fs, p) <==> Covered(gs, p))
    ensures Prefix(fs) == Prefix(gs)
  {
    SlicesGivePrefix(fs, stream);
    SlicesGivePrefix(gs, stream);
    CoverLess(fs, gs, stream);
    CoverLess(gs, fs, stream);
  }

  lemma CoverLess(fs: seq<Fragment>, gs: seq<Fragment>, stream: seq<byte>)
    requires AllSlices(fs, stream) && Prefix(fs) <= stream && Prefix(gs) <= stream
    requires forall p :: 0 <= p < |stream| ==> (Covered(gs, p) ==> Covered(fs, p))
    ensures |Prefix(gs)| <= |Prefix(fs)|
  {
    PrefixIsExact(fs);
    PrefixIsExact(gs);
    SuppliedIsCovered(gs, Prefix(gs));
  }

  /** Covering a stretch from 0 is enough to have it. */
  lemma CoveredStretch(fs: seq<Fragment>, stream: seq<byte>, n: nat)
    requires AllSlices(fs, stream) && n <= |stream| && forall p :: 0 <= p < n ==> Covered(fs, p)
    ensures stream[..n] <= Prefix(fs) <= stream
  {
    hide Prefix, Supplied, Covered, SliceOf;
    SlicesGivePrefix(fs, stream);
    PrefixIsExact(fs);
    var s := Prefix(fs);
    assert |s| >= n;
    assert s[..n] == stream[..n];
  }

  /** The usual first flight, one frame at offset 0, reads the same on the general path. */
  lemma SingleFragment(data: seq<byte>)
    ensures Prefix([Fragment(0, data)]) == data
  {
    var fs := [Fragment(0, data)];
    PrefixIsExact(fs);
    var s := Prefix(fs);
    hide Prefix;
    forall p | 0 <= p < |data| ensures Covered(fs, p) {
      assert fs[0].Covers(p);
    }
    PrefixEndsAtLeastGap(fs, |data|);
    forall p | 0 <= p < |s| ensures s[p] == data[p] {
      assert Supplied(fs, p, s[p]);
    }
  }

  method InsertFragment(fs: seq<Fragment>, f: Fragment) returns (r: seq<Fragment>)
    ensures r == Insert(fs, f)
  {
    var n := |fs|;
    assert fs[..n] == fs && fs[n..] == [];
    while n > 0 && fs[n - 1].offset > f.offset
      invariant n <= |fs| && Insert(fs, f) == Insert(fs[..n], f) + fs[n..]
    {
      assert fs[..n][..n - 1] == fs[..n - 1];
      assert [fs[n - 1]] + fs[n..] == fs[n - 1..];
      n := n - 1;
    }
    r := fs[..n] + [f] + fs[n..];
  }

  /** Sorts, takes the borrowed shortcut, or appends fragment by fragment. */
  method ReadStream(fragments: seq<Fragment>) returns (r: Option<seq<byte>>)
    ensures r == if Prefix(fragments) == [] then None else Some(Prefix(fragments))
  {
    var sorted: seq<Fragment> := [];
    for i := 0 to |fragments|
      invariant sorted == SortByOffset(fragments[..i])
    {
      assert fragments[..i + 1][..i] == fragments[..i];
      sorted := InsertFragment(sorted, fragments[i]);
    }
    assert fragments[..|fragments|] == fragments;

    if |sorted| == 1 && sorted[0].offset == 0 {
      ghost var data := sorted[0].data;
      SingleFragment(data);
      assert sorted == [Fragment(0, data)] && SortByOffset(sorted) == sorted by {
        assert sorted[..0] == [];
      }
      return if sorted[0].data == [] then None else Some(sorted[0].data);
    }

    var stream: seq<byte> := [];
    var n := 0;
    assert sorted[0..] == sorted;
    while n < |sorted| && sorted[n].offset <= |stream|
      invariant n <= |sorted| && Prefix(fragments) == Assemble(sorted[n..], stream)
    {
      assert sorted[n..][1..] == sorted[n + 1..];
      var skip := |stream| - sorted[n].offset;
      if skip <= |sorted[n].data| {
        stream := stream + sorted[n].data[skip..];
      }
      n := n + 1;
    }
    r := if stream == [] then None else Some(stream);
  }

  // ---------------------------------------------------------------- the frame walk

  const FRAME_PADDING: nat := 0x00
  const FRAME_PING: nat := 0x01
  const FRAME_ACK: nat := 0x02
  const FRAME_ACK_ECN: nat := 0x03
  const FRAME_CRYPTO: nat := 0x06
  const FRAME_CONNECTION_CLOSE: nat := 0x1c

  /** What is left after `count` varints. */
  function Skip(s: seq<byte>, count: nat): (r: Option<seq<byte>>)
    ensures r.Some? ==> |r.value| <= |s|
    decreases count
  {
    if count == 0 then Some(s) else
    match D.DecodeVarint(s)
    case None => None
    case Some((_, n)) => Skip(s[n..], count - 1)
  }

  /** A varint's value and what is left after it. */
  function Read(s: seq<byte>): (r: Option<(nat, seq<byte>)>)
    ensures r.Some? ==> |r.value.1| < |s|
  {
    match D.DecodeVarint(s)
    case None => None
    case Some((v, n)) => Some((v, s[n..]))
  }

  /** What is left after the body of an ACK frame (section 19.3 of RFC 9000). */
  function AfterAck(s: seq<byte>, ecn: bool): (r: Option<seq<byte>>)
    ensures r.Some? ==> |r.value| <= |s|
  {
    match Skip(s, 2)
    case None => None
    case Some(a) =>
      match Read(a)
      case None => None
      case Some((ranges, b)) =>
        match Skip(b, 1)
        case None => None
        case Some(c) =>
          match Skip(c, 2 * ranges)
          case None => None
          case Some(d) => if ecn then Skip(d, 3) else Some(d)
  }

  function ReadCrypto(s: seq<byte>): (r: Option<(Fragment, seq<byte>)>)
    ensures r.Some? ==> |r.value.1| <= |s|
  {
    match Read(s)
    case None => None
    case Some((offset, a)) =>
      match Read(a)
      case None => None
      case Some((length, b)) =>
        if length > |b| then None else Some((Fragment(offset, b[..length]), b[length..]))
  }

  function AfterClose(s: seq<byte>): (r: Option<seq<byte>>)
    ensures r.Some? ==> |r.value| <= |s|
  {
    match Skip(s, 2)
    case None => None
    case Some(a) =>
      match Read(a)
      case None => None
      case Some((reason, b)) => if reason > |b| then None else Some(b[reason..])
  }

  /** One frame: the fragment it carries, if any, and what follows; or that the walk ends here. */
  datatype Step = Broken | Stop | Go(fragments: seq<Fragment>, rest: seq<byte>)

  function Passed(rest: Option<seq<byte>>): Step {
    match rest case None => Broken case Some(r) => Go([], r)
  }

  function FrameStep(s: seq<byte>): (r: Step)
    ensures r.Go? ==> |r.rest| < |s|
  {
    match Read(s)
    case None => Broken
    case Some((frame, t)) =>
      if frame == FRAME_PADDING || frame == FRAME_PING then Go([], t)
      else if frame == FRAME_ACK || frame == FRAME_ACK_ECN then Passed(AfterAck(t, frame == FRAME_ACK_ECN))
      else if frame == FRAME_CRYPTO then
        (match ReadCrypto(t) case None => Broken case Some((f, r)) => Go([f], r))
      else if frame == FRAME_CONNECTION_CLOSE then Passed(AfterClose(t))
      else Stop
  }

  /** All fragments up to the end, or up to a frame an Initial may not carry. */
  function Walk(s: seq<byte>): Option<seq<Fragment>>
    decreases |s|
  {
    if s == [] then Some([]) else
    match FrameStep(s)
    case Broken => None
    case Stop => Some([])
    case Go(fs, rest) => Behind(fs, Walk(rest))
  }

  function Behind(before: seq<Fragment>, more: Option<seq<Fragment>>): Option<seq<Fragment>> {
    match more case None => None case Some(fs) => Some(before + fs)
  }

  lemma BehindNothing(more: Option<seq<Fragment>>)
    ensures Behind([], more) == more
  {
    if more.Some? {
      assert [] + more.value == more.value;
    }
  }

  lemma BehindTwice(a: seq<Fragment>, b: seq<Fragment>, more: Option<seq<Fragment>>)
    ensures Behind(a, Behind(b, more)) == Behind(a + b, more)
  {
    if more.Some? {
      assert a + (b + more.value) == a + b + more.value;
    }
  }

  method WalkFrames(payload: seq<byte>) returns (r: Option<seq<Fragment>>)
    ensures r == Walk(payload)
  {
    hide FrameStep;
    var fragments: seq<Fragment> := [];
    var rest := payload;
    BehindNothing(Walk(payload));
    while rest != []
      invariant Walk(payload) == Behind(fragments, Walk(rest))
      decreases |rest|
    {
      var step := ReadFrame(rest);
      if step.Broken? {
        return None;
      }
      if step.Stop? {
        assert fragments + [] == fragments;
        return Some(fragments);
      }
      BehindTwice(fragments, step.fragments, Walk(step.rest));
      fragments, rest := fragments + step.fragments, step.rest;
    }
    r := Some(fragments);
    assert fragments + [] == fragments;
  }

  method SkipVarints(s: seq<byte>, count: nat) returns (r: Option<seq<byte>>)
    ensures r == Skip(s, count)
  {
    var rest := s;
    for i := 0 to count
      invariant Skip(s, count) == Skip(rest, count - i)
    {
      var v := D.PeekVarint(rest);
      if v == None {
        return None;
      }
      rest := rest[v.value.1..];
    }
    r := Some(rest);
  }

  method ReadVarint(s: seq<byte>) returns (r: Option<(nat, seq<byte>)>)
    ensures r == Read(s)
  {
    var v := D.PeekVarint(s);
    r := if v == None then None else Some((v.value.0, s[v.value.1..]));
  }

  method ReadFrame(s: seq<byte>) returns (r: Step)
    ensures r == FrameStep(s)
  {
    var frame := ReadVarint(s);
    if frame == None {
      return Broken;
    }
    var (kind, rest) := frame.value;
    if kind == FRAME_PADDING || kind == FRAME_PING {
      return Go([], rest);
    } else if kind == FRAME_ACK || kind == FRAME_ACK_ECN {
      var after := SkipAck(rest, kind == FRAME_ACK_ECN);
      return Passed(after);
    } else if kind == FRAME_CRYPTO {
      var offset := ReadVarint(rest);
      if offset == None {
        return Broken;
      }
      var length := ReadVarint(offset.value.1);
      if length == None || length.value.0 > |length.value.1| {
        return Broken;
      }
      var (n, data) := length.value;
      return Go([Fragment(offset.value.0, data[..n])], data[n..]);
    } else if kind == FRAME_CONNECTION_CLOSE {
      var fields := SkipVarints(rest, 2);
      if fields == None {
        return Broken;
      }
      var reason := ReadVarint(fields.value);
      if reason == None || reason.value.0 > |reason.value.1| {
        return Broken;
      }
      return Go([], reason.value.1[reason.value.0..]);
    }
    return Stop;
  }

  method SkipAck(s: seq<byte>, ecn: bool) returns (r: Option<seq<byte>>)
    ensures r == AfterAck(s, ecn)
  {
    var fields := SkipVarints(s, 2);
    if fields == None {
      return None;
    }
    var ranges := ReadVarint(fields.value);
    if ranges == None {
      return None;
    }
    var first := SkipVarints(ranges.value.1, 1);
    if first == None {
      return None;
    }
    r := SkipVarints(first.value, 2 * ranges.value.0);
    if r.Some? && ecn {
      r := SkipVarints(r.value, 3);
    }
  }

  // ---------------------------------------------------------------- frames as a sender writes them

  datatype Frame =
    | Padding
    | Ping
    | Ack(largest: nat, delay: nat, first: nat, ranges: seq<(nat, nat)>, ecn: Option<(nat, nat, nat)>)
    | Crypto(fragment: Fragment)
    | ConnectionClose(code: nat, frameType: nat, reason: seq<byte>)

  function V(v: nat): seq<byte> { D.EncodeVarint(v) }

  function Varints(vs: seq<nat>): seq<byte> {
    if vs == [] then [] else V(vs[0]) + Varints(vs[1..])
  }

  function RangeFields(ranges: seq<(nat, nat)>): (r: seq<nat>)
    ensures |r| == 2 * |ranges|
  {
    if ranges == [] then [] else [ranges[0].0, ranges[0].1] + RangeFields(ranges[1..])
  }

  function EcnFields(ecn: Option<(nat, nat, nat)>): seq<nat> {
    match ecn case None => [] case Some((ect0, ect1, ce)) => [ect0, ect1, ce]
  }

  function EncodeFrame(f: Frame): seq<byte> {
    match f
    case Padding => V(0x00)
    case Ping => V(0x01)
    case Ack(largest, delay, first, ranges, ecn) =>
      V(if ecn.None? then 0x02 else 0x03) +
      Varints([largest, delay]) + V(|ranges|) + V(first) + Varints(RangeFields(ranges)) + Varints(EcnFields(ecn))
    case Crypto(Fragment(offset, data)) => V(0x06) + V(offset) + V(|data|) + data
    case ConnectionClose(code, frameType, reason) =>
      V(0x1c) + Varints([code, frameType]) + V(|reason|) + reason
  }

  predicate Encodable(vs: seq<nat>) {
    forall i :: 0 <= i < |vs| ==> vs[i] <= D.VARINT_MAX
  }

  /** Every field fits in a varint. */
  predicate LegalFrame(f: Frame) {
    match f
    case Padding => true
    case Ping => true
    case Ack(largest, delay, first, ranges, ecn) =>
      && Encodable([largest, delay]) && |ranges| <= D.VARINT_MAX && first <= D.VARINT_MAX
      && Encodable(RangeFields(ranges)) && Encodable(EcnFields(ecn))
    case Crypto(Fragment(offset, data)) => offset <= D.VARINT_MAX && |data| <= D.VARINT_MAX
    case ConnectionClose(code, frameType, reason) => Encodable([code, frameType]) && |reason| <= D.VARINT_MAX
  }

  function EncodeFrames(fs: seq<Frame>): seq<byte> {
    if fs == [] then [] else EncodeFrame(fs[0]) + EncodeFrames(fs[1..])
  }

  function CarriedBy(f: Frame): seq<Fragment> {
    match f case Crypto(g) => [g] case _ => []
  }

  function CryptoOf(fs: seq<Frame>): seq<Fragment> {
    if fs == [] then [] else CarriedBy(fs[0]) + CryptoOf(fs[1..])
  }

  lemma ReadEncoded(v: nat, rest: seq<byte>)
    requires v <= D.VARINT_MAX
    ensures Read(V(v) + rest) == Some((v, rest))
  {
    D.VarintRoundTrip(v, rest);
    assert (V(v) + rest)[|V(v)|..] == rest;
  }

  lemma {:induction false} SkipEncoded(vs: seq<nat>, rest: seq<byte>)
    requires Encodable(vs)
    ensures Skip(Varints(vs) + rest, |vs|) == Some(rest)
  {
    hide D.DecodeVarint, D.EncodeVarint;
    if vs == [] {
      assert [] + rest == rest;
    } else {
      var e, more := V(vs[0]), Varints(vs[1..]);
      D.VarintRoundTrip(vs[0], more + rest);
      assert Varints(vs) + rest == e + (more + rest);
      assert (e + (more + rest))[|e|..] == more + rest;
      SkipEncoded(vs[1..], rest);
    }
  }

  lemma AckBody(head: seq<nat>, n: nat, first: nat, fields: seq<nat>, counts: seq<nat>, rest: seq<byte>)
    requires Encodable(head) && n <= D.VARINT_MAX && first <= D.VARINT_MAX && Encodable(fields) && Encodable(counts)
    requires |head| == 2 && |fields| == 2 * n && (|counts| == 0 || |counts| == 3)
    ensures AfterAck(Varints(head) + (V(n) + (V(first) + (Varints(fields) + (Varints(counts) + rest)))), |counts| == 3)
         == Some(rest)
  {
    var r5 := Varints(counts) + rest;
    var r4 := Varints(fields) + r5;
    var r3 := V(first) + r4;
    var r2 := V(n) + r3;
    SkipEncoded(head, r2);
    ReadEncoded(n, r3);
    ReadEncoded(first, r4);
    assert Skip(r3, 1) == Some(r4);
    SkipEncoded(fields, r5);
    SkipEncoded(counts, rest);
  }

  lemma SixPieces<T>(a: seq<T>, b: seq<T>, c: seq<T>, d: seq<T>, e: seq<T>, f: seq<T>, rest: seq<T>)
    ensures a + b + c + d + e + f + rest == a + (b + (c + (d + (e + (f + rest)))))
  {
  }

  lemma FourPieces<T>(a: seq<T>, b: seq<T>, c: seq<T>, d: seq<T>, rest: seq<T>)
    ensures a + b + c + d + rest == a + (b + (c + (d + rest)))
    ensures (d + rest)[..|d|] == d && (d + rest)[|d|..] == rest
  {
  }

  lemma AckStep(f: Frame, rest: seq<byte>)
    requires f.Ack? && LegalFrame(f)
    ensures FrameStep(EncodeFrame(f) + rest) == Go([], rest)
  {
    var kind := if f.ecn.None? then FRAME_ACK else FRAME_ACK_ECN;
    var head, fields, counts := [f.largest, f.delay], RangeFields(f.ranges), EcnFields(f.ecn);
    var n := |f.ranges|;
    SixPieces(V(kind), Varints(head), V(n), V(f.first), Varints(fields), Varints(counts), rest);
    ReadEncoded(kind, Varints(head) + (V(n) + (V(f.first) + (Varints(fields) + (Varints(counts) + rest)))));
    AckBody(head, n, f.first, fields, counts, rest);
  }

  lemma CryptoStep(f: Fragment, rest: seq<byte>)
    requires LegalFrame(Crypto(f))
    ensures FrameStep(EncodeFrame(Crypto(f)) + rest) == Go([f], rest)
  {
    hide D.DecodeVarint, D.EncodeVarint;
    var n := |f.data|;
    FourPieces(V(FRAME_CRYPTO), V(f.offset), V(n), f.data, rest);
    ReadEncoded(FRAME_CRYPTO, V(f.offset) + (V(n) + (f.data + rest)));
    ReadEncoded(f.offset, V(n) + (f.data + rest));
    ReadEncoded(n, f.data + rest);
  }

  lemma CloseStep(f: Frame, rest: seq<byte>)
    requires f.ConnectionClose? && LegalFrame(f)
    ensures FrameStep(EncodeFrame(f) + rest) == Go([], rest)
  {
    hide D.DecodeVarint, D.EncodeVarint;
    var n, head := |f.reason|, [f.code, f.frameType];
    FourPieces(V(FRAME_CONNECTION_CLOSE), Varints(head), V(n), f.reason, rest);
    ReadEncoded(FRAME_CONNECTION_CLOSE, Varints(head) + (V(n) + (f.reason + rest)));
    SkipEncoded(head, V(n) + (f.reason + rest));
    ReadEncoded(n, f.reason + rest);
  }

  lemma EncodedStep(f: Frame, rest: seq<byte>)
    requires LegalFrame(f)
    ensures FrameStep(EncodeFrame(f) + rest) == Go(CarriedBy(f), rest)
    ensures EncodeFrame(f) != []
  {
    match f
    case Padding => ReadEncoded(FRAME_PADDING, rest);
    case Ping => ReadEncoded(FRAME_PING, rest);
    case Ack(_, _, _, _, _) => AckStep(f, rest);
    case Crypto(g) => CryptoStep(g, rest);
    case ConnectionClose(_, _, _) => CloseStep(f, rest);
  }

  /** Any list of frames gives back exactly its CRYPTO fragments, in order, before whatever follows. */
  lemma {:induction false} WalkEncoded(fs: seq<Frame>, tail: seq<byte>)
    requires forall i :: 0 <= i < |fs| ==> LegalFrame(fs[i])
    ensures Walk(EncodeFrames(fs) + tail) == Behind(CryptoOf(fs), Walk(tail))
  {
    hide FrameStep, EncodeFrame;
    if fs == [] {
      assert [] + tail == tail;
      BehindNothing(Walk(tail));
    } else {
      var rest := EncodeFrames(fs[1..]) + tail;
      EncodedStep(fs[0], rest);
      assert EncodeFrames(fs) + tail == EncodeFrame(fs[0]) + rest;
      WalkEncoded(fs[1..], tail);
      BehindTwice(CarriedBy(fs[0]), CryptoOf(fs[1..]), Walk(tail));
      GoesOn(EncodeFrame(fs[0]) + rest, CarriedBy(fs[0]), rest);
    }
  }

  lemma GoesOn(s: seq<byte>, fs: seq<Fragment>, rest: seq<byte>)
    requires s != [] && FrameStep(s) == Go(fs, rest)
    ensures Walk(s) == Behind(fs, Walk(rest))
  {
  }

  /** A frame type an Initial may not carry ends the walk with what was found before it. */
  lemma UnknownFrameEndsWalk(fs: seq<Frame>, kind: nat, tail: seq<byte>)
    requires forall i :: 0 <= i < |fs| ==> LegalFrame(fs[i])
    requires kind <= D.VARINT_MAX && kind !in {0x00, 0x01, 0x02, 0x03, 0x06, 0x1c}
    ensures Walk(EncodeFrames(fs)) == Some(CryptoOf(fs))
    ensures Walk(EncodeFrames(fs) + (V(kind) + tail)) == Some(CryptoOf(fs))
  {
    WalkEncoded(fs, []);
    assert EncodeFrames(fs) + [] == EncodeFrames(fs);
    ReadEncoded(kind, tail);
    WalkEncoded(fs, V(kind) + tail);
    assert CryptoOf(fs) + [] == CryptoOf(fs);
  }

  // ---------------------------------------------------------------- frames cut short

  lemma ReadStands(s: seq<byte>, ext: seq<byte>)
    requires Read(s).Some?
    ensures Read(s + ext) == Some((Read(s).value.0, Read(s).value.1 + ext))
  {
    var n := D.DecodeVarint(s).value.1;
    D.VarintIgnoresSuffix(s, ext);
    assert (s + ext)[n..] == s[n..] + ext;
  }

  lemma {:induction false} SkipStands(s: seq<byte>, count: nat, ext: seq<byte>)
    requires Skip(s, count).Some?
    ensures Skip(s + ext, count) == Some(Skip(s, count).value + ext)
    decreases count
  {
    hide D.DecodeVarint;
    if count != 0 {
      var n := D.DecodeVarint(s).value.1;
      D.VarintIgnoresSuffix(s, ext);
      assert (s + ext)[n..] == s[n..] + ext;
      SkipStands(s[n..], count - 1, ext);
    }
  }

  lemma AckStands(s: seq<byte>, ecn: bool, ext: seq<byte>)
    requires AfterAck(s, ecn).Some?
    ensures AfterAck(s + ext, ecn) == Some(AfterAck(s, ecn).value + ext)
  {
    hide Skip, Read;
    SkipStands(s, 2, ext);
    var a := Skip(s, 2).value;
    ReadStands(a, ext);
    var (ranges, b) := Read(a).value;
    SkipStands(b, 1, ext);
    var c := Skip(b, 1).value;
    SkipStands(c, 2 * ranges, ext);
    if ecn {
      SkipStands(Skip(c, 2 * ranges).value, 3, ext);
    }
  }

  lemma CryptoStands(s: seq<byte>, ext: seq<byte>)
    requires ReadCrypto(s).Some?
    ensures ReadCrypto(s + ext) == Some((ReadCrypto(s).value.0, ReadCrypto(s).value.1 + ext))
  {
    hide Read;
    ReadStands(s, ext);
    var (_, a) := Read(s).value;
    ReadStands(a, ext);
    var (length, b) := Read(a).value;
    assert (b + ext)[..length] == b[..length] && (b + ext)[length..] == b[length..] + ext;
  }

  lemma CloseStands(s: seq<byte>, ext: seq<byte>)
    requires AfterClose(s).Some?
    ensures AfterClose(s + ext) == Some(AfterClose(s).value + ext)
  {
    hide Read, Skip;
    SkipStands(s, 2, ext);
    var a := Skip(s, 2).value;
    ReadStands(a, ext);
    var (reason, b) := Read(a).value;
    assert (b + ext)[reason..] == b[reason..] + ext;
  }

  /** What a frame says stands whatever follows it. */
  lemma StepStands(s: seq<byte>, ext: seq<byte>)
    requires FrameStep(s) != Broken
    ensures FrameStep(s + ext) == if FrameStep(s).Stop? then Stop else FrameStep(s).(rest := FrameStep(s).rest + ext)
  {
    hide Read, AfterAck, ReadCrypto, AfterClose;
    ReadStands(s, ext);
    var (frame, t) := Read(s).value;
    if frame == FRAME_ACK || frame == FRAME_ACK_ECN {
      AckStands(t, frame == FRAME_ACK_ECN, ext);
    } else if frame == FRAME_CRYPTO {
      CryptoStands(t, ext);
    } else if frame == FRAME_CONNECTION_CLOSE {
      CloseStands(t, ext);
    }
  }

  /** A frame cut short anywhere after frames that are whole: nothing is made of the packet. */
  lemma CutFrameBreaksWalk(fs: seq<Frame>, f: Frame, k: nat)
    requires forall i :: 0 <= i < |fs| ==> LegalFrame(fs[i])
    requires LegalFrame(f) && 0 < k < |EncodeFrame(f)|
    ensures Walk(EncodeFrames(fs) + EncodeFrame(f)[..k]) == None
  {
    hide FrameStep, EncodeFrame, LegalFrame;
    var tail, ext := EncodeFrame(f)[..k], EncodeFrame(f)[k..];
    assert tail + ext == EncodeFrame(f) + [];
    EncodedStep(f, []);
    if FrameStep(tail) != Broken {
      StepStands(tail, ext);
    }
    WalkEncoded(fs, tail);
  }
}
