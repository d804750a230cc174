/** QUIC varints (section 16 of RFC 9000) and HTTP Datagrams (RFC 9297), as src/datagram.rs codes them. */
module Datagram {
  import opened Bytes

  const VARINT_MAX: nat := 0x3fff_ffff_ffff_ffff
  const MAX_QUARTER_STREAM_ID: nat := 0xfff_ffff_ffff_ffff
  const CONTEXT_ID_UDP_PAYLOAD: nat := 0
  const MAX_UDP_PAYLOAD: nat := 65527

  // ---------------------------------------------------------------- big-endian integers

  function Pow256(n: nat): (p: nat)
    ensures p >= 1
  {
    if n == 0 then 1 else 256 * Pow256(n - 1)
  }

  function Value(s: seq<byte>): nat {
    if s == [] then 0 else 256 * Value(s[..|s| - 1]) + s[|s| - 1]
  }

  function BigEndian(v: nat, n: nat): (s: seq<byte>)
    ensures |s| == n
  {
    if n == 0 then [] else BigEndian(v / 256, n - 1) + [v % 256]
  }

  lemma {:induction false} ValueOfBigEndian(v: nat, n: nat)
    requires v < Pow256(n)
    ensures Value(BigEndian(v, n)) == v
  {
    if n != 0 {
      ValueOfBigEndian(v / 256, n - 1);
      assert BigEndian(v, n)[..n - 1] == BigEndian(v / 256, n - 1);
    }
  }

  lemma {:induction false} ValueBound(s: seq<byte>)
    ensures Value(s) < Pow256(|s|)
  {
    if s != [] {
      ValueBound(s[..|s| - 1]);
    }
  }

  /** The leading digit and the rest. */
  lemma {:induction false} ValueSplit(s: seq<byte>)
    requires s != []
    ensures Value(s) == s[0] * Pow256(|s| - 1) + Value(s[1..])
  {
    if |s| == 1 {
      assert s[..0] == [] && s[1..] == [];
    } else {
      var init := s[..|s| - 1];
      ValueSplit(init);
      assert init[1..] == s[1..][..|s| - 2];
      assert Value(s[1..]) == 256 * Value(init[1..]) + s[|s| - 1];
      assert Pow256(|s| - 1) == 256 * Pow256(|s| - 2);
      assert 256 * (s[0] * Pow256(|s| - 2)) == s[0] * Pow256(|s| - 1);
    }
  }

  lemma ValueSnoc(s: seq<byte>, i: nat)
    requires i < |s|
    ensures Value(s[..i + 1]) == 256 * Value(s[..i]) + s[i]
  {
    assert s[..i + 1][..i] == s[..i];
  }

  lemma Powers()
    ensures Pow256(1) == 0x100 && Pow256(2) == 0x1_0000 && Pow256(4) == 0x1_0000_0000
    ensures Pow256(3) == 0x100_0000 && Pow256(7) == 0x100_0000_0000_0000 && Pow256(8) == 0x1_0000_0000_0000_0000
  {
    assert Pow256(3) == 0x100_0000;
    assert Pow256(5) == 0x100_0000_0000;
    assert Pow256(7) == 0x100_0000_0000_0000;
  }

  // ---------------------------------------------------------------- varints

  function VarintLen(value: nat): nat {
    if value <= 0x3f then 1
    else if value <= 0x3fff then 2
    else if value <= 0x3fff_ffff then 4
    else 8
  }

  /** The two leading bits, which say how long the varint is. */
  function Marker(length: nat): nat {
    if length == 1 then 0 else if length == 2 then 1 else if length == 4 then 2 else 3
  }

  /** The bytes of a varint of the given length. */
  function VarintBytes(value: nat, length: nat): (s: seq<byte>)
    requires length >= 1
    ensures |s| == length
  {
    BigEndian(64 * Marker(length) * Pow256(length - 1) + value, length)
  }

  function EncodeVarint(value: nat): (s: seq<byte>)
    ensures 1 <= |s| == VarintLen(value) <= 8
  {
    VarintBytes(value, VarintLen(value))
  }

  /** The length the first byte announces. */
  function Announced(first: byte): (n: nat)
    ensures 1 <= n <= 8
  {
    if first / 64 == 0 then 1 else if first / 64 == 1 then 2 else if first / 64 == 2 then 4 else 8
  }

  /** The varint at the front of `s` and its length, if it is all there. */
  function DecodeVarint(s: seq<byte>): (r: Option<(nat, nat)>)
    ensures r.Some? ==> 1 <= r.value.1 <= 8 && r.value.1 <= |s|
  {
    if s == [] || |s| < Announced(s[0]) then None
    else Some((Value([s[0] % 64] + s[1..Announced(s[0])]), Announced(s[0])))
  }

  /** What the leading byte contributes once its two marker bits are taken off. */
  lemma UnmarkedValue(s: seq<byte>)
    requires s != []
    ensures Value(s) == 64 * (s[0] / 64) * Pow256(|s| - 1) + Value([s[0] % 64] + s[1..])
  {
    ValueSplit(s);
    ValueLead(s[0] % 64, s[1..]);
    var high, low := 64 * (s[0] / 64), s[0] % 64;
    assert s[0] == high + low;
    Distribute(high, low, Pow256(|s| - 1));
  }

  lemma ValueLead(d: byte, rest: seq<byte>)
    ensures Value([d] + rest) == d * Pow256(|rest|) + Value(rest)
  {
    var s := [d] + rest;
    ValueSplit(s);
    assert s[1..] == rest;
  }

  lemma Distribute(a: nat, b: nat, p: nat)
    ensures (a + b) * p == a * p + b * p
  {
  }

  /** A leading digit is determined by the value it leads. */
  lemma LeadingDigit(d: nat, p: nat, low: nat, m: nat, v: nat)
    requires low < p && v < 64 * p
    requires d * p + low == 64 * m * p + v
    ensures d / 64 == m
  {
    TimesMonotone(p, 64 * m + 64, d);
    Distribute(64 * m, 64, p);
    TimesMonotone(p, d + 1, 64 * m);
    Distribute(d, 1, p);
  }

  /** The leading byte of a varint holds the marker of its length, and the bytes spell both. */
  lemma VarintBytesValue(value: nat, length: nat)
    requires 1 <= length && value < 64 * Pow256(length - 1)
    ensures Value(VarintBytes(value, length)) == 64 * Marker(length) * Pow256(length - 1) + value
    ensures VarintBytes(value, length)[0] / 64 == Marker(length)
  {
    var s := VarintBytes(value, length);
    var m, p := Marker(length), Pow256(length - 1);
    assert Pow256(length) == 256 * p;
    Distribute(64 * m, 64, p);
    TimesMonotone(p, 64 * m + 64, 256);
    ValueOfBigEndian(64 * m * p + value, length);
    ValueSplit(s);
    ValueBound(s[1..]);
    LeadingDigit(s[0], p, Value(s[1..]), m, value);
  }

  /** A varint of any length, read back with anything after it. */
  lemma VarintBytesDecode(value: nat, length: nat, suffix: seq<byte>)
    requires length == 1 || length == 2 || length == 4 || length == 8
    requires value < 64 * Pow256(length - 1)
    ensures DecodeVarint(VarintBytes(value, length) + suffix) == Some((value, length))
  {
    var s := VarintBytes(value, length);
    VarintBytesValue(value, length);
    UnmarkedValue(s);
    assert (s + suffix)[0] == s[0] && (s + suffix)[1..length] == s[1..];
  }

  lemma VarintRoundTrip(value: nat, suffix: seq<byte>)
    requires value <= 0x3fff_ffff_ffff_ffff
    ensures DecodeVarint(EncodeVarint(value) + suffix) == Some((value, VarintLen(value)))
  {
    Powers();
    VarintBytesDecode(value, VarintLen(value), suffix);
  }

  /** Bytes that complete a varint decide it; what follows does not. */
  lemma VarintIgnoresSuffix(s: seq<byte>, suffix: seq<byte>)
    requires DecodeVarint(s).Some?
    ensures DecodeVarint(s + suffix) == DecodeVarint(s)
  {
    var n := Announced(s[0]);
    assert (s + suffix)[1..n] == s[1..n];
  }

  lemma VarintWithinPrefix(s: seq<byte>, k: nat)
    requires DecodeVarint(s).Some? && DecodeVarint(s).value.1 <= k <= |s|
    ensures DecodeVarint(s[..k]) == DecodeVarint(s)
  {
    var n := Announced(s[0]);
    assert s[..k][1..n] == s[1..n];
  }

  /** Every decodable value is encodable, in no more bytes than it took. */
  lemma DecodedIsEncodable(s: seq<byte>)
    requires DecodeVarint(s).Some?
    ensures DecodeVarint(s).value.0 <= VARINT_MAX
    ensures VarintLen(DecodeVarint(s).value.0) <= DecodeVarint(s).value.1
  {
    var n := Announced(s[0]);
    var low := [s[0] % 64] + s[1..n];
    Powers();
    ValueSplit(low);
    ValueBound(low[1..]);
    TimesMonotone(Pow256(n - 1), low[0] + 1, 64);
    Distribute(low[0], 1, Pow256(n - 1));
  }

  lemma {:induction false} BigEndianOfValue(s: seq<byte>)
    ensures BigEndian(Value(s), |s|) == s
  {
    if s != [] {
      BigEndianOfValue(s[..|s| - 1]);
    }
  }

  /** The bytes spell this value as a varint of their own length, the shortest or a longer one. */
  ghost predicate IsVarint(a: seq<byte>, value: nat) {
    && (|a| == 1 || |a| == 2 || |a| == 4 || |a| == 8)
    && value < 64 * Pow256(|a| - 1) && a == VarintBytes(value, |a|)
  }

  /** The beginning of a varint that is not all there, nothing at all among the cases. */
  ghost predicate Unfinished(t: seq<byte>) {
    exists a: seq<byte>, value: nat :: Begins(t, a, value)
  }

  ghost predicate Begins(t: seq<byte>, a: seq<byte>, value: nat) {
    IsVarint(a, value) && |t| < |a| && t == a[..|t|]
  }

  lemma IsVarintDecodes(a: seq<byte>, value: nat, suffix: seq<byte>)
    requires IsVarint(a, value)
    ensures DecodeVarint(a + suffix) == Some((value, |a|))
  {
    VarintBytesDecode(value, |a|, suffix);
  }

  lemma WholeIsVarint(a: seq<byte>)
    requires a != [] && |a| == Announced(a[0])
    ensures DecodeVarint(a).Some? && IsVarint(a, DecodeVarint(a).value.0)
  {
    var n := |a|;
    var value := DecodeVarint(a).value.0;
    assert a[1..n] == a[1..];
    UnmarkedValue(a);
    BigEndianOfValue(a);
    var low := [a[0] % 64] + a[1..];
    ValueSplit(low);
    ValueBound(low[1..]);
    TimesMonotone(Pow256(n - 1), low[0] + 1, 64);
    Distribute(low[0], 1, Pow256(n - 1));
  }

  lemma DecodedIsVarint(s: seq<byte>)
    requires DecodeVarint(s).Some?
    ensures IsVarint(s[..DecodeVarint(s).value.1], DecodeVarint(s).value.0)
  {
    var n := Announced(s[0]);
    WholeIsVarint(s[..n]);
    VarintWithinPrefix(s, n);
  }

  lemma EncodedIsVarint(value: nat)
    requires value <= 0x3fff_ffff_ffff_ffff
    ensures IsVarint(EncodeVarint(value), value)
  {
    Powers();
  }

  /** No varint is decoded exactly where one is unfinished. */
  lemma UnfinishedExactly(t: seq<byte>)
    ensures DecodeVarint(t) == None <==> Unfinished(t)
  {
    if Unfinished(t) {
      var a: seq<byte>, value: nat :| Begins(t, a, value);
      if t != [] {
        VarintBytesValue(value, |a|);
        assert t[0] == a[0];
      }
    }
    if DecodeVarint(t) == None {
      var zeros: seq<byte> := if t == [] then [0] else seq(Announced(t[0]) - |t|, _ => 0);
      var a := t + zeros;
      WholeIsVarint(a);
      assert t == a[..|t|];
      assert Begins(t, a, DecodeVarint(a).value.0);
    }
  }

  /** The examples of appendix A.1 of RFC 9000. */
  lemma VarintExamples()
    ensures DecodeVarint([0xc2, 0x19, 0x7c, 0x5e, 0xff, 0x14, 0xe8, 0x8c]) == Some((151288809941952652, 8))
    ensures DecodeVarint([0x9d, 0x7f, 0x3e, 0x7d]) == Some((494878333, 4))
    ensures DecodeVarint([0x7b, 0xbd]) == Some((15293, 2)) && DecodeVarint([0x40, 0x25]) == Some((37, 2))
    ensures DecodeVarint([0x25]) == Some((37, 1))
  {
    hide DecodeVarint, Value;
    var eight: seq<byte> := [0xc2, 0x19, 0x7c, 0x5e, 0xff, 0x14, 0xe8, 0x8c];
    Spelled(eight);
    assert eight[1..] == [0x19, 0x7c, 0x5e] + [0xff, 0x14, 0xe8, 0x8c];
    ThreeMore(0x02, 0x19, 0x7c, 0x5e, [0xff, 0x14, 0xe8, 0x8c]);
    assert [0xff, 0x14, 0xe8, 0x8c] == [0xff, 0x14, 0xe8] + [0x8c];
    ThreeMore(0x2197c5e, 0xff, 0x14, 0xe8, [0x8c]);
    ShorterExamples();
  }

  lemma ShorterExamples()
    ensures DecodeVarint([0x9d, 0x7f, 0x3e, 0x7d]) == Some((494878333, 4))
    ensures DecodeVarint([0x7b, 0xbd]) == Some((15293, 2)) && DecodeVarint([0x40, 0x25]) == Some((37, 2))
    ensures DecodeVarint([0x25]) == Some((37, 1))
  {
    hide DecodeVarint, Value;
    var four: seq<byte> := [0x9d, 0x7f, 0x3e, 0x7d];
    Spelled(four);
    assert four[1..] == [0x7f, 0x3e, 0x7d] + [];
    ThreeMore(0x1d, 0x7f, 0x3e, 0x7d, []);
    Spelled([0x7b, 0xbd]);
    Spelled([0x40, 0x25]);
    Spelled([0x25]);
  }

  /** A whole varint's value, shifted together byte by byte. */
  function Shifted(high: nat, s: seq<byte>): nat
    decreases |s|
  {
    if s == [] then high else Shifted(256 * high + s[0], s[1..])
  }

  lemma ThreeMore(high: nat, a: byte, b: byte, c: byte, rest: seq<byte>)
    ensures Shifted(high, [a, b, c] + rest) == Shifted(256 * (256 * (256 * high + a) + b) + c, rest)
  {
    OneMore(high, a, [b, c] + rest);
    OneMore(256 * high + a, b, [c] + rest);
    OneMore(256 * (256 * high + a) + b, c, rest);
    assert [a, b, c] + rest == [a] + ([b, c] + rest) && [b, c] + rest == [b] + ([c] + rest);
  }

  lemma OneMore(high: nat, a: byte, rest: seq<byte>)
    ensures Shifted(high, [a] + rest) == Shifted(256 * high + a, rest)
  {
    assert ([a] + rest)[1..] == rest;
  }

  lemma {:induction false} ShiftedIsValue(a: seq<byte>, s: seq<byte>)
    ensures Shifted(Value(a), s) == Value(a + s)
    decreases |s|
  {
    if s == [] {
      assert a + s == a;
    } else {
      var b := a + [s[0]];
      assert b[..|b| - 1] == a;
      ShiftedIsValue(b, s[1..]);
      assert b + s[1..] == a + s;
    }
  }

  lemma Spelled(a: seq<byte>)
    requires a != [] && |a| == Announced(a[0])
    ensures DecodeVarint(a) == Some((Shifted(a[0] % 64, a[1..]), |a|))
  {
    var lead: seq<byte> := [a[0] % 64];
    assert lead[..0] == [] && Value(lead) == a[0] % 64;
    ShiftedIsValue(lead, a[1..]);
    assert a[1..|a|] == a[1..];
  }

  /** The decoding loop: shift each byte in. */
  method PeekVarint(buf: seq<byte>) returns (r: Option<(nat, nat)>)
    ensures r == DecodeVarint(buf)
  {
    if buf == [] {
      return None;
    }
    var first := buf[0];
    var length := Announced(first);
    if |buf| < length {
      return None;
    }
    var value: nat := first % 64;
    ghost var low := [first % 64] + buf[1..length];
    assert low[..1] == [first % 64] && Value([first % 64]) == first % 64;
    for i := 1 to length
      invariant value == Value(low[..i])
    {
      ValueSnoc(low, i);
      value := value * 256 + buf[i];
    }
    assert low[..length] == low;
    r := Some((value, length));
  }

  /** A byte buffer that is appended to at the back and read from at the front. */
  class Buffer {
    var bytes: seq<byte>

    constructor ()
      ensures bytes == []
    {
      bytes := [];
    }

    method PutSlice(s: seq<byte>)
      modifies this
      ensures bytes == old(bytes) + s
    {
      bytes := bytes + s;
    }

    /** Appends a varint; larger values are unrepresentable and the original refuses them. */
    method PutVarint(value: nat)
      requires value <= VARINT_MAX
      modifies this
      ensures bytes == old(bytes) + EncodeVarint(value)
    {
      Powers();
      var length := VarintLen(value);
      if length == 1 {
        bytes := bytes + BigEndian(value, 1);
      } else if length == 2 {
        bytes := bytes + BigEndian(0x4000 + value, 2);
      } else if length == 4 {
        bytes := bytes + BigEndian(0x8000_0000 + value, 4);
      } else {
        bytes := bytes + BigEndian(0xc000_0000_0000_0000 + value, 8);
      }
    }

    /** Takes a varint off the front, or leaves the buffer alone when it is not all there. */
    method TakeVarint() returns (r: Option<nat>)
      modifies this
      ensures match DecodeVarint(old(bytes))
        case None => r == None && bytes == old(bytes)
        case Some((value, length)) => r == Some(value) && bytes == old(bytes)[length..]
    {
      var peeked := PeekVarint(bytes);
      if peeked == None {
        return None;
      }
      bytes := bytes[peeked.value.1..];
      r := Some(peeked.value.0);
    }
  }

  // ---------------------------------------------------------------- HTTP Datagrams

  datatype Datagram = Datagram(quarterStreamId: nat, contextId: nat, payload: seq<byte>)

  datatype DecodeError = MissingQuarterStreamId | QuarterStreamIdTooLarge(id: nat) | MissingContextId
  {
    predicate IsConnectionError() { !MissingContextId? }
  }

  function EncodeDatagram(d: Datagram): seq<byte> {
    EncodeVarint(d.quarterStreamId) + EncodeVarint(d.contextId) + d.payload
  }

  function DecodeDatagram(s: seq<byte>): Result<Datagram, DecodeError> {
    match DecodeVarint(s)
    case None => Err(MissingQuarterStreamId)
    case Some((id, n)) =>
      if id > MAX_QUARTER_STREAM_ID then Err(QuarterStreamIdTooLarge(id)) else
      match DecodeVarint(s[n..])
      case None => Err(MissingContextId)
      case Some((context, m)) => Ok(Datagram(id, context, s[n + m..]))
  }

  /** A value a peer may legally send. */
  predicate Legal(d: Datagram) {
    d.quarterStreamId <= 0xfff_ffff_ffff_ffff && d.contextId <= 0x3fff_ffff_ffff_ffff
  }

  method Encode(d: Datagram) returns (s: seq<byte>)
    requires d.quarterStreamId <= VARINT_MAX && d.contextId <= VARINT_MAX
    ensures s == EncodeDatagram(d)
    ensures |s| == VarintLen(d.quarterStreamId) + VarintLen(d.contextId) + |d.payload|
  {
    var buf := new Buffer();
    buf.PutVarint(d.quarterStreamId);
    buf.PutVarint(d.contextId);
    buf.PutSlice(d.payload);
    s := buf.bytes;
  }

  method Decode(s: seq<byte>) returns (r: Result<Datagram, DecodeError>)
    ensures r == DecodeDatagram(s)
  {
    var buf := new Buffer();
    buf.PutSlice(s);
    assert buf.bytes == s;
    var id := buf.TakeVarint();
    if id == None {
      return Err(MissingQuarterStreamId);
    }
    if id.value > MAX_QUARTER_STREAM_ID {
      return Err(QuarterStreamIdTooLarge(id.value));
    }
    var context := buf.TakeVarint();
    if context == None {
      return Err(MissingContextId);
    }
    r := Ok(Datagram(id.value, context.value, buf.bytes));
  }

  /** Three pieces, and what is left after the first and after the second. */
  lemma Three<T>(a: seq<T>, b: seq<T>, c: seq<T>)
    ensures a + b + c == a + (b + c)
    ensures (a + b + c)[|a|..] == b + c
    ensures (a + b + c)[|a| + |b|..] == c
  {
  }

  lemma DatagramRoundTrip(d: Datagram)
    requires Legal(d)
    ensures DecodeDatagram(EncodeDatagram(d)) == Ok(d)
  {
    var a, b := EncodeVarint(d.quarterStreamId), EncodeVarint(d.contextId);
    VarintRoundTrip(d.quarterStreamId, b + d.payload);
    VarintRoundTrip(d.contextId, d.payload);
    Three(a, b, d.payload);
  }

  /** Nothing where a Quarter Stream ID should be, or the beginning of one. */
  lemma MissingQuarterStreamIdExactly(s: seq<byte>)
    ensures DecodeDatagram(s) == Err(MissingQuarterStreamId) <==> Unfinished(s)
  {
    UnfinishedExactly(s);
  }

  /** A legal Quarter Stream ID, up to 2^60 - 1, and then less than a Context ID. */
  lemma MissingContextIdFails(a: seq<byte>, id: nat, t: seq<byte>)
    requires IsVarint(a, id) && id <= 0xfff_ffff_ffff_ffff && Unfinished(t)
    ensures DecodeDatagram(a + t) == Err(MissingContextId)
  {
    UnfinishedExactly(t);
    IsVarintDecodes(a, id, t);
    assert (a + t)[|a|..] == t;
  }

  /** A Quarter Stream ID from 2^60 on, whatever follows it. */
  lemma TooLargeIdFails(a: seq<byte>, id: nat, rest: seq<byte>)
    requires IsVarint(a, id) && id >= 0x1000_0000_0000_0000
    ensures DecodeDatagram(a + rest) == Err(QuarterStreamIdTooLarge(id))
  {
    IsVarintDecodes(a, id, rest);
  }

  /** Whatever decodes is legal, and its own encoding decodes alike and is no longer. */
  lemma ReencodeDatagram(s: seq<byte>)
    requires DecodeDatagram(s).Ok?
    ensures var d := DecodeDatagram(s).value;
      && Legal(d)
      && DecodeDatagram(EncodeDatagram(d)) == Ok(d)
      && |EncodeDatagram(d)| <= |s|
  {
    var d := DecodeDatagram(s).value;
    var n := DecodeVarint(s).value.1;
    DecodedIsEncodable(s);
    DecodedIsEncodable(s[n..]);
    DatagramRoundTrip(d);
  }
}
