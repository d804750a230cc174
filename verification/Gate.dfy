/** The SNI gate (src/gate.rs): header bounds, the verdict on a datagram, and blinding a received batch. */
module Gate {
  import opened Bytes
  import D = Datagram
  import C = CryptoStream
  import T = ClientHello

  const QUIC_V1: nat := 1
  const MAX_CONNECTION_ID: nat := 20
  const MIN_INITIAL_DATAGRAM: nat := 1200
  const MIN_CLIENT_CONNECTION_ID: nat := 8
  const IMPOSSIBLE_CID_LENGTH: byte := 0xff
  const DCID_LENGTH_OFFSET: nat := 5

  // ---------------------------------------------------------------- the Initial header

  datatype InitialHeader = InitialHeader(dcidEnd: nat, packetNumberOffset: nat, packetEnd: nat)
  {
    function DcidLength(): int { dcidEnd - 6 }
  }

  /** Reads an Initial header, or finds that it does not fit what arrived. */
  method ParseInitial(datagram: seq<byte>) returns (r: Option<InitialHeader>)
    ensures r == Initial(datagram)
  {
    hide D.DecodeVarint;
    var at := DCID_LENGTH_OFFSET;
    if at >= |datagram| {
      return None;
    }
    var dcidLength := datagram[at];
    at := at + 1;
    if dcidLength > MAX_CONNECTION_ID || at + dcidLength > |datagram| {
      return None;
    }
    var dcidEnd := at + dcidLength;
    at := dcidEnd;
    if at >= |datagram| {
      return None;
    }
    var scidLength := datagram[at];
    at := at + 1;
    if scidLength > MAX_CONNECTION_ID {
      return None;
    }
    at := at + scidLength;
    if at > |datagram| {
      return None;
    }
    var token := D.PeekVarint(datagram[at..]);
    if token == None {
      return None;
    }
    at := at + token.value.1 + token.value.0;
    if at > |datagram| {
      return None;
    }
    var length := D.PeekVarint(datagram[at..]);
    if length == None {
      return None;
    }
    var packetNumberOffset := at + length.value.1;
    var packetEnd := packetNumberOffset + length.value.0;
    if packetEnd > |datagram| {
      return None;
    }
    r := Some(InitialHeader(dcidEnd, packetNumberOffset, packetEnd));
  }

  /** Where a length-prefixed connection ID that starts at `at` ends. */
  function ConnectionIdEnd(d: seq<byte>, at: nat): (r: Option<nat>)
    ensures r.Some? ==> at < r.value <= |d| && r.value <= at + 1 + MAX_CONNECTION_ID
  {
    if at >= |d| || d[at] > MAX_CONNECTION_ID || at + 1 + d[at] > |d| then None else Some(at + 1 + d[at])
  }

  /** The offset after a varint at `at`, and after as many bytes as it counts. */
  function CountedAt(d: seq<byte>, at: nat): (r: Option<(nat, nat)>)
    requires at <= |d|
    ensures r.Some? ==> at < r.value.0 <= r.value.1 <= |d|
  {
    match D.DecodeVarint(d[at..])
    case None => None
    case Some((v, n)) => if at + n + v > |d| then None else Some((at + n, at + n + v))
  }

  /** All bounds are inside the datagram, in order. */
  function Initial(d: seq<byte>): (r: Option<InitialHeader>)
    ensures r.Some? ==>
      6 <= r.value.dcidEnd < r.value.packetNumberOffset <= r.value.packetEnd <= |d| && r.value.dcidEnd <= 26
  {
    match ConnectionIdEnd(d, DCID_LENGTH_OFFSET)
    case None => None
    case Some(dcidEnd) =>
      match ConnectionIdEnd(d, dcidEnd)
      case None => None
      case Some(scidEnd) =>
        match CountedAt(d, scidEnd)
        case None => None
        case Some((_, tokenEnd)) =>
          match CountedAt(d, tokenEnd)
          case None => None
          case Some((number, end)) => Some(InitialHeader(dcidEnd, number, end))
  }

  /** An Initial packet as a sender lays it out (section 17.2.2 of RFC 9000); `trailing` may hold more packets. */
  function EncodeInitial(start: seq<byte>, dcid: seq<byte>, scid: seq<byte>, token: seq<byte>,
                         packet: seq<byte>, trailing: seq<byte>): seq<byte>
    requires |start| == 5 && |dcid| < 256 && |scid| < 256
  {
    start + ([|dcid|] + dcid + ([|scid|] + scid +
      (D.EncodeVarint(|token|) + token + (D.EncodeVarint(|packet|) + packet + trailing))))
  }

  lemma ConnectionIdAt(before: seq<byte>, id: seq<byte>, after: seq<byte>)
    requires |id| <= 20
    ensures ConnectionIdEnd(before + ([|id|] + id + after), |before|) == Some(|before| + 1 + |id|)
  {
  }

  lemma CountedField(before: seq<byte>, v: seq<byte>, field: seq<byte>, after: seq<byte>)
    requires D.IsVarint(v, |field|)
    ensures CountedAt(before + (v + field + after), |before|) == Some((|before| + |v|, |before| + |v| + |field|))
  {
    hide D.DecodeVarint, D.IsVarint;
    D.IsVarintDecodes(v, |field|, field + after);
    assert (before + (v + field + after))[|before|..] == v + (field + after);
  }

  /** The parts of an Initial (section 17.2.2 of RFC 9000); its two lengths are varints of any length. */
  datatype Layout = Layout(start: seq<byte>, dcid: seq<byte>, scid: seq<byte>, tokenLength: seq<byte>, token: seq<byte>,
                           packetLength: seq<byte>, packet: seq<byte>, trailing: seq<byte>)
  {
    ghost predicate Fits() {
      && |start| == 5 && |dcid| <= 20 && |scid| <= 20
      && D.IsVarint(tokenLength, |token|) && D.IsVarint(packetLength, |packet|)
    }

    function Bytes(): seq<byte>
      requires |dcid| <= 20 && |scid| <= 20
    {
      start + ([|dcid|] + dcid + ([|scid|] + scid + (tokenLength + token + (packetLength + packet + trailing))))
    }

    function Number(): nat { 7 + |dcid| + |scid| + |tokenLength| + |token| + |packetLength| }

    function Header(): InitialHeader { InitialHeader(6 + |dcid|, Number(), Number() + |packet|) }

    /** These are the parts of `d`. */
    ghost predicate Of(d: seq<byte>) { Fits() && d == Bytes() }
  }

  lemma LaidOutIsRead(l: Layout)
    requires l.Fits()
    ensures Initial(l.Bytes()) == Some(l.Header())
  {
    hide ConnectionIdEnd, CountedAt, D.IsVarint;
    var f := l.packetLength + l.packet + l.trailing;
    var e := l.tokenLength + l.token + f;
    var c := [|l.scid|] + l.scid + e;
    var b1 := l.start + ([|l.dcid|] + l.dcid);
    var b2 := b1 + ([|l.scid|] + l.scid);
    var b3 := b2 + (l.tokenLength + l.token);
    Regroup(l.start, [|l.dcid|] + l.dcid, [|l.scid|] + l.scid, l.tokenLength + l.token, f);
    ConnectionIdAt(l.start, l.dcid, c);
    ConnectionIdAt(b1, l.scid, e);
    CountedField(b2, l.tokenLength, l.token, f);
    CountedField(b3, l.packetLength, l.packet, l.trailing);
  }

  /** The parts of `d` after `at`, when the field there fits. */
  lemma FieldAt(d: seq<byte>, at: nat) returns (v: seq<byte>, field: seq<byte>)
    requires at <= |d| && CountedAt(d, at).Some?
    ensures D.IsVarint(v, |field|) && CountedAt(d, at).value == (at + |v|, at + |v| + |field|)
    ensures d[at..] == v + field + d[at + |v| + |field|..]
  {
    hide D.DecodeVarint, D.IsVarint;
    D.DecodedIsVarint(d[at..]);
    var (value, n) := D.DecodeVarint(d[at..]).value;
    v, field := d[at..][..n], d[at + n..at + n + value];
  }

  lemma IdAt(d: seq<byte>, at: nat) returns (id: seq<byte>)
    requires ConnectionIdEnd(d, at).Some?
    ensures |id| <= 20 && ConnectionIdEnd(d, at).value == at + 1 + |id|
    ensures d[at..] == [|id|] + id + d[at + 1 + |id|..]
  {
    id := d[at + 1..at + 1 + d[at]];
  }

  lemma ReadIsLaidOut(d: seq<byte>) returns (l: Layout)
    requires Initial(d).Some?
    ensures l.Of(d)
  {
    hide ConnectionIdEnd, CountedAt, D.IsVarint;
    var dcid := IdAt(d, 5);
    var a := 6 + |dcid|;
    var scid := IdAt(d, a);
    var b := a + 1 + |scid|;
    var tokenLength, token := FieldAt(d, b);
    var c := b + |tokenLength| + |token|;
    var packetLength, packet := FieldAt(d, c);
    l := Layout(d[..5], dcid, scid, tokenLength, token, packetLength, packet, d[c + |packetLength| + |packet|..]);
    assert d == d[..5] + d[5..];
  }

  lemma PartsAreRead(l: Layout, d: seq<byte>)
    requires l.Of(d)
    ensures Initial(d) == Some(l.Header())
  {
    LaidOutIsRead(l);
  }

  /** A header is read exactly from the datagrams laid out like this, and at the offsets of their parts. */
  lemma InitialExactly(d: seq<byte>, h: InitialHeader)
    ensures Initial(d) == Some(h) <==>
      exists l: Layout :: l.Of(d) && h == l.Header()
  {
    hide Initial, Layout.Fits, Layout.Header;
    if Initial(d) == Some(h) {
      var l := ReadIsLaidOut(d);
      PartsAreRead(l, d);
    }
    if l: Layout :| l.Of(d) && h == l.Header() {
      PartsAreRead(l, d);
    }
  }

  /** The header of a well-formed Initial is read at the offsets its sender used. */
  lemma InitialRoundTrip(start: seq<byte>, dcid: seq<byte>, scid: seq<byte>, token: seq<byte>,
                         packet: seq<byte>, trailing: seq<byte>)
    requires |start| == 5 && |dcid| <= 20 && |scid| <= 20
    requires |token| <= 0x3fff_ffff_ffff_ffff && |packet| <= 0x3fff_ffff_ffff_ffff
    ensures var d := EncodeInitial(start, dcid, scid, token, packet, trailing);
      && Initial(d).Some?
      && var h := Initial(d).value;
      && d[6..h.dcidEnd] == dcid && d[h.packetNumberOffset..h.packetEnd] == packet && d[h.packetEnd..] == trailing
  {
    hide Initial, D.EncodeVarint, D.IsVarint;
    D.EncodedIsVarint(|token|);
    D.EncodedIsVarint(|packet|);
    var l := Layout(start, dcid, scid, D.EncodeVarint(|token|), token, D.EncodeVarint(|packet|), packet, trailing);
    LaidOutIsRead(l);
    PartsAreThere(l);
  }

  lemma PartsAreThere(l: Layout)
    requires |l.start| == 5 && |l.dcid| <= 20 && |l.scid| <= 20
    ensures var d, n := l.Bytes(), l.Number();
      |d| >= n + |l.packet| && d[6..6 + |l.dcid|] == l.dcid && d[n..n + |l.packet|] == l.packet && d[n + |l.packet|..] == l.trailing
  {
    var d := l.Bytes();
    var more := [|l.scid|] + l.scid + (l.tokenLength + l.token + (l.packetLength + l.packet + l.trailing));
    var a := l.start + [|l.dcid|];
    assert d == a + (l.dcid + more);
    Window(a, l.dcid, more);
    var b := a + (l.dcid + ([|l.scid|] + l.scid + (l.tokenLength + l.token + l.packetLength)));
    assert d == b + (l.packet + l.trailing);
    Window(b, l.packet, l.trailing);
  }

  lemma Window<X>(a: seq<X>, b: seq<X>, c: seq<X>)
    ensures (a + (b + c))[|a|..|a| + |b|] == b && (a + (b + c))[|a| + |b|..] == c
  {
  }

  lemma Regroup<X>(a: seq<X>, b: seq<X>, c: seq<X>, d: seq<X>, e: seq<X>)
    ensures a + (b + (c + (d + e))) == (a + b) + (c + (d + e)) == (a + b + c) + (d + e) == (a + b + c + d) + e
  {
  }

  // ---------------------------------------------------------------- names

  function Lower(s: seq<byte>): (r: seq<byte>)
    ensures |r| == |s|
  {
    seq(|s|, i requires 0 <= i < |s| => if 65 <= s[i] <= 90 then s[i] + 32 else s[i])
  }

  /** Without its trailing root dot; one dot and no more. */
  function RootRelative(name: seq<byte>): seq<byte> {
    if name != [] && name[|name| - 1] == 46 then name[..|name| - 1] else name
  }

  function Normalise(name: seq<byte>): seq<byte> { Lower(RootRelative(name)) }

  predicate EqIgnoreCase(a: seq<byte>, b: seq<byte>) { Lower(a) == Lower(b) }

  /** The list as it is held: normalised once, when the configuration is loaded. */
  function Held(configured: seq<seq<byte>>): (held: seq<seq<byte>>)
    ensures |held| == |configured|
  {
    seq(|configured|, i requires 0 <= i < |configured| => Normalise(configured[i]))
  }

  predicate Accepts(held: seq<seq<byte>>, name: seq<byte>) {
    exists i :: 0 <= i < |held| && EqIgnoreCase(held[i], RootRelative(name))
  }

  /** The same name: equal up to ASCII case, after taking one trailing dot off each. */
  predicate SameName(a: seq<byte>, b: seq<byte>) {
    var c, d := WithoutDot(a), WithoutDot(b);
    |c| == |d| && forall i :: 0 <= i < |c| ==> SameLetter(c[i], d[i])
  }

  function WithoutDot(a: seq<byte>): seq<byte> { if |a| > 0 && a[|a| - 1] == 46 then a[..|a| - 1] else a }

  predicate SameLetter(x: byte, y: byte) {
    || x == y
    || (97 <= x <= 122 && y == x - 32)
    || (97 <= y <= 122 && x == y - 32)
  }

  lemma NormalisedExactly(a: seq<byte>, b: seq<byte>)
    ensures Normalise(a) == Normalise(b) <==> SameName(a, b)
  {
    var c, d := WithoutDot(a), WithoutDot(b);
    assert Normalise(a) == Lower(c) && Normalise(b) == Lower(d);
    if Normalise(a) == Normalise(b) {
      forall i | 0 <= i < |c| ensures SameLetter(c[i], d[i]) {
        assert Lower(c)[i] == Lower(d)[i];
      }
    }
  }

  /** A name is accepted exactly when it is the same name as a configured one. */
  lemma AcceptsIsSameName(configured: seq<seq<byte>>, name: seq<byte>)
    ensures Accepts(Held(configured), name) <==>
      exists i :: 0 <= i < |configured| && SameName(configured[i], name)
  {
    hide SameName;
    var held := Held(configured);
    forall i | 0 <= i < |configured|
      ensures EqIgnoreCase(held[i], RootRelative(name)) <==> SameName(configured[i], name)
    {
      var n := Normalise(configured[i]);
      assert Lower(n) == n;
      NormalisedExactly(configured[i], name);
    }
  }

  // ---------------------------------------------------------------- the verdict

  datatype Refusal =
    | Version(version: nat)
    | ShortConnectionId(length: nat)
    | NotClientHello
    | Anonymous
    | OtherName(name: seq<byte>)

  datatype Verdict = Pass | Refuse(refusal: Refusal)

  function JudgeFlight(flight: T.FirstFlight, held: seq<seq<byte>>): Verdict {
    match flight
    case Truncated => Pass
    case NotAClientHello => Refuse(NotClientHello)
    case Anonymous => Refuse(Anonymous)
    case Named(name) => if Accepts(held, name) then Pass else Refuse(OtherName(name))
  }

  /** The verdict on the decrypted frames of an Initial. */
  function JudgeFrames(frames: seq<byte>, held: seq<seq<byte>>): Verdict {
    match C.Walk(frames)
    case None => Pass
    case Some(fragments) =>
      var stream := C.Prefix(fragments);
      if stream == [] then Pass else JudgeFlight(T.Judge(stream), held)
  }

  function ReadVersion(d: seq<byte>): nat
    requires |d| >= 5
  {
    T.Wide(T.Wide(T.Wide(d[1], d[2]), d[3]), d[4])
  }

  /** `decrypt` stands for key derivation and the AEAD, which are not modelled. */
  function JudgeDatagram(d: seq<byte>, held: seq<seq<byte>>,
                         decrypt: (seq<byte>, InitialHeader) -> Option<seq<byte>>): Verdict
  {
    if d == [] || d[0] < 0x80 || |d| < 5 then Pass
    else if ReadVersion(d) != QUIC_V1 then Refuse(Version(ReadVersion(d)))
    else if d[0] / 16 % 4 != 0 || |d| < MIN_INITIAL_DATAGRAM then Pass
    else match Initial(d)
      case None => Pass
      case Some(h) =>
        if h.DcidLength() < MIN_CLIENT_CONNECTION_ID then Refuse(ShortConnectionId(h.DcidLength()))
        else match decrypt(d, h)
          case None => Pass
          case Some(frames) => JudgeFrames(frames, held)
  }

  /** The verdicts on the first bytes alone: short headers, other versions, other packets and short datagrams. */
  lemma VerdictByFirstBytes(d: seq<byte>, held: seq<seq<byte>>, decrypt: (seq<byte>, InitialHeader) -> Option<seq<byte>>)
    ensures d == [] || d[0] < 128 || |d| < 5 ==> JudgeDatagram(d, held, decrypt) == Pass
    ensures |d| >= 5 && d[0] >= 128 && d[1..5] != [0, 0, 0, 1] ==>
      JudgeDatagram(d, held, decrypt) ==
      Refuse(Version(16777216 * (d[1] as int) + 65536 * (d[2] as int) + 256 * (d[3] as int) + d[4]))
    ensures |d| >= 5 && d[0] >= 128 && d[1..5] == [0, 0, 0, 1] && !(128 <= d[0] < 144 || 192 <= d[0] < 208) ==>
      JudgeDatagram(d, held, decrypt) == Pass
    ensures |d| >= 5 && d[0] >= 128 && d[1..5] == [0, 0, 0, 1] && |d| < 1200 ==> JudgeDatagram(d, held, decrypt) == Pass
  {
    hide Initial, JudgeFrames;
    if |d| >= 5 {
      assert d[1..5] == [d[1], d[2], d[3], d[4]];
    }
  }

  /** An Initial of version 1 in a datagram of 1200 bytes or more: the datagrams whose header is read at all. */
  predicate IsFirstInitial(d: seq<byte>) {
    |d| >= 1200 && (128 <= d[0] < 144 || 192 <= d[0] < 208) && d[1..5] == [0, 0, 0, 1]
  }

  /**
   What such a datagram meets: passed when no header can be read or the packet does not open, refused for a
   Destination Connection ID under eight bytes whatever it opens to, and judged by its frames otherwise.
   */
  lemma VerdictByHeader(d: seq<byte>, held: seq<seq<byte>>, decrypt: (seq<byte>, InitialHeader) -> Option<seq<byte>>)
    requires IsFirstInitial(d)
    ensures (forall l: Layout :: !l.Of(d)) ==> JudgeDatagram(d, held, decrypt) == Pass
    ensures forall l: Layout :: l.Of(d) && |l.dcid| < 8 ==>
      JudgeDatagram(d, held, decrypt) == Refuse(ShortConnectionId(|l.dcid|))
    ensures forall l: Layout :: l.Of(d) && |l.dcid| >= 8 ==>
      JudgeDatagram(d, held, decrypt) ==
        match decrypt(d, l.Header())
        case None => Pass
        case Some(frames) => JudgeFrames(frames, held)
  {
    hide Initial, JudgeFrames, Layout.Of, Layout.Number;
    assert d[1] == d[1..5][0] && d[2] == d[1..5][1] && d[3] == d[1..5][2] && d[4] == d[1..5][3];
    forall l: Layout | l.Of(d) ensures Initial(d) == Some(l.Header()) {
      PartsAreRead(l, d);
    }
    if Initial(d).Some? {
      var l := ReadIsLaidOut(d);
    }
  }

  /** Frames that do not walk, or that say nothing of the stream's beginning, are passed on. */
  lemma NoBeginningPasses(frames: seq<byte>, held: seq<seq<byte>>)
    ensures C.Walk(frames) == None ==> JudgeFrames(frames, held) == Pass
    ensures C.Walk(frames).Some? && !C.Covered(C.Walk(frames).value, 0) ==> JudgeFrames(frames, held) == Pass
  {
    hide C.Walk, C.Prefix, C.Covered;
    if C.Walk(frames).Some? && !C.Covered(C.Walk(frames).value, 0) {
      C.PrefixEndsAtLeastGap(C.Walk(frames).value, 0);
    }
  }

  /** A stream that begins with another message than a ClientHello, type 1, is refused. */
  lemma OtherMessageRefused(stream: seq<byte>, frames: seq<C.Frame>, held: seq<seq<byte>>)
    requires stream != [] && stream[0] != 1 && Carries(frames, stream) && CoversAll(frames, 1)
    ensures JudgeFrames(C.EncodeFrames(frames), held) == Refuse(NotClientHello)
  {
    hide C.Prefix, C.EncodeFrames, C.Walk;
    WalkOfFrames(frames);
    var fs := C.CryptoOf(frames);
    C.CoveredStretch(fs, stream, 1);
    assert stream[..1][0] == stream[0];
    T.OtherVerdicts(C.Prefix(fs));
  }

  /** The verdict a ClientHello deserves by what it asks for. */
  function HelloVerdict(h: T.Hello, held: seq<seq<byte>>): Verdict {
    match T.Asked(h.extensions)
    case None => Refuse(Anonymous)
    case Some(name) => if Accepts(held, name) then Pass else Refuse(OtherName(name))
  }

  /** Frames that carry slices of the handshake stream `message + rest`. */
  ghost predicate Carries(frames: seq<C.Frame>, stream: seq<byte>) {
    && (forall i :: 0 <= i < |frames| ==> C.LegalFrame(frames[i]))
    && C.AllSlices(C.CryptoOf(frames), stream)
  }

  ghost predicate CoversAll(frames: seq<C.Frame>, n: nat) {
    forall p :: 0 <= p < n ==> C.Covered(C.CryptoOf(frames), p)
  }

  lemma WalkOfFrames(frames: seq<C.Frame>)
    requires forall i :: 0 <= i < |frames| ==> C.LegalFrame(frames[i])
    ensures C.Walk(C.EncodeFrames(frames)) == Some(C.CryptoOf(frames))
  {
    C.UnknownFrameEndsWalk(frames, 5, []);
  }

  /**
   A whole ClientHello gets the verdict it deserves, however its bytes are cut into CRYPTO frames,
   reordered, repeated, overlapped and mixed with other frames.
   */
  lemma WholeHelloIsJudged(h: T.Hello, rest: seq<byte>, frames: seq<C.Frame>, held: seq<seq<byte>>)
    requires T.LegalHello(h) && Carries(frames, T.EncodeMessage(h) + rest)
    requires CoversAll(frames, |T.EncodeMessage(h)|)
    ensures JudgeFrames(C.EncodeFrames(frames), held) == HelloVerdict(h, held)
  {
    hide C.Prefix, C.EncodeFrames, T.Judge, Accepts, T.EncodeMessage;
    WalkOfFrames(frames);
    MessageStart(h);
    var m, fs := T.EncodeMessage(h), C.CryptoOf(frames);
    var stream := m + rest;
    C.CoveredStretch(fs, stream, |m|);
    assert stream[..|m|] == m;
    var prefix := C.Prefix(fs);
    var more := prefix[|m|..];
    assert prefix == m + more;
    T.HelloIsRead(h, more);
  }

  lemma MessageStart(h: T.Hello)
    requires T.LegalHello(h)
    ensures var m := T.EncodeMessage(h);
      |m| >= 4 && m[0] == 1 && |m| == 4 + T.Declared(m)
  {
    hide T.EncodeBody;
    T.BodyFitsLength(h);
    T.ThreeByteLength(|T.EncodeBody(h)|);
  }

  /** A ClientHello that is not all there is passed on, whatever part of it arrived. */
  lemma PartialHelloPasses(h: T.Hello, rest: seq<byte>, frames: seq<C.Frame>, held: seq<seq<byte>>)
    requires T.LegalHello(h) && Carries(frames, T.EncodeMessage(h) + rest)
    requires !CoversAll(frames, |T.EncodeMessage(h)|)
    ensures JudgeFrames(C.EncodeFrames(frames), held) == Pass
  {
    hide C.Prefix, C.EncodeFrames, T.EncodeMessage;
    WalkOfFrames(frames);
    MessageStart(h);
    var m, fs := T.EncodeMessage(h), C.CryptoOf(frames);
    C.SlicesGivePrefix(fs, m + rest);
    C.PrefixIsExact(fs);
    C.SuppliedIsCovered(fs, C.Prefix(fs));
    var n := |C.Prefix(fs)|;
    assert n < |m|;
    assert C.Prefix(fs) == m[..n];
    if n > 0 {
      T.TruncatedExactlyWhenShort(m, n);
    }
  }

  /** The same over a whole datagram, once its packet opens to those frames. */
  lemma InitialIsJudged(first: byte, dcid: seq<byte>, scid: seq<byte>, token: seq<byte>, packet: seq<byte>,
                        trailing: seq<byte>, h: T.Hello, rest: seq<byte>, frames: seq<C.Frame>,
                        held: seq<seq<byte>>, decrypt: (seq<byte>, InitialHeader) -> Option<seq<byte>>)
    requires 0xc0 <= first < 0xd0
    requires 8 <= |dcid| <= 20 && |scid| <= 20
    requires |token| <= 0x3fff_ffff_ffff_ffff && |packet| <= 0x3fff_ffff_ffff_ffff
    requires |EncodeInitial([first, 0, 0, 0, 1], dcid, scid, token, packet, trailing)| >= 1200
    requires var d := EncodeInitial([first, 0, 0, 0, 1], dcid, scid, token, packet, trailing);
      Initial(d).Some? ==> decrypt(d, Initial(d).value) == Some(C.EncodeFrames(frames))
    requires T.LegalHello(h) && Carries(frames, T.EncodeMessage(h) + rest)
    ensures var d := EncodeInitial([first, 0, 0, 0, 1], dcid, scid, token, packet, trailing);
      JudgeDatagram(d, held, decrypt) ==
      if CoversAll(frames, |T.EncodeMessage(h)|) then HelloVerdict(h, held) else Pass
  {
    hide Initial, T.EncodeMessage, JudgeFrames, HelloVerdict, C.EncodeFrames, D.EncodeVarint;
    var start: seq<byte> := [first, 0, 0, 0, 1];
    var d := EncodeInitial(start, dcid, scid, token, packet, trailing);
    assert d[..5] == start;
    assert d[0] == first && d[1] == 0 && d[2] == 0 && d[3] == 0 && d[4] == 1 by {
      assert forall i :: 0 <= i < 5 ==> d[i] == start[i];
    }
    InitialRoundTrip(start, dcid, scid, token, packet, trailing);
    assert |d[6..Initial(d).value.dcidEnd]| == |dcid|;
    if CoversAll(frames, |T.EncodeMessage(h)|) {
      WholeHelloIsJudged(h, rest, frames, held);
    } else {
      PartialHelloPasses(h, rest, frames, held);
    }
  }

  // ---------------------------------------------------------------- blinding

  /** A refused datagram with an impossible Destination Connection ID length. */
  function Blind(d: seq<byte>): (r: seq<byte>)
    ensures |r| == |d|
  {
    if |d| > DCID_LENGTH_OFFSET then d[DCID_LENGTH_OFFSET := IMPOSSIBLE_CID_LENGTH] else d
  }

  /** A blinded datagram has no readable header, so it cannot be answered as an Initial. */
  lemma BlindedHasNoHeader(d: seq<byte>)
    ensures Initial(Blind(d)) == None && Blind(Blind(d)) == Blind(d)
    ensures |d| > 5 ==> Blind(d) == d[5 := 255]
    ensures |d| <= 5 ==> Blind(d) == d
  {
  }

  /** The datagram a byte of a receive buffer belongs to. */
  function Segment(buf: seq<byte>, len: nat, stride: nat, i: nat): seq<byte>
    requires len <= |buf| && stride >= 1 && i < len
  {
    SegmentStart(stride, i);
    buf[i - i % stride..Min(i - i % stride + stride, len)]
  }

  lemma SegmentStart(stride: nat, i: nat)
    requires stride >= 1
    ensures 0 <= i - i % stride <= i < i - i % stride + stride
  {
    assert i == stride * (i / stride) + i % stride;
  }

  lemma InSegment(stride: nat, k: nat, i: nat)
    requires stride >= 1 && k * stride <= i < k * stride + stride
    ensures i % stride == i - k * stride
  {
    var r := i - k * stride;
    assert i == stride * k + r;
    var q := i / stride;
    assert i == stride * q + i % stride;
    TimesMonotone(stride, k + 1, q);
    TimesMonotone(stride, q + 1, k);
  }

  /**
   Walks one receive buffer: datagrams `stride` bytes apart, the last possibly shorter. Exactly the
   refused ones lose exactly one byte, each judged on its own bytes as they arrived.
   */
  method ScreenBatch(buf: array<byte>, metaLen: nat, metaStride: nat, refused: seq<byte> -> bool)
    modifies buf
    ensures var len, stride := Min(metaLen, buf.Length), Max(metaStride, 1);
      forall i :: 0 <= i < buf.Length ==>
        buf[i] == if i < len && i % stride == 5 && refused(Segment(old(buf[..]), len, stride, i)) then 255 else old(buf[i])
  {
    var len, stride := Min(metaLen, buf.Length), Max(metaStride, 1);
    ghost var was := buf[..];
    ghost var k := 0;
    var at := 0;
    while at < len
      invariant at <= len && (at < len ==> at == k * stride)
      invariant forall i :: at <= i < buf.Length ==> buf[i] == was[i]
      invariant forall i :: 0 <= i < at ==>
        buf[i] == if i % stride == DCID_LENGTH_OFFSET && refused(Segment(was, len, stride, i))
                  then IMPOSSIBLE_CID_LENGTH else was[i]
    {
      var end := Min(at + stride, len);
      assert buf[at..end] == was[at..end];
      forall i | at <= i < end ensures i % stride == i - at && Segment(was, len, stride, i) == was[at..end] {
        InSegment(stride, k, i);
      }
      if refused(buf[at..end]) && end - at > DCID_LENGTH_OFFSET {
        buf[at + DCID_LENGTH_OFFSET] := IMPOSSIBLE_CID_LENGTH;
      }
      assert (k + 1) * stride == k * stride + stride;
      k := k + 1;
      at := end;
    }
  }

  lemma SameSegment(stride: nat, i: nat, j: nat)
    requires stride >= 1 && i - i % stride <= j < i - i % stride + stride
    ensures j % stride == j - (i - i % stride)
  {
    var k := i / stride;
    assert i - i % stride == k * stride;
    InSegment(stride, k, j);
  }

  /** Byte by byte, or datagram by datagram: the refused ones are blinded and the others left alone. */
  lemma SegmentScreened(was: seq<byte>, now: seq<byte>, len: nat, stride: nat, refused: seq<byte> -> bool, i: nat)
    requires |was| == |now| && len <= |was| && stride >= 1 && i < len
    requires forall j :: 0 <= j < len ==>
      now[j] == if j % stride == DCID_LENGTH_OFFSET && refused(Segment(was, len, stride, j)) then IMPOSSIBLE_CID_LENGTH else was[j]
    ensures var d := Segment(was, len, stride, i);
      Segment(now, len, stride, i) == if refused(d) then Blind(d) else d
  {
    SegmentStart(stride, i);
    var at := i - i % stride;
    var end := Min(at + stride, len);
    var d, e := Segment(was, len, stride, i), Segment(now, len, stride, i);
    assert e == now[at..end] && d == was[at..end];
    forall j | at <= j < end
      ensures j % stride == j - at && Segment(was, len, stride, j) == d
    {
      SameSegment(stride, i, j);
    }
    hide Segment;
    forall n | 0 <= n < |e|
      ensures e[n] == if refused(d) && n == DCID_LENGTH_OFFSET then IMPOSSIBLE_CID_LENGTH else d[n]
    {
      assert e[n] == now[at + n] && d[n] == was[at + n];
    }
  }

  /**
   A received batch under the gate: every datagram is passed and as it arrived, or refused and blinded, with no
   header left to read. An empty list of names turns the gate off.
   */
  method ScreenReceived(buf: array<byte>, metaLen: nat, metaStride: nat, held: seq<seq<byte>>,
                        decrypt: (seq<byte>, InitialHeader) -> Option<seq<byte>>)
    modifies buf
    ensures held == [] ==> buf[..] == old(buf[..])
    ensures held != [] ==>
      var len, stride := Min(metaLen, buf.Length), Max(metaStride, 1);
      && buf[len..] == old(buf[len..])
      && forall i :: 0 <= i < len ==>
           var was, now := Segment(old(buf[..]), len, stride, i), Segment(buf[..], len, stride, i);
           if JudgeDatagram(was, held, decrypt).Pass? then now == was else now == Blind(was) && Initial(now) == None
  {
    hide JudgeDatagram, Initial, Blind, Segment;
    if held == [] {
      return;
    }
    ghost var before := buf[..];
    var refused := d => JudgeDatagram(d, held, decrypt).Refuse?;
    ScreenBatch(buf, metaLen, metaStride, refused);
    ghost var len, stride := Min(metaLen, buf.Length), Max(metaStride, 1);
    forall i | 0 <= i < len
      ensures var was, now := Segment(before, len, stride, i), Segment(buf[..], len, stride, i);
        if JudgeDatagram(was, held, decrypt).Pass? then now == was else now == Blind(was) && Initial(now) == None
    {
      SegmentScreened(before, buf[..], len, stride, refused, i);
      BlindedHasNoHeader(Segment(before, len, stride, i));
    }
  }
}
