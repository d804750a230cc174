/** The Capsule Protocol decoder (section 3 of RFC 9297), as src/capsule.rs runs it. */
module Capsules {
  import opened Bytes
  import D = Datagram

  const CAPSULE_TYPE_DATAGRAM: nat := 0
  const MAX_DATAGRAM_CAPSULE_VALUE: nat := 8 + D.MAX_UDP_PAYLOAD

  datatype Capsule = Datagram(contextId: nat, payload: seq<byte>)

  datatype Error = DatagramTooLarge(length: nat) | MalformedDatagram

  // ---------------------------------------------------------------- the one-shot reading

  /** What lies at the front of a byte sequence. */
  datatype Item = More | Skipped(size: nat) | Found(capsule: Capsule, size: nat) | Bad(error: Error)

  /** A capsule's type, declared length and header size, once both varints are there. */
  function Header(s: seq<byte>): (r: Option<(nat, nat, nat)>)
    ensures r.Some? ==> 2 <= r.value.2 <= |s|
    ensures r.None? ==> |s| < 16
  {
    match D.DecodeVarint(s)
    case None => None
    case Some((kind, n)) =>
      match D.DecodeVarint(s[n..])
      case None => None
      case Some((length, m)) => Some((kind, length, n + m))
  }

  /** A DATAGRAM capsule's value: a Context ID and then the payload. */
  function ReadValue(value: seq<byte>): Result<Capsule, Error> {
    match D.DecodeVarint(value)
    case None => Err(MalformedDatagram)
    case Some((context, k)) => Ok(Datagram(context, value[k..]))
  }

  function Front(s: seq<byte>): (r: Item)
    ensures r.Skipped? || r.Found? ==> 2 <= r.size <= |s|
  {
    match Header(s)
    case None => More
    case Some((kind, length, h)) =>
      if kind == 0 && length > 65535 then Bad(DatagramTooLarge(length))
      else if |s| < h + length then More
      else if kind != 0 then Skipped(h + length)
      else match ReadValue(s[h..h + length])
        case Err(e) => Bad(e)
        case Ok(c) => Found(c, h + length)
  }

  /** Every capsule, the first error if there is one, and whether the bytes end between capsules. */
  datatype Outcome = Outcome(capsules: seq<Capsule>, error: Option<Error>, whole: bool)
  {
    function After(emitted: seq<Capsule>): Outcome { Outcome(emitted + capsules, error, whole) }
  }

  function Parse(s: seq<byte>): Outcome
    decreases |s|
  {
    match Front(s)
    case More => Outcome([], None, s == [])
    case Bad(e) => Outcome([], Some(e), false)
    case Skipped(size) => Parse(s[size..])
    case Found(c, size) => Parse(s[size..]).After([c])
  }

  // ---------------------------------------------------------------- the incremental decoder

  datatype State = AtHeader | InValue(length: nat) | Skipping(remaining: nat)

  datatype Decoder = Decoder(buffer: seq<byte>, state: State)
  {
    /** A value being buffered is never larger than the bound. */
    predicate Valid() { state.InValue? ==> state.length <= MAX_DATAGRAM_CAPSULE_VALUE }

    predicate AtBoundary() {
      match state
      case AtHeader => buffer == []
      case Skipping(remaining) => remaining == 0 && buffer == []
      case InValue(_) => false
    }

    function Push(chunk: seq<byte>): Decoder { this.(buffer := buffer + chunk) }
  }

  /** One call for the next capsule: the decoder after it, and its answer. */
  function Next(d: Decoder): (r: (Decoder, Result<Option<Capsule>, Error>))
    requires d.Valid()
    ensures r.0.Valid()
    decreases |d.buffer|, if d.state.Skipping? then 1 else 0
  {
    match d.state
    case Skipping(remaining) =>
      if remaining == 0 then Next(d.(state := AtHeader))
      else if d.buffer == [] then (d, Ok(None))
      else
        var discard := Min(remaining, |d.buffer|);
        Next(Decoder(d.buffer[discard..], Skipping(remaining - discard)))
    case AtHeader =>
      (match Header(d.buffer)
       case None => (d, Ok(None))
       case Some((kind, length, h)) =>
         var rest := d.buffer[h..];
         if kind != CAPSULE_TYPE_DATAGRAM then Next(Decoder(rest, Skipping(length)))
         else if length > MAX_DATAGRAM_CAPSULE_VALUE then (Decoder(rest, AtHeader), Err(DatagramTooLarge(length)))
         else Next(Decoder(rest, InValue(length))))
    case InValue(length) =>
      if |d.buffer| < length then (d, Ok(None))
      else
        var after := Decoder(d.buffer[length..], AtHeader);
        match ReadValue(d.buffer[..length])
        case Err(e) => (after, Err(e))
        case Ok(c) => (after, Ok(Some(c)))
  }

  /** The one-shot reading continued from the middle of a capsule. */
  function ParseFrom(state: State, s: seq<byte>): Outcome {
    match state
    case AtHeader => Parse(s)
    case Skipping(remaining) => if |s| < remaining then Outcome([], None, false) else Parse(s[remaining..])
    case InValue(length) =>
      if |s| < length then Outcome([], None, false)
      else match ReadValue(s[..length])
        case Err(e) => Outcome([], Some(e), false)
        case Ok(c) => Parse(s[length..]).After([c])
  }

  lemma HeaderIgnoresSuffix(s: seq<byte>, ext: seq<byte>)
    requires Header(s).Some?
    ensures Header(s + ext) == Header(s)
  {
    var n := D.DecodeVarint(s).value.1;
    D.VarintIgnoresSuffix(s, ext);
    D.VarintIgnoresSuffix(s[n..], ext);
    assert (s + ext)[n..] == s[n..] + ext;
  }

  /** Past the header, the reading goes on in the state the header selects. */
  lemma ParseSkipped(s: seq<byte>, kind: nat, length: nat, h: nat)
    requires Header(s) == Some((kind, length, h)) && kind != CAPSULE_TYPE_DATAGRAM
    ensures Parse(s) == ParseFrom(Skipping(length), s[h..])
  {
    if |s| >= h + length {
      FrontDecides(s, Skipped(h + length));
      Slices(s, h, length);
    } else {
      FrontDecides(s, More);
    }
  }

  lemma ParseValue(s: seq<byte>, length: nat, h: nat)
    requires Header(s) == Some((CAPSULE_TYPE_DATAGRAM, length, h)) && length <= MAX_DATAGRAM_CAPSULE_VALUE
    ensures Parse(s) == ParseFrom(InValue(length), s[h..])
  {
    hide Parse, Header, ReadValue;
    if |s| < h + length {
      FrontDecides(s, More);
    } else {
      Slices(s, h, length);
      match ReadValue(s[h..h + length])
      case Err(e) => FrontDecides(s, Bad(e));
      case Ok(c) =>
        FrontDecides(s, Found(c, h + length));
        ValueDecides(s[h..], length, c);
    }
  }

  lemma FrontDecides(s: seq<byte>, item: Item)
    requires Front(s) == item
    ensures item.More? ==> Parse(s) == Outcome([], None, s == [])
    ensures item.Bad? ==> Parse(s) == Outcome([], Some(item.error), false)
    ensures item.Skipped? ==> Parse(s) == Parse(s[item.size..])
    ensures item.Found? ==> Parse(s) == Parse(s[item.size..]).After([item.capsule])
  {
  }

  lemma ValueDecides(s: seq<byte>, length: nat, c: Capsule)
    requires length <= |s| && ReadValue(s[..length]) == Ok(c)
    ensures ParseFrom(InValue(length), s) == Parse(s[length..]).After([c])
  {
  }

  lemma Slices<T>(s: seq<T>, h: nat, length: nat)
    requires h + length <= |s|
    ensures s[h..][length..] == s[h + length..]
    ensures s[h..][..length] == s[h..h + length]
  {
  }

  /** What an answer says about the reading, whatever bytes arrive later. */
  ghost predicate Explains(d: Decoder, ext: seq<byte>, after: Decoder, answer: Result<Option<Capsule>, Error>) {
    var before, later := ParseFrom(d.state, d.buffer + ext), ParseFrom(after.state, after.buffer + ext);
    match answer
    case Ok(None) => before == later
    case Ok(Some(c)) => before == later.After([c])
    case Err(e) => before == Outcome([], Some(e), false)
  }

  lemma {:induction false} NextExplains(d: Decoder, ext: seq<byte>)
    requires d.Valid()
    ensures Explains(d, ext, Next(d).0, Next(d).1)
    decreases |d.buffer|, if d.state.Skipping? then 1 else 0
  {
    var s := d.buffer + ext;
    match d.state
    case Skipping(remaining) =>
      if remaining == 0 {
        assert s[0..] == s;
        NextExplains(d.(state := AtHeader), ext);
      } else if d.buffer != [] {
        var discard := Min(remaining, |d.buffer|);
        SkipSome(d.buffer, ext, remaining, discard);
        NextExplains(Decoder(d.buffer[discard..], Skipping(remaining - discard)), ext);
      }
    case AtHeader =>
      if Header(d.buffer).Some? {
        var (kind, length, h) := Header(d.buffer).value;
        HeaderIgnoresSuffix(d.buffer, ext);
        assert s[h..] == d.buffer[h..] + ext;
        if kind != CAPSULE_TYPE_DATAGRAM {
          ParseSkipped(s, kind, length, h);
          NextExplains(Decoder(d.buffer[h..], Skipping(length)), ext);
        } else if length <= MAX_DATAGRAM_CAPSULE_VALUE {
          ParseValue(s, length, h);
          NextExplains(Decoder(d.buffer[h..], InValue(length)), ext);
        }
      }
    case InValue(length) =>
      if |d.buffer| >= length {
        assert s[..length] == d.buffer[..length];
        assert s[length..] == d.buffer[length..] + ext;
      }
  }

  lemma SkipSome(buffer: seq<byte>, ext: seq<byte>, remaining: nat, discard: nat)
    requires discard <= remaining && discard <= |buffer|
    ensures ParseFrom(Skipping(remaining), buffer + ext) ==
            ParseFrom(Skipping(remaining - discard), buffer[discard..] + ext)
  {
    hide Parse;
    var s, t := buffer + ext, buffer[discard..] + ext;
    assert |t| == |s| - discard;
    if |s| >= remaining {
      assert s[remaining..] == t[remaining - discard..];
    }
  }

  /** A drained decoder holds less than one value, and its reading has nothing more to give. */
  lemma {:induction false} Drained(d: Decoder)
    requires d.Valid() && Next(d).1 == Ok(None)
    ensures |Next(d).0.buffer| < 65535
    ensures Next(Next(d).0) == Next(d)
    ensures ParseFrom(Next(d).0.state, Next(d).0.buffer) == Outcome([], None, Next(d).0.AtBoundary())
    decreases |d.buffer|, if d.state.Skipping? then 1 else 0
  {
    match d.state
    case Skipping(remaining) =>
      if remaining == 0 {
        Drained(d.(state := AtHeader));
      } else if d.buffer != [] {
        var discard := Min(remaining, |d.buffer|);
        Drained(Decoder(d.buffer[discard..], Skipping(remaining - discard)));
      }
    case AtHeader =>
      if Header(d.buffer).Some? {
        var (kind, length, h) := Header(d.buffer).value;
        if kind != CAPSULE_TYPE_DATAGRAM {
          Drained(Decoder(d.buffer[h..], Skipping(length)));
        } else {
          Drained(Decoder(d.buffer[h..], InValue(length)));
        }
      }
    case InValue(length) =>
  }

  /** An error leaves the decoder at a header, with the refused header or value taken off. */
  lemma {:induction false} AfterError(d: Decoder)
    requires d.Valid() && Next(d).1.Err?
    ensures Next(d).0.state == AtHeader
    ensures |Next(d).0.buffer| <= |d.buffer| && Next(d).0.buffer == d.buffer[|d.buffer| - |Next(d).0.buffer|..]
    decreases |d.buffer|, if d.state.Skipping? then 1 else 0
  {
    match d.state
    case Skipping(remaining) =>
      if remaining == 0 {
        AfterError(d.(state := AtHeader));
      } else if d.buffer != [] {
        var discard := Min(remaining, |d.buffer|);
        AfterError(Decoder(d.buffer[discard..], Skipping(remaining - discard)));
      }
    case AtHeader =>
      var (kind, length, h) := Header(d.buffer).value;
      if kind != CAPSULE_TYPE_DATAGRAM {
        AfterError(Decoder(d.buffer[h..], Skipping(length)));
      } else if length <= MAX_DATAGRAM_CAPSULE_VALUE {
        AfterError(Decoder(d.buffer[h..], InValue(length)));
      }
    case InValue(length) =>
  }

  /** In any state, drained or not: a boundary is where nothing is held and nothing of a capsule is outstanding. */
  lemma BoundaryExactly(d: Decoder)
    ensures d.AtBoundary() <==> d.buffer == [] && ParseFrom(d.state, d.buffer).whole
  {
    hide D.DecodeVarint;
    D.UnfinishedExactly([]);
    assert D.Begins([], [0], 0) by { D.EncodedIsVarint(0); ZeroByte(); }
  }

  lemma ZeroByte()
    ensures D.EncodeVarint(0) == [0]
  {
  }

  // ---------------------------------------------------------------- every run

  datatype Op = Push(chunk: seq<byte>) | Call

  /** A run so far: it stops at the first error, as the callers do. */
  datatype Run = Run(decoder: Decoder, emitted: seq<Capsule>, error: Option<Error>)

  const START: Run := Run(Decoder([], AtHeader), [], None)

  function Step(r: Run, op: Op): (q: Run)
    requires r.decoder.Valid()
    ensures q.decoder.Valid()
  {
    if r.error.Some? then r else
    match op
    case Push(chunk) => r.(decoder := r.decoder.Push(chunk))
    case Call =>
      match Next(r.decoder)
      case (d, Ok(None)) => r.(decoder := d)
      case (d, Ok(Some(c))) => Run(d, r.emitted + [c], None)
      case (d, Err(e)) => Run(d, r.emitted, Some(e))
  }

  function Execute(ops: seq<Op>): (r: Run)
    ensures r.decoder.Valid()
  {
    if ops == [] then START else Step(Execute(ops[..|ops| - 1]), ops[|ops| - 1])
  }

  /** The bytes an operation brings. */
  function Brings(op: Op): seq<byte> {
    match op case Push(chunk) => chunk case Call => []
  }

  /** All bytes pushed, wherever the calls fall between them. */
  function Pushed(ops: seq<Op>): seq<byte> {
    if ops == [] then [] else Pushed(ops[..|ops| - 1]) + Brings(ops[|ops| - 1])
  }

  /** The run's account of its input, extended by any later bytes. */
  ghost predicate Accounts(r: Run, bytes: seq<byte>, ext: seq<byte>) {
    Parse(bytes + ext) ==
      if r.error.Some? then Outcome(r.emitted, r.error, false)
      else ParseFrom(r.decoder.state, r.decoder.buffer + ext).After(r.emitted)
  }

  lemma {:induction false} RunAccounts(ops: seq<Op>, ext: seq<byte>)
    ensures Accounts(Execute(ops), Pushed(ops), ext)
  {
    if ops == [] {
      assert [] + ext == ext;
      assert Parse(ext).After([]) == Parse(ext);
    } else {
      var init, op := ops[..|ops| - 1], ops[|ops| - 1];
      RunAccounts(init, Brings(op) + ext);
      StepAccounts(Execute(init), Pushed(init), op, ext);
    }
  }

  lemma StepAccounts(r: Run, bytes: seq<byte>, op: Op, ext: seq<byte>)
    requires r.decoder.Valid() && Accounts(r, bytes, Brings(op) + ext)
    ensures Accounts(Step(r, op), bytes + Brings(op), ext)
  {
    assert bytes + (Brings(op) + ext) == bytes + Brings(op) + ext;
    match op
    case Push(chunk) =>
      assert r.decoder.buffer + (chunk + ext) == r.decoder.buffer + chunk + ext;
    case Call =>
      assert [] + ext == ext;
      if r.error.None? {
        NextExplains(r.decoder, ext);
        CallAccounts(r, ext);
      }
  }

  lemma CallAccounts(r: Run, ext: seq<byte>)
    requires r.decoder.Valid() && r.error.None? && Explains(r.decoder, ext, Next(r.decoder).0, Next(r.decoder).1)
    ensures var q := Step(r, Call);
      ParseFrom(r.decoder.state, r.decoder.buffer + ext).After(r.emitted) ==
      if q.error.Some? then Outcome(q.emitted, q.error, false)
      else ParseFrom(q.decoder.state, q.decoder.buffer + ext).After(q.emitted)
  {
    var (d, answer) := Next(r.decoder);
    var later := ParseFrom(d.state, d.buffer + ext);
    match answer
    case Ok(None) =>
    case Ok(Some(c)) => assert r.emitted + ([c] + later.capsules) == r.emitted + [c] + later.capsules;
    case Err(e) => assert r.emitted + [] == r.emitted;
  }

  /**
   However the bytes are cut and wherever the calls fall: an error comes with the capsules the
   one-shot reading gives before the same first error; a drained decoder has given exactly its
   capsules, and is at a boundary exactly when the bytes end between capsules; and at every other
   moment what was given is a prefix.
   */
  lemma RunRefinesParse(ops: seq<Op>)
    ensures var r, p := Execute(ops), Parse(Pushed(ops));
      && r.emitted <= p.capsules
      && (r.error.Some? ==> p == Outcome(r.emitted, r.error, false))
      && (r.error.None? && Next(r.decoder).1 == Ok(None) ==>
            p == Outcome(r.emitted, None, Next(r.decoder).0.AtBoundary()))
  {
    var r := Execute(ops);
    RunAccounts(ops, []);
    assert Pushed(ops) + [] == Pushed(ops);
    assert r.decoder.buffer + [] == r.decoder.buffer;
    if r.error.None? && Next(r.decoder).1 == Ok(None) {
      var d := Next(r.decoder).0;
      NextExplains(r.decoder, []);
      Drained(r.decoder);
      assert d.buffer + [] == d.buffer;
      assert r.emitted + [] == r.emitted;
    }
  }

  // ---------------------------------------------------------------- whole capsules

  /** One capsule: a type, a length and exactly that many bytes. */
  ghost predicate IsCapsule(c: seq<byte>) {
    Header(c).Some? && |c| == Header(c).value.2 + Header(c).value.1
  }

  ghost predicate AllCapsules(cs: seq<seq<byte>>) {
    forall i :: 0 <= i < |cs| ==> IsCapsule(cs[i])
  }

  ghost predicate Concatenation(s: seq<byte>) {
    exists cs: seq<seq<byte>> :: AllCapsules(cs) && Flatten(cs) == s
  }

  lemma ConcatenationCons(c: seq<byte>, rest: seq<byte>)
    requires IsCapsule(c) && Concatenation(rest)
    ensures Concatenation(c + rest)
  {
    var cs: seq<seq<byte>> :| AllCapsules(cs) && Flatten(cs) == rest;
    var all: seq<seq<byte>> := [c] + cs;
    assert all[1..] == cs;
    assert AllCapsules(all) && Flatten(all) == c + rest;
  }

  lemma WholeStep(s: seq<byte>)
    requires s != [] && Parse(s).whole
    ensures (Front(s).Skipped? || Front(s).Found?) && 2 <= Front(s).size <= |s| && Parse(s[Front(s).size..]).whole
  {
    hide Header, ReadValue;
    FrontDecides(s, Front(s));
  }

  lemma {:induction false} WholeGivesCapsules(s: seq<byte>)
    requires Parse(s).whole
    ensures Concatenation(s)
    decreases |s|
  {
    hide Parse, Front, IsCapsule;
    if s == [] {
      var none: seq<seq<byte>> := [];
      assert AllCapsules(none) && Flatten(none) == s;
    } else {
      WholeStep(s);
      var size := Front(s).size;
      FrontIsCapsule(s);
      WholeGivesCapsules(s[size..]);
      ConcatenationCons(s[..size], s[size..]);
      assert s == s[..size] + s[size..];
    }
  }

  lemma Window<T>(s: seq<T>, n: nat, k: nat)
    requires n <= k <= |s|
    ensures s[..k][n..] == s[n..][..k - n]
  {
  }

  lemma FrontIsCapsule(s: seq<byte>)
    requires Front(s).Skipped? || Front(s).Found?
    ensures IsCapsule(s[..Front(s).size])
  {
    var (kind, length, h) := Header(s).value;
    var n, k := D.DecodeVarint(s).value.1, h + length;
    D.VarintWithinPrefix(s, k);
    Window(s, n, k);
    D.VarintWithinPrefix(s[n..], k - n);
  }

  lemma {:induction false} CapsulesGiveWhole(cs: seq<seq<byte>>)
    requires AllCapsules(cs) && Parse(Flatten(cs)).error.None?
    ensures Parse(Flatten(cs)).whole
  {
    if cs != [] {
      var c, rest := cs[0], Flatten(cs[1..]);
      HeaderIgnoresSuffix(c, rest);
      var size := |c|;
      assert Front(c + rest) != More && Front(c + rest).size == size;
      assert (c + rest)[size..] == rest;
      CapsulesGiveWhole(cs[1..]);
    }
  }

  lemma WholeMeansConcatenation(s: seq<byte>)
    requires Parse(s).error.None?
    ensures Parse(s).whole <==> Concatenation(s)
  {
    if Parse(s).whole {
      WholeGivesCapsules(s);
    }
    if Concatenation(s) {
      var cs: seq<seq<byte>> :| AllCapsules(cs) && Flatten(cs) == s;
      CapsulesGiveWhole(cs);
    }
  }

  /** After an error-free drain the decoder is at a boundary exactly when it was given whole capsules. */
  lemma BoundaryMeansWholeCapsules(ops: seq<Op>)
    requires Execute(ops).error.None? && Next(Execute(ops).decoder).1 == Ok(None)
    ensures Next(Execute(ops).decoder).0.AtBoundary() <==> Concatenation(Pushed(ops))
  {
    RunRefinesParse(ops);
    WholeMeansConcatenation(Pushed(ops));
  }

  // ---------------------------------------------------------------- encoding

  function EncodeDatagram(contextId: nat, payload: seq<byte>): seq<byte> {
    EncodeOther(0, D.EncodeVarint(contextId) + payload)
  }

  /** A capsule of any type. */
  function EncodeOther(kind: nat, value: seq<byte>): seq<byte> {
    D.EncodeVarint(kind) + D.EncodeVarint(|value|) + value
  }

  /** A stream's pieces: DATAGRAM capsules this proxy acts on, and capsules of other types. */
  datatype Piece = Carried(capsule: Capsule) | Foreign(kind: nat, value: seq<byte>)
  {
    /** The values the wire format can carry and this decoder accepts. */
    predicate Legal() {
      match this
      case Carried(Datagram(context, payload)) =>
        context <= D.VARINT_MAX && D.VarintLen(context) + |payload| <= 65535
      case Foreign(kind, value) => 0 < kind <= D.VARINT_MAX && |value| <= D.VARINT_MAX
    }

    function Encode(): seq<byte> {
      match this
      case Carried(Datagram(context, payload)) => EncodeDatagram(context, payload)
      case Foreign(kind, value) => EncodeOther(kind, value)
    }
  }

  function EncodeAll(ps: seq<Piece>): seq<byte> {
    if ps == [] then [] else ps[0].Encode() + EncodeAll(ps[1..])
  }

  /** The capsules of interest among the pieces, in order. */
  function CapsulesOf(ps: seq<Piece>): seq<Capsule> {
    if ps == [] then []
    else (match ps[0] case Carried(c) => [c] case Foreign(_, _) => []) + CapsulesOf(ps[1..])
  }

  lemma EncodedHeader(kind: nat, value: seq<byte>, rest: seq<byte>)
    requires kind <= D.VARINT_MAX && |value| <= D.VARINT_MAX
    ensures var h := D.VarintLen(kind) + D.VarintLen(|value|);
      && Header(EncodeOther(kind, value) + rest) == Some((kind, |value|, h))
      && (EncodeOther(kind, value) + rest)[h..h + |value|] == value
      && (EncodeOther(kind, value) + rest)[h + |value|..] == rest
  {
    var a, b := D.EncodeVarint(kind), D.EncodeVarint(|value|);
    D.VarintRoundTrip(kind, b + (value + rest));
    D.VarintRoundTrip(|value|, value + rest);
    assert EncodeOther(kind, value) + rest == a + b + (value + rest);
    D.Three(a, b, value + rest);
    D.Three(a + b, value, rest);
  }

  lemma ValueRoundTrip(context: nat, payload: seq<byte>)
    requires context <= D.VARINT_MAX
    ensures ReadValue(D.EncodeVarint(context) + payload) == Ok(Datagram(context, payload))
  {
    D.VarintRoundTrip(context, payload);
    assert (D.EncodeVarint(context) + payload)[D.VarintLen(context)..] == payload;
  }

  /** Capsules interleaved with any others come back in order, with no error, ending at a boundary. */
  lemma {:induction false} EncodedPiecesParse(ps: seq<Piece>)
    requires forall i :: 0 <= i < |ps| ==> ps[i].Legal()
    ensures Parse(EncodeAll(ps)) == Outcome(CapsulesOf(ps), None, true)
  {
    if ps != [] {
      var rest := EncodeAll(ps[1..]);
      EncodedPiecesParse(ps[1..]);
      match ps[0]
      case Foreign(kind, value) =>
        EncodedHeader(kind, value, rest);
        assert CapsulesOf(ps) == CapsulesOf(ps[1..]);
      case Carried(Datagram(context, payload)) =>
        EncodedHeader(CAPSULE_TYPE_DATAGRAM, D.EncodeVarint(context) + payload, rest);
        ValueRoundTrip(context, payload);
    }
  }

  /** A DATAGRAM capsule past the bound is refused for its declared length, however it is continued. */
  lemma OversizeIsRefused(context: nat, payload: seq<byte>, rest: seq<byte>)
    requires 65535 < D.VarintLen(context) + |payload| <= D.VARINT_MAX
    ensures Parse(EncodeDatagram(context, payload) + rest) ==
            Outcome([], Some(DatagramTooLarge(D.VarintLen(context) + |payload|)), false)
  {
    EncodedHeader(CAPSULE_TYPE_DATAGRAM, D.EncodeVarint(context) + payload, rest);
  }

  /** A DATAGRAM capsule whose value holds less than a Context ID is refused, however it is continued. */
  lemma MissingContextIsRefused(value: seq<byte>, rest: seq<byte>)
    requires D.Unfinished(value) && |value| <= 65535
    ensures Parse(EncodeOther(0, value) + rest) == Outcome([], Some(MalformedDatagram), false)
  {
    hide D.Unfinished, Header;
    EncodedHeader(0, value, rest);
    D.UnfinishedExactly(value);
    assert ReadValue(value) == Err(MalformedDatagram);
    FrontDecides(EncodeOther(0, value) + rest, Bad(MalformedDatagram));
  }

  method EncodeDatagramCapsule(contextId: nat, payload: seq<byte>) returns (s: seq<byte>)
    requires contextId <= D.VARINT_MAX && D.VarintLen(contextId) + |payload| <= D.VARINT_MAX
    ensures s == EncodeDatagram(contextId, payload)
  {
    var valueLen := D.VarintLen(contextId) + |payload|;
    var buf := new D.Buffer();
    buf.PutVarint(CAPSULE_TYPE_DATAGRAM);
    buf.PutVarint(valueLen);
    buf.PutVarint(contextId);
    buf.PutSlice(payload);
    s := buf.bytes;
    D.Three(D.EncodeVarint(0) + D.EncodeVarint(valueLen), D.EncodeVarint(contextId), payload);
  }

  // ---------------------------------------------------------------- the decoder as an object

  /** Both varints must be present before either is consumed. */
  method PeekHeader(s: seq<byte>) returns (r: Option<(nat, nat, nat)>)
    ensures r == Header(s)
  {
    var kind := D.PeekVarint(s);
    if kind == None {
      return None;
    }
    var length := D.PeekVarint(s[kind.value.1..]);
    if length == None {
      return None;
    }
    r := Some((kind.value.0, length.value.0, kind.value.1 + length.value.1));
  }

  method TakeValue(value: seq<byte>) returns (r: Result<Capsule, Error>)
    ensures r == ReadValue(value)
  {
    var context := D.PeekVarint(value);
    if context == None {
      return Err(MalformedDatagram);
    }
    r := Ok(Datagram(context.value.0, value[context.value.1..]));
  }

  class CapsuleDecoder {
    var buffer: seq<byte>
    var state: State

    function View(): Decoder reads this { Decoder(buffer, state) }

    constructor ()
      ensures View() == START.decoder
    {
      buffer, state := [], AtHeader;
    }

    method PushChunk(chunk: seq<byte>)
      modifies this
      ensures View() == old(View()).Push(chunk)
    {
      buffer := buffer + chunk;
    }

    method AtCapsuleBoundary() returns (b: bool)
      ensures b == View().AtBoundary()
    {
      match state
      case AtHeader => b := buffer == [];
      case Skipping(remaining) => b := remaining == 0 && buffer == [];
      case InValue(_) => b := false;
    }

    method NextCapsule() returns (r: Result<Option<Capsule>, Error>)
      requires View().Valid()
      modifies this
      ensures (View(), r) == Next(old(View()))
      ensures r == Ok(None) ==> |buffer| < 65535
    {
      while true
        invariant View().Valid() && Next(View()) == Next(old(View()))
        decreases |buffer|, if state.Skipping? then 1 else 0
      {
        match state
        case Skipping(remaining) =>
          if remaining == 0 {
            state := AtHeader;
            continue;
          }
          if buffer == [] {
            return Ok(None);
          }
          var discard := Min(remaining, |buffer|);
          buffer := buffer[discard..];
          state := Skipping(remaining - discard);

        case AtHeader =>
          var header := PeekHeader(buffer);
          if header == None {
            return Ok(None);
          }
          var (kind, length, size) := header.value;
          buffer := buffer[size..];
          if kind == CAPSULE_TYPE_DATAGRAM {
            if length > MAX_DATAGRAM_CAPSULE_VALUE {
              return Err(DatagramTooLarge(length));
            }
            state := InValue(length);
          } else {
            state := Skipping(length);
          }

        case InValue(length) =>
          if |buffer| < length {
            return Ok(None);
          }
          var value := buffer[..length];
          buffer := buffer[length..];
          state := AtHeader;
          var capsule := TakeValue(value);
          match capsule
          case Err(e) => return Err(e);
          case Ok(c) => return Ok(Some(c));
      }
    }
  }
}
