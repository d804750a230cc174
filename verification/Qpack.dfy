/** Reading the peer's QPACK streams with no dynamic table (src/h3/connection.rs; sections 4.3 and 4.4 of RFC 9204). */
module Qpack {
  import opened Bytes

  const MAX_INTEGER_CONTINUATION: nat := 9

  datatype Stream = Encoder | Decoder

  datatype Violation =
    | IntegerPast62Bits
    | InsertWithNameReference
    | InsertWithLiteralName
    | CapacityAboveZero
    | Duplicate
    | SectionAcknowledgment
    | InsertCountIncrement

  /** Judges an instruction by its first byte; `true` means its integer continues. */
  function Instruction(kind: Stream, first: byte): Result<bool, Violation> {
    match kind
    case Encoder =>
      if first >= 0x80 then Err(InsertWithNameReference)
      else if first >= 0x40 then Err(InsertWithLiteralName)
      else if first >= 0x20 then (if first % 32 != 0 then Err(CapacityAboveZero) else Ok(false))
      else Err(Duplicate)
    case Decoder =>
      if first >= 0x80 then Err(SectionAcknowledgment)
      else if first >= 0x40 then Ok(first % 64 == 63)
      else Err(InsertCountIncrement)
  }

  /** How far the last accepted instruction's prefixed integer has run. */
  datatype Progress = Progress(continuing: bool, continuation: nat)

  const READY: Progress := Progress(false, 0)

  function Take(p: Progress, kind: Stream, b: byte): Result<Progress, Violation> {
    if p.continuing then
      if p.continuation + 1 > MAX_INTEGER_CONTINUATION then Err(IntegerPast62Bits)
      else Ok(Progress(b >= 0x80, p.continuation + 1))
    else
      match Instruction(kind, b)
      case Err(v) => Err(v)
      case Ok(more) => Ok(Progress(more, 0))
  }

  /** All bytes in order; the first violation ends the reading. */
  function Run(p: Progress, kind: Stream, s: seq<byte>): Result<Progress, Violation>
    decreases |s|
  {
    if s == [] then Ok(p) else
    match Take(p, kind, s[0])
    case Err(v) => Err(v)
    case Ok(q) => Run(q, kind, s[1..])
  }

  /** The reader as an object that lives across chunks. */
  class Reader {
    var progress: Progress

    constructor ()
      ensures progress == READY
    {
      progress := READY;
    }

    method TakeByte(kind: Stream, b: byte) returns (r: Option<Violation>)
      modifies this
      ensures match Take(old(progress), kind, b)
        case Ok(q) => r == None && progress == q
        case Err(v) => r == Some(v)
    {
      if progress.continuing {
        progress := Progress(true, progress.continuation + 1);
        if progress.continuation > MAX_INTEGER_CONTINUATION {
          return Some(IntegerPast62Bits);
        }
        progress := progress.(continuing := b >= 0x80);
        return None;
      }
      var judged := Instruction(kind, b);
      if judged.Err? {
        return Some(judged.error);
      }
      progress := Progress(judged.value, 0);
      r := None;
    }

    method TakeChunk(kind: Stream, chunk: seq<byte>) returns (r: Option<Violation>)
      modifies this
      ensures match Run(old(progress), kind, chunk)
        case Ok(q) => r == None && progress == q
        case Err(v) => r == Some(v)
    {
      assert chunk[0..] == chunk;
      for i := 0 to |chunk|
        invariant Run(old(progress), kind, chunk) == Run(progress, kind, chunk[i..])
      {
        assert chunk[i..][1..] == chunk[i + 1..];
        r := TakeByte(kind, chunk[i]);
        if r.Some? {
          return;
        }
      }
      r := None;
    }
  }

  // ---------------------------------------------------------------- chunks

  function RunChunks(p: Progress, kind: Stream, chunks: seq<seq<byte>>): Result<Progress, Violation>
    decreases |chunks|
  {
    if chunks == [] then Ok(p) else
    match Run(p, kind, chunks[0])
    case Err(v) => Err(v)
    case Ok(q) => RunChunks(q, kind, chunks[1..])
  }

  lemma {:induction false} RunAppend(p: Progress, kind: Stream, a: seq<byte>, b: seq<byte>)
    ensures Run(p, kind, a + b) == match Run(p, kind, a) case Err(v) => Err(v) case Ok(q) => Run(q, kind, b)
    decreases |a|
  {
    if a == [] {
      assert a + b == b;
    } else {
      assert (a + b)[1..] == a[1..] + b;
      match Take(p, kind, a[0])
      case Err(_) =>
      case Ok(q) => RunAppend(q, kind, a[1..], b);
    }
  }

  /** Where the peer cuts its stream into chunks does not matter. */
  lemma {:induction false} ChunksDoNotMatter(p: Progress, kind: Stream, chunks: seq<seq<byte>>)
    ensures RunChunks(p, kind, chunks) == Run(p, kind, Flatten(chunks))
    decreases |chunks|
  {
    if chunks != [] {
      RunAppend(p, kind, chunks[0], Flatten(chunks[1..]));
      match Run(p, kind, chunks[0])
      case Err(_) =>
      case Ok(q) => ChunksDoNotMatter(q, kind, chunks[1..]);
    }
  }

  // ---------------------------------------------------------------- the encoder stream

  /** With no table, a stream of "capacity zero" instructions is all an encoder may send. */
  lemma {:induction false} EncoderStreamAccepts(s: seq<byte>)
    ensures Run(READY, Encoder, s).Ok? <==> forall i :: 0 <= i < |s| ==> s[i] == 0x20
    ensures Run(READY, Encoder, s).Ok? ==> Run(READY, Encoder, s) == Ok(READY)
  {
    if s != [] && s[0] == 0x20 {
      EncoderStreamAccepts(s[1..]);
    }
  }

  /** And what any other instruction is refused for. */
  lemma EncoderStreamRefuses(s: seq<byte>, b: byte)
    requires forall i :: 0 <= i < |s| ==> s[i] == 0x20
    ensures var r := Run(READY, Encoder, s + [b]);
      if 0x80 <= b then r == Err(InsertWithNameReference)
      else if 0x40 <= b then r == Err(InsertWithLiteralName)
      else if 0x20 < b then r == Err(CapacityAboveZero)
      else if b < 0x20 then r == Err(Duplicate)
      else r == Ok(READY)
  {
    EncoderStreamAccepts(s);
    RunAppend(READY, Encoder, s, [b]);
    assert [b][1..] == [];
  }

  // ---------------------------------------------------------------- the decoder stream

  /** Continuation bytes of a prefixed integer, least significant group first (section 5.1 of RFC 7541). */
  function Continuation(v: nat): seq<byte>
  {
    if v < 128 then [v] else [128 + v % 128] + Continuation(v / 128)
  }

  /** A Stream Cancellation: 01 and a six-bit prefixed stream id. */
  function Cancellation(id: nat): seq<byte> {
    if id < 63 then [0x40 + id] else [0x7f] + Continuation(id - 63)
  }

  function Cancellations(ids: seq<nat>): seq<byte> {
    if ids == [] then [] else Cancellation(ids[0]) + Cancellations(ids[1..])
  }

  function Pow128(n: nat): (p: nat)
    ensures p >= 1
  {
    if n == 0 then 1 else 128 * Pow128(n - 1)
  }

  lemma {:induction false} ContinuationAccepted(v: nat, n: nat, groups: nat)
    requires v < Pow128(groups) && 1 <= groups && n + groups <= MAX_INTEGER_CONTINUATION
    ensures Run(Progress(true, n), Decoder, Continuation(v)).Ok?
    ensures !Run(Progress(true, n), Decoder, Continuation(v)).value.continuing
    decreases groups
  {
    var s := Continuation(v);
    if v >= 128 {
      assert groups > 1 by { assert Pow128(1) == 128; }
      ContinuationAccepted(v / 128, n + 1, groups - 1);
      assert s[1..] == Continuation(v / 128);
    }
  }

  lemma IdsFit(id: nat)
    requires id < 0x4000_0000_0000_0000
    ensures id < Pow128(9)
  {
    assert Pow128(3) == 0x20_0000;
    assert Pow128(5) == 0x8_0000_0000;
    assert Pow128(7) == 0x2_0000_0000_0000;
  }

  /** Ready for the next instruction, whatever the finished integer's length was. */
  predicate Idle(r: Result<Progress, Violation>) { r.Ok? && !r.value.continuing }

  lemma IdleIsReady(p: Progress, s: seq<byte>)
    requires !p.continuing
    ensures Idle(Run(p, Decoder, s)) <==> Idle(Run(READY, Decoder, s))
    ensures Run(p, Decoder, s).Ok? <==> Run(READY, Decoder, s).Ok?
  {
  }

  lemma CancellationAccepted(id: nat)
    requires id < 0x4000_0000_0000_0000
    ensures Idle(Run(READY, Decoder, Cancellation(id)))
  {
    if id >= 63 {
      var s := Cancellation(id);
      IdsFit(id - 63);
      ContinuationAccepted(id - 63, 0, 9);
      assert s[1..] == Continuation(id - 63);
    } else {
      assert [0x40 + id][1..] == [];
    }
  }

  /** Every concatenation of Stream Cancellations, for any ids below 2^62, is accepted and read to its end. */
  lemma {:induction false} CancellationsAccepted(ids: seq<nat>)
    requires forall i :: 0 <= i < |ids| ==> ids[i] < 0x4000_0000_0000_0000
    ensures Idle(Run(READY, Decoder, Cancellations(ids)))
  {
    if ids != [] {
      var rest := Cancellations(ids[1..]);
      CancellationAccepted(ids[0]);
      RunAppend(READY, Decoder, Cancellation(ids[0]), rest);
      CancellationsAccepted(ids[1..]);
      IdleIsReady(Run(READY, Decoder, Cancellation(ids[0])).value, rest);
    }
  }

  ghost predicate AllContinue(s: seq<byte>) { forall i :: 0 <= i < |s| ==> s[i] >= 0x80 }

  /** One whole Stream Cancellation with at most nine continuation bytes, whatever its integer. */
  ghost predicate IsCancellation(s: seq<byte>) {
    && s != [] && 0x40 <= s[0] < 0x80
    && (if s[0] != 0x7f then |s| == 1
        else 2 <= |s| <= 10 && AllContinue(s[1..|s| - 1]) && s[|s| - 1] < 0x80)
  }

  /** An instruction begun: its first byte and up to nine continuation bytes that all announce another. */
  ghost predicate IsBegun(s: seq<byte>) {
    1 <= |s| <= 10 && s[0] == 0x7f && AllContinue(s[1..])
  }

  ghost predicate AllCancellations(cs: seq<seq<byte>>) {
    forall i :: 0 <= i < |cs| ==> IsCancellation(cs[i])
  }

  /** Whole instructions, then nothing or one instruction begun. */
  ghost predicate Instructions(s: seq<byte>) {
    exists cs: seq<seq<byte>>, tail: seq<byte> :: Consists(s, cs, tail)
  }

  ghost predicate Consists(s: seq<byte>, cs: seq<seq<byte>>, tail: seq<byte>) {
    AllCancellations(cs) && (tail == [] || IsBegun(tail)) && s == Flatten(cs) + tail
  }

  lemma {:induction false} ContinuingAccepted(n: nat, s: seq<byte>)
    requires AllContinue(s) && n + |s| <= MAX_INTEGER_CONTINUATION
    ensures Run(Progress(true, n), Decoder, s) == Ok(Progress(true, n + |s|))
    decreases |s|
  {
    if s != [] {
      ContinuingAccepted(n + 1, s[1..]);
    }
  }

  lemma WholeAccepted(c: seq<byte>)
    requires IsCancellation(c)
    ensures Idle(Run(READY, Decoder, c))
  {
    if |c| > 1 {
      var mid, last := c[1..|c| - 1], c[|c| - 1];
      ContinuingAccepted(0, mid);
      RunAppend(Progress(true, 0), Decoder, mid, [last]);
      assert c[1..] == mid + [last];
      assert [last][1..] == [];
    }
  }

  lemma TailAccepted(tail: seq<byte>)
    requires tail == [] || IsBegun(tail)
    ensures Run(READY, Decoder, tail).Ok?
  {
    if tail != [] {
      ContinuingAccepted(0, tail[1..]);
    }
  }

  lemma {:induction false} InstructionsAccepted(cs: seq<seq<byte>>, tail: seq<byte>)
    requires AllCancellations(cs) && (tail == [] || IsBegun(tail))
    ensures Run(READY, Decoder, Flatten(cs) + tail).Ok?
  {
    hide Run, IsCancellation, IsBegun;
    if cs == [] {
      assert Flatten(cs) + tail == tail;
      TailAccepted(tail);
    } else {
      var rest := Flatten(cs[1..]) + tail;
      WholeAccepted(cs[0]);
      InstructionsAccepted(cs[1..], tail);
      RunAppend(READY, Decoder, cs[0], rest);
      assert Flatten(cs) + tail == cs[0] + rest;
      IdleIsReady(Run(READY, Decoder, cs[0]).value, rest);
    }
  }

  lemma InstructionsCons(c: seq<byte>, s: seq<byte>)
    requires IsCancellation(c) && Instructions(s)
    ensures Instructions(c + s)
  {
    hide IsCancellation, IsBegun;
    var cs: seq<seq<byte>>, tail: seq<byte> :| Consists(s, cs, tail);
    var all: seq<seq<byte>> := [c] + cs;
    assert all[1..] == cs;
    assert c + s == Flatten(all) + tail;
    assert Consists(c + s, all, tail);
  }

  /** How many bytes of a run of continuation bytes announce another. */
  function Continuing(s: seq<byte>): (n: nat)
    ensures n <= |s|
  {
    if s == [] || s[0] < 0x80 then 0 else 1 + Continuing(s[1..])
  }

  lemma {:induction false} ContinuingRun(s: seq<byte>)
    ensures AllContinue(s[..Continuing(s)])
    ensures Continuing(s) < |s| ==> s[Continuing(s)] < 0x80
  {
    if s != [] && s[0] >= 0x80 {
      ContinuingRun(s[1..]);
      assert s[..Continuing(s)] == [s[0]] + s[1..][..Continuing(s[1..])];
    }
  }

  lemma {:induction false} TooLongRefused(n: nat, s: seq<byte>)
    requires n <= MAX_INTEGER_CONTINUATION && Run(Progress(true, n), Decoder, s).Ok?
    ensures n + Min(|s|, Continuing(s) + 1) <= MAX_INTEGER_CONTINUATION
    decreases |s|
  {
    if s != [] && s[0] >= 0x80 {
      TooLongRefused(n + 1, s[1..]);
    }
  }

  /** An accepted non-empty stream starts with a whole instruction or is one begun. */
  lemma FirstInstruction(s: seq<byte>) returns (size: nat)
    requires s != [] && Run(READY, Decoder, s).Ok?
    ensures size <= |s|
    ensures size > 0 ==> IsCancellation(s[..size])
    ensures size == 0 ==> IsBegun(s)
  {
    var t := s[1..];
    if s[0] != 0x7f {
      size := 1;
    } else {
      var k := Continuing(t);
      TooLongRefused(0, t);
      ContinuingRun(t);
      if k == |t| {
        assert t[..k] == t;
        size := 0;
      } else {
        size := k + 2;
        assert s[..size][1..k + 1] == t[..k];
      }
    }
  }

  /** Nothing else is accepted. */
  lemma {:induction false} AcceptedAreInstructions(s: seq<byte>)
    requires Run(READY, Decoder, s).Ok?
    ensures Instructions(s)
    decreases |s|
  {
    hide IsCancellation, IsBegun;
    var none: seq<seq<byte>> := [];
    if s == [] {
      assert Consists(s, none, []);
    } else {
      var size := FirstInstruction(s);
      if size == 0 {
        assert Flatten(none) + s == s;
        assert Consists(s, none, s);
      } else {
        var c, rest := s[..size], s[size..];
        assert s == c + rest;
        WholeAccepted(c);
        RunAppend(READY, Decoder, c, rest);
        IdleIsReady(Run(READY, Decoder, c).value, rest);
        AcceptedAreInstructions(rest);
        InstructionsCons(c, rest);
      }
    }
  }

  /** What a stream is refused for: another instruction, or a tenth continuation byte. */
  lemma DecoderStreamRefuses(cs: seq<seq<byte>>, tail: seq<byte>, b: byte)
    requires AllCancellations(cs) && (tail == [] || (IsBegun(tail) && |tail| == 10))
    ensures var r := Run(READY, Decoder, Flatten(cs) + tail + [b]);
      && (tail == [] && b >= 0x80 ==> r == Err(SectionAcknowledgment))
      && (tail == [] && b < 0x40 ==> r == Err(InsertCountIncrement))
      && (tail != [] ==> r == Err(IntegerPast62Bits))
  {
    hide IsCancellation;
    WholesAreIdle(cs);
    RunAppend(READY, Decoder, Flatten(cs), tail + [b]);
    assert Flatten(cs) + (tail + [b]) == Flatten(cs) + tail + [b];
    var p := Run(READY, Decoder, Flatten(cs)).value;
    assert [b][1..] == [];
    if tail == [] {
      assert tail + [b] == [b];
    } else {
      RunAppend(p, Decoder, tail, [b]);
      ContinuingAccepted(0, tail[1..]);
    }
  }

  lemma {:induction false} WholesAreIdle(cs: seq<seq<byte>>)
    requires AllCancellations(cs)
    ensures Idle(Run(READY, Decoder, Flatten(cs)))
  {
    hide IsCancellation;
    if cs != [] {
      WholeAccepted(cs[0]);
      WholesAreIdle(cs[1..]);
      RunAppend(READY, Decoder, cs[0], Flatten(cs[1..]));
      IdleIsReady(Run(READY, Decoder, cs[0]).value, Flatten(cs[1..]));
    }
  }

  /** Exactly the prefixes the reader accepts, however they are cut into chunks. */
  lemma DecoderStreamAccepts(chunks: seq<seq<byte>>)
    ensures RunChunks(READY, Decoder, chunks).Ok? <==> Instructions(Flatten(chunks))
  {
    ChunksDoNotMatter(READY, Decoder, chunks);
    var s := Flatten(chunks);
    if Run(READY, Decoder, s).Ok? {
      AcceptedAreInstructions(s);
    }
    if Instructions(s) {
      var cs: seq<seq<byte>>, tail: seq<byte> :| Consists(s, cs, tail);
      InstructionsAccepted(cs, tail);
    }
  }

  // ---------------------------------------------------------------- the ids carried

  const ID_LIMIT: nat := 0x4000_0000_0000_0000

  /** The number that continuation bytes add, least significant group first. */
  function Groups(s: seq<byte>): nat {
    if s == [] then 0 else s[0] % 128 + 128 * Groups(s[1..])
  }

  /** The stream id a whole Stream Cancellation carries. */
  function Integer(c: seq<byte>): nat
    requires IsCancellation(c)
  {
    if c[0] != 0x7f then c[0] - 0x40 else 63 + Groups(c[1..])
  }

  /** A Stream Cancellation for an id a stream can have. */
  ghost predicate Legal(c: seq<byte>) { IsCancellation(c) && Integer(c) < ID_LIMIT }

  ghost predicate AllLegal(cs: seq<seq<byte>>) { forall i :: 0 <= i < |cs| ==> Legal(cs[i]) }

  /** The bytes so far of some stream of Stream Cancellations for such ids. */
  ghost predicate LegalSoFar(s: seq<byte>) {
    exists ds: seq<seq<byte>> :: AllLegal(ds) && s <= Flatten(ds)
  }

  lemma {:induction false} GroupsOfContinuation(v: nat, groups: nat)
    requires v < Pow128(groups) && 1 <= groups
    ensures var s := Continuation(v);
      && 1 <= |s| <= groups && Groups(s) == v
      && AllContinue(s[..|s| - 1]) && s[|s| - 1] < 0x80
    decreases groups
  {
    var s := Continuation(v);
    if v < 128 {
      assert s[1..] == [];
    } else {
      assert groups > 1 by { assert Pow128(1) == 128; }
      GroupsOfContinuation(v / 128, groups - 1);
      assert s[1..] == Continuation(v / 128);
      assert s[..|s| - 1] == [s[0]] + s[1..][..|s| - 2];
    }
  }

  /** The encoding of an id is a whole instruction that carries it. */
  lemma CancellationCarriesId(id: nat)
    requires id < ID_LIMIT
    ensures IsCancellation(Cancellation(id)) && Integer(Cancellation(id)) == id
  {
    if id >= 63 {
      var s, t := Cancellation(id), Continuation(id - 63);
      IdsFit(id - 63);
      GroupsOfContinuation(id - 63, 9);
      assert s[1..] == t && s[1..|s| - 1] == t[..|t| - 1];
    }
  }

  /** The reader's limit is on bytes, not on the integer: this whole instruction is accepted, for id 2^62 + 63. */
  lemma PastTheLimitAccepted()
    ensures var c: seq<byte> := [0x7f, 0x80, 0x80, 0x80, 0x80, 0x80, 0x80, 0x80, 0x80, 0x40];
      Idle(Run(READY, Decoder, c)) && IsCancellation(c) && Integer(c) == ID_LIMIT + 63
  {
    hide Run, Groups, Pow128;
    var c: seq<byte> := [0x7f, 0x80, 0x80, 0x80, 0x80, 0x80, 0x80, 0x80, 0x80, 0x40];
    WholeAccepted(c);
    var zeros: seq<byte> := [0x80, 0x80, 0x80, 0x80, 0x80, 0x80, 0x80, 0x80];
    assert c[1..] == zeros + [0x40];
    GroupsAfterZeros(zeros, [0x40]);
    OneGroup(0x40);
    EightGroups();
  }

  lemma OneGroup(b: byte)
    requires b < 0x80
    ensures Groups([b]) == b
  {
    assert [b][1..] == [];
  }

  lemma EightGroups()
    ensures Pow128(8) == 0x100_0000_0000_0000
  {
    assert Pow128(2) == 0x4000;
    assert Pow128(4) == 0x1000_0000;
    assert Pow128(6) == 0x400_0000_0000;
  }

  lemma {:induction false} GroupsAfterZeros(zeros: seq<byte>, rest: seq<byte>)
    requires forall i :: 0 <= i < |zeros| ==> zeros[i] == 0x80
    ensures Groups(zeros + rest) == Pow128(|zeros|) * Groups(rest)
  {
    hide Groups, Pow128;
    PowUnfolds(Max(|zeros| - 1, 0));
    if zeros == [] {
      assert zeros + rest == rest;
    } else {
      GroupsAfterZeros(zeros[1..], rest);
      assert (zeros + rest)[1..] == zeros[1..] + rest;
      GroupsUnfold(zeros + rest);
      Reassociate(Pow128(|zeros| - 1), Groups(rest));
    }
  }

  lemma PowUnfolds(n: nat)
    ensures Pow128(0) == 1 && Pow128(n + 1) == 128 * Pow128(n)
  {
  }

  lemma GroupsUnfold(s: seq<byte>)
    requires s != []
    ensures Groups(s) == s[0] % 128 + 128 * Groups(s[1..])
  {
  }

  lemma Reassociate(p: nat, g: nat)
    ensures 128 * (p * g) == (128 * p) * g
  {
  }

  /** No whole instruction is the start of another: a stream has one reading. */
  lemma SameFirstInstruction(c: seq<byte>, x: seq<byte>, d: seq<byte>, y: seq<byte>)
    requires IsCancellation(c) && IsCancellation(d) && c + x <= d + y
    ensures c == d && x <= y
  {
    InstructionEnd(c);
    InstructionEnd(d);
    var s, t := c + x, d + y;
    assert forall i :: 0 <= i < |c| && i < |d| ==> c[i] == s[i] == t[i] == d[i];
    assert |c| == |d|;
    assert c == d;
    assert x == s[|c|..] && y == t[|d|..];
  }

  /** After the first byte, only the last one announces no other. */
  lemma InstructionEnd(c: seq<byte>)
    requires IsCancellation(c)
    ensures forall i :: 1 <= i < |c| ==> (c[i] < 0x80 <==> i == |c| - 1)
    ensures c[0] == 0x7f <==> |c| > 1
  {
    forall i | 1 <= i < |c| - 1 ensures c[i] >= 0x80 {
      assert c[i] == c[1..|c| - 1][i - 1];
    }
  }

  /** A begun instruction is shorter than the whole one it starts. */
  lemma BegunIsShorter(tail: seq<byte>, d: seq<byte>, y: seq<byte>)
    requires IsBegun(tail) && IsCancellation(d) && tail <= d + y
    ensures |tail| < |d|
  {
    InstructionEnd(d);
    forall i | 1 <= i < |tail| ensures tail[i] >= 0x80 {
      assert tail[i] == tail[1..][i - 1];
    }
    assert forall i :: 0 <= i < |tail| && i < |d| ==> tail[i] == (d + y)[i] == d[i];
    assert tail[0] == d[0];
  }

  lemma {:induction false} LegalReadingIsForced(cs: seq<seq<byte>>, tail: seq<byte>, ds: seq<seq<byte>>)
    requires AllCancellations(cs) && (tail == [] || IsBegun(tail)) && AllLegal(ds) && Flatten(cs) + tail <= Flatten(ds)
    ensures AllLegal(cs) && |tail| < 10
  {
    hide IsBegun, Integer;
    if cs == [] {
      assert Flatten(cs) + tail == tail;
      if tail != [] {
        BegunIsShorter(tail, ds[0], Flatten(ds[1..]));
      }
    } else {
      var rest := Flatten(cs[1..]) + tail;
      assert Flatten(cs) + tail == cs[0] + rest;
      SameFirstInstruction(cs[0], rest, ds[0], Flatten(ds[1..]));
      LegalReadingIsForced(cs[1..], tail, ds[1..]);
    }
  }

  lemma {:induction false} GroupsBelow(s: seq<byte>)
    ensures Groups(s) < Pow128(|s|)
  {
    if s != [] {
      GroupsBelow(s[1..]);
    }
  }

  lemma {:induction false} GroupsAppendZero(s: seq<byte>)
    ensures Groups(s + [0]) == Groups(s)
  {
    if s == [] {
      assert (s + [0])[1..] == [];
    } else {
      assert (s + [0])[1..] == s[1..] + [0];
      GroupsAppendZero(s[1..]);
    }
  }

  lemma {:induction false} Pow128Grows(m: nat, n: nat)
    requires m <= n
    ensures Pow128(m) <= Pow128(n)
  {
    if m < n {
      Pow128Grows(m, n - 1);
    }
  }

  /** With at most eight continuation bytes, a zero ends the instruction at a legal id. */
  lemma ZeroFinishes(tail: seq<byte>)
    requires IsBegun(tail) && |tail| < 10
    ensures Legal(tail + [0])
  {
    var c, t := tail + [0], tail[1..];
    assert c[1..] == t + [0] && c[1..|c| - 1] == t;
    GroupsAppendZero(t);
    GroupsBelow(t);
    Pow128Grows(|t|, 8);
    EightGroups();
  }

  /**
   What an accepted stream must add to be the start of Stream Cancellations for ids below 2^62: each of its
   whole instructions carries such an id, and one begun has fewer than nine continuation bytes.
   */
  lemma LegalExactlyWhen(s: seq<byte>, cs: seq<seq<byte>>, tail: seq<byte>)
    requires Consists(s, cs, tail)
    ensures Run(READY, Decoder, s).Ok?
    ensures LegalSoFar(s) <==> AllLegal(cs) && |tail| < 10
  {
    hide IsCancellation, IsBegun, Legal, Run, Flatten;
    InstructionsAccepted(cs, tail);
    if LegalSoFar(s) {
      var ds: seq<seq<byte>> :| AllLegal(ds) && s <= Flatten(ds);
      LegalReadingIsForced(cs, tail, ds);
    }
    if AllLegal(cs) && |tail| < 10 {
      LegalWhen(cs, tail);
    }
  }

  lemma LegalWhen(cs: seq<seq<byte>>, tail: seq<byte>)
    requires AllLegal(cs) && (tail == [] || IsBegun(tail)) && |tail| < 10
    ensures LegalSoFar(Flatten(cs) + tail)
  {
    hide IsCancellation, IsBegun, Legal;
    if tail == [] {
      assert Flatten(cs) + tail == Flatten(cs);
    } else {
      var last := tail + [0];
      ZeroFinishes(tail);
      var one: seq<seq<byte>> := [last];
      var ds := cs + one;
      FlattenAppend(cs, one);
      assert one[1..] == [] && Flatten(one) == last;
      hide Flatten;
      assert Flatten(ds) == Flatten(cs) + tail + [0];
      assert AllLegal(ds) && Flatten(cs) + tail <= Flatten(ds);
    }
  }

  lemma {:induction false} PrefixAccepted(s: seq<byte>, more: seq<byte>)
    requires Run(READY, Decoder, s + more).Ok?
    ensures Run(READY, Decoder, s).Ok?
  {
    RunAppend(READY, Decoder, s, more);
  }

  ghost predicate LegalReading(s: seq<byte>, cs: seq<seq<byte>>, tail: seq<byte>) {
    Consists(s, cs, tail) && AllLegal(cs) && |tail| < 10
  }

  /** The same over every stream and every cut into chunks. */
  lemma LegalStreams(chunks: seq<seq<byte>>)
    ensures LegalSoFar(Flatten(chunks)) ==> RunChunks(READY, Decoder, chunks).Ok?
    ensures LegalSoFar(Flatten(chunks)) <==>
      exists cs: seq<seq<byte>>, tail: seq<byte> :: LegalReading(Flatten(chunks), cs, tail)
  {
    hide IsCancellation, IsBegun, Run, RunChunks, Flatten;
    var s := Flatten(chunks);
    ChunksDoNotMatter(READY, Decoder, chunks);
    if LegalSoFar(s) {
      var ds: seq<seq<byte>> :| AllLegal(ds) && s <= Flatten(ds);
      assert AllCancellations(ds) by { LegalAreCancellations(ds); }
      InstructionsAccepted(ds, []);
      assert Flatten(ds) + [] == s + Flatten(ds)[|s|..];
      PrefixAccepted(s, Flatten(ds)[|s|..]);
      AcceptedAreInstructions(s);
      var cs: seq<seq<byte>>, tail: seq<byte> :| Consists(s, cs, tail);
      LegalExactlyWhen(s, cs, tail);
      assert LegalReading(s, cs, tail);
    }
    if cs: seq<seq<byte>>, tail: seq<byte> :| LegalReading(s, cs, tail) {
      LegalExactlyWhen(s, cs, tail);
    }
  }

  lemma LegalAreCancellations(ds: seq<seq<byte>>)
    requires AllLegal(ds)
    ensures AllCancellations(ds)
  {
    forall i | 0 <= i < |ds| ensures IsCancellation(ds[i]) {
      assert Legal(ds[i]);
    }
  }

  /**
   A begun instruction starts a legal one exactly while it has fewer than nine continuation bytes; after nine
   the reader, having accepted them, refuses any next byte.
   */
  lemma BegunCanFinish(s: seq<byte>)
    requires IsBegun(s)
    ensures Run(READY, Decoder, s).Ok?
    ensures (exists c: seq<byte> :: Legal(c) && s <= c) <==> |s| < 10
    ensures (exists b: byte :: Run(READY, Decoder, s + [b]).Ok?) <==> |s| < 10
  {
    TailAccepted(s);
    ContinuingAccepted(0, s[1..]);
    forall b: byte ensures Run(READY, Decoder, s + [b]).Ok? <==> |s| < 10 {
      RunAppend(READY, Decoder, s, [b]);
      assert [b][1..] == [];
    }
    var zero: byte := 0;
    assert Run(READY, Decoder, s + [zero]).Ok? <==> |s| < 10;
    if |s| < 10 {
      ZeroFinishes(s);
      assert s <= s + [0];
    }
    forall c: seq<byte> | Legal(c) && s <= c ensures |s| < 10 {
      assert c + [] == c;
      BegunIsShorter(s, c, []);
    }
  }
}
