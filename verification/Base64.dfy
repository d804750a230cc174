/** Base64 as src/auth.rs decodes it (section 4 of RFC 4648): strict framing, lenient unused bits. */
module Base64 {
  import opened Bytes

  const PAD: byte := 61

  type sextet = v: int | 0 <= v < 64

  /** The value of one alphabet character. */
  function Sextet(c: byte): Option<sextet> {
    if 65 <= c <= 90 then Some(c - 65)
    else if 97 <= c <= 122 then Some(c - 97 + 26)
    else if 48 <= c <= 57 then Some(c - 48 + 52)
    else if c == 43 then Some(62)
    else if c == 47 then Some(63)
    else None
  }

  function Letter(v: sextet): byte {
    if v < 26 then v + 65
    else if v < 52 then v + 71
    else if v < 62 then v - 4
    else if v == 62 then 43
    else 47
  }

  lemma LettersAndSextets(v: sextet, c: byte)
    ensures Sextet(Letter(v)) == Some(v) && Letter(v) != PAD
    ensures Sextet(c).Some? ==> Letter(Sextet(c).value) == c
  {
  }

  // ---------------------------------------------------------------- one quantum

  /** The significant characters' bits, six each. */
  function Bits(q: seq<byte>): (r: Option<nat>)
  {
    if q == [] then Some(0) else
    match Bits(q[..|q| - 1])
    case None => None
    case Some(v) =>
      match Sextet(q[|q| - 1])
      case None => None
      case Some(x) => Some(64 * v + x)
  }

  /** A 24-bit group's bytes. */
  function Group(v: nat): seq<byte> { [v / 65536 % 256, v / 256 % 256, v % 256] }

  /** Left-aligns the significant bits into a full group. */
  function Align(v: nat, padding: nat): nat {
    if padding == 0 then v else if padding == 1 then 64 * v else 4096 * v
  }

  function CountPads(q: seq<byte>): (n: nat)
    ensures n <= |q|
  {
    if q == [] then 0 else CountPads(q[..|q| - 1]) + if q[|q| - 1] == PAD then 1 else 0
  }

  function Quantum(q: seq<byte>, padding: nat): Option<seq<byte>>
    requires |q| == 4
  {
    if padding > 2 then None else
    match Bits(q[..4 - padding])
    case None => None
    case Some(v) => Some(Group(Align(v, padding))[..3 - padding])
  }

  /** Decodes a text quantum by quantum; only the last one may be padded. */
  function DecodeQuanta(t: seq<byte>): Option<seq<byte>>
    requires t != [] && |t| % 4 == 0
    decreases |t|
  {
    if |t| == 4 then Quantum(t, CountPads(t)) else
    match Quantum(t[..4], 0)
    case None => None
    case Some(head) =>
      match DecodeQuanta(t[4..])
      case None => None
      case Some(rest) => Some(head + rest)
  }

  function Decode(t: seq<byte>): Option<seq<byte>> {
    if t == [] || |t| % 4 != 0 then None else DecodeQuanta(t)
  }

  /** One to three bytes as four characters. */
  function EncodeQuantum(b: seq<byte>): (q: seq<byte>)
    requires 1 <= |b| <= 3
    ensures |q| == 4
  {
    var b1, b2 := if |b| > 1 then b[1] else 0, if |b| > 2 then b[2] else 0;
    [Letter(b[0] / 4), Letter(b[0] % 4 * 16 + b1 / 16),
     if |b| > 1 then Letter(b1 % 16 * 4 + b2 / 64) else 61,
     if |b| > 2 then Letter(b2 % 64) else 61]
  }

  /** The canonical text of a byte string. */
  function Encode(b: seq<byte>): (t: seq<byte>)
    ensures |t| == 4 * ((|b| + 2) / 3)
    decreases |b|
  {
    if b == [] then [] else if |b| <= 3 then EncodeQuantum(b) else EncodeQuantum(b[..3]) + Encode(b[3..])
  }

  // ---------------------------------------------------------------- the bit arithmetic

  /** The bits of two, three or four significant characters. */
  lemma BitsOfCharacters(q: seq<byte>)
    requires 2 <= |q| <= 4
    ensures Bits(q).Some? <==> forall i :: 0 <= i < |q| ==> Sextet(q[i]).Some?
    ensures Bits(q).Some? ==>
      Bits(q).value ==
        var v := 64 * Sextet(q[0]).value + Sextet(q[1]).value;
        if |q| == 2 then v
        else if |q| == 3 then 64 * v + Sextet(q[2]).value
        else 64 * (64 * v + Sextet(q[2]).value) + Sextet(q[3]).value
  {
    assert q[..1][..0] == [] && q[..2][..1] == q[..1] && q[..|q|] == q;
    assert Bits([]) == Some(0);
    if |q| >= 3 {
      assert q[..3][..2] == q[..2];
    }
    if |q| == 4 {
      assert q[..4][..3] == q[..3];
    }
  }

  /** Six-bit digits of a group are its bytes cut at other places. */
  lemma GroupOfDigits(x: sextet, y: sextet, z: sextet, w: sextet)
    ensures Group(64 * (64 * (64 * x + y) + z) + w) == [4 * x + y / 16, y % 16 * 16 + z / 4, z % 4 * 64 + w]
  {
    var v := 64 * (64 * (64 * x + y) + z) + w;
    assert y == 16 * (y / 16) + y % 16 && z == 4 * (z / 4) + z % 4;
    var a, b, c := 4 * x + y / 16, y % 16 * 16 + z / 4, z % 4 * 64 + w;
    assert v == 65536 * a + 256 * b + c;
    GroupOfBytes(a, b, c);
  }

  lemma GroupOfBytes(a: byte, b: byte, c: byte)
    ensures Group(65536 * a + 256 * b + c) == [a, b, c]
  {
    var v := 65536 * a + 256 * b + c;
    DigitsFall(256 * a + b, c);
    DigitsFall(a, b);
    assert v == 256 * (256 * a + b) + c;
    assert v / 65536 == v / 256 / 256;
  }

  lemma DigitsFall(high: nat, low: byte)
    ensures (256 * high + low) / 256 == high && (256 * high + low) % 256 == low
  {
  }

  /** And the other way round. */
  lemma DigitsOfBytes(a: byte, b: byte, c: byte)
    ensures var x, y, z, w := a / 4, a % 4 * 16 + b / 16, b % 16 * 4 + c / 64, c % 64;
      4 * x + y / 16 == a && y % 16 * 16 + z / 4 == b && z % 4 * 64 + w == c
  {
    var y, z := a % 4 * 16 + b / 16, b % 16 * 4 + c / 64;
    assert y / 16 == a % 4 && y % 16 == b / 16 && z / 4 == b % 16 && z % 4 == c / 64;
  }

  /** Cut again at six bits, bytes give their digits back; missing bytes, read as zero, lose the low bits. */
  lemma BytesOfDigits(x: sextet, y: sextet, z: sextet, w: sextet)
    ensures var a, b, c := 4 * x + y / 16, y % 16 * 16 + z / 4, z % 4 * 64 + w;
      && a / 4 == x && a % 4 * 16 + b / 16 == y && b % 16 * 4 + c / 64 == z && c % 64 == w
      && a % 4 * 16 == y / 16 * 16 && b % 16 * 4 == z / 4 * 4
  {
    var a, b, c := 4 * x + y / 16, y % 16 * 16 + z / 4, z % 4 * 64 + w;
    assert a % 4 == y / 16 && b / 16 == y % 16 && b % 16 == z / 4 && c / 64 == z % 4;
  }

  /** What a quantum decodes to, in its characters' values. */
  lemma QuantumValue(q: seq<byte>, padding: nat)
    requires |q| == 4 && padding <= 2
    ensures Quantum(q, padding).Some? <==> forall i :: 0 <= i < 4 - padding ==> Sextet(q[i]).Some?
    ensures Quantum(q, padding).Some? ==>
      Quantum(q, padding).value ==
        var x, y := Sextet(q[0]).value, Sextet(q[1]).value;
        if padding == 2 then [4 * x + y / 16] else
        var z := Sextet(q[2]).value;
        if padding == 1 then [4 * x + y / 16, y % 16 * 16 + z / 4]
        else [4 * x + y / 16, y % 16 * 16 + z / 4, z % 4 * 64 + Sextet(q[3]).value]
  {
    hide Sextet, Bits, Group;
    var p := q[..4 - padding];
    BitsOfCharacters(p);
    assert forall i :: 0 <= i < 4 - padding ==> p[i] == q[i];
    if Bits(p).Some? {
      GroupOfDigits(Sextet(q[0]).value, Sextet(q[1]).value,
                    if padding == 2 then 0 else Sextet(q[2]).value, if padding >= 1 then 0 else Sextet(q[3]).value);
    }
  }

  // ---------------------------------------------------------------- decoding inverts encoding

  lemma CountPadsOfFour(q: seq<byte>)
    requires |q| == 4
    ensures CountPads(q) == (if q[0] == PAD then 1 else 0) + (if q[1] == PAD then 1 else 0)
                          + (if q[2] == PAD then 1 else 0) + (if q[3] == PAD then 1 else 0)
  {
    assert q[..3][..2] == q[..2] && q[..2][..1] == q[..1] && q[..1][..0] == [];
    assert CountPads(q[..1]) == if q[0] == PAD then 1 else 0;
    assert CountPads(q[..2]) == CountPads(q[..1]) + if q[1] == PAD then 1 else 0;
    assert CountPads(q[..3]) == CountPads(q[..2]) + if q[2] == PAD then 1 else 0;
  }

  lemma QuantumRoundTrip(b: seq<byte>)
    requires 1 <= |b| <= 3
    ensures CountPads(EncodeQuantum(b)) == 3 - |b|
    ensures Quantum(EncodeQuantum(b), 3 - |b|) == Some(b)
  {
    hide Letter, Sextet, Quantum, CountPads;
    var b1, b2 := if |b| > 1 then b[1] else 0, if |b| > 2 then b[2] else 0;
    var x, y, z, w := b[0] / 4, b[0] % 4 * 16 + b1 / 16, b1 % 16 * 4 + b2 / 64, b2 % 64;
    LettersAndSextets(x, 0);
    LettersAndSextets(y, 0);
    LettersAndSextets(z, 0);
    LettersAndSextets(w, 0);
    var q := EncodeQuantum(b);
    CountPadsOfFour(q);
    QuantumValue(q, 3 - |b|);
    DigitsOfBytes(b[0], b1, b2);
    assert Sextet(q[0]) == Some(x) && Sextet(q[1]) == Some(y);
    if |b| == 1 {
      assert b == [b[0]];
    } else if |b| == 2 {
      assert Sextet(q[2]) == Some(z) && b == [b[0], b[1]];
    } else {
      assert Sextet(q[2]) == Some(z) && Sextet(q[3]) == Some(w) && b == [b[0], b[1], b[2]];
    }
  }

  lemma EncodeUnfolds(b: seq<byte>)
    requires b != []
    ensures |b| <= 3 ==> Encode(b) == EncodeQuantum(b)
    ensures |b| > 3 ==> Encode(b) == EncodeQuantum(b[..3]) + Encode(b[3..])
  {
    hide EncodeQuantum;
  }

  /** Every non-empty byte string comes back from its encoding. */
  lemma {:induction false} DecodeInvertsEncode(b: seq<byte>)
    requires b != []
    ensures Decode(Encode(b)) == Some(b)
    decreases |b|
  {
    hide Quantum, EncodeQuantum, CountPads, Encode;
    EncodeUnfolds(b);
    if |b| <= 3 {
      QuantumRoundTrip(b);
    } else {
      var head, rest := b[..3], b[3..];
      QuantumRoundTrip(head);
      DecodeInvertsEncode(rest);
      var t := Encode(b);
      assert t[..4] == EncodeQuantum(head) && t[4..] == Encode(rest);
      assert b == head + rest;
    }
  }

  // ---------------------------------------------------------------- what else is accepted

  /** Two quanta of one value: equal, except for the unused low bits of a padded quantum's last character. */
  predicate SameQuantum(q: seq<byte>, e: seq<byte>, padding: nat)
    requires |q| == |e| == 4 && padding <= 2
  {
    var last := 3 - padding;
    && (forall i :: 0 <= i < 4 && (i != last || padding == 0) ==> q[i] == e[i])
    && Sextet(q[last]).Some? && Sextet(e[last]).Some?
    && var unused := if padding == 2 then 16 else if padding == 1 then 4 else 1;
       Sextet(e[last]).value == Sextet(q[last]).value / unused * unused
  }

  ghost predicate SameButUnused(t: seq<byte>, e: seq<byte>)
    decreases |t|
  {
    && |t| == |e| && |t| >= 4
    && (if |t| == 4 then CountPads(t) <= 2 && SameQuantum(t, e, CountPads(t))
        else t[..4] == e[..4] && SameButUnused(t[4..], e[4..]))
  }

  lemma AcceptedQuantum(q: seq<byte>, padding: nat)
    requires |q| == 4 && (padding == CountPads(q) || padding == 0) && Quantum(q, padding).Some?
    ensures padding <= 2 && 1 <= |Quantum(q, padding).value| == 3 - padding
    ensures SameQuantum(q, EncodeQuantum(Quantum(q, padding).value), padding)
  {
    hide Letter, Sextet, Quantum, CountPads;
    assert padding <= 2 by { PaddingBound(q, padding); }
    QuantumValue(q, padding);
    CountPadsOfFour(q);
    var x, y := Sextet(q[0]).value, Sextet(q[1]).value;
    var z := if padding == 2 then 0 else Sextet(q[2]).value;
    BytesOfDigits(x, y, z, if padding >= 1 then 0 else Sextet(q[3]).value);
    forall i | 0 <= i < 4 ensures Sextet(q[i]).Some? ==> Letter(Sextet(q[i]).value) == q[i] {
      LettersAndSextets(0, q[i]);
    }
    forall v: sextet ensures Sextet(Letter(v)) == Some(v) {
      LettersAndSextets(v, 0);
    }
    PadIsNoLetter();
  }

  lemma PaddingBound(q: seq<byte>, padding: nat)
    requires |q| == 4 && Quantum(q, padding).Some?
    ensures padding <= 2
  {
  }

  lemma PadIsNoLetter()
    ensures Sextet(PAD) == None
  {
  }

  /** Any accepted text is the canonical text of its value, up to those unused bits. */
  lemma {:induction false} AcceptedIsCanonical(t: seq<byte>)
    requires Decode(t).Some?
    ensures Decode(t).value != [] && SameButUnused(t, Encode(Decode(t).value))
    decreases |t|
  {
    hide Quantum, EncodeQuantum, CountPads, SameQuantum;
    var b := Decode(t).value;
    if |t| == 4 {
      AcceptedQuantum(t, CountPads(t));
    } else {
      AcceptedQuantum(t[..4], 0);
      AcceptedIsCanonical(t[4..]);
      var head, rest := Quantum(t[..4], 0).value, DecodeQuanta(t[4..]).value;
      assert b == head + rest && b[..3] == head && b[3..] == rest;
      SameFull(t[..4], EncodeQuantum(head));
      assert Encode(b)[..4] == EncodeQuantum(head) && Encode(b)[4..] == Encode(rest);
    }
  }

  lemma SameFull(q: seq<byte>, e: seq<byte>)
    requires |q| == |e| == 4 && SameQuantum(q, e, 0)
    ensures q == e
  {
  }

  lemma SameQuantumDecodes(q: seq<byte>, b: seq<byte>)
    requires |q| == 4 && 1 <= |b| <= 3 && CountPads(q) <= 2 && SameQuantum(q, EncodeQuantum(b), CountPads(q))
    ensures Quantum(q, CountPads(q)) == Some(b)
  {
    hide Letter, Sextet, Quantum, EncodeQuantum;
    var e, p := EncodeQuantum(b), CountPads(q);
    QuantumRoundTrip(b);
    CountPadsOfFour(q);
    CountPadsOfFour(e);
    PadIsNoLetter();
    hide CountPads;
    assert p == 3 - |b|;
    QuantumValue(q, p);
    QuantumValue(e, p);
  }

  /** Exactly the texts accepted, and for what: the canonical text, up to those unused bits. */
  lemma {:induction false} DecodesExactly(t: seq<byte>, b: seq<byte>)
    ensures Decode(t) == Some(b) <==> SameButUnused(t, Encode(b))
    decreases |t|
  {
    if Decode(t) == Some(b) {
      AcceptedIsCanonical(t);
    }
    if SameButUnused(t, Encode(b)) {
      SameDecodes(t, b);
    }
  }

  lemma {:induction false} SameDecodes(t: seq<byte>, b: seq<byte>)
    requires SameButUnused(t, Encode(b))
    ensures Decode(t) == Some(b)
    decreases |t|
  {
    hide Quantum, EncodeQuantum, CountPads, SameQuantum;
    if |t| == 4 {
      EncodedSize(b);
      SameQuantumDecodes(t, b);
    } else {
      EncodedSize(b);
      var head, rest := b[..3], b[3..];
      assert Encode(b)[..4] == EncodeQuantum(head) && Encode(b)[4..] == Encode(rest);
      QuantumRoundTrip(head);
      SameDecodes(t[4..], rest);
      assert b == head + rest;
    }
  }

  lemma {:induction false} EncodedSize(b: seq<byte>)
    ensures |Encode(b)| == 4 <==> 1 <= |b| <= 3
    ensures |Encode(b)| == 0 <==> b == []
    decreases |b|
  {
    if |b| > 3 {
      EncodedSize(b[3..]);
    }
  }

  // ---------------------------------------------------------------- the loops

  method DecodeBase64(input: seq<byte>) returns (r: Option<seq<byte>>)
    ensures r == Decode(input)
  {
    hide Quantum, CountPads;
    if input == [] || |input| % 4 != 0 {
      return None;
    }
    var quanta := |input| / 4;
    var out: seq<byte> := [];
    var index := 0;
    assert input[0..] == input;
    FollowNothing(DecodeQuanta(input));
    while index < quanta
      invariant index <= quanta && |input| == 4 * quanta
      invariant index < quanta ==> DecodeQuanta(input) == Follow(out, DecodeQuanta(input[4 * index..]))
      invariant index == quanta ==> DecodeQuanta(input) == Some(out)
    {
      var quantum := input[4 * index..4 * index + 4];
      ghost var here := input[4 * index..];
      assert here[..4] == quantum && here[4..] == input[4 * (index + 1)..];
      var padding := 0;
      if index + 1 == quanta {
        padding := CountPads(quantum);
        assert here == quantum;
      }
      var bytes := DecodeQuantum(quantum, padding);
      if bytes == None {
        return None;
      }
      if index + 1 < quanta {
        FollowTwice(out, bytes.value, DecodeQuanta(here[4..]));
      }
      out := out + bytes.value;
      index := index + 1;
    }
    r := Some(out);
  }

  ghost function Follow(a: seq<byte>, more: Option<seq<byte>>): Option<seq<byte>> {
    match more case None => None case Some(b) => Some(a + b)
  }

  lemma FollowNothing(more: Option<seq<byte>>)
    ensures Follow([], more) == more
  {
    if more.Some? {
      assert [] + more.value == more.value;
    }
  }

  lemma FollowTwice(a: seq<byte>, b: seq<byte>, more: Option<seq<byte>>)
    ensures Follow(a, Follow(b, more)) == Follow(a + b, more)
  {
    if more.Some? {
      assert a + (b + more.value) == a + b + more.value;
    }
  }

  method DecodeQuantum(quantum: seq<byte>, padding: nat) returns (r: Option<seq<byte>>)
    requires |quantum| == 4
    ensures r == Quantum(quantum, padding)
  {
    if padding > 2 {
      return None;
    }
    var significant := 4 - padding;
    var bits: nat := 0;
    ghost var p := quantum[..significant];
    for i := 0 to significant
      invariant Bits(p[..i]) == Some(bits)
    {
      assert p[..i + 1][..i] == p[..i];
      var v := Sextet(quantum[i]);
      if v == None {
        BitsStop(p, i);
        return None;
      }
      bits := 64 * bits + v.value;
    }
    assert p[..significant] == p;
    r := Some(Group(Align(bits, padding))[..3 - padding]);
  }

  lemma {:induction false} BitsStop(p: seq<byte>, i: nat)
    requires i < |p| && Sextet(p[i]).None?
    ensures Bits(p) == None
  {
    if i < |p| - 1 {
      BitsStop(p[..|p| - 1], i);
    }
  }
}
