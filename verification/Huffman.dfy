/**
 The QPACK Huffman code (Appendix B of RFC 7541), as src/h3/huffman.rs decodes it.

 Everything here is stated for any table of code lengths that is complete and gives EOS
 one of the longest codes; module HuffmanTable shows that Appendix B is such a table.
 */
module Huffman {
  import opened Bytes

  const EOS: nat := 256
  const SYMBOLS: nat := 257

  type bit = b: int | 0 <= b < 2

  // ---------------------------------------------------------------- bit strings

  function Pow2(n: nat): (p: nat)
    ensures p >= 1
  {
    if n == 0 then 1 else 2 * Pow2(n - 1)
  }

  /** The number a bit string spells, most significant bit first. */
  function Value(t: seq<bit>): nat {
    if t == [] then 0 else 2 * Value(t[..|t| - 1]) + t[|t| - 1]
  }

  /** The lowest `n` bits of `v`, most significant first. */
  function BitsOf(v: nat, n: nat): (t: seq<bit>)
    ensures |t| == n
  {
    if n == 0 then [] else BitsOf(v / 2, n - 1) + [v % 2]
  }

  function Ones(n: nat): seq<bit> { seq(n, _ => 1) }

  lemma {:induction false} BitsOfValue(t: seq<bit>)
    ensures BitsOf(Value(t), |t|) == t
    ensures Value(t) < Pow2(|t|)
  {
    if t != [] {
      BitsOfValue(t[..|t| - 1]);
    }
  }

  lemma Unfolds(v: nat, n: nat)
    ensures BitsOf(v, 0) == [] && Pow2(0) == 1
    ensures n > 0 ==> BitsOf(v, n) == BitsOf(v / 2, n - 1) + [v % 2] && Pow2(n) == 2 * Pow2(n - 1)
  {
  }

  lemma ValueOfNothing()
    ensures Value([]) == 0
  {
  }

  lemma ValueSnoc(t: seq<bit>, b: bit)
    ensures Value(t + [b]) == 2 * Value(t) + b
  {
    assert (t + [b])[..|t|] == t;
  }

  lemma {:induction false} ValueOfBits(v: nat, n: nat)
    requires v < Pow2(n)
    ensures Value(BitsOf(v, n)) == v
  {
    Unfolds(v, n);
    hide Value, Pow2, BitsOf;
    if n == 0 {
      ValueOfNothing();
    } else {
      ValueOfBits(v / 2, n - 1);
      ValueSnoc(BitsOf(v / 2, n - 1), v % 2);
    }
  }

  lemma {:induction false} ValueOfOnes(n: nat)
    ensures Value(Ones(n)) == Pow2(n) - 1
  {
    if n != 0 {
      ValueOfOnes(n - 1);
      assert Ones(n)[..n - 1] == Ones(n - 1);
    }
  }

  /** What the inner loop's shift-and-mask reads is the bit string's own entry. */
  lemma {:induction false} ShiftReadsBit(v: nat, n: nat, j: nat)
    requires j < n
    ensures BitsOf(v, n)[j] == v / Pow2(n - 1 - j) % 2
  {
    if j < n - 1 {
      ShiftReadsBit(v / 2, n - 1, j);
      HalveThenShift(v, Pow2(n - 2 - j));
    }
  }

  lemma HalveThenShift(v: nat, p: nat)
    requires p >= 1
    ensures v / 2 / p == v / (2 * p)
  {
    var q := v / (2 * p);
    var r := v % (2 * p);
    assert v == 2 * (p * q) + r;
    assert v / 2 == p * q + r / 2;
    assert r / 2 < p;
    DivideUnique(v / 2, p, q, r / 2);
  }

  lemma DivideUnique(v: nat, p: nat, q: nat, r: nat)
    requires r < p && v == p * q + r
    ensures v / p == q
  {
    var d := v / p;
    assert v == p * d + v % p;
    TimesMonotone(p, d + 1, q);
    TimesMonotone(p, q + 1, d);
  }

  /** The bits of a byte string, each byte most significant bit first. */
  function Unpack(s: seq<byte>): (t: seq<bit>)
    ensures |t| == 8 * |s|
  {
    if s == [] then [] else Unpack(s[..|s| - 1]) + BitsOf(s[|s| - 1], 8)
  }

  lemma ByteValue(t: seq<bit>)
    requires |t| == 8
    ensures Value(t) < 256
  {
    BitsOfValue(t);
    assert Pow2(8) == 256;
  }

  function Pack(t: seq<bit>): (s: seq<byte>)
    requires |t| % 8 == 0
    ensures |s| == |t| / 8
  {
    if t == [] then [] else
      ByteValue(t[|t| - 8..]);
      Pack(t[..|t| - 8]) + [Value(t[|t| - 8..])]
  }

  lemma UnpackSnoc(s: seq<byte>, b: byte)
    ensures Unpack(s + [b]) == Unpack(s) + BitsOf(b, 8)
  {
    assert (s + [b])[..|s|] == s;
  }

  lemma UnpackNothing()
    ensures Unpack([]) == []
  {
  }

  lemma {:induction false} UnpackPack(t: seq<bit>)
    requires |t| % 8 == 0
    ensures Unpack(Pack(t)) == t
  {
    hide BitsOf, Value, Unpack;
    if t == [] {
      UnpackNothing();
    } else {
      var front, last := t[..|t| - 8], t[|t| - 8..];
      UnpackPack(front);
      BitsOfValue(last);
      ByteValue(last);
      UnpackSnoc(Pack(front), Value(last));
      assert t == front + last;
    }
  }

  lemma {:induction false} UnpackInjective(a: seq<byte>, b: seq<byte>)
    requires Unpack(a) == Unpack(b)
    ensures a == b
  {
    assert |a| == |b|;
    if a != [] {
      var n := |a| - 1;
      assert Unpack(a)[..8 * n] == Unpack(a[..n]) && Unpack(a)[8 * n..] == BitsOf(a[n], 8);
      assert Unpack(b)[..8 * n] == Unpack(b[..n]) && Unpack(b)[8 * n..] == BitsOf(b[n], 8);
      UnpackInjective(a[..n], b[..n]);
      assert Pow2(8) == 256;
      ValueOfBits(a[n], 8);
      ValueOfBits(b[n], 8);
      assert a == a[..n] + [a[n]] && b == b[..n] + [b[n]];
    }
  }

  // ---------------------------------------------------------------- the canonical code

  /** How many of the first `n` symbols have a code of `bits` bits. */
  function Count(lens: seq<nat>, n: nat, bits: nat): nat
    requires n <= |lens|
  {
    if n == 0 then 0 else Count(lens, n - 1, bits) + if lens[n - 1] == bits then 1 else 0
  }

  /** How many of the first `n` symbols have a code shorter than `bits` bits. */
  function CountBelow(lens: seq<nat>, n: nat, bits: nat): (c: nat)
    requires n <= |lens|
    ensures c <= n
  {
    if n == 0 then 0 else CountBelow(lens, n - 1, bits) + if lens[n - 1] < bits then 1 else 0
  }

  /** The smallest code of `bits` bits (canonical assignment). */
  function FirstCode(lens: seq<nat>, bits: nat): nat
    decreases bits, 0
  {
    if bits == 0 then 0 else 2 * Bound(lens, bits - 1)
  }

  /** One past the largest code of `bits` bits. */
  function Bound(lens: seq<nat>, bits: nat): nat
    decreases bits, 1
  {
    FirstCode(lens, bits) + Count(lens, |lens|, bits)
  }

  /** The longest code's length: EOS has it in every table considered here. */
  function Longest(lens: seq<nat>): nat
    requires |lens| == SYMBOLS
  {
    lens[EOS]
  }

  ghost predicate WithinLongest(lens: seq<nat>) {
    |lens| == SYMBOLS && forall s :: 0 <= s < |lens| ==> 1 <= lens[s] <= Longest(lens)
  }

  /** A complete code over 257 symbols whose last symbol, EOS, has a longest code. */
  ghost predicate Complete(lens: seq<nat>) {
    && WithinLongest(lens)
    && Longest(lens) >= 8
    && Bound(lens, Longest(lens)) == Pow2(Longest(lens))
  }

  /** A symbol's position among the symbols of its own length. */
  function Rank(lens: seq<nat>, s: nat): nat
    requires s < |lens|
  {
    Count(lens, s, lens[s])
  }

  function CodeValue(lens: seq<nat>, s: nat): nat
    requires s < |lens|
  {
    FirstCode(lens, lens[s]) + Rank(lens, s)
  }

  function CodeWord(lens: seq<nat>, s: nat): seq<bit>
    requires s < |lens|
  {
    BitsOf(CodeValue(lens, s), lens[s])
  }

  type symbol = s: nat | s < 257

  function EncodeBits(lens: seq<nat>, s: seq<symbol>): seq<bit>
    requires |lens| == SYMBOLS
  {
    if s == [] then [] else CodeWord(lens, s[0]) + EncodeBits(lens, s[1..])
  }

  /** The fewest bits that fill the last byte. */
  function Padding(n: nat): (k: nat)
    ensures k < 8 && (n + k) % 8 == 0
  {
    (8 - n % 8) % 8
  }

  /** Section 5.2 of RFC 7541: the codes, then ones up to the next byte boundary. */
  function Encode(lens: seq<nat>, s: seq<byte>): seq<byte>
    requires |lens| == SYMBOLS
  {
    var t := EncodeBits(lens, s);
    Pack(t + Ones(Padding(|t|)))
  }

  lemma {:induction false} CountMonotone(lens: seq<nat>, m: nat, n: nat, bits: nat)
    requires m <= n <= |lens|
    ensures Count(lens, m, bits) <= Count(lens, n, bits)
    ensures m < n && lens[m] == bits ==> Count(lens, m, bits) < Count(lens, n, bits)
    decreases n
  {
    if m < n - 1 {
      CountMonotone(lens, m, n - 1, bits);
    }
  }

  lemma RankBelowCount(lens: seq<nat>, s: nat)
    requires s < |lens|
    ensures Rank(lens, s) < Count(lens, |lens|, lens[s])
  {
    CountMonotone(lens, s, |lens|, lens[s]);
  }

  /** Two symbols of one length and one rank are the same symbol. */
  lemma RankInjective(lens: seq<nat>, x: nat, y: nat)
    requires x < |lens| && y < |lens| && lens[x] == lens[y] && Rank(lens, x) == Rank(lens, y)
    ensures x == y
  {
    if x < y {
      CountMonotone(lens, x, y, lens[x]);
    } else if y < x {
      CountMonotone(lens, y, x, lens[x]);
    }
  }

  /** Every rank below the count is some symbol's. */
  lemma {:induction false} SymbolOfRank(lens: seq<nat>, n: nat, bits: nat, r: nat) returns (s: nat)
    requires n <= |lens| && r < Count(lens, n, bits)
    ensures s < n && lens[s] == bits && Rank(lens, s) == r
  {
    if lens[n - 1] == bits && r == Count(lens, n - 1, bits) {
      s := n - 1;
    } else {
      s := SymbolOfRank(lens, n - 1, bits, r);
    }
  }

  /** The codes of every length fit in that many bits. */
  lemma {:induction false} BoundFits(lens: seq<nat>, bits: nat)
    requires Complete(lens) && bits <= Longest(lens)
    ensures Bound(lens, bits) <= Pow2(bits)
    decreases Longest(lens) - bits
  {
    if bits < Longest(lens) {
      BoundFits(lens, bits + 1);
    }
  }

  lemma CodeWordValue(lens: seq<nat>, s: nat)
    requires Complete(lens) && s < |lens|
    ensures |CodeWord(lens, s)| == lens[s]
    ensures Value(CodeWord(lens, s)) == CodeValue(lens, s)
    ensures FirstCode(lens, lens[s]) <= CodeValue(lens, s) < Bound(lens, lens[s]) <= Pow2(lens[s])
  {
    RankBelowCount(lens, s);
    BoundFits(lens, lens[s]);
    ValueOfBits(CodeValue(lens, s), lens[s]);
  }

  /** The EOS code is all ones. */
  lemma EosIsAllOnes(lens: seq<nat>)
    requires Complete(lens)
    ensures CodeWord(lens, EOS) == Ones(Longest(lens))
  {
    CodeWordValue(lens, EOS);
    assert Count(lens, SYMBOLS, Longest(lens)) == Count(lens, EOS, Longest(lens)) + 1;
    ValueOfOnes(Longest(lens));
    BitsOfValue(Ones(Longest(lens)));
  }

  // ---------------------------------------------------------------- unique decoding

  /** Bits that neither are nor contain at their front any complete code. */
  ghost predicate Pending(lens: seq<nat>, t: seq<bit>)
    requires |lens| == SYMBOLS
  {
    |t| <= Longest(lens) && Value(t) >= Bound(lens, |t|)
  }

  /** A value at or above the first code of its length has no code as a proper prefix. */
  lemma {:induction false} PrefixesPending(lens: seq<nat>, t: seq<bit>, k: nat)
    requires |lens| == SYMBOLS && k < |t| <= Longest(lens) && Value(t) >= FirstCode(lens, |t|)
    ensures Pending(lens, t[..k])
  {
    var u := t[..|t| - 1];
    if k < |t| - 1 {
      PrefixesPending(lens, u, k);
      assert u[..k] == t[..k];
    }
  }

  lemma PrefixPending(lens: seq<nat>, t: seq<bit>, k: nat)
    requires |lens| == SYMBOLS && k <= |t| && Pending(lens, t)
    ensures Pending(lens, t[..k])
  {
    if k == |t| {
      assert t[..k] == t;
    } else {
      PrefixesPending(lens, t, k);
    }
  }

  /** Completeness: an unfinished code is always shorter than the longest one. */
  lemma PendingIsShort(lens: seq<nat>, t: seq<bit>)
    requires Complete(lens) && Pending(lens, t)
    ensures |t| < Longest(lens)
  {
    BitsOfValue(t);
  }

  /** No code is a prefix of unfinished bits. */
  lemma PendingHasNoCode(lens: seq<nat>, t: seq<bit>, s: symbol, rest: seq<bit>)
    requires Complete(lens) && Pending(lens, t)
    ensures t != CodeWord(lens, s) + rest
  {
    if t == CodeWord(lens, s) + rest {
      CodeWordValue(lens, s);
      var k := lens[s];
      assert t[..k] == CodeWord(lens, s);
      PrefixPending(lens, t, k);
    }
  }

  /** Prefix-freeness: two bit strings with equal fronts begin with the same symbol. */
  lemma SameFirstSymbol(lens: seq<nat>, x: symbol, y: symbol, p: seq<bit>, q: seq<bit>)
    requires Complete(lens) && CodeWord(lens, x) + p == CodeWord(lens, y) + q
    ensures x == y && p == q
    decreases lens[x] > lens[y]
  {
    if lens[x] > lens[y] {
      SameFirstSymbol(lens, y, x, q, p);
    } else {
      CodeWordValue(lens, x);
      CodeWordValue(lens, y);
      var cx, cy := CodeWord(lens, x), CodeWord(lens, y);
      assert (cx + p)[..lens[x]] == cx;
      assert (cy + q)[..lens[x]] == cy[..lens[x]];
      if lens[x] < lens[y] {
        PrefixesPending(lens, cy, lens[x]);
        assert false;
      } else {
        assert cy[..lens[x]] == cy;
        RankInjective(lens, x, y);
        assert p == (cx + p)[lens[x]..] == q;
      }
    }
  }

  lemma {:induction false} EncodeBitsAppend(lens: seq<nat>, a: seq<symbol>, b: seq<symbol>)
    requires |lens| == SYMBOLS
    ensures EncodeBits(lens, a + b) == EncodeBits(lens, a) + EncodeBits(lens, b)
  {
    if a == [] {
      assert a + b == b;
    } else {
      assert (a + b)[1..] == a[1..] + b;
      EncodeBitsAppend(lens, a[1..], b);
    }
  }

  lemma EncodeBitsSnoc(lens: seq<nat>, a: seq<symbol>, s: symbol)
    requires |lens| == SYMBOLS
    ensures EncodeBits(lens, a + [s]) == EncodeBits(lens, a) + CodeWord(lens, s)
  {
    EncodeBitsAppend(lens, a, [s]);
    assert EncodeBits(lens, [s]) == CodeWord(lens, s);
  }

  ghost predicate Split(lens: seq<nat>, t: seq<bit>, s: seq<symbol>, rest: seq<bit>)
    requires |lens| == SYMBOLS
  {
    t == EncodeBits(lens, s) + rest
  }

  /** If the bits are some symbols and then an unfinished code, every other reading is a prefix of it. */
  lemma {:induction false} ReadingIsPrefix(lens: seq<nat>, t: seq<bit>,
                                           a: seq<symbol>, ra: seq<bit>, b: seq<symbol>, rb: seq<bit>)
    requires Complete(lens) && Split(lens, t, a, ra) && Split(lens, t, b, rb) && Pending(lens, rb)
    ensures a <= b && ra == EncodeBits(lens, b[|a|..]) + rb
    decreases |a|
  {
    if a == [] {
      assert b[0..] == b && t == ra;
    } else {
      var p := EncodeBits(lens, a[1..]) + ra;
      assert t == CodeWord(lens, a[0]) + p;
      if b == [] {
        assert rb == t;
        PendingHasNoCode(lens, rb, a[0], p);
      } else {
        var q := EncodeBits(lens, b[1..]) + rb;
        assert t == CodeWord(lens, b[0]) + q;
        SameFirstSymbol(lens, a[0], b[0], p, q);
        ReadingIsPrefix(lens, p, a[1..], ra, b[1..], rb);
        assert b[|a|..] == b[1..][|a| - 1..];
        PrefixFromTail(a, b);
      }
    }
  }

  lemma PrefixFromTail<T>(a: seq<T>, b: seq<T>)
    requires a != [] && b != [] && a[0] == b[0] && a[1..] <= b[1..]
    ensures a <= b
  {
    assert a == [a[0]] + a[1..] && b == [b[0]] + b[1..];
  }

  /** Two finished readings are one. */
  lemma ReadingIsUnique(lens: seq<nat>, t: seq<bit>,
                        a: seq<symbol>, ra: seq<bit>, b: seq<symbol>, rb: seq<bit>)
    requires Complete(lens) && Split(lens, t, a, ra) && Split(lens, t, b, rb)
    requires Pending(lens, ra) && Pending(lens, rb)
    ensures a == b && ra == rb
  {
    ReadingIsPrefix(lens, t, a, ra, b, rb);
    ReadingIsPrefix(lens, t, b, rb, a, ra);
    assert a == b;
    assert b[|a|..] == [];
  }

  // ---------------------------------------------------------------- what decoding means

  datatype Failure = NoCodeMatches | EosInLiteral | PaddingTooLong | PaddingNotOnes

  /** The declarative meaning of each outcome; NoCodeMatches is never one. */
  ghost predicate Reads(lens: seq<nat>, t: seq<bit>, r: Result<seq<byte>, Failure>)
    requires |lens| == SYMBOLS
  {
    match r
    case Ok(s) => exists k :: 0 <= k < 8 && Split(lens, t, s, Ones(k))
    case Err(EosInLiteral) =>
      exists s: seq<byte>, rest: seq<bit> :: Split(lens, t, s, CodeWord(lens, EOS) + rest)
    case Err(PaddingTooLong) =>
      exists s: seq<byte>, rest: seq<bit> :: Split(lens, t, s, rest) && Pending(lens, rest) && |rest| >= 8
    case Err(PaddingNotOnes) =>
      exists s: seq<byte>, rest: seq<bit> ::
        Split(lens, t, s, rest) && Pending(lens, rest) && |rest| < 8 && rest != Ones(|rest|)
    case Err(NoCodeMatches) => false
  }

  /** Fewer than thirty ones are an unfinished EOS. */
  lemma OnesPending(lens: seq<nat>, k: nat)
    requires Complete(lens) && k < Longest(lens)
    ensures Pending(lens, Ones(k))
  {
    EosIsAllOnes(lens);
    CodeWordValue(lens, EOS);
    PrefixesPending(lens, CodeWord(lens, EOS), k);
    assert Ones(Longest(lens))[..k] == Ones(k);
  }

  /** A reading that finishes excludes EOS: two readings give one outcome. */
  lemma FinishedExcludesEos(lens: seq<nat>, t: seq<bit>,
                            a: seq<byte>, rest: seq<bit>, b: seq<byte>, rb: seq<bit>)
    requires Complete(lens) && Split(lens, t, b, rb) && Pending(lens, rb)
    ensures !Split(lens, t, a, CodeWord(lens, EOS) + rest)
  {
    if Split(lens, t, a, CodeWord(lens, EOS) + rest) {
      var a': seq<symbol> := a + [EOS];
      assert a'[|a|] == EOS;
      EncodeBitsSnoc(lens, a, EOS);
      assert EncodeBits(lens, a') + rest == EncodeBits(lens, a) + (CodeWord(lens, EOS) + rest);
      ReadingIsPrefix(lens, t, a', rest, b, rb);
      PrefixOfBytes(a', b);
    }
  }

  lemma PrefixOfBytes(a: seq<symbol>, b: seq<byte>)
    ensures a <= b ==> forall i :: 0 <= i < |a| ==> a[i] < 256
  {
    if a <= b {
      forall i | 0 <= i < |a| ensures a[i] < 256 {
        assert a[i] == b[i];
      }
    }
  }

  /** A finished reading: the outcome together with its symbols and unfinished rest. */
  lemma FinishedReading(lens: seq<nat>, t: seq<bit>, r: Result<seq<byte>, Failure>)
    returns (s: seq<byte>, rest: seq<bit>)
    requires Complete(lens) && Reads(lens, t, r) && r != Err(EosInLiteral)
    ensures Split(lens, t, s, rest) && Pending(lens, rest)
    ensures r == (if |rest| >= 8 then Err(PaddingTooLong)
                  else if rest != Ones(|rest|) then Err(PaddingNotOnes) else Ok(s))
  {
    match r
    case Ok(v) =>
      var k :| 0 <= k < 8 && Split(lens, t, v, Ones(k));
      OnesPending(lens, k);
      s, rest := v, Ones(k);
    case Err(PaddingTooLong) =>
      s, rest :| Split(lens, t, s, rest) && Pending(lens, rest) && |rest| >= 8;
    case Err(PaddingNotOnes) =>
      s, rest :| Split(lens, t, s, rest) && Pending(lens, rest) && |rest| < 8 && rest != Ones(|rest|);
  }

  /** Every bit string has at most one outcome. */
  lemma ReadsUnique(lens: seq<nat>, t: seq<bit>, r: Result<seq<byte>, Failure>, q: Result<seq<byte>, Failure>)
    requires Complete(lens) && Reads(lens, t, r) && Reads(lens, t, q)
    ensures r == q
  {
    if r == Err(EosInLiteral) || q == Err(EosInLiteral) {
      var other := if r == Err(EosInLiteral) then q else r;
      if other != Err(EosInLiteral) {
        var a: seq<byte>, ra: seq<bit> :| Split(lens, t, a, CodeWord(lens, EOS) + ra);
        var b, rb := FinishedReading(lens, t, other);
        FinishedExcludesEos(lens, t, a, ra, b, rb);
      }
    } else {
      var a, ra := FinishedReading(lens, t, r);
      var b, rb := FinishedReading(lens, t, q);
      ReadingIsUnique(lens, t, a, ra, b, rb);
    }
  }

  /** The encoding's bits are the codes and the least padding that fills the last byte. */
  lemma EncodeUnpacked(lens: seq<nat>, s: seq<byte>)
    requires |lens| == SYMBOLS
    ensures var t := EncodeBits(lens, s);
      Unpack(Encode(lens, s)) == t + Ones(Padding(|t|))
  {
    var t := EncodeBits(lens, s);
    UnpackPack(t + Ones(Padding(|t|)));
  }

  lemma PaddingUnique(n: nat, k: nat, bytes: nat)
    requires n + k == 8 * bytes && k < 8
    ensures k == Padding(n)
  {
  }

  /** The encoding of `s` reads as `s`, and nothing else reads as `s`. */
  lemma EncodingIsTheOnlyReading(lens: seq<nat>, e: seq<byte>, s: seq<byte>)
    requires Complete(lens)
    ensures Reads(lens, Unpack(e), Ok(s)) <==> e == Encode(lens, s)
  {
    EncodeUnpacked(lens, s);
    if e == Encode(lens, s) {
      assert Split(lens, Unpack(e), s, Ones(Padding(|EncodeBits(lens, s)|)));
    }
    if Reads(lens, Unpack(e), Ok(s)) {
      var k :| 0 <= k < 8 && Split(lens, Unpack(e), s, Ones(k));
      PaddingUnique(|EncodeBits(lens, s)|, k, |e|);
      UnpackInjective(e, Encode(lens, s));
    }
  }

  /** A single byte with a code of five bits, or of any length up to eight, padded with ones. */
  lemma EncodeOne(lens: seq<nat>, b: byte, code: nat, bits: nat, octet: byte)
    requires |lens| == SYMBOLS && lens[b] == bits && CodeValue(lens, b) == code && 1 <= bits <= 8
    requires octet == code * Pow2(8 - bits) + Pow2(8 - bits) - 1
    ensures Encode(lens, [b]) == [octet]
  {
    hide EncodeBits, BitsOf, Encode, Unpack, CodeValue, Pow2, Ones;
    OneCode(lens, b);
    OnesBelow(code, bits, 8 - bits);
    EncodeUnpacked(lens, [b]);
    OneOctet(octet);
    UnpackInjective(Encode(lens, [b]), [octet]);
  }

  lemma OneOctet(octet: byte)
    ensures Unpack([octet]) == BitsOf(octet, 8)
  {
    hide BitsOf;
    UnpackSnoc([], octet);
    UnpackNothing();
    assert [] + [octet] == [octet] && [] + BitsOf(octet, 8) == BitsOf(octet, 8);
  }

  lemma OneCode(lens: seq<nat>, b: byte)
    requires |lens| == SYMBOLS
    ensures EncodeBits(lens, [b]) == BitsOf(CodeValue(lens, b), lens[b])
  {
    hide CodeValue, BitsOf;
    var s: seq<symbol> := [b];
    assert s[1..] == [] && EncodeBits(lens, s[1..]) == [];
    assert CodeWord(lens, b) + [] == CodeWord(lens, b);
  }

  lemma {:induction false} OnesBelow(code: nat, bits: nat, n: nat)
    ensures BitsOf(code * Pow2(n) + Pow2(n) - 1, bits + n) == BitsOf(code, bits) + Ones(n)
  {
    hide BitsOf, Pow2;
    Unfolds(code, n);
    if n == 0 {
      assert BitsOf(code, bits) + Ones(0) == BitsOf(code, bits);
    } else {
      OnesBelow(code, bits, n - 1);
      var half := code * Pow2(n - 1) + Pow2(n - 1) - 1;
      Doubled(code, Pow2(n - 1));
      ShiftedBits(half, bits + n - 1, 1);
      assert BitsOf(code, bits) + Ones(n) == (BitsOf(code, bits) + Ones(n - 1)) + [1];
    }
  }

  lemma Doubled(code: nat, p: nat)
    ensures code * (2 * p) + 2 * p - 1 == 2 * (code * p + p - 1) + 1
  {
  }

  ghost predicate AtLeast(lens: seq<nat>, least: nat) {
    forall x :: 0 <= x < |lens| ==> least <= lens[x]
  }

  /** Codes of at least `least` bits spell that many bits per symbol. */
  lemma {:induction false} EncodedLength(lens: seq<nat>, s: seq<symbol>, least: nat)
    requires |lens| == SYMBOLS && AtLeast(lens, least)
    ensures |EncodeBits(lens, s)| >= least * |s|
  {
    if s != [] {
      EncodedLength(lens, s[1..], least);
      assert least * |s| == least * (|s| - 1) + least;
    }
  }

  // ---------------------------------------------------------------- the derived tables

  /** The decode tables; `symbols` lists all symbols by length and then by value. */
  datatype Table = Table(count: seq<nat>, firstCode: seq<nat>, firstIndex: seq<nat>, symbols: seq<nat>)

  /** Where a symbol belongs in the listing. */
  function Slot(lens: seq<nat>, s: nat): nat
    requires s < |lens|
  {
    CountBelow(lens, |lens|, lens[s]) + Rank(lens, s)
  }

  ghost predicate TableFor(lens: seq<nat>, t: Table) {
    && |lens| == SYMBOLS && |t.count| == |t.firstCode| == |t.firstIndex| == Longest(lens) + 1
    && |t.symbols| == |lens|
    && (forall b :: 0 <= b <= Longest(lens) ==> t.count[b] == Count(lens, |lens|, b))
    && (forall b :: 0 <= b <= Longest(lens) ==> t.firstCode[b] == FirstCode(lens, b))
    && (forall b :: 0 <= b <= Longest(lens) ==> t.firstIndex[b] == CountBelow(lens, |lens|, b))
    && (forall s :: 0 <= s < |lens| ==> Slot(lens, s) < |lens| && t.symbols[Slot(lens, s)] == s)
  }

  lemma {:induction false} CountBelowStep(lens: seq<nat>, n: nat, b: nat)
    requires n <= |lens|
    ensures CountBelow(lens, n, b + 1) == CountBelow(lens, n, b) + Count(lens, n, b)
  {
    if n != 0 {
      CountBelowStep(lens, n - 1, b);
    }
  }

  lemma {:induction false} CountBelowMonotone(lens: seq<nat>, n: nat, a: nat, b: nat)
    requires n <= |lens| && a <= b
    ensures CountBelow(lens, n, a) <= CountBelow(lens, n, b)
  {
    if n != 0 {
      CountBelowMonotone(lens, n - 1, a, b);
    }
  }

  lemma {:induction false} NoneOfLengthZero(lens: seq<nat>, n: nat)
    requires n <= |lens| && forall s :: 0 <= s < |lens| ==> 1 <= lens[s]
    ensures Count(lens, n, 0) == 0 && CountBelow(lens, n, 0) == 0 && CountBelow(lens, n, 1) == 0
  {
    if n != 0 {
      NoneOfLengthZero(lens, n - 1);
    }
  }

  lemma SlotInRange(lens: seq<nat>, s: nat)
    requires s < |lens|
    ensures Slot(lens, s) < CountBelow(lens, |lens|, lens[s] + 1) <= |lens|
  {
    RankBelowCount(lens, s);
    CountBelowStep(lens, |lens|, lens[s]);
  }

  lemma SlotInjective(lens: seq<nat>, x: nat, y: nat)
    requires x < |lens| && y < |lens| && x != y
    ensures Slot(lens, x) != Slot(lens, y)
  {
    SlotInRange(lens, x);
    SlotInRange(lens, y);
    if lens[x] == lens[y] {
      if Rank(lens, x) == Rank(lens, y) {
        RankInjective(lens, x, y);
      }
    } else if lens[x] < lens[y] {
      CountBelowMonotone(lens, |lens|, lens[x] + 1, lens[y]);
    } else {
      CountBelowMonotone(lens, |lens|, lens[y] + 1, lens[x]);
    }
  }

  /** Derives the tables from the code lengths alone. */
  method BuildTable(lens: seq<nat>) returns (t: Table)
    requires WithinLongest(lens)
    ensures TableFor(lens, t)
  {
    var count := CountLengths(lens);
    NoneOfLengthZero(lens, |lens|);

    var firstCode := new nat[Longest(lens) + 1](_ => 0);
    var firstIndex := new nat[Longest(lens) + 1](_ => 0);
    var code, index := 0, 0;
    for bits := 1 to Longest(lens) + 1
      invariant code == FirstCode(lens, bits - 1)
      invariant index == CountBelow(lens, |lens|, bits)
      invariant forall b :: 0 <= b < bits ==> firstCode[b] == FirstCode(lens, b)
      invariant forall b :: 0 <= b < bits ==> firstIndex[b] == CountBelow(lens, |lens|, b)
    {
      code := (code + count[bits - 1]) * 2;
      firstCode[bits] := code;
      firstIndex[bits] := index;
      CountBelowStep(lens, |lens|, bits);
      index := index + count[bits];
    }

    var symbols := PlaceSymbols(lens, firstIndex[..]);
    t := Table(count, firstCode[..], firstIndex[..], symbols);
  }

  method CountLengths(lens: seq<nat>) returns (count: seq<nat>)
    requires WithinLongest(lens)
    ensures |count| == Longest(lens) + 1
    ensures forall b :: 0 <= b <= Longest(lens) ==> count[b] == Count(lens, |lens|, b)
  {
    var a := new nat[Longest(lens) + 1](_ => 0);
    for s := 0 to |lens|
      invariant forall b :: 0 <= b <= Longest(lens) ==> a[b] == Count(lens, s, b)
    {
      a[lens[s]] := a[lens[s]] + 1;
    }
    count := a[..];
  }

  /** Walks the symbols in order, filling each length's run left to right. */
  method PlaceSymbols(lens: seq<nat>, firstIndex: seq<nat>) returns (symbols: seq<nat>)
    requires WithinLongest(lens)
    requires |firstIndex| == Longest(lens) + 1
    requires forall b :: 0 <= b <= Longest(lens) ==> firstIndex[b] == CountBelow(lens, |lens|, b)
    ensures |symbols| == |lens|
    ensures forall s :: 0 <= s < |lens| ==> Slot(lens, s) < |lens| && symbols[Slot(lens, s)] == s
  {
    var a := new nat[|lens|](_ => 0);
    var next := new nat[Longest(lens) + 1](b requires 0 <= b <= Longest(lens) => firstIndex[b]);
    for s := 0 to |lens|
      invariant forall b :: 0 <= b <= Longest(lens) ==> next[b] == CountBelow(lens, |lens|, b) + Count(lens, s, b)
      invariant forall x :: 0 <= x < s ==> Slot(lens, x) < |lens| && a[Slot(lens, x)] == x
    {
      SlotInRange(lens, s);
      forall x | 0 <= x < s ensures Slot(lens, x) != Slot(lens, s) {
        SlotInjective(lens, x, s);
      }
      var bits := lens[s];
      a[next[bits]] := s;
      next[bits] := next[bits] + 1;
    }
    symbols := a[..];
  }

  // ---------------------------------------------------------------- the decoder

  /** The decoder's state after `seen`: whole symbols, then an unfinished code. */
  ghost predicate Reading(lens: seq<nat>, seen: seq<bit>, out: seq<byte>, code: nat, bits: nat)
    requires |lens| == SYMBOLS
  {
    && bits < Longest(lens) && code < Pow2(bits)
    && Pending(lens, BitsOf(code, bits))
    && Split(lens, seen, out, BitsOf(code, bits))
  }

  lemma StartsReading(lens: seq<nat>, seen: seq<bit>, out: seq<byte>)
    requires Complete(lens) && seen == EncodeBits(lens, out)
    ensures Reading(lens, seen, out, 0, 0)
  {
    NoneOfLengthZero(lens, |lens|);
    assert seen == EncodeBits(lens, out) + [];
  }

  /** A value inside the run of its length is the code of the symbol listed there. */
  lemma RunHoldsCode(lens: seq<nat>, t: Table, v: nat, n: nat)
    requires TableFor(lens, t) && n <= Longest(lens)
    requires t.firstCode[n] <= v < t.firstCode[n] + t.count[n]
    ensures var at := t.firstIndex[n] + (v - t.firstCode[n]);
      at < SYMBOLS && t.symbols[at] < SYMBOLS && CodeWord(lens, t.symbols[at]) == BitsOf(v, n)
  {
    var s := SymbolOfRank(lens, |lens|, n, v - t.firstCode[n]);
    assert Slot(lens, s) == t.firstIndex[n] + (v - t.firstCode[n]);
    assert CodeValue(lens, s) == v;
  }

  /** An unfinished code and one more bit: never below its length's run, and past it only when unfinished. */
  lemma NextValue(lens: seq<nat>, code: nat, bits: nat, b: bit)
    requires Complete(lens) && bits < Longest(lens)
    requires code < Pow2(bits) && Pending(lens, BitsOf(code, bits))
    ensures FirstCode(lens, bits + 1) <= 2 * code + b < Pow2(bits + 1)
    ensures 2 * code + b >= Bound(lens, bits + 1) ==>
      bits + 1 < Longest(lens) && Pending(lens, BitsOf(2 * code + b, bits + 1))
  {
    ValueOfBits(code, bits);
    ValueOfBits(2 * code + b, bits + 1);
    if 2 * code + b >= Bound(lens, bits + 1) {
      PendingIsShort(lens, BitsOf(2 * code + b, bits + 1));
    }
  }

  lemma ShiftedBits(code: nat, bits: nat, b: bit)
    ensures BitsOf(2 * code + b, bits + 1) == BitsOf(code, bits) + [b]
  {
  }

  /** One more bit either completes the symbol the tables name or leaves the code unfinished. */
  lemma Advance(lens: seq<nat>, t: Table, seen: seq<bit>, out: seq<byte>, code: nat, bits: nat, b: bit)
    requires Complete(lens) && TableFor(lens, t) && Reading(lens, seen, out, code, bits)
    ensures t.firstCode[bits + 1] <= 2 * code + b
    ensures var offset := 2 * code + b - t.firstCode[bits + 1];
      if offset < t.count[bits + 1] then
        var at := t.firstIndex[bits + 1] + offset;
        at < SYMBOLS && t.symbols[at] < SYMBOLS &&
        if t.symbols[at] == EOS then seen + [b] == EncodeBits(lens, out) + CodeWord(lens, EOS)
        else Reading(lens, seen + [b], out + [t.symbols[at]], 0, 0)
      else Reading(lens, seen + [b], out, 2 * code + b, bits + 1)
  {
    hide EncodeBits, CodeWord, FirstCode, Count, CountBelow, Pending, Pow2, BitsOf, Slot;
    var v, n := 2 * code + b, bits + 1;
    NextValue(lens, code, bits, b);
    ShiftedBits(code, bits, b);
    assert seen + [b] == EncodeBits(lens, out) + BitsOf(v, n);
    var offset := v - t.firstCode[n];
    if offset < t.count[n] {
      RunHoldsCode(lens, t, v, n);
      var s := t.symbols[t.firstIndex[n] + offset];
      if s != EOS {
        EncodeBitsSnoc(lens, out, s);
        StartsReading(lens, seen + [b], out + [s]);
      }
    }
  }

  /** Symbols and then EOS: whatever follows, the input is refused for it. */
  lemma EosRefused(lens: seq<nat>, t: seq<bit>, front: seq<bit>, rest: seq<bit>, out: seq<byte>)
    requires Complete(lens) && t == front + rest
    requires front == EncodeBits(lens, out) + CodeWord(lens, EOS)
    ensures Reads(lens, t, Err(EosInLiteral))
  {
    var eos := CodeWord(lens, EOS);
    assert t == EncodeBits(lens, out) + (eos + rest);
    assert Split(lens, t, out, eos + rest);
  }

  lemma OneMoreBit(done: seq<bit>, more: seq<bit>, j: nat)
    requires j < |more|
    ensures done + more[..j] + [more[j]] == done + more[..j + 1]
  {
  }

  /** At the end of the input: the three ways an unfinished code is judged. */
  lemma EndOfInput(lens: seq<nat>, t: seq<bit>, out: seq<byte>, code: nat, bits: nat)
    requires Complete(lens) && Reading(lens, t, out, code, bits)
    ensures Reads(lens, t, if bits >= 8 then Err(PaddingTooLong)
                           else if code != Pow2(bits) - 1 then Err(PaddingNotOnes) else Ok(out))
  {
    ValueOfBits(code, bits);
    ValueOfOnes(bits);
    BitsOfValue(Ones(bits));
  }

  /** The body of the inner loop: shift one bit in and look the code up. */
  method DecodeBit(lens: seq<nat>, t: Table, b: bit, out0: seq<byte>, code0: nat, bits0: nat, ghost seen: seq<bit>)
    returns (r: Option<Failure>, out: seq<byte>, code: nat, bits: nat)
    requires Complete(lens) && TableFor(lens, t) && Reading(lens, seen, out0, code0, bits0)
    ensures r.None? ==> Reading(lens, seen + [b], out, code, bits)
    ensures r.Some? ==> r.value == EosInLiteral && seen + [b] == EncodeBits(lens, out) + CodeWord(lens, EOS)
  {
    Advance(lens, t, seen, out0, code0, bits0, b);
    r, out, code, bits := None, out0, 2 * code0 + b, bits0 + 1;
    if bits > Longest(lens) {
      r := Some(NoCodeMatches);
    } else if t.firstCode[bits] <= code && code - t.firstCode[bits] < t.count[bits] {
      var symbol := t.symbols[t.firstIndex[bits] + (code - t.firstCode[bits])];
      if symbol == EOS {
        r := Some(EosInLiteral);
      } else {
        var octet: byte := symbol;
        out, code, bits := out + [octet], 0, 0;
      }
    }
  }

  ghost predicate ByteBits(octet: byte, t: seq<bit>) {
    |t| == 8 && forall j :: 0 <= j < 8 ==> t[j] == octet / Pow2(7 - j) % 2
  }

  lemma BitsOfByte(octet: byte)
    ensures ByteBits(octet, BitsOf(octet, 8))
  {
    forall j | 0 <= j < 8
      ensures BitsOf(octet, 8)[j] == octet / Pow2(7 - j) % 2
    {
      ShiftReadsBit(octet, 8, j);
    }
  }

  /** The inner loop: one byte, most significant bit first. */
  method DecodeByte(lens: seq<nat>, t: Table, octet: byte, out0: seq<byte>, code0: nat, bits0: nat,
                    ghost done: seq<bit>, ghost byteBits: seq<bit>)
    returns (r: Option<Failure>, out: seq<byte>, code: nat, bits: nat, ghost used: nat)
    requires Complete(lens) && TableFor(lens, t) && Reading(lens, done, out0, code0, bits0)
    requires ByteBits(octet, byteBits)
    ensures r.None? ==> Reading(lens, done + byteBits, out, code, bits)
    ensures r.Some? ==> r.value == EosInLiteral && used <= 8
    ensures r.Some? ==> done + byteBits[..used] == EncodeBits(lens, out) + CodeWord(lens, EOS)
  {
    r, out, code, bits, used := None, out0, code0, bits0, 0;
    assert done + byteBits[..0] == done;
    for j := 0 to 8
      invariant r.None?
      invariant Reading(lens, done + byteBits[..j], out, code, bits)
    {
      var b: bit := octet / Pow2(7 - j) % 2;
      OneMoreBit(done, byteBits, j);
      r, out, code, bits := DecodeBit(lens, t, b, out, code, bits, done + byteBits[..j]);
      if r.Some? {
        used := j + 1;
        return;
      }
    }
    assert byteBits[..8] == byteBits;
  }

  /**
   Decodes a Huffman-encoded string literal, bit by bit.

   The two-way clause is the bijection: `s` is the answer for exactly one input, its encoding. `out` is the
   vector as it stands at the end, however the run ends; it only ever grows.
   */
  method Decode(lens: seq<nat>, t: Table, encoded: seq<byte>)
    returns (r: Result<seq<byte>, Failure>, out: seq<byte>)
    requires Complete(lens) && TableFor(lens, t)
    ensures Reads(lens, Unpack(encoded), r)
    ensures r != Err(NoCodeMatches)
    ensures forall s :: r == Ok(s) <==> encoded == Encode(lens, s)
    ensures r.Ok? ==> out == r.value
    ensures EncodeBits(lens, out) <= Unpack(encoded)
    ensures AtLeast(lens, 5) ==> 5 * |out| <= 8 * |encoded|
  {
    assert |lens| == SYMBOLS;
    hide Reads, Complete, TableFor, Encode, EncodeBits, CodeWord, Reading, BitsOf, AtLeast, Unpack;
    out := [];
    var code: nat, bits: nat := 0, 0;
    BeforeAnyByte(lens);
    for i := 0 to |encoded|
      invariant Reading(lens, Unpack(encoded[..i]), out, code, bits)
    {
      assert encoded[..i + 1] == encoded[..i] + [encoded[i]];
      UnpackSnoc(encoded[..i], encoded[i]);
      ghost var done, byteBits := Unpack(encoded[..i]), BitsOf(encoded[i], 8);
      BitsOfByte(encoded[i]);
      ghost var used;
      var failure;
      failure, out, code, bits, used := DecodeByte(lens, t, encoded[i], out, code, bits, done, byteBits);
      if failure.Some? {
        ghost var rest := UnpackPrefix(encoded, i, used);
        AtEos(lens, encoded, done + byteBits[..used], rest, out);
        r := Err(failure.value);
        return;
      }
    }

    assert encoded[..|encoded|] == encoded;
    AtEnd(lens, encoded, out, code, bits);
    if bits >= 8 {
      r := Err(PaddingTooLong);
    } else if code != Pow2(bits) - 1 {
      r := Err(PaddingNotOnes);
    } else {
      r := Ok(out);
    }
  }

  lemma BeforeAnyByte(lens: seq<nat>)
    requires Complete(lens)
    ensures Reading(lens, Unpack([]), [], 0, 0)
  {
    StartsReading(lens, [], []);
  }

  lemma AtEos(lens: seq<nat>, encoded: seq<byte>, front: seq<bit>, rest: seq<bit>, out: seq<byte>)
    requires Complete(lens) && Unpack(encoded) == front + rest && front == EncodeBits(lens, out) + CodeWord(lens, EOS)
    ensures Reads(lens, Unpack(encoded), Err(EosInLiteral)) && OnlyFor(lens, encoded, Err(EosInLiteral))
    ensures Fits(lens, encoded, out)
  {
    assert |lens| == SYMBOLS && EOS < |lens|;
    hide *;
    EosRefused(lens, Unpack(encoded), front, rest, out);
    OnlyTheEncoding(lens, encoded, Err(EosInLiteral));
    FrontFits(lens, encoded, out, CodeWord(lens, EOS), rest);
  }

  lemma AtEnd(lens: seq<nat>, encoded: seq<byte>, out: seq<byte>, code: nat, bits: nat)
    requires Complete(lens) && Reading(lens, Unpack(encoded), out, code, bits)
    ensures var r := if bits >= 8 then Err(PaddingTooLong) else if code != Pow2(bits) - 1 then Err(PaddingNotOnes) else Ok(out);
      Reads(lens, Unpack(encoded), r) && OnlyFor(lens, encoded, r)
    ensures Fits(lens, encoded, out)
  {
    var left := BitsOf(code, bits);
    assert Unpack(encoded) == EncodeBits(lens, out) + left;
    hide *;
    EndOfInput(lens, Unpack(encoded), out, code, bits);
    OnlyTheEncoding(lens, encoded, if bits >= 8 then Err(PaddingTooLong)
                                   else if code != Pow2(bits) - 1 then Err(PaddingNotOnes) else Ok(out));
    assert left + [] == left;
    FrontFits(lens, encoded, out, left, []);
  }

  /** The output spells a front of the input, and takes five bits of it or more per byte where no code is shorter. */
  ghost predicate Fits(lens: seq<nat>, encoded: seq<byte>, out: seq<byte>)
    requires |lens| == SYMBOLS
  {
    EncodeBits(lens, out) <= Unpack(encoded) && (AtLeast(lens, 5) ==> 5 * |out| <= 8 * |encoded|)
  }

  lemma FrontFits(lens: seq<nat>, encoded: seq<byte>, out: seq<byte>, more: seq<bit>, rest: seq<bit>)
    requires |lens| == SYMBOLS && Unpack(encoded) == EncodeBits(lens, out) + more + rest
    ensures Fits(lens, encoded, out)
  {
    hide EncodeBits;
    assert Unpack(encoded) == EncodeBits(lens, out) + (more + rest);
    OutputFits(lens, Unpack(encoded), out, more + rest);
  }

  /** With no code under five bits, decoding spends at least five bits per byte of output. */
  lemma OutputFits(lens: seq<nat>, t: seq<bit>, out: seq<symbol>, rest: seq<bit>)
    requires |lens| == SYMBOLS && Split(lens, t, out, rest)
    ensures EncodeBits(lens, out) <= t
    ensures AtLeast(lens, 5) ==> 5 * |out| <= |t|
  {
    if AtLeast(lens, 5) {
      EncodedLength(lens, out, 5);
    }
  }

  /** So the vector the original reserves, 8n/5 + 1 bytes, is never outgrown. */
  lemma ReservationSuffices(n: nat, encoded: nat)
    requires 5 * n <= 8 * encoded
    ensures n < 8 * encoded / 5 + 1
  {
  }

  lemma {:induction false} UnpackPrefix(s: seq<byte>, i: nat, n: nat) returns (rest: seq<bit>)
    requires i < |s| && n <= 8
    ensures Unpack(s) == Unpack(s[..i]) + BitsOf(s[i], 8)[..n] + rest
  {
    hide BitsOf;
    var last := BitsOf(s[|s| - 1], 8);
    if i == |s| - 1 {
      rest := last[n..];
    } else {
      var init := s[..|s| - 1];
      rest := UnpackPrefix(init, i, n);
      rest := rest + last;
      assert init[..i] == s[..i];
    }
  }

  /** The outcome is a value for its one encoding, and a failure for everything else. */
  ghost predicate OnlyFor(lens: seq<nat>, e: seq<byte>, r: Result<seq<byte>, Failure>)
    requires |lens| == SYMBOLS
  {
    forall s :: r == Ok(s) <==> e == Encode(lens, s)
  }

  lemma OnlyTheEncoding(lens: seq<nat>, e: seq<byte>, r: Result<seq<byte>, Failure>)
    requires Complete(lens) && Reads(lens, Unpack(e), r)
    ensures OnlyFor(lens, e, r)
  {
    hide Encode, Unpack;
    forall s: seq<byte>
      ensures r == Ok(s) <==> e == Encode(lens, s)
    {
      EncodingIsTheOnlyReading(lens, e, s);
      if e == Encode(lens, s) {
        ReadsUnique(lens, Unpack(e), r, Ok(s));
      }
    }
  }
}
