/**
 Appendix B of RFC 7541: the table src/h3/huffman.rs holds. The lengths form a complete code, and
 the canonical code they determine gives every symbol exactly the code the appendix prints.
 */
module HuffmanTable {
  import opened Bytes
  import opened Huffman

  type codelen = n: nat | 5 <= n <= 30 witness 5

  datatype Entry = E(code: nat, bits: codelen)

  /** Sixteen consecutive symbols. */
  datatype Row = Row(
    e0: Entry, e1: Entry, e2: Entry, e3: Entry, e4: Entry, e5: Entry, e6: Entry, e7: Entry,
    e8: Entry, e9: Entry, e10: Entry, e11: Entry, e12: Entry, e13: Entry, e14: Entry, e15: Entry)
  {
    function At(j: nat): Entry {
      match j
      case 0 => e0 case 1 => e1 case 2 => e2 case 3 => e3
      case 4 => e4 case 5 => e5 case 6 => e6 case 7 => e7
      case 8 => e8 case 9 => e9 case 10 => e10 case 11 => e11
      case 12 => e12 case 13 => e13 case 14 => e14 case _ => e15
    }
  }

  function Row0(): Row {
    Row(E(0x1ff8, 13), E(0x7fffd8, 23), E(0xfffffe2, 28), E(0xfffffe3, 28),
        E(0xfffffe4, 28), E(0xfffffe5, 28), E(0xfffffe6, 28), E(0xfffffe7, 28),
        E(0xfffffe8, 28), E(0xffffea, 24), E(0x3ffffffc, 30), E(0xfffffe9, 28),
        E(0xfffffea, 28), E(0x3ffffffd, 30), E(0xfffffeb, 28), E(0xfffffec, 28))
  }

  function Row1(): Row {
    Row(E(0xfffffed, 28), E(0xfffffee, 28), E(0xfffffef, 28), E(0xffffff0, 28),
        E(0xffffff1, 28), E(0xffffff2, 28), E(0x3ffffffe, 30), E(0xffffff3, 28),
        E(0xffffff4, 28), E(0xffffff5, 28), E(0xffffff6, 28), E(0xffffff7, 28),
        E(0xffffff8, 28), E(0xffffff9, 28), E(0xffffffa, 28), E(0xffffffb, 28))
  }

  function Row2(): Row {
    Row(E(0x14, 6), E(0x3f8, 10), E(0x3f9, 10), E(0xffa, 12),
        E(0x1ff9, 13), E(0x15, 6), E(0xf8, 8), E(0x7fa, 11),
        E(0x3fa, 10), E(0x3fb, 10), E(0xf9, 8), E(0x7fb, 11),
        E(0xfa, 8), E(0x16, 6), E(0x17, 6), E(0x18, 6))
  }

  function Row3(): Row {
    Row(E(0x0, 5), E(0x1, 5), E(0x2, 5), E(0x19, 6),
        E(0x1a, 6), E(0x1b, 6), E(0x1c, 6), E(0x1d, 6),
        E(0x1e, 6), E(0x1f, 6), E(0x5c, 7), E(0xfb, 8),
        E(0x7ffc, 15), E(0x20, 6), E(0xffb, 12), E(0x3fc, 10))
  }

  function Row4(): Row {
    Row(E(0x1ffa, 13), E(0x21, 6), E(0x5d, 7), E(0x5e, 7),
        E(0x5f, 7), E(0x60, 7), E(0x61, 7), E(0x62, 7),
        E(0x63, 7), E(0x64, 7), E(0x65, 7), E(0x66, 7),
        E(0x67, 7), E(0x68, 7), E(0x69, 7), E(0x6a, 7))
  }

  function Row5(): Row {
    Row(E(0x6b, 7), E(0x6c, 7), E(0x6d, 7), E(0x6e, 7),
        E(0x6f, 7), E(0x70, 7), E(0x71, 7), E(0x72, 7),
        E(0xfc, 8), E(0x73, 7), E(0xfd, 8), E(0x1ffb, 13),
        E(0x7fff0, 19), E(0x1ffc, 13), E(0x3ffc, 14), E(0x22, 6))
  }

  function Row6(): Row {
    Row(E(0x7ffd, 15), E(0x3, 5), E(0x23, 6), E(0x4, 5),
        E(0x24, 6), E(0x5, 5), E(0x25, 6), E(0x26, 6),
        E(0x27, 6), E(0x6, 5), E(0x74, 7), E(0x75, 7),
        E(0x28, 6), E(0x29, 6), E(0x2a, 6), E(0x7, 5))
  }

  function Row7(): Row {
    Row(E(0x2b, 6), E(0x76, 7), E(0x2c, 6), E(0x8, 5),
        E(0x9, 5), E(0x2d, 6), E(0x77, 7), E(0x78, 7),
        E(0x79, 7), E(0x7a, 7), E(0x7b, 7), E(0x7ffe, 15),
        E(0x7fc, 11), E(0x3ffd, 14), E(0x1ffd, 13), E(0xffffffc, 28))
  }

  function Row8(): Row {
    Row(E(0xfffe6, 20), E(0x3fffd2, 22), E(0xfffe7, 20), E(0xfffe8, 20),
        E(0x3fffd3, 22), E(0x3fffd4, 22), E(0x3fffd5, 22), E(0x7fffd9, 23),
        E(0x3fffd6, 22), E(0x7fffda, 23), E(0x7fffdb, 23), E(0x7fffdc, 23),
        E(0x7fffdd, 23), E(0x7fffde, 23), E(0xffffeb, 24), E(0x7fffdf, 23))
  }

  function Row9(): Row {
    Row(E(0xffffec, 24), E(0xffffed, 24), E(0x3fffd7, 22), E(0x7fffe0, 23),
        E(0xffffee, 24), E(0x7fffe1, 23), E(0x7fffe2, 23), E(0x7fffe3, 23),
        E(0x7fffe4, 23), E(0x1fffdc, 21), E(0x3fffd8, 22), E(0x7fffe5, 23),
        E(0x3fffd9, 22), E(0x7fffe6, 23), E(0x7fffe7, 23), E(0xffffef, 24))
  }

  function Row10(): Row {
    Row(E(0x3fffda, 22), E(0x1fffdd, 21), E(0xfffe9, 20), E(0x3fffdb, 22),
        E(0x3fffdc, 22), E(0x7fffe8, 23), E(0x7fffe9, 23), E(0x1fffde, 21),
        E(0x7fffea, 23), E(0x3fffdd, 22), E(0x3fffde, 22), E(0xfffff0, 24),
        E(0x1fffdf, 21), E(0x3fffdf, 22), E(0x7fffeb, 23), E(0x7fffec, 23))
  }

  function Row11(): Row {
    Row(E(0x1fffe0, 21), E(0x1fffe1, 21), E(0x3fffe0, 22), E(0x1fffe2, 21),
        E(0x7fffed, 23), E(0x3fffe1, 22), E(0x7fffee, 23), E(0x7fffef, 23),
        E(0xfffea, 20), E(0x3fffe2, 22), E(0x3fffe3, 22), E(0x3fffe4, 22),
        E(0x7ffff0, 23), E(0x3fffe5, 22), E(0x3fffe6, 22), E(0x7ffff1, 23))
  }

  function Row12(): Row {
    Row(E(0x3ffffe0, 26), E(0x3ffffe1, 26), E(0xfffeb, 20), E(0x7fff1, 19),
        E(0x3fffe7, 22), E(0x7ffff2, 23), E(0x3fffe8, 22), E(0x1ffffec, 25),
        E(0x3ffffe2, 26), E(0x3ffffe3, 26), E(0x3ffffe4, 26), E(0x7ffffde, 27),
        E(0x7ffffdf, 27), E(0x3ffffe5, 26), E(0xfffff1, 24), E(0x1ffffed, 25))
  }

  function Row13(): Row {
    Row(E(0x7fff2, 19), E(0x1fffe3, 21), E(0x3ffffe6, 26), E(0x7ffffe0, 27),
        E(0x7ffffe1, 27), E(0x3ffffe7, 26), E(0x7ffffe2, 27), E(0xfffff2, 24),
        E(0x1fffe4, 21), E(0x1fffe5, 21), E(0x3ffffe8, 26), E(0x3ffffe9, 26),
        E(0xffffffd, 28), E(0x7ffffe3, 27), E(0x7ffffe4, 27), E(0x7ffffe5, 27))
  }

  function Row14(): Row {
    Row(E(0xfffec, 20), E(0xfffff3, 24), E(0xfffed, 20), E(0x1fffe6, 21),
        E(0x3fffe9, 22), E(0x1fffe7, 21), E(0x1fffe8, 21), E(0x7ffff3, 23),
        E(0x3fffea, 22), E(0x3fffeb, 22), E(0x1ffffee, 25), E(0x1ffffef, 25),
        E(0xfffff4, 24), E(0xfffff5, 24), E(0x3ffffea, 26), E(0x7ffff4, 23))
  }

  function Row15(): Row {
    Row(E(0x3ffffeb, 26), E(0x7ffffe6, 27), E(0x3ffffec, 26), E(0x3ffffed, 26),
        E(0x7ffffe7, 27), E(0x7ffffe8, 27), E(0x7ffffe9, 27), E(0x7ffffea, 27),
        E(0x7ffffeb, 27), E(0xffffffe, 28), E(0x7ffffec, 27), E(0x7ffffed, 27),
        E(0x7ffffee, 27), E(0x7ffffef, 27), E(0x7fffff0, 27), E(0x3ffffee, 26))
  }

  /** The code and length of a symbol; the last one is EOS. */
  function Codes(s: nat): Entry
    requires s < SYMBOLS
  {
    if s < 128 then
      if s < 64 then
        if s < 32 then (if s < 16 then Row0().At(s) else Row1().At(s - 16))
        else (if s < 48 then Row2().At(s - 32) else Row3().At(s - 48))
      else
        if s < 96 then (if s < 80 then Row4().At(s - 64) else Row5().At(s - 80))
        else (if s < 112 then Row6().At(s - 96) else Row7().At(s - 112))
    else if s < 256 then
      if s < 192 then
        if s < 160 then (if s < 144 then Row8().At(s - 128) else Row9().At(s - 144))
        else (if s < 176 then Row10().At(s - 160) else Row11().At(s - 176))
      else
        if s < 224 then (if s < 208 then Row12().At(s - 192) else Row13().At(s - 208))
        else (if s < 240 then Row14().At(s - 224) else Row15().At(s - 240))
    else E(0x3fffffff, 30)
  }

  /** The lengths alone: all that the decode tables are derived from. */
  function Lengths(): (lens: seq<nat>)
    ensures |lens| == SYMBOLS
  {
    seq(SYMBOLS, s requires 0 <= s < SYMBOLS => Codes(s).bits)
  }

  function CodeColumn(): (code: seq<nat>)
    ensures |code| == SYMBOLS
  {
    seq(SYMBOLS, s requires 0 <= s < SYMBOLS => Codes(s).code)
  }

  // ------------------------------------------------------------ the symbols of each length

  datatype List = Nil | Cons(s: nat, rest: List)

  /** The symbols of one length, increasing, with consecutive codes from `next` to `end`. */
  predicate Listed(l: List, bits: codelen, next: nat, prev: int, end: nat)
    decreases l
  {
    match l
    case Nil => next == end
    case Cons(s, rest) =>
      prev < s < SYMBOLS && Codes(s) == E(next, bits) && Listed(rest, bits, next + 1, s, end)
  }

  ghost predicate Printed(bits: codelen, first: nat, end: nat) {
    exists l :: Listed(l, bits, first, -1, end)
  }

  /** The same of any table, given by its two columns. */
  ghost predicate Lists(lens: seq<nat>, code: seq<nat>, l: List, bits: nat, next: nat, prev: int, end: nat)
    requires |lens| == |code| == SYMBOLS
    decreases l
  {
    match l
    case Nil => next == end
    case Cons(s, rest) =>
      && prev < s < SYMBOLS && lens[s] == bits && code[s] == next
      && Lists(lens, code, rest, bits, next + 1, s, end)
  }

  ghost predicate HasListing(lens: seq<nat>, code: seq<nat>, bits: nat, first: nat, end: nat)
    requires |lens| == |code| == SYMBOLS
  {
    exists l :: Lists(lens, code, l, bits, first, -1, end)
  }

  lemma {:induction false} ListedLists(l: List, bits: codelen, next: nat, prev: int, end: nat)
    requires Listed(l, bits, next, prev, end)
    ensures Lists(Lengths(), CodeColumn(), l, bits, next, prev, end)
  {
    match l
    case Nil =>
    case Cons(s, rest) => ListedLists(rest, bits, next + 1, s, end);
  }

  function Of5(): List { Cons(48, Cons(49, Cons(50, Cons(97, Cons(99, Cons(101, Of5b())))))) }
  lemma Listed5() ensures Printed(5, 0x0, 0xa) { Listed5b(); assert Listed(Of5(), 5, 0x0, -1, 0xa); }
  function Of5b(): List { Cons(105, Cons(111, Cons(115, Cons(116, Nil)))) }
  lemma Listed5b() ensures Listed(Of5b(), 5, 0x6, 101, 0xa) { }

  function Of6(): List { Cons(32, Cons(37, Cons(45, Cons(46, Cons(47, Cons(51, Of6b())))))) }
  lemma Listed6() ensures Printed(6, 0x14, 0x2e) { Listed6b(); assert Listed(Of6(), 6, 0x14, -1, 0x2e); }
  function Of6b(): List { Cons(52, Cons(53, Cons(54, Cons(55, Cons(56, Cons(57, Of6c())))))) }
  lemma Listed6b() ensures Listed(Of6b(), 6, 0x1a, 51, 0x2e) { Listed6c(); }
  function Of6c(): List { Cons(61, Cons(65, Cons(95, Cons(98, Cons(100, Cons(102, Of6d())))))) }
  lemma Listed6c() ensures Listed(Of6c(), 6, 0x20, 57, 0x2e) { Listed6d(); }
  function Of6d(): List { Cons(103, Cons(104, Cons(108, Cons(109, Cons(110, Cons(112, Of6e())))))) }
  lemma Listed6d() ensures Listed(Of6d(), 6, 0x26, 102, 0x2e) { Listed6e(); }
  function Of6e(): List { Cons(114, Cons(117, Nil)) }
  lemma Listed6e() ensures Listed(Of6e(), 6, 0x2c, 112, 0x2e) { }

  function Of7(): List { Cons(58, Cons(66, Cons(67, Cons(68, Cons(69, Cons(70, Of7b())))))) }
  lemma Listed7() ensures Printed(7, 0x5c, 0x7c) { Listed7b(); assert Listed(Of7(), 7, 0x5c, -1, 0x7c); }
  function Of7b(): List { Cons(71, Cons(72, Cons(73, Cons(74, Cons(75, Cons(76, Of7c())))))) }
  lemma Listed7b() ensures Listed(Of7b(), 7, 0x62, 70, 0x7c) { Listed7c(); }
  function Of7c(): List { Cons(77, Cons(78, Cons(79, Cons(80, Cons(81, Cons(82, Of7d())))))) }
  lemma Listed7c() ensures Listed(Of7c(), 7, 0x68, 76, 0x7c) { Listed7d(); }
  function Of7d(): List { Cons(83, Cons(84, Cons(85, Cons(86, Cons(87, Cons(89, Of7e())))))) }
  lemma Listed7d() ensures Listed(Of7d(), 7, 0x6e, 82, 0x7c) { Listed7e(); }
  function Of7e(): List { Cons(106, Cons(107, Cons(113, Cons(118, Cons(119, Cons(120, Of7f())))))) }
  lemma Listed7e() ensures Listed(Of7e(), 7, 0x74, 89, 0x7c) { Listed7f(); }
  function Of7f(): List { Cons(121, Cons(122, Nil)) }
  lemma Listed7f() ensures Listed(Of7f(), 7, 0x7a, 120, 0x7c) { }

  function Of8(): List { Cons(38, Cons(42, Cons(44, Cons(59, Cons(88, Cons(90, Nil)))))) }
  lemma Listed8() ensures Printed(8, 0xf8, 0xfe) { assert Listed(Of8(), 8, 0xf8, -1, 0xfe); }

  function Of10(): List { Cons(33, Cons(34, Cons(40, Cons(41, Cons(63, Nil))))) }
  lemma Listed10() ensures Printed(10, 0x3f8, 0x3fd) { assert Listed(Of10(), 10, 0x3f8, -1, 0x3fd); }

  function Of11(): List { Cons(39, Cons(43, Cons(124, Nil))) }
  lemma Listed11() ensures Printed(11, 0x7fa, 0x7fd) { assert Listed(Of11(), 11, 0x7fa, -1, 0x7fd); }

  function Of12(): List { Cons(35, Cons(62, Nil)) }
  lemma Listed12() ensures Printed(12, 0xffa, 0xffc) { assert Listed(Of12(), 12, 0xffa, -1, 0xffc); }

  function Of13(): List { Cons(0, Cons(36, Cons(64, Cons(91, Cons(93, Cons(126, Nil)))))) }
  lemma Listed13() ensures Printed(13, 0x1ff8, 0x1ffe) { assert Listed(Of13(), 13, 0x1ff8, -1, 0x1ffe); }

  function Of14(): List { Cons(94, Cons(125, Nil)) }
  lemma Listed14() ensures Printed(14, 0x3ffc, 0x3ffe) { assert Listed(Of14(), 14, 0x3ffc, -1, 0x3ffe); }

  function Of15(): List { Cons(60, Cons(96, Cons(123, Nil))) }
  lemma Listed15() ensures Printed(15, 0x7ffc, 0x7fff) { assert Listed(Of15(), 15, 0x7ffc, -1, 0x7fff); }

  function Of19(): List { Cons(92, Cons(195, Cons(208, Nil))) }
  lemma Listed19() ensures Printed(19, 0x7fff0, 0x7fff3) { assert Listed(Of19(), 19, 0x7fff0, -1, 0x7fff3); }

  function Of20(): List { Cons(128, Cons(130, Cons(131, Cons(162, Cons(184, Cons(194, Of20b())))))) }
  lemma Listed20() ensures Printed(20, 0xfffe6, 0xfffee) { Listed20b(); assert Listed(Of20(), 20, 0xfffe6, -1, 0xfffee); }
  function Of20b(): List { Cons(224, Cons(226, Nil)) }
  lemma Listed20b() ensures Listed(Of20b(), 20, 0xfffec, 194, 0xfffee) { }

  function Of21(): List { Cons(153, Cons(161, Cons(167, Cons(172, Cons(176, Cons(177, Of21b())))))) }
  lemma Listed21() ensures Printed(21, 0x1fffdc, 0x1fffe9) { Listed21b(); assert Listed(Of21(), 21, 0x1fffdc, -1, 0x1fffe9); }
  function Of21b(): List { Cons(179, Cons(209, Cons(216, Cons(217, Cons(227, Cons(229, Of21c())))))) }
  lemma Listed21b() ensures Listed(Of21b(), 21, 0x1fffe2, 177, 0x1fffe9) { Listed21c(); }
  function Of21c(): List { Cons(230, Nil) }
  lemma Listed21c() ensures Listed(Of21c(), 21, 0x1fffe8, 229, 0x1fffe9) { }

  function Of22(): List { Cons(129, Cons(132, Cons(133, Cons(134, Cons(136, Cons(146, Of22b())))))) }
  lemma Listed22() ensures Printed(22, 0x3fffd2, 0x3fffec) { Listed22b(); assert Listed(Of22(), 22, 0x3fffd2, -1, 0x3fffec); }
  function Of22b(): List { Cons(154, Cons(156, Cons(160, Cons(163, Cons(164, Cons(169, Of22c())))))) }
  lemma Listed22b() ensures Listed(Of22b(), 22, 0x3fffd8, 146, 0x3fffec) { Listed22c(); }
  function Of22c(): List { Cons(170, Cons(173, Cons(178, Cons(181, Cons(185, Cons(186, Of22d())))))) }
  lemma Listed22c() ensures Listed(Of22c(), 22, 0x3fffde, 169, 0x3fffec) { Listed22d(); }
  function Of22d(): List { Cons(187, Cons(189, Cons(190, Cons(196, Cons(198, Cons(228, Of22e())))))) }
  lemma Listed22d() ensures Listed(Of22d(), 22, 0x3fffe4, 186, 0x3fffec) { Listed22e(); }
  function Of22e(): List { Cons(232, Cons(233, Nil)) }
  lemma Listed22e() ensures Listed(Of22e(), 22, 0x3fffea, 228, 0x3fffec) { }

  function Of23(): List { Cons(1, Cons(135, Cons(137, Cons(138, Cons(139, Cons(140, Of23b())))))) }
  lemma Listed23() ensures Printed(23, 0x7fffd8, 0x7ffff5) { Listed23b(); assert Listed(Of23(), 23, 0x7fffd8, -1, 0x7ffff5); }
  function Of23b(): List { Cons(141, Cons(143, Cons(147, Cons(149, Cons(150, Cons(151, Of23c())))))) }
  lemma Listed23b() ensures Listed(Of23b(), 23, 0x7fffde, 140, 0x7ffff5) { Listed23c(); }
  function Of23c(): List { Cons(152, Cons(155, Cons(157, Cons(158, Cons(165, Cons(166, Of23d())))))) }
  lemma Listed23c() ensures Listed(Of23c(), 23, 0x7fffe4, 151, 0x7ffff5) { Listed23d(); }
  function Of23d(): List { Cons(168, Cons(174, Cons(175, Cons(180, Cons(182, Cons(183, Of23e())))))) }
  lemma Listed23d() ensures Listed(Of23d(), 23, 0x7fffea, 166, 0x7ffff5) { Listed23e(); }
  function Of23e(): List { Cons(188, Cons(191, Cons(197, Cons(231, Cons(239, Nil))))) }
  lemma Listed23e() ensures Listed(Of23e(), 23, 0x7ffff0, 183, 0x7ffff5) { }

  function Of24(): List { Cons(9, Cons(142, Cons(144, Cons(145, Cons(148, Cons(159, Of24b())))))) }
  lemma Listed24() ensures Printed(24, 0xffffea, 0xfffff6) { Listed24b(); assert Listed(Of24(), 24, 0xffffea, -1, 0xfffff6); }
  function Of24b(): List { Cons(171, Cons(206, Cons(215, Cons(225, Cons(236, Cons(237, Nil)))))) }
  lemma Listed24b() ensures Listed(Of24b(), 24, 0xfffff0, 159, 0xfffff6) { }

  function Of25(): List { Cons(199, Cons(207, Cons(234, Cons(235, Nil)))) }
  lemma Listed25() ensures Printed(25, 0x1ffffec, 0x1fffff0) { assert Listed(Of25(), 25, 0x1ffffec, -1, 0x1fffff0); }

  function Of26(): List { Cons(192, Cons(193, Cons(200, Cons(201, Cons(202, Cons(205, Of26b())))))) }
  lemma Listed26() ensures Printed(26, 0x3ffffe0, 0x3ffffef) { Listed26b(); assert Listed(Of26(), 26, 0x3ffffe0, -1, 0x3ffffef); }
  function Of26b(): List { Cons(210, Cons(213, Cons(218, Cons(219, Cons(238, Cons(240, Of26c())))))) }
  lemma Listed26b() ensures Listed(Of26b(), 26, 0x3ffffe6, 205, 0x3ffffef) { Listed26c(); }
  function Of26c(): List { Cons(242, Cons(243, Cons(255, Nil))) }
  lemma Listed26c() ensures Listed(Of26c(), 26, 0x3ffffec, 240, 0x3ffffef) { }

  function Of27(): List { Cons(203, Cons(204, Cons(211, Cons(212, Cons(214, Cons(221, Of27b())))))) }
  lemma Listed27() ensures Printed(27, 0x7ffffde, 0x7fffff1) { Listed27b(); assert Listed(Of27(), 27, 0x7ffffde, -1, 0x7fffff1); }
  function Of27b(): List { Cons(222, Cons(223, Cons(241, Cons(244, Cons(245, Cons(246, Of27c())))))) }
  lemma Listed27b() ensures Listed(Of27b(), 27, 0x7ffffe4, 221, 0x7fffff1) { Listed27c(); }
  function Of27c(): List { Cons(247, Cons(248, Cons(250, Cons(251, Cons(252, Cons(253, Of27d())))))) }
  lemma Listed27c() ensures Listed(Of27c(), 27, 0x7ffffea, 246, 0x7fffff1) { Listed27d(); }
  function Of27d(): List { Cons(254, Nil) }
  lemma Listed27d() ensures Listed(Of27d(), 27, 0x7fffff0, 253, 0x7fffff1) { }

  function Of28(): List { Cons(2, Cons(3, Cons(4, Cons(5, Cons(6, Cons(7, Of28b())))))) }
  lemma Listed28() ensures Printed(28, 0xfffffe2, 0xfffffff) { Listed28b(); assert Listed(Of28(), 28, 0xfffffe2, -1, 0xfffffff); }
  function Of28b(): List { Cons(8, Cons(11, Cons(12, Cons(14, Cons(15, Cons(16, Of28c())))))) }
  lemma Listed28b() ensures Listed(Of28b(), 28, 0xfffffe8, 7, 0xfffffff) { Listed28c(); }
  function Of28c(): List { Cons(17, Cons(18, Cons(19, Cons(20, Cons(21, Cons(23, Of28d())))))) }
  lemma Listed28c() ensures Listed(Of28c(), 28, 0xfffffee, 16, 0xfffffff) { Listed28d(); }
  function Of28d(): List { Cons(24, Cons(25, Cons(26, Cons(27, Cons(28, Cons(29, Of28e())))))) }
  lemma Listed28d() ensures Listed(Of28d(), 28, 0xffffff4, 23, 0xfffffff) { Listed28e(); }
  function Of28e(): List { Cons(30, Cons(31, Cons(127, Cons(220, Cons(249, Nil))))) }
  lemma Listed28e() ensures Listed(Of28e(), 28, 0xffffffa, 29, 0xfffffff) { }

  function Of30(): List { Cons(10, Cons(13, Cons(22, Cons(256, Nil)))) }
  lemma Listed30() ensures Printed(30, 0x3ffffffc, 0x40000000) { assert Listed(Of30(), 30, 0x3ffffffc, -1, 0x40000000); }

  /** How many codes of this length there are. */
  function Total(bits: nat): nat {
    match bits
    case 5 => 10
    case 6 => 26
    case 7 => 32
    case 8 => 6
    case 10 => 5
    case 11 => 3
    case 12 => 2
    case 13 => 6
    case 14 => 2
    case 15 => 3
    case 19 => 3
    case 20 => 8
    case 21 => 13
    case 22 => 26
    case 23 => 29
    case 24 => 12
    case 25 => 4
    case 26 => 15
    case 27 => 19
    case 28 => 29
    case 30 => 4
    case _ => 0
  }

  /** How many codes are shorter. */
  function Below(bits: nat): nat {
    match bits
    case 6 => 10
    case 7 => 36
    case 8 => 68
    case 9 => 74
    case 10 => 74
    case 11 => 79
    case 12 => 82
    case 13 => 84
    case 14 => 90
    case 15 => 92
    case 16 => 95
    case 17 => 95
    case 18 => 95
    case 19 => 95
    case 20 => 98
    case 21 => 106
    case 22 => 119
    case 23 => 145
    case 24 => 174
    case 25 => 186
    case 26 => 190
    case 27 => 205
    case 28 => 224
    case 29 => 253
    case 30 => 253
    case _ => if bits <= 5 then 0 else SYMBOLS
  }

  /** The first code of this length. */
  function First(bits: nat): nat {
    match bits
    case 6 => 0x14
    case 7 => 0x5c
    case 8 => 0xf8
    case 9 => 0x1fc
    case 10 => 0x3f8
    case 11 => 0x7fa
    case 12 => 0xffa
    case 13 => 0x1ff8
    case 14 => 0x3ffc
    case 15 => 0x7ffc
    case 16 => 0xfffe
    case 17 => 0x1fffc
    case 18 => 0x3fff8
    case 19 => 0x7fff0
    case 20 => 0xfffe6
    case 21 => 0x1fffdc
    case 22 => 0x3fffd2
    case 23 => 0x7fffd8
    case 24 => 0xffffea
    case 25 => 0x1ffffec
    case 26 => 0x3ffffe0
    case 27 => 0x7ffffde
    case 28 => 0xfffffe2
    case 29 => 0x1ffffffe
    case 30 => 0x3ffffffc
    case _ => 0
  }

  lemma PrintedAll(bits: codelen)
    ensures Printed(bits, First(bits), First(bits) + Total(bits))
  {
    match bits {
      case 5 => Listed5();
      case 6 => Listed6();
      case 7 => Listed7();
      case 8 => Listed8();
      case 10 => Listed10();
      case 11 => Listed11();
      case 12 => Listed12();
      case 13 => Listed13();
      case 14 => Listed14();
      case 15 => Listed15();
      case 19 => Listed19();
      case 20 => Listed20();
      case 21 => Listed21();
      case 22 => Listed22();
      case 23 => Listed23();
      case 24 => Listed24();
      case 25 => Listed25();
      case 26 => Listed26();
      case 27 => Listed27();
      case 28 => Listed28();
      case 30 => Listed30();
      case _ => assert Listed(Nil, bits, First(bits), -1, First(bits));
    }
  }

  lemma ListedAll(bits: codelen)
    ensures HasListing(Lengths(), CodeColumn(), bits, First(bits), First(bits) + Total(bits))
  {
    PrintedAll(bits);
    var first, end := First(bits), First(bits) + Total(bits);
    var l :| Listed(l, bits, first, -1, end);
    ListedLists(l, bits, first, -1, end);
  }

  // ------------------------------------------------------------ counting, for any table so listed

  ghost predicate AsListed(lens: seq<nat>, code: seq<nat>) {
    && |lens| == |code| == SYMBOLS
    && (forall s :: 0 <= s < SYMBOLS ==> 5 <= lens[s] <= 30)
    && (forall b :: 5 <= b <= 30 ==> HasListing(lens, code, b, First(b), First(b) + Total(b)))
  }

  /** A listing bounds the count of its length from below. */
  lemma {:induction false} ListedCount(lens: seq<nat>, code: seq<nat>, l: List, bits: nat, next: nat, prev: int, end: nat)
    requires |lens| == |code| == SYMBOLS && -1 <= prev < SYMBOLS && Lists(lens, code, l, bits, next, prev, end)
    ensures next <= end
    ensures Count(lens, SYMBOLS, bits) >= Count(lens, prev + 1, bits) + (end - next)
  {
    match l
    case Nil =>
      CountMonotone(lens, prev + 1, SYMBOLS, bits);
    case Cons(s, rest) =>
      ListedCount(lens, code, rest, bits, next + 1, s, end);
      CountMonotone(lens, prev + 1, s, bits);
  }

  /** When the listing is the whole length, the symbol with code `c` has rank `c - next`. */
  lemma {:induction false} ListedRank(lens: seq<nat>, code: seq<nat>, l: List, bits: nat, next: nat, prev: int, end: nat, c: nat)
    returns (s: nat)
    requires |lens| == |code| == SYMBOLS && -1 <= prev < SYMBOLS && Lists(lens, code, l, bits, next, prev, end)
    requires next <= c < end
    requires Count(lens, SYMBOLS, bits) == Count(lens, prev + 1, bits) + (end - next)
    ensures s < SYMBOLS && lens[s] == bits && code[s] == c
    ensures Count(lens, s, bits) == Count(lens, prev + 1, bits) + (c - next)
  {
    ListedCount(lens, code, l.rest, bits, next + 1, l.s, end);
    CountMonotone(lens, prev + 1, l.s, bits);
    assert Count(lens, l.s + 1, bits) == Count(lens, l.s, bits) + 1;
    if c == next {
      s := l.s;
    } else {
      s := ListedRank(lens, code, l.rest, bits, next + 1, l.s, end, c);
    }
  }

  lemma CountAtLeast(lens: seq<nat>, code: seq<nat>, bits: nat)
    requires AsListed(lens, code) && 5 <= bits <= 30
    ensures Count(lens, SYMBOLS, bits) >= Total(bits)
  {
    var first, end := First(bits), First(bits) + Total(bits);
    assert HasListing(lens, code, bits, first, end);
    var l :| Lists(lens, code, l, bits, first, -1, end);
    ListedCount(lens, code, l, bits, first, -1, end);
    assert Count(lens, 0, bits) == 0;
  }

  lemma SymbolWithRank(lens: seq<nat>, code: seq<nat>, bits: nat, r: nat) returns (s: nat)
    requires AsListed(lens, code) && 5 <= bits <= 30 && r < Total(bits) == Count(lens, SYMBOLS, bits)
    ensures s < SYMBOLS && lens[s] == bits && code[s] == First(bits) + r && Rank(lens, s) == r
  {
    var first, end := First(bits), First(bits) + Total(bits);
    assert HasListing(lens, code, bits, first, end);
    var l :| Lists(lens, code, l, bits, first, -1, end);
    assert Count(lens, 0, bits) == 0;
    s := ListedRank(lens, code, l, bits, first, -1, end, first + r);
  }

  lemma StepsAgree(bits: nat)
    requires 5 <= bits <= 30
    ensures Below(bits + 1) == Below(bits) + Total(bits)
    ensures bits < 30 ==> First(bits + 1) == 2 * (First(bits) + Total(bits))
  {
  }

  lemma {:induction false} AllBelow(lens: seq<nat>, n: nat)
    requires n <= |lens| && forall s :: 0 <= s < |lens| ==> 5 <= lens[s] <= 30
    ensures CountBelow(lens, n, 31) == n && CountBelow(lens, n, 5) == 0
  {
    if n != 0 {
      AllBelow(lens, n - 1);
    }
  }

  lemma {:induction false} BelowAtLeast(lens: seq<nat>, code: seq<nat>, bits: nat)
    requires AsListed(lens, code) && 5 <= bits <= 31
    ensures CountBelow(lens, SYMBOLS, bits) >= Below(bits)
  {
    if bits > 5 {
      BelowAtLeast(lens, code, bits - 1);
      CountBelowStep(lens, SYMBOLS, bits - 1);
      CountAtLeast(lens, code, bits - 1);
      StepsAgree(bits - 1);
    }
  }

  /** The listings cover all 257 symbols, so each one is its whole length. */
  lemma {:induction false} BelowExactly(lens: seq<nat>, code: seq<nat>, bits: nat)
    requires AsListed(lens, code) && 5 <= bits <= 31
    ensures CountBelow(lens, SYMBOLS, bits) == Below(bits)
    ensures bits <= 30 ==> Count(lens, SYMBOLS, bits) == Total(bits)
    decreases 31 - bits
  {
    if bits == 31 {
      AllBelow(lens, SYMBOLS);
    } else {
      BelowExactly(lens, code, bits + 1);
      BelowAtLeast(lens, code, bits);
      CountBelowStep(lens, SYMBOLS, bits);
      CountAtLeast(lens, code, bits);
      StepsAgree(bits);
    }
  }

  lemma NoneShorter(lens: seq<nat>, code: seq<nat>, bits: nat)
    requires AsListed(lens, code) && bits < 5
    ensures Count(lens, SYMBOLS, bits) == 0
  {
    CountBelowStep(lens, SYMBOLS, bits);
    CountBelowMonotone(lens, SYMBOLS, bits + 1, 5);
    AllBelow(lens, SYMBOLS);
  }

  lemma {:induction false} FirstCodes(lens: seq<nat>, code: seq<nat>, bits: nat)
    requires AsListed(lens, code) && bits <= 30
    ensures FirstCode(lens, bits) == First(bits)
  {
    if bits > 0 {
      FirstCodes(lens, code, bits - 1);
      if bits <= 5 {
        NoneShorter(lens, code, bits - 1);
      } else {
        BelowExactly(lens, code, bits - 1);
        StepsAgree(bits - 1);
      }
    }
  }

  /** In a table so listed, the canonical code of the lengths is the code column. */
  lemma ListedIsCanonical(lens: seq<nat>, code: seq<nat>, s: nat)
    requires AsListed(lens, code) && s < SYMBOLS
    ensures CodeValue(lens, s) == code[s]
  {
    var bits := lens[s];
    FirstCodes(lens, code, bits);
    BelowExactly(lens, code, bits);
    RankBelowCount(lens, s);
    var x := SymbolWithRank(lens, code, bits, Rank(lens, s));
    RankInjective(lens, x, s);
  }

  lemma ListedIsComplete(lens: seq<nat>, code: seq<nat>, longest: nat)
    requires AsListed(lens, code) && longest == 30 && lens[EOS] == longest
    ensures Complete(lens)
  {
    FirstCodes(lens, code, longest);
    BelowExactly(lens, code, longest);
    assert Bound(lens, longest) == First(longest) + Total(longest) == 0x4000_0000;
    PowersOfTwo();
  }

  lemma PowersOfTwo()
    ensures Pow2(30) == 0x4000_0000
  {
    assert Pow2(10) == 0x400;
    assert Pow2(15) == 0x8000;
    assert Pow2(20) == 0x10_0000;
    assert Pow2(25) == 0x200_0000;
  }

  // ------------------------------------------------------------ Appendix B

  lemma AppendixBIsListed()
    ensures AsListed(Lengths(), CodeColumn())
  {
    forall b | 5 <= b <= 30
      ensures HasListing(Lengths(), CodeColumn(), b, First(b), First(b) + Total(b))
    {
      ListedAll(b);
    }
  }

  /** The lengths of Appendix B are a complete code with a thirty-bit EOS and nothing under five bits. */
  lemma AppendixBIsComplete()
    ensures Complete(Lengths()) && Longest(Lengths()) == 30 && AtLeast(Lengths(), 5)
  {
    AppendixBIsListed();
    assert Codes(EOS).bits == 30;
    ListedIsComplete(Lengths(), CodeColumn(), 30);
  }

  /** Appendix B is the canonical code of its own lengths. */
  lemma AppendixBIsCanonical(s: nat)
    requires s < SYMBOLS
    ensures CodeValue(Lengths(), s) == Codes(s).code
  {
    AppendixBIsListed();
    ListedIsCanonical(Lengths(), CodeColumn(), s);
  }

  /** The letter "a", 00011, and three ones. */
  lemma LetterA()
    ensures Encode(Lengths(), [97]) == [0x1f]
  {
    AppendixBIsComplete();
    AppendixBIsCanonical(97);
    assert Codes(97).code == 3 && Lengths()[97] == 5;
    hide *;
    EncodeOne(Lengths(), 97, 3, 5, 0x1f);
  }

  /** The decoder as the server runs it: tables derived from Appendix B, then the bit loop. */
  method DecodeLiteral(encoded: seq<byte>) returns (r: Result<seq<byte>, Failure>, out: seq<byte>)
    ensures Reads(Lengths(), Unpack(encoded), r) && r != Err(NoCodeMatches)
    ensures forall s :: r == Ok(s) <==> encoded == Encode(Lengths(), s)
    ensures (r.Ok? ==> out == r.value) && |out| < 8 * |encoded| / 5 + 1
  {
    AppendixBIsComplete();
    var lens := Lengths();
    var t := BuildTable(lens);
    r, out := Decode(lens, t, encoded);
    ReservationSuffices(|out|, |encoded|);
  }
}
