/** Two of the known answers of appendix A.5 of RFC 1321, computed through the model. */
module Md5Answers {
  import opened Md5

  predicate First(f: nat, q: Regs, t: bv32, r: Regs) { Step(f, q.a, q.b, q.c, q.d, t, Shift(f, 0)) == r.a }
  predicate Second(f: nat, q: Regs, t: bv32, r: Regs) { Step(f, q.d, r.a, q.b, q.c, t, Shift(f, 1)) == r.d }
  predicate Third(f: nat, q: Regs, t: bv32, r: Regs) { Step(f, q.c, r.d, r.a, q.b, t, Shift(f, 2)) == r.c }
  predicate Fourth(f: nat, q: Regs, t: bv32, r: Regs) { Step(f, q.b, r.c, r.d, r.a, t, Shift(f, 3)) == r.b }

  /** Four steps, given what each of them yields. */
  lemma QuadFrom(f: nat, q: Regs, t0: bv32, t1: bv32, t2: bv32, t3: bv32, r: Regs)
    requires First(f, q, t0, r) && Second(f, q, t1, r) && Third(f, q, t2, r) && Fourth(f, q, t3, r)
    ensures Quad(f, q, t0, t1, t2, t3) == r
  {
    hide Step, Shift;
  }

  /** A block with one word at its start and the length in bits. */
  ghost predicate Holds(x: seq<bv32>, first: bv32, bits: bv32) {
    |x| == 16 && x[0] == first && x[14] == bits && forall i | 0 < i < 16 && i != 14 :: x[i] == 0
  }

  // ===== the message "" =====

  lemma Empty0()
    ensures Quad(1, Regs(0x67452301, 0xefcdab89, 0x98badcfe, 0x10325476),
                 0xd76aa4f8, 0xe8c7b756, 0x242070db, 0xc1bdceee)
         == Regs(0xa5202774, 0x1b163203, 0xe7f06b23, 0xf59592dd)
  {
    QuadFrom(1, Regs(0x67452301, 0xefcdab89, 0x98badcfe, 0x10325476), 0xd76aa4f8, 0xe8c7b756, 0x242070db, 0xc1bdceee,
             Regs(0xa5202774, 0x1b163203, 0xe7f06b23, 0xf59592dd));
  }

  lemma Empty1()
    ensures Quad(1, Regs(0xa5202774, 0x1b163203, 0xe7f06b23, 0xf59592dd),
                 0xf57c0faf, 0x4787c62a, 0xa8304613, 0xfd469501)
         == Regs(0x32033344, 0x9bc13ce9, 0xf5b158db, 0x2f35d494)
  {
    QuadFrom(1, Regs(0xa5202774, 0x1b163203, 0xe7f06b23, 0xf59592dd), 0xf57c0faf, 0x4787c62a, 0xa8304613, 0xfd469501,
             Regs(0x32033344, 0x9bc13ce9, 0xf5b158db, 0x2f35d494));
  }

  lemma Empty2()
    ensures Quad(1, Regs(0x32033344, 0x9bc13ce9, 0xf5b158db, 0x2f35d494),
                 0x698098d8, 0x8b44f7af, 0xffff5bb1, 0x895cd7be)
         == Regs(0x3893b991, 0x70768a29, 0xe1ef0576, 0xfce4a312)
  {
    QuadFrom(1, Regs(0x32033344, 0x9bc13ce9, 0xf5b158db, 0x2f35d494), 0x698098d8, 0x8b44f7af, 0xffff5bb1, 0x895cd7be,
             Regs(0x3893b991, 0x70768a29, 0xe1ef0576, 0xfce4a312));
  }

  lemma Empty3()
    ensures Quad(1, Regs(0x3893b991, 0x70768a29, 0xe1ef0576, 0xfce4a312),
                 0x6b901122, 0xfd987193, 0xa679438e, 0x49b40821)
         == Regs(0xf56c7cf1, 0xd6819c6a, 0x5aa53f75, 0x374943a7)
  {
    QuadFrom(1, Regs(0x3893b991, 0x70768a29, 0xe1ef0576, 0xfce4a312), 0x6b901122, 0xfd987193, 0xa679438e, 0x49b40821,
             Regs(0xf56c7cf1, 0xd6819c6a, 0x5aa53f75, 0x374943a7));
  }

  lemma Empty4()
    ensures Quad(2, Regs(0xf56c7cf1, 0xd6819c6a, 0x5aa53f75, 0x374943a7),
                 0xf61e2562, 0xc040b340, 0x265e5a51, 0xe9b6c82a)
         == Regs(0x1c7d7513, 0xbd782e17, 0xc095f13a, 0x7bd57a3a)
  {
    QuadFrom(2, Regs(0xf56c7cf1, 0xd6819c6a, 0x5aa53f75, 0x374943a7), 0xf61e2562, 0xc040b340, 0x265e5a51, 0xe9b6c82a,
             Regs(0x1c7d7513, 0xbd782e17, 0xc095f13a, 0x7bd57a3a));
  }

  lemma Empty5()
    ensures Quad(2, Regs(0x1c7d7513, 0xbd782e17, 0xc095f13a, 0x7bd57a3a),
                 0xd62f105d, 0x02441453, 0xd8a1e681, 0xe7d3fbc8)
         == Regs(0x3d1e3e6c, 0xe422531a, 0xeb41643e, 0x68b7b3e3)
  {
    QuadFrom(2, Regs(0x1c7d7513, 0xbd782e17, 0xc095f13a, 0x7bd57a3a), 0xd62f105d, 0x02441453, 0xd8a1e681, 0xe7d3fbc8,
             Regs(0x3d1e3e6c, 0xe422531a, 0xeb41643e, 0x68b7b3e3));
  }

  lemma Empty6()
    ensures Quad(2, Regs(0x3d1e3e6c, 0xe422531a, 0xeb41643e, 0x68b7b3e3),
                 0x21e1cde6, 0xc33707d6, 0xf4d50d87, 0x455a14ed)
         == Regs(0x306ec122, 0xa0572807, 0xa3c663da, 0xd28c77c2)
  {
    QuadFrom(2, Regs(0x3d1e3e6c, 0xe422531a, 0xeb41643e, 0x68b7b3e3), 0x21e1cde6, 0xc33707d6, 0xf4d50d87, 0x455a14ed,
             Regs(0x306ec122, 0xa0572807, 0xa3c663da, 0xd28c77c2));
  }

  lemma Empty7()
    ensures Quad(2, Regs(0x306ec122, 0xa0572807, 0xa3c663da, 0xd28c77c2),
                 0xa9e3e905, 0xfcefa3f8, 0x676f02d9, 0x8d2a4c8a)
         == Regs(0x13707036, 0xa2205f1f, 0x1c31c384, 0xae7813db)
  {
    QuadFrom(2, Regs(0x306ec122, 0xa0572807, 0xa3c663da, 0xd28c77c2), 0xa9e3e905, 0xfcefa3f8, 0x676f02d9, 0x8d2a4c8a,
             Regs(0x13707036, 0xa2205f1f, 0x1c31c384, 0xae7813db));
  }

  lemma Empty8()
    ensures Quad(3, Regs(0x13707036, 0xa2205f1f, 0x1c31c384, 0xae7813db),
                 0xfffa3942, 0x8771f681, 0x6d9d6122, 0xfde5380c)
         == Regs(0xdf63eaa1, 0x004b6669, 0x12f3e755, 0xc3689f5b)
  {
    QuadFrom(3, Regs(0x13707036, 0xa2205f1f, 0x1c31c384, 0xae7813db), 0xfffa3942, 0x8771f681, 0x6d9d6122, 0xfde5380c,
             Regs(0xdf63eaa1, 0x004b6669, 0x12f3e755, 0xc3689f5b));
  }

  lemma Empty9()
    ensures Quad(3, Regs(0xdf63eaa1, 0x004b6669, 0x12f3e755, 0xc3689f5b),
                 0xa4beea44, 0x4bdecfa9, 0xf6bb4b60, 0xbebfbc70)
         == Regs(0x5f7a9b2e, 0xc5dc8c15, 0x91ca4cb7, 0xabc34e16)
  {
    QuadFrom(3, Regs(0xdf63eaa1, 0x004b6669, 0x12f3e755, 0xc3689f5b), 0xa4beea44, 0x4bdecfa9, 0xf6bb4b60, 0xbebfbc70,
             Regs(0x5f7a9b2e, 0xc5dc8c15, 0x91ca4cb7, 0xabc34e16));
  }

  lemma Empty10()
    ensures Quad(3, Regs(0x5f7a9b2e, 0xc5dc8c15, 0x91ca4cb7, 0xabc34e16),
                 0x289b7ec6, 0xeaa1287a, 0xd4ef3085, 0x04881d05)
         == Regs(0x4497169d, 0x0fe32453, 0xfd95f243, 0x76fd93d4)
  {
    QuadFrom(3, Regs(0x5f7a9b2e, 0xc5dc8c15, 0x91ca4cb7, 0xabc34e16), 0x289b7ec6, 0xeaa1287a, 0xd4ef3085, 0x04881d05,
             Regs(0x4497169d, 0x0fe32453, 0xfd95f243, 0x76fd93d4));
  }

  lemma Empty11()
    ensures Quad(3, Regs(0x4497169d, 0x0fe32453, 0xfd95f243, 0x76fd93d4),
                 0xd9d4d039, 0xe6db99e5, 0x1fa27cf8, 0xc4ac5665)
         == Regs(0x3f55edfd, 0xca7d2dbd, 0x68d84ea2, 0x22a31f54)
  {
    QuadFrom(3, Regs(0x4497169d, 0x0fe32453, 0xfd95f243, 0x76fd93d4), 0xd9d4d039, 0xe6db99e5, 0x1fa27cf8, 0xc4ac5665,
             Regs(0x3f55edfd, 0xca7d2dbd, 0x68d84ea2, 0x22a31f54));
  }

  lemma Empty12()
    ensures Quad(4, Regs(0x3f55edfd, 0xca7d2dbd, 0x68d84ea2, 0x22a31f54),
                 0xf42922c4, 0x432aff97, 0xab9423a7, 0xfc93a039)
         == Regs(0x93aa2577, 0x561e0689, 0xcd85b8cb, 0x1688dc85)
  {
    QuadFrom(4, Regs(0x3f55edfd, 0xca7d2dbd, 0x68d84ea2, 0x22a31f54), 0xf42922c4, 0x432aff97, 0xab9423a7, 0xfc93a039,
             Regs(0x93aa2577, 0x561e0689, 0xcd85b8cb, 0x1688dc85));
  }

  lemma Empty13()
    ensures Quad(4, Regs(0x93aa2577, 0x561e0689, 0xcd85b8cb, 0x1688dc85),
                 0x655b59c3, 0x8f0ccc92, 0xffeff47d, 0x85845dd1)
         == Regs(0x5625a114, 0x1e77fa61, 0x392ad0d0, 0x3450f42b)
  {
    QuadFrom(4, Regs(0x93aa2577, 0x561e0689, 0xcd85b8cb, 0x1688dc85), 0x655b59c3, 0x8f0ccc92, 0xffeff47d, 0x85845dd1,
             Regs(0x5625a114, 0x1e77fa61, 0x392ad0d0, 0x3450f42b));
  }

  lemma Empty14()
    ensures Quad(4, Regs(0x5625a114, 0x1e77fa61, 0x392ad0d0, 0x3450f42b),
                 0x6fa87e4f, 0xfe2ce6e0, 0xa3014314, 0x4e0811a1)
         == Regs(0x474a9c8c, 0x30130182, 0x36594b14, 0xdfce00bc)
  {
    QuadFrom(4, Regs(0x5625a114, 0x1e77fa61, 0x392ad0d0, 0x3450f42b), 0x6fa87e4f, 0xfe2ce6e0, 0xa3014314, 0x4e0811a1,
             Regs(0x474a9c8c, 0x30130182, 0x36594b14, 0xdfce00bc));
  }

  lemma Empty15()
    ensures Quad(4, Regs(0x474a9c8c, 0x30130182, 0x36594b14, 0xdfce00bc),
                 0xf7537e82, 0xbd3af235, 0x2ad7d2bb, 0xeb86d391)
         == Regs(0x7246fad3, 0x14e45506, 0xff4ea3eb, 0x6e10a476)
  {
    QuadFrom(4, Regs(0x474a9c8c, 0x30130182, 0x36594b14, 0xdfce00bc), 0xf7537e82, 0xbd3af235, 0x2ad7d2bb, 0xeb86d391,
             Regs(0x7246fad3, 0x14e45506, 0xff4ea3eb, 0x6e10a476));
  }

  lemma EmptyRound1(x: seq<bv32>)
    requires Holds(x, 0x00000080, 0x00000000)
    ensures Round1(Regs(0x67452301, 0xefcdab89, 0x98badcfe, 0x10325476), x) == Regs(0xf56c7cf1, 0xd6819c6a, 0x5aa53f75,
              0x374943a7)
  {
    hide Quad;
    Empty0();
    Empty1();
    Empty2();
    Empty3();
  }

  lemma EmptyRound2(x: seq<bv32>)
    requires Holds(x, 0x00000080, 0x00000000)
    ensures Round2(Regs(0xf56c7cf1, 0xd6819c6a, 0x5aa53f75, 0x374943a7), x) == Regs(0x13707036, 0xa2205f1f, 0x1c31c384,
              0xae7813db)
  {
    hide Quad;
    Empty4();
    Empty5();
    Empty6();
    Empty7();
  }

  lemma EmptyRound3(x: seq<bv32>)
    requires Holds(x, 0x00000080, 0x00000000)
    ensures Round3(Regs(0x13707036, 0xa2205f1f, 0x1c31c384, 0xae7813db), x) == Regs(0x3f55edfd, 0xca7d2dbd, 0x68d84ea2,
              0x22a31f54)
  {
    hide Quad;
    Empty8();
    Empty9();
    Empty10();
    Empty11();
  }

  lemma EmptyRound4(x: seq<bv32>)
    requires Holds(x, 0x00000080, 0x00000000)
    ensures Round4(Regs(0x3f55edfd, 0xca7d2dbd, 0x68d84ea2, 0x22a31f54), x) == Regs(0x7246fad3, 0x14e45506, 0xff4ea3eb,
              0x6e10a476)
  {
    hide Quad;
    Empty12();
    Empty13();
    Empty14();
    Empty15();
  }

  lemma EmptyAdded()
    ensures Added(INIT, Regs(0x7246fad3, 0x14e45506, 0xff4ea3eb, 0x6e10a476)) == Regs(0xd98c1dd4, 0x04b2008f,
              0x980980e9, 0x7e42f8ec)
  {
  }

  lemma EmptyRounds(x: seq<bv32>)
    requires Holds(x, 0x00000080, 0x00000000)
    ensures Rounds(INIT, x) == Regs(0xd98c1dd4, 0x04b2008f, 0x980980e9, 0x7e42f8ec)
  {
    hide Round1, Round2, Round3, Round4, Added;
    EmptyRound1(x);
    EmptyRound2(x);
    EmptyRound3(x);
    EmptyRound4(x);
    EmptyAdded();
  }

  lemma EmptyPadded()
    ensures var p := Padded([]);
            |p| == 64 && WordOf(p[0..4]) == 0x00000080 && WordOf(p[56..60]) == 0
            && forall i | 4 <= i < 64 && i != 56 :: p[i] == 0
  {
  }

  lemma EmptyBlock()
    ensures var p := Padded([]); |p| == 64 && Holds(Words32(BlockOf(p)), 0x00000080, 0x00000000)
  {
    hide Padded, WordOf;
    EmptyPadded();
    var p := Padded([]);
    forall i | 0 < i < 16 && i != 14 ensures WordOf(p[4 * i..4 * i + 4]) == 0 { ZeroWord(p[4 * i..4 * i + 4]); }
    FromWord();
  }

  lemma EmptyOctets()
    ensures Octets(Regs(0xd98c1dd4, 0x04b2008f, 0x980980e9, 0x7e42f8ec))
         == [0xd4, 0x1d, 0x8c, 0xd9, 0x8f, 0x00, 0xb2, 0x04,
             0xe9, 0x80, 0x09, 0x98, 0xec, 0xf8, 0x42, 0x7e]
  {
  }

  /** MD5 ("") = d41d8cd98f00b204e9800998ecf8427e */
  lemma EmptyAnswer()
    ensures Octets(Digest([]))
         == [0xd4, 0x1d, 0x8c, 0xd9, 0x8f, 0x00, 0xb2, 0x04,
             0xe9, 0x80, 0x09, 0x98, 0xec, 0xf8, 0x42, 0x7e]
  {
    hide Padded, BlockOf, Rounds, Octets, Words32;
    EmptyBlock();
    var p := Padded([]);
    EmptyRounds(Words32(BlockOf(p)));
    assert p[..64] == p && p[64..] == [];
    assert Fold(Transform, INIT, p) == Transform(INIT, BlockOf(p));
    EmptyOctets();
  }

  // ===== the message "abc" =====

  lemma Abc0()
    ensures Quad(1, Regs(0x67452301, 0xefcdab89, 0x98badcfe, 0x10325476),
                 0x57ce06d9, 0xe8c7b756, 0x242070db, 0xc1bdceee)
         == Regs(0xd6d117b4, 0x7ad956f2, 0x2f6fbd72, 0x344a8432)
  {
    QuadFrom(1, Regs(0x67452301, 0xefcdab89, 0x98badcfe, 0x10325476), 0x57ce06d9, 0xe8c7b756, 0x242070db, 0xc1bdceee,
             Regs(0xd6d117b4, 0x7ad956f2, 0x2f6fbd72, 0x344a8432));
  }

  lemma Abc1()
    ensures Quad(1, Regs(0xd6d117b4, 0x7ad956f2, 0x2f6fbd72, 0x344a8432),
                 0xf57c0faf, 0x4787c62a, 0xa8304613, 0xfd469501)
         == Regs(0xc73741ef, 0x928d99f6, 0x207dc67b, 0x8bac3051)
  {
    QuadFrom(1, Regs(0xd6d117b4, 0x7ad956f2, 0x2f6fbd72, 0x344a8432), 0xf57c0faf, 0x4787c62a, 0xa8304613, 0xfd469501,
             Regs(0xc73741ef, 0x928d99f6, 0x207dc67b, 0x8bac3051));
  }

  lemma Abc2()
    ensures Quad(1, Regs(0xc73741ef, 0x928d99f6, 0x207dc67b, 0x8bac3051),
                 0x698098d8, 0x8b44f7af, 0xffff5bb1, 0x895cd7be)
         == Regs(0x854b3712, 0x5ed49596, 0x3020401c, 0x74e2f284)
  {
    QuadFrom(1, Regs(0xc73741ef, 0x928d99f6, 0x207dc67b, 0x8bac3051), 0x698098d8, 0x8b44f7af, 0xffff5bb1, 0x895cd7be,
             Regs(0x854b3712, 0x5ed49596, 0x3020401c, 0x74e2f284));
  }

  lemma Abc3()
    ensures Quad(1, Regs(0x854b3712, 0x5ed49596, 0x3020401c, 0x74e2f284),
                 0x6b901122, 0xfd987193, 0xa67943a6, 0x49b40821)
         == Regs(0xdda9b9a6, 0x72aff2e0, 0xe396856b, 0xa1051895)
  {
    QuadFrom(1, Regs(0x854b3712, 0x5ed49596, 0x3020401c, 0x74e2f284), 0x6b901122, 0xfd987193, 0xa67943a6, 0x49b40821,
             Regs(0xdda9b9a6, 0x72aff2e0, 0xe396856b, 0xa1051895));
  }

  lemma Abc4()
    ensures Quad(2, Regs(0xdda9b9a6, 0x72aff2e0, 0xe396856b, 0xa1051895),
                 0xf61e2562, 0xc040b340, 0x265e5a51, 0x6a1a2a0b)
         == Regs(0x3e9e9126, 0xb5b204e4, 0xe25e1652, 0x4a1d804e)
  {
    QuadFrom(2, Regs(0xdda9b9a6, 0x72aff2e0, 0xe396856b, 0xa1051895), 0xf61e2562, 0xc040b340, 0x265e5a51, 0x6a1a2a0b,
             Regs(0x3e9e9126, 0xb5b204e4, 0xe25e1652, 0x4a1d804e));
  }

  lemma Abc5()
    ensures Quad(2, Regs(0x3e9e9126, 0xb5b204e4, 0xe25e1652, 0x4a1d804e),
                 0xd62f105d, 0x02441453, 0xd8a1e681, 0xe7d3fbc8)
         == Regs(0x59a8ffda, 0x47092c07, 0xabfc7920, 0x6d002f1e)
  {
    QuadFrom(2, Regs(0x3e9e9126, 0xb5b204e4, 0xe25e1652, 0x4a1d804e), 0xd62f105d, 0x02441453, 0xd8a1e681, 0xe7d3fbc8,
             Regs(0x59a8ffda, 0x47092c07, 0xabfc7920, 0x6d002f1e));
  }

  lemma Abc6()
    ensures Quad(2, Regs(0x59a8ffda, 0x47092c07, 0xabfc7920, 0x6d002f1e),
                 0x21e1cde6, 0xc33707ee, 0xf4d50d87, 0x455a14ed)
         == Regs(0xb7f268cf, 0x786acb8f, 0xfe1623b1, 0x09388eff)
  {
    QuadFrom(2, Regs(0x59a8ffda, 0x47092c07, 0xabfc7920, 0x6d002f1e), 0x21e1cde6, 0xc33707ee, 0xf4d50d87, 0x455a14ed,
             Regs(0xb7f268cf, 0x786acb8f, 0xfe1623b1, 0x09388eff));
  }

  lemma Abc7()
    ensures Quad(2, Regs(0xb7f268cf, 0x786acb8f, 0xfe1623b1, 0x09388eff),
                 0xa9e3e905, 0xfcefa3f8, 0x676f02d9, 0x8d2a4c8a)
         == Regs(0x790a77fb, 0x726342d3, 0xa62884aa, 0x9f47e4f8)
  {
    QuadFrom(2, Regs(0xb7f268cf, 0x786acb8f, 0xfe1623b1, 0x09388eff), 0xa9e3e905, 0xfcefa3f8, 0x676f02d9, 0x8d2a4c8a,
             Regs(0x790a77fb, 0x726342d3, 0xa62884aa, 0x9f47e4f8));
  }

  lemma Abc8()
    ensures Quad(3, Regs(0x790a77fb, 0x726342d3, 0xa62884aa, 0x9f47e4f8),
                 0xfffa3942, 0x8771f681, 0x6d9d6122, 0xfde53824)
         == Regs(0xb3707ebf, 0x3b0875c7, 0x8d212ff5, 0x60127b2e)
  {
    QuadFrom(3, Regs(0x790a77fb, 0x726342d3, 0xa62884aa, 0x9f47e4f8), 0xfffa3942, 0x8771f681, 0x6d9d6122, 0xfde53824,
             Regs(0xb3707ebf, 0x3b0875c7, 0x8d212ff5, 0x60127b2e));
  }

  lemma Abc9()
    ensures Quad(3, Regs(0xb3707ebf, 0x3b0875c7, 0x8d212ff5, 0x60127b2e),
                 0xa4beea44, 0x4bdecfa9, 0xf6bb4b60, 0xbebfbc70)
         == Regs(0x21b117b9, 0x5a2f5ea5, 0x3575227e, 0x6e7429d5)
  {
    QuadFrom(3, Regs(0xb3707ebf, 0x3b0875c7, 0x8d212ff5, 0x60127b2e), 0xa4beea44, 0x4bdecfa9, 0xf6bb4b60, 0xbebfbc70,
             Regs(0x21b117b9, 0x5a2f5ea5, 0x3575227e, 0x6e7429d5));
  }

  lemma Abc10()
    ensures Quad(3, Regs(0x21b117b9, 0x5a2f5ea5, 0x3575227e, 0x6e7429d5),
                 0x289b7ec6, 0x6b048a5b, 0xd4ef3085, 0x04881d05)
         == Regs(0x11de1779, 0x4c6124f4, 0x31c465ca, 0xfadcaa38)
  {
    QuadFrom(3, Regs(0x21b117b9, 0x5a2f5ea5, 0x3575227e, 0x6e7429d5), 0x289b7ec6, 0x6b048a5b, 0xd4ef3085, 0x04881d05,
             Regs(0x11de1779, 0x4c6124f4, 0x31c465ca, 0xfadcaa38));
  }

  lemma Abc11()
    ensures Quad(3, Regs(0x11de1779, 0x4c6124f4, 0x31c465ca, 0xfadcaa38),
                 0xd9d4d039, 0xe6db99e5, 0x1fa27cf8, 0xc4ac5665)
         == Regs(0x7f2e507b, 0x7beb9700, 0x8fae6399, 0x99d9679d)
  {
    QuadFrom(3, Regs(0x11de1779, 0x4c6124f4, 0x31c465ca, 0xfadcaa38), 0xd9d4d039, 0xe6db99e5, 0x1fa27cf8, 0xc4ac5665,
             Regs(0x7f2e507b, 0x7beb9700, 0x8fae6399, 0x99d9679d));
  }

  lemma Abc12()
    ensures Quad(4, Regs(0x7f2e507b, 0x7beb9700, 0x8fae6399, 0x99d9679d),
                 0x748c84a5, 0x432aff97, 0xab9423bf, 0xfc93a039)
         == Regs(0x7b201df8, 0x8bf025c4, 0xb298cefd, 0xf4e8e96e)
  {
    QuadFrom(4, Regs(0x7f2e507b, 0x7beb9700, 0x8fae6399, 0x99d9679d), 0x748c84a5, 0x432aff97, 0xab9423bf, 0xfc93a039,
             Regs(0x7b201df8, 0x8bf025c4, 0xb298cefd, 0xf4e8e96e));
  }

  lemma Abc13()
    ensures Quad(4, Regs(0x7b201df8, 0x8bf025c4, 0xb298cefd, 0xf4e8e96e),
                 0x655b59c3, 0x8f0ccc92, 0xffeff47d, 0x85845dd1)
         == Regs(0x06cc5e8a, 0x3bfa2c27, 0x7d632dd0, 0x5b0d97aa)
  {
    QuadFrom(4, Regs(0x7b201df8, 0x8bf025c4, 0xb298cefd, 0xf4e8e96e), 0x655b59c3, 0x8f0ccc92, 0xffeff47d, 0x85845dd1,
             Regs(0x06cc5e8a, 0x3bfa2c27, 0x7d632dd0, 0x5b0d97aa));
  }

  lemma Abc14()
    ensures Quad(4, Regs(0x06cc5e8a, 0x3bfa2c27, 0x7d632dd0, 0x5b0d97aa),
                 0x6fa87e4f, 0xfe2ce6e0, 0xa3014314, 0x4e0811a1)
         == Regs(0x7f81cc35, 0x7327d604, 0x4f9dbe3f, 0x094454ab)
  {
    QuadFrom(4, Regs(0x06cc5e8a, 0x3bfa2c27, 0x7d632dd0, 0x5b0d97aa), 0x6fa87e4f, 0xfe2ce6e0, 0xa3014314, 0x4e0811a1,
             Regs(0x7f81cc35, 0x7327d604, 0x4f9dbe3f, 0x094454ab));
  }

  lemma Abc15()
    ensures Quad(4, Regs(0x7f81cc35, 0x7327d604, 0x4f9dbe3f, 0x094454ab),
                 0xf7537e82, 0xbd3af235, 0x2ad7d2bb, 0xeb86d391)
         == Regs(0x310ade8f, 0xc08226b3, 0xe484b9d8, 0x624d8cb2)
  {
    QuadFrom(4, Regs(0x7f81cc35, 0x7327d604, 0x4f9dbe3f, 0x094454ab), 0xf7537e82, 0xbd3af235, 0x2ad7d2bb, 0xeb86d391,
             Regs(0x310ade8f, 0xc08226b3, 0xe484b9d8, 0x624d8cb2));
  }

  lemma AbcRound1(x: seq<bv32>)
    requires Holds(x, 0x80636261, 0x00000018)
    ensures Round1(Regs(0x67452301, 0xefcdab89, 0x98badcfe, 0x10325476), x) == Regs(0xdda9b9a6, 0x72aff2e0, 0xe396856b,
              0xa1051895)
  {
    hide Quad;
    Abc0();
    Abc1();
    Abc2();
    Abc3();
  }

  lemma AbcRound2(x: seq<bv32>)
    requires Holds(x, 0x80636261, 0x00000018)
    ensures Round2(Regs(0xdda9b9a6, 0x72aff2e0, 0xe396856b, 0xa1051895), x) == Regs(0x790a77fb, 0x726342d3, 0xa62884aa,
              0x9f47e4f8)
  {
    hide Quad;
    Abc4();
    Abc5();
    Abc6();
    Abc7();
  }

  lemma AbcRound3(x: seq<bv32>)
    requires Holds(x, 0x80636261, 0x00000018)
    ensures Round3(Regs(0x790a77fb, 0x726342d3, 0xa62884aa, 0x9f47e4f8), x) == Regs(0x7f2e507b, 0x7beb9700, 0x8fae6399,
              0x99d9679d)
  {
    hide Quad;
    Abc8();
    Abc9();
    Abc10();
    Abc11();
  }

  lemma AbcRound4(x: seq<bv32>)
    requires Holds(x, 0x80636261, 0x00000018)
    ensures Round4(Regs(0x7f2e507b, 0x7beb9700, 0x8fae6399, 0x99d9679d), x) == Regs(0x310ade8f, 0xc08226b3, 0xe484b9d8,
              0x624d8cb2)
  {
    hide Quad;
    Abc12();
    Abc13();
    Abc14();
    Abc15();
  }

  lemma AbcAdded()
    ensures Added(INIT, Regs(0x310ade8f, 0xc08226b3, 0xe484b9d8, 0x624d8cb2)) == Regs(0x98500190, 0xb04fd23c,
              0x7d3f96d6, 0x727fe128)
  {
  }

  lemma AbcRounds(x: seq<bv32>)
    requires Holds(x, 0x80636261, 0x00000018)
    ensures Rounds(INIT, x) == Regs(0x98500190, 0xb04fd23c, 0x7d3f96d6, 0x727fe128)
  {
    hide Round1, Round2, Round3, Round4, Added;
    AbcRound1(x);
    AbcRound2(x);
    AbcRound3(x);
    AbcRound4(x);
    AbcAdded();
  }

  lemma AbcPadded()
    ensures var p := Padded([0x61, 0x62, 0x63]);
            |p| == 64 && WordOf(p[0..4]) == 0x80636261 && WordOf(p[56..60]) == 24
            && forall i | 4 <= i < 64 && i != 56 :: p[i] == 0
  {
  }

  lemma AbcBlock()
    ensures var p := Padded([0x61, 0x62, 0x63]); |p| == 64 && Holds(Words32(BlockOf(p)), 0x80636261, 0x00000018)
  {
    hide Padded, WordOf;
    AbcPadded();
    var p := Padded([0x61, 0x62, 0x63]);
    forall i | 0 < i < 16 && i != 14 ensures WordOf(p[4 * i..4 * i + 4]) == 0 { ZeroWord(p[4 * i..4 * i + 4]); }
    FromWord();
  }

  lemma AbcOctets()
    ensures Octets(Regs(0x98500190, 0xb04fd23c, 0x7d3f96d6, 0x727fe128))
         == [0x90, 0x01, 0x50, 0x98, 0x3c, 0xd2, 0x4f, 0xb0,
             0xd6, 0x96, 0x3f, 0x7d, 0x28, 0xe1, 0x7f, 0x72]
  {
  }

  /** MD5 ("abc") = 900150983cd24fb0d6963f7d28e17f72 */
  lemma AbcAnswer()
    ensures Octets(Digest([0x61, 0x62, 0x63]))
         == [0x90, 0x01, 0x50, 0x98, 0x3c, 0xd2, 0x4f, 0xb0,
             0xd6, 0x96, 0x3f, 0x7d, 0x28, 0xe1, 0x7f, 0x72]
  {
    hide Padded, BlockOf, Rounds, Octets, Words32;
    AbcBlock();
    var p := Padded([0x61, 0x62, 0x63]);
    AbcRounds(Words32(BlockOf(p)));
    assert p[..64] == p && p[64..] == [];
    assert Fold(Transform, INIT, p) == Transform(INIT, BlockOf(p));
    AbcOctets();
  }

  lemma ZeroWord(b: seq<Byte>)
    requires |b| == 4 && forall i | 0 <= i < 4 :: b[i] == 0
    ensures WordOf(b) == 0
  {
  }

  lemma FromWord()
    ensures Bits32(0) == 0 && Bits32(0x80) == 0x80 && Bits32(0x80636261) == 0x80636261 && Bits32(24) == 24
  {
  }
}
