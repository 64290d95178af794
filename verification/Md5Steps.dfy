/** The block function of MD5 as section 3.4 of RFC 1321 gives it: sixty-four like steps. */
module Md5Steps {
  import opened Md5

  /** T[1] to T[64] of the RFC, four to a row: the integer parts of 4294967296 times the absolute values of
      sin(1) to sin(64). */
  const TABLE: seq<seq<bv32>> := [
    [0xd76aa478, 0xe8c7b756, 0x242070db, 0xc1bdceee],
    [0xf57c0faf, 0x4787c62a, 0xa8304613, 0xfd469501],
    [0x698098d8, 0x8b44f7af, 0xffff5bb1, 0x895cd7be],
    [0x6b901122, 0xfd987193, 0xa679438e, 0x49b40821],
    [0xf61e2562, 0xc040b340, 0x265e5a51, 0xe9b6c7aa],
    [0xd62f105d, 0x02441453, 0xd8a1e681, 0xe7d3fbc8],
    [0x21e1cde6, 0xc33707d6, 0xf4d50d87, 0x455a14ed],
    [0xa9e3e905, 0xfcefa3f8, 0x676f02d9, 0x8d2a4c8a],
    [0xfffa3942, 0x8771f681, 0x6d9d6122, 0xfde5380c],
    [0xa4beea44, 0x4bdecfa9, 0xf6bb4b60, 0xbebfbc70],
    [0x289b7ec6, 0xeaa127fa, 0xd4ef3085, 0x04881d05],
    [0xd9d4d039, 0xe6db99e5, 0x1fa27cf8, 0xc4ac5665],
    [0xf4292244, 0x432aff97, 0xab9423a7, 0xfc93a039],
    [0x655b59c3, 0x8f0ccc92, 0xffeff47d, 0x85845dd1],
    [0x6fa87e4f, 0xfe2ce6e0, 0xa3014314, 0x4e0811a1],
    [0xf7537e82, 0xbd3af235, 0x2ad7d2bb, 0xeb86d391]
  ]

  function T(i: nat): bv32
    requires i < 64
  {
    TABLE[i / 4][i % 4]
  }

  function F(x: bv32, y: bv32, z: bv32): bv32 { (x & y) | (!x & z) }
  function G(x: bv32, y: bv32, z: bv32): bv32 { (x & z) | (y & !z) }
  function H(x: bv32, y: bv32, z: bv32): bv32 { x ^ y ^ z }
  function I(x: bv32, y: bv32, z: bv32): bv32 { y ^ (x | !z) }

  function Logic(round: nat, x: bv32, y: bv32, z: bv32): bv32 {
    if round == 0 then F(x, y, z) else if round == 1 then G(x, y, z) else if round == 2 then H(x, y, z) else I(x, y, z)
  }

  /** The word that step i uses. */
  function WordAt(i: nat): (k: nat)
    ensures k < 16
  {
    (if i < 16 then i else if i < 32 then 5 * i + 1 else if i < 48 then 3 * i + 5 else 7 * i) % 16
  }

  const AMOUNTS: seq<seq<nat>> := [[7, 12, 17, 22], [5, 9, 14, 20], [4, 11, 16, 23], [6, 10, 15, 21]]

  /** The rotation of step i. */
  function Amount(i: nat): (s: nat)
    requires i < 64
    ensures 0 < s < 32
  {
    AMOUNTS[i / 16][i % 4]
  }

  function Term(i: nat, x: seq<bv32>): bv32
    requires i < 64 && |x| == 16
  {
    x[WordAt(i)] + T(i)
  }

  /** (a + f + term) <<< s, and b added. */
  function Turned(a: bv32, f: bv32, term: bv32, s: nat, b: bv32): bv32
    requires 0 < s < 32
  {
    (a + f + term).RotateLeft(s) + b
  }

  /** Step i: a becomes b + ((a + f(b, c, d) + X[k] + T[i]) <<< s), and the registers change roles. */
  function OneStep(i: nat, q: Regs, x: seq<bv32>): Regs
    requires i < 64 && |x| == 16
  {
    Regs(q.d, Turned(q.a, Logic(i / 16, q.b, q.c, q.d), Term(i, x), Amount(i), q.b), q.b, q.c)
  }

  function Steps(n: nat, q: Regs, x: seq<bv32>): Regs
    requires n <= 64 && |x| == 16
  {
    if n == 0 then q else OneStep(n - 1, Steps(n - 1, q, x), x)
  }

  // ===== one step of the code =====

  lemma PlainF(x: bv32, y: bv32, z: bv32)
    ensures z ^ (x & (y ^ z)) == (x & y) | (!x & z)
  {
  }

  lemma SameF(x: bv32, y: bv32, z: bv32)
    ensures F1(x, y, z) == F(x, y, z)
  {
    PlainF(x, y, z);
  }

  lemma PlainG(x: bv32, y: bv32, z: bv32)
    ensures y ^ (z & (x ^ y)) == (x & z) | (y & !z)
  {
  }

  lemma SameG(x: bv32, y: bv32, z: bv32)
    ensures F2(x, y, z) == G(x, y, z)
  {
    PlainG(x, y, z);
  }

  lemma SameH(x: bv32, y: bv32, z: bv32)
    ensures F3(x, y, z) == H(x, y, z)
  {
  }

  lemma SameI(x: bv32, y: bv32, z: bv32)
    ensures F4(x, y, z) == I(x, y, z)
  {
  }

  /** The functions as the code has them. */
  lemma SameLogic(f: nat, x: bv32, y: bv32, z: bv32)
    requires 1 <= f <= 4
    ensures Mix(f, x, y, z) == Logic(f - 1, x, y, z)
  {
    hide F, G, H, I, F1, F2, F3, F4;
    SameF(x, y, z);
    SameG(x, y, z);
    SameH(x, y, z);
    SameI(x, y, z);
  }

  lemma StepTurns(f: nat, w: bv32, x: bv32, y: bv32, z: bv32, term: bv32, s: nat)
    requires 0 < s < 32
    ensures Step(f, w, x, y, z, term, s) == Turned(w, Mix(f, x, y, z), term, s, x)
  {
    hide Mix;
  }

  lemma Place(j: nat, k: nat)
    requires j < 16 && k < 4
    ensures (4 * j + k) / 16 == j / 4 && (4 * j + k) % 4 == k && 4 * j + k < 64
  {
  }

  /** The rotations as the code has them. */
  lemma SameAmount(j: nat, k: nat)
    requires j < 16 && k < 4
    ensures 4 * j + k < 64 && Shift(j / 4 + 1, k) == Amount(4 * j + k)
  {
    Place(j, k);
  }

  /** A step of the code, in whichever place its registers are. */
  lemma SameStep(j: nat, k: nat, q: Regs, x: seq<bv32>)
    requires j < 16 && k < 4 && |x| == 16
    ensures var f := j / 4 + 1;
            OneStep(4 * j + k, q, x)
              == Regs(q.d, Step(f, q.a, q.b, q.c, q.d, Term(4 * j + k, x), Shift(f, k)), q.b, q.c)
  {
    hide Step, Term, Amount, Shift, Mix, Logic, Turned;
    Place(j, k);
    SameAmount(j, k);
    SameLogic(j / 4 + 1, q.b, q.c, q.d);
    StepTurns(j / 4 + 1, q.a, q.b, q.c, q.d, Term(4 * j + k, x), Shift(j / 4 + 1, k));
  }

  // ===== all of them =====

  /** Four steps, after which the registers are back in their places. */
  lemma SameQuad(j: nat, q: Regs, x: seq<bv32>)
    requires j < 16 && |x| == 16
    ensures Quad(j / 4 + 1, q, Term(4 * j, x), Term(4 * j + 1, x), Term(4 * j + 2, x), Term(4 * j + 3, x))
         == OneStep(4 * j + 3, OneStep(4 * j + 2, OneStep(4 * j + 1, OneStep(4 * j, q, x), x), x), x)
  {
    hide Step, OneStep, Term, Shift;
    var q1 := OneStep(4 * j, q, x);
    var q2 := OneStep(4 * j + 1, q1, x);
    var q3 := OneStep(4 * j + 2, q2, x);
    SameStep(j, 0, q, x);
    SameStep(j, 1, q1, x);
    SameStep(j, 2, q2, x);
    SameStep(j, 3, q3, x);
  }

  lemma FourSteps(j: nat, q: Regs, x: seq<bv32>)
    requires j < 16 && |x| == 16
    ensures Steps(4 * j + 4, q, x)
         == Quad(j / 4 + 1, Steps(4 * j, q, x), Term(4 * j, x), Term(4 * j + 1, x), Term(4 * j + 2, x),
             Term(4 * j + 3, x))
  {
    hide OneStep, Quad, Term;
    SameQuad(j, Steps(4 * j, q, x), x);
    assert Steps(4 * j + 1, q, x) == OneStep(4 * j, Steps(4 * j, q, x), x);
    assert Steps(4 * j + 2, q, x) == OneStep(4 * j + 1, Steps(4 * j + 1, q, x), x);
    assert Steps(4 * j + 3, q, x) == OneStep(4 * j + 2, Steps(4 * j + 2, q, x), x);
  }

  // The words and constants that the code writes out.

  lemma Words1()
    ensures WordAt(0) == 0 && WordAt(1) == 1 && WordAt(2) == 2 && WordAt(3) == 3
    ensures WordAt(4) == 4 && WordAt(5) == 5 && WordAt(6) == 6 && WordAt(7) == 7
    ensures WordAt(8) == 8 && WordAt(9) == 9 && WordAt(10) == 10 && WordAt(11) == 11
    ensures WordAt(12) == 12 && WordAt(13) == 13 && WordAt(14) == 14 && WordAt(15) == 15
  {
  }

  lemma Constants1()
    ensures T(0) == 0xd76aa478 && T(1) == 0xe8c7b756 && T(2) == 0x242070db && T(3) == 0xc1bdceee
    ensures T(4) == 0xf57c0faf && T(5) == 0x4787c62a && T(6) == 0xa8304613 && T(7) == 0xfd469501
    ensures T(8) == 0x698098d8 && T(9) == 0x8b44f7af && T(10) == 0xffff5bb1 && T(11) == 0x895cd7be
    ensures T(12) == 0x6b901122 && T(13) == 0xfd987193 && T(14) == 0xa679438e && T(15) == 0x49b40821
  {
  }

  lemma Words2()
    ensures WordAt(16) == 1 && WordAt(17) == 6 && WordAt(18) == 11 && WordAt(19) == 0
    ensures WordAt(20) == 5 && WordAt(21) == 10 && WordAt(22) == 15 && WordAt(23) == 4
    ensures WordAt(24) == 9 && WordAt(25) == 14 && WordAt(26) == 3 && WordAt(27) == 8
    ensures WordAt(28) == 13 && WordAt(29) == 2 && WordAt(30) == 7 && WordAt(31) == 12
  {
  }

  lemma Constants2()
    ensures T(16) == 0xf61e2562 && T(17) == 0xc040b340 && T(18) == 0x265e5a51 && T(19) == 0xe9b6c7aa
    ensures T(20) == 0xd62f105d && T(21) == 0x02441453 && T(22) == 0xd8a1e681 && T(23) == 0xe7d3fbc8
    ensures T(24) == 0x21e1cde6 && T(25) == 0xc33707d6 && T(26) == 0xf4d50d87 && T(27) == 0x455a14ed
    ensures T(28) == 0xa9e3e905 && T(29) == 0xfcefa3f8 && T(30) == 0x676f02d9 && T(31) == 0x8d2a4c8a
  {
  }

  lemma Words3()
    ensures WordAt(32) == 5 && WordAt(33) == 8 && WordAt(34) == 11 && WordAt(35) == 14
    ensures WordAt(36) == 1 && WordAt(37) == 4 && WordAt(38) == 7 && WordAt(39) == 10
    ensures WordAt(40) == 13 && WordAt(41) == 0 && WordAt(42) == 3 && WordAt(43) == 6
    ensures WordAt(44) == 9 && WordAt(45) == 12 && WordAt(46) == 15 && WordAt(47) == 2
  {
  }

  lemma Constants3()
    ensures T(32) == 0xfffa3942 && T(33) == 0x8771f681 && T(34) == 0x6d9d6122 && T(35) == 0xfde5380c
    ensures T(36) == 0xa4beea44 && T(37) == 0x4bdecfa9 && T(38) == 0xf6bb4b60 && T(39) == 0xbebfbc70
    ensures T(40) == 0x289b7ec6 && T(41) == 0xeaa127fa && T(42) == 0xd4ef3085 && T(43) == 0x04881d05
    ensures T(44) == 0xd9d4d039 && T(45) == 0xe6db99e5 && T(46) == 0x1fa27cf8 && T(47) == 0xc4ac5665
  {
  }

  lemma Words4()
    ensures WordAt(48) == 0 && WordAt(49) == 7 && WordAt(50) == 14 && WordAt(51) == 5
    ensures WordAt(52) == 12 && WordAt(53) == 3 && WordAt(54) == 10 && WordAt(55) == 1
    ensures WordAt(56) == 8 && WordAt(57) == 15 && WordAt(58) == 6 && WordAt(59) == 13
    ensures WordAt(60) == 4 && WordAt(61) == 11 && WordAt(62) == 2 && WordAt(63) == 9
  {
  }

  lemma Constants4()
    ensures T(48) == 0xf4292244 && T(49) == 0x432aff97 && T(50) == 0xab9423a7 && T(51) == 0xfc93a039
    ensures T(52) == 0x655b59c3 && T(53) == 0x8f0ccc92 && T(54) == 0xffeff47d && T(55) == 0x85845dd1
    ensures T(56) == 0x6fa87e4f && T(57) == 0xfe2ce6e0 && T(58) == 0xa3014314 && T(59) == 0x4e0811a1
    ensures T(60) == 0xf7537e82 && T(61) == 0xbd3af235 && T(62) == 0x2ad7d2bb && T(63) == 0xeb86d391
  {
  }

  lemma Terms1(x: seq<bv32>)
    requires |x| == 16
    ensures Term(0, x) == x[0] + 0xd76aa478 && Term(1, x) == x[1] + 0xe8c7b756
    ensures Term(2, x) == x[2] + 0x242070db && Term(3, x) == x[3] + 0xc1bdceee
    ensures Term(4, x) == x[4] + 0xf57c0faf && Term(5, x) == x[5] + 0x4787c62a
    ensures Term(6, x) == x[6] + 0xa8304613 && Term(7, x) == x[7] + 0xfd469501
    ensures Term(8, x) == x[8] + 0x698098d8 && Term(9, x) == x[9] + 0x8b44f7af
    ensures Term(10, x) == x[10] + 0xffff5bb1 && Term(11, x) == x[11] + 0x895cd7be
    ensures Term(12, x) == x[12] + 0x6b901122 && Term(13, x) == x[13] + 0xfd987193
    ensures Term(14, x) == x[14] + 0xa679438e && Term(15, x) == x[15] + 0x49b40821
  {
    hide WordAt, T;
    Words1();
    Constants1();
  }

  lemma Terms2(x: seq<bv32>)
    requires |x| == 16
    ensures Term(16, x) == x[1] + 0xf61e2562 && Term(17, x) == x[6] + 0xc040b340
    ensures Term(18, x) == x[11] + 0x265e5a51 && Term(19, x) == x[0] + 0xe9b6c7aa
    ensures Term(20, x) == x[5] + 0xd62f105d && Term(21, x) == x[10] + 0x02441453
    ensures Term(22, x) == x[15] + 0xd8a1e681 && Term(23, x) == x[4] + 0xe7d3fbc8
    ensures Term(24, x) == x[9] + 0x21e1cde6 && Term(25, x) == x[14] + 0xc33707d6
    ensures Term(26, x) == x[3] + 0xf4d50d87 && Term(27, x) == x[8] + 0x455a14ed
    ensures Term(28, x) == x[13] + 0xa9e3e905 && Term(29, x) == x[2] + 0xfcefa3f8
    ensures Term(30, x) == x[7] + 0x676f02d9 && Term(31, x) == x[12] + 0x8d2a4c8a
  {
    hide WordAt, T;
    Words2();
    Constants2();
  }

  lemma Terms3(x: seq<bv32>)
    requires |x| == 16
    ensures Term(32, x) == x[5] + 0xfffa3942 && Term(33, x) == x[8] + 0x8771f681
    ensures Term(34, x) == x[11] + 0x6d9d6122 && Term(35, x) == x[14] + 0xfde5380c
    ensures Term(36, x) == x[1] + 0xa4beea44 && Term(37, x) == x[4] + 0x4bdecfa9
    ensures Term(38, x) == x[7] + 0xf6bb4b60 && Term(39, x) == x[10] + 0xbebfbc70
    ensures Term(40, x) == x[13] + 0x289b7ec6 && Term(41, x) == x[0] + 0xeaa127fa
    ensures Term(42, x) == x[3] + 0xd4ef3085 && Term(43, x) == x[6] + 0x04881d05
    ensures Term(44, x) == x[9] + 0xd9d4d039 && Term(45, x) == x[12] + 0xe6db99e5
    ensures Term(46, x) == x[15] + 0x1fa27cf8 && Term(47, x) == x[2] + 0xc4ac5665
  {
    hide WordAt, T;
    Words3();
    Constants3();
  }

  lemma Terms4(x: seq<bv32>)
    requires |x| == 16
    ensures Term(48, x) == x[0] + 0xf4292244 && Term(49, x) == x[7] + 0x432aff97
    ensures Term(50, x) == x[14] + 0xab9423a7 && Term(51, x) == x[5] + 0xfc93a039
    ensures Term(52, x) == x[12] + 0x655b59c3 && Term(53, x) == x[3] + 0x8f0ccc92
    ensures Term(54, x) == x[10] + 0xffeff47d && Term(55, x) == x[1] + 0x85845dd1
    ensures Term(56, x) == x[8] + 0x6fa87e4f && Term(57, x) == x[15] + 0xfe2ce6e0
    ensures Term(58, x) == x[6] + 0xa3014314 && Term(59, x) == x[13] + 0x4e0811a1
    ensures Term(60, x) == x[4] + 0xf7537e82 && Term(61, x) == x[11] + 0xbd3af235
    ensures Term(62, x) == x[2] + 0x2ad7d2bb && Term(63, x) == x[9] + 0xeb86d391
  {
    hide WordAt, T;
    Words4();
    Constants4();
  }

  lemma Round1IsSteps(q: Regs, x: seq<bv32>)
    requires |x| == 16
    ensures Round1(Steps(0, q, x), x) == Steps(16, q, x)
  {
    hide Quad, Steps, Term;
    Terms1(x);
    FourSteps(0, q, x);
    FourSteps(1, q, x);
    FourSteps(2, q, x);
    FourSteps(3, q, x);
  }

  lemma Round2IsSteps(q: Regs, x: seq<bv32>)
    requires |x| == 16
    ensures Round2(Steps(16, q, x), x) == Steps(32, q, x)
  {
    hide Quad, Steps, Term;
    Terms2(x);
    FourSteps(4, q, x);
    FourSteps(5, q, x);
    FourSteps(6, q, x);
    FourSteps(7, q, x);
  }

  lemma Round3IsSteps(q: Regs, x: seq<bv32>)
    requires |x| == 16
    ensures Round3(Steps(32, q, x), x) == Steps(48, q, x)
  {
    hide Quad, Steps, Term;
    Terms3(x);
    FourSteps(8, q, x);
    FourSteps(9, q, x);
    FourSteps(10, q, x);
    FourSteps(11, q, x);
  }

  lemma Round4IsSteps(q: Regs, x: seq<bv32>)
    requires |x| == 16
    ensures Round4(Steps(48, q, x), x) == Steps(64, q, x)
  {
    hide Quad, Steps, Term;
    Terms4(x);
    FourSteps(12, q, x);
    FourSteps(13, q, x);
    FourSteps(14, q, x);
    FourSteps(15, q, x);
  }

  /** The block function is these steps, and the registers added to what they were. */
  lemma TransformIsSteps(q: Regs, block: Block)
    ensures Transform(q, block) == Added(q, Steps(64, q, Words32(block)))
  {
    hide Rounds, Steps, Words32, Added;
    RoundsAreSteps(q, Words32(block));
  }

  /** The rounds of the code are these steps, with the words and constants in this order. */
  lemma RoundsAreSteps(q: Regs, x: seq<bv32>)
    requires |x| == 16
    ensures Rounds(q, x) == Added(q, Steps(64, q, x))
  {
    hide Steps, Round1, Round2, Round3, Round4, Added;
    NoSteps(q, x);
    Round1IsSteps(q, x);
    Round2IsSteps(q, x);
    Round3IsSteps(q, x);
    Round4IsSteps(q, x);
  }

  lemma NoSteps(q: Regs, x: seq<bv32>)
    requires |x| == 16
    ensures Steps(0, q, x) == q
  {
  }
}
