/** The MD5 message digest, computed piece by piece. */
module Md5 {

  const WORD := 0x1_0000_0000
  const LONG := 0x1_0000_0000_0000_0000

  type Byte = b: int | 0 <= b < 256
  type Word = w: int | 0 <= w < WORD
  type Block = b: seq<Word> | |b| == 16 witness [0, 0, 0, 0, 0, 0, 0, 0, 0, 0, 0, 0, 0, 0, 0, 0]

  // ===== the block function =====

  datatype Regs = Regs(a: bv32, b: bv32, c: bv32, d: bv32)

  function F1(x: bv32, y: bv32, z: bv32): bv32 { z ^ (x & (y ^ z)) }
  function F2(x: bv32, y: bv32, z: bv32): bv32 { F1(z, x, y) }
  function F3(x: bv32, y: bv32, z: bv32): bv32 { x ^ y ^ z }
  function F4(x: bv32, y: bv32, z: bv32): bv32 { y ^ (x | !z) }

  function Mix(f: nat, x: bv32, y: bv32, z: bv32): bv32 {
    if f == 1 then F1(x, y, z) else if f == 2 then F2(x, y, z) else if f == 3 then F3(x, y, z) else F4(x, y, z)
  }

  /** MD5STEP: w is added to, rotated and added to again. */
  function Step(f: nat, w: bv32, x: bv32, y: bv32, z: bv32, term: bv32, s: nat): bv32
    requires 0 < s < 32
  {
    (w + Mix(f, x, y, z) + term).RotateLeft(s) + x
  }

  function Shift(f: nat, i: nat): (s: nat)
    ensures 0 < s < 32
  {
    if f == 1 then (if i == 0 then 7 else if i == 1 then 12 else if i == 2 then 17 else 22)
    else if f == 2 then (if i == 0 then 5 else if i == 1 then 9 else if i == 2 then 14 else 20)
    else if f == 3 then (if i == 0 then 4 else if i == 1 then 11 else if i == 2 then 16 else 23)
    else (if i == 0 then 6 else if i == 1 then 10 else if i == 2 then 15 else 21)
  }

  /** Four steps, which update a, d, c and b in turn. */
  function Quad(f: nat, q: Regs, t0: bv32, t1: bv32, t2: bv32, t3: bv32): Regs {
    var a := Step(f, q.a, q.b, q.c, q.d, t0, Shift(f, 0));
    var d := Step(f, q.d, a, q.b, q.c, t1, Shift(f, 1));
    var c := Step(f, q.c, d, a, q.b, t2, Shift(f, 2));
    var b := Step(f, q.b, c, d, a, t3, Shift(f, 3));
    Regs(a, b, c, d)
  }

  function Round1(q: Regs, x: seq<bv32>): Regs
    requires |x| == 16
  {
    var q1 := Quad(1, q, x[0] + 0xd76aa478, x[1] + 0xe8c7b756, x[2] + 0x242070db, x[3] + 0xc1bdceee);
    var q2 := Quad(1, q1, x[4] + 0xf57c0faf, x[5] + 0x4787c62a, x[6] + 0xa8304613, x[7] + 0xfd469501);
    var q3 := Quad(1, q2, x[8] + 0x698098d8, x[9] + 0x8b44f7af, x[10] + 0xffff5bb1, x[11] + 0x895cd7be);
    Quad(1, q3, x[12] + 0x6b901122, x[13] + 0xfd987193, x[14] + 0xa679438e, x[15] + 0x49b40821)
  }

  function Round2(q: Regs, x: seq<bv32>): Regs
    requires |x| == 16
  {
    var q1 := Quad(2, q, x[1] + 0xf61e2562, x[6] + 0xc040b340, x[11] + 0x265e5a51, x[0] + 0xe9b6c7aa);
    var q2 := Quad(2, q1, x[5] + 0xd62f105d, x[10] + 0x02441453, x[15] + 0xd8a1e681, x[4] + 0xe7d3fbc8);
    var q3 := Quad(2, q2, x[9] + 0x21e1cde6, x[14] + 0xc33707d6, x[3] + 0xf4d50d87, x[8] + 0x455a14ed);
    Quad(2, q3, x[13] + 0xa9e3e905, x[2] + 0xfcefa3f8, x[7] + 0x676f02d9, x[12] + 0x8d2a4c8a)
  }

  function Round3(q: Regs, x: seq<bv32>): Regs
    requires |x| == 16
  {
    var q1 := Quad(3, q, x[5] + 0xfffa3942, x[8] + 0x8771f681, x[11] + 0x6d9d6122, x[14] + 0xfde5380c);
    var q2 := Quad(3, q1, x[1] + 0xa4beea44, x[4] + 0x4bdecfa9, x[7] + 0xf6bb4b60, x[10] + 0xbebfbc70);
    var q3 := Quad(3, q2, x[13] + 0x289b7ec6, x[0] + 0xeaa127fa, x[3] + 0xd4ef3085, x[6] + 0x04881d05);
    Quad(3, q3, x[9] + 0xd9d4d039, x[12] + 0xe6db99e5, x[15] + 0x1fa27cf8, x[2] + 0xc4ac5665)
  }

  function Round4(q: Regs, x: seq<bv32>): Regs
    requires |x| == 16
  {
    var q1 := Quad(4, q, x[0] + 0xf4292244, x[7] + 0x432aff97, x[14] + 0xab9423a7, x[5] + 0xfc93a039);
    var q2 := Quad(4, q1, x[12] + 0x655b59c3, x[3] + 0x8f0ccc92, x[10] + 0xffeff47d, x[1] + 0x85845dd1);
    var q3 := Quad(4, q2, x[8] + 0x6fa87e4f, x[15] + 0xfe2ce6e0, x[6] + 0xa3014314, x[13] + 0x4e0811a1);
    Quad(4, q3, x[4] + 0xf7537e82, x[11] + 0xbd3af235, x[2] + 0x2ad7d2bb, x[9] + 0xeb86d391)
  }

  function Rounds(q0: Regs, x: seq<bv32>): Regs
    requires |x| == 16
  {
    Added(q0, Round4(Round3(Round2(Round1(q0, x), x), x), x))
  }

  function Added(q: Regs, r: Regs): Regs { Regs(q.a + r.a, q.b + r.b, q.c + r.c, q.d + r.d) }

  function Bits32(w: Word): bv32 { w as bv32 }

  function Words32(block: Block): (x: seq<bv32>)
    ensures |x| == 16 && forall i | 0 <= i < 16 :: x[i] == Bits32(block[i])
  {
    seq(16, i requires 0 <= i < 16 => Bits32(block[i]))
  }

  /** SQUID_MD5Transform */
  function Transform(buf: Regs, block: Block): Regs {
    Rounds(buf, Words32(block))
  }

  const INIT := Regs(0x67452301, 0xefcdab89, 0x98badcfe, 0x10325476)

  // ===== bytes and words =====

  /** Four bytes, the least significant first. */
  function WordOf(b: seq<Byte>): Word
    requires |b| == 4
  {
    var b0: int, b1: int, b2: int, b3: int := b[0], b[1], b[2], b[3];
    b0 + 0x100 * b1 + 0x1_0000 * b2 + 0x100_0000 * b3
  }

  function BytesOf(w: Word): (b: seq<Byte>)
    ensures |b| == 4
  {
    [w % 0x100, w / 0x100 % 0x100, w / 0x1_0000 % 0x100, w / 0x100_0000]
  }

  lemma WordOfBytes(w: Word)
    ensures WordOf(BytesOf(w)) == w
  {
    assert w / 0x1_0000 == w / 0x100 / 0x100 && w / 0x100_0000 == w / 0x1_0000 / 0x100;
  }

  /** A block of bytes as the sixteen words in memory. */
  function BlockOf(b: seq<Byte>): Block
    requires |b| == 64
  {
    seq(16, i requires 0 <= i < 16 => WordOf(b[4 * i..4 * i + 4]))
  }

  // ===== the digest as RFC 1321 defines it, for any block function =====

  type BlockFunction = (Regs, Block) -> Regs

  /** The block function over a whole number of blocks. */
  function Fold(f: BlockFunction, c: Regs, m: seq<Byte>): Regs
    requires |m| % 64 == 0
    decreases |m|
  {
    if m == [] then c else Fold(f, f(c, BlockOf(m[..64])), m[64..])
  }

  function Zeros(n: nat): (z: seq<Byte>)
    ensures |z| == n
  {
    seq(n, i => 0)
  }

  /** How many zero bytes bring a message and its 0x80 to 56 modulo 64. */
  function ZeroCount(n: nat): (z: nat)
    ensures z < 64 && (n + 1 + z) % 64 == 56
  {
    var c := n % 64;
    var z := if c <= 55 then 55 - c else 119 - c;
    RestIs(n + 1 + z, n / 64 + (if c <= 55 then 0 else 1), 56);
    z
  }

  lemma RestIs(x: nat, q: nat, r: nat)
    requires x == 64 * q + r && r < 64
    ensures x % 64 == r && x / 64 == q
  {
  }

  /** The low 64 bits of the length in bits, least significant byte first. */
  function LengthBytes(n: nat): (b: seq<Byte>)
    ensures |b| == 8
  {
    var bits := 8 * n % LONG;
    BytesOf(bits % WORD) + BytesOf(bits / WORD)
  }

  /** Sections 3.1 and 3.2 of RFC 1321. */
  function Padded(m: seq<Byte>): (p: seq<Byte>)
    ensures |p| % 64 == 0
  {
    RestIs(|m| + 1 + ZeroCount(|m|) + 8, (|m| + 1 + ZeroCount(|m|)) / 64 + 1, 0);
    m + [0x80] + Zeros(ZeroCount(|m|)) + LengthBytes(|m|)
  }

  /** The digest of a message, as registers. */
  function Digest(m: seq<Byte>): Regs { Fold(Transform, INIT, Padded(m)) }

  /** A register as four octets, the low one first. */
  function LowFirst(x: bv32): (o: seq<bv8>)
    ensures |o| == 4
  {
    [(x & 0xFF) as bv8, ((x >> 8) & 0xFF) as bv8, ((x >> 16) & 0xFF) as bv8, ((x >> 24) & 0xFF) as bv8]
  }

  /** The output of section 3.5 of RFC 1321: the octets of the registers a, b, c, d. */
  function Octets(r: Regs): (o: seq<bv8>)
    ensures |o| == 16
  {
    LowFirst(r.a) + (LowFirst(r.b) + (LowFirst(r.c) + LowFirst(r.d)))
  }

  /** The octets tell the register. */
  lemma LowFirstTells(x: bv32)
    ensures var o := LowFirst(x);
            x == (o[3] as bv32 << 24) | (o[2] as bv32 << 16) | (o[1] as bv32 << 8) | o[0] as bv32
  {
  }

  /** The digest's sixteen octets tell all four registers. */
  lemma OctetsTell(r: Regs, s: Regs)
    requires Octets(r) == Octets(s)
    ensures r == s
  {
    hide LowFirst;
    SameParts(LowFirst(r.a), LowFirst(r.b) + (LowFirst(r.c) + LowFirst(r.d)),
              LowFirst(s.a), LowFirst(s.b) + (LowFirst(s.c) + LowFirst(s.d)));
    SameParts(LowFirst(r.b), LowFirst(r.c) + LowFirst(r.d), LowFirst(s.b), LowFirst(s.c) + LowFirst(s.d));
    SameParts(LowFirst(r.c), LowFirst(r.d), LowFirst(s.c), LowFirst(s.d));
    SameOctets(r.a, s.a);
    SameOctets(r.b, s.b);
    SameOctets(r.c, s.c);
    SameOctets(r.d, s.d);
  }

  lemma SameParts(a: seq<bv8>, b: seq<bv8>, c: seq<bv8>, d: seq<bv8>)
    requires |a| == |c| && a + b == c + d
    ensures a == c && b == d
  {
    assert a == (a + b)[..|a|] == (c + d)[..|a|] == c;
    assert b == (a + b)[|a|..] == (c + d)[|a|..] == d;
  }

  lemma SameOctets(x: bv32, y: bv32)
    ensures LowFirst(x) == LowFirst(y) ==> x == y
  {
    LowFirstTells(x);
    LowFirstTells(y);
  }

  lemma {:induction false} FoldAppend(f: BlockFunction, c: Regs, a: seq<Byte>, b: seq<Byte>)
    requires |a| % 64 == 0 && |b| % 64 == 0
    ensures Fold(f, c, a + b) == Fold(f, Fold(f, c, a), b)
    decreases |a|
  {
    if a == [] {
      assert a + b == b;
    } else {
      assert (a + b)[..64] == a[..64] && (a + b)[64..] == a[64..] + b;
      FoldAppend(f, f(c, BlockOf(a[..64])), a[64..], b);
    }
  }

  /** One more block. */
  lemma FoldOne(f: BlockFunction, c: Regs, a: seq<Byte>, b: seq<Byte>)
    requires |a| % 64 == 0 && |b| == 64
    ensures Fold(f, c, a + b) == f(Fold(f, c, a), BlockOf(b))
  {
    FoldAppend(f, c, a, b);
    assert b[..64] == b && b[64..] == [];
  }

  /** The part of a message that fills whole blocks. */
  function WholePart(n: nat): (w: nat)
    ensures w % 64 == 0 && n - 64 < w <= n && n - w == n % 64
  {
    n / 64 * 64
  }

  // ===== the running computation =====

  class Context {
    var buf: Regs
    var bytes0: Word
    var bytes1: Word
    const input: array<Byte>
    ghost var msg: seq<Byte>       // all bytes given so far
    ghost var wraps: nat           // how often the 64-bit byte count has wrapped around

    /** buf has absorbed the whole blocks of the message, input holds the rest, the byte count has its length. */
    ghost predicate Absorbed(m: seq<Byte>)
      reads this`buf, input
    {
      && input.Length == 64
      && Done(m[..WholePart(|m|)])
      && input[..|m| % 64] == m[WholePart(|m|)..]
    }

    /** buf has absorbed whole blocks m. */
    ghost predicate Done(m: seq<Byte>)
      reads this`buf
    {
      |m| % 64 == 0 && buf == Fold(Transform, INIT, m)
    }

    ghost predicate Counted(n: nat)
      reads this`bytes0, this`bytes1, this`wraps
    {
      bytes0 + WORD * bytes1 + LONG * wraps == n
    }

    ghost predicate Valid()
      reads this, input
    {
      Absorbed(msg) && Counted(|msg|)
    }

    /** SQUID_MD5Init */
    constructor ()
      ensures Valid() && msg == [] && fresh(input)
    {
      buf := INIT;
      bytes0, bytes1, msg, wraps := 0, 0, [], 0;
      input := new Byte[64];
    }

    method Count(len: nat, ghost n: nat)
      requires len < WORD && Counted(n)
      modifies this`bytes0, this`bytes1, this`wraps
      ensures Counted(n + len) && old(bytes0) % 64 == n % 64
    {
      SameRest(bytes0, bytes1, wraps, n);
      var t: int := bytes0;
      bytes0 := (t + len) % WORD;
      assert bytes0 == if t + len < WORD then t + len else t + len - WORD;
      if bytes0 < t {
        if bytes1 + 1 == WORD { wraps := wraps + 1; }
        bytes1 := (bytes1 + 1) % WORD;
      }
    }

    /** memcpy into the input buffer. */
    method CopyIn(off: nat, data: seq<Byte>)
      requires input.Length == 64 && off + |data| <= 64
      modifies input
      ensures input[..] == old(input[..off]) + data + old(input[off + |data|..])
    {
      var i := 0;
      while i < |data|
        invariant 0 <= i <= |data|
        invariant input[..] == old(input[..off]) + data[..i] + old(input[off + i..])
      {
        input[off + i] := data[i];
        assert input[..] == old(input[..off]) + data[..i + 1] + old(input[off + (i + 1)..]);
        i := i + 1;
      }
      assert data[..i] == data;
    }

    /** The block in input is absorbed: it ends the message m. */
    method Absorb(ghost m: seq<Byte>)
      requires input.Length == 64 && |m| >= 64 && |m| % 64 == 0 && m[|m| - 64..] == input[..]
      requires Done(m[..|m| - 64])
      modifies this`buf
      ensures Done(m)
    {
      hide Transform, BlockOf;
      assert m == m[..|m| - 64] + input[..];
      FoldOne(Transform, INIT, m[..|m| - 64], input[..]);
      buf := Transform(buf, BlockOf(input[..]));
    }

    /** The data fits into the input buffer. */
    method Keep(data: seq<Byte>, t: nat, ghost m: seq<Byte>)
      requires Absorbed(m) && t == 64 - |m| % 64 && t > |data|
      modifies input
      ensures Absorbed(m + data)
    {
      hide Done;
      ghost var before := input[..];
      CopyIn(64 - t, data);
      Short(m, data, before, input[..]);
    }

    /** The data fills the block that was begun. */
    method Fill(data: seq<Byte>, t: nat, ghost m: seq<Byte>)
      requires Absorbed(m) && t == 64 - |m| % 64 && t <= |data| && (|m| + t) % 64 == 0
      modifies this`buf, input
      ensures Done((m + data)[..|m| + t]) && input.Length == 64
    {
      hide Done;
      ghost var before := input[..];
      CopyIn(64 - t, data[..t]);
      Filled(m, data, t, before, input[..]);
      Absorb((m + data)[..|m| + t]);
    }

    /** Whole blocks of the data, and then the rest of it. */
    method Blocks(data: seq<Byte>, t: nat, ghost m: seq<Byte>)
      requires input.Length == 64 && t <= |data| && (|m| + t) % 64 == 0 && Done((m + data)[..|m| + t])
      modifies this`buf, input
      ensures Absorbed(m + data)
    {
      hide Done;
      var at := t;
      while |data| - at >= 64
        invariant t <= at <= |data| && (|m| + at) % 64 == 0
        invariant Done((m + data)[..|m| + at])
      {
        CopyIn(0, data[at..at + 64]);
        Next(m, data, at, input[..]);
        Absorb((m + data)[..|m| + at + 64]);
        at := at + 64;
      }
      CopyIn(0, data[at..]);
      Rest(m, data, at, input[..]);
    }

    /** SQUID_MD5Update: however the bytes are divided over calls, the context stands for all of them. */
    method Update(data: seq<Byte>)
      requires Valid() && |data| < WORD
      modifies this, input
      ensures Valid() && msg == old(msg) + data
    {
      hide Absorbed, Done;
      var t := 64 - bytes0 % 64;
      Count(|data|, |msg|);
      if t > |data| {
        Keep(data, t, msg);
      } else {
        RoundedUp(|msg|);
        Fill(data, t, msg);
        Blocks(data, t, msg);
      }
      msg := msg + data;
    }

    /** memset of part of the input buffer. */
    method Clear(off: nat, len: nat)
      requires input.Length == 64 && off + len <= 64
      modifies input
      ensures input[..] == old(input[..off]) + Zeros(len) + old(input[off + len..])
    {
      CopyIn(off, Zeros(len));
    }

    /** All but the last block of p is absorbed, and the last is in input but for the length. */
    ghost predicate AllButLength(p: seq<Byte>)
      reads this`buf, input
    {
      |p| >= 64 && input.Length == 64 && Done(p[..|p| - 64]) && input[..56] == p[|p| - 64..][..56]
    }

    /** The marker byte and zeros from count on. */
    method Mark(count: nat, zeros: nat)
      requires input.Length == 64 && count + 1 + zeros <= 64
      modifies input
      ensures input[..count + 1 + zeros] == old(input[..count]) + [0x80] + Zeros(zeros)
    {
      hide Zeros;
      CopyIn(count, [0x80]);
      Clear(count + 1, zeros);
    }

    /** Padding up to the place of the length, with an extra block if there is no room for it. */
    method Pad()
      requires Valid()
      modifies this`buf, input
      ensures AllButLength(Padded(msg))
    {
      hide Done, Zeros, Padded;
      var count := bytes0 % 64;
      SameRest(bytes0, bytes1, wraps, |msg|);
      ghost var before := input[..];
      if count >= 56 {
        Mark(count, 63 - count);
        TwoBlocks(msg, before, input[..]);
        Absorb(msg + [0x80] + Zeros(63 - count));
        Clear(0, 56);
      } else {
        Mark(count, 55 - count);
        OneBlock(msg, before, input[..]);
      }
    }

    /** SQUID_MD5Final: the digest of all bytes given. */
    method Final() returns (digest: seq<bv8>)
      requires Valid()
      modifies this`buf, input
      ensures digest == Octets(Digest(msg))
    {
      hide Transform, BlockOf, Padded, LengthBytes, Fold;
      Pad();
      var low := bytes0 * 8 % WORD;
      var high := BitOr(bytes1 * 8 % WORD, bytes0 / 0x2000_0000);
      LengthWords(bytes0, bytes1, wraps, |msg|);
      ghost var p := Padded(msg);
      PaddedEnd(msg);
      LastBlock(input[..], p[|p| - 64..], low, high);
      assert p == p[..|p| - 64] + p[|p| - 64..];
      FoldOne(Transform, INIT, p[..|p| - 64], p[|p| - 64..]);
      buf := Transform(buf, BlockOf(input[..])[14 := low][15 := high]);
      digest := Octets(buf);
    }
  }

  function BitOr(x: nat, y: nat): nat {
    if x == 0 && y == 0 then 0
    else (if x % 2 == 1 || y % 2 == 1 then 1 else 0) + 2 * BitOr(x / 2, y / 2)
  }

  lemma SameRest(b0: Word, b1: Word, wraps: nat, n: nat)
    requires b0 + WORD * b1 + LONG * wraps == n
    ensures b0 % 64 == n % 64
  {
    RestIs(n, b0 / 64 + 0x400_0000 * b1 + 0x400_0000_0000_0000 * wraps, b0 % 64);
  }

  lemma {:induction false} OrZero(x: nat)
    ensures BitOr(x, 0) == x
  {
    if x > 0 { OrZero(x / 2); }
  }

  lemma OrStep(x: nat, y: nat)
    requires BitOr(x, y / 2) == x + y / 2
    ensures BitOr(2 * x, y) == 2 * x + y
  {
  }

  /** Or of numbers without common bits is their sum. */
  lemma OrLow(k: nat, y: nat)
    requires y < 8
    ensures BitOr(8 * k, y) == 8 * k + y
  {
    hide BitOr;
    OrZero(k);
    OrStep(k, y / 2 / 2);
    OrStep(2 * k, y / 2);
    OrStep(4 * k, y);
  }

  /** The two words written at the end are the low 64 bits of the length in bits. */
  lemma LengthWords(b0: Word, b1: Word, wraps: nat, n: nat)
    requires b0 + WORD * b1 + LONG * wraps == n
    ensures var low, high := b0 * 8 % WORD, BitOr(b1 * 8 % WORD, b0 / 0x2000_0000);
            high < WORD && LengthBytes(n) == BytesOf(low) + BytesOf(high)
  {
    hide BytesOf, BitOr;
    var k := b1 % 0x2000_0000;
    ShiftedOut(b0);
    ShiftedOut(b1);
    OrLow(k, b0 / 0x2000_0000);
    var high := 8 * k + b0 / 0x2000_0000;
    var low := b0 * 8 % WORD;
    assert low + WORD * high < LONG;
    SplitBits(8 * n, low, high, 8 * wraps + b1 / 0x2000_0000);
  }

  lemma ShiftedOut(w: Word)
    ensures w * 8 == w * 8 % WORD + WORD * (w / 0x2000_0000) && w * 8 % WORD == 8 * (w % 0x2000_0000)
  {
  }

  lemma SplitBits(bits: nat, low: Word, high: Word, q: nat)
    requires bits == low + WORD * high + LONG * q
    ensures bits % LONG % WORD == low && bits % LONG / WORD == high
  {
  }

  /** A block with its last two words replaced. */
  lemma LastBlock(have: seq<Byte>, want: seq<Byte>, low: Word, high: Word)
    requires |have| == 64 == |want| && have[..56] == want[..56] && want[56..] == BytesOf(low) + BytesOf(high)
    ensures BlockOf(have)[14 := low][15 := high] == BlockOf(want)
  {
    hide BytesOf, WordOf;
    assert want[56..60] == BytesOf(low) && want[60..64] == BytesOf(high);
    WordOfBytes(low);
    WordOfBytes(high);
    forall i | 0 <= i < 14 ensures have[4 * i..4 * i + 4] == want[4 * i..4 * i + 4] {
      assert have[4 * i..4 * i + 4] == have[..56][4 * i..4 * i + 4];
      assert want[4 * i..4 * i + 4] == want[..56][4 * i..4 * i + 4];
    }
  }

  lemma PaddedEnd(m: seq<Byte>)
    ensures |Padded(m)| >= 64 && Padded(m)[|Padded(m)| - 64..][56..] == LengthBytes(|m|)
  {
    hide LengthBytes, Zeros;
  }

  lemma OneBlock(m: seq<Byte>, before: seq<Byte>, after: seq<Byte>)
    requires |before| == 64 && |m| % 64 < 56 && before[..|m| % 64] == m[WholePart(|m|)..]
    requires |after| == 64 && after[..56] == before[..|m| % 64] + [0x80] + Zeros(55 - |m| % 64)
    ensures var p := Padded(m);
            |p| >= 64 && |p| - 64 == WholePart(|m|) && p[..|p| - 64] == m[..WholePart(|m|)]
              && after[..56] == p[|p| - 64..][..56]
  {
    hide LengthBytes, Zeros;
    var w := WholePart(|m|);
    assert m == m[..w] + m[w..];
    assert Padded(m) == m[..w] + (m[w..] + [0x80] + Zeros(ZeroCount(|m|))) + LengthBytes(|m|);
  }

  lemma TwoBlocks(m: seq<Byte>, before: seq<Byte>, after: seq<Byte>)
    requires |before| == 64 && |m| % 64 >= 56 && before[..|m| % 64] == m[WholePart(|m|)..]
    requires |after| == 64 && after[..64] == before[..|m| % 64] + [0x80] + Zeros(63 - |m| % 64)
    ensures var p, u := Padded(m), m + [0x80] + Zeros(63 - |m| % 64);
            |p| >= 64 && |u| % 64 == 0 && |u| - 64 == WholePart(|m|) && u[..|u| - 64] == m[..WholePart(|m|)]
              && u[|u| - 64..] == after
            && p[..|p| - 64] == u && p[|p| - 64..][..56] == Zeros(56)
  {
    hide LengthBytes;
    var w := WholePart(|m|);
    assert m == m[..w] + m[w..];
    assert after == after[..64];
    var u := m + [0x80] + Zeros(63 - |m| % 64);
    assert Zeros(ZeroCount(|m|)) == Zeros(63 - |m| % 64) + Zeros(56);
    assert Padded(m) == u + Zeros(56) + LengthBytes(|m|);
  }

  lemma RoundedUp(n: nat)
    ensures (n + (64 - n % 64)) % 64 == 0
  {
  }

  lemma Short(m: seq<Byte>, data: seq<Byte>, before: seq<Byte>, after: seq<Byte>)
    requires |before| == 64 && |m| % 64 + |data| < 64 && before[..|m| % 64] == m[WholePart(|m|)..]
    requires after == before[..|m| % 64] + data + before[|m| % 64 + |data|..]
    ensures WholePart(|m + data|) == WholePart(|m|) && (m + data)[..WholePart(|m|)] == m[..WholePart(|m|)]
    ensures after[..|m + data| % 64] == (m + data)[WholePart(|m|)..]
  {
    RestIs(|m + data|, |m| / 64, |m| % 64 + |data|);
  }

  lemma Filled(m: seq<Byte>, data: seq<Byte>, t: nat, before: seq<Byte>, after: seq<Byte>)
    requires |before| == 64 && t == 64 - |m| % 64 && t <= |data| && (|m| + t) % 64 == 0
             && before[..|m| % 64] == m[WholePart(|m|)..]
    requires after == before[..|m| % 64] + data[..t] + before[64..]
    ensures var u := (m + data)[..|m| + t];
            |u| % 64 == 0 && |u| - 64 == WholePart(|m|) && u[|u| - 64..] == after
              && u[..|u| - 64] == m[..WholePart(|m|)]
  {
    var u := (m + data)[..|m| + t];
    assert u == m + data[..t];
    assert after == before[..|m| % 64] + data[..t];
    assert u[WholePart(|m|)..] == m[WholePart(|m|)..] + data[..t];
  }

  lemma Next(m: seq<Byte>, data: seq<Byte>, at: nat, after: seq<Byte>)
    requires at + 64 <= |data| && |after| == 64 && after[..64] == data[at..at + 64] && (|m| + at) % 64 == 0
    ensures var u := (m + data)[..|m| + at + 64];
            u[|u| - 64..] == after && u[..|u| - 64] == (m + data)[..|m| + at] && |u| % 64 == 0
  {
    var u := (m + data)[..|m| + at + 64];
    assert after == after[..64];
    assert u[|m| + at..] == data[at..at + 64];
  }

  lemma Rest(m: seq<Byte>, data: seq<Byte>, at: nat, after: seq<Byte>)
    requires at <= |data| < at + 64 && (|m| + at) % 64 == 0 && |after| == 64 && after[..|data| - at] == data[at..]
    ensures WholePart(|m + data|) == |m| + at && after[..|m + data| % 64] == (m + data)[|m| + at..]
  {
    RestIs(|m + data|, (|m| + at) / 64, |data| - at);
  }

  function Concat(pieces: seq<seq<Byte>>): seq<Byte> {
    if pieces == [] then [] else Concat(pieces[..|pieces| - 1]) + pieces[|pieces| - 1]
  }

  /** Init, one Update for every piece, Final: the digest of the whole, for every way to cut it. */
  method DigestOf(pieces: seq<seq<Byte>>) returns (digest: seq<bv8>)
    requires forall i | 0 <= i < |pieces| :: |pieces[i]| < WORD
    ensures digest == Octets(Digest(Concat(pieces)))
  {
    hide Digest, Context.Valid;
    var context := new Context();
    var i := 0;
    while i < |pieces|
      invariant 0 <= i <= |pieces| && context.Valid() && context.msg == Concat(pieces[..i])
      invariant fresh(context) && fresh(context.input)
    {
      context.Update(pieces[i]);
      assert pieces[..i + 1][..i] == pieces[..i];
      i := i + 1;
    }
    assert pieces[..i] == pieces;
    digest := context.Final();
  }
}
