/** Addresses as bytes and as bits: the byte loops of the radix tree against the bits they compare. */
module RadixBits {

  const MAXBITS := 128

  type Addr = a: seq<bv8> | |a| == 16 witness [0, 0, 0, 0, 0, 0, 0, 0, 0, 0, 0, 0, 0, 0, 0, 0]

  /** 0x80 shifted right by j. */
  function Mask(j: nat): bv8
    requires j < 8
  {
    if j == 0 then 0x80 else if j == 1 then 0x40 else if j == 2 then 0x20 else if j == 3 then 0x10
    else if j == 4 then 0x08 else if j == 5 then 0x04 else if j == 6 then 0x02 else 0x01
  }

  /** All ones shifted left by 8 - m. */
  function HighMask(m: nat): bv8
    requires 0 < m < 8
  {
    if m == 1 then 0x80 else if m == 2 then 0xC0 else if m == 3 then 0xE0 else if m == 4 then 0xF0
    else if m == 5 then 0xF8 else if m == 6 then 0xFC else 0xFE
  }

  predicate ByteBit(b: bv8, j: nat)
    requires j < 8
  {
    b & Mask(j) != 0
  }

  predicate Bit(a: Addr, k: nat)
    requires k < MAXBITS
  {
    ByteBit(a[k / 8], k % 8)
  }

  /** The address as a sequence of bits, most significant first. */
  function Bits(a: Addr): (s: seq<bool>)
    ensures |s| == MAXBITS
    ensures forall k | 0 <= k < MAXBITS :: s[k] == Bit(a, k)
  {
    seq(MAXBITS, k requires 0 <= k < MAXBITS => Bit(a, k))
  }

  lemma ByteBits(x: bv8)
    ensures ByteBit(x, 0) == (x & 0x80 != 0) && ByteBit(x, 1) == (x & 0x40 != 0)
         && ByteBit(x, 2) == (x & 0x20 != 0) && ByteBit(x, 3) == (x & 0x10 != 0)
         && ByteBit(x, 4) == (x & 0x08 != 0) && ByteBit(x, 5) == (x & 0x04 != 0)
         && ByteBit(x, 6) == (x & 0x02 != 0) && ByteBit(x, 7) == (x & 0x01 != 0)
  {
  }

  ghost predicate SameByteBits(x: bv8, y: bv8, m: nat)
    requires m <= 8
  {
    forall j | 0 <= j < m :: ByteBit(x, j) == ByteBit(y, j)
  }

  lemma WholeBytes(x: bv8, y: bv8)
    ensures x == y <==> SameByteBits(x, y, 8)
  {
    ByteBits(x);
    ByteBits(y);
    if SameByteBits(x, y, 8) {
      assert ByteBit(x, 0) == ByteBit(y, 0) && ByteBit(x, 1) == ByteBit(y, 1) && ByteBit(x, 2) == ByteBit(y, 2);
      assert ByteBit(x, 3) == ByteBit(y, 3) && ByteBit(x, 4) == ByteBit(y, 4) && ByteBit(x, 5) == ByteBit(y, 5);
      assert ByteBit(x, 6) == ByteBit(y, 6) && ByteBit(x, 7) == ByteBit(y, 7);
    }
  }

  lemma AndAssoc(x: bv8, h: bv8, k: bv8)
    ensures (x & h) & k == x & (h & k)
  {
  }

  lemma HighBit(x: bv8, m: nat, j: nat)
    requires 0 < m < 8 && j < 8
    ensures ByteBit(x & HighMask(m), j) == (j < m && ByteBit(x, j))
  {
    assert HighMask(m) & Mask(j) == if j < m then Mask(j) else 0;
    AndAssoc(x, HighMask(m), Mask(j));
  }

  predicate SameMasked(x: bv8, y: bv8, m: nat)
    requires 0 < m < 8
  {
    (x & HighMask(m)) == (y & HighMask(m))
  }

  /** Two bytes agree under the mask of their first m bits exactly when those bits agree. */
  lemma MaskedBytes(x: bv8, y: bv8, m: nat)
    requires 0 < m < 8
    ensures SameMasked(x, y, m) <==> SameByteBits(x, y, m)
  {
    hide HighMask, Mask, ByteBit;
    var u, v := x & HighMask(m), y & HighMask(m);
    WholeBytes(u, v);
    forall j | 0 <= j < 8
      ensures ByteBit(u, j) == (j < m && ByteBit(x, j)) && ByteBit(v, j) == (j < m && ByteBit(y, j))
    {
      HighBit(x, m, j);
      HighBit(y, m, j);
    }
    if SameByteBits(u, v, 8) {
      forall j | 0 <= j < m ensures ByteBit(x, j) == ByteBit(y, j) { assert ByteBit(u, j) == ByteBit(v, j); }
    }
  }

  lemma OneBit(x: bv8, y: bv8, m: bv8)
    requires m & (m - 1) == 0
    ensures (x ^ y) & m != 0 <==> (x & m != 0) != (y & m != 0)
  {
  }

  lemma XorBit(x: bv8, y: bv8, j: nat)
    requires j < 8
    ensures ByteBit(x ^ y, j) <==> ByteBit(x, j) != ByteBit(y, j)
  {
    assert Mask(j) & (Mask(j) - 1) == 0;
    OneBit(x, y, Mask(j));
  }

  /** Equal bytes up to i, then m equal bits: the first 8 * i + m bits are equal, and conversely. */
  lemma BytesToBits(a: Addr, b: Addr, i: nat, m: nat)
    requires m < 8 && 8 * i + m <= MAXBITS
    ensures a[..i] == b[..i] && (m == 0 || SameByteBits(a[i], b[i], m))
       <==> Bits(a)[..8 * i + m] == Bits(b)[..8 * i + m]
  {
    var n := 8 * i + m;
    if a[..i] == b[..i] && (m == 0 || SameByteBits(a[i], b[i], m)) {
      forall k | 0 <= k < n ensures Bits(a)[k] == Bits(b)[k] {
        if k / 8 < i { assert a[k / 8] == a[..i][k / 8] == b[..i][k / 8] == b[k / 8]; }
      }
    }
    if Bits(a)[..n] == Bits(b)[..n] {
      forall k | 0 <= k < n ensures Bit(a, k) == Bit(b, k) {
        assert Bits(a)[..n][k] == Bits(b)[..n][k];
      }
      forall k | 0 <= k < i ensures a[k] == b[k] {
        SameByte(a, b, k, 8);
        WholeBytes(a[k], b[k]);
      }
      if m > 0 { SameByte(a, b, i, m); }
    }
  }

  lemma SameByte(a: Addr, b: Addr, i: nat, m: nat)
    requires i < 16 && m <= 8
    requires forall k | 8 * i <= k < 8 * i + m :: Bit(a, k) == Bit(b, k)
    ensures SameByteBits(a[i], b[i], m)
  {
    forall j | 0 <= j < m ensures ByteBit(a[i], j) == ByteBit(b[i], j) {
      assert (8 * i + j) / 8 == i && (8 * i + j) % 8 == j;
      assert Bit(a, 8 * i + j) == Bit(b, 8 * i + j);
    }
  }

  /** comp_with_mask: do the first mask bits agree? */
  method CompWithMask(addr: Addr, dest: Addr, mask: nat) returns (same: bool)
    requires mask <= MAXBITS
    ensures same <==> Bits(addr)[..mask] == Bits(dest)[..mask]
  {
    hide Bits, Bit, SameByteBits, HighMask, Mask, ByteBit, SameMasked;
    var n, m := mask / 8, mask % 8;
    assert mask == 8 * n + m;
    BytesToBits(addr, dest, n, m);
    if addr[..n] == dest[..n] {
      if m == 0 { return true; }
      MaskedBytes(addr[n], dest[n], m);
      return SameMasked(addr[n], dest[n], m);
    }
    return false;
  }

  /** The first bit in which two bytes differ. */
  method DifferInByte(x: bv8, y: bv8) returns (j: nat)
    requires x != y
    ensures j < 8 && SameByteBits(x, y, j) && ByteBit(x, j) != ByteBit(y, j)
  {
    hide Mask;
    var r := x ^ y;
    j := 0;
    WholeBytes(x, y);
    while j < 8 && r & Mask(j) == 0
      invariant j <= 8 && SameByteBits(x, y, j)
    {
      XorBit(x, y, j);
      j := j + 1;
    }
    XorBit(x, y, j);
  }

  lemma SameXor(x: bv8, y: bv8)
    ensures x ^ y == 0 <==> x == y
  {
  }

  lemma AtBit(a: Addr, i: nat, j: nat)
    requires i < 16 && j < 8
    ensures Bits(a)[8 * i + j] == ByteBit(a[i], j)
  {
    assert (8 * i + j) / 8 == i && (8 * i + j) % 8 == j;
  }

  /** The first bit where two addresses differ, at most check. */
  method DifferBit(addr: Addr, test: Addr, check: nat) returns (differ: nat)
    requires check <= MAXBITS
    ensures differ <= check && Bits(addr)[..differ] == Bits(test)[..differ]
    ensures differ < check ==> Bits(addr)[differ] != Bits(test)[differ]
  {
    hide Bits, ByteBit, SameByteBits;
    differ := 0;
    var i := 0;
    while i * 8 < check
      invariant i <= 16 && differ == 8 * i
      invariant addr[..i] == test[..i]
    {
      SameXor(addr[i], test[i]);
      if addr[i] ^ test[i] == 0 {
        differ := (i + 1) * 8;
        i := i + 1;
      } else {
        var j := DifferInByte(addr[i], test[i]);
        differ := i * 8 + j;
        BytesToBits(addr, test, i, j);
        AtBit(addr, i, j);
        AtBit(test, i, j);
        break;
      }
    }
    if i * 8 >= check { BytesToBits(addr, test, i, 0); }
    if differ > check {
      assert Bits(addr)[..differ][..check] == Bits(test)[..differ][..check];
      differ := check;
    }
  }
}
