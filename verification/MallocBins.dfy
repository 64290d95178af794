/** Bin numbering and the one-word bin-block index of the allocator. */
module MallocBins {

  const NAV := 128              // number of bins
  const BINBLOCKWIDTH := 4      // bins per block
  const WORD_BITS := 32         // bits in the bin-block word

  /** bin_index: the bin of a chunk of `sz` bytes. */
  function BinIndex(sz: nat): (i: nat)
    ensures i <= 126
    ensures 16 <= sz ==> 2 <= i
  {
    var h := sz / 512;
    if h == 0 then sz / 8
    else if h <= 4 then 56 + sz / 64
    else if h <= 20 then 91 + sz / 512
    else if h <= 84 then 110 + sz / 4096
    else if h <= 340 then 119 + sz / 32768
    else if h <= 1364 then 124 + sz / 262144
    else 126
  }

  /** Larger chunks never sit in an earlier bin, in spite of the slop in the table. */
  lemma BinIndexMonotone(a: nat, b: nat)
    requires a <= b
    ensures BinIndex(a) <= BinIndex(b)
  {
  }

  /** A chunk in a later bin than a request's bin is strictly larger than the request. */
  lemma LaterBinIsLarger(request: nat, chunk: nat)
    requires BinIndex(request) < BinIndex(chunk)
    ensures request < chunk
  {
    if chunk <= request { BinIndexMonotone(chunk, request); }
  }

  /** Bins below 64 hold chunks of one size only. */
  lemma SmallBinExact(sz: nat, i: nat)
    requires sz % 8 == 0 && i < 64 && BinIndex(sz) == i
    ensures sz == 8 * i
  {
    if 512 <= sz { BinIndexMonotone(512, sz); }
  }

  // ----- the bin-block word, bit by bit -----

  function Pow2(k: nat): (r: nat)
    ensures 1 <= r
  {
    if k == 0 then 1 else 2 * Pow2(k - 1)
  }

  predicate Bit(w: nat, k: nat) {
    if k == 0 then w % 2 == 1 else Bit(w / 2, k - 1)
  }

  /** w | (1 << k) */
  function SetBit(w: nat, k: nat): (r: nat) {
    if k == 0 then w / 2 * 2 + 1 else 2 * SetBit(w / 2, k - 1) + w % 2
  }

  /** w & ~(1 << k) */
  function ClearBit(w: nat, k: nat): (r: nat) {
    if k == 0 then w / 2 * 2 else 2 * ClearBit(w / 2, k - 1) + w % 2
  }

  lemma {:induction false} SetBitAt(w: nat, k: nat, j: nat)
    ensures Bit(SetBit(w, k), j) <==> j == k || Bit(w, j)
  {
    if k > 0 && j > 0 {
      SetBitAt(w / 2, k - 1, j - 1);
    }
  }

  lemma {:induction false} ClearBitAt(w: nat, k: nat, j: nat)
    ensures Bit(ClearBit(w, k), j) <==> j != k && Bit(w, j)
  {
    if k > 0 && j > 0 {
      ClearBitAt(w / 2, k - 1, j - 1);
    }
  }

  lemma {:induction false} BitsStayInWord(w: nat, k: nat, n: nat)
    requires w < Pow2(n) && k < n
    ensures SetBit(w, k) < Pow2(n) && ClearBit(w, k) <= w
  {
    hide Pow2;
    Doubled(n);
    if k > 0 { BitsStayInWord(w / 2, k - 1, n - 1); }
  }

  lemma Doubled(n: nat)
    requires 0 < n
    ensures Pow2(n) == 2 * Pow2(n - 1)
  {
  }

  /** The unsigned comparison `(1 << k) <= w` asks exactly whether some bit at or above k is set. */
  lemma {:induction false} BlockLeqMeansMarkedAbove(w: nat, k: nat, n: nat) returns (j: nat)
    requires w < Pow2(n) && k <= n
    ensures Pow2(k) <= w ==> k <= j < n && Bit(w, j)
    ensures w < Pow2(k) ==> forall i | k <= i :: !Bit(w, i)
  {
    if k == 0 {
      j := LowestBit(w, n);
    } else {
      j := BlockLeqMeansMarkedAbove(w / 2, k - 1, n - 1);
      if Pow2(k) <= w {
        j := j + 1;
      } else {
        forall i | k <= i ensures !Bit(w, i) { assert !Bit(w / 2, i - 1); }
      }
    }
  }

  lemma {:induction false} LowestBit(w: nat, n: nat) returns (j: nat)
    requires w < Pow2(n)
    ensures w > 0 ==> j < n && Bit(w, j)
    ensures w == 0 ==> forall i: nat :: !Bit(w, i)
  {
    j := 0;
    if w > 0 {
      if w % 2 == 0 {
        j := LowestBit(w / 2, n - 1);
        j := j + 1;
      }
    } else {
      forall i: nat ensures !Bit(w, i) { ZeroHasNoBits(i); }
    }
  }

  lemma {:induction false} ZeroHasNoBits(i: nat)
    ensures !Bit(0, i)
  {
    if i > 0 { ZeroHasNoBits(i - 1); }
  }
}
