/** What the callers of the allocator see: the live blocks and their contents. */
module Payload {
  import opened ChunkLayout

  /** A live chunk p owns words p+2 up to and including its successor's prev_size word. */
  ghost function Contents(m: Words, L: Layout, p: int): Words
    requires p in L.chunks && 0 <= p && 1 <= L.chunks[p] && p + L.chunks[p] < |m|
  {
    m[p + 2 .. p + L.chunks[p] + 1]
  }

  /** The live blocks, by chunk address; the caller's pointer is two words above it. */
  ghost function Blocks(m: Words, L: Layout): map<int, Words>
    requires Tiled(L) && |m| == L.end
  {
    map p | p in L.chunks && p !in L.free :: Contents(m, L, p)
  }

  /** List operations and tag writes elsewhere do not reach a live block. */
  lemma ContentsKept(m: Words, m': Words, L: Layout, L': Layout, free: set<int>, p: int, lo: int, hi: int)
    requires Tiled(L) && |m| == L.end && Live(L, p)
    requires free <= L.free && SameOutside(m, m', free, lo, hi)
    requires p in L'.chunks && L'.chunks[p] == L.chunks[p]
    requires hi < p + 2 || p + L.chunks[p] < lo
    ensures Contents(m', L', p) == Contents(m, L, p)
  {
    var a, b := Contents(m, L, p), Contents(m', L', p);
    forall i | 0 <= i < |a| ensures b[i] == a[i] {
      assert !LinkWord(free, p + 2 + i);
    }
  }

  /** Live blocks outside a rewritten region keep their contents. */
  lemma BlocksKept(m: Words, m': Words, L: Layout, L': Layout, lo: int, hi: int, gone: set<int>, made: set<int>)
    requires Tiled(L) && |m| == L.end && Tiled(L') && |m'| == L'.end
    requires SameOutside(m, m', L.free, lo, hi)
    requires forall p | Live(L, p) && p !in gone ::
               && Live(L', p) && L'.chunks[p] == L.chunks[p] && p !in made
               && (hi < p + 2 || p + L.chunks[p] < lo)
    requires forall p | Live(L', p) && p !in made :: Live(L, p) && p !in gone
    ensures Blocks(m', L') - made == Blocks(m, L) - gone
  {
    forall p | Live(L, p) && p !in gone ensures Contents(m', L', p) == Contents(m, L, p) {
      ContentsKept(m, m', L, L', L.free, p, lo, hi);
    }
    assert forall p :: p in Blocks(m, L) - gone <==> Live(L, p) && p !in gone;
    assert forall p :: p in Blocks(m', L') - made <==> Live(L', p) && p !in made;
  }
}
