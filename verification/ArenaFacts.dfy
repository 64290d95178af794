/** What the allocator's invariant means for its callers and for its free space. */
module ArenaFacts {
  import opened MallocBins
  import opened ChunkLayout
  import opened FreeLists
  import opened BoundaryTags
  import opened MallocSteps
  import Payload

  /** Live blocks lie in the arena, start on 8-byte boundaries and do not overlap. */
  lemma BlocksApart(m: Words, top: int, binblocks: nat, L: Layout, B: Bins, p: int, q: int)
    requires Inv(m, top, binblocks, L, B) && top != 0 && p in Payload.Blocks(m, L) && q in Payload.Blocks(m, L) && p < q
    ensures var a, b := Payload.Blocks(m, L)[p], Payload.Blocks(m, L)[q];
            AV_WORDS <= p && (p + 2) % 2 == 0 && p + 2 + |a| <= q + 2 && q + 2 + |b| <= L.top + 1
  {
    assert p + L.chunks[p] <= q;
  }

  /** Where a chunk is in the lists. */
  ghost predicate Filled(B: Bins, x: int, i: int, k: int) {
    0 <= i < |B.lists| && 0 <= k < |B.lists[i]| && B.lists[i][k] == x
  }

  /** A free chunk is linked exactly once: in the bin of its size, which binblocks does not hide, or in
      last_remainder. */
  lemma FreeLinkedOnce(m: Words, top: int, binblocks: nat, L: Layout, B: Bins, x: int) returns (i: int, k: int)
    requires Inv(m, top, binblocks, L, B) && top != 0 && x in L.free
    ensures Filled(B, x, i, k)
    ensures forall j, l | Filled(B, x, j, l) :: j == i && l == k
    ensures i == 1 || (i == BinIndex(4 * L.chunks[x]) && Bit(binblocks, i / BINBLOCKWIDTH))
  {
    i := B.home[x];
    var s := B.lists[i];
    k :| 0 <= k < |s| && s[k] == x;
    assert ListOk(m, B, i);
    forall j, l | Filled(B, x, j, l) ensures j == i && l == k {
      assert B.home[B.lists[j][l]] == j;
    }
    if i != 1 { assert B.lists[i] != []; }
  }

  /** Only free chunks are linked. */
  lemma LinkedAreFree(m: Words, top: int, binblocks: nat, L: Layout, B: Bins, x: int, i: int, k: int)
    requires Inv(m, top, binblocks, L, B) && top != 0 && Filled(B, x, i, k)
    ensures x in L.free
  {
    assert B.lists[i][k] in B.home;
  }

  /** Free space is coalesced: a free chunk has its size in its foot and borders neither a free chunk nor top,
      on either side; and the PREV_INUSE bit of every chunk tells whether the chunk before it is live. */
  lemma Coalesced(m: Words, top: int, binblocks: nat, L: Layout, B: Bins, p: int)
    requires Inv(m, top, binblocks, L, B) && top != 0 && p in L.chunks
    ensures var next := Next(L, p);
            0 <= next && next + 1 < |m| && Boundary(L, next) && SizeAt(m, p) == L.chunks[p]
            && (PrevInuse(m, next) <==> p !in L.free)
            && (p in L.free ==> m[next] == 4 * L.chunks[p] && next != L.top && next !in L.free)
  {
    hide Linked, Filed, Marked;
    NextFlag(m, L, p);
  }
}
