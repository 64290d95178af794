/** How the tag words follow the tiling through every change the allocator makes. */
module BoundaryTags {
  import opened ChunkLayout

  /** x |= PREV_INUSE */
  function WithFlag(x: int): int { x / 2 * 2 + 1 }

  /** The prev_size and size words at a boundary survive writes elsewhere. */
  lemma TagKept(m: Words, m': Words, L: Layout, free: set<int>, a: int, lo: int, hi: int)
    requires Tiled(L) && Boundary(L, a) && |m| == L.end
    requires free <= L.chunks.Keys && SameOutside(m, m', free, lo, hi)
    ensures a < lo || hi < a ==> m'[a] == m[a]
    ensures a + 1 < lo || hi < a + 1 ==> m'[a + 1] == m[a + 1]
  {
    assert !LinkWord(free, a) && !LinkWord(free, a + 1);
  }

  lemma OtherFree(L: Layout, free: set<int>)
    requires Tiled(L) && free <= L.chunks.Keys
    ensures Tiled(L.(free := free))
  {
    var L' := L.(free := free);
    forall p {:trigger Next(L', p)} | p in L'.chunks ensures Boundary(L', Next(L', p)) {
      assert Boundary(L, Next(L, p));
    }
    assert Sized(L') && Apart(L') && Closed(L') && Boundary(L', L'.base);
  }

  /** A chunk keeps its tags when neither its size, its state nor the words around it change. */
  lemma ChunkKept(m: Words, m': Words, L: Layout, L': Layout, free: set<int>, p: int, lo: int, hi: int)
    requires Tiled(L) && |m| == L.end && ChunkOk(m, L, p)
    requires free <= L.chunks.Keys && SameOutside(m, m', free, lo, hi)
    requires p in L'.chunks && L'.chunks[p] == L.chunks[p] && (p in L'.free <==> p in L.free)
    requires var q := Next(L, p);
             && (q + 1 < lo || hi < q)
             && SizeOf(L', q) == SizeOf(L, q)
             && (p in L.free ==> q in L'.chunks && q !in L'.free)
    requires p + 1 < lo || hi < p + 1 || m'[p + 1] == 4 * L.chunks[p] || m'[p + 1] == 4 * L.chunks[p] + 1
    ensures ChunkOk(m', L', p)
  {
    TagKept(m, m', L, free, p, lo, hi);
    TagKept(m, m', L, free, Next(L, p), lo, hi);
  }

  /** A whole free chunk becomes live: its successor's PREV_INUSE bit is set. */
  lemma TakeTags(m: Words, m': Words, L: Layout, v: int)
    requires Tiled(L) && Tagged(m, L) && v in L.free
    requires SameOutside(m, m', L.free, Next(L, v) + 1, Next(L, v) + 1)
    requires m'[Next(L, v) + 1] == 4 * SizeOf(L, Next(L, v)) + 1
    ensures var L' := L.(free := L.free - {v});
            Tiled(L') && Tagged(m', L')
  {
    hide Closed, LinkWord;
    var L' := L.(free := L.free - {v});
    var q := Next(L, v);
    OtherFree(L, L'.free);
    assert ChunkOk(m, L, v);
    TagKept(m, m', L, L.free, v, q + 1, q + 1);
    assert ChunkOk(m', L', v);
    forall p {:trigger ChunkOk(m', L', p)} | p in L'.chunks ensures ChunkOk(m', L', p) {
      if p != v {
        assert ChunkOk(m, L, p);
        ChunkKept(m, m', L, L', L.free, p, q + 1, q + 1);
      }
    }
    TagKept(m, m', L, L.free, L.base, q + 1, q + 1);
    TagKept(m, m', L, L.free, L.top, q + 1, q + 1);
  }

  /** The head word at boundary a without its flag is its size; the flag is the remainder. */
  ghost predicate HeadWord(m: Words, L: Layout, a: int, h: int)
    requires 0 <= a + 1 < |m|
  {
    m[a + 1] == 4 * SizeOf(L, a) + h && (h == 0 || h == 1)
  }

  /** The chunk before a is live exactly when a's flag is set. */
  lemma FlagIsTrue(m: Words, L: Layout, a: int, p: int, h: int)
    requires Tiled(L) && Tagged(m, L) && Boundary(L, a) && HeadWord(m, L, a, h)
    requires p in L.chunks && Next(L, p) == a
    ensures p in L.free <==> h == 0
  {
    assert ChunkOk(m, L, p);
  }

  /** The chunk before a rewritten region keeps its tags when the region's first flag is kept. */
  lemma ChunkBefore(m: Words, m': Words, L: Layout, L': Layout, a: int, p: int, h: int, hi: int)
    requires Tiled(L) && Tagged(m, L) && Boundary(L, a) && HeadWord(m, L, a, h)
    requires p in L.chunks && Next(L, p) == a && SameOutside(m, m', L.free, a + 1, hi)
    requires p in L'.chunks && L'.chunks[p] == L.chunks[p] && (p in L'.free <==> p in L.free)
    requires m'[a + 1] == 4 * SizeOf(L', a) + h
    requires h == 0 ==> a in L'.chunks && a !in L'.free
    ensures ChunkOk(m', L', p)
  {
    assert ChunkOk(m, L, p);
    FlagIsTrue(m, L, a, p, h);
    TagKept(m, m', L, L.free, p, a + 1, hi);
    TagKept(m, m', L, L.free, a, a + 1, hi);
  }

  /** L' differs from L only between a and b. */
  ghost predicate SameChunksOutside(L: Layout, L': Layout, a: int, b: int) {
    && (forall p | p in L.chunks && !(a <= p < b) ::
          p in L'.chunks && L'.chunks[p] == L.chunks[p] && (p in L'.free <==> p in L.free))
    && (forall q {:trigger SizeOf(L', q)} | Boundary(L, q) && (q < a || b < q) :: SizeOf(L', q) == SizeOf(L, q))
  }

  /** All chunks outside a rewritten region [a, b) keep their tags. */
  lemma OthersKept(m: Words, m': Words, L: Layout, L': Layout, a: int, b: int, h: int, hi: int)
    requires Tiled(L) && Tagged(m, L) && Boundary(L, a) && a <= b && HeadWord(m, L, a, h)
    requires SameOutside(m, m', L.free, a + 1, hi) && b - 1 <= hi <= b + 1
    requires SameChunksOutside(L, L', a, b)
    requires m'[a + 1] == 4 * SizeOf(L', a) + h
    requires h == 0 ==> a in L'.chunks && a !in L'.free
    requires b in L.chunks && b + 1 <= hi ==> m'[b + 1] == 4 * L.chunks[b] || m'[b + 1] == 4 * L.chunks[b] + 1
    requires Boundary(L, b) || L.end <= b
    ensures forall p {:trigger ChunkOk(m', L', p)} | p in L.chunks && !(a <= p < b) :: ChunkOk(m', L', p)
  {
    forall p {:trigger ChunkOk(m', L', p)} | p in L.chunks && !(a <= p < b) ensures ChunkOk(m', L', p) {
      assert ChunkOk(m, L, p);
      if Next(L, p) == a {
        ChunkBefore(m, m', L, L', a, p, h, hi);
      } else {
        assert Next(L, p) < a || b < Next(L, p);
        ChunkKept(m, m', L, L', L.free, p, a + 1, hi);
      }
    }
  }

  /** A chunk is cut in two: a live head of n words and a tail, which is free when the chunk was. */
  lemma SplitChunks(m: Words, m': Words, L: Layout, v: int, n: int, h: int, hi: int)
    requires Tiled(L) && Tagged(m, L) && v in L.chunks && HeadWord(m, L, v, h)
    requires MINWORDS <= n && n % 2 == 0 && MINWORDS <= L.chunks[v] - n
    requires SplitWords(m, m', L, v, n, h, hi)
    ensures var L' := Split(L, v, n, false, v in L.free);
            forall p {:trigger ChunkOk(m', L', p)} | p in L'.chunks :: ChunkOk(m', L', p)
  {
    hide Boundary, Sized;
    var L' := Split(L, v, n, false, v in L.free);
    SplitTiled(L, v, n, false, v in L.free);
    SplitPieces(m, m', L, v, n, h, hi);
    assert SameChunksOutside(L, L', v, Next(L, v));
    OthersKept(m, m', L, L', v, Next(L, v), h, hi);
  }

  lemma SplitPieces(m: Words, m': Words, L: Layout, v: int, n: int, h: int, hi: int)
    requires Tiled(L) && Tagged(m, L) && v in L.chunks && HeadWord(m, L, v, h)
    requires MINWORDS <= n && n % 2 == 0 && MINWORDS <= L.chunks[v] - n
    requires SplitWords(m, m', L, v, n, h, hi)
    ensures var L' := Split(L, v, n, false, v in L.free);
            ChunkOk(m', L', v) && ChunkOk(m', L', v + n)
  {
    assert ChunkOk(m, L, v);
    assert v + n !in L.chunks;
    TagKept(m, m', L, L.free, Next(L, v), v + 1, hi);
  }

  ghost predicate SplitWords(m: Words, m': Words, L: Layout, v: int, n: int, h: int, hi: int)
    requires v in L.chunks
  {
    && SameOutside(m, m', L.free, v + 1, hi)
    && 0 <= v && 0 <= n && v + n + 1 < |m'| && 0 <= Next(L, v) < |m'|
    && m'[v + 1] == 4 * n + h
    && m'[v + n + 1] == 4 * (L.chunks[v] - n) + 1
    && (v in L.free ==> h == 1 && hi == Next(L, v) && m'[Next(L, v)] == 4 * (L.chunks[v] - n))
    && (v !in L.free ==> hi == Next(L, v) - 1)
  }

  lemma SplitTags(m: Words, m': Words, L: Layout, v: int, n: int, h: int, hi: int)
    requires Tiled(L) && Tagged(m, L) && v in L.chunks && HeadWord(m, L, v, h)
    requires MINWORDS <= n && n % 2 == 0 && MINWORDS <= L.chunks[v] - n
    requires SplitWords(m, m', L, v, n, h, hi)
    ensures var L' := Split(L, v, n, false, v in L.free);
            Tiled(L') && Tagged(m', L')
  {
    SplitTiled(L, v, n, false, v in L.free);
    SplitChunks(m, m', L, v, n, h, hi);
    TagKept(m, m', L, L.free, L.base, v + 1, hi);
    TagKept(m, m', L, L.free, L.top, v + 1, hi);
  }

  /** The chunks from a to b become one chunk, free or live. */
  lemma MergeChunks(m: Words, m': Words, L: Layout, a: int, b: int, h: int, isFree: bool)
    requires Tiled(L) && Tagged(m, L) && a in L.chunks && Boundary(L, b) && a < b && HeadWord(m, L, a, h)
    requires MergeWords(m, m', L, a, b, h, isFree)
    ensures var L' := Merge(L, a, b, isFree);
            forall p {:trigger ChunkOk(m', L', p)} | p in L'.chunks :: ChunkOk(m', L', p)
  {
    var L' := Merge(L, a, b, isFree);
    MergeTiled(L, a, b, isFree);
    MergedChunk(m', L, a, b, isFree);
    MergedOthers(L, a, b, isFree);
    OthersKept(m, m', L, L', a, b, h, b + 1);
  }

  lemma MergedOthers(L: Layout, a: int, b: int, isFree: bool)
    requires Tiled(L) && a in L.chunks && Boundary(L, b) && a < b
    ensures SameChunksOutside(L, Merge(L, a, b, isFree), a, b)
  {
    hide Tiled;
  }

  lemma MergedChunk(m': Words, L: Layout, a: int, b: int, isFree: bool)
    requires Tiled(L) && Tiled(Merge(L, a, b, isFree)) && a in L.chunks && Boundary(L, b) && 0 <= a < b && b + 1 < |m'|
    requires m'[a + 1] == 4 * (b - a) || m'[a + 1] == 4 * (b - a) + 1
    requires isFree ==> b in L.chunks && b !in L.free && m'[b] == 4 * (b - a) && m'[b + 1] == 4 * SizeOf(L, b)
    requires !isFree ==> m'[b + 1] == 4 * SizeOf(L, b) + 1
    ensures ChunkOk(m', Merge(L, a, b, isFree), a)
  {
    assert Next(Merge(L, a, b, isFree), a) == b;
  }

  ghost predicate MergeWords(m: Words, m': Words, L: Layout, a: int, b: int, h: int, isFree: bool) {
    && SameOutside(m, m', L.free, a + 1, b + 1)
    && 0 <= a < b && b + 1 < |m'|
    && m'[a + 1] == 4 * (b - a) + h
    && (isFree ==> && h == 1 && b in L.chunks && b !in L.free
                   && m'[b] == 4 * (b - a) && m'[b + 1] == 4 * SizeOf(L, b))
    && (!isFree ==> m'[b + 1] == 4 * SizeOf(L, b) + 1)
  }

  lemma MergeTags(m: Words, m': Words, L: Layout, a: int, b: int, h: int, isFree: bool)
    requires Tiled(L) && Tagged(m, L) && a in L.chunks && Boundary(L, b) && a < b && HeadWord(m, L, a, h)
    requires MergeWords(m, m', L, a, b, h, isFree)
    ensures var L' := Merge(L, a, b, isFree);
            Tiled(L') && Tagged(m', L')
  {
    MergeTiled(L, a, b, isFree);
    MergeChunks(m, m', L, a, b, h, isFree);
    TagKept(m, m', L, L.free, L.base, a + 1, b + 1);
    TagKept(m, m', L, L.free, L.top, a + 1, b + 1);
  }

  /** Everything from a on becomes top. */
  lemma MergeTopTags(m: Words, m': Words, L: Layout, a: int)
    requires Tiled(L) && Tagged(m, L) && Boundary(L, a) && HeadWord(m, L, a, 1)
    requires SameOutside(m, m', L.free, a + 1, L.end) && m'[a + 1] == 4 * (L.end - a) + 1
    ensures var L' := MergeTop(L, a);
            Tiled(L') && Tagged(m', L')
  {
    hide Apart;
    var L' := MergeTop(L, a);
    MergeTopTiled(L, a);
    OthersKept(m, m', L, L', a, L.end, 1, L.end);
    TagKept(m, m', L, L.free, L.base, a + 1, L.end);
  }

  /** The space from a to the end is re-cut into a live chunk of n words and top. */
  function Recut(L: Layout, a: int, n: int): Layout { CarveTop(MergeTop(L, a), n) }

  lemma RecutTiled(L: Layout, a: int, n: int)
    requires Tiled(L) && Boundary(L, a) && MINWORDS <= n && n % 2 == 0 && MINWORDS <= L.end - a - n
    ensures Tiled(Recut(L, a, n))
  {
    MergeTopTiled(L, a);
    CarveTopTiled(MergeTop(L, a), n);
  }

  lemma RecutTags(m: Words, m': Words, L: Layout, a: int, n: int, h: int)
    requires Tiled(L) && Tagged(m, L) && Boundary(L, a) && HeadWord(m, L, a, h)
    requires MINWORDS <= n && n % 2 == 0 && MINWORDS <= L.end - a - n
    requires SameOutside(m, m', L.free, a + 1, L.end)
    requires m'[a + 1] == 4 * n + h && m'[a + n + 1] == 4 * (L.end - a - n) + 1
    ensures var L' := Recut(L, a, n);
            Tiled(L') && Tagged(m', L')
  {
    RecutTiled(L, a, n);
    RecutChunks(m, m', L, a, n, h);
    TagKept(m, m', L, L.free, L.base, a + 1, L.end);
  }

  lemma RecutChunks(m: Words, m': Words, L: Layout, a: int, n: int, h: int)
    requires Tiled(L) && Tagged(m, L) && Boundary(L, a) && HeadWord(m, L, a, h)
    requires MINWORDS <= n && n % 2 == 0 && MINWORDS <= L.end - a - n
    requires SameOutside(m, m', L.free, a + 1, L.end)
    requires m'[a + 1] == 4 * n + h && m'[a + n + 1] == 4 * (L.end - a - n) + 1
    ensures var L' := Recut(L, a, n);
            forall p {:trigger ChunkOk(m', L', p)} | p in L'.chunks :: ChunkOk(m', L', p)
  {
    hide Apart;
    var L' := Recut(L, a, n);
    assert ChunkOk(m', L', a);
    assert SameChunksOutside(L, L', a, L.end);
    OthersKept(m, m', L, L', a, L.end, h, L.end);
  }

  /** sbrk moved the end of the arena up. */
  lemma ExtendTags(m: Words, m': Words, L: Layout, end: int)
    requires Tiled(L) && Tagged(m, L) && L.end <= end <= MAX_WORDS && end % 2 == 0 && |m'| == end
    requires forall w | 0 <= w < L.end && w != L.top + 1 :: m'[w] == m[w]
    requires m'[L.top + 1] == 4 * (end - L.top) + 1
    ensures var L' := L.(end := end);
            Tiled(L') && Tagged(m', L')
  {
    var L' := L.(end := end);
    forall p {:trigger Next(L', p)} | p in L'.chunks ensures Boundary(L', Next(L', p)) {
      assert Boundary(L, Next(L, p));
    }
    assert Sized(L') && Apart(L') && Closed(L') && Boundary(L', L'.base);
    forall p {:trigger ChunkOk(m', L', p)} | p in L'.chunks ensures ChunkOk(m', L', p) {
      assert ChunkOk(m, L, p);
      assert Next(L', p) == Next(L, p);
    }
  }

  /** A free chunk has a live predecessor, or none. */
  lemma FreeHead(m: Words, L: Layout, p: int)
    requires Tiled(L) && Tagged(m, L) && p in L.free
    ensures HeadWord(m, L, p, 1)
  {
    assert ChunkOk(m, L, p);
    if p != L.base {
      var q := Predecessor(L, p);
      assert ChunkOk(m, L, q);
    }
  }

  /** A clear PREV_INUSE bit leads, through the foot, to the free predecessor. */
  lemma FootLeadsBack(m: Words, L: Layout, p: int)
    requires Tiled(L) && Tagged(m, L) && p in L.chunks
    ensures HeadWord(m, L, p, m[p + 1] % 2)
    ensures m[p + 1] % 2 == 0 ==> var q := p - m[p] / 4; q in L.free && Next(L, q) == p
  {
    assert ChunkOk(m, L, p);
    if m[p + 1] % 2 == 0 {
      var q := Predecessor(L, p);
      assert ChunkOk(m, L, q);
    }
  }

  /** The PREV_INUSE bit after a chunk tells whether the chunk is free. */
  lemma NextFlag(m: Words, L: Layout, p: int)
    requires Tiled(L) && Tagged(m, L) && p in L.chunks
    ensures ChunkOk(m, L, p) && Boundary(L, Next(L, p)) && SizeAt(m, p) == L.chunks[p]
    ensures m[Next(L, p) + 1] % 2 == 0 <==> p in L.free
  {
    hide Apart;
    assert ChunkOk(m, L, p);
  }
}
