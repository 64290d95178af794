/** The allocator's invariant, and what every change of memory does to it. */
module MallocSteps {
  import opened MallocBins
  import opened ChunkLayout
  import opened FreeLists
  import opened BoundaryTags
  import Payload

  const PAGE_WORDS := 1024               // a page of 4096 bytes
  const SIZE_LIMIT := 0x1_0000_0000      // size_t has 32 bits
  const LONG_LIMIT := 0x8000_0000        // and so has long

  /** request2size: a request of `req` bytes padded to a chunk size, in bytes.
      The sum is unsigned and the comparison signed, both of 32 bits. */
  function Request2Size(req: nat): (nb: nat)
    ensures 16 <= nb < LONG_LIMIT && nb % 8 == 0
  {
    var sum := (req + 11) % SIZE_LIMIT;
    if sum < 23 || LONG_LIMIT <= sum then 16 else sum / 8 * 8
  }

  /** The padded size holds the request and its header word exactly for requests below 2^31 - 11 bytes. */
  lemma RequestFits(req: nat)
    requires req < SIZE_LIMIT
    ensures req + 4 <= Request2Size(req) <==> req < LONG_LIMIT - 11
    ensures 12 <= req < LONG_LIMIT - 11 ==> Request2Size(req) < req + 4 + 8
    ensures LONG_LIMIT - 11 <= req ==> Request2Size(req) == 16
  {
  }

  /** (long) of an unsigned word. */
  function Long(x: int): (l: int)
    ensures -LONG_LIMIT <= l < LONG_LIMIT
    ensures -LONG_LIMIT <= x < LONG_LIMIT ==> l == x
  {
    var w := x % SIZE_LIMIT;
    if w < LONG_LIMIT then w else w - SIZE_LIMIT
  }

  /** remainder_size, in bytes, of a chunk of size words for a request of nb words. */
  function Excess(size: int, nb: int): (x: int)
    ensures 0 <= size <= MAX_WORDS && 0 < nb <= MAX_WORDS && size - nb < MAX_WORDS ==> x == 4 * (size - nb)
  {
    Long(4 * size - 4 * nb)
  }

  /** It is the difference exactly while that is less than 2^31 bytes. */
  lemma ExcessIsExact(size: int, nb: int)
    requires 0 <= size < 2 * MAX_WORDS && 0 < nb < MAX_WORDS
    ensures Excess(size, nb) == 4 * (size - nb) <==> size - nb < MAX_WORDS
  {
    if MAX_WORDS <= size - nb { assert Excess(size, nb) == 4 * (size - nb) - SIZE_LIMIT; }
  }

  /** realloc's tests: whether have words reach for a chunk of nb words, and for one with a top behind it. */
  predicate Reaches(have: int, nb: int) { Long(4 * have) >= Long(4 * nb) }

  predicate ReachesTop(have: int, nb: int) { Long(4 * have) >= Long(4 * nb + 4 * MINWORDS) }

  /** Inside the arena the first test is right, and the second exactly when the sum on its right does not wrap. */
  lemma ReachesIsExact(have: int, nb: int)
    requires 0 <= have < MAX_WORDS && 4 <= nb < MAX_WORDS
    ensures Reaches(have, nb) <==> have >= nb
    ensures (ReachesTop(have, nb) <==> have >= nb + MINWORDS) <==> 4 * nb + 4 * MINWORDS < LONG_LIMIT
    ensures LONG_LIMIT <= 4 * nb + 4 * MINWORDS ==> ReachesTop(have, nb)
  {
    if LONG_LIMIT <= 4 * nb + 4 * MINWORDS { assert Long(4 * nb + 4 * MINWORDS) == 4 * nb + 4 * MINWORDS - SIZE_LIMIT; }
  }

  /** The requests for which it wraps. */
  lemma WrappingRequests(req: nat)
    requires req < SIZE_LIMIT
    ensures LONG_LIMIT <= Request2Size(req) + 4 * MINWORDS <==> LONG_LIMIT - 27 <= req < LONG_LIMIT - 11
  {
  }

  /** One of them: any block that borders top is taken to grow by 2^31 bytes. */
  lemma WrappingRequest(have: int)
    requires 0 <= have < MAX_WORDS
    ensures var nb := Request2Size(LONG_LIMIT - 12) / 4; ReachesTop(have, nb) && have < nb + MINWORDS
  {
    ReachesIsExact(have, Request2Size(LONG_LIMIT - 12) / 4);
  }

  /** The complete invariant, on values: memory, top, binblocks, and the ghost tiling and lists. */
  ghost predicate Inv(m: Words, top: int, binblocks: nat, L: Layout, B: Bins) {
    && Linked(m, B) && binblocks < Pow2(WORD_BITS) && Marked(binblocks, B)
    && (top == 0 ==> binblocks == 0 && L.chunks == map[] && L.free == {} && B.home == map[])
    && (top == 0 ==> forall i | 0 <= i < NAV :: B.lists[i] == [])
    && (top != 0 ==> && Tiled(L) && Tagged(m, L) && L.top == top
                     && B.home.Keys == L.free && Filed(L.chunks, B))
  }

  /** Inv from its parts once the arena exists. */
  lemma MakeInv(m: Words, binblocks: nat, L: Layout, B: Bins, sizes: map<int, int>)
    requires Linked(m, B) && binblocks < Pow2(WORD_BITS) && Marked(binblocks, B)
    requires Tiled(L) && Tagged(m, L) && B.home.Keys == L.free && Filed(sizes, B)
    requires forall x | x in L.free :: x in sizes && sizes[x] == L.chunks[x]
    ensures Inv(m, L.top, binblocks, L, B)
  {
    FiledSizes(sizes, L.chunks, m, B);
  }

  /** The tag words at a boundary are not link words. */
  lemma TagWord(L: Layout, a: int)
    requires Tiled(L) && Boundary(L, a)
    ensures 0 <= a && a + 1 < L.end && !LinkWord(L.free, a) && !LinkWord(L.free, a + 1)
  {
  }

  /** What the tags say of a live chunk that borders top. */
  lemma AtTop(m: Words, L: Layout, chunk: int)
    requires Tiled(L) && Tagged(m, L) && Live(L, chunk) && Next(L, chunk) == L.top
    ensures |m| == L.end && 0 <= chunk && chunk + 1 < L.end && 0 <= L.top < L.end - 1 && L.free <= L.chunks.Keys
    ensures SizeAt(m, chunk) == L.chunks[chunk] && SizeAt(m, L.top) == L.end - L.top
  {
    NextFlag(m, L, chunk);
  }

  lemma MergeTopBlocks(m: Words, m': Words, L: Layout, a: int, chunk: int)
    requires Tiled(L) && |m| == L.end && |m'| == |m| && Live(L, chunk) && Next(L, chunk) == L.top
    requires a == chunk || (a in L.free && Next(L, a) == chunk)
    requires Tiled(MergeTop(L, a)) && SameOutside(m, m', L.free, a + 1, L.end)
    ensures Payload.Blocks(m', MergeTop(L, a)) == Payload.Blocks(m, L) - {chunk}
    ensures MergeTop(L, a).free == L.free - {a}
  {
    hide Tiled, SameOutside, Payload.Blocks, MergeTop;
    MergeTopLive(L, a, chunk);
    Payload.BlocksKept(m, m', L, MergeTop(L, a), a + 1, L.end, {chunk}, {});
    assert Payload.Blocks(m', MergeTop(L, a)) - {} == Payload.Blocks(m', MergeTop(L, a));
  }

  lemma MergeTopLive(L: Layout, a: int, chunk: int)
    requires Tiled(L) && Live(L, chunk) && Next(L, chunk) == L.top
             && (a == chunk || (a in L.free && Next(L, a) == chunk))
    ensures var L' := MergeTop(L, a);
            && L'.end == L.end && L'.free == L.free - {a}
            && (forall p | Live(L, p) && p != chunk ::
                Live(L', p) && L'.chunks[p] == L.chunks[p] && p + L.chunks[p] < a + 1)
            && (forall p | Live(L', p) :: Live(L, p) && p != chunk)
  {
  }

  lemma FreedIntoTop(m: Words, m': Words, binblocks: nat, L: Layout, B: Bins, a: int, chunk: int)
    requires Tiled(L) && Tagged(m, L) && Live(L, chunk) && Next(L, chunk) == L.top
    requires a == chunk || (a in L.free && Next(L, a) == chunk)
    requires HeadWord(m, L, a, 1) && SameOutside(m, m', L.free, a + 1, L.end) && m'[a + 1] == 4 * (L.end - a) + 1
    requires Linked(m', B) && binblocks < Pow2(WORD_BITS) && Marked(binblocks, B)
    requires B.home.Keys == L.free - {a} && Filed(L.chunks, B)
    ensures Inv(m', a, binblocks, MergeTop(L, a), B)
    ensures Payload.Blocks(m', MergeTop(L, a)) == Payload.Blocks(m, L) - {chunk}
  {
    MergeTopTags(m, m', L, a);
    MergeTopBlocks(m, m', L, a, chunk);
    MakeInv(m', binblocks, MergeTop(L, a), B, L.chunks);
  }

  lemma MergeBlocks(m: Words, m': Words, L: Layout, a: int, b: int, chunk: int)
    requires Tiled(L) && |m| == L.end && |m'| == |m| && Live(L, chunk)
    requires a in L.chunks && Boundary(L, b) && a <= chunk < b
    requires forall p | p in L.chunks && a <= p < b && p != chunk :: p in L.free
    requires Tiled(Merge(L, a, b, true)) && SameOutside(m, m', L.free, a + 1, b + 1)
    ensures Payload.Blocks(m', Merge(L, a, b, true)) == Payload.Blocks(m, L) - {chunk}
  {
    hide Sized;
    var L' := Merge(L, a, b, true);
    forall p | Live(L, p) && p != chunk
      ensures Live(L', p) && L'.chunks[p] == L.chunks[p] && (b + 1 < p + 2 || p + L.chunks[p] < a + 1)
    {
    }
    Payload.BlocksKept(m, m', L, L', a + 1, b + 1, {chunk}, {});
  }

  /** [a, b) is a live chunk with its free neighbours. */
  ghost predicate Around(L: Layout, a: int, b: int, chunk: int) {
    && Live(L, chunk) && a in L.chunks && b in L.chunks && b !in L.free && Next(L, chunk) <= b
    && (a == chunk || (a in L.free && Next(L, a) == chunk))
    && Next(L, chunk) in L.chunks
    && (b == Next(L, chunk) || (Next(L, chunk) in L.free && Next(L, Next(L, chunk)) == b))
  }

  lemma AroundShape(L: Layout, a: int, b: int, chunk: int)
    requires Tiled(L) && Around(L, a, b, chunk)
    ensures AV_WORDS <= a && a % 2 == 0 && 4 <= b - a && (b - a) % 2 == 0 && b + 3 < L.end
    ensures Next(L, chunk) in L.chunks && a + 4 <= Next(L, chunk) <= b
  {
    hide Apart, Closed;
    assert a % 2 == 0 && b % 2 == 0 && b + L.chunks[b] <= L.top;
    EvenGap(a, b);
  }

  lemma EvenGap(a: int, b: int)
    requires a % 2 == 0 && b % 2 == 0
    ensures (b - a) % 2 == 0
  {
  }

  lemma AroundMerge(L: Layout, a: int, b: int, chunk: int)
    requires Tiled(L) && Around(L, a, b, chunk)
    ensures Merge(L, a, b, true).free == L.free - {Next(L, chunk)} + {a}
    ensures forall p | p in L.chunks && a <= p < b && p != chunk :: p in L.free
  {
  }

  /** The three tag writes of free. */
  function FreeTagWords(m: Words, a: int, b: int, next: int, nextsz: int): (m': Words)
    requires 0 <= a < b < |m| && 0 <= next && next + 1 < |m|
    ensures |m'| == |m|
  {
    m[next + 1 := 4 * nextsz][a + 1 := 4 * (b - a) + 1][b := 4 * (b - a)]
  }

  /** The tag writes of free merge the chunks around the block. */
  lemma FreeWords(m: Words, m1: Words, m': Words, L: Layout, a: int, b: int, chunk: int)
    requires Tiled(L) && Tagged(m, L) && Around(L, a, b, chunk)
    requires SameExceptLinks(m, m1, L.free + {a})
    requires 0 <= a < b < |m1| && 0 <= Next(L, chunk) < |m1| - 1
    requires m' == FreeTagWords(m1, a, b, Next(L, chunk), SizeOf(L, Next(L, chunk)))
    ensures MergeWords(m, m', L, a, b, 1, true) && SameOutside(m, m', L.free, a + 1, b + 1)
  {
    hide Tiled, Tagged;
    AroundShape(L, a, b, chunk);
    NextFlag(m, L, chunk);
    NextFlag(m, L, Next(L, chunk));
    TagWord(L, a);
    TagWord(L, b);
  }

  lemma RelinkedWords(m: Words, m1: Words, m': Words, L: Layout, a: int, b: int, chunk: int)
    requires Tiled(L) && Around(L, a, b, chunk) && |m| == L.end
    requires MergeWords(m, m1, L, a, b, 1, true) && SameExceptLinks(m1, m', L.free + {a})
    ensures MergeWords(m, m', L, a, b, 1, true)
  {
    hide Tiled;
    AroundShape(L, a, b, chunk);
    TagWord(L, a);
    TagWord(L, b);
  }

  /** Free chunks that are not merged keep their size words. */
  lemma SizesOutside(m: Words, m': Words, L: Layout, a: int, b: int, chunk: int)
    requires Tiled(L) && Tagged(m, L) && Around(L, a, b, chunk) && SameOutside(m, m', L.free, a + 1, b + 1)
    ensures forall x | x in L.free && x != a && x != Next(L, chunk) ::
              0 <= x && x + 1 < |m'| && SizeAt(m', x) == L.chunks[x]
  {
    forall x | x in L.free && x != a && x != Next(L, chunk)
      ensures 0 <= x && x + 1 < |m'| && SizeAt(m', x) == L.chunks[x]
    {
      TagKept(m, m', L, L.free, x, a + 1, b + 1);
      NextFlag(m, L, x);
    }
  }

  lemma FreeSizes(m: Words, L: Layout)
    requires Tiled(L) && Tagged(m, L)
    ensures |m| == L.end && forall x | x in L.free ::
              x in L.chunks && 0 <= x && x + 1 < |m| && SizeAt(m, x) == L.chunks[x]
  {
    forall x | x in L.free ensures x in L.chunks && 0 <= x && x + 1 < |m| && SizeAt(m, x) == L.chunks[x] {
      NextFlag(m, L, x);
    }
  }

  /** List operations leave the size words of free chunks alone. */
  lemma KeepSizes(m: Words, m': Words, L: Layout)
    requires Tiled(L) && Tagged(m, L) && SameExceptLinks(m, m', L.free)
    ensures forall x | x in L.free :: x in L.chunks && 0 <= x && x + 1 < |m'| && SizeAt(m', x) == L.chunks[x]
  {
    FreeSizes(m, L);
    forall x | x in L.free ensures x in L.chunks && 0 <= x && x + 1 < |m'| && SizeAt(m', x) == L.chunks[x] {
      TagKept(m, m', L, L.free, x, -1, -1);
    }
  }

  lemma FreedChunk(m: Words, m': Words, binblocks: nat, L: Layout, B: Bins, a: int, b: int, chunk: int)
    requires Tiled(L) && Tagged(m, L) && Around(L, a, b, chunk)
    requires HeadWord(m, L, a, 1) && MergeWords(m, m', L, a, b, 1, true)
    requires Linked(m', B) && binblocks < Pow2(WORD_BITS) && Marked(binblocks, B)
    requires B.home.Keys == L.free - {Next(L, chunk)} + {a} && Filed(L.chunks[a := b - a], B)
    ensures Inv(m', L.top, binblocks, Merge(L, a, b, true), B)
    ensures Payload.Blocks(m', Merge(L, a, b, true)) == Payload.Blocks(m, L) - {chunk}
  {
    hide Linked, Marked, Filed, Tagged, MergeWords, Payload.Blocks, HeadWord, Pow2;
    MergeTags(m, m', L, a, b, 1, true);
    assert SameOutside(m, m', L.free, a + 1, b + 1) by { MergeWordsFrame(m, m', L, a, b); }
    AroundMerge(L, a, b, chunk);
    MergeBlocks(m, m', L, a, b, chunk);
    MakeInv(m', binblocks, Merge(L, a, b, true), B, L.chunks[a := b - a]);
  }

  lemma MergeWordsFrame(m: Words, m': Words, L: Layout, a: int, b: int)
    requires MergeWords(m, m', L, a, b, 1, true)
    ensures SameOutside(m, m', L.free, a + 1, b + 1)
  {
  }

  lemma TookChunk(m: Words, m': Words, binblocks: nat, L: Layout, B: Bins, v: int)
    requires Tiled(L) && Tagged(m, L) && v in L.free
    requires SameOutside(m, m', L.free, Next(L, v) + 1, Next(L, v) + 1)
    requires m'[Next(L, v) + 1] == 4 * SizeOf(L, Next(L, v)) + 1
    requires Linked(m', B) && binblocks < Pow2(WORD_BITS) && Marked(binblocks, B)
    requires B.home.Keys == L.free - {v} && Filed(L.chunks, B)
    ensures var L' := L.(free := L.free - {v});
            && Inv(m', L.top, binblocks, L', B)
            && Payload.Blocks(m', L') - {v} == Payload.Blocks(m, L)
            && v in Payload.Blocks(m', L') && v !in Payload.Blocks(m, L)
  {
    hide Linked, Marked, Filed, Tagged, Pow2;
    var L' := L.(free := L.free - {v});
    TopHead(m, L);
    TakeTags(m, m', L, v);
    MakeInv(m', binblocks, L', B, L.chunks);
    Payload.BlocksKept(m, m', L, L', Next(L, v) + 1, Next(L, v) + 1, {}, {v});
    assert Payload.Blocks(m, L) - {} == Payload.Blocks(m, L);
  }

  lemma CarvedChunk(m: Words, m': Words, binblocks: nat, L: Layout, B: Bins, v: int, nb: int)
    requires Tiled(L) && Tagged(m, L) && v in L.free && HeadWord(m, L, v, 1)
    requires MINWORDS <= nb && nb % 2 == 0 && MINWORDS <= L.chunks[v] - nb
    requires SplitWords(m, m', L, v, nb, 1, Next(L, v))
    requires Linked(m', B) && binblocks < Pow2(WORD_BITS) && Marked(binblocks, B)
    requires B.home.Keys == L.free - {v} + {v + nb} && Filed(L.chunks[v + nb := L.chunks[v] - nb], B)
    ensures var L' := Split(L, v, nb, false, true);
            && Inv(m', L.top, binblocks, L', B)
            && Payload.Blocks(m', L') - {v} == Payload.Blocks(m, L)
            && v in Payload.Blocks(m', L') && v !in Payload.Blocks(m, L)
  {
    hide Linked, Marked, Filed, HeadWord, ChunkOk, Payload.Blocks, Pow2;
    var L' := Split(L, v, nb, false, true);
    SplitTags(m, m', L, v, nb, 1, Next(L, v));
    SplitTiled(L, v, nb, false, true);
    MakeInv(m', binblocks, L', B, L.chunks[v + nb := L.chunks[v] - nb]);
    CarvedBlocks(m, m', L, v, nb);
  }

  lemma CarvedBlocks(m: Words, m': Words, L: Layout, v: int, nb: int)
    requires Tiled(L) && |m| == L.end && v in L.free && MINWORDS <= nb && MINWORDS <= L.chunks[v] - nb
    requires Tiled(Split(L, v, nb, false, true)) && |m'| == L.end && SameOutside(m, m', L.free, v + 1, Next(L, v))
    ensures var L' := Split(L, v, nb, false, true);
            && Payload.Blocks(m', L') - {v} == Payload.Blocks(m, L)
            && v in Payload.Blocks(m', L') && v !in Payload.Blocks(m, L)
  {
    Payload.BlocksKept(m, m', L, Split(L, v, nb, false, true), v + 1, Next(L, v), {}, {v});
    assert Payload.Blocks(m, L) - {} == Payload.Blocks(m, L);
  }

  /** The tag writes of a split, with a free tail. */
  function CarveTagWords(m: Words, v: int, nb: int, q: int): (m': Words)
    requires 0 <= v && 0 < nb && v + nb < q < |m|
    ensures |m'| == |m|
  {
    m[v + 1 := 4 * nb + 1][v + nb + 1 := 4 * (q - v - nb) + 1][q := 4 * (q - v - nb)]
  }

  lemma CarveShape(L: Layout, v: int, nb: int)
    requires Tiled(L) && v in L.free && MINWORDS <= nb && nb % 2 == 0 && MINWORDS <= L.chunks[v] - nb
    ensures var rem, q := v + nb, Next(L, v);
            && AV_WORDS <= v && v % 2 == 0 && rem % 2 == 0 && q + 1 < L.end && rem !in L.free && (q - rem) % 2 == 0
            && forall w | w in {v + 1, rem + 1, q} :: !LinkWord(L.free - {v} + {rem}, w)
  {
    hide Closed;
    var rem, q := v + nb, Next(L, v);
    assert v % 2 == 0 && q % 2 == 0 by { EvenSum(v, L.chunks[v]); }
    EvenSum(v, nb);
    EvenGap(rem, q);
    assert forall x | x in L.free && x != v :: x + 4 <= v || q <= x;
  }

  lemma EvenSum(a: int, b: int)
    requires a % 2 == 0 && b % 2 == 0
    ensures (a + b) % 2 == 0
  {
  }

  lemma CarvedWords(m: Words, m1: Words, L: Layout, v: int, nb: int)
    requires Tiled(L) && |m| == L.end && v in L.free
    requires MINWORDS <= nb && nb % 2 == 0 && MINWORDS <= L.chunks[v] - nb
    requires SameExceptLinks(m, m1, L.free + {v + nb}) && 0 <= v && Next(L, v) < |m1|
    ensures SplitWords(m, CarveTagWords(m1, v, nb, Next(L, v)), L, v, nb, 1, Next(L, v))
  {
    CarveShape(L, v, nb);
  }

  lemma CarvedTop(m: Words, m': Words, binblocks: nat, L: Layout, B: Bins, nb: int)
    requires Inv(m, L.top, binblocks, L, B) && L.top != 0
    requires MINWORDS <= nb && nb % 2 == 0 && MINWORDS <= L.end - L.top - nb
    requires m' == m[L.top + 1 := 4 * nb + 1][L.top + nb + 1 := 4 * (L.end - L.top - nb) + 1]
    ensures var L' := Recut(L, L.top, nb);
            && Inv(m', L.top + nb, binblocks, L', B) && Live(L', L.top) && L'.chunks[L.top] == nb && L'.free == L.free
            && Payload.Blocks(m', L') - {L.top} == Payload.Blocks(m, L)
            && L.top in Payload.Blocks(m', L') && L.top !in Payload.Blocks(m, L)
  {
    hide Marked, Filed, Tagged, Tiled, Linked, Payload.Blocks, Recut;
    TopHead(m, L);
    TopIsFar(L);
    RecutTags(m, m', L, L.top, nb, 1);
    CarvedTopShape(m, m', L, nb);
    LinkedFrame(m, m', B);
    MakeInv(m', binblocks, Recut(L, L.top, nb), B, L.chunks);
  }

  lemma TopIsFar(L: Layout)
    requires Tiled(L)
    ensures forall w | L.top < w :: !LinkWord(L.free, w)
  {
  }

  lemma CarvedTopShape(m: Words, m': Words, L: Layout, nb: int)
    requires Tiled(L) && |m| == L.end && SameOutside(m, m', L.free, L.top + 1, L.end) && Tiled(Recut(L, L.top, nb))
    ensures var L' := Recut(L, L.top, nb);
            && L'.free == L.free && L'.top == L.top + nb && Live(L', L.top) && L'.chunks[L.top] == nb
            && (forall x | x in L.free :: x in L.chunks && L'.chunks[x] == L.chunks[x])
            && Payload.Blocks(m', L') - {L.top} == Payload.Blocks(m, L)
            && L.top in Payload.Blocks(m', L') && L.top !in Payload.Blocks(m, L)
  {
    hide Apart;
    Payload.BlocksKept(m, m', L, Recut(L, L.top, nb), L.top + 1, L.end, {}, {L.top});
    assert Payload.Blocks(m, L) - {} == Payload.Blocks(m, L);
  }

  function Zeros(n: nat): (z: Words)
    ensures |z| == n
  {
    seq(n, i => 0)
  }

  /** Rounded up to pages. */
  function PageUp(size: nat): (up: nat)
    ensures size <= up < size + PAGE_WORDS && up % 2 == 0 && up % PAGE_WORDS == 0
  {
    var pages := (size + (PAGE_WORDS - 1)) / PAGE_WORDS;
    assert pages * PAGE_WORDS == 2 * (512 * pages);
    WholePage(pages);
    pages * PAGE_WORDS
  }

  lemma WholePage(n: nat)
    ensures n * PAGE_WORDS % PAGE_WORDS == 0
  {
  }

  lemma WholePages(a: nat, b: nat)
    ensures a % PAGE_WORDS == 0 && b % PAGE_WORDS == 0 ==> (a + b) % PAGE_WORDS == 0
  {
    if a % PAGE_WORDS == 0 && b % PAGE_WORDS == 0 {
      assert a + b == (a / PAGE_WORDS + b / PAGE_WORDS) * PAGE_WORDS;
      WholePage(a / PAGE_WORDS + b / PAGE_WORDS);
    }
  }

  /** The second sbrk request: align the first chunk, which starts at `start`, and end at a page boundary. */
  function Correction(brk: nat, start: nat, size: nat): (c: nat)
    requires start == brk || start == brk + 1
    ensures (brk + size + c) % PAGE_WORDS == 0 && (brk + size + c) % 2 == 0
    ensures start - brk < c <= PAGE_WORDS + 1
  {
    (start - brk) + PAGE_WORDS - (start + size) % PAGE_WORDS
  }

  lemma Extended(m: Words, m': Words, binblocks: nat, L: Layout, B: Bins, end: int)
    requires Inv(m, L.top, binblocks, L, B) && L.top != 0 && L.end <= end <= MAX_WORDS && end % 2 == 0 && |m'| == end
    requires forall w | 0 <= w < L.end && w != L.top + 1 :: m'[w] == m[w]
    requires L.top + 1 < |m'| && m'[L.top + 1] == 4 * (end - L.top) + 1
    ensures var L' := L.(end := end);
            Inv(m', L.top, binblocks, L', B) && Payload.Blocks(m', L') == Payload.Blocks(m, L)
  {
    hide Marked, Filed;
    var L' := L.(end := end);
    ExtendTags(m, m', L, end);
    LinkedFrame(m, m', B);
    forall p | Live(L, p) ensures Payload.Contents(m', L', p) == Payload.Contents(m, L, p) {
    }
  }

  lemma FirstTop(m: Words, binblocks: nat, L: Layout, B: Bins)
    requires Linked(m, B) && binblocks < Pow2(WORD_BITS) && Marked(binblocks, B) && B.home == map[]
    requires forall i | 0 <= i < NAV :: B.lists[i] == []
    requires L.chunks == map[] && L.free == {} && L.base == L.top && AV_WORDS <= L.top && L.top % 2 == 0
             && L.end % 2 == 0
    requires |m| == L.end <= MAX_WORDS && MINWORDS <= L.end - L.top && m[L.top + 1] == 4 * (L.end - L.top) + 1
    ensures Inv(m, L.top, binblocks, L, B) && Payload.Blocks(m, L) == map[]
  {
    hide Pow2;
  }

  lemma TopHead(m: Words, L: Layout)
    requires Tiled(L) && Tagged(m, L)
    ensures |m| == L.end && AV_WORDS <= L.top && L.top + MINWORDS <= L.end && L.top !in L.chunks
    ensures HeadWord(m, L, L.top, 1) && SizeAt(m, L.top) == L.end - L.top
  {
  }

  /** Moving chunks between bins touches neither tags nor blocks. */
  lemma Relinked(m: Words, m': Words, binblocks: nat, L: Layout, B: Bins)
    requires Tiled(L) && Tagged(m, L) && SameExceptLinks(m, m', L.free)
    requires Linked(m', B) && binblocks < Pow2(WORD_BITS) && Marked(binblocks, B)
    requires B.home.Keys == L.free && Filed(L.chunks, B)
    ensures Inv(m', L.top, binblocks, L, B) && Payload.Blocks(m', L) == Payload.Blocks(m, L)
  {
    hide Linked, Marked, Filed, ChunkOk, SameExceptLinks, Payload.Blocks;
    RelinkedTags(m, m', L);
    RelinkedBlocks(m, m', L);
  }

  lemma RelinkedTags(m: Words, m': Words, L: Layout)
    requires Tiled(L) && Tagged(m, L) && SameExceptLinks(m, m', L.free)
    ensures Tagged(m', L)
  {
    forall p {:trigger ChunkOk(m', L, p)} | p in L.chunks ensures ChunkOk(m', L, p) {
      assert ChunkOk(m, L, p);
      ChunkKept(m, m', L, L, L.free, p, -1, -1);
    }
    TagKept(m, m', L, L.free, L.base, -1, -1);
    TagKept(m, m', L, L.free, L.top, -1, -1);
  }

  lemma RelinkedBlocks(m: Words, m': Words, L: Layout)
    requires Tiled(L) && |m| == L.end && SameExceptLinks(m, m', L.free)
    ensures |m'| == L.end && Payload.Blocks(m', L) == Payload.Blocks(m, L)
  {
    Payload.BlocksKept(m, m', L, L, -1, -1, {}, {});
    assert Payload.Blocks(m, L) - {} == Payload.Blocks(m, L);
    assert Payload.Blocks(m', L) - {} == Payload.Blocks(m', L);
  }

  // ----- realloc: a chunk that has been joined with its neighbours but not yet given its tags -----

  /** set_head_size(p, n) and set_inuse_bit_at_offset(p, n). */
  function Patched(m: Words, p: int, n: int): (m': Words)
    requires 0 <= p && 1 <= n && p + n + 1 < |m|
    ensures |m'| == |m|
  {
    m[p + 1 := 4 * n + m[p + 1] % 2][p + n + 1 := WithFlag(m[p + n + 1])]
  }

  /** [a, b) is the live chunk o with a free predecessor, a free successor, both or neither. */
  ghost predicate Region(L: Layout, a: int, b: int, o: int) {
    && Live(L, o) && a in L.chunks && Boundary(L, b) && Next(L, o) <= b
    && (a == o || (a in L.free && Next(L, a) == o))
    && (b == Next(L, o) || (Next(L, o) in L.free && Next(L, o) in L.chunks && Next(L, Next(L, o)) == b))
  }

  /** Where realloc can grow block o to nb words without moving it: into a free successor, or into top if a
      top is left. */
  ghost predicate GrowsInPlace(L: Layout, o: int, nb: int)
    requires o in L.chunks
  {
    || (Next(L, o) in L.free && Next(L, o) in L.chunks && nb <= Next(L, Next(L, o)) - o)
    || (Next(L, o) == L.top && nb + MINWORDS <= L.end - o)
  }

  /** The same from a free predecessor q on: with what may follow o, or with o alone. */
  ghost predicate GrowsBack(L: Layout, q: int, o: int, nb: int)
    requires o in L.chunks
  {
    && q in L.free && q in L.chunks && Next(L, q) == o
    && (nb <= Next(L, o) - q || GrowsWith(L, q, o, nb))
  }

  ghost predicate GrowsWith(L: Layout, q: int, o: int, nb: int)
    requires o in L.chunks
  {
    || (Next(L, o) in L.free && Next(L, o) in L.chunks && nb <= Next(L, Next(L, o)) - q)
    || (Next(L, o) == L.top && nb + MINWORDS <= L.end - q)
  }

  /** The sizes around o that realloc reads tell where it can grow. */
  lemma GrowthTold(L: Layout, o: int, nb: int, next: int, nextsize: int, prev: int, prevsize: int)
    requires Tiled(L) && Live(L, o)
    requires next == if Next(L, o) == L.top || Next(L, o) in L.free then Next(L, o) else 0
    requires nextsize == if next == 0 then 0 else if next == L.top then L.end - L.top else L.chunks[next]
    requires if prev == 0 then prevsize == 0 && forall q | q in L.free && q in L.chunks :: Next(L, q) != o
             else prev in L.chunks && prev in L.free && Next(L, prev) == o && prevsize == L.chunks[prev]
    ensures var have, more := L.chunks[o], nb + if next == L.top then MINWORDS else 0;
            && (GrowsInPlace(L, o, nb) <==> next != 0 && nextsize + have >= more)
            && (forall q | GrowsBack(L, q, o, nb) :: prev != 0 && q == prev)
            && (prev != 0 ==>
                  (GrowsBack(L, prev, o, nb) <==>
                     prevsize + have >= nb || (next != 0 && nextsize + prevsize + have >= more)))
  {
    hide Closed, Boundary;
  }

  /** Nothing grows to within MINSIZE of 2^31 bytes. */
  lemma NoGrowthToLimit(L: Layout, o: int, nb: int)
    requires Tiled(L) && Live(L, o) && LONG_LIMIT <= 4 * nb + 4 * MINWORDS
    ensures !GrowsInPlace(L, o, nb) && forall q :: !GrowsBack(L, q, o, nb)
  {
    hide Closed, Boundary, Apart;
  }

  lemma RegionShape(L: Layout, a: int, b: int, o: int)
    requires Tiled(L) && Region(L, a, b, o)
    ensures AV_WORDS <= a <= o && a % 2 == 0 && (b - a) % 2 == 0 && 4 <= L.chunks[o] <= b - a && b + 1 < L.end
    ensures a != o ==> a in L.free && a < o
    ensures forall p | p in L.chunks && a <= p < b && p != o :: p in L.free
    ensures Merge(L, a, b, false).free == L.free - {a} - (if b == Next(L, o) then {} else {Next(L, o)})
  {
    hide Tiled, Region, Merge;
    RegionBounds(L, a, b, o);
    RegionMembers(L, a, b, o);
    RegionFree(L, a, b, o);
  }

  lemma RegionBounds(L: Layout, a: int, b: int, o: int)
    requires Tiled(L) && Region(L, a, b, o)
    ensures AV_WORDS <= a <= o < Next(L, o) <= b && a % 2 == 0 && (b - a) % 2 == 0
    ensures 4 <= L.chunks[o] <= b - a && b + 1 < L.end
    ensures a in L.chunks && (a != o ==> a in L.free && a < o) && Live(L, o) && L.free <= L.chunks.Keys
    ensures b != Next(L, o) ==> Next(L, o) in L.free && Next(L, o) < b
  {
    hide Apart, Closed;
    EvenGap(a, b);
  }

  /** A chunk that starts in the region is one of the three. */
  lemma RegionMembers(L: Layout, a: int, b: int, o: int)
    requires Tiled(L) && Region(L, a, b, o)
    ensures forall p | p in L.chunks && a <= p < b :: p == a || p == o || (p == Next(L, o) && b != Next(L, o))
    ensures forall p | p in L.chunks && a <= p < b && p != o :: p in L.free
  {
    hide Closed, Boundary;
  }

  lemma RegionFree(L: Layout, a: int, b: int, o: int)
    requires o in L.chunks && o !in L.free && L.free <= L.chunks.Keys && a <= o < Next(L, o) <= b
    requires forall p | p in L.chunks && a <= p < b :: p == a || p == o || (p == Next(L, o) && b != Next(L, o))
    requires b != Next(L, o) ==> Next(L, o) < b
    ensures Merge(L, a, b, false).free == L.free - {a} - (if b == Next(L, o) then {} else {Next(L, o)})
  {
  }

  lemma ForwardRegion(L: Layout, o: int, next: int, b: int)
    requires Tiled(L) && Live(L, o) && next == Next(L, o) && next in L.free && next in L.chunks && b == Next(L, next)
    ensures Region(L, o, b, o) && Merge(L, o, b, false).free == L.free - {next}
  {
    assert Boundary(L, Next(L, next));
    RegionShape(L, o, b, o);
  }

  /** The regions realloc tries, given the neighbours it found. */
  lemma Regions(L: Layout, o: int, next: int, prev: int)
    requires Tiled(L) && Live(L, o) && (next == 0 || next == Next(L, o))
    requires next != 0 && next != L.top ==> next in L.chunks && next in L.free
    requires prev != 0 ==> prev in L.chunks && prev in L.free && Next(L, prev) == o
    ensures Region(L, o, Next(L, o), o) && 4 <= L.chunks[o] && 0 < o
    ensures prev != 0 ==> Region(L, prev, Next(L, o), o) && prev < o
    ensures next != 0 && next != L.top ==> Region(L, o, Next(L, next), o)
    ensures next != 0 && next != L.top && prev != 0 ==> Region(L, prev, Next(L, next), o)
  {
    assert Boundary(L, Next(L, o));
    if next != 0 && next != L.top { assert Boundary(L, Next(L, next)); }
  }

  /** The head of the region and the head after it, before they are patched. */
  lemma RegionHeads(m: Words, m': Words, L: Layout, a: int, b: int, o: int)
    requires Tiled(L) && Tagged(m, L) && Region(L, a, b, o) && SameOutside(m, m', L.free, a + 2, b - 1)
    requires b + 1 < |m'| && 1 <= b - a && 0 <= a
    ensures |m| == L.end && HeadWord(m, L, a, m[a + 1] % 2)
    ensures MergeWords(m, Patched(m', a, b - a), L, a, b, m[a + 1] % 2, false)
  {
    hide Boundary, Apart, Live, Closed, Next;
    RegionShape(L, a, b, o);
    FootLeadsBack(m, L, a);
    TagKept(m, m', L, L.free, a, a + 2, b - 1);
    TagKept(m, m', L, L.free, b, a + 2, b - 1);
    var q := Predecessor(L, b);
    NextFlag(m, L, q);
  }

  /** Once the region is patched into one live chunk, the invariant holds and only block o has moved. */
  lemma JoinedRegion(m: Words, m': Words, binblocks: nat, L: Layout, B: Bins, a: int, b: int, o: int)
    requires Tiled(L) && Tagged(m, L) && Region(L, a, b, o) && SameOutside(m, m', L.free, a + 2, b - 1)
    requires Linked(m', B) && binblocks < Pow2(WORD_BITS) && Marked(binblocks, B) && Filed(L.chunks, B)
    requires B.home.Keys == Merge(L, a, b, false).free
    ensures 0 <= a && 1 <= b - a && b + 1 < |m'|
    ensures var L', P := Merge(L, a, b, false), Patched(m', a, b - a);
            && Inv(P, L.top, binblocks, L', B)
            && Payload.Blocks(P, L') - {a} == Payload.Blocks(m, L) - {o}
            && (a == o || a !in Payload.Blocks(m, L)) && a in Payload.Blocks(P, L')
  {
    hide Linked, Marked, Filed, Tagged, Tiled, Payload.Blocks, MergeWords, Pow2;
    RegionShape(L, a, b, o);
    TopHead(m, L);
    var L', P := Merge(L, a, b, false), Patched(m', a, b - a);
    RegionHeads(m, m', L, a, b, o);
    MergeTags(m, P, L, a, b, m[a + 1] % 2, false);
    TagWord(L, a);
    TagWord(L, b);
    LinkedFrame(m', P, B);
    MakeInv(P, binblocks, L', B, L.chunks);
    assert SameOutside(m, P, L.free, a + 1, b + 1);
    JoinedBlocks(m, P, L, a, b, o);
  }

  lemma JoinedBlocks(m: Words, m': Words, L: Layout, a: int, b: int, o: int)
    requires Tiled(L) && |m| == L.end && Region(L, a, b, o) && SameOutside(m, m', L.free, a + 1, b + 1)
    requires Tiled(Merge(L, a, b, false))
    ensures var L' := Merge(L, a, b, false);
            && Payload.Blocks(m', L') - {a} == Payload.Blocks(m, L) - {o}
            && (a == o || a !in Payload.Blocks(m, L)) && a in Payload.Blocks(m', L')
  {
    RegionShape(L, a, b, o);
    Payload.BlocksKept(m, m', L, Merge(L, a, b, false), a + 1, b + 1, {o}, {a});
  }

  ghost predicate SameStart(s: Words, t: Words) {
    forall i | 0 <= i < |s| && i < |t| :: t[i] == s[i]
  }

  /** The block of a joined region starts with the contents that were moved to it. */
  lemma JoinedStart(m: Words, m': Words, L: Layout, a: int, b: int, o: int)
    requires Tiled(L) && |m| == |m'| == L.end && Region(L, a, b, o) && Tiled(Merge(L, a, b, false))
    requires 0 <= a && 1 <= b - a && b + 1 < |m'|
    requires m'[a + 2 .. a + L.chunks[o] + 1] == m[o + 2 .. o + L.chunks[o] + 1]
    ensures var L', P := Merge(L, a, b, false), Patched(m', a, b - a);
            && Live(L', a) && L'.chunks[a] == b - a && L'.top == L.top
            && o in Payload.Blocks(m, L) && a in Payload.Blocks(P, L')
            && SameStart(Payload.Blocks(m, L)[o], Payload.Blocks(P, L')[a])
  {
    RegionShape(L, a, b, o);
    var L', P := Merge(L, a, b, false), Patched(m', a, b - a);
    assert P[a + 2 .. a + L.chunks[o] + 1] == m'[a + 2 .. a + L.chunks[o] + 1];
    MovedStart(m, P, L, L', a, o);
  }

  /** Block o, moved down to a if its predecessor is free, grows to nb words into top. */
  lemma GrownIntoTop(m: Words, m': Words, binblocks: nat, L: Layout, B: Bins, a: int, o: int, nb: int)
    requires Tiled(L) && Tagged(m, L) && Region(L, a, L.top, o) && Next(L, o) == L.top
    requires Linked(m', B) && binblocks < Pow2(WORD_BITS) && Marked(binblocks, B) && Filed(L.chunks, B)
    requires B.home.Keys == L.free - {a} && SameOutside(m, m', L.free, a + 1, L.end)
    requires L.chunks[o] <= nb && nb % 2 == 0 && MINWORDS <= L.end - a - nb && 0 <= a
    requires m'[a + 1] == 4 * nb + m[a + 1] % 2 && m'[a + nb + 1] == 4 * (L.end - a - nb) + 1
    requires 0 <= o && o + L.chunks[o] < |m| && m'[a + 2 .. a + L.chunks[o] + 1] == m[o + 2 .. o + L.chunks[o] + 1]
    ensures var L' := Recut(L, a, nb);
            && Inv(m', a + nb, binblocks, L', B) && Live(L', a) && L'.chunks[a] == nb
            && Payload.Blocks(m', L') - {a} == Payload.Blocks(m, L) - {o}
            && (a == o || a !in Payload.Blocks(m, L)) && a in Payload.Blocks(m', L') && o in Payload.Blocks(m, L)
            && SameStart(Payload.Blocks(m, L)[o], Payload.Blocks(m', L')[a])
  {
    hide Linked, Marked, Filed, Tagged, Payload.Blocks;
    RegionShape(L, a, L.top, o);
    TopHead(m, L);
    FootLeadsBack(m, L, a);
    RecutTags(m, m', L, a, nb, m[a + 1] % 2);
    GrownShape(m, m', L, a, o, nb);
    MakeInv(m', binblocks, Recut(L, a, nb), B, L.chunks);
    MovedStart(m, m', L, Recut(L, a, nb), a, o);
  }

  lemma GrownShape(m: Words, m': Words, L: Layout, a: int, o: int, nb: int)
    requires Tiled(L) && |m| == L.end && Region(L, a, L.top, o) && Next(L, o) == L.top
    requires SameOutside(m, m', L.free, a + 1, L.end) && Tiled(Recut(L, a, nb))
    ensures var L' := Recut(L, a, nb);
            && L'.free == L.free - {a} && (forall x | x in L'.free :: L'.chunks[x] == L.chunks[x])
            && Live(L', a) && L'.chunks[a] == nb
            && Payload.Blocks(m', L') - {a} == Payload.Blocks(m, L) - {o}
            && (a == o || a !in Payload.Blocks(m, L)) && a in Payload.Blocks(m', L') && o in Payload.Blocks(m, L)
  {
    RegionShape(L, a, L.top, o);
    Payload.BlocksKept(m, m', L, Recut(L, a, nb), a + 1, L.end, {o}, {a});
  }

  /** The writes that grow a block into top. */
  function GrowWords(m: Words, a: int, nb: int, end: int): (m': Words)
    requires 0 <= a && 0 <= nb && a + nb + 1 < |m|
    ensures |m'| == |m|
  {
    m[a + nb + 1 := 4 * (end - a - nb) + 1][a + 1 := 4 * nb + m[a + 1] % 2]
  }

  /** Words above the tags of the region up to the end may be overwritten. */
  lemma GrowFrame(m: Words, m1: Words, m2: Words, L: Layout, B: Bins, a: int, o: int, nb: int)
    requires Tiled(L) && |m| == L.end && Region(L, a, L.top, o) && SameExceptLinks(m, m1, L.free) && Linked(m1, B)
    requires B.home.Keys <= L.free - {a} && |m2| == |m1| && (a == o ==> m2 == m1) && Next(L, o) == L.top
    requires forall w | 0 <= w < |m1| && !(a + 2 <= w < a + L.chunks[o] + 1) :: m2[w] == m1[w]
    requires 0 <= a && 4 <= L.chunks[o] <= nb && MINWORDS <= L.end - a - nb
    ensures var m' := GrowWords(m2, a, nb, L.end);
            && Linked(m', B) && SameOutside(m, m', L.free, a + 1, L.end)
            && m'[a + 1] == 4 * nb + m[a + 1] % 2 && m'[a + nb + 1] == 4 * (L.end - a - nb) + 1
            && m'[a + 2 .. a + L.chunks[o] + 1] == m2[a + 2 .. a + L.chunks[o] + 1]
  {
    hide Linked;
    GrowLinks(L, a, o);
    LinkedFrame(m1, GrowWords(m2, a, nb, L.end), B);
  }

  lemma GrowLinks(L: Layout, a: int, o: int)
    requires Tiled(L) && Region(L, a, L.top, o) && Next(L, o) == L.top
    ensures AV_WORDS <= a && forall w | a < w :: !LinkWord(L.free - {a}, w)
    ensures !LinkWord(L.free, a + 1)
  {
    RegionShape(L, a, L.top, o);
  }

  /** If the words of block o were moved to a, block a starts with them. */
  lemma MovedStart(m: Words, m': Words, L: Layout, L': Layout, a: int, o: int)
    requires Tiled(L) && |m| == L.end && Live(L, o) && Tiled(L') && |m'| == L'.end && Live(L', a)
    requires 0 <= a && a + L.chunks[o] < |m'| && m'[a + 2 .. a + L.chunks[o] + 1] == m[o + 2 .. o + L.chunks[o] + 1]
    ensures o in Payload.Blocks(m, L) && a in Payload.Blocks(m', L')
    ensures SameStart(Payload.Blocks(m, L)[o], Payload.Blocks(m', L')[a])
  {
    var s, t := Payload.Contents(m, L, o), Payload.Contents(m', L', a);
    forall i | 0 <= i < |s| && i < |t| ensures t[i] == s[i] {
      assert m'[a + 2 .. a + L.chunks[o] + 1][i] == m[o + 2 .. o + L.chunks[o] + 1][i];
    }
  }

  /** List operations do not reach a live block. */
  lemma SameBlockWords(m: Words, m': Words, L: Layout, p: int)
    requires Tiled(L) && |m| == L.end && Live(L, p) && SameExceptLinks(m, m', L.free)
    ensures |m'| == |m| && 0 <= p && p + L.chunks[p] + 1 < |m|
    ensures m'[p + 2 .. p + L.chunks[p] + 1] == m[p + 2 .. p + L.chunks[p] + 1]
  {
    Payload.ContentsKept(m, m', L, L, L.free, p, -1, -1);
  }

  /** Words between the tags of a region that is being joined may be overwritten. */
  lemma RegionFrame(m: Words, m1: Words, m': Words, L: Layout, B: Bins, a: int, b: int, o: int)
    requires Tiled(L) && |m| == L.end && Region(L, a, b, o) && SameExceptLinks(m, m1, L.free) && Linked(m1, B)
    requires B.home.Keys <= Merge(L, a, b, false).free && |m'| == |m1| && (a == o ==> m' == m1)
    requires forall w | 0 <= w < |m1| && !(a + 2 <= w < a + L.chunks[o] + 1) :: m'[w] == m1[w]
    ensures Linked(m', B) && SameOutside(m, m', L.free, a + 2, b - 1)
  {
    hide Linked;
    RegionShape(L, a, b, o);
    RegionLinks(L, a, b, o);
    LinkedFrame(m1, m', B);
  }

  lemma RegionLinks(L: Layout, a: int, b: int, o: int)
    requires Tiled(L) && Region(L, a, b, o)
    ensures forall w | a + 2 <= w <= b :: !LinkWord(Merge(L, a, b, false).free, w)
    ensures a != o ==> a + L.chunks[o] + 4 <= b
  {
  }

  /** A live chunk whose tags are in order is its own patched form. */
  lemma PatchedSame(m: Words, L: Layout, p: int)
    requires Tiled(L) && Tagged(m, L) && Live(L, p)
    ensures 0 <= p && 1 <= L.chunks[p] && p + L.chunks[p] + 1 < |m| && Patched(m, p, L.chunks[p]) == m
  {
    NextFlag(m, L, p);
    FootLeadsBack(m, L, p);
  }

  /** Words of a live block may be overwritten. */
  lemma PayloadWritten(m: Words, m': Words, binblocks: nat, L: Layout, B: Bins, p: int)
    requires Inv(m, L.top, binblocks, L, B) && L.top != 0 && Live(L, p) && |m'| == |m|
    requires forall w | 0 <= w < |m| && !(p + 2 <= w <= p + L.chunks[p]) :: m'[w] == m[w]
    ensures Inv(m', L.top, binblocks, L, B) && Payload.Blocks(m', L) - {p} == Payload.Blocks(m, L) - {p}
  {
    hide Filed, Marked;
    assert forall w | p + 2 <= w <= p + L.chunks[p] :: !LinkWord(L.free, w);
    LinkedFrame(m, m', B);
    forall q {:trigger ChunkOk(m', L, q)} | q in L.chunks ensures ChunkOk(m', L, q) {
      assert ChunkOk(m, L, q);
    }
    Payload.BlocksKept(m, m', L, L, p + 2, p + L.chunks[p], {p}, {p});
  }

  lemma WrittenBlock(m: Words, binblocks: nat, L: Layout, B: Bins, p: int, i: nat, v: int)
    requires Inv(m, L.top, binblocks, L, B) && L.top != 0 && Live(L, p) && i < L.chunks[p] - 1
    ensures 0 <= p && p + 2 + i < |m| && p in Payload.Blocks(m, L) && |Payload.Blocks(m, L)[p]| == L.chunks[p] - 1
    ensures var m' := m[p + 2 + i := v];
            && Inv(m', L.top, binblocks, L, B)
            && Payload.Blocks(m', L) == Payload.Blocks(m, L)[p := Payload.Blocks(m, L)[p][i := v]]
  {
    hide Linked, Filed, Marked, Apart;
    var m' := m[p + 2 + i := v];
    PayloadWritten(m, m', binblocks, L, B, p);
    assert Payload.Contents(m', L, p) == Payload.Contents(m, L, p)[i := v];
    var X, Y := Payload.Blocks(m', L), Payload.Blocks(m, L);
    assert X == (X - {p})[p := X[p]];
    assert Y == (Y - {p})[p := Y[p]];
  }

  /** Two adjacent live chunks become one pending chunk. */
  lemma JoinedLive(m: Words, binblocks: nat, L: Layout, B: Bins, o: int, p: int)
    requires Inv(m, L.top, binblocks, L, B) && L.top != 0 && Live(L, o) && Live(L, p) && Next(L, o) == p
    ensures 0 <= o && 1 <= Next(L, p) - o && Next(L, p) + 1 < |m|
    ensures var L', P := Merge(L, o, Next(L, p), false), Patched(m, o, Next(L, p) - o);
            Inv(P, L.top, binblocks, L', B) && Live(L', o) && L'.chunks[o] == Next(L, p) - o
  {
    hide Linked, Marked, Filed, Tiled, Tagged, Pow2, Bit;
    var b := Next(L, p);
    NextFlag(m, L, p);
    FootLeadsBack(m, L, o);
    TopHead(m, L);
    TagWord(L, o);
    TagWord(L, b);
    JoinedLiveShape(L, o, p);
    var L', P := Merge(L, o, b, false), Patched(m, o, b - o);
    MergeTags(m, P, L, o, b, m[o + 1] % 2, false);
    LinkedFrame(m, P, B);
    MakeInv(P, binblocks, L', B, L.chunks);
  }

  lemma JoinedLiveShape(L: Layout, o: int, p: int)
    requires Tiled(L) && Live(L, o) && Live(L, p) && Next(L, o) == p
    ensures o + 8 <= Next(L, p) && Boundary(L, Next(L, p)) && Tiled(Merge(L, o, Next(L, p), false))
    ensures Merge(L, o, Next(L, p), false).free == L.free
  {
    assert Boundary(L, Next(L, p));
    MergeTiled(L, o, Next(L, p), false);
  }

  lemma JoinedLiveBlocks(m: Words, L: Layout, o: int, p: int)
    requires Tiled(L) && |m| == L.end && Live(L, o) && Live(L, p) && Next(L, o) == p
    requires 0 <= o && 1 <= Next(L, p) - o && Next(L, p) + 1 < |m|
    ensures var L', P := Merge(L, o, Next(L, p), false), Patched(m, o, Next(L, p) - o);
            && Tiled(L') && Payload.Blocks(P, L') - {o} == Payload.Blocks(m, L) - {o, p}
            && o in Payload.Blocks(P, L') && o in Payload.Blocks(m, L)
            && SameStart(Payload.Blocks(m, L)[o], Payload.Blocks(P, L')[o])
  {
    hide SameOutside, Tiled, Merge, Patched, Payload.Blocks, SameStart;
    var b := Next(L, p);
    JoinedLiveShape(L, o, p);
    var L', P := Merge(L, o, b, false), Patched(m, o, b - o);
    PatchedFrame(m, L, o, p);
    JoinedLiveOthers(L, o, p);
    Payload.BlocksKept(m, P, L, L', o + 1, b + 1, {o, p}, {o});
    MovedStart(m, P, L, L', o, o);
  }

  lemma JoinedLiveOthers(L: Layout, o: int, p: int)
    requires Tiled(L) && Live(L, o) && Live(L, p) && Next(L, o) == p
    ensures var L', b := Merge(L, o, Next(L, p), false), Next(L, p);
            && L'.end == L.end && Live(L', o)
            && (forall q | Live(L, q) && q !in {o, p} ::
                  Live(L', q) && L'.chunks[q] == L.chunks[q] && (b + 1 < q + 2 || q + L.chunks[q] < o + 1))
            && (forall q | Live(L', q) && q !in {o} :: Live(L, q) && q !in {o, p})
  {
    hide Closed, Boundary;
  }

  lemma PatchedFrame(m: Words, L: Layout, o: int, p: int)
    requires Tiled(L) && |m| == L.end && Live(L, o) && Live(L, p) && Next(L, o) == p
    requires 0 <= o && 1 <= Next(L, p) - o && Next(L, p) + 1 < |m|
    ensures var P := Patched(m, o, Next(L, p) - o);
            && SameOutside(m, P, L.free, o + 1, Next(L, p) + 1)
            && o + L.chunks[o] + 1 <= |m| && P[o + 2 .. o + L.chunks[o] + 1] == m[o + 2 .. o + L.chunks[o] + 1]
  {
    hide Apart, Closed;
  }

  /** The writes that cut a pending chunk in two live ones. */
  function SplitPendingWords(m: Words, p: int, n: int, nb: int): (m': Words)
    requires 0 <= p && 0 < nb < n && p + n + 1 < |m|
    ensures |m'| == |m|
  {
    m[p + 1 := 4 * nb + m[p + 1] % 2][p + nb + 1 := 4 * (n - nb) + 1][p + n + 1 := WithFlag(m[p + n + 1])]
  }

  lemma SplitPending(m: Words, binblocks: nat, L: Layout, B: Bins, p: int, n: int, nb: int)
    requires 0 <= p && 4 <= nb <= n - MINWORDS && nb % 2 == 0 && p + n + 1 < |m| && L.top != 0
    requires Inv(Patched(m, p, n), L.top, binblocks, L, B) && Live(L, p) && L.chunks[p] == n
    ensures var m', L' := SplitPendingWords(m, p, n, nb), Split(L, p, nb, false, false);
            Inv(m', L.top, binblocks, L', B) && L'.chunks[p] == nb && Live(L', p)
  {
    hide Linked, Marked, Filed, Tiled, Tagged;
    var P, m', L' := Patched(m, p, n), SplitPendingWords(m, p, n, nb), Split(L, p, nb, false, false);
    NextFlag(P, L, p);
    FootLeadsBack(P, L, p);
    SplitLiveShape(L, p, nb);
    assert SameOutside(P, m', L.free, p + 1, p + n - 1);
    SplitTags(P, m', L, p, nb, P[p + 1] % 2, p + n - 1);
    LinkedFrame(P, m', B);
    MakeInv(m', binblocks, L', B, L.chunks);
  }

  lemma SplitLiveShape(L: Layout, p: int, nb: int)
    requires Tiled(L) && Live(L, p) && 4 <= nb <= L.chunks[p] - MINWORDS
    ensures p + nb !in L.free && AV_WORDS <= p && L.free <= L.chunks.Keys
    ensures forall w | p < w < p + L.chunks[p] :: !LinkWord(L.free, w)
  {
  }

  lemma SplitPendingBlocks(m: Words, L: Layout, p: int, n: int, nb: int)
    requires 0 <= p && 4 <= nb <= n - MINWORDS && nb % 2 == 0 && p + n + 1 < |m|
    requires Tiled(L) && |m| == L.end && Live(L, p) && L.chunks[p] == n
    ensures var P, m', L' := Patched(m, p, n), SplitPendingWords(m, p, n, nb), Split(L, p, nb, false, false);
            && Tiled(L') && p in Payload.Blocks(P, L) && p in Payload.Blocks(m', L') && p + nb in Payload.Blocks(m', L')
            && Payload.Blocks(m', L') - {p, p + nb} == Payload.Blocks(P, L) - {p}
            && Payload.Blocks(m', L')[p] <= Payload.Blocks(P, L)[p]
  {
    hide LinkWord, Sized, Boundary;
    var P, m', L' := Patched(m, p, n), SplitPendingWords(m, p, n, nb), Split(L, p, nb, false, false);
    SplitTiled(L, p, nb, false, false);
    assert SameOutside(P, m', L.free, p + 1, p + nb + 1);
    Payload.BlocksKept(P, m', L, L', p + 1, p + nb + 1, {p}, {p, p + nb});
    assert Payload.Contents(m', L', p) <= Payload.Contents(P, L, p);
  }

  lemma LiveBlock(m: Words, L: Layout, p: int)
    requires Tiled(L) && |m| == L.end
    ensures p in Payload.Blocks(m, L) <==> Live(L, p)
    ensures Live(L, p) ==> |Payload.Blocks(m, L)[p]| == L.chunks[p] - 1
  {
  }

  /** v is a smallest binned chunk of at least nb words. */
  ghost predicate BestFit(sizes: map<int, int>, B: Bins, nb: int, v: int) {
    && v in B.home && 2 <= B.home[v] && v in sizes && nb <= sizes[v] && LastFit(sizes, B, nb, v)
    && forall x | x in B.home && x in sizes && 2 <= B.home[x] && nb <= sizes[x] :: sizes[v] <= sizes[x]
  }

  /** Nothing behind v in its bin is large enough: of chunks of one size, the oldest goes first. */
  ghost predicate LastFit(sizes: map<int, int>, B: Bins, nb: int, v: int)
    requires v in B.home
  {
    && 0 <= B.home[v] < |B.lists|
    && forall j, k | 0 <= j < k < |B.lists[B.home[v]]| && B.lists[B.home[v]][j] == v ::
         B.lists[B.home[v]][k] in sizes && sizes[B.lists[B.home[v]][k]] < nb
  }

  /** A chunk that step 1 of malloc looks at and that leaves too little for a remainder. */
  ghost predicate ExactFit(sizes: map<int, int>, B: Bins, nb: int, x: int)
    requires 0 <= nb
  {
    && x in B.home && x in sizes && nb <= sizes[x] < nb + MINWORDS && 2 <= B.home[x]
    && (B.home[x] == BinIndex(4 * nb) || (4 * nb < 504 && B.home[x] == BinIndex(4 * nb) + 1))
  }

  /** A chunk smaller than the request that was put in its bin does not change what fits best. */
  lemma BestFitBefore(sizes: map<int, int>, B: Bins, B': Bins, nb: int, v: int, i: int, j: int, p: int)
    requires |B.lists| == NAV && Housed(B) && B.lists[1] == [v] && v in sizes && sizes[v] < nb && p != v
    requires 2 <= i < NAV && 0 <= j <= |B.lists[i]| && B' == With(NoRemainder(B), i, j, v)
    requires BestFit(sizes, B', nb, p)
    ensures BestFit(sizes, B, nb, p)
  {
    hide Housed;
    assert p in B.home && B.home[p] == B'.home[p];
    var h := B.home[p];
    var s, s' := B.lists[h], B'.lists[h];
    assert h == 1 || s' == if h == i then Insert(s, j, v) else s;
    forall a, k | 0 <= a < k < |s| && s[a] == p ensures s[k] in sizes && sizes[s[k]] < nb {
      if h == i {
        assert s'[if a < j then a else a + 1] == p && s'[if k < j then k else k + 1] == s[k];
      }
    }
  }

  /** Bins below idx hold nothing large enough; in the others the first chunk of a bin is large enough. */
  ghost predicate ScanFrom(sizes: map<int, int>, B: Bins, nb: int, idx: int)
    requires |B.lists| == NAV && 4 <= nb
  {
    && 4 <= idx && BinIndex(4 * nb) <= idx < NAV
    && (idx == BinIndex(4 * nb) ==> B.lists[idx] != [])
    && (forall x | x in B.home && x in sizes && 2 <= B.home[x] < idx :: sizes[x] < nb)
    && (forall i | idx <= i < NAV && B.lists[i] != [] :: B.lists[i][0] in sizes && nb <= sizes[B.lists[i][0]])
  }

  /** A chunk smaller than the request that is put in its bin does not disturb the scan. */
  lemma ScanAfterBinning(sizes: map<int, int>, B: Bins, B': Bins, nb: int, idx: int, v: int, i: int, j: int)
    requires |B.lists| == NAV == |B'.lists| && 4 <= nb && ScanFrom(sizes, B, nb, idx) && Filed(sizes, B')
    requires v in sizes && 4 <= sizes[v] < nb && i == BinIndex(4 * sizes[v]) && 0 <= j <= |B.lists[i]|
    requires B' == With(NoRemainder(B), i, j, v)
    ensures ScanFrom(sizes, B', nb, idx)
  {
    BinIndexMonotone(4 * sizes[v], 4 * nb);
    var s, s' := B.lists[i], B'.lists[i];
    assert s' == Insert(s, j, v) && s'[j] == v;
    if idx <= i {
      assert Sorted(sizes, s');
      assert s'[if j == 0 then 1 else 0] == s[0];
    }
  }

  /** Binned chunks of smaller bins than the request's are too small, those of larger bins are large enough. */
  lemma BinsBySize(sizes: map<int, int>, B: Bins, nb: int, x: int)
    requires |B.lists| == NAV && Filed(sizes, B) && 4 <= nb && x in B.home && 2 <= B.home[x]
    ensures B.home[x] < BinIndex(4 * nb) ==> sizes[x] < nb
    ensures B.home[x] > BinIndex(4 * nb) ==> nb < sizes[x]
  {
    if B.home[x] < BinIndex(4 * nb) { LaterBinIsLarger(4 * sizes[x], 4 * nb); }
    if B.home[x] > BinIndex(4 * nb) { LaterBinIsLarger(4 * nb, 4 * sizes[x]); }
  }
}
