/** The arena as a tiling by chunks, and the boundary tags that record it.
    Addresses are word indexes; chunk p has prev_size at p, size at p+1, fd at p+2, bk at p+3. */
module ChunkLayout {

  const AV_WORDS := 258         // words of the av_ array, below the arena
  const MINWORDS := 4           // MINSIZE in words
  const MAX_WORDS := 0x2000_0000    // the break stays within 2^31 bytes, where long can tell sizes apart

  type Words = seq<int>

  /** chunks maps the start of every chunk below top to its size in words. */
  datatype Layout = Layout(chunks: map<int, int>, free: set<int>, base: int, top: int, end: int)

  ghost predicate Boundary(L: Layout, a: int) { a in L.chunks || a == L.top }

  function Next(L: Layout, p: int): int
    requires p in L.chunks
  {
    p + L.chunks[p]
  }

  ghost predicate Live(L: Layout, p: int) { p in L.chunks && p !in L.free }

  ghost predicate Tiled(L: Layout) {
    && L.free <= L.chunks.Keys
    && AV_WORDS <= L.base <= L.top && L.base % 2 == 0 && L.top % 2 == 0 && L.end % 2 == 0
    && MINWORDS <= L.end - L.top && L.end <= MAX_WORDS
    && Boundary(L, L.base)
    && Sized(L) && Apart(L) && Closed(L)
  }

  ghost predicate Sized(L: Layout) {
    forall p | p in L.chunks ::
      && L.base <= p && p % 2 == 0
      && MINWORDS <= L.chunks[p] && L.chunks[p] % 2 == 0
      && p + L.chunks[p] <= L.top
  }

  ghost predicate Apart(L: Layout) {
    forall p, q | p in L.chunks && q in L.chunks && p < q :: p + L.chunks[p] <= q
  }

  /** Every chunk is followed by a chunk or by top. */
  ghost predicate Closed(L: Layout) {
    forall p {:trigger Next(L, p)} | p in L.chunks :: Boundary(L, Next(L, p))
  }

  /** The size of the chunk that starts at boundary a, top included. */
  function SizeOf(L: Layout, a: int): int {
    if a in L.chunks then L.chunks[a] else L.end - L.top
  }

  /** The tag words of chunk p: its own size; the PREV_INUSE bit after it, which is set exactly when
      p is live; and, when p is free, its foot, and no free neighbour above it. */
  ghost predicate ChunkOk(m: Words, L: Layout, p: int) {
    && p in L.chunks && 0 <= p && p + L.chunks[p] + 1 < |m| && 0 < L.chunks[p]
    && (m[p + 1] == 4 * L.chunks[p] || m[p + 1] == 4 * L.chunks[p] + 1)
    && (p !in L.free ==> m[Next(L, p) + 1] == 4 * SizeOf(L, Next(L, p)) + 1)
    && (p in L.free ==>
          && m[Next(L, p) + 1] == 4 * SizeOf(L, Next(L, p))
          && m[Next(L, p)] == 4 * L.chunks[p]
          && Next(L, p) in L.chunks && Next(L, p) !in L.free)
  }

  /** Head, foot and PREV_INUSE words agree with the tiling, and free space is coalesced. */
  ghost predicate Tagged(m: Words, L: Layout)
    requires Tiled(L)
  {
    && |m| == L.end
    && (forall p {:trigger ChunkOk(m, L, p)} | p in L.chunks :: ChunkOk(m, L, p))
    && m[L.base + 1] == 4 * SizeOf(L, L.base) + 1
    && m[L.top + 1] == 4 * (L.end - L.top) + 1
  }

  /** The size field without its two flag bits, in words. */
  function SizeAt(m: Words, p: int): int
    requires 0 <= p + 1 < |m|
  {
    m[p + 1] / 4
  }

  predicate PrevInuse(m: Words, p: int)
    requires 0 <= p + 1 < |m|
  {
    m[p + 1] % 2 == 1
  }

  /** The words a list operation on free chunks may touch. */
  ghost predicate LinkWord(free: set<int>, w: int) { w < AV_WORDS || w - 2 in free || w - 3 in free }

  /** m' differs from m only in link words. */
  ghost predicate SameExceptLinks(m: Words, m': Words, free: set<int>) {
    |m'| == |m| && forall w | 0 <= w < |m| && !LinkWord(free, w) :: m'[w] == m[w]
  }

  /** m' differs from m only in link words and between lo and hi. */
  ghost predicate SameOutside(m: Words, m': Words, free: set<int>, lo: int, hi: int) {
    |m'| == |m| && forall w | 0 <= w < |m| && !LinkWord(free, w) && !(lo <= w <= hi) :: m'[w] == m[w]
  }

  // ----- every word of the arena lies in exactly one chunk -----

  lemma {:induction false} Covered(L: Layout, w: int, from: int) returns (p: int)
    requires Tiled(L) && Boundary(L, from) && from <= w < L.top
    ensures p in L.chunks && p <= w < Next(L, p)
    decreases w - from
  {
    if w < Next(L, from) { p := from; } else { p := Covered(L, w, Next(L, from)); }
  }

  lemma TilingIsExact(L: Layout, w: int)
    requires Tiled(L) && L.base <= w < L.top
    ensures exists p :: p in L.chunks && p <= w < Next(L, p)
    ensures forall p, q | p in L.chunks && q in L.chunks && p <= w < Next(L, p) && q <= w < Next(L, q) :: p == q
  {
    var p := Covered(L, w, L.base);
  }

  /** The chunk before a boundary, found in the ghost layout. */
  lemma Predecessor(L: Layout, a: int) returns (p: int)
    requires Tiled(L) && Boundary(L, a) && L.base < a
    ensures p in L.chunks && Next(L, p) == a
  {
    p := Covered(L, a - 1, L.base);
  }

  // ----- changes of the tiling -----

  /** The chunks between boundaries a and b become one chunk. */
  function Merge(L: Layout, a: int, b: int, isFree: bool): Layout {
    L.(chunks := (map p | p in L.chunks && !(a <= p < b) :: L.chunks[p])[a := b - a],
       free := (set p | p in L.free && !(a <= p < b)) + (if isFree then {a} else {}))
  }

  lemma MergeTiled(L: Layout, a: int, b: int, isFree: bool)
    requires Tiled(L) && a in L.chunks && Boundary(L, b) && a < b
    ensures Tiled(Merge(L, a, b, isFree))
  {
    var L' := Merge(L, a, b, isFree);
    assert Sized(L');
    assert Apart(L');
    assert Closed(L') by { MergeClosed(L, a, b, isFree); }
    assert Boundary(L', L.base);
  }

  lemma MergeClosed(L: Layout, a: int, b: int, isFree: bool)
    requires Tiled(L) && a in L.chunks && Boundary(L, b) && a < b
    ensures Closed(Merge(L, a, b, isFree))
  {
    var L' := Merge(L, a, b, isFree);
    forall p {:trigger Next(L', p)} | p in L'.chunks ensures Boundary(L', Next(L', p)) {
      if p == a {
        assert Next(L', p) == b;
      } else {
        assert Boundary(L, Next(L, p));
      }
    }
  }

  /** Chunk p is cut after n words; the tail is a chunk of its own. */
  function Split(L: Layout, p: int, n: int, headFree: bool, tailFree: bool): Layout
    requires p in L.chunks
  {
    L.(chunks := L.chunks[p := n][p + n := L.chunks[p] - n],
       free := L.free - {p} + (if headFree then {p} else {}) + (if tailFree then {p + n} else {}))
  }

  lemma SplitTiled(L: Layout, p: int, n: int, headFree: bool, tailFree: bool)
    requires Tiled(L) && p in L.chunks
    requires MINWORDS <= n && n % 2 == 0 && MINWORDS <= L.chunks[p] - n
    ensures p + n !in L.chunks && Tiled(Split(L, p, n, headFree, tailFree))
  {
    hide Next;
    var L' := Split(L, p, n, headFree, tailFree);
    assert p + n !in L.chunks;
    assert Sized(L');
    assert Apart(L');
    assert Closed(L') by { SplitClosed(L, p, n, headFree, tailFree); }
    assert Boundary(L', L.base);
  }

  lemma SplitClosed(L: Layout, p: int, n: int, headFree: bool, tailFree: bool)
    requires Tiled(L) && p in L.chunks
    requires MINWORDS <= n && n % 2 == 0 && MINWORDS <= L.chunks[p] - n
    ensures Closed(Split(L, p, n, headFree, tailFree))
  {
    var L' := Split(L, p, n, headFree, tailFree);
    forall q {:trigger Next(L', q)} | q in L'.chunks ensures Boundary(L', Next(L', q)) {
      if q == p + n {
        assert Next(L', q) == Next(L, p);
      } else if q != p {
        assert Next(L', q) == Next(L, q);
      }
    }
  }

  /** The last chunks, from boundary a on, become part of top. */
  function MergeTop(L: Layout, a: int): Layout {
    L.(chunks := (map p | p in L.chunks && p < a :: L.chunks[p]),
       free := (set p | p in L.free && p < a),
       top := a)
  }

  lemma MergeTopTiled(L: Layout, a: int)
    requires Tiled(L) && Boundary(L, a)
    ensures Tiled(MergeTop(L, a))
  {
    var L' := MergeTop(L, a);
    assert Sized(L');
    assert Apart(L');
    forall p {:trigger Next(L', p)} | p in L'.chunks ensures Boundary(L', Next(L', p)) {
      assert Boundary(L, Next(L, p));
    }
    assert Closed(L');
    assert Boundary(L', L.base);
  }

  /** A chunk of n words is cut from the bottom of top. */
  function CarveTop(L: Layout, n: int): Layout {
    L.(chunks := L.chunks[L.top := n], free := L.free - {L.top}, top := L.top + n)
  }

  lemma CarveTopTiled(L: Layout, n: int)
    requires Tiled(L) && MINWORDS <= n && n % 2 == 0 && MINWORDS <= L.end - L.top - n
    ensures L.top !in L.chunks && Tiled(CarveTop(L, n))
  {
    var L' := CarveTop(L, n);
    assert L.top !in L.chunks;
    assert Sized(L');
    assert Apart(L');
    forall p {:trigger Next(L', p)} | p in L'.chunks ensures Boundary(L', Next(L', p)) {
      if p != L.top { assert Boundary(L, Next(L, p)); }
    }
    assert Closed(L');
    assert Boundary(L', L.base);
  }
}
