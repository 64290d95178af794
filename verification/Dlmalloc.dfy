/** malloc, free and realloc over one contiguous arena. */
module Dlmalloc {
  import opened MallocBins
  import opened ChunkLayout
  import opened FreeLists
  import opened BoundaryTags
  import opened MallocSteps
  import Payload

  class Arena {
    var mem: Words
    var top: int              // 0 while top is still initial_top
    var binblocks: nat
    var sbrked: bool          // sbrk_base is set
    ghost var lay: Layout
    ghost var bins: Bins

    ghost predicate Valid()
      reads this
    {
      Inv(mem, top, binblocks, lay, bins) && (top != 0 ==> sbrked)
    }

    /** unlink */
    method Unlink(p: int) returns (ghost j: int)
      requires Linked(mem, bins) && p in bins.home
      modifies this`mem, this`bins
      ensures var i := old(bins).home[p];
              && 0 <= j < |old(bins).lists[i]| && old(bins).lists[i][j] == p
              && bins == Without(old(bins), i, j)
      ensures Linked(mem, bins) && SameExceptLinks(old(mem), mem, old(bins).home.Keys)
    {
      ghost var i := bins.home[p];
      ghost var h, s := Header(i), bins.lists[i];
      assert ListOk(mem, bins, i);
      j :| 0 <= j < |s| && s[j] == p;
      assert Joined(mem, h, s, j) && Joined(mem, h, s, j - 1);
      UnlinkLinked(mem, bins, i, j);
      bins := Without(bins, i, j);
      var bck := mem[p + 3];
      var fwd := mem[p + 2];
      mem := mem[fwd + 3 := bck];
      mem := mem[bck + 2 := fwd];
    }

    /** Memory agrees with `sizes` on every binned chunk, and the bins are filed by size. */
    ghost predicate BinsOk(sizes: map<int, int>)
      reads this
    {
      && Linked(mem, bins) && Filed(sizes, bins) && Marked(binblocks, bins) && binblocks < Pow2(WORD_BITS)
      && forall x | x in bins.home :: 0 <= x && x + 1 < |mem| && SizeAt(mem, x) == sizes[x]
    }

    /** What memory holds at the k-th chunk of bin i. */
    lemma Element(i: int, k: int, sizes: map<int, int>)
      requires BinsOk(sizes) && 1 <= i < NAV && 0 <= k < |bins.lists[i]|
      ensures var s := bins.lists[i];
              var x: int := s[k];
              && x in bins.home && bins.home[x] == i && AV_WORDS <= x && x + 3 < |mem|
              && x in sizes && mem[x + 1] / 4 == sizes[x]
              && mem[x + 2] == At(Header(i), s, k + 1) && mem[x + 3] == At(Header(i), s, k - 1)
    {
      var h, s := Header(i), bins.lists[i];
      var x: int := s[k];
      assert ListOk(mem, bins, i);
      assert x in bins.home && SizeAt(mem, x) == sizes[x];
      assert Joined(mem, h, s, k) && Joined(mem, h, s, k - 1);
    }

    lemma Ends(i: int, sizes: map<int, int>)
      requires BinsOk(sizes) && 1 <= i < NAV
      ensures AV_WORDS <= |mem| && |bins.lists| == NAV && (2 <= i ==> Sorted(sizes, bins.lists[i]))
      ensures mem[Header(i) + 2] == At(Header(i), bins.lists[i], 0)
      ensures mem[Header(i) + 3] == At(Header(i), bins.lists[i], |bins.lists[i]| - 1)
    {
      var h, s := Header(i), bins.lists[i];
      assert ListOk(mem, bins, i);
      assert Joined(mem, h, s, -1) && Joined(mem, h, s, |s| - 1);
    }

    /** The scan of frontlink over a bin that is not small: past all chunks larger than n words. */
    method FindPlace(idx: nat, n: int, ghost sizes: map<int, int>) returns (bck: int, fwd: int, ghost j: int)
      requires BinsOk(sizes) && 2 <= idx < NAV
      ensures 0 <= j <= |bins.lists[idx]|
      ensures fwd == At(Header(idx), bins.lists[idx], j) && bck == At(Header(idx), bins.lists[idx], j - 1)
      ensures forall k | 0 <= k < j :: sizes[bins.lists[idx][k]] > n
      ensures forall k | j <= k < |bins.lists[idx]| :: sizes[bins.lists[idx][k]] <= n
    {
      hide BinsOk;
      Ends(idx, sizes);
      ghost var h, s := Header(idx), bins.lists[idx];
      j := 0;
      bck := Header(idx);
      fwd := mem[bck + 2];
      if 0 < |s| { Element(idx, 0, sizes); }
      while fwd != bck && n < mem[fwd + 1] / 4
        invariant 0 <= j <= |s| && fwd == At(h, s, j)
        invariant j < |s| ==> fwd != bck && 0 <= fwd + 1 < |mem| && mem[fwd + 1] / 4 == sizes[s[j]]
        invariant forall k | 0 <= k < j :: sizes[s[k]] > n
        decreases |s| - j
      {
        Element(idx, j, sizes);
        fwd := mem[fwd + 2];
        j := j + 1;
        if j < |s| { Element(idx, j, sizes); }
      }
      if j < |s| { Element(idx, j, sizes); }
      bck := mem[fwd + 3];
    }

    /** All chunks of a small bin have the size of the bin. */
    lemma SmallBinSizes(idx: nat, n: int, sizes: map<int, int>)
      requires |bins.lists| == NAV && Housed(bins) && Filed(sizes, bins)
      requires 4 <= n && n % 2 == 0 && 4 * n < 512 && idx == BinIndex(4 * n)
      ensures forall k | 0 <= k < |bins.lists[idx]| :: bins.lists[idx][k] in sizes && sizes[bins.lists[idx][k]] == n
    {
      forall k | 0 <= k < |bins.lists[idx]| ensures bins.lists[idx][k] in sizes && sizes[bins.lists[idx][k]] == n {
        var x: int := bins.lists[idx][k];
        assert x in bins.home;
        SmallBinExact(4 * sizes[x], idx);
        SmallBinExact(4 * n, idx);
      }
    }

    /** frontlink: p goes into the bin of its size, before the first chunk that is not larger. */
    method Frontlink(p: int, n: int, ghost sizes: map<int, int>) returns (ghost j: int)
      requires BinsOk(sizes)
      requires p !in bins.home && Node(mem, p) && AV_WORDS <= p && 4 <= n && n % 2 == 0
      modifies this`mem, this`bins, this`binblocks
      ensures 0 <= j <= |old(bins).lists[BinIndex(4 * n)]| && bins == With(old(bins), BinIndex(4 * n), j, p)
      ensures forall k | 0 <= k < j :: sizes[old(bins).lists[BinIndex(4 * n)][k]] > n
      ensures Linked(mem, bins) && Filed(sizes[p := n], bins) && Marked(binblocks, bins) && binblocks < Pow2(WORD_BITS)
      ensures SameExceptLinks(old(mem), mem, old(bins).home.Keys + {p})
    {
      hide ListOk, Filed, With, Pow2;
      var idx := BinIndex(4 * n);
      Ends(idx, sizes);
      j := 0;
      var bck := Header(idx);
      var fwd := mem[bck + 2];
      if 4 * n < 512 {
        Mark(idx);
        SmallBinSizes(idx, n, sizes);
      } else if fwd == bck {
        Mark(idx);
      } else {
        bck, fwd, j := FindPlace(idx, n, sizes);
      }
      FiledWith(sizes, binblocks, mem, bins, idx, j, p, n);
      InsertBetween(p, bck, fwd, idx, j);
    }

    /** The four writes that put p between its neighbours in a list. */
    method InsertBetween(p: int, bck: int, fwd: int, ghost i: int, ghost j: int)
      requires Linked(mem, bins) && 1 <= i < NAV && 0 <= j <= |bins.lists[i]|
      requires p !in bins.home && Node(mem, p) && AV_WORDS <= p
      requires fwd == At(Header(i), bins.lists[i], j) && bck == At(Header(i), bins.lists[i], j - 1)
      modifies this`mem, this`bins
      ensures bins == With(old(bins), i, j, p)
      ensures Linked(mem, bins) && SameExceptLinks(old(mem), mem, old(bins).home.Keys + {p})
    {
      assert ListOk(mem, bins, i);
      InsertLinked(mem, bins, i, j, p);
      ghost var m' := InsertWords(mem, p, bck, fwd);
      bins := With(bins, i, j, p);
      mem := mem[p + 3 := bck];
      mem := mem[p + 2 := fwd];
      mem := mem[fwd + 3 := p];
      mem := mem[bck + 2 := p];
      assert mem == m';
    }

    /** mark_binblock */
    method Mark(idx: nat)
      requires idx < NAV && |bins.lists| == NAV && Marked(binblocks, bins) && binblocks < Pow2(WORD_BITS)
      modifies this`binblocks
      ensures Marked(binblocks, bins) && binblocks < Pow2(WORD_BITS)
      ensures Bit(binblocks, idx / BINBLOCKWIDTH)
    {
      forall k: nat
        ensures Bit(SetBit(binblocks, idx / BINBLOCKWIDTH), k) <==> k == idx / BINBLOCKWIDTH || Bit(binblocks, k)
      {
        SetBitAt(binblocks, idx / BINBLOCKWIDTH, k);
      }
      BitsStayInWord(binblocks, idx / BINBLOCKWIDTH, WORD_BITS);
      binblocks := SetBit(binblocks, idx / BINBLOCKWIDTH);
    }

    method ClearLastRemainder()
      requires Linked(mem, bins) && |bins.lists[1]| <= 1
      modifies this`mem, this`bins
      ensures bins == NoRemainder(old(bins))
      ensures Linked(mem, bins) && SameExceptLinks(old(mem), mem, old(bins).home.Keys)
    {
      ClearRemainderLinked(mem, bins);
      bins := NoRemainder(bins);
      mem := mem[Header(1) + 3 := Header(1)];
      mem := mem[Header(1) + 2 := Header(1)];
    }

    /** link_last_remainder: p replaces whatever the bin held. */
    method LinkLastRemainder(p: int)
      requires Linked(mem, bins) && |bins.lists[1]| <= 1 && Node(mem, p) && AV_WORDS <= p
      requires p !in bins.home || bins.lists[1] == [p]
      modifies this`mem, this`bins
      ensures bins == AsRemainder(old(bins), p) && |bins.lists| == NAV && bins.lists[1] == [p]
      ensures Linked(mem, bins) && SameExceptLinks(old(mem), mem, old(bins).home.Keys + {p})
    {
      LinkRemainderLinked(mem, bins, p);
      bins := AsRemainder(bins, p);
      mem := mem[Header(1) + 3 := p];
      mem := mem[Header(1) + 2 := p];
      mem := mem[p + 3 := Header(1)];
      mem := mem[p + 2 := Header(1)];
    }

    lemma OneRemainder(sizes: map<int, int>)
      requires Linked(mem, bins) && Filed(sizes, bins)
      ensures |bins.lists| == NAV && |bins.lists[1]| <= 1
    {
    }

    static ghost predicate WasRemainder(B: Bins, x: int) { x in B.home && B.home[x] == 1 }

    /** The list work of free before the merged chunk `a` gets its tags: the free neighbours leave
        their bins, except that last_remainder is kept as, or replaced by, the merged chunk. */
    method Detach(a: int, next: int, back: bool, fwd: bool, n: int, ghost sizes: map<int, int>) returns (islr: bool)
      requires BinsOk(sizes) && Node(mem, a) && AV_WORDS <= a && 4 <= n && n % 2 == 0
      requires back <==> a in bins.home
      requires fwd <==> next in bins.home
      requires a != next
      modifies this`mem, this`bins
      ensures Linked(mem, bins) && SameExceptLinks(old(mem), mem, old(bins).home.Keys + {a})
      ensures Marked(binblocks, bins)
      ensures bins.home.Keys == old(bins).home.Keys - {a, next} + (if islr then {a} else {})
      ensures Filed(if islr then sizes[a := n] else sizes, bins)
      ensures islr <==> WasRemainder(old(bins), a) || WasRemainder(old(bins), next)
      ensures islr ==> a in bins.home && bins.home[a] == 1
    {
      hide Linked, Filed, Marked;
      Ends(1, sizes);
      OneRemainder(sizes);
      islr := false;
      if back {
        FdTellsRemainder(mem, bins, a);
        if mem[a + 2] == Header(1) {
          islr := true;
          FiledAsRemainder(sizes, binblocks, mem, bins, a, n);
          assert AsRemainder(bins, a) == bins;
        } else {
          UnlinkFree(a, sizes);
        }
      }
      if fwd {
        FdTellsRemainder(mem, bins, next);
        if !islr && mem[next + 2] == Header(1) {
          islr := true;
          FiledAsRemainder(sizes, binblocks, mem, bins, a, n);
          LinkLastRemainder(a);
        } else {
          UnlinkFree(next, if islr then sizes[a := n] else sizes);
        }
      }
    }

    /** unlink, seen from the filing system. */
    method UnlinkFree(p: int, ghost sizes: map<int, int>)
      requires Linked(mem, bins) && Filed(sizes, bins) && Marked(binblocks, bins) && p in bins.home
      modifies this`mem, this`bins
      ensures Linked(mem, bins) && Filed(sizes, bins) && Marked(binblocks, bins)
      ensures bins.home == old(bins).home - {p} && |bins.lists| == NAV == |old(bins).lists|
      ensures old(bins).home[p] != 1 ==> bins.lists[1] == old(bins).lists[1]
      ensures SameExceptLinks(old(mem), mem, old(bins).home.Keys)
    {
      ghost var m, B := mem, bins;
      ghost var j := Unlink(p);
      FiledWithout(sizes, binblocks, m, B, B.home[p], j);
    }

    /** The live blocks and their contents. */
    ghost function Blocks(): map<int, Words>
      requires Valid()
      reads this
    {
      if top == 0 then map[] else Payload.Blocks(mem, lay)
    }

    /** A write outside the links. */
    method SetWord(w: int, v: int)
      requires Linked(mem, bins) && 0 <= w < |mem| && !LinkWord(bins.home.Keys, w)
      modifies this`mem
      ensures mem == old(mem)[w := v] && Linked(mem, bins)
    {
      LinkedFrame(mem, mem[w := v], bins);
      mem := mem[w := v];
    }

    /** Consolidate backward: a free predecessor of the live chunk leaves its bin. */
    method TakePrevious(chunk: int) returns (p: int)
      requires Valid() && top != 0 && Live(lay, chunk)
      modifies this`mem, this`bins
      ensures p == chunk || (p in lay.free && Next(lay, p) == chunk)
      ensures |old(mem)| == lay.end && 0 <= p && p + 1 < |old(mem)| && HeadWord(old(mem), lay, p, 1)
      ensures Linked(mem, bins) && Filed(lay.chunks, bins) && Marked(binblocks, bins)
      ensures bins.home.Keys == lay.free - {p} && SameExceptLinks(old(mem), mem, lay.free)
    {
      FootLeadsBack(mem, lay, chunk);
      p := chunk;
      if mem[p + 1] % 2 == 0 {
        p := p - mem[p] / 4;
        FreeHead(mem, lay, p);
        UnlinkFree(p, lay.chunks);
      }
    }

    /** free of a block that borders top. */
    method FreeIntoTop(chunk: int)
      requires Valid() && top != 0 && Live(lay, chunk) && Next(lay, chunk) == top
      modifies this
      ensures Valid() && Blocks() == old(Blocks()) - {chunk}
    {
      hide Linked, Filed, Marked, Tiled, Tagged, MergeTop, Payload.Blocks, ChunkOk, HeadWord;
      ghost var m := mem;
      AtTop(mem, lay, chunk);
      var sz := mem[chunk + 1] / 4 + mem[top + 1] / 4;
      var p := TakePrevious(chunk);
      sz := sz + (chunk - p);
      TagWord(lay, p);
      SetWord(p + 1, 4 * sz + 1);
      FreedIntoTop(m, mem, binblocks, lay, bins, p, chunk);
      top := p;
      lay := MergeTop(lay, p);
    }

    /** The extent of a live chunk with its free neighbours, read from the tags. */
    method Neighbours(chunk: int) returns (p: int, next: int, sz: int, nextsz: int)
      requires Valid() && top != 0 && Live(lay, chunk) && Next(lay, chunk) != top
      ensures next == Next(lay, chunk) && next in lay.chunks && nextsz == lay.chunks[next]
      ensures Around(lay, p, p + sz, chunk) && 0 <= p && p + 1 < |mem| && HeadWord(mem, lay, p, 1)
      ensures p != chunk <==> p in lay.free
      ensures p + sz != next <==> next in lay.free
    {
      FootLeadsBack(mem, lay, chunk);
      NextFlag(mem, lay, chunk);
      p, sz := chunk, mem[chunk + 1] / 4;
      next := p + sz;
      NextFlag(mem, lay, next);
      nextsz := mem[next + 1] / 4;
      if mem[chunk + 1] % 2 == 0 {
        var prevsz := mem[p] / 4;
        p := p - prevsz;
        FreeHead(mem, lay, p);
        sz := sz + prevsz;
      }
      if mem[next + nextsz + 1] % 2 == 0 {
        sz := sz + nextsz;
      }
    }

    method TagFree(p: int, sz: int, next: int, nextsz: int)
      requires Linked(mem, bins) && 0 <= p && 1 <= sz && p + sz < |mem| && 0 <= next && next + 1 < |mem|
      requires !LinkWord(bins.home.Keys, p + 1) && !LinkWord(bins.home.Keys, p + sz)
               && !LinkWord(bins.home.Keys, next + 1)
      modifies this`mem
      ensures Linked(mem, bins) && mem == FreeTagWords(old(mem), p, p + sz, next, nextsz)
    {
      SetWord(next + 1, 4 * nextsz);
      SetWord(p + 1, 4 * sz + 1);
      SetWord(p + sz, 4 * sz);
    }

    static lemma TagsAreNoLinks(free: set<int>, keys: set<int>, p: int, sz: int, next: int)
      requires forall x | x in keys :: x in free || x == p
      requires AV_WORDS <= p && 4 <= sz && p + 4 <= next
      requires !LinkWord(free, p + 1) && !LinkWord(free, p + sz) && !LinkWord(free, next + 1)
      ensures !LinkWord(keys, p + 1) && !LinkWord(keys, p + sz) && !LinkWord(keys, next + 1)
    {
    }

    /** Free neighbours leave their bins, and the merged chunk gets its tags. */
    method Consolidate(chunk: int) returns (p: int, sz: int, islr: bool)
      requires Valid() && top != 0 && Live(lay, chunk) && Next(lay, chunk) != top
      modifies this`mem, this`bins
      ensures Around(lay, p, p + sz, chunk) && Node(mem, p) && AV_WORDS <= p && 4 <= sz && sz % 2 == 0
      ensures Linked(mem, bins) && Marked(binblocks, bins)
      ensures bins.home.Keys == lay.free - {p, Next(lay, chunk)} + (if islr then {p} else {})
      ensures Filed(if islr then lay.chunks[p := sz] else lay.chunks, bins)
      ensures |old(mem)| == lay.end && HeadWord(old(mem), lay, p, 1)
      ensures MergeWords(old(mem), mem, lay, p, p + sz, 1, true)
      ensures SameOutside(old(mem), mem, lay.free, p + 1, p + sz + 1)
      ensures islr <==> WasRemainder(old(bins), p) || WasRemainder(old(bins), Next(lay, chunk))
      ensures islr ==> p in bins.home && bins.home[p] == 1
    {
      hide Linked, Filed, Marked, Tiled, Tagged, HeadWord, Around, MergeWords, SameOutside, FreeTagWords, LinkWord;
      ghost var m := mem;
      var next, nextsz;
      p, next, sz, nextsz := Neighbours(chunk);
      AroundShape(lay, p, p + sz, chunk);
      FreeSizes(mem, lay);
      islr := Detach(p, next, p != chunk, p + sz != next, sz, lay.chunks);
      ghost var m1 := mem;
      TagWord(lay, p);
      TagWord(lay, next);
      TagWord(lay, p + sz);
      TagsAreNoLinks(lay.free, bins.home.Keys, p, sz, next);
      TagFree(p, sz, next, nextsz);
      FreeWords(m, m1, mem, lay, p, p + sz, chunk);
    }

    /** Block x became part of a free chunk, with the free chunks around it; that is last_remainder if one of
        them was, and is in the bin of its size if none was. */
    static ghost predicate Refiled(L: Layout, B: Bins, L': Layout, B': Bins, x: int)
      requires x in L.chunks
    {
      exists p :: && p in L'.free && p in L'.chunks && p in B'.home && p <= x < Next(L', p)
                  && (p == x || (p in L.free && p in L.chunks && Next(L, p) == x))
                  && (WasRemainder(B', p) <==> WasRemainder(B, p) || WasRemainder(B, Next(L, x)))
    }

    /** free of a block that does not border top. */
    method FreeIntoBin(chunk: int)
      requires Valid() && top != 0 && Live(lay, chunk) && Next(lay, chunk) != top
      modifies this
      ensures Valid() && top == old(top) && Blocks() == old(Blocks()) - {chunk}
      ensures Refiled(old(lay), old(bins), lay, bins, chunk)
    {
      hide Linked, Filed, Marked, Tiled, Tagged, Merge, Payload.Blocks, HeadWord, Around, MergeWords, SameOutside;
      ghost var m := mem;
      var p, sz, islr := Consolidate(chunk);
      AroundShape(lay, p, p + sz, chunk);
      if !islr {
        SizesOutside(m, mem, lay, p, p + sz, chunk);
        ghost var m1 := mem;
        ghost var j := Frontlink(p, sz, lay.chunks);
        RelinkedWords(m, m1, mem, lay, p, p + sz, chunk);
      }
      FreedChunk(m, mem, binblocks, lay, bins, p, p + sz, chunk);
      ghost var L := lay;
      lay := Merge(lay, p, p + sz, true);
      RefiledAs(L, old(bins), bins, p, p + sz, chunk);
    }

    static lemma RefiledAs(L: Layout, B: Bins, B': Bins, p: int, b: int, x: int)
      requires Tiled(L) && Around(L, p, b, x) && p in B'.home
      requires WasRemainder(B', p) <==> WasRemainder(B, p) || WasRemainder(B, Next(L, x))
      ensures Refiled(L, B, Merge(L, p, b, true), B', x)
    {
      AroundShape(L, p, b, x);
      var L' := Merge(L, p, b, true);
      assert p in L'.free && p in L'.chunks && Next(L', p) == b && p <= x < b;
    }

    /** free */
    method Free(r: int)
      requires Valid() && (r == 0 || r - 2 in Blocks())
      modifies this
      ensures Valid() && Blocks() == old(Blocks()) - {r - 2}
      ensures r == 0 ==> lay == old(lay) && bins == old(bins)
      ensures r != 0 && Next(old(lay), r - 2) != old(top) ==> Refiled(old(lay), old(bins), lay, bins, r - 2)
    {
      hide Linked, Filed, Marked, Boundary;
      if r == 0 {
        assert -2 !in Blocks();
        return;
      }
      NextFlag(mem, lay, r - 2);
      var p := r - 2;
      if p + mem[p + 1] / 4 == top {
        FreeIntoTop(p);
      } else {
        FreeIntoBin(p);
      }
    }

    // ----- searching the bins -----

    lemma BinsOkFromValid()
      requires Valid()
      ensures BinsOk(lay.chunks) && Below(lay.chunks)
    {
      if top != 0 { FreeSizes(mem, lay); }
    }

    static ghost predicate Below(sizes: map<int, int>) { forall x | x in sizes :: 0 <= sizes[x] < MAX_WORDS }

    /** The scan of one bin from its last, smallest chunk: the header, or the smallest chunk that fits. */
    method SmallestFit(i: nat, nb: int, ghost sizes: map<int, int>) returns (victim: int, ghost j: int)
      requires BinsOk(sizes) && 2 <= i < NAV && Below(sizes) && 4 <= nb < MAX_WORDS
      ensures victim == At(Header(i), bins.lists[i], j) && -1 <= j < |bins.lists[i]|
      ensures victim == Header(i) <==> j == -1
      ensures 0 <= j ==> victim in bins.home && bins.home[victim] == i && victim in sizes && nb <= sizes[victim]
      ensures forall k | j < k < |bins.lists[i]| :: sizes[bins.lists[i][k]] < nb
    {
      hide BinsOk;
      Ends(i, sizes);
      ghost var h, s := Header(i), bins.lists[i];
      victim := mem[Header(i) + 3];
      j := |s| - 1;
      if 0 <= j { Element(i, j, sizes); }
      while victim != Header(i) && Excess(mem[victim + 1] / 4, nb) < 0
        invariant -1 <= j < |s| && victim == At(h, s, j)
        invariant 0 <= j ==> && victim in bins.home && bins.home[victim] == i && victim in sizes && victim != h
                             && 0 <= victim + 1 < |mem| && mem[victim + 1] / 4 == sizes[victim]
        invariant forall k | j < k < |s| :: sizes[s[k]] < nb
        decreases j + 1
      {
        Element(i, j, sizes);
        victim := mem[victim + 3];
        j := j - 1;
        if 0 <= j { Element(i, j, sizes); }
      }
    }

    /** The header of an empty bin points at itself. */
    lemma LastOf(i: int, sizes: map<int, int>)
      requires BinsOk(sizes) && 2 <= i < NAV
      ensures AV_WORDS <= |mem| && |bins.lists| == NAV
      ensures mem[Header(i) + 3] == Header(i) <==> bins.lists[i] == []
      ensures mem[Header(i) + 2] == Header(i) <==> bins.lists[i] == []
      ensures bins.lists[i] != [] ==>
                var v := mem[Header(i) + 3];
                v in bins.home && AV_WORDS <= v && bins.home[v] == i && v in sizes && LastFit(sizes, bins, 0, v)
    {
      hide Filed;
      Ends(i, sizes);
      var s := bins.lists[i];
      if s != [] {
        Element(i, |s| - 1, sizes);
        Element(i, 0, sizes);
        OnlyAt(i, |s| - 1);
      }
    }

    /** A chunk is in its list once. */
    lemma OnlyAt(i: int, k: int)
      requires Linked(mem, bins) && 1 <= i < NAV && 0 <= k < |bins.lists[i]|
      ensures forall j | 0 <= j < |bins.lists[i]| && bins.lists[i][j] == bins.lists[i][k] :: j == k
    {
      assert ListOk(mem, bins, i);
    }

    /** Chunks in a bin that is known to be empty do not exist. */
    lemma EmptyBin(i: int, x: int, sizes: map<int, int>)
      requires BinsOk(sizes) && 2 <= i < NAV && bins.lists[i] == [] && x in bins.home
      ensures bins.home[x] != i
    {
    }

    /** Step 1 of malloc: the request's own bin, and for small requests the next one. */
    method FindExact(nb: int, ghost sizes: map<int, int>) returns (victim: int, idx: nat)
      requires BinsOk(sizes) && 4 <= nb < MAX_WORDS && nb % 2 == 0 && Below(sizes)
      ensures victim != 0 ==> BestFit(sizes, bins, nb, victim) && ExactFit(sizes, bins, nb, victim)
      ensures |bins.lists| == NAV && (victim == 0 ==> ScanFrom(sizes, bins, nb, idx))
      ensures victim == 0 ==> forall x :: !ExactFit(sizes, bins, nb, x)
    {
      if 4 * nb < 504 {
        idx := 4 * nb / 8;
        victim := SmallExact(idx, nb, sizes);
        idx := idx + 2;
      } else {
        idx := BinIndex(4 * nb);
        victim, idx := LargeExact(idx, nb, sizes);
      }
    }

    method SmallExact(idx: nat, nb: int, ghost sizes: map<int, int>) returns (victim: int)
      requires BinsOk(sizes) && 4 <= nb && nb % 2 == 0 && 4 * nb < 504 && idx == 4 * nb / 8
      ensures victim != 0 ==> BestFit(sizes, bins, nb, victim) && ExactFit(sizes, bins, nb, victim)
      ensures |bins.lists| == NAV && (victim == 0 ==> ScanFrom(sizes, bins, nb, idx + 2))
      ensures victim == 0 ==> forall x :: !ExactFit(sizes, bins, nb, x)
    {
      hide BinsOk, Linked, Filed;
      LastOf(idx, sizes);
      LastOf(idx + 1, sizes);
      var q := Header(idx);
      victim := mem[q + 3];
      if victim == q {
        q := Header(idx + 1);
        victim := mem[q + 3];
      }
      if victim != q {
        SmallTaken(idx, nb, sizes, victim);
      } else {
        SmallMissed(idx, nb, sizes);
        victim := 0;
      }
    }

    lemma SmallTaken(idx: nat, nb: int, sizes: map<int, int>, v: int)
      requires BinsOk(sizes) && 4 <= nb && nb % 2 == 0 && 4 * nb < 504 && idx == 4 * nb / 8
      requires v in bins.home && (bins.home[v] == idx || (bins.lists[idx] == [] && bins.home[v] == idx + 1))
      requires LastFit(sizes, bins, 0, v)
      ensures BestFit(sizes, bins, nb, v) && ExactFit(sizes, bins, nb, v)
    {
      hide Pow2;
      SmallBinExact(4 * sizes[v], bins.home[v]);
      forall x | x in bins.home && x in sizes && 2 <= bins.home[x] && nb <= sizes[x] ensures sizes[v] <= sizes[x] {
        BinsBySize(sizes, bins, nb, x);
        if bins.lists[idx] == [] { EmptyBin(idx, x, sizes); BinsBySize(sizes, bins, nb + 2, x); }
      }
    }

    lemma SmallMissed(idx: nat, nb: int, sizes: map<int, int>)
      requires BinsOk(sizes) && 4 <= nb && nb % 2 == 0 && 4 * nb < 504 && idx == 4 * nb / 8
      requires bins.lists[idx] == [] && bins.lists[idx + 1] == []
      ensures ScanFrom(sizes, bins, nb, idx + 2)
    {
      forall x | x in bins.home && x in sizes && 2 <= bins.home[x] < idx + 2 ensures sizes[x] < nb {
        BinsBySize(sizes, bins, nb, x);
        EmptyBin(idx, x, sizes);
        EmptyBin(idx + 1, x, sizes);
      }
      FirstsFit(idx + 2, nb, sizes);
    }

    /** Every chunk in a later bin than the request's is large enough. */
    lemma FirstsFit(from: int, nb: int, sizes: map<int, int>)
      requires BinsOk(sizes) && 4 <= nb && BinIndex(4 * nb) < from
      ensures forall i | from <= i < NAV && bins.lists[i] != [] ::
                bins.lists[i][0] in sizes && nb <= sizes[bins.lists[i][0]]
    {
      forall i | from <= i < NAV && bins.lists[i] != []
        ensures bins.lists[i][0] in sizes && nb <= sizes[bins.lists[i][0]]
      {
        Element(i, 0, sizes);
        BinsBySize(sizes, bins, nb, bins.lists[i][0]);
      }
    }

    method LargeExact(bin: nat, nb: int, ghost sizes: map<int, int>) returns (victim: int, idx: nat)
      requires BinsOk(sizes) && 126 <= nb < MAX_WORDS && nb % 2 == 0 && bin == BinIndex(4 * nb) && Below(sizes)
      ensures victim != 0 ==> BestFit(sizes, bins, nb, victim) && ExactFit(sizes, bins, nb, victim)
      ensures |bins.lists| == NAV && (victim == 0 ==> ScanFrom(sizes, bins, nb, idx))
      ensures victim == 0 ==> forall x :: !ExactFit(sizes, bins, nb, x)
    {
      hide Linked, Filed, BinIndex;
      Ends(bin, sizes);
      idx := bin;
      ghost var j;
      victim, j := SmallestFit(bin, nb, sizes);
      if victim != Header(bin) {
        Element(bin, j, sizes);
        SmallerBins(nb, sizes);
        SmallestIsBest(bin, j, nb, sizes);
        if Excess(mem[victim + 1] / 4, nb) >= 4 * MINWORDS {
          LargeRescan(bin, j, nb, sizes);
          victim := 0;
          return;
        }
        return;
      }
      LargeMissed(bin, nb, sizes);
      victim, idx := 0, idx + 1;
    }

    lemma SmallerBins(nb: int, sizes: map<int, int>)
      requires BinsOk(sizes) && 4 <= nb
      ensures forall x | x in bins.home && x in sizes && 2 <= bins.home[x] < BinIndex(4 * nb) :: sizes[x] < nb
    {
      forall x | x in bins.home && x in sizes && 2 <= bins.home[x] < BinIndex(4 * nb) ensures sizes[x] < nb {
        BinsBySize(sizes, bins, nb, x);
      }
    }

    lemma LargeRescan(i: int, j: int, nb: int, sizes: map<int, int>)
      requires BinsOk(sizes) && 126 <= nb && i == BinIndex(4 * nb) && 0 <= j < |bins.lists[i]|
               && nb <= sizes[bins.lists[i][j]]
      ensures ScanFrom(sizes, bins, nb, i)
    {
      assert Sorted(sizes, bins.lists[i]);
      BinIndexMonotone(504, 4 * nb);
      SmallerBins(nb, sizes);
      FirstsFit(i + 1, nb, sizes);
    }

    lemma LargeMissed(i: int, nb: int, sizes: map<int, int>)
      requires BinsOk(sizes) && 126 <= nb && i == BinIndex(4 * nb)
      requires forall k | 0 <= k < |bins.lists[i]| :: sizes[bins.lists[i][k]] < nb
      ensures ScanFrom(sizes, bins, nb, i + 1)
    {
      BinIndexMonotone(504, 4 * nb);
      SmallerBins(nb, sizes);
      FirstsFit(i + 1, nb, sizes);
      forall x | x in bins.home && bins.home[x] == i ensures sizes[x] < nb {
        var k :| 0 <= k < |bins.lists[i]| && bins.lists[i][k] == x;
      }
    }

    /** The smallest fit of the first bin that has one is the best fit. */
    lemma SmallestIsBest(i: int, j: int, nb: int, sizes: map<int, int>)
      requires BinsOk(sizes) && |bins.lists| == NAV && 4 <= nb && 2 <= i < NAV && 0 <= j < |bins.lists[i]|
      requires bins.lists[i][j] in sizes && nb <= sizes[bins.lists[i][j]]
      requires forall k | j < k < |bins.lists[i]| :: sizes[bins.lists[i][k]] < nb
      requires forall x | x in bins.home && x in sizes && 2 <= bins.home[x] < i :: sizes[x] < nb
      ensures BestFit(sizes, bins, nb, bins.lists[i][j])
    {
      hide BinsOk;
      Element(i, j, sizes);
      assert BinsOk(sizes) ==> Linked(mem, bins) by { LinkedOf(sizes); }
      OnlyAt(i, j);
      var v: int := bins.lists[i][j];
      forall k | j < k < |bins.lists[i]| ensures bins.lists[i][k] in sizes { Element(i, k, sizes); }
      forall x | x in bins.home && x in sizes && 2 <= bins.home[x] && nb <= sizes[x] ensures sizes[v] <= sizes[x] {
        if bins.home[x] == i { SameBin(i, j, nb, sizes, x); } else { OtherBin(i, j, nb, sizes, x); }
      }
    }

    lemma LinkedOf(sizes: map<int, int>)
      ensures BinsOk(sizes) ==> Linked(mem, bins)
    {
    }

    lemma SameBin(i: int, j: int, nb: int, sizes: map<int, int>, x: int)
      requires BinsOk(sizes) && 2 <= i < NAV && 0 <= j < |bins.lists[i]|
      requires forall k | j < k < |bins.lists[i]| :: sizes[bins.lists[i][k]] < nb
      requires x in bins.home && x in sizes && bins.home[x] == i && nb <= sizes[x]
      ensures bins.lists[i][j] in sizes && sizes[bins.lists[i][j]] <= sizes[x]
    {
      hide Nodes;
      var s := bins.lists[i];
      assert Sorted(sizes, s);
      var k :| 0 <= k < |s| && s[k] == x;
    }

    lemma OtherBin(i: int, j: int, nb: int, sizes: map<int, int>, x: int)
      requires BinsOk(sizes) && 2 <= i < NAV && 0 <= j < |bins.lists[i]|
      requires forall y | y in bins.home && y in sizes && 2 <= bins.home[y] < i :: sizes[y] < nb
      requires x in bins.home && x in sizes && 2 <= bins.home[x] != i && nb <= sizes[x]
      ensures bins.lists[i][j] in sizes && sizes[bins.lists[i][j]] <= sizes[x]
    {
      Element(i, j, sizes);
      BinsBySize(sizes, bins, sizes[bins.lists[i][j]], x);
    }

    // ----- step 3 of malloc: the remaining bins, block by block -----

    /** `while ((block & binblocks) == 0)`: the next marked block; the blocks passed over hold empty bins. */
    method NextMarked(from: nat) returns (k: nat)
      requires |bins.lists| == NAV && Marked(binblocks, bins) && binblocks < Pow2(WORD_BITS)
      requires from < WORD_BITS && Pow2(from) <= binblocks
      ensures from <= k < WORD_BITS && Bit(binblocks, k)
      ensures forall i | 4 * from <= i < 4 * k && 2 <= i :: bins.lists[i] == []
      ensures forall j | from <= j < k :: !Bit(binblocks, j)
    {
      hide Pow2;
      ghost var j := BlockLeqMeansMarkedAbove(binblocks, from, WORD_BITS);
      k := from;
      while !Bit(binblocks, k)
        invariant from <= k <= j
        invariant forall i | 4 * from <= i < 4 * k && 2 <= i :: bins.lists[i] == []
        invariant forall j | from <= j < k :: !Bit(binblocks, j)
        decreases j - k
      {
        k := k + 1;
      }
    }

    /** The bins of one block, from idx to the end of the block. */
    method ScanBlock(from: nat, start: nat, nb: int, ghost sizes: map<int, int>) returns (victim: int)
      requires BinsOk(sizes) && 4 <= nb < MAX_WORDS && Below(sizes) && ScanFrom(sizes, bins, nb, start)
               && 4 <= start <= from < NAV
      requires forall i | start <= i < from :: bins.lists[i] == []
      ensures |bins.lists| == NAV && (victim != 0 ==> BestFit(sizes, bins, nb, victim))
      ensures victim != 0 ==> bins.home[victim] / 4 == from / 4
      ensures victim == 0 ==> forall i | start <= i < from / 4 * 4 + 4 :: bins.lists[i] == []
    {
      hide Linked, Filed, ScanFrom, Marked;
      Ends(from, sizes);
      var idx := from;
      victim := 0;
      while true
        invariant from <= idx < from / 4 * 4 + 4 && victim == 0
        invariant forall i | start <= i < idx :: bins.lists[i] == []
        decreases from / 4 * 4 + 4 - idx
      {
        ghost var j;
        victim, j := SmallestFit(idx, nb, sizes);
        if victim != Header(idx) {
          NothingBefore(start, idx, nb, sizes);
          Element(idx, j, sizes);
          SmallestIsBest(idx, j, nb, sizes);
          return;
        }
        victim := 0;
        NoFitMeansEmpty(start, idx, nb, sizes);
        idx := idx + 1;
        if idx % 4 == 0 { break; }
      }
    }

    lemma NothingBefore(start: nat, idx: nat, nb: int, sizes: map<int, int>)
      requires BinsOk(sizes) && 4 <= nb && ScanFrom(sizes, bins, nb, start) && start <= idx <= NAV
      requires forall i | start <= i < idx :: bins.lists[i] == []
      ensures forall x | x in bins.home && x in sizes && 2 <= bins.home[x] && (bins.home[x] < idx || idx == NAV) ::
                sizes[x] < nb
    {
      forall x | x in bins.home && x in sizes && 2 <= bins.home[x] && (bins.home[x] < idx || idx == NAV)
        ensures sizes[x] < nb
      {
        if start <= bins.home[x] { EmptyBin(bins.home[x], x, sizes); }
      }
    }

    lemma NoFitMeansEmpty(start: nat, idx: nat, nb: int, sizes: map<int, int>)
      requires BinsOk(sizes) && 4 <= nb && ScanFrom(sizes, bins, nb, start) && start <= idx < NAV
      requires forall k | 0 <= k < |bins.lists[idx]| :: sizes[bins.lists[idx][k]] < nb
      ensures bins.lists[idx] == []
    {
    }

    lemma ClearKeepsMarks(k: nat, sizes: map<int, int>)
      requires BinsOk(sizes) && k < WORD_BITS
      requires forall i | 4 * k <= i < 4 * k + 4 && 2 <= i :: bins.lists[i] == []
      ensures Marked(ClearBit(binblocks, k), bins) && ClearBit(binblocks, k) < Pow2(WORD_BITS)
    {
      forall i | 2 <= i < NAV && bins.lists[i] != [] ensures Bit(ClearBit(binblocks, k), i / BINBLOCKWIDTH) {
        ClearBitAt(binblocks, k, i / BINBLOCKWIDTH);
      }
      BitsStayInWord(binblocks, k, WORD_BITS);
    }

    static ghost predicate BlockEmpty(B: Bins, k: nat)
      requires |B.lists| == NAV && k < WORD_BITS
    {
      forall i | 4 * k <= i < 4 * k + 4 :: B.lists[i] == []
    }

    /** From block a up to block b, only blocks with a chunk are marked any more; the other marks are the same. */
    static ghost predicate Swept(was: nat, now: nat, B: Bins, a: nat, b: nat)
      requires |B.lists| == NAV && b <= WORD_BITS
    {
      && (forall j | a <= j < b && Bit(now, j) :: !BlockEmpty(B, j))
      && (forall j: nat | j < a || b <= j :: Bit(now, j) == Bit(was, j))
    }

    /** Clear out the block bit, going back over a partly scanned block first. */
    method ClearBlock(from: nat, k: nat, ghost sizes: map<int, int>)
      requires BinsOk(sizes) && 4 <= from < NAV && k == from / 4
      requires forall i | from <= i < 4 * k + 4 :: bins.lists[i] == []
      modifies this`binblocks
      ensures BinsOk(sizes) && |bins.lists| == NAV
      ensures binblocks == if BlockEmpty(bins, k) then ClearBit(old(binblocks), k) else old(binblocks)
    {
      hide Linked, Filed;
      Ends(from, sizes);
      var startidx := from;
      while true
        invariant k == startidx / 4 && BinsOk(sizes) && startidx <= from
        invariant forall i | startidx <= i < 4 * k + 4 :: bins.lists[i] == []
        invariant binblocks == old(binblocks)
        decreases startidx
      {
        if startidx % 4 == 0 {
          ClearKeepsMarks(k, sizes);
          binblocks := ClearBit(binblocks, k);
          break;
        }
        startidx := startidx - 1;
        LastOf(startidx, sizes);
        if mem[Header(startidx) + 2] != Header(startidx) { break; }
      }
    }

    /** Blocks in increasing order, skipping unmarked ones and clearing those found empty. */
    method ScanBins(start: nat, nb: int, ghost sizes: map<int, int>) returns (victim: int)
      requires BinsOk(sizes) && 4 <= nb < MAX_WORDS && Below(sizes) && ScanFrom(sizes, bins, nb, start)
      modifies this`binblocks
      ensures BinsOk(sizes) && (old(binblocks) == 0 ==> binblocks == 0) && |bins.lists| == NAV
      ensures victim != 0 ==> BestFit(sizes, bins, nb, victim)
      ensures victim == 0 ==> forall x | x in bins.home && x in sizes && 2 <= bins.home[x] :: sizes[x] < nb
      ensures Swept(old(binblocks), binblocks, bins, start / 4, if victim == 0 then WORD_BITS
                else bins.home[victim] / 4)
    {
      hide Linked, Filed, ScanFrom, Pow2, Swept, BlockEmpty;
      Ends(2, sizes);
      ScanFromRange(start, nb, sizes);
      victim := 0;
      var k := start / 4;
      var idx := start;
      assert Swept(old(binblocks), binblocks, bins, k, k) by { SweptNone(k); }
      if Pow2(k) <= binblocks {
        if !Bit(binblocks, k) {
          UnmarkedAbove(k);
          k := k + 1;
          k := NextMarked(k);
          idx := 4 * k;
          SweptTo(old(binblocks), binblocks, start / 4, start / 4, k);
        }
        while true
          invariant start <= idx < NAV && k == idx / 4 && Bit(binblocks, k) && victim == 0
          invariant BinsOk(sizes) && old(binblocks) != 0
          invariant forall i | start <= i < idx :: bins.lists[i] == []
          invariant Swept(old(binblocks), binblocks, bins, start / 4, k)
          decreases NAV - idx
        {
          victim := ScanBlock(idx, start, nb, sizes);
          if victim != 0 { return; }
          ghost var before := binblocks;
          ClearBlock(idx, k, sizes);
          SweptOne(old(binblocks), before, binblocks, start / 4, k);
          k := k + 1;
          idx := 4 * k;
          if k == WORD_BITS || binblocks < Pow2(k) { break; }
          ghost var at := k;
          k := NextMarked(k);
          SweptTo(old(binblocks), binblocks, start / 4, at, k);
          idx := 4 * k;
        }
      }
      UnmarkedRest(k);
      SweptTo(old(binblocks), binblocks, start / 4, k, WORD_BITS);
      NothingBefore(start, NAV, nb, sizes);
    }

    lemma SweptNone(k: nat)
      requires |bins.lists| == NAV && k <= WORD_BITS
      ensures Swept(binblocks, binblocks, bins, k, k)
    {
    }

    lemma SweptOne(was: nat, before: nat, now: nat, a: nat, k: nat)
      requires |bins.lists| == NAV && a <= k < WORD_BITS && Swept(was, before, bins, a, k)
      requires now == if BlockEmpty(bins, k) then ClearBit(before, k) else before
      ensures Swept(was, now, bins, a, k + 1)
    {
      hide BlockEmpty;
      forall j: nat ensures Bit(ClearBit(before, k), j) <==> j != k && Bit(before, j) { ClearBitAt(before, k, j); }
    }

    /** Unmarked blocks need no sweeping. */
    lemma SweptTo(was: nat, now: nat, a: nat, k: nat, b: nat)
      requires |bins.lists| == NAV && a <= k <= b <= WORD_BITS && Swept(was, now, bins, a, k)
      requires forall j | k <= j < b :: !Bit(now, j)
      ensures Swept(was, now, bins, a, b)
    {
      hide BlockEmpty;
    }

    lemma ScanFromRange(idx: int, nb: int, sizes: map<int, int>)
      requires |bins.lists| == NAV && 4 <= nb && ScanFrom(sizes, bins, nb, idx)
      ensures 4 <= idx < NAV
    {
    }

    /** If block k is unmarked and some block from k on is marked, some block above k is. */
    lemma UnmarkedAbove(k: nat)
      requires |bins.lists| == NAV && Marked(binblocks, bins) && binblocks < Pow2(WORD_BITS)
      requires k < WORD_BITS && Pow2(k) <= binblocks && !Bit(binblocks, k)
      ensures k + 1 < WORD_BITS && Pow2(k + 1) <= binblocks
      ensures forall i | 4 * k <= i < 4 * k + 4 && 2 <= i :: bins.lists[i] == []
    {
      hide Pow2;
      var j := BlockLeqMeansMarkedAbove(binblocks, k, WORD_BITS);
      var j' := BlockLeqMeansMarkedAbove(binblocks, k + 1, WORD_BITS);
    }

    /** When no block from k on is marked, all their bins are empty. */
    lemma UnmarkedRest(k: nat)
      requires |bins.lists| == NAV && Marked(binblocks, bins) && binblocks < Pow2(WORD_BITS)
      requires k == WORD_BITS || (k < WORD_BITS && binblocks < Pow2(k))
      ensures forall i | 4 * k <= i < NAV && 2 <= i :: bins.lists[i] == []
      ensures forall j | k <= j < WORD_BITS :: !Bit(binblocks, j)
    {
      var j := BlockLeqMeansMarkedAbove(binblocks, k, WORD_BITS);
    }

    // ----- handing chunks out -----

    /** Block p of nb to nb + 3 words is new; the blocks in `before` are still there, unchanged. */
    ghost predicate Got(before: map<int, Words>, p: int, nb: int)
      requires Valid()
      reads this
    {
      && top != 0 && Live(lay, p) && nb <= lay.chunks[p] < nb + MINWORDS
      && p in Blocks() && p !in before && Blocks() - {p} == before
    }

    /** A binned chunk is handed out whole. */
    method TakeChunk(v: int)
      requires Valid() && top != 0 && v in lay.free
      modifies this
      ensures Valid() && top == old(top) && lay == old(lay).(free := old(lay).free - {v})
      ensures |mem| == |old(mem)|
      ensures v in Blocks() && v !in old(Blocks()) && Blocks() - {v} == old(Blocks())
    {
      hide Linked, Filed, Marked, Tagged, Payload.Blocks;
      ghost var m := mem;
      var q := ChunkEnd(v);
      UnlinkFree(v, lay.chunks);
      TagWord(lay, q);
      SetWord(q + 1, WithFlag(mem[q + 1]));
      TookChunk(m, mem, binblocks, lay, bins, v);
      lay := lay.(free := lay.free - {v});
    }

    /** The end of a chunk, read from its head. */
    method ChunkEnd(v: int) returns (q: int)
      requires Valid() && top != 0 && v in lay.chunks
      ensures q == Next(lay, v) && Boundary(lay, q) && |mem| == lay.end && 0 <= v && q + 1 < |mem|
      ensures SizeAt(mem, v) == lay.chunks[v]
      ensures v in lay.free ==> q in lay.chunks && HeadWord(mem, lay, v, 1) && mem[q + 1] == 4 * SizeOf(lay, q)
    {
      NextFlag(mem, lay, v);
      if v in lay.free { FreeHead(mem, lay, v); }
      q := v + mem[v + 1] / 4;
    }

    /** The remainder of the split chunk v becomes last_remainder; v is the old one, or there was none. */
    method CarveChunk(v: int, nb: int, isRemainder: bool)
      requires Valid() && top != 0 && v in lay.chunks && v in lay.free
      requires MINWORDS <= nb && nb % 2 == 0 && MINWORDS <= lay.chunks[v] - nb
      requires if isRemainder then bins.lists[1] == [v] else bins.lists[1] == [] && bins.home[v] != 1
      modifies this
      ensures Valid() && top == old(top) && lay == Split(old(lay), v, nb, false, true) && |mem| == |old(mem)|
      ensures |bins.lists| == NAV && bins.lists[1] == [v + nb]
      ensures v in Blocks() && v !in old(Blocks()) && Blocks() - {v} == old(Blocks())
    {
      hide Linked, Filed, Marked, Tagged, Tiled, Payload.Blocks, Split, HeadWord, CarveTagWords, SplitWords, Pow2;
      ghost var m := mem;
      var q := ChunkEnd(v);
      CarveShape(lay, v, nb);
      LinkRemainderOf(v, nb, q, isRemainder);
      CarvedWords(m, mem, lay, v, nb);
      TagCarved(v, nb, q);
      CarvedChunk(m, mem, binblocks, lay, bins, v, nb);
      lay := Split(lay, v, nb, false, true);
    }

    /** The list work of a split. */
    method LinkRemainderOf(v: int, nb: int, q: int, isRemainder: bool)
      requires Linked(mem, bins) && Filed(lay.chunks, bins) && Marked(binblocks, bins) && v in bins.home
               && v + nb !in bins.home
      requires AV_WORDS <= v && v % 2 == 0 && nb % 2 == 0 && 4 <= nb && 4 <= q - v - nb && q < |mem| && (q - v) % 2 == 0
      requires if isRemainder then bins.lists[1] == [v] else bins.lists[1] == [] && bins.home[v] != 1
      modifies this`mem, this`bins
      ensures Linked(mem, bins) && Marked(binblocks, bins) && Filed(lay.chunks[v + nb := q - v - nb], bins)
      ensures bins.home.Keys == old(bins).home.Keys - {v} + {v + nb}
      ensures SameExceptLinks(old(mem), mem, old(bins).home.Keys + {v + nb})
      ensures |bins.lists| == NAV && bins.lists[1] == [v + nb]
    {
      hide Linked, Filed, Marked;
      if !isRemainder {
        UnlinkFree(v, lay.chunks);
      }
      FiledAsRemainder(lay.chunks, binblocks, mem, bins, v + nb, q - v - nb);
      LinkLastRemainder(v + nb);
    }

    method TagCarved(v: int, nb: int, q: int)
      requires Linked(mem, bins) && 0 <= v && 0 < nb && v + nb < q < |mem|
      requires forall w | w in {v + 1, v + nb + 1, q} :: !LinkWord(bins.home.Keys, w)
      modifies this`mem
      ensures Linked(mem, bins) && mem == CarveTagWords(old(mem), v, nb, q)
    {
      SetWord(v + 1, 4 * nb + 1);
      SetWord(v + nb + 1, 4 * (q - v - nb) + 1);
      SetWord(q, 4 * (q - v - nb));
    }

    // ----- step 2 of malloc: the last remainder -----

    /** The remainder is used up whole. */
    method ExhaustRemainder(v: int)
      requires Valid() && top != 0 && v in lay.chunks && v in lay.free && bins.lists[1] == [v]
      modifies this
      ensures Valid() && top == old(top) && lay == old(lay).(free := old(lay).free - {v})
      ensures |mem| == |old(mem)|
      ensures v in Blocks() && v !in old(Blocks()) && Blocks() - {v} == old(Blocks())
    {
      hide Linked, Filed, Marked, Tagged, Payload.Blocks, Tiled;
      ghost var m := mem;
      var q := ChunkEnd(v);
      FiledNoRemainder(lay.chunks, binblocks, mem, bins);
      ClearLastRemainder();
      TagWord(lay, q);
      SetWord(q + 1, WithFlag(mem[q + 1]));
      TookChunk(m, mem, binblocks, lay, bins, v);
      lay := lay.(free := lay.free - {v});
    }

    /** The remainder is too small: it moves to the bin of its size. */
    method BinRemainder(v: int) returns (ghost i: int, ghost j: int)
      requires Valid() && top != 0 && v in lay.chunks && v in lay.free && bins.lists[1] == [v]
      modifies this
      ensures Valid() && top == old(top) && lay == old(lay) && Blocks() == old(Blocks())
      ensures |bins.lists| == NAV == |old(bins).lists| && i == BinIndex(4 * lay.chunks[v])
              && 0 <= j <= |old(bins).lists[i]|
      ensures bins == With(NoRemainder(old(bins)), i, j, v)
    {
      hide Linked, Filed, Marked, Tagged, Payload.Blocks, Tiled, Pow2;
      ghost var m := mem;
      var q := ChunkEnd(v);
      FreeSizes(mem, lay);
      RemainderNode(v);
      FiledNoRemainder(lay.chunks, binblocks, mem, bins);
      ClearLastRemainder();
      KeepSizes(m, mem, lay);
      i := BinIndex(4 * lay.chunks[v]);
      j := Frontlink(v, q - v, lay.chunks);
      assert lay.chunks[v := q - v] == lay.chunks;
      Relinked(m, mem, binblocks, lay, bins);
    }

    lemma RemainderNode(v: int)
      requires Valid() && top != 0 && v in lay.chunks && v in lay.free && bins.lists[1] == [v]
      ensures Node(mem, v) && AV_WORDS <= v && 4 <= lay.chunks[v] && lay.chunks[v] % 2 == 0
      ensures |bins.lists| == NAV && bins.home.Keys == lay.free && bins.home[v] == 1
    {
      assert ListOk(mem, bins, 1);
      assert bins.lists[1][0] == v;
    }

    /** What the search for a chunk of nb words leaves when the last remainder was of no use. */
    twostate predicate RemainderGone(nb: int)
      reads this
    {
      && lay == old(lay) && bins.home.Keys == old(bins.home).Keys
      && (forall x | x in bins.home :: bins.home[x] != 1)
      && (forall x | x in bins.home && old(bins.home[x]) != 1 :: bins.home[x] == old(bins.home[x]))
      && (forall x | x in bins.home && old(bins.home[x]) == 1 :: x in lay.chunks && lay.chunks[x] < nb)
      && (bins == old(bins) || exists v, i, j :: Rebinned(old(bins), bins, v, i, j))
    }

    /** The last remainder v has moved to place j of bin i. */
    static ghost predicate Rebinned(B: Bins, B': Bins, v: int, i: int, j: int) {
      && |B.lists| == NAV && B.lists[1] == [v] && 2 <= i < NAV && 0 <= j <= |B.lists[i]|
      && B' == With(NoRemainder(B), i, j, v)
    }

    method TryRemainder(nb: int, idx: nat) returns (p: int)
      requires Valid() && 4 <= nb < MAX_WORDS && nb % 2 == 0 && |bins.lists| == NAV
               && ScanFrom(lay.chunks, bins, nb, idx)
      modifies this
      ensures Valid() && top == old(top) && |mem| == |old(mem)|
      ensures p != 0 ==> RestKept(old(lay), bins, p, nb)
      ensures p != 0 ==> Got(old(Blocks()), p, nb) && p in old(bins.home) && old(bins.home)[p] == 1
      ensures p != 0 ==> p in old(lay).chunks && nb <= old(lay).chunks[p]
      ensures p == 0 ==> Blocks() == old(Blocks()) && RemainderGone(nb)
      ensures |bins.lists| == NAV && (p == 0 ==> bins.lists[1] == [] && ScanFrom(lay.chunks, bins, nb, idx))
    {
      hide Linked, Filed, Marked, Tagged, Payload.Blocks, ScanFrom, Inv;
      p := 0;
      RemainderIsLast();
      var v := mem[Header(1) + 2];
      if v != Header(1) {
        ghost var q := ChunkEnd(v);
        var size := mem[v + 1] / 4;
        InTheArena(v);
        if Excess(size, nb) >= 4 * MINWORDS {
          CarveChunk(v, nb, true);
          p := v;
        } else if Excess(size, nb) >= 0 {
          ExhaustRemainder(v);
          p := v;
        } else {
          ghost var B := bins;
          ghost var i, j := BinRemainder(v);
          InTheArena(v);
          FiledNow();
          ScanAfterBinning(lay.chunks, B, bins, nb, idx, v, i, j);
          assert Rebinned(B, bins, v, i, j);
        }
      }
      FiledNow();
    }

    lemma InTheArena(v: int)
      requires Valid() && top != 0 && v in lay.chunks
      ensures AV_WORDS <= v && 4 <= lay.chunks[v] < MAX_WORDS - MINWORDS && |mem| == lay.end
    {
    }

    lemma HousedNow()
      requires Valid()
      ensures |bins.lists| == NAV && Housed(bins)
    {
    }

    lemma FiledNow()
      requires Valid()
      ensures |bins.lists| == NAV && (top != 0 ==> Filed(lay.chunks, bins))
    {
    }

    lemma RemainderIsLast()
      requires Valid()
      ensures AV_WORDS <= |mem| && |bins.lists| == NAV
      ensures mem[Header(1) + 2] == Header(1) <==> bins.lists[1] == []
      ensures bins.lists[1] == [] ==> forall x | x in bins.home :: bins.home[x] != 1
      ensures bins.lists[1] != [] ==> var v := mem[Header(1) + 2];
                && top != 0 && bins.lists[1] == [v] && v in lay.chunks && v in lay.free && v in bins.home
                && bins.home[v] == 1
                && AV_WORDS <= v && 4 <= lay.chunks[v] && forall x | x in bins.home && x != v :: bins.home[x] != 1
    {
      BinsOkFromValid();
      Ends(1, lay.chunks);
      if bins.lists[1] != [] { Element(1, 0, lay.chunks); }
    }

    // ----- step 6 of malloc: more core -----

    /** The break can go up by nb words, the least top, and the rounding to pages, and stay within its limit. */
    static predicate Room(words: nat, nb: int) { words + nb + MINWORDS + 2 * PAGE_WORDS <= MAX_WORDS }

    /** The first aligned place at or after w. */
    static function Even(w: nat): nat { if w % 2 == 0 then w else w + 1 }

    /** malloc_extend_top; sbrk grants its first and second request as told. */
    method ExtendTop(nb: int, sbrk1: bool, sbrk2: bool)
      requires Valid() && 4 <= nb && nb % 2 == 0
      modifies this
      ensures Valid() && Blocks() == old(Blocks()) && (old(top) != 0 ==> top == old(top))
      ensures lay.chunks == old(lay).chunks && lay.free == old(lay).free
      ensures sbrk1 && sbrk2 && Room(|old(mem)|, nb) ==> top != 0 && nb + MINWORDS <= lay.end - lay.top
      ensures old(top) != 0 ==>
                |mem| == |old(mem)| || (sbrk1 && nb + MINWORDS <= |mem| - |old(mem)| < nb + MINWORDS + PAGE_WORDS)
      ensures old(top) == 0 ==>
                var size := if old(sbrked) then PageUp(nb + MINWORDS) else nb + MINWORDS;
                |mem| == |old(mem)| || (sbrk1 && size <= |mem| - |old(mem)| <= size + PAGE_WORDS + 1)
      ensures sbrked <==> old(sbrked) || |mem| != |old(mem)|
      ensures old(top) == 0 && top != 0 ==> top == Even(|old(mem)|)
      ensures top != 0 && (old(top) == 0 || old(lay).end % PAGE_WORDS == 0) ==> lay.end % PAGE_WORDS == 0
    {
      hide Filed, Marked, Linked, Tagged, Payload.Blocks, Pow2, PageUp, Sized, Apart, Closed;
      var size := nb + MINWORDS;
      if sbrked {
        size := PageUp(size);
      }
      if !sbrk1 || |mem| + size > MAX_WORDS { return; }
      if top != 0 {
        GrowTop(size);
      } else {
        FirstExtension(size, sbrk2);
      }
    }

    /** More space right behind top becomes part of it. */
    method GrowTop(size: nat)
      requires Valid() && top != 0 && size % PAGE_WORDS == 0 && |mem| + size <= MAX_WORDS
      modifies this`mem, this`lay
      ensures Valid() && Blocks() == old(Blocks()) && |mem| == |old(mem)| + size && lay == old(lay).(end := |mem|)
      ensures old(lay).end == |old(mem)| && (old(lay).end % PAGE_WORDS == 0 ==> lay.end % PAGE_WORDS == 0)
    {
      hide Filed, Marked, Linked, Tagged, Payload.Blocks, Pow2, Sized, Apart, Closed;
      ghost var m, L := mem, lay;
      TopHead(m, L);
      mem := mem + Zeros(size);
      var topsize := size + mem[top + 1] / 4;
      mem := mem[top + 1 := 4 * topsize + 1];
      lay := lay.(end := |mem|);
      WholePages(L.end, size);
      Extended(m, mem, binblocks, L, bins, |mem|);
    }

    /** The first space from sbrk: it is aligned, and a second request ends it at a page boundary. */
    method FirstExtension(size: nat, sbrk2: bool)
      requires Valid() && top == 0 && MINWORDS <= size
      modifies this
      ensures Valid() && Blocks() == map[] && lay.chunks == old(lay).chunks && lay.free == old(lay).free
      ensures sbrk2 && |old(mem)| + size + PAGE_WORDS < MAX_WORDS ==> top != 0 && size <= lay.end - lay.top
      ensures sbrked && size <= |mem| - |old(mem)| <= size + PAGE_WORDS + 1
      ensures top != 0 ==> top == Even(|old(mem)|) && lay.end % PAGE_WORDS == 0
    {
      hide Filed, Marked, Linked, Correction, Pow2;
      ghost var m := mem;
      NoBlocks();
      var brk := |mem|;
      mem := mem + Zeros(size);
      sbrked := true;
      LinkedFrame(m, mem, bins);
      var start := if brk % 2 != 0 then brk + 1 else brk;
      var correction := Correction(brk, start, size);
      if !sbrk2 || |mem| + correction > MAX_WORDS { return; }
      mem := mem + Zeros(correction);
      var topsize := |mem| - start;
      mem := mem[start + 1 := 4 * topsize + 1];
      LinkedFrame(m, mem, bins);
      ghost var L := Layout(map[], {}, start, start, |mem|);
      FirstTop(mem, binblocks, L, bins);
      top := start;
      lay := L;
    }

    lemma NoBlocks()
      requires Valid() && top == 0
      ensures AV_WORDS <= |mem| && |bins.lists| == NAV && forall w | |mem| <= w :: !LinkWord(bins.home.Keys, w)
    {
    }

    /** chunksize(top); initial_top is a bin header, whose size word is binblocks. */
    method TopSize() returns (n: nat)
      requires Valid()
      ensures n == if top == 0 then 0 else lay.end - lay.top
      ensures n < MAX_WORDS && (top != 0 ==> 0 <= top && top + 1 < |mem|)
    {
      if top == 0 {
        n := binblocks / 4;
      } else {
        TopHead(mem, lay);
        n := mem[top + 1] / 4;
      }
    }

    /** There is a top that holds nb words and a remainder. */
    static ghost predicate TopHas(top: int, L: Layout, nb: int) { top != 0 && nb + MINWORDS <= L.end - L.top }

    /** Steps 4 to 6 of malloc: a chunk from top, extending it if need be. */
    method UseTop(nb: int, sbrk1: bool, sbrk2: bool) returns (p: int)
      requires Valid() && 4 <= nb < MAX_WORDS && nb % 2 == 0
      modifies this
      ensures Valid()
      ensures p == 0 ==> Blocks() == old(Blocks()) && lay.chunks == old(lay).chunks && lay.free == old(lay).free
      ensures p != 0 ==> Got(old(Blocks()), p, nb) && p !in old(lay).chunks && lay.free == old(lay).free
      ensures sbrk1 && sbrk2 && Room(|old(mem)|, nb) ==> p != 0
      ensures p != 0 ==> p == if old(top) != 0 then old(top) else Even(|old(mem)|)
      ensures TopHas(old(top), old(lay), nb) ==> p != 0 && |mem| == |old(mem)|
    {
      hide Linked, Filed, Marked, Tagged, Payload.Blocks, Tiled, Recut;
      var size := TopSize();
      if Excess(size, nb) < 4 * MINWORDS {
        ExtendTop(nb, sbrk1, sbrk2);
        size := TopSize();
        if Excess(size, nb) < 4 * MINWORDS {
          return 0;
        }
      }
      p := TakeTop(nb);
    }

    /** A chunk of nb words from the bottom of top. */
    method TakeTop(nb: int) returns (p: int)
      requires Valid() && top != 0 && 4 <= nb && nb % 2 == 0 && MINWORDS <= lay.end - lay.top - nb
      modifies this
      ensures Valid() && p != 0 && Got(old(Blocks()), p, nb) && p !in old(lay).chunks && lay.free == old(lay).free
      ensures p == old(top) && |mem| == |old(mem)|
    {
      hide Linked, Filed, Marked, Tagged, Payload.Blocks, Tiled, Recut;
      TopHead(mem, lay);
      ghost var m := mem[top + 1 := 4 * nb + 1][top + nb + 1 := 4 * (lay.end - top - nb) + 1];
      CarvedTop(mem, m, binblocks, lay, bins, nb);
      var rem := mem[top + 1] / 4 - nb;
      p := top;
      mem := mem[p + 1 := 4 * nb + 1];
      top := p + nb;
      mem := mem[top + 1 := 4 * rem + 1];
      lay := Recut(lay, p, nb);
    }

    lemma Shape()
      requires Valid()
      ensures bins.home.Keys == lay.free && lay.free <= lay.chunks.Keys
      ensures forall x | x in bins.home :: 1 <= bins.home[x]
      ensures forall p | p in lay.chunks :: AV_WORDS <= p && p % 2 == 0
      ensures forall p | p in Blocks() :: top != 0 && Live(lay, p) && |Blocks()[p]| == lay.chunks[p] - 1
    {
    }

    /** Which free chunk is taken: an exact fit if step 1 finds one, else last_remainder if it is large enough,
        else a best fit among the binned chunks. */
    static ghost predicate Taken(L: Layout, B: Bins, p: int, nb: int)
      requires 0 <= nb
    {
      && p in L.free && p in B.home && p in L.chunks && nb <= L.chunks[p]
      && if B.home[p] == 1 then forall x :: !ExactFit(L.chunks, B, nb, x)
         else BestFit(L.chunks, B, nb, p) && (ExactFit(L.chunks, B, nb, p) || NoRemainderFits(L, B, nb))
    }

    /** If enough of chunk p was left over, that is last_remainder now. */
    static ghost predicate RestKept(L: Layout, B: Bins, p: int, nb: int) {
      p in L.chunks && MINWORDS <= L.chunks[p] - nb ==> |B.lists| == NAV && B.lists[1] == [p + nb]
    }

    static ghost predicate NoRemainderFits(L: Layout, B: Bins, nb: int) {
      forall x | x in B.home && B.home[x] == 1 && x in L.chunks :: L.chunks[x] < nb
    }

    /** Steps 1 to 3 of malloc: the bins and the last remainder. */
    method SearchFree(nb: int) returns (p: int)
      requires Valid() && 4 <= nb < MAX_WORDS && nb % 2 == 0
      modifies this
      ensures Valid() && |mem| == |old(mem)| && top == old(top)
      ensures p == 0 ==> Blocks() == old(Blocks()) && lay == old(lay)
      ensures p == 0 ==> forall x | x in old(lay).free && x in old(lay).chunks :: old(lay).chunks[x] < nb
      ensures p != 0 ==> Got(old(Blocks()), p, nb) && Taken(old(lay), old(bins), p, nb)
      ensures p != 0 ==> RestKept(old(lay), bins, p, nb)
    {
      hide Linked, Filed, Marked, Tagged, Payload.Blocks, Tiled, ScanFrom;
      BinsOkFromValid();
      Shape();
      assert Housed(bins) by { HousedNow(); }
      var idx;
      p, idx := FindExact(nb, lay.chunks);
      if p != 0 {
        TakeChunk(p);
        return;
      }
      p := TryRemainder(nb, idx);
      if p != 0 { return; }
      Shape();
      ghost var B := bins;
      p := UseBins(nb, idx);
      if p != 0 && B != old(bins) {
        var v, i, j :| Rebinned(old(bins), B, v, i, j);
        BestFitBefore(old(lay).chunks, old(bins), B, nb, v, i, j, p);
      }
    }

    /** Step 3. */
    method UseBins(nb: int, idx: nat) returns (p: int)
      requires Valid() && 4 <= nb < MAX_WORDS && nb % 2 == 0
      requires |bins.lists| == NAV && bins.lists[1] == [] && ScanFrom(lay.chunks, bins, nb, idx)
      modifies this
      ensures Valid() && |mem| == |old(mem)| && top == old(top)
      ensures p == 0 ==> Blocks() == old(Blocks()) && lay == old(lay)
      ensures p == 0 ==> forall x | x in old(lay).free && x in old(lay).chunks :: old(lay).chunks[x] < nb
      ensures p != 0 ==> Got(old(Blocks()), p, nb) && BestFit(old(lay).chunks, old(bins), nb, p)
      ensures p != 0 ==> RestKept(old(lay), bins, p, nb)
    {
      hide Linked, Filed, Marked, Tagged, Payload.Blocks, Tiled, ScanFrom;
      BinsOkFromValid();
      RemainderIsLast();
      Shape();
      p := ScanBins(idx, nb, lay.chunks);
      if p != 0 {
        if Excess(mem[p + 1] / 4, nb) >= 4 * MINWORDS {
          CarveChunk(p, nb, false);
        } else {
          TakeChunk(p);
        }
      }
    }

    static ghost predicate NoneFits(L: Layout, nb: int) { forall x | x in L.free && x in L.chunks :: L.chunks[x] < nb }

    /** Where malloc puts a chunk of nb words: in a free chunk, or at top if none fits. */
    static ghost predicate Allotted(top: int, L: Layout, B: Bins, words: nat, p: int, nb: int)
      requires 0 <= nb
    {
      if p in L.free then Taken(L, B, p, nb) else NoneFits(L, nb) && p == if top != 0 then top else Even(words)
    }

    static ghost predicate NoRoom(top: int, L: Layout, nb: int) { NoneFits(L, nb) && !TopHas(top, L, nb) }

    /** malloc. The block is new, aligned and large enough, and no other block changes. A block from a bin
        is a best fit among the binned chunks; top is used only when no free chunk fits, and sbrk and failure
        come only when top is too short as well. */
    method Malloc(bytes: nat, sbrk1: bool, sbrk2: bool) returns (r: int)
      requires Valid() && bytes < SIZE_LIMIT
      modifies this
      ensures Valid() && r % 2 == 0
      ensures r == 0 ==> Blocks() == old(Blocks())
      ensures r != 0 ==> Got(old(Blocks()), r - 2, Request2Size(bytes) / 4)
      ensures r != 0 ==> (bytes <= 4 * |Blocks()[r - 2]| <==> bytes < LONG_LIMIT - 11)
      ensures r != 0 ==> Allotted(old(top), old(lay), old(bins), |old(mem)|, r - 2, Request2Size(bytes) / 4)
      ensures r != 0 ==> RestKept(old(lay), bins, r - 2, Request2Size(bytes) / 4)
      ensures r == 0 || |mem| != |old(mem)| ==> NoRoom(old(top), old(lay), Request2Size(bytes) / 4)
      ensures sbrk1 && sbrk2 && Room(|old(mem)|, Request2Size(bytes) / 4) ==> r != 0
    {
      hide Linked, Filed, Marked, Tagged, Payload.Blocks, Tiled, BestFit;
      Shape();
      var nb := Request2Size(bytes) / 4;
      var p := SearchFree(nb);
      if p == 0 {
        p := UseTop(nb, sbrk1, sbrk2);
        if p == 0 { return 0; }
      }
      Shape();
      RequestFits(bytes);
      return p + 2;
    }

    // ----- realloc -----

    /** p is live in the tiling with n words, but its head and the flag after it are still to be written. */
    ghost predicate Pending(p: int, n: int)
      reads this
    {
      && 0 <= p && 1 <= n && p + n + 1 < |mem| && top != 0 && sbrked
      && Inv(Patched(mem, p, n), top, binblocks, lay, bins)
      && Live(lay, p) && lay.chunks[p] == n
    }

    ghost function PendingBlocks(p: int, n: int): map<int, Words>
      requires Pending(p, n)
      reads this
    {
      Payload.Blocks(Patched(mem, p, n), lay)
    }

    /** The end of realloc: what exceeds nb words is split off and freed, if it can be a chunk. */
    method SplitTail(p: int, n: int, nb: int)
      requires Pending(p, n) && 4 <= nb <= n && nb % 2 == 0
      modifies this
      ensures Valid() && top != 0 && Live(lay, p) && nb <= lay.chunks[p] < nb + MINWORDS
      ensures p in Blocks() && p in old(PendingBlocks(p, n))
      ensures Blocks() - {p} == old(PendingBlocks(p, n)) - {p}
      ensures Blocks()[p] <= old(PendingBlocks(p, n)[p])
    {
      hide Linked, Filed, Marked, Tagged, Tiled, Payload.Blocks;
      ghost var P := Patched(mem, p, n);
      TopHead(P, lay);
      LiveBlock(P, lay, p);
      if n - nb >= MINWORDS {
        SplitPending(mem, binblocks, lay, bins, p, n, nb);
        SplitPendingBlocks(mem, lay, p, n, nb);
        var rem := p + nb;
        mem := mem[p + 1 := 4 * nb + mem[p + 1] % 2];
        mem := mem[rem + 1 := 4 * (n - nb) + 1];
        mem := mem[p + n + 1 := WithFlag(mem[p + n + 1])];
        lay := Split(lay, p, nb, false, false);
        Shape();
        Free(rem + 2);
        Shape();
      } else {
        mem := mem[p + 1 := 4 * n + mem[p + 1] % 2];
        mem := mem[p + n + 1 := WithFlag(mem[p + n + 1])];
        assert mem == P;
      }
    }

    /** MALLOC_COPY: n words in ascending order, so that a block may be moved down over itself. */
    method Copy(dst: int, src: int, n: nat)
      requires 0 <= src && 0 <= dst && src + n <= |mem| && dst + n <= |mem|
      requires dst <= src || src + n <= dst
      modifies this`mem
      ensures |mem| == |old(mem)| && mem[dst .. dst + n] == old(mem)[src .. src + n]
      ensures forall w | 0 <= w < |mem| && !(dst <= w < dst + n) :: mem[w] == old(mem)[w]
    {
      for i := 0 to n
        invariant |mem| == |old(mem)|
        invariant mem[dst .. dst + i] == old(mem)[src .. src + i]
        invariant forall w | 0 <= w < |mem| && !(dst <= w < dst + i) :: mem[w] == old(mem)[w]
      {
        ghost var m := mem;
        mem := mem[dst + i := mem[src + i]];
        assert mem[dst .. dst + (i + 1)] == m[dst .. dst + i] + [m[src + i]];
        assert old(mem)[src .. src + (i + 1)] == old(mem)[src .. src + i] + [old(mem)[src + i]];
      }
    }

    /** Block o has become block p of nb to nb + 3 words; it holds the old contents as far as both reach. */
    ghost predicate Resized(before: map<int, Words>, o: int, p: int, nb: int)
      requires Valid() && o in before
      reads this
    {
      && top != 0 && Live(lay, p) && nb <= lay.chunks[p] < nb + MINWORDS
      && p in Blocks() && (p == o || p !in before)
      && Blocks() - {p} == before - {o}
      && SameStart(before[o], Blocks()[p])
    }

    /** The joined region [a, b) around block o, with o's contents moved down to a, is split to nb words. */
    method JoinAndSplit(a: int, b: int, o: int, nb: int, ghost m: Words)
      requires top != 0 && sbrked && Tiled(lay) && Tagged(m, lay) && lay.top == top && Region(lay, a, b, o)
      requires Linked(mem, bins) && binblocks < Pow2(WORD_BITS) && Marked(binblocks, bins) && Filed(lay.chunks, bins)
      requires bins.home.Keys == Merge(lay, a, b, false).free && SameOutside(m, mem, lay.free, a + 2, b - 1)
      requires 4 <= nb <= b - a && nb % 2 == 0
      requires |mem| == |m| == lay.end && mem[a + 2 .. a + lay.chunks[o] + 1] == m[o + 2 .. o + lay.chunks[o] + 1]
      modifies this
      ensures Valid() && o in Payload.Blocks(m, old(lay)) && Resized(Payload.Blocks(m, old(lay)), o, a, nb)
    {
      hide Linked, Filed, Marked, Tagged, Tiled, Payload.Blocks, Merge, SameOutside, Pow2;
      ghost var L := lay;
      JoinedRegion(m, mem, binblocks, lay, bins, a, b, o);
      JoinedStart(m, mem, lay, a, b, o);
      lay := Merge(lay, a, b, false);
      SplitTail(a, b - a, nb);
    }

    /** Forward into the next chunk. */
    method ExpandForward(o: int, next: int, b: int, nb: int)
      requires Valid() && top != 0 && Live(lay, o) && next == Next(lay, o) && next in lay.free && next in lay.chunks
               && b == Next(lay, next)
      requires 4 <= nb <= b - o && nb % 2 == 0
      modifies this
      ensures Valid() && o in old(Blocks()) && Resized(old(Blocks()), o, o, nb)
    {
      hide Linked, Filed, Marked, Tagged, Tiled, Payload.Blocks, Merge, SameOutside, Resized;
      ghost var m := mem;
      TopHead(mem, lay);
      ForwardRegion(lay, o, next, b);
      UnlinkFree(next, lay.chunks);
      SameBlockWords(m, mem, lay, o);
      RegionFrame(m, mem, mem, lay, bins, o, b, o);
      JoinAndSplit(o, b, o, nb, m);
    }

    /** Backward into the previous chunk, and forward into the next one if it is free. */
    method ShiftBack(o: int, prev: int, b: int, nb: int)
      requires Valid() && top != 0 && Region(lay, prev, b, o) && prev != o
      requires 4 <= nb <= b - prev && nb % 2 == 0
      modifies this
      ensures Valid() && o in old(Blocks()) && Resized(old(Blocks()), o, prev, nb)
    {
      hide Linked, Filed, Marked, Tagged, Tiled, Payload.Blocks, Merge, SameOutside, Resized, Pow2, SizeAt;
      ghost var m := mem;
      var next := ChunkEnd(o);
      RegionShape(lay, prev, b, o);
      if b != next { UnlinkFree(next, lay.chunks); }
      UnlinkFree(prev, lay.chunks);
      SameBlockWords(m, mem, lay, o);
      ghost var m1 := mem;
      Copy(prev + 2, o + 2, next - o - 1);
      RegionFrame(m, m1, mem, lay, bins, prev, b, o);
      JoinAndSplit(prev, b, o, nb, m);
    }

    /** Forward into top, and backward first if a is a free predecessor. */
    method ExpandTop(o: int, a: int, nb: int)
      requires Valid() && top != 0 && Region(lay, a, top, o) && Next(lay, o) == top
      requires lay.chunks[o] < nb && nb % 2 == 0 && MINWORDS <= lay.end - a - nb
      modifies this
      ensures Valid() && o in old(Blocks()) && Resized(old(Blocks()), o, a, nb)
    {
      hide Linked, Filed, Marked, Tagged, Tiled, Payload.Blocks, Merge, SameOutside, Recut, GrowWords, SameExceptLinks;
      ghost var m := mem;
      TopHead(mem, lay);
      RegionShape(lay, a, top, o);
      var end := top + mem[top + 1] / 4;
      ghost var m1 := MoveDown(o, a);
      GrowFrame(m, m1, mem, lay, bins, a, o, nb);
      GrownIntoTop(m, GrowWords(mem, a, nb, end), binblocks, lay, bins, a, o, nb);
      GrowTags(a, nb, end);
      lay := Recut(lay, a, nb);
    }

    /** If a is the free predecessor of block o, it leaves its bin and o's contents move down to it. */
    method MoveDown(o: int, a: int) returns (ghost m1: Words)
      requires Valid() && top != 0 && Region(lay, a, top, o) && Next(lay, o) == top
      modifies this`mem, this`bins
      ensures |old(mem)| == lay.end && Linked(m1, bins) && Filed(lay.chunks, bins) && Marked(binblocks, bins)
      ensures bins.home.Keys == lay.free - {a} && SameExceptLinks(old(mem), m1, lay.free)
      ensures |mem| == |m1| == |old(mem)| && (a == o ==> mem == m1)
      ensures 0 <= a && 0 <= o && o + lay.chunks[o] < |mem| && a + lay.chunks[o] < |mem|
      ensures forall w | 0 <= w < |m1| && !(a + 2 <= w < a + lay.chunks[o] + 1) :: mem[w] == m1[w]
      ensures mem[a + 2 .. a + lay.chunks[o] + 1] == old(mem)[o + 2 .. o + lay.chunks[o] + 1]
    {
      hide Linked, Filed, Marked, Tagged, Tiled, Merge;
      ghost var m := mem;
      var next := ChunkEnd(o);
      RegionShape(lay, a, top, o);
      if a != o { UnlinkFree(a, lay.chunks); }
      SameBlockWords(m, mem, lay, o);
      m1 := mem;
      if a != o { Copy(a + 2, o + 2, next - o - 1); }
    }

    method GrowTags(a: int, nb: int, end: int)
      requires 0 <= a && 1 <= nb && a + nb + 1 < |mem|
      modifies this`mem, this`top
      ensures mem == GrowWords(old(mem), a, nb, end) && top == a + nb
    {
      top := a + nb;
      mem := mem[top + 1 := 4 * (end - top) + 1];
      mem := mem[a + 1 := 4 * nb + mem[a + 1] % 2];
    }

    /** The block stays where it is and loses what exceeds nb words. */
    method Shrink(o: int, nb: int)
      requires Valid() && top != 0 && Live(lay, o) && 4 <= nb <= lay.chunks[o] && nb % 2 == 0
      modifies this
      ensures Valid() && o in old(Blocks()) && Resized(old(Blocks()), o, o, nb)
    {
      hide Linked, Filed, Marked, Tagged, Tiled, Payload.Blocks;
      PatchedSame(mem, lay, o);
      var b := ChunkEnd(o);
      SplitTail(o, b - o, nb);
    }

    /** The new block was allocated just after the old one: they are joined without a copy. */
    method JoinNew(o: int, p: int, nb: int)
      requires Valid() && top != 0 && Live(lay, o) && Live(lay, p) && Next(lay, o) == p && nb <= lay.chunks[p]
               && 4 <= nb && nb % 2 == 0
      modifies this
      ensures Valid() && o in old(Blocks()) && p in old(Blocks()) && Resized(old(Blocks()) - {p}, o, o, nb)
    {
      hide Linked, Filed, Marked, Tagged, Tiled, Payload.Blocks, Merge;
      var b := ChunkEnd(p);
      LiveBlock(mem, lay, o);
      LiveBlock(mem, lay, p);
      JoinedLive(mem, binblocks, lay, bins, o, p);
      JoinedLiveBlocks(mem, lay, o, p);
      lay := Merge(lay, o, b, false);
      SplitTail(o, b - o, nb);
    }

    /** The contents are copied to the new block and the old one is freed. */
    method CopyAndFree(o: int, p: int, nb: int)
      requires Valid() && top != 0 && Live(lay, o) && Live(lay, p) && o != p
               && lay.chunks[o] < nb <= lay.chunks[p] < nb + MINWORDS
      modifies this
      ensures Valid() && o in old(Blocks()) && p in old(Blocks()) && Resized(old(Blocks()) - {p}, o, p, nb)
    {
      hide Linked, Filed, Marked, Tagged, Payload.Blocks, Pow2, Boundary, SizeAt;
      ghost var m, L := mem, lay;
      var next := ChunkEnd(o);
      LiveBlock(mem, lay, o);
      LiveBlock(mem, lay, p);
      Copy(p + 2, o + 2, next - o - 1);
      PayloadWritten(m, mem, binblocks, lay, bins, p);
      MovedStart(m, mem, lay, lay, p, o);
      LiveBlock(mem, lay, o);
      Shape();
      Free(o + 2);
      Shape();
    }

    /** Block o went where malloc puts nb words, or joined that if it was just behind o; or there is no room. */
    static ghost predicate Moved(top: int, L: Layout, B: Bins, words: nat, o: int, p: int, nb: int)
      requires 0 <= nb && o in L.chunks
    {
      if p == 0 then NoRoom(top, L, nb)
      else p != Next(L, o) && Allotted(top, L, B, words, if p == o then Next(L, o) else p, nb)
    }

    /** malloc, copy, free. */
    method Move(o: int, bytes: nat, sbrk1: bool, sbrk2: bool) returns (p: int)
      requires Valid() && o in Blocks() && bytes < SIZE_LIMIT && lay.chunks[o] < Request2Size(bytes) / 4
      modifies this
      ensures Valid()
      ensures p == 0 ==> Blocks() == old(Blocks())
      ensures p != 0 ==> Resized(old(Blocks()), o, p, Request2Size(bytes) / 4)
      ensures Moved(old(top), old(lay), old(bins), |old(mem)|, o, p, Request2Size(bytes) / 4)
      ensures sbrk1 && sbrk2 && Room(|old(mem)|, Request2Size(bytes) / 4) ==> p != 0
    {
      hide Linked, Filed, Marked, Tagged, Tiled, Payload.Blocks, BestFit, Allotted, NoRoom, Inv;
      Shape();
      var r := Malloc(bytes, sbrk1, sbrk2);
      if r == 0 { return 0; }
      Shape();
      p := r - 2;
      assert o in Blocks() - {p} && Blocks()[o] == old(Blocks()[o]);
      var next := ChunkEnd(o);
      if p == next {
        JoinNew(o, p, Request2Size(bytes) / 4);
        p := o;
      } else {
        CopyAndFree(o, p, Request2Size(bytes) / 4);
      }
    }

    /** What the tags around block o say: the chunk after it, if that is top or free, and a free one before it. */
    method Surroundings(o: int) returns (next: int, nextsize: int, prev: int, prevsize: int)
      requires Valid() && top != 0 && Live(lay, o)
      ensures next == if Next(lay, o) == top || Next(lay, o) in lay.free then Next(lay, o) else 0
      ensures next != 0 && next != top ==> next in lay.chunks && next in lay.free && nextsize == lay.chunks[next]
      ensures next != 0 && next == top ==> nextsize == lay.end - lay.top
      ensures next == 0 ==> nextsize == 0
      ensures prev != 0 ==>
                prev in lay.chunks && prev in lay.free && Next(lay, prev) == o && prevsize == lay.chunks[prev]
      ensures prev == 0 ==> prevsize == 0 && forall q | q in lay.free && q in lay.chunks :: Next(lay, q) != o
    {
      hide Valid;
      next, nextsize := Following(o);
      prev, prevsize := Preceding(o);
    }

    method Following(o: int) returns (next: int, nextsize: int)
      requires Valid() && top != 0 && Live(lay, o)
      ensures next == if Next(lay, o) == top || Next(lay, o) in lay.free then Next(lay, o) else 0
      ensures next != 0 && next != top ==> next in lay.chunks && next in lay.free && nextsize == lay.chunks[next]
      ensures next != 0 && next == top ==> nextsize == lay.end - lay.top
      ensures next == 0 ==> nextsize == 0
    {
      hide Pow2, SizeOf, Filed, Housed;
      next := ChunkEnd(o);
      TopHead(mem, lay);
      if next == top {
        nextsize := mem[next + 1] / 4;
      } else {
        NextFlag(mem, lay, next);
        nextsize := mem[next + 1] / 4;
        if mem[next + nextsize + 1] % 2 != 0 { next, nextsize := 0, 0; }
      }
    }

    method Preceding(o: int) returns (prev: int, prevsize: int)
      requires Valid() && top != 0 && Live(lay, o)
      ensures prev != 0 ==>
                prev in lay.chunks && prev in lay.free && Next(lay, prev) == o && prevsize == lay.chunks[prev]
      ensures prev == 0 ==> prevsize == 0 && forall q | q in lay.free && q in lay.chunks :: Next(lay, q) != o
    {
      hide Pow2, SizeOf, Filed, Housed;
      prev, prevsize := 0, 0;
      TopHead(mem, lay);
      FootLeadsBack(mem, lay, o);
      FlagTells(o);
      if mem[o + 1] % 2 == 0 {
        prev := o - mem[o] / 4;
        NextFlag(mem, lay, prev);
        prevsize := mem[prev + 1] / 4;
      }
    }

    /** The PREV_INUSE bit is set only when nothing before o is free. */
    lemma FlagTells(o: int)
      requires Valid() && top != 0 && Live(lay, o) && 0 <= o && o + 1 < |mem|
      ensures mem[o + 1] % 2 != 0 ==> forall q | q in lay.free && q in lay.chunks :: Next(lay, q) != o
    {
      forall q | q in lay.free && q in lay.chunks && Next(lay, q) == o ensures mem[o + 1] % 2 == 0 {
        NextFlag(mem, lay, q);
      }
    }

    /** The extensions in place, in the order they are tried; p is 0 if none is possible. The tests compare
        32-bit longs. Overrun says that they let the block take a top that ends outside memory: the code then
        writes the head of a top it does not have. */
    method Expand(o: int, nb: int) returns (p: int, overrun: bool)
      requires Valid() && top != 0 && Live(lay, o) && lay.chunks[o] < nb < MAX_WORDS && nb % 2 == 0
      modifies this
      ensures Valid() && o in old(Blocks())
      ensures overrun <==> Next(old(lay), o) == old(top) && LONG_LIMIT <= 4 * nb + 4 * MINWORDS
      ensures overrun ==> p == 0 && |mem| <= o + nb + 1
      ensures p == 0 ==> Blocks() == old(Blocks()) && lay == old(lay) && top == old(top) && mem == old(mem)
      ensures p == 0 ==> bins == old(bins)
      ensures p != 0 ==> Resized(old(Blocks()), o, p, nb)
      ensures GrowsInPlace(old(lay), o, nb) ==> p == o
      ensures !GrowsInPlace(old(lay), o, nb) ==> forall q | GrowsBack(old(lay), q, o, nb) :: p == q
      ensures p == 0 <==> !GrowsInPlace(old(lay), o, nb) && forall q :: !GrowsBack(old(lay), q, o, nb)
    {
      hide Linked, Filed, Marked, Tagged, Tiled, Payload.Blocks, Resized, Reaches, ReachesTop, GrowsInPlace, GrowsBack;
      var end := ChunkEnd(o);
      LiveBlock(mem, lay, o);
      var oldsize := end - o;
      var next, nextsize, prev, prevsize := Surroundings(o);
      Regions(lay, o, next, prev);
      Sums(o, next, nextsize, prev, prevsize, nb);
      GrowthTold(lay, o, nb, next, nextsize, prev, prevsize);
      if LONG_LIMIT <= 4 * nb + 4 * MINWORDS { NoGrowthToLimit(lay, o, nb); }
      overrun := false;
      if next != 0 {
        if next == top {
          if ReachesTop(nextsize + oldsize, nb) {
            if |mem| <= o + nb + 1 { return 0, true; }
            ExpandTop(o, o, nb);
            return o, false;
          }
        } else if Reaches(nextsize + oldsize, nb) {
          ExpandForward(o, next, next + nextsize, nb);
          return o, false;
        }
      }
      if prev != 0 {
        if next != 0 {
          if next == top {
            if ReachesTop(nextsize + prevsize + oldsize, nb) { ExpandTop(o, prev, nb); return prev, false; }
          } else if Reaches(nextsize + prevsize + oldsize, nb) {
            ShiftBack(o, prev, next + nextsize, nb);
            return prev, false;
          }
        }
        if Reaches(prevsize + oldsize, nb) {
          ShiftBack(o, prev, end, nb);
          return prev, false;
        }
      }
      return 0, false;
    }

    /** The sums in the tests stay inside the arena. */
    lemma Sums(o: int, next: int, nextsize: int, prev: int, prevsize: int, nb: int)
      requires Valid() && top != 0 && Live(lay, o) && 4 <= nb < MAX_WORDS
      requires next == 0 || next == Next(lay, o)
      requires next != 0 && next != top ==> next in lay.chunks && nextsize == lay.chunks[next]
      requires next != 0 && next == top ==> nextsize == lay.end - lay.top
      requires next == 0 ==> nextsize == 0
      requires prev != 0 ==> prev in lay.chunks && Next(lay, prev) == o && prevsize == lay.chunks[prev]
      requires prev == 0 ==> prevsize == 0
      ensures 4 <= lay.chunks[o] && 0 <= o && |mem| == lay.end && o + lay.chunks[o] + nextsize <= lay.end <= MAX_WORDS
      ensures var have := lay.chunks[o];
              && (Reaches(nextsize + have, nb) <==> nextsize + have >= nb)
              && (Reaches(nextsize + prevsize + have, nb) <==> nextsize + prevsize + have >= nb)
              && (Reaches(prevsize + have, nb) <==> prevsize + have >= nb)
              && (4 * nb + 4 * MINWORDS < LONG_LIMIT ==>
                    && (ReachesTop(nextsize + have, nb) <==> nextsize + have >= nb + MINWORDS)
                    && (ReachesTop(nextsize + prevsize + have, nb) <==> nextsize + prevsize + have >= nb + MINWORDS))
              && (LONG_LIMIT <= 4 * nb + 4 * MINWORDS ==> ReachesTop(nextsize + have, nb) && |mem| <= o + nb + 1)
    {
      hide Linked, Filed, Marked, Tagged, Reaches, ReachesTop, Apart, Closed;
      var have := lay.chunks[o];
      TopHead(mem, lay);
      InTheArena(o);
      if prev != 0 { assert lay.base <= prev; }
      ReachesIsExact(nextsize + have, nb);
      ReachesIsExact(nextsize + prevsize + have, nb);
      ReachesIsExact(prevsize + have, nb);
    }

    /** realloc. On every path the result is an aligned block of the requested size that holds the old
        contents as far as both blocks reach; no other block changes; on failure nothing does. The one
        exception is a block that borders top and a request whose padded size wraps in the test for top. */
    method Realloc(oldmem: int, bytes: nat, sbrk1: bool, sbrk2: bool) returns (r: int, overrun: bool)
      requires Valid() && bytes < SIZE_LIMIT && (oldmem == 0 || oldmem - 2 in Blocks())
      modifies this
      ensures Valid() && r % 2 == 0
      ensures overrun <==>
                oldmem != 0 && Next(old(lay), oldmem - 2) == old(top) && LONG_LIMIT - 27 <= bytes < LONG_LIMIT - 11
      ensures overrun ==> r == 0 && |mem| <= oldmem - 2 + Request2Size(bytes) / 4 + 1
      ensures r == 0 ==> Blocks() == old(Blocks())
      ensures r != 0 && oldmem == 0 ==> Got(old(Blocks()), r - 2, Request2Size(bytes) / 4)
      ensures r != 0 && oldmem != 0 ==> Resized(old(Blocks()), oldmem - 2, r - 2, Request2Size(bytes) / 4)
      ensures r != 0 ==> r - 2 in Blocks() && (bytes <= 4 * |Blocks()[r - 2]| <==> bytes < LONG_LIMIT - 11)
      ensures oldmem == 0 ==>
                if r == 0 then NoRoom(old(top), old(lay), Request2Size(bytes) / 4)
                else Allotted(old(top), old(lay), old(bins), |old(mem)|, r - 2, Request2Size(bytes) / 4)
      ensures oldmem != 0 && !overrun ==>
                Regrown(old(top), old(lay), old(bins), |old(mem)|, oldmem - 2, if r == 0 then 0 else r - 2,
                        Request2Size(bytes) / 4)
      ensures sbrk1 && sbrk2 && Room(|old(mem)|, Request2Size(bytes) / 4) ==> r != 0
    {
      hide Linked, Filed, Marked, Tagged, Tiled, Payload.Blocks, BestFit, Allotted, NoRoom, Regrown, Resized;
      overrun := false;
      if oldmem == 0 {
        r := Malloc(bytes, sbrk1, sbrk2);
        return;
      }
      Shape();
      WrappingRequests(bytes);
      var p;
      p, overrun := Resize(oldmem - 2, bytes, sbrk1, sbrk2);
      if p == 0 { return 0, overrun; }
      ResizedFits(old(Blocks()), oldmem - 2, p, bytes);
      r := p + 2;
    }

    lemma ResizedFits(before: map<int, Words>, o: int, p: int, bytes: nat)
      requires Valid() && o in before && bytes < SIZE_LIMIT && Resized(before, o, p, Request2Size(bytes) / 4)
      ensures p in Blocks() && 0 < p && p % 2 == 0 && (bytes <= 4 * |Blocks()[p]| <==> bytes < LONG_LIMIT - 11)
    {
      hide Linked, Filed, Marked, Tagged, Tiled, Payload.Blocks;
      Shape();
      RequestFits(bytes);
    }

    /** Where realloc puts block o: it stays if it is large enough or can grow in place, else it grows back over
        a free predecessor, else it is moved. */
    static ghost predicate Regrown(top: int, L: Layout, B: Bins, words: nat, o: int, p: int, nb: int)
      requires 0 <= nb && o in L.chunks
    {
      if nb <= L.chunks[o] || GrowsInPlace(L, o, nb) then p == o
      else if exists q :: GrowsBack(L, q, o, nb) then GrowsBack(L, p, o, nb)
      else Moved(top, L, B, words, o, p, nb)
    }

    /** realloc of a block. */
    method Resize(o: int, bytes: nat, sbrk1: bool, sbrk2: bool) returns (p: int, overrun: bool)
      requires Valid() && bytes < SIZE_LIMIT && o in Blocks() && top != 0 && Live(lay, o)
      modifies this
      ensures Valid()
      ensures overrun <==> Next(old(lay), o) == old(top) && LONG_LIMIT <= Request2Size(bytes) + 4 * MINWORDS
      ensures overrun ==> p == 0 && |mem| <= o + Request2Size(bytes) / 4 + 1
      ensures p == 0 ==> Blocks() == old(Blocks())
      ensures p != 0 ==> Resized(old(Blocks()), o, p, Request2Size(bytes) / 4)
      ensures !overrun ==> Regrown(old(top), old(lay), old(bins), |old(mem)|, o, p, Request2Size(bytes) / 4)
      ensures sbrk1 && sbrk2 && Room(|old(mem)|, Request2Size(bytes) / 4) ==> p != 0
    {
      hide Linked, Filed, Marked, Tagged, Tiled, Payload.Blocks, Moved, GrowsInPlace, GrowsBack, Reaches, Resized, Pow2;
      var nb := Request2Size(bytes) / 4;
      var end := ChunkEnd(o);
      InTheArena(o);
      ReachesIsExact(end - o, nb);
      overrun := false;
      if !Reaches(end - o, nb) {
        p, overrun := Expand(o, nb);
        if p == 0 && !overrun {
          p := Move(o, bytes, sbrk1, sbrk2);
        }
      } else {
        Shrink(o, nb);
        p := o;
      }
    }

    // ----- the caller's side, and the start -----

    /** The caller writes a word of a live block. */
    method Write(r: int, i: nat, v: int)
      requires Valid() && r - 2 in Blocks() && i < |Blocks()[r - 2]|
      modifies this`mem
      ensures Valid() && Blocks() == old(Blocks())[r - 2 := old(Blocks())[r - 2][i := v]]
    {
      hide Linked, Filed, Marked, Tagged, Tiled, Payload.Blocks;
      Shape();
      TopHead(mem, lay);
      WrittenBlock(mem, binblocks, lay, bins, r - 2, i, v);
      mem := mem[r + i := v];
    }

    /** The state before the first call: all bins empty, no top; `gap` words lie between av_ and the break. */
    constructor (gap: nat)
      ensures Valid() && Blocks() == map[] && top == 0 && !sbrked && |mem| == AV_WORDS + gap
    {
      mem := seq(AV_WORDS + gap, w => if 2 <= w < AV_WORDS then (w - 2) / 2 * 2 else 0);
      top, binblocks, sbrked := 0, 0, false;
      lay := Layout(map[], {}, AV_WORDS, AV_WORDS, AV_WORDS);
      bins := Bins(seq(NAV, i => []), map[]);
      new;
      forall i | 1 <= i < NAV ensures ListOk(mem, bins, i) {
        assert Joined(mem, Header(i), [], -1);
      }
    }
  }
}
