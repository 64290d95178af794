/** The circular doubly linked bin lists, threaded through the fd and bk words of memory.
    The header of bin i is the pseudo-chunk at word 2*i, so that fd and bk have the same offsets
    for headers and for chunks. */
module FreeLists {
  import opened ChunkLayout
  import opened MallocBins

  function Header(i: int): int { 2 * i }

  /** The k-th element of a circular list; the header stands before the first and after the last. */
  function At(h: int, s: seq<int>, k: int): int {
    if 0 <= k < |s| then s[k] else h
  }

  function Remove<T>(s: seq<T>, j: int): seq<T>
    requires 0 <= j < |s|
  {
    s[..j] + s[j + 1..]
  }

  function Insert<T>(s: seq<T>, j: int, x: T): seq<T>
    requires 0 <= j <= |s|
  {
    s[..j] + [x] + s[j..]
  }

  ghost predicate Node(m: Words, x: int) { 0 <= x && x + 3 < |m| && x % 2 == 0 }

  ghost predicate Distinct(s: seq<int>) { forall a, b | 0 <= a < b < |s| :: s[a] != s[b] }

  /** A list of distinct nodes other than its header. */
  ghost predicate Nodes(m: Words, h: int, s: seq<int>) {
    && Node(m, h)
    && (forall k | 0 <= k < |s| :: Node(m, s[k]) && s[k] != h)
    && Distinct(s)
  }

  function Fd(m: Words, x: int): int
    requires Node(m, x)
  {
    m[x + 2]
  }

  function Bk(m: Words, x: int): int
    requires Node(m, x)
  {
    m[x + 3]
  }

  /** The k-th and the next element point at each other; k = -1 is the header with the first. */
  ghost predicate Joined(m: Words, h: int, s: seq<int>, k: int)
    requires Nodes(m, h, s)
  {
    Fd(m, At(h, s, k)) == At(h, s, k + 1) && Bk(m, At(h, s, k + 1)) == At(h, s, k)
  }

  /** fd and bk thread s, in both directions, through the header h. */
  ghost predicate Threads(m: Words, h: int, s: seq<int>)
    requires Nodes(m, h, s)
  {
    forall k | -1 <= k < |s| :: Joined(m, h, s, k)
  }

  /** unlink: FD->bk = BK; BK->fd = FD. */
  function UnlinkWords(m: Words, bk: int, fd: int): (m': Words)
    requires Node(m, bk) && Node(m, fd)
    ensures |m'| == |m|
  {
    m[fd + 3 := bk][bk + 2 := fd]
  }

  /** The four writes at the end of frontlink. */
  function InsertWords(m: Words, x: int, bk: int, fd: int): (m': Words)
    requires Node(m, x) && Node(m, bk) && Node(m, fd)
    ensures |m'| == |m|
  {
    m[x + 3 := bk][x + 2 := fd][fd + 3 := x][bk + 2 := x]
  }

  lemma ThreadsFrame(m: Words, m': Words, h: int, s: seq<int>)
    requires Nodes(m, h, s) && Threads(m, h, s) && |m'| == |m|
    requires forall k | -1 <= k < |s| ::
               Fd(m', At(h, s, k)) == Fd(m, At(h, s, k)) && Bk(m', At(h, s, k)) == Bk(m, At(h, s, k))
    ensures Nodes(m', h, s) && Threads(m', h, s)
  {
    forall k | -1 <= k < |s| ensures Joined(m', h, s, k) {
      assert Joined(m, h, s, k);
      assert At(h, s, -1) == At(h, s, |s|);
    }
  }

  lemma Different(m: Words, h: int, s: seq<int>, a: int, b: int)
    requires Nodes(m, h, s) && -1 <= a < b <= |s| && (0 <= a || b < |s|)
    ensures At(h, s, a) != At(h, s, b)
  {
  }

  // ----- removing an element -----

  lemma RemoveNodes(m: Words, h: int, s: seq<int>, j: int)
    requires Nodes(m, h, s) && 0 <= j < |s|
    ensures Nodes(m, h, Remove(s, j))
  {
  }

  lemma RemoveAt(h: int, s: seq<int>, j: int, k: int)
    requires 0 <= j < |s|
    ensures At(h, Remove(s, j), k) == if k < j then At(h, s, k) else At(h, s, k + 1)
  {
  }

  lemma UnlinkThreads(m: Words, h: int, s: seq<int>, j: int)
    requires Nodes(m, h, s) && Threads(m, h, s) && 0 <= j < |s|
    ensures var m' := UnlinkWords(m, At(h, s, j - 1), At(h, s, j + 1));
            Nodes(m', h, Remove(s, j)) && Threads(m', h, Remove(s, j))
  {
    var m' := UnlinkWords(m, At(h, s, j - 1), At(h, s, j + 1));
    var s' := Remove(s, j);
    RemoveNodes(m', h, s, j);
    forall k | -1 <= k < |s'| ensures Joined(m', h, s', k) {
      RemoveAt(h, s, j, k);
      RemoveAt(h, s, j, k + 1);
      if k != j - 1 {
        var q := if k < j then k else k + 1;
        assert Joined(m, h, s, q);
        if q < j { Different(m, h, s, q, j - 1); Different(m, h, s, q + 1, j + 1); }
        else { Different(m, h, s, j - 1, q); Different(m, h, s, j + 1, q + 1); }
      }
    }
  }

  // ----- inserting an element -----

  lemma InsertNodes(m: Words, h: int, s: seq<int>, j: int, x: int)
    requires Nodes(m, h, s) && 0 <= j <= |s| && Node(m, x) && x != h && x !in s
    ensures Nodes(m, h, Insert(s, j, x))
  {
  }

  lemma InsertAt(h: int, s: seq<int>, j: int, x: int, k: int)
    requires 0 <= j <= |s|
    ensures At(h, Insert(s, j, x), k) == if k < j then At(h, s, k) else if k == j then x else At(h, s, k - 1)
  {
  }

  lemma InsertThreads(m: Words, h: int, s: seq<int>, j: int, x: int)
    requires Nodes(m, h, s) && Threads(m, h, s) && 0 <= j <= |s|
    requires Node(m, x) && x != h && x !in s
    ensures var m' := InsertWords(m, x, At(h, s, j - 1), At(h, s, j));
            Nodes(m', h, Insert(s, j, x)) && Threads(m', h, Insert(s, j, x))
  {
    var m' := InsertWords(m, x, At(h, s, j - 1), At(h, s, j));
    var s' := Insert(s, j, x);
    InsertNodes(m', h, s, j, x);
    forall k | -1 <= k < |s'| ensures Joined(m', h, s', k) { InsertJoined(m, h, s, j, x, k); }
  }

  lemma InsertJoined(m: Words, h: int, s: seq<int>, j: int, x: int, k: int)
    requires Nodes(m, h, s) && Threads(m, h, s) && 0 <= j <= |s| && -1 <= k <= |s|
    requires Node(m, x) && x != h && x !in s && Nodes(m, h, Insert(s, j, x))
    ensures Joined(InsertWords(m, x, At(h, s, j - 1), At(h, s, j)), h, Insert(s, j, x), k)
  {
    hide Insert, Nodes, InsertWords;
    InsertAt(h, s, j, x, k);
    InsertAt(h, s, j, x, k + 1);
    if k == j || k == j - 1 {
      InsertJoinedHere(m, h, s, j, x, k);
    } else {
      InsertJoinedAway(m, h, s, j, x, k);
    }
  }

  lemma InsertJoinedHere(m: Words, h: int, s: seq<int>, j: int, x: int, k: int)
    requires Nodes(m, h, s) && Threads(m, h, s) && 0 <= j <= |s| && (k == j || k == j - 1)
    requires Node(m, x) && x != h && x !in s && Nodes(m, h, Insert(s, j, x))
    ensures Joined(InsertWords(m, x, At(h, s, j - 1), At(h, s, j)), h, Insert(s, j, x), k)
  {
    hide Insert;
    InsertAt(h, s, j, x, k);
    InsertAt(h, s, j, x, k + 1);
  }

  lemma InsertJoinedAway(m: Words, h: int, s: seq<int>, j: int, x: int, k: int)
    requires Nodes(m, h, s) && Threads(m, h, s) && 0 <= j <= |s| && -1 <= k <= |s| && k != j && k != j - 1
    requires Node(m, x) && x != h && x !in s && Nodes(m, h, Insert(s, j, x))
    ensures Joined(InsertWords(m, x, At(h, s, j - 1), At(h, s, j)), h, Insert(s, j, x), k)
  {
    hide Insert, Distinct;
    InsertAt(h, s, j, x, k);
    InsertAt(h, s, j, x, k + 1);
    var q := if k < j then k else k - 1;
    assert Joined(m, h, s, q);
    if q < j { Different(m, h, s, q, j - 1); Different(m, h, s, q + 1, j); }
    else { Different(m, h, s, j - 1, q); Different(m, h, s, j, q + 1); }
  }

  // ----- all bins together -----

  /** lists[i] are the chunks of bin i from first to last; home says which bin a chunk is in.
      Bin 0 is the place of top, bin 1 is last_remainder. */
  datatype Bins = Bins(lists: seq<seq<int>>, home: map<int, int>)

  ghost predicate ListOk(m: Words, B: Bins, i: int)
    requires 0 <= i < |B.lists|
  {
    Nodes(m, Header(i), B.lists[i]) && Threads(m, Header(i), B.lists[i])
  }

  /** Every bin is a proper list, and every chunk of home is in exactly one bin, once. */
  ghost predicate Linked(m: Words, B: Bins) {
    && AV_WORDS <= |m| && |B.lists| == NAV && B.lists[0] == []
    && (forall i | 1 <= i < NAV :: ListOk(m, B, i))
    && Housed(B)
  }

  ghost predicate Housed(B: Bins)
    requires |B.lists| == NAV
  {
    && (forall i, k | 0 <= i < NAV && 0 <= k < |B.lists[i]| ::
          B.lists[i][k] in B.home && B.home[B.lists[i][k]] == i)
    && (forall x | x in B.home :: AV_WORDS <= x && 1 <= B.home[x] < NAV && x in B.lists[B.home[x]])
  }

  function Without(B: Bins, i: int, j: int): Bins
    requires 0 <= i < |B.lists| && 0 <= j < |B.lists[i]|
  {
    Bins(B.lists[i := Remove(B.lists[i], j)], B.home - {B.lists[i][j]})
  }

  function With(B: Bins, i: int, j: int, x: int): Bins
    requires 0 <= i < |B.lists| && 0 <= j <= |B.lists[i]|
  {
    Bins(B.lists[i := Insert(B.lists[i], j, x)], B.home[x := i])
  }

  lemma WithoutHoused(m: Words, B: Bins, i: int, j: int)
    requires Linked(m, B) && 1 <= i < NAV && 0 <= j < |B.lists[i]|
    ensures Housed(Without(B, i, j))
  {
    assert ListOk(m, B, i);
    var B' := Without(B, i, j);
    var s, s' := B.lists[i], B'.lists[i];
    forall i', k | 0 <= i' < NAV && 0 <= k < |B'.lists[i']|
      ensures B'.lists[i'][k] in B'.home && B'.home[B'.lists[i'][k]] == i'
    {
      if i' == i { assert s'[k] == s[if k < j then k else k + 1]; }
    }
    forall x | x in B'.home ensures x in B'.lists[B'.home[x]] {
      if B.home[x] == i {
        var k :| 0 <= k < |s| && s[k] == x;
        assert s'[if k < j then k else k - 1] == x;
      }
    }
  }

  lemma WithHoused(m: Words, B: Bins, i: int, j: int, x: int)
    requires Linked(m, B) && 1 <= i < NAV && 0 <= j <= |B.lists[i]| && AV_WORDS <= x && x !in B.home
    ensures Housed(With(B, i, j, x))
  {
    var B' := With(B, i, j, x);
    var s, s' := B.lists[i], B'.lists[i];
    assert s'[j] == x;
    forall i', k | 0 <= i' < NAV && 0 <= k < |B'.lists[i']|
      ensures B'.lists[i'][k] in B'.home && B'.home[B'.lists[i'][k]] == i'
    {
      if i' == i && k != j { assert s'[k] == s[if k < j then k else k - 1]; }
    }
    forall y | y in B'.home ensures y in B'.lists[B'.home[y]] {
      if y != x && B.home[y] == i {
        var k :| 0 <= k < |s| && s[k] == y;
        assert s'[if k < j then k else k + 1] == y;
      }
    }
  }

  /** Writes to the link words of bin i leave the other bins alone. */
  lemma OtherLists(m: Words, m': Words, B: Bins, i: int, own: set<int>, i': int)
    requires Linked(m, B) && 1 <= i < NAV && 1 <= i' < NAV && i' != i && |m'| == |m|
    requires forall x | x in own :: x == Header(i) || x !in B.home || B.home[x] == i
    requires forall x | x in own :: x % 2 == 0 && (x < AV_WORDS ==> x == Header(i))
    requires forall w | 0 <= w < |m| && w - 2 !in own && w - 3 !in own :: m'[w] == m[w]
    ensures Nodes(m', Header(i'), B.lists[i']) && Threads(m', Header(i'), B.lists[i'])
  {
    var h, s := Header(i'), B.lists[i'];
    assert ListOk(m, B, i');
    forall k | -1 <= k < |s|
      ensures Fd(m', At(h, s, k)) == Fd(m, At(h, s, k)) && Bk(m', At(h, s, k)) == Bk(m, At(h, s, k))
    {
      var x := At(h, s, k);
      assert x !in own;
    }
    ThreadsFrame(m, m', h, s);
  }

  lemma UnlinkLinked(m: Words, B: Bins, i: int, j: int)
    requires Linked(m, B) && 1 <= i < NAV && 0 <= j < |B.lists[i]|
    requires ListOk(m, B, i)
    ensures var s := B.lists[i];
            var m' := UnlinkWords(m, At(Header(i), s, j - 1), At(Header(i), s, j + 1));
            Linked(m', Without(B, i, j)) && SameExceptLinks(m, m', B.home.Keys)
  {
    var h, s := Header(i), B.lists[i];
    var bk, fd := At(h, s, j - 1), At(h, s, j + 1);
    var m' := UnlinkWords(m, bk, fd);
    var B' := Without(B, i, j);
    WithoutHoused(m, B, i, j);
    UnlinkThreads(m, h, s, j);
    forall i' | 1 <= i' < NAV ensures ListOk(m', B', i') {
      if i' != i { OtherLists(m, m', B, i, {bk, fd}, i'); }
    }
  }

  lemma InsertLinked(m: Words, B: Bins, i: int, j: int, x: int)
    requires Linked(m, B) && 1 <= i < NAV && 0 <= j <= |B.lists[i]|
    requires Node(m, x) && AV_WORDS <= x && x !in B.home
    requires ListOk(m, B, i)
    ensures var s := B.lists[i];
            var m' := InsertWords(m, x, At(Header(i), s, j - 1), At(Header(i), s, j));
            Linked(m', With(B, i, j, x)) && SameExceptLinks(m, m', B.home.Keys + {x})
  {
    var h, s := Header(i), B.lists[i];
    var bk, fd := At(h, s, j - 1), At(h, s, j);
    var m' := InsertWords(m, x, bk, fd);
    var B' := With(B, i, j, x);
    WithHoused(m, B, i, j, x);
    InsertThreads(m, h, s, j, x);
    forall i' | 1 <= i' < NAV ensures ListOk(m', B', i') {
      if i' != i { OtherLists(m, m', B, i, {bk, fd, x}, i'); }
    }
  }

  /** Words outside the lists may change freely. */
  lemma LinkedFrame(m: Words, m': Words, B: Bins)
    requires Linked(m, B) && |m| <= |m'|
    requires forall w | 0 <= w < |m| && LinkWord(B.home.Keys, w) :: m'[w] == m[w]
    ensures Linked(m', B)
  {
    forall i | 1 <= i < NAV ensures ListOk(m', B, i) {
      var h, s := Header(i), B.lists[i];
      assert ListOk(m, B, i);
      var m'' := m'[..|m|];
      forall k | -1 <= k < |s|
        ensures Fd(m'', At(h, s, k)) == Fd(m, At(h, s, k)) && Bk(m'', At(h, s, k)) == Bk(m, At(h, s, k))
      {
        var x := At(h, s, k);
        assert x == h || x in B.home;
      }
      ThreadsFrame(m, m'', h, s);
      forall k | -1 <= k < |s| ensures Joined(m', h, s, k) { assert Joined(m'', h, s, k); }
    }
  }

  // ----- which chunk belongs in which bin -----

  ghost predicate Sorted(sizes: map<int, int>, s: seq<int>) {
    && (forall a | 0 <= a < |s| :: s[a] in sizes)
    && (forall a, b | 0 <= a < b < |s| :: sizes[s[a]] >= sizes[s[b]])
  }

  /** Every binned chunk is in the bin of its size, largest first; last_remainder holds at most one. */
  ghost predicate Filed(sizes: map<int, int>, B: Bins)
    requires |B.lists| == NAV
  {
    && |B.lists[1]| <= 1
    && (forall x | x in B.home ::
        x in sizes && 4 <= sizes[x] && sizes[x] % 2 == 0 && (B.home[x] == 1 || B.home[x] == BinIndex(4 * sizes[x])))
    && (forall i | 2 <= i < NAV :: Sorted(sizes, B.lists[i]))
  }

  /** The bin-block word hides no non-empty bin. */
  ghost predicate Marked(binblocks: nat, B: Bins)
    requires |B.lists| == NAV
  {
    forall i | 2 <= i < NAV && B.lists[i] != [] :: Bit(binblocks, i / BINBLOCKWIDTH)
  }

  lemma FiledWithout(sizes: map<int, int>, binblocks: nat, m: Words, B: Bins, i: int, j: int)
    requires Linked(m, B) && Filed(sizes, B) && Marked(binblocks, B)
    requires 1 <= i < NAV && 0 <= j < |B.lists[i]|
    ensures Filed(sizes, Without(B, i, j)) && Marked(binblocks, Without(B, i, j))
  {
    var s := B.lists[i];
    var s' := Remove(s, j);
    assert forall k | 0 <= k < |s'| :: s'[k] == s[if k < j then k else k + 1];
    if 2 <= i { assert Sorted(sizes, s); assert Sorted(sizes, s'); }
  }

  lemma FiledWith(sizes: map<int, int>, binblocks: nat, m: Words, B: Bins, i: int, j: int, x: int, n: int)
    requires Linked(m, B) && Filed(sizes, B) && Marked(binblocks, B)
    requires 2 <= i < NAV && 0 <= j <= |B.lists[i]| && x !in B.home && 4 <= n && n % 2 == 0 && i == BinIndex(4 * n)
    requires forall k | 0 <= k < j :: sizes[B.lists[i][k]] > n
    requires forall k | j <= k < |B.lists[i]| :: sizes[B.lists[i][k]] <= n
    requires Bit(binblocks, i / BINBLOCKWIDTH)
    ensures Filed(sizes[x := n], With(B, i, j, x)) && Marked(binblocks, With(B, i, j, x))
  {
    hide Fd, BinIndex, Header;
    var B' := With(B, i, j, x);
    var s, s', sizes' := B.lists[i], B'.lists[i], sizes[x := n];
    assert s'[j] == x;
    assert forall k | 0 <= k < |s'| && k != j :: s'[k] == s[if k < j then k else k - 1];
    assert Sorted(sizes, s);
    assert forall k | 0 <= k < |s| :: s[k] in B.home;
    assert Sorted(sizes', s');
    forall i' | 2 <= i' < NAV ensures Sorted(sizes', B'.lists[i']) {
      if i' != i { assert Sorted(sizes, B.lists[i']); }
    }
  }

  /** Sizes of chunks that are in no bin do not matter. */
  lemma FiledSizes(sizes: map<int, int>, sizes': map<int, int>, m: Words, B: Bins)
    requires Linked(m, B) && Filed(sizes, B)
    requires forall x | x in B.home :: x in sizes' && sizes'[x] == sizes[x]
    ensures Filed(sizes', B)
  {
    forall i | 2 <= i < NAV ensures Sorted(sizes', B.lists[i]) {
      var s := B.lists[i];
      assert Sorted(sizes, s);
      forall k | 0 <= k < |s| ensures s[k] in sizes' && sizes'[s[k]] == sizes[s[k]] {
        var x: int := s[k];
        assert x in B.home;
      }
    }
  }

  /** link_last_remainder: x becomes the only chunk of bin 1. */
  function AsRemainder(B: Bins, x: int): Bins
    requires |B.lists| == NAV
  {
    Bins(B.lists[1 := [x]], (if B.lists[1] == [] then B.home else B.home - {B.lists[1][0]})[x := 1])
  }

  function NoRemainder(B: Bins): Bins
    requires |B.lists| == NAV
  {
    Bins(B.lists[1 := []], if B.lists[1] == [] then B.home else B.home - {B.lists[1][0]})
  }

  function ClearRemainderWords(m: Words): (m': Words)
    requires AV_WORDS <= |m|
    ensures |m'| == |m|
  {
    m[Header(1) + 3 := Header(1)][Header(1) + 2 := Header(1)]
  }

  function LinkRemainderWords(m: Words, x: int): (m': Words)
    requires AV_WORDS <= |m| && Node(m, x)
    ensures |m'| == |m|
  {
    m[Header(1) + 3 := x][Header(1) + 2 := x][x + 3 := Header(1)][x + 2 := Header(1)]
  }

  lemma ClearRemainderLinked(m: Words, B: Bins)
    requires Linked(m, B) && |B.lists[1]| <= 1
    ensures Linked(ClearRemainderWords(m), NoRemainder(B))
    ensures SameExceptLinks(m, ClearRemainderWords(m), B.home.Keys)
  {
    assert ListOk(m, B, 1);
    if B.lists[1] == [] {
      assert Joined(m, Header(1), [], -1);
      assert ClearRemainderWords(m) == m;
      assert NoRemainder(B) == B;
    } else {
      UnlinkLinked(m, B, 1, 0);
      assert Remove(B.lists[1], 0) == [];
      assert Without(B, 1, 0) == NoRemainder(B);
    }
  }

  lemma LinkRemainderLinked(m: Words, B: Bins, x: int)
    requires Linked(m, B) && |B.lists[1]| <= 1 && Node(m, x) && AV_WORDS <= x
    requires x !in B.home || B.lists[1] == [x]
    ensures Linked(LinkRemainderWords(m, x), AsRemainder(B, x))
    ensures SameExceptLinks(m, LinkRemainderWords(m, x), B.home.Keys + {x})
  {
    ClearRemainderLinked(m, B);
    var m1, B1 := ClearRemainderWords(m), NoRemainder(B);
    assert ListOk(m1, B1, 1);
    InsertLinked(m1, B1, 1, 0, x);
    assert InsertWords(m1, x, Header(1), Header(1)) == LinkRemainderWords(m, x);
    assert Insert<int>([], 0, x) == [x];
    assert With(B1, 1, 0, x) == AsRemainder(B, x);
  }

  lemma FiledAsRemainder(sizes: map<int, int>, binblocks: nat, m: Words, B: Bins, x: int, n: int)
    requires Linked(m, B) && Filed(sizes, B) && Marked(binblocks, B) && 4 <= n && n % 2 == 0
    requires x !in B.home || B.lists[1] == [x]
    ensures Filed(sizes[x := n], AsRemainder(B, x)) && Marked(binblocks, AsRemainder(B, x))
  {
    var B' := AsRemainder(B, x);
    forall i | 2 <= i < NAV ensures Sorted(sizes[x := n], B'.lists[i]) {
      assert Sorted(sizes, B.lists[i]);
      assert forall k | 0 <= k < |B.lists[i]| :: B.lists[i][k] in B.home && B.home[B.lists[i][k]] == i;
    }
  }

  lemma FiledNoRemainder(sizes: map<int, int>, binblocks: nat, m: Words, B: Bins)
    requires Linked(m, B) && Filed(sizes, B) && Marked(binblocks, B)
    ensures Filed(sizes, NoRemainder(B)) && Marked(binblocks, NoRemainder(B))
  {
  }

  /** A chunk is the last remainder exactly when its fd is the header of bin 1. */
  lemma FdTellsRemainder(m: Words, B: Bins, x: int)
    requires Linked(m, B) && |B.lists[1]| <= 1 && x in B.home
    ensures Node(m, x) && (Fd(m, x) == Header(1) <==> B.home[x] == 1)
    ensures B.home[x] == 1 ==> B.lists[1] == [x]
  {
    var i := B.home[x];
    var s := B.lists[i];
    assert ListOk(m, B, i);
    var j :| 0 <= j < |s| && s[j] == x;
    assert Joined(m, Header(i), s, j);
    if j + 1 < |s| { var y: int := s[j + 1]; assert y in B.home; }
  }
}
