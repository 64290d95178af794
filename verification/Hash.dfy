/** The chained hash table and its one cursor. */
module Hash {

  type Key = string

  class Link {
    const key: Key
    var next: Link?

    constructor (key: Key)
      ensures this.key == key && next == null
    {
      this.key := key;
      next := null;
    }
  }

  class Table {
    const size: nat
    const hash: Key -> nat
    const cmp: (Key, Key) -> int
    const buckets: array<Link?>
    var count: int
    var next: Link?
    var currentSlot: nat
    ghost var links: set<Link>
    ghost var chains: seq<seq<Link>>
    ghost var pos: nat                // of next in its chain

    // the traversal since hash_first
    ghost var given: seq<Link>        // returned so far
    ghost var stayed: set<Link>       // in the table at hash_first and not removed since

    ghost predicate LinkOk(c: seq<Link>, b: nat, i: nat)
      requires i < |c|
      reads this`links, links
    {
      c[i] in links && hash(c[i].key) == b && c[i].next == if i + 1 < |c| then c[i + 1] else null
    }

    /** Chain b is linked as its bucket and next fields say. */
    ghost predicate ChainOk(b: nat)
      requires buckets.Length == size == |chains| && b < size
      reads this`chains, this`links, buckets, links
    {
      var c := chains[b];
      && buckets[b] == (if c == [] then null else c[0])
      && (forall i {:trigger LinkOk(c, b, i)} | 0 <= i < |c| :: LinkOk(c, b, i))
      && (forall i, j | 0 <= i < j < |c| :: c[i] != c[j])
    }

    ghost predicate Shaped()
      reads this`chains, this`links, this`count, buckets, links
    {
      && 1 <= size == buckets.Length == |chains|
      && (forall k :: hash(k) < size)
      && (forall b {:trigger ChainOk(b)} | 0 <= b < size :: ChainOk(b))
      && (forall l | l in links :: l in chains[hash(l.key)])
      && count == |links|
    }

    /** The cursor stands on a link of its slot, or is at the end. */
    ghost predicate CursorOk()
      requires |chains| == size
      reads this`chains, this`next, this`currentSlot, this`pos
    {
      next != null ==> currentSlot < size && pos < |chains[currentSlot]| && chains[currentSlot][pos] == next
    }

    /** The links from bucket k on, in cursor order. */
    static ghost function From(chains: seq<seq<Link>>, k: nat): seq<Link>
      decreases |chains| - k
    {
      if k >= |chains| then [] else chains[k] + From(chains, k + 1)
    }

    /** What the cursor will return, in order, if the table does not change. */
    ghost function Future(): seq<Link>
      requires |chains| == size && CursorOk()
      reads this`chains, this`next, this`currentSlot, this`pos
    {
      if next == null then [] else chains[currentSlot][pos..] + From(chains, currentSlot + 1)
    }

    static function Times(q: seq<Link>, l: Link): nat { multiset(q)[l] }

    /** A link that has stayed is returned once: it has been, or it will be. */
    ghost predicate Traversal()
      requires |chains| == size && CursorOk()
      reads this`chains, this`next, this`currentSlot, this`pos, this`links, this`given, this`stayed
    {
      stayed <= links && forall l | l in stayed :: Times(given, l) + Times(Future(), l) == 1
    }

    ghost predicate Valid()
      reads this, buckets, links
    {
      Shaped() && CursorOk() && Traversal()
    }

    constructor (size: nat, hash: Key -> nat, cmp: (Key, Key) -> int)
      requires 1 <= size && forall k :: hash(k) < size
      ensures Valid() && links == {} && fresh(buckets) && next == null && count == 0 && currentSlot == 0
      ensures this.size == size && this.hash == hash && this.cmp == cmp
    {
      this.size, this.hash, this.cmp := size, hash, cmp;
      buckets := new Link?[size](i => null);
      count, next, currentSlot, links, pos, given, stayed := 0, null, 0, {}, 0, [], {};
      chains := seq(size, b => []);
    }

    lemma InChain(b: nat, i: nat)
      requires Shaped() && b < size && i < |chains[b]|
      ensures var c := chains[b];
              c[i] in links && hash(c[i].key) == b && c[i].next == if i + 1 < |c| then c[i + 1] else null
    {
      assert ChainOk(b) && LinkOk(chains[b], b, i);
    }

    /** hash_lookup: a link with an equal key exactly when there is one. */
    method Lookup(k: Key) returns (found: Link?)
      requires Shaped()
      requires forall a, b | cmp(a, b) == 0 :: hash(a) == hash(b)
      ensures found != null ==> found in links && cmp(k, found.key) == 0
      ensures found == null ==> forall l | l in links :: cmp(k, l.key) != 0
    {
      var b := hash(k);
      var walker := buckets[b];
      assert ChainOk(b);
      ghost var i := 0;
      while walker != null
        invariant 0 <= i <= |chains[b]| && walker == if i < |chains[b]| then chains[b][i] else null
        invariant forall j | 0 <= j < i :: cmp(k, chains[b][j].key) != 0
        decreases |chains[b]| - i
      {
        InChain(b, i);
        if cmp(k, walker.key) == 0 { return walker; }
        walker := walker.next;
        i := i + 1;
      }
      return null;
    }

    // ===== the cursor =====

    /** hash_next_bucket: on to the first link of the next bucket that has one. */
    method NextBucket()
      requires Shaped() && next == null
      modifies this`next, this`currentSlot, this`pos
      ensures CursorOk() && Future() == From(chains, old(currentSlot) + 1)
    {
      ghost var all := From(chains, currentSlot + 1);
      while next == null
        invariant CursorOk()
        invariant if next == null then From(chains, currentSlot + 1) == all else Future() == all
        decreases next == null, size - currentSlot
      {
        currentSlot := currentSlot + 1;
        if currentSlot >= size { break; }
        assert ChainOk(currentSlot);
        next := buckets[currentSlot];
        pos := 0;
        assert chains[currentSlot][0..] == chains[currentSlot];
      }
    }

    lemma {:induction false} OnceFrom(k: nat, l: Link)
      requires Shaped() && l in links
      ensures Times(From(chains, k), l) == if hash(l.key) >= k then 1 else 0
      decreases size - k
    {
      if k < size {
        OnceFrom(k + 1, l);
        OnceInChain(k, l);
        TimesAppend(chains[k], From(chains, k + 1), l);
      }
    }

    lemma OnceInChain(b: nat, l: Link)
      requires Shaped() && l in links && b < size
      ensures Times(chains[b], l) == if hash(l.key) == b then 1 else 0
    {
      assert ChainOk(b);
      if hash(l.key) == b {
        DistinctOnce(chains[b], l);
      } else if l in chains[b] {
        var i :| 0 <= i < |chains[b]| && chains[b][i] == l;
        InChain(b, i);
      }
    }

    static lemma {:induction false} DistinctOnce(q: seq<Link>, l: Link)
      requires forall i, j | 0 <= i < j < |q| :: q[i] != q[j]
      ensures Times(q, l) == if l in q then 1 else 0
    {
      if q != [] {
        assert q == [q[0]] + q[1..];
        DistinctOnce(q[1..], l);
      }
    }

    static lemma TimesAppend(a: seq<Link>, b: seq<Link>, l: Link)
      ensures Times(a + b, l) == Times(a, l) + Times(b, l)
    {
    }

    /** hash_first: every link is ahead, once. */
    method First()
      requires Shaped() && CursorOk() && next == null
      modifies this`next, this`currentSlot, this`pos, this`given, this`stayed
      ensures Valid() && stayed == links && given == []
    {
      hide Times, ChainOk, Future, From, Shaped;
      Rewind();
      given, stayed := [], links;
      AllAhead();
    }

    /** The cursor at the first link of all. */
    method Rewind()
      requires Shaped() && next == null
      modifies this`next, this`currentSlot, this`pos
      ensures |chains| == size && CursorOk() && Future() == From(chains, 0)
    {
      hide ChainOk;
      currentSlot, pos := 0, 0;
      Heads(0);
      next := buckets[0];
      assert chains[0][0..] == chains[0];
      if next == null { NextBucket(); }
    }

    lemma Heads(b: nat)
      requires Shaped() && b < size
      ensures buckets[b] == if chains[b] == [] then null else chains[b][0]
    {
      assert ChainOk(b);
    }

    lemma AllAhead()
      requires Shaped() && CursorOk() && Future() == From(chains, 0) && given == [] && stayed == links
      ensures Traversal()
    {
      forall l | l in stayed ensures Times(given, l) + Times(Future(), l) == 1 { OnceFrom(0, l); }
    }

    static lemma OnceStill(given: seq<Link>, r: Link, future: seq<Link>, l: Link)
      ensures Times(given + [r], l) + Times(future, l) == Times(given, l) + Times([r] + future, l)
    {
    }

    /** hash_next: returns the link at the cursor and steps over it. */
    method Next() returns (r: Link?)
      requires Valid()
      modifies this`next, this`currentSlot, this`pos, this`given
      ensures Valid() && r == old(next)
      ensures if r == null then Future() == old(Future()) == [] && given == old(given)
              else r in links && old(Future()) == [r] + Future() && given == old(given) + [r]
    {
      hide Times, ChainOk, From, CursorOk;
      r := next;
      if r == null { return; }
      StepOver();
      given := given + [r];
      forall l | l in stayed ensures Times(given, l) + Times(Future(), l) == 1 {
        OnceStill(old(given), r, Future(), l);
      }
    }

    method StepOver()
      requires Shaped() && CursorOk() && next != null
      modifies this`next, this`currentSlot, this`pos
      ensures CursorOk() && old(next) in links && old(Future()) == [old(next)] + Future()
    {
      hide ChainOk, From;
      ghost var c, later := chains[currentSlot], From(chains, currentSlot + 1);
      InChain(currentSlot, pos);
      Unfold(c, pos, later);
      next := next.next;
      pos := pos + 1;
      if next == null { NextBucket(); }
    }

    static lemma Unfold(c: seq<Link>, p: nat, later: seq<Link>)
      requires p < |c|
      ensures c[p..] + later == [c[p]] + (c[p + 1..] + later)
      ensures p + 1 == |c| ==> c[p + 1..] + later == later
    {
    }

    /** hash_last: the traversal is given up. */
    method Last()
      requires Valid()
      modifies this`next, this`currentSlot, this`given, this`stayed
      ensures Valid() && next == null && currentSlot == 0
    {
      next := null;
      currentSlot := 0;
      given, stayed := [], {};
    }

    /** At the end of a traversal, every link that has stayed has been returned exactly once. */
    lemma Complete(l: Link)
      requires Valid() && next == null && l in stayed
      ensures Times(given, l) == 1
    {
    }

    // ===== changing the table =====

    /** Changing one chain changes the later order only by what the chain lost or gained. */
    static lemma {:induction false} FromChanged(chains: seq<seq<Link>>, i: nat, c: seq<Link>, k: nat, x: Link)
      requires i < |chains|
      ensures Times(From(chains[i := c], k), x) == Times(From(chains, k), x)
              + (if k <= i then Times(c, x) - Times(chains[i], x) else 0)
      decreases |chains| - k
    {
      hide Times;
      var d := chains[i := c];
      if k < |chains| {
        FromChanged(chains, i, c, k + 1, x);
        TimesAppend(chains[k], From(chains, k + 1), x);
        TimesAppend(d[k], From(d, k + 1), x);
      }
    }

    /** The table's side of a new link. */
    method Hook(l: Link)
      requires Shaped() && l !in links
      modifies this`count, this`links, this`chains, buckets, l`next
      ensures Shaped() && links == old(links) + {l} && |old(chains)| == size
      ensures var i := hash(l.key); chains == old(chains)[i := [l] + old(chains)[i]]
    {
      hide Shaped, LinkOk, ChainOk;
      Sizes(l.key);
      var i := hash(l.key);
      l.next := buckets[i];
      buckets[i] := l;
      count := count + 1;
      links := links + {l};
      chains := chains[i := [l] + chains[i]];
      Hooked(l);
    }

    lemma Sizes(k: Key)
      requires Shaped()
      ensures 1 <= size == buckets.Length == |chains| && hash(k) < size
    {
    }

    twostate lemma Hooked(l: Link)
      requires old(Shaped()) && l !in old(links) && links == old(links) + {l} && count == old(count) + 1
      requires chains == old(chains)[hash(l.key) := [l] + old(chains)[hash(l.key)]]
      requires buckets[hash(l.key)] == l && l.next == old(buckets[hash(l.key)])
      requires forall k | 0 <= k < size && k != hash(l.key) :: buckets[k] == old(buckets[k])
      requires forall x | x in old(links) :: x.next == old(x.next)
      ensures Shaped()
    {
      hide LinkOk, ChainOk;
      forall b | 0 <= b < size ensures ChainOk(b) { HookedChain(l, b); }
      HookedLinks(l);
    }

    twostate lemma HookedLinks(l: Link)
      requires old(Shaped()) && links == old(links) + {l}
      requires chains == old(chains)[hash(l.key) := [l] + old(chains)[hash(l.key)]]
      ensures forall x | x in links :: x in chains[hash(x.key)]
    {
      forall x | x in links ensures x in chains[hash(x.key)] {
        if x != l { assert x in old(chains)[hash(x.key)]; }
      }
    }

    twostate lemma HookedChain(l: Link, new b: nat)
      requires old(Shaped()) && l !in old(links) && links == old(links) + {l} && b < size
      requires chains == old(chains)[hash(l.key) := [l] + old(chains)[hash(l.key)]]
      requires buckets[hash(l.key)] == l && l.next == old(buckets[hash(l.key)])
      requires forall k | 0 <= k < size && k != hash(l.key) :: buckets[k] == old(buckets[k])
      requires forall x | x in old(links) :: x.next == old(x.next)
      ensures ChainOk(b)
    {
      assert old(ChainOk(b));
      var c, d := old(chains)[b], chains[b];
      forall k | 0 <= k < |c| ensures c[k] in old(links) { assert old(LinkOk(c, b, k)); }
      forall k | 0 <= k < |d|
        ensures LinkOk(d, b, k)
      {
        if b != hash(l.key) {
          assert old(LinkOk(c, b, k)) && d == c;
        } else if k > 0 {
          assert old(LinkOk(c, b, k - 1)) && d[k] == c[k - 1] && (k < |c| ==> d[k + 1] == c[k]);
        } else {
          assert d[0] == l && (c != [] ==> d[1] == c[0]);
        }
      }
    }

    /** hash_join: the link goes to the front of its chain; the cursor is not disturbed. */
    method Join(l: Link)
      requires Valid() && l !in links
      modifies this`count, this`links, this`chains, this`pos, buckets, l`next
      ensures Valid() && links == old(links) + {l} && |old(chains)| == size
      ensures var i := hash(l.key); chains == old(chains)[i := [l] + old(chains)[i]]
      ensures forall x | x != l :: Times(Future(), x) == Times(old(Future()), x)
    {
      hide Times, ChainOk, Future;
      Insert(l);
    }

    method Insert(l: Link)
      requires Shaped() && CursorOk() && l !in links
      modifies this`count, this`links, this`chains, this`pos, buckets, l`next
      ensures Shaped() && CursorOk() && links == old(links) + {l} && |old(chains)| == size
      ensures var i := hash(l.key); chains == old(chains)[i := [l] + old(chains)[i]]
      ensures forall x | x != l :: Times(Future(), x) == Times(old(Future()), x)
    {
      hide Times, ChainOk, From, Future;
      Hook(l);
      if next != null && currentSlot == hash(l.key) { pos := pos + 1; }
      forall x | x != l ensures Times(Future(), x) == Times(old(Future()), x) { JoinedFuture(l, x); }
    }

    twostate lemma JoinedFuture(l: Link, new x: Link)
      requires size == |old(chains)| && old(CursorOk()) && hash(l.key) < size && x != l
      requires chains == old(chains)[hash(l.key) := [l] + old(chains)[hash(l.key)]]
      requires next == old(next) && currentSlot == old(currentSlot)
      requires pos == old(pos) + if next != null && currentSlot == hash(l.key) then 1 else 0
      ensures CursorOk() && Times(Future(), x) == Times(old(Future()), x)
    {
      hide Times;
      var i := hash(l.key);
      var c := old(chains)[i];
      TimesAppend([l], c, x);
      Single(l, x);
      if next != null {
        FromChanged(old(chains), i, [l] + c, currentSlot + 1, x);
        assert chains[currentSlot][pos..] == old(chains)[currentSlot][old(pos)..];
        TimesAppend(chains[currentSlot][pos..], From(chains, currentSlot + 1), x);
        TimesAppend(old(chains)[currentSlot][old(pos)..], From(old(chains), currentSlot + 1), x);
      }
    }

    static lemma Single(l: Link, x: Link)
      ensures Times([l], x) == if x == l then 1 else 0
    {
    }

    /** The place of a link in its chain, and the link before it. */
    method Locate(hl: Link) returns (prev: Link?, ghost j: nat)
      requires Shaped() && hl in links
      ensures var c := chains[hash(hl.key)]; j < |c| && c[j] == hl && prev == if j == 0 then null else c[j - 1]
    {
      hide ChainOk;
      var i := hash(hl.key);
      ghost var c := chains[i];
      Heads(i);
      prev := null;
      var walker := buckets[i];
      j := 0;
      while walker != hl
        invariant 0 <= j < |c| && walker == c[j] && hl in c[j..]
        invariant prev == if j == 0 then null else c[j - 1]
        decreases |c| - j
      {
        InChain(i, j);
        assert c[j..] == [c[j]] + c[j + 1..];
        prev := walker;
        walker := walker.next;
        j := j + 1;
      }
    }

    static ghost function Without(c: seq<Link>, j: nat): seq<Link>
      requires j < |c|
    {
      c[..j] + c[j + 1..]
    }

    /** One chain has lost hl; the order is otherwise the same. */
    ghost predicate Lost(before: seq<seq<Link>>, hl: Link, after: seq<seq<Link>>) {
      var i := hash(hl.key);
      i < |before| && exists j | 0 <= j < |before[i]| ::
          before[i][j] == hl && after == before[i := Without(before[i], j)]
    }

    /** The table's side of a removal: the link is taken out of its chain; its own next field stays. */
    method Unhook(hl: Link) returns (ghost j: nat)
      requires Shaped() && hl in links
      modifies this`count, this`links, this`chains, buckets, links - {hl}
      ensures Shaped() && links == old(links) - {hl} && |old(chains)| == size && hl.next == old(hl.next)
      ensures j < |old(chains)[hash(hl.key)]| && old(chains)[hash(hl.key)][j] == hl
      ensures chains == old(chains)[hash(hl.key) := Without(old(chains)[hash(hl.key)], j)]
    {
      hide ChainOk;
      var prev;
      prev, j := Locate(hl);
      var i := hash(hl.key);
      assert prev != null ==>
               prev in links && prev != hl by { if prev != null { InChain(i, j - 1); Differ(i, j - 1, j); } }
      if prev == null { buckets[i] := hl.next; } else { prev.next := hl.next; }
      count := count - 1;
      links := links - {hl};
      chains := chains[i := Without(chains[i], j)];
      forall b | 0 <= b < size ensures ChainOk(b) { UnhookedChain(hl, j, b); }
      forall x | x in links ensures x in chains[hash(x.key)] { StillIn(old(chains)[i], j, x); }
    }

    lemma Differ(b: nat, i: nat, j: nat)
      requires Shaped() && b < size && i < |chains[b]| && j < |chains[b]| && i != j
      ensures chains[b][i] != chains[b][j]
    {
      assert ChainOk(b);
    }

    static lemma StillIn(c: seq<Link>, j: nat, x: Link)
      requires j < |c|
      ensures x in c && x != c[j] ==> x in Without(c, j)
    {
    }

    twostate lemma UnhookedChain(hl: Link, new j: nat, new b: nat)
      requires old(Shaped()) && hl in old(links) && links == old(links) - {hl} && b < size
      requires j < |old(chains)[hash(hl.key)]| && old(chains)[hash(hl.key)][j] == hl
      requires chains == old(chains)[hash(hl.key) := Without(old(chains)[hash(hl.key)], j)]
      requires forall k | 0 <= k < size && (k != hash(hl.key) || j > 0) :: buckets[k] == old(buckets[k])
      requires j == 0 ==> buckets[hash(hl.key)] == old(hl.next)
      requires j > 0 ==> old(chains)[hash(hl.key)][j - 1].next == old(hl.next)
      requires forall x | x in old(links) && x != hl && (j == 0 || x != old(chains)[hash(hl.key)][j - 1]) ::
                 x.next == old(x.next)
      ensures ChainOk(b)
    {
      assert old(ChainOk(b)) && old(ChainOk(hash(hl.key)));
      assert j > 0 ==> old(LinkOk(chains[hash(hl.key)], hash(hl.key), j - 1));
      var c, d := old(chains)[b], chains[b];
      if b == hash(hl.key) {
        assert old(LinkOk(c, b, j));
        assert if j > 0 then d[0] == c[0] else |c| > 1 ==> d[0] == c[1];
      }
      forall k | 0 <= k < |d|
        ensures LinkOk(d, b, k)
      {
        if b != hash(hl.key) {
          assert old(LinkOk(c, b, k)) && d == c;
        } else if k < j {
          assert old(LinkOk(c, b, k)) && d[k] == c[k] && c[k] != c[j] && (k != j - 1 ==> c[k] != c[j - 1]);
          assert if k == j - 1 then k + 1 < |d| ==> d[k + 1] == c[j + 1] else d[k + 1] == c[k + 1];
        } else {
          assert c[k + 1] != c[j] && (j > 0 ==> c[k + 1] != c[j - 1]);
          assert old(LinkOk(c, b, k + 1)) && d[k] == c[k + 1] && (k + 1 < |d| ==> d[k + 1] == c[k + 2]);
        }
      }
    }

    static lemma TimesWithout(c: seq<Link>, j: nat, x: Link)
      requires j < |c|
      ensures Times(Without(c, j), x) == Times(c, x) - if x == c[j] then 1 else 0
    {
      assert c == c[..j] + [c[j]] + c[j + 1..];
    }

    /** The links from position pos of bucket s on. */
    static ghost function Onward(chains: seq<seq<Link>>, s: nat, pos: nat): seq<Link>
      requires s < |chains| && pos <= |chains[s]|
    {
      chains[s][pos..] + From(chains, s + 1)
    }

    static ghost function Shifted(i: nat, j: nat, s: nat, pos: nat): nat { if s == i && j < pos then pos - 1 else pos }

    /** Taking out a link leaves the order of the others, seen from any place. */
    static lemma OnwardWithout(chains: seq<seq<Link>>, i: nat, j: nat, s: nat, pos: nat, x: Link)
      requires i < |chains| && j < |chains[i]| && s < |chains| && pos < |chains[s]| && x != chains[i][j]
      ensures var d := chains[i := Without(chains[i], j)];
              Shifted(i, j, s, pos) <= |d[s]|
                && Times(Onward(d, s, Shifted(i, j, s, pos)), x) == Times(Onward(chains, s, pos), x)
    {
      hide Times;
      var c, d := chains[i], chains[i := Without(chains[i], j)];
      var p := Shifted(i, j, s, pos);
      FromChanged(chains, i, Without(c, j), s + 1, x);
      TimesWithout(c, j, x);
      TimesAppend(chains[s][pos..], From(chains, s + 1), x);
      TimesAppend(d[s][p..], From(d, s + 1), x);
      if s == i && j >= pos {
        assert d[s][p..] == Without(c[pos..], j - pos);
        TimesWithout(c[pos..], j - pos, x);
      } else {
        assert d[s][p..] == chains[s][pos..];
      }
    }

    static lemma SameOnward(chains: seq<seq<Link>>, i: nat, j: nat, s: nat, pos: nat)
      requires i < |chains| && j < |chains[i]| && s < |chains| && pos < |chains[s]|
      ensures var d := chains[i := Without(chains[i], j)];
              Shifted(i, j, s, pos) <= |d[s]|
              && forall x | x != chains[i][j] ::
                  Times(Onward(d, s, Shifted(i, j, s, pos)), x) == Times(Onward(chains, s, pos), x)
    {
      hide Times, Onward;
      var d := chains[i := Without(chains[i], j)];
      assert Shifted(i, j, s, pos) <= |d[s]|;
      forall x | x != chains[i][j]
        ensures Times(Onward(d, s, Shifted(i, j, s, pos)), x) == Times(Onward(chains, s, pos), x)
      {
        OnwardWithout(chains, i, j, s, pos, x);
      }
    }

    /** Only links of the table are ahead. */
    lemma {:induction false} FromInLinks(k: nat, x: Link)
      requires Shaped() && x !in links
      ensures Times(From(chains, k), x) == 0
      decreases size - k
    {
      if k < size {
        ChainInLinks(k, 0, x);
        FromInLinks(k + 1, x);
        assert chains[k][0..] == chains[k];
        TimesAppend(chains[k], From(chains, k + 1), x);
      }
    }

    lemma ChainInLinks(b: nat, p: nat, x: Link)
      requires Shaped() && x !in links && b < size && p <= |chains[b]|
      ensures Times(chains[b][p..], x) == 0
    {
      assert ChainOk(b);
      forall i | 0 <= i < |chains[b]| ensures chains[b][i] != x { assert LinkOk(chains[b], b, i); }
    }

    lemma FutureInLinks(x: Link)
      requires Shaped() && CursorOk() && x !in links
      ensures Times(Future(), x) == 0
    {
      if next != null {
        ChainInLinks(currentSlot, pos, x);
        FromInLinks(currentSlot + 1, x);
        TimesAppend(chains[currentSlot][pos..], From(chains, currentSlot + 1), x);
      }
    }

    lemma InItsSlot()
      requires Shaped() && CursorOk() && next != null
      ensures currentSlot == hash(next.key) && next in links
      ensures forall k | 0 <= k < |chains[currentSlot]| && k != pos :: chains[currentSlot][k] != next
      ensures next.next == if pos + 1 < |chains[currentSlot]| then chains[currentSlot][pos + 1] else null
    {
      assert ChainOk(currentSlot) && LinkOk(chains[currentSlot], currentSlot, pos);
    }

    static lemma WithoutAt(c: seq<Link>, j: nat, k: nat)
      requires j < |c| && k < |c|
      ensures |Without(c, j)| == |c| - 1
      ensures k < j ==> Without(c, j)[k] == c[k]
      ensures k > j ==> Without(c, j)[k - 1] == c[k]
    {
    }

    /** The cursor after a removal: it keeps its link, or steps over the one removed. */
    method Repair(hl: Link, ghost before: seq<seq<Link>>, ghost i: nat, ghost j: nat)
      requires Shaped() && |before| == |chains| == size && i == hash(hl.key) < size && j < |before[i]|
               && before[i][j] == hl
      requires chains == before[i := Without(before[i], j)]
      requires next != null ==> currentSlot < size && pos < |before[currentSlot]| && before[currentSlot][pos] == next
      requires next == hl ==>
                 currentSlot == i && pos == j && hl.next == if j + 1 < |before[i]| then before[i][j + 1] else null
      modifies this`next, this`currentSlot, this`pos
      ensures CursorOk()
      ensures Future() == if old(next) == null then []
              else Onward(chains, old(currentSlot), Shifted(i, j, old(currentSlot), old(pos)))
    {
      hide ChainOk, From, Without, Shaped;
      if next == hl {
        WithoutAt(before[i], j, if j + 1 < |before[i]| then j + 1 else j);
        PassOver(hl);
      } else if next != null && currentSlot == i {
        WithoutAt(before[i], j, pos);
        if j < pos { pos := pos - 1; }
      }
    }

    method PassOver(hl: Link)
      requires Shaped() && |chains| == size && next == hl && currentSlot < size && pos <= |chains[currentSlot]|
      requires hl.next == if pos < |chains[currentSlot]| then chains[currentSlot][pos] else null
      modifies this`next, this`currentSlot, this`pos
      ensures CursorOk() && Future() == Onward(chains, old(currentSlot), old(pos))
    {
      hide ChainOk, From, Shaped;
      next := hl.next;
      if next == null {
        assert chains[currentSlot][pos..] == [];
        NextBucket();
      }
    }

    lemma NoFuture()
      requires |chains| == size && CursorOk() && next == null
      ensures Future() == []
    {
    }

    lemma FutureOnward()
      requires |chains| == size && CursorOk() && next != null
      ensures Future() == Onward(chains, currentSlot, pos)
    {
    }

    /** The removal, as the table and the cursor see it. */
    method TakeOut(hl: Link)
      requires Shaped() && CursorOk() && hl in links
      modifies this`count, this`links, this`chains, this`next, this`currentSlot, this`pos, buckets, links - {hl}
      ensures Shaped() && CursorOk() && links == old(links) - {hl} && Lost(old(chains), hl, chains)
      ensures forall x | x != hl :: Times(Future(), x) == Times(old(Future()), x)
    {
      hide Times, ChainOk, From, Without, Onward, Future, Shifted;
      ghost var before, s, p := chains, currentSlot, pos;
      if next != null {
        InItsSlot();
        FutureOnward();
      } else {
        NoFuture();
      }
      ghost var j := Unhook(hl);
      if next == null {
        NoFuture();
        return;
      }
      Repair(hl, before, hash(hl.key), j);
      SameOnward(before, hash(hl.key), j, s, p);
    }

    /** hash_remove_link: the link leaves its chain, and a cursor that stands on it steps over it. */
    method Remove(hl: Link)
      requires Valid() && hl in links
      modifies this`count, this`links, this`chains, this`next, this`currentSlot, this`pos, this`stayed, buckets,
               links - {hl}
      ensures Valid() && links == old(links) - {hl} && stayed == old(stayed) - {hl} && Lost(old(chains), hl, chains)
      ensures Times(Future(), hl) == 0
      ensures forall x | x != hl :: Times(Future(), x) == Times(old(Future()), x)
    {
      hide Times, ChainOk, Future;
      TakeOut(hl);
      stayed := stayed - {hl};
      FutureInLinks(hl);
    }
  }
}
