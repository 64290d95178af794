/** The radix tree that stores address prefixes, on linked nodes. */
module Radix {
  import opened Options
  import opened RadixBits

  datatype Prefix = Prefix(addr: Addr, bitlen: nat)

  function KeyOf(p: Prefix): seq<bool>
    requires p.bitlen <= MAXBITS
  {
    Bits(p.addr)[..p.bitlen]
  }

  /** The keys part, a to the side of the zero bit. */
  ghost predicate LeftOf(a: seq<bool>, b: seq<bool>) {
    exists k | 0 <= k < |a| && k < |b| :: a[..k] == b[..k] && !a[k] && b[k]
  }

  /** The order of addresses, a prefix before what it covers. */
  ghost predicate Before(a: seq<bool>, b: seq<bool>) { a < b || LeftOf(a, b) }

  lemma LongerLeft(a: seq<bool>, b: seq<bool>, a': seq<bool>, b': seq<bool>)
    requires LeftOf(a, b) && a <= a' && b <= b'
    ensures LeftOf(a', b')
  {
    var k :| 0 <= k < |a| && k < |b| && a[..k] == b[..k] && !a[k] && b[k];
    assert a'[..k] == b'[..k] && !a'[k] && b'[k];
  }

  lemma LongerAfter(a: seq<bool>, b: seq<bool>, b': seq<bool>)
    requires Before(a, b) && b <= b'
    ensures Before(a, b')
  {
    if LeftOf(a, b) { LongerLeft(a, b, a, b'); }
  }

  /** bit and key never change: a node stands for the bits in key. */
  class Node {
    const bit: nat
    ghost const key: seq<bool>
    var prefix: Option<Prefix>
    var l: Node?
    var r: Node?
    var parent: Node?

    constructor (bit: nat, prefix: Option<Prefix>, ghost key: seq<bool>)
      ensures this.bit == bit && this.prefix == prefix && this.key == key
      ensures l == null && r == null && parent == null
    {
      this.bit, this.prefix, this.key := bit, prefix, key;
      l, r, parent := null, null, null;
    }
  }

  class Tree {
    var head: Node?
    var active: int
    ghost var nodes: set<Node>

    // ===== the invariant =====

    /** The child c of p on side b extends p's key by that bit. */
    ghost predicate KidOk(p: Node, c: Node?, b: bool)
      reads this, nodes
    {
      c != null ==>
        c in nodes && c.parent == p && |p.key| == p.bit < c.bit == |c.key| && c.key[..p.bit] == p.key
          && c.key[p.bit] == b
    }

    ghost predicate UpOk(n: Node)
      requires n in nodes
      reads this, nodes
    {
      && (n.parent == null <==> n == head)
      && (n.parent != null ==> n.parent in nodes && (n.parent.l == n || n.parent.r == n))
    }

    ghost predicate PrefixOk(n: Node)
      reads n
    {
      match n.prefix
      case None => n.l != null && n.r != null
      case Some(p) => p.bitlen == n.bit <= MAXBITS && n.key == KeyOf(p)
    }

    ghost predicate NodeOk(n: Node)
      requires n in nodes
      reads this, nodes
    {
      && |n.key| == n.bit <= MAXBITS
      && KidOk(n, n.l, false) && KidOk(n, n.r, true) && UpOk(n) && PrefixOk(n)
    }

    ghost predicate Valid()
      reads this, nodes
    {
      && (head == null <==> nodes == {})
      && (head != null ==> head in nodes)
      && active == |nodes|
      && forall n {:trigger NodeOk(n)} | n in nodes :: NodeOk(n)
    }

    /** The nodes that hold a prefix. */
    ghost function Stored(): set<Node>
      reads this, nodes
    {
      set n | n in nodes && n.prefix.Some?
    }

    constructor ()
      ensures Valid() && nodes == {}
    {
      head, active, nodes := null, 0, {};
    }

    // ===== ancestors =====

    ghost predicate Above(a: Node, n: Node)
      requires Valid() && n in nodes
      reads this, nodes
      decreases n.bit
    {
      a == n || (assert NodeOk(n); n.parent != null && (assert NodeOk(n.parent); Above(a, n.parent)))
    }

    lemma {:induction false} AbovePrefix(a: Node, n: Node)
      requires Valid() && n in nodes && Above(a, n)
      ensures a in nodes && |a.key| == a.bit && |n.key| == n.bit && a.key <= n.key
      ensures a.bit <= n.bit && (a.bit == n.bit ==> a == n)
      decreases n.bit
    {
      assert NodeOk(n);
      if a != n {
        assert NodeOk(n.parent);
        AbovePrefix(a, n.parent);
      }
    }

    lemma {:induction false} HeadAbove(n: Node)
      requires Valid() && n in nodes
      ensures head != null && Above(head, n)
      decreases n.bit
    {
      assert NodeOk(n);
      if n.parent != null {
        assert NodeOk(n.parent);
        HeadAbove(n.parent);
      }
    }

    function Kid(a: Node, b: bool): Node?
      reads a
    {
      if b then a.r else a.l
    }

    /** From an ancestor the way down is told by the key. */
    lemma {:induction false} ChildToward(a: Node, n: Node)
      requires Valid() && n in nodes && Above(a, n) && a != n
      ensures a.bit < |n.key| && Kid(a, n.key[a.bit]) != null
      ensures Kid(a, n.key[a.bit]) in nodes && Above(Kid(a, n.key[a.bit]), n)
      decreases n.bit
    {
      assert NodeOk(n);
      assert NodeOk(n.parent);
      if n.parent != a {
        ChildToward(a, n.parent);
        AbovePrefix(n.parent, n);
      }
    }

    /** A node whose key is a prefix of another's is above it. */
    lemma {:induction false} PrefixAbove(a: Node, n: Node)
      requires Valid() && a in nodes && n in nodes && a.key <= n.key
      ensures Above(a, n)
      decreases a.bit + n.bit
    {
      assert NodeOk(a) && NodeOk(n);
      if a != n {
        if n.parent == null {
          HeadAbove(a);
          AbovePrefix(n, a);
        } else {
          var p := n.parent;
          assert NodeOk(p);
          if a.bit <= p.bit {
            assert a.key <= p.key;
            PrefixAbove(a, p);
          } else {
            assert p.key <= a.key;
            PrefixAbove(p, a);
            ChildToward(p, a);
            assert Kid(p, n.key[p.bit]) == n;
            AbovePrefix(n, a);
          }
        }
      }
    }

    /** No two nodes stand for the same bits. */
    lemma UniqueKeys(a: Node, b: Node)
      requires Valid() && a in nodes && b in nodes && a.key == b.key
      ensures a == b
    {
      PrefixAbove(a, b);
      assert NodeOk(a) && NodeOk(b);
      AbovePrefix(a, b);
    }

    // ===== searching =====

    /** radix_search_exact: the node that holds the prefix, if any does. */
    method SearchExact(prefix: Prefix) returns (found: Node?)
      requires Valid() && prefix.bitlen <= MAXBITS
      ensures found != null ==> found in Stored() && found.key == KeyOf(prefix)
      ensures found == null ==> forall n | n in Stored() :: n.key != KeyOf(prefix)
    {
      hide NodeOk, KidOk, UpOk, PrefixOk, Above, KeyOf, Bit;
      if head == null { return null; }
      var node: Node := head;
      assert AllUnder(node, prefix) by { UnderHead(prefix); }
      while node.bit < prefix.bitlen
        invariant node in nodes && AllUnder(node, prefix)
        decreases prefix.bitlen - node.bit
      {
        var kid := if Bit(prefix.addr, node.bit) then node.r else node.l;
        UnderKid(node, prefix, kid);
        if kid == null { return null; }
        node := kid;
      }
      OnlyThis(node, prefix);
      if node.bit > prefix.bitlen || node.prefix.None? { return null; }
      var same := CompWithMask(node.prefix.value.addr, prefix.addr, prefix.bitlen);
      KeysCompared(node, prefix);
      return if same then node else null;
    }

    /** Nodes with the key of the prefix are at or below node. */
    ghost predicate AllUnder(node: Node, prefix: Prefix)
      requires Valid() && prefix.bitlen <= MAXBITS
      reads this, nodes
    {
      forall n | n in nodes && n.key == KeyOf(prefix) :: Above(node, n)
    }

    lemma UnderHead(prefix: Prefix)
      requires Valid() && prefix.bitlen <= MAXBITS && head != null
      ensures AllUnder(head, prefix)
    {
      forall n | n in nodes ensures Above(head, n) { HeadAbove(n); }
    }

    lemma UnderKid(node: Node, prefix: Prefix, kid: Node?)
      requires Valid() && prefix.bitlen <= MAXBITS && node in nodes && node.bit < prefix.bitlen
               && AllUnder(node, prefix)
      requires kid == if Bit(prefix.addr, node.bit) then node.r else node.l
      ensures kid != null ==> kid in nodes && node.bit < kid.bit && AllUnder(kid, prefix)
      ensures kid == null ==> forall n | n in nodes :: n.key != KeyOf(prefix)
    {
      assert NodeOk(node);
      forall n | n in nodes && n.key == KeyOf(prefix) ensures kid != null && Above(kid, n) {
        assert NodeOk(n);
        assert n.key[node.bit] == Bit(prefix.addr, node.bit);
        ChildToward(node, n);
      }
    }

    lemma OnlyThis(node: Node, prefix: Prefix)
      requires Valid() && prefix.bitlen <= MAXBITS && node in nodes && node.bit >= prefix.bitlen
               && AllUnder(node, prefix)
      ensures forall n | n in nodes && n.key == KeyOf(prefix) :: n == node && node.bit == prefix.bitlen
    {
      forall n | n in nodes && n.key == KeyOf(prefix) ensures n == node && node.bit == prefix.bitlen {
        assert NodeOk(n);
        AbovePrefix(node, n);
      }
    }

    lemma KeysCompared(node: Node, prefix: Prefix)
      requires Valid() && prefix.bitlen <= MAXBITS && node in nodes && node.bit == prefix.bitlen && node.prefix.Some?
      ensures node.key == KeyOf(prefix) <==>
              Bits(node.prefix.value.addr)[..prefix.bitlen] == Bits(prefix.addr)[..prefix.bitlen]
    {
      assert NodeOk(node);
    }

    /** A stored prefix that the whole address matches. */
    ghost predicate Matching(n: Node, addr: Addr)
      reads this, nodes
    {
      n in nodes && n.prefix.Some? && n.key <= Bits(addr)
    }

    /** Prefixed nodes by growing length, all shorter than the query and than node. */
    ghost predicate OnTheWay(stack: seq<Node>, node: Node?, bitlen: nat)
      reads this, nodes
    {
      && (forall i | 0 <= i < |stack| :: stack[i] in nodes && stack[i].prefix.Some? && stack[i].bit < bitlen)
      && (forall i, j | 0 <= i < j < |stack| :: stack[i].bit < stack[j].bit)
      && (node != null ==> node in nodes && forall i | 0 <= i < |stack| :: stack[i].bit < node.bit)
    }

    /** What matches the address and is shorter than node has been passed, and is on the stack if it is stored. */
    ghost predicate Passed(stack: seq<Node>, node: Node?, prefix: Prefix)
      reads this, nodes
    {
      forall n | n in nodes && n.key <= Bits(prefix.addr) && (node == null || n.bit < node.bit) ::
        n.bit < prefix.bitlen && (n.prefix.Some? ==> n in stack)
    }

    ghost predicate AllBelow(node: Node, addr: Addr)
      requires Valid()
      reads this, nodes
    {
      forall n | n in nodes && n.key <= Bits(addr) && n.bit >= node.bit :: Above(node, n)
    }

    /** One step of the way down. */
    lemma StepDown(stack: seq<Node>, node: Node, prefix: Prefix, kid: Node?)
      requires Valid() && prefix.bitlen <= MAXBITS && node in nodes && node.bit < prefix.bitlen
      requires OnTheWay(stack, node, prefix.bitlen) && Passed(stack, node, prefix) && AllBelow(node, prefix.addr)
      requires kid == if Bit(prefix.addr, node.bit) then node.r else node.l
      ensures var more := if node.prefix.Some? then stack + [node] else stack;
              OnTheWay(more, kid, prefix.bitlen) && Passed(more, kid, prefix)
      ensures kid != null ==> kid.bit > node.bit && kid in nodes && AllBelow(kid, prefix.addr)
    {
      hide Bit;
      assert NodeOk(node);
      var more := if node.prefix.Some? then stack + [node] else stack;
      forall n | n in nodes && n.key <= Bits(prefix.addr) && n.bit >= node.bit && n != node
        ensures kid != null && Above(kid, n) && kid.bit <= n.bit
      {
        ChildToward(node, n);
        AbovePrefix(kid, n);
      }
      forall n | n in nodes && n.key <= Bits(prefix.addr) && (kid == null || n.bit < kid.bit)
        ensures n.bit < prefix.bitlen && (n.prefix.Some? ==> n in more)
      {
      }
    }

    /** The way down: the prefixed nodes passed, and the node where it ends. */
    method Descend(prefix: Prefix) returns (stack: seq<Node>, node: Node?)
      requires Valid() && prefix.bitlen <= MAXBITS && head != null
      ensures OnTheWay(stack, node, prefix.bitlen) && Passed(stack, node, prefix)
      ensures |stack| <= prefix.bitlen
      ensures node != null ==> node.bit >= prefix.bitlen && AllBelow(node, prefix.addr)
    {
      hide NodeOk, Passed, AllBelow;
      node, stack := head, [];
      assert Passed(stack, node, prefix) && AllBelow(node, prefix.addr) by { AtHead(prefix); }
      while node != null && node.bit < prefix.bitlen
        invariant OnTheWay(stack, node, prefix.bitlen) && Passed(stack, node, prefix)
        invariant node != null ==> node in nodes && |stack| <= node.bit && AllBelow(node, prefix.addr)
        invariant |stack| <= prefix.bitlen
        decreases if node == null then 0 else 1 + prefix.bitlen - node.bit
      {
        var kid := if Bit(prefix.addr, node.bit) then node.r else node.l;
        StepDown(stack, node, prefix, kid);
        if node.prefix.Some? { stack := stack + [node]; }
        node := kid;
      }
    }

    lemma AtHead(prefix: Prefix)
      requires Valid() && head != null
      ensures Passed([], head, prefix) && AllBelow(head, prefix.addr)
    {
      forall n | n in nodes ensures Above(head, n) && head.bit <= n.bit { HeadAbove(n); AbovePrefix(head, n); }
    }

    /** The last node on the stack that the address matches. */
    method LastMatch(stack: seq<Node>, addr: Addr) returns (best: Node?)
      requires Valid() && forall i | 0 <= i < |stack| :: stack[i] in nodes && stack[i].prefix.Some?
      requires forall i, j | 0 <= i < j < |stack| :: stack[i].bit < stack[j].bit
      ensures best != null ==> best in stack && Matching(best, addr)
      ensures forall n | n in stack && n.key <= Bits(addr) :: best != null && n.bit <= best.bit
    {
      ghost var bits := Bits(addr);
      var cnt := |stack|;
      while cnt > 0
        invariant 0 <= cnt <= |stack|
        invariant forall i | cnt <= i < |stack| :: !(stack[i].key <= bits)
      {
        cnt := cnt - 1;
        best := stack[cnt];
        assert NodeOk(best);
        var same := CompWithMask(best.prefix.value.addr, addr, best.prefix.value.bitlen);
        if same { return; }
      }
      best := null;
    }

    /** The shortest node, stored or not, that is as long as the query and that the whole address matches. */
    ghost predicate EndsTheWay(n: Node, prefix: Prefix)
      reads this, nodes
    {
      && n in nodes && n.key <= Bits(prefix.addr) && n.bit >= prefix.bitlen
      && forall m | m in nodes && m.key <= Bits(prefix.addr) && m.bit >= prefix.bitlen :: m.bit >= n.bit
    }

    /** radix_search_best2. The longest match among the stored prefixes not longer than the query, unless,
        inclusively, the way down ends at a longer stored prefix that the whole query address matches. */
    method SearchBest(prefix: Prefix, inclusive: bool) returns (best: Node?)
      requires Valid() && prefix.bitlen <= MAXBITS
      ensures best != null ==> Matching(best, prefix.addr)
      ensures forall n | Matching(n, prefix.addr) && (n.bit < prefix.bitlen || (inclusive && n.bit == prefix.bitlen)) ::
                best != null && n.bit <= best.bit
      ensures best != null && best.bit >= prefix.bitlen ==> inclusive && EndsTheWay(best, prefix)
      ensures inclusive ==> forall n | Matching(n, prefix.addr) && EndsTheWay(n, prefix) :: best == n
    {
      hide NodeOk, KidOk, UpOk, PrefixOk;
      if head == null { return null; }
      var stack, node := Descend(prefix);
      if inclusive && node != null && node.prefix.Some? { stack := stack + [node]; }
      assert |stack| <= MAXBITS + 1;
      best := LastMatch(stack, prefix.addr);
      if node != null { EndNode(node, prefix); }
    }

    lemma EndNode(node: Node, prefix: Prefix)
      requires Valid() && node in nodes && node.bit >= prefix.bitlen && AllBelow(node, prefix.addr)
      ensures forall n | n in nodes && n.key <= Bits(prefix.addr) && n.bit >= node.bit ::
                node.key <= Bits(prefix.addr) && (n.bit == node.bit ==> n == node)
    {
      forall n | n in nodes && n.key <= Bits(prefix.addr) && n.bit >= node.bit
        ensures node.key <= Bits(prefix.addr) && (n.bit == node.bit ==> n == node)
      {
        AbovePrefix(node, n);
      }
    }

    /** The longest stored prefix of the query, null when there is none. */
    ghost predicate LongestCover(best: Node?, prefix: Prefix)
      requires prefix.bitlen <= MAXBITS
      reads this, nodes
    {
      && (best != null ==> best in Stored() && best.key <= KeyOf(prefix))
      && forall n | n in Stored() && n.key <= KeyOf(prefix) :: best != null && n.bit <= best.bit
    }

    /** radix_search_best: the longest stored prefix of the query exactly when the way down does not end
        at a stored prefix that is longer than the query. */
    method Best(prefix: Prefix) returns (best: Node?)
      requires Valid() && prefix.bitlen <= MAXBITS
      ensures LongestCover(best, prefix) <==>
                !exists n :: Matching(n, prefix.addr) && EndsTheWay(n, prefix) && n.bit > prefix.bitlen
      ensures forall n | Matching(n, prefix.addr) && EndsTheWay(n, prefix) :: best == n
    {
      hide NodeOk;
      best := SearchBest(prefix, true);
      forall n | n in nodes ensures n.key <= KeyOf(prefix) <==> n.key <= Bits(prefix.addr) && n.bit <= prefix.bitlen {
        Lengths(n);
      }
    }

    lemma Lengths(n: Node)
      requires Valid() && n in nodes
      ensures |n.key| == n.bit <= MAXBITS && PrefixOk(n)
    {
      assert NodeOk(n);
    }

    lemma ParentOk(n: Node)
      requires Valid() && n in nodes && n.parent != null
      ensures n.parent in nodes && n.parent.bit < n.bit && (n.parent.l == n || n.parent.r == n)
    {
      assert NodeOk(n);
      assert NodeOk(n.parent);
    }

    /** In particular when the query is as long as every stored prefix, as a full address is. */
    lemma FullQueries(prefix: Prefix)
      requires Valid() && prefix.bitlen <= MAXBITS
      requires forall n | n in Stored() :: n.bit <= prefix.bitlen
      ensures !exists n :: Matching(n, prefix.addr) && EndsTheWay(n, prefix) && n.bit > prefix.bitlen
    {
    }

    /** One stored prefix that is longer than the query ends the way down. */
    lemma LongerMatch(n: Node, a: Addr)
      requires Valid() && nodes == {n} && n.prefix.Some? && n.key == KeyOf(Prefix(a, 16))
      ensures Matching(n, a) && EndsTheWay(n, Prefix(a, 8)) && n.bit > 8
    {
      assert NodeOk(n);
    }

    // ===== finding the place of a prefix =====

    /** x is where the prefix belongs: it is the first node as long as the first bit, differ, in which the
        prefix departs from the tree. */
    ghost predicate Place(x: Node, differ: nat, test: Addr, prefix: Prefix)
      requires prefix.bitlen <= MAXBITS
      reads this, nodes
    {
      && x in nodes && differ <= prefix.bitlen && differ <= x.bit == |x.key| <= MAXBITS
      && x.key[..differ] == KeyOf(prefix)[..differ]
      && (x.parent != null ==> x.parent.bit < differ)
      && (differ == x.bit < prefix.bitlen ==> Kid(x, KeyOf(prefix)[differ]) == null)
      && (differ < x.bit ==> x.key[differ] == Bit(test, differ))
      && (differ < x.bit && differ < prefix.bitlen ==> x.key[differ] != KeyOf(prefix)[differ])
    }

    /** The way down has followed the bits of the address at every node above. */
    ghost predicate Followed(node: Node, addr: Addr)
      requires Valid() && node in nodes
      reads this, nodes
    {
      forall a | a in nodes && a != node && Above(a, node) ::
          a.bit < |node.key| && a.bit < MAXBITS && node.key[a.bit] == Bit(addr, a.bit)
    }

    lemma FollowOn(node: Node, kid: Node, addr: Addr)
      requires Valid() && node in nodes && Followed(node, addr)
      requires kid == Kid(node, node.bit < MAXBITS && Bit(addr, node.bit))
      ensures kid in nodes && node.bit < kid.bit && Followed(kid, addr)
    {
      assert NodeOk(node);
      assert NodeOk(kid);
      forall a | a in nodes && a != kid && Above(a, kid)
        ensures a.bit < |kid.key| && a.bit < MAXBITS && kid.key[a.bit] == Bit(addr, a.bit)
      {
        if a != node { assert node.key <= kid.key; }
      }
    }

    /** A node with a prefix: long enough, or without a child on the address's side. */
    method Closest(prefix: Prefix) returns (node: Node)
      requires Valid() && prefix.bitlen <= MAXBITS && head != null
      ensures node in nodes && node.prefix.Some? && Followed(node, prefix.addr)
      ensures node.bit < prefix.bitlen ==> Kid(node, Bit(prefix.addr, node.bit)) == null
    {
      hide Followed;
      node := head;
      assert Followed(head, prefix.addr) by { NothingAboveHead(prefix.addr); }
      while node.bit < prefix.bitlen || node.prefix.None?
        invariant node in nodes && Followed(node, prefix.addr)
        decreases MAXBITS - node.bit
      {
        assert NodeOk(node);
        var right := node.bit < MAXBITS && Bit(prefix.addr, node.bit);
        var kid := if right then node.r else node.l;
        if kid == null { break; }
        FollowOn(node, kid, prefix.addr);
        node := kid;
        Lengths(node);
      }
    }

    lemma NothingAboveHead(addr: Addr)
      requires Valid() && head != null
      ensures Followed(head, addr)
    {
      assert NodeOk(head);
    }

    method FindPlace(prefix: Prefix) returns (x: Node, differ: nat, test: Addr)
      requires Valid() && prefix.bitlen <= MAXBITS && head != null
      ensures Place(x, differ, test, prefix)
    {
      hide Followed;
      var node := Closest(prefix);
      assert NodeOk(node);
      test := node.prefix.value.addr;
      differ := DifferBit(prefix.addr, test, if node.bit < prefix.bitlen then node.bit else prefix.bitlen);
      x := node;
      while x.parent != null && x.parent.bit >= differ
        invariant x in nodes && Above(x, node) && differ <= x.bit
        decreases x.bit
      {
        assert NodeOk(x);
        assert NodeOk(x.parent);
        Climb(x, node);
        x := x.parent;
      }
      AbovePrefix(x, node);
      PlaceFound(node, x, differ, prefix);
    }

    lemma {:induction false} Climb(x: Node, node: Node)
      requires Valid() && node in nodes && Above(x, node) && x in nodes && x.parent != null
      ensures x.parent in nodes && Above(x.parent, node)
      decreases node.bit
    {
      assert NodeOk(x);
      if x == node {
        assert NodeOk(node.parent);
      } else {
        assert NodeOk(node);
        assert NodeOk(node.parent);
        Climb(x, node.parent);
      }
    }

    lemma PlaceFound(node: Node, x: Node, differ: nat, prefix: Prefix)
      requires Valid() && prefix.bitlen <= MAXBITS && node in nodes && x in nodes && Above(x, node)
      requires node.prefix.Some? && Followed(node, prefix.addr)
      requires node.bit < prefix.bitlen ==> Kid(node, Bit(prefix.addr, node.bit)) == null
      requires var test, check := node.prefix.value.addr, if node.bit < prefix.bitlen then node.bit else prefix.bitlen;
               differ <= check && Bits(prefix.addr)[..differ] == Bits(test)[..differ]
               && (differ < check ==> Bits(prefix.addr)[differ] != Bits(test)[differ])
      requires differ <= x.bit && (x.parent != null ==> x.parent.bit < differ)
      ensures Place(x, differ, node.prefix.value.addr, prefix)
    {
      AbovePrefix(x, node);
      assert NodeOk(node);
      assert NodeOk(x);
      assert x.key[..differ] == node.key[..differ] == Bits(prefix.addr)[..differ] == KeyOf(prefix)[..differ];
    }

    // ===== storing =====

    /** node now holds the prefix, and nothing else that is stored has changed. */
    twostate predicate Added(new node: Node, prefix: Prefix)
      requires prefix.bitlen <= MAXBITS
      reads this, nodes
    {
      && Valid() && node in nodes && node.key == KeyOf(prefix)
      && old(nodes) <= nodes && fresh(nodes - old(nodes))
      && Stored() == old(Stored()) + {node}
      && active <= old(active) + 2
      && forall n | n in old(Stored()) :: n.prefix == old(n.prefix)
    }

    method AddHead(prefix: Prefix) returns (node: Node)
      requires Valid() && prefix.bitlen <= MAXBITS && head == null
      modifies this, nodes
      ensures Added(node, prefix) && nodes == {node}
    {
      node := new Node(prefix.bitlen, Some(prefix), KeyOf(prefix));
      head := node;
      active := active + 1;
      nodes := {node};
      assert NodeOk(node);
    }

    twostate predicate Same(n: Node)
      reads n
    {
      n.l == old(n.l) && n.r == old(n.r) && n.parent == old(n.parent) && n.prefix == old(n.prefix)
    }

    twostate predicate Attached(x: Node, b: bool, new node: Node)
      reads this, nodes
    {
      && x in old(nodes) && fresh(node) && nodes == old(nodes) + {node} && head == old(head)
      && (forall n {:trigger Same(n)} | n in old(nodes) && n != x :: Same(n))
      && x.parent == old(x.parent) && x.prefix == old(x.prefix)
      && Kid(x, b) == node && Kid(x, !b) == old(Kid(x, !b))
      && node.parent == x && node.l == null && node.r == null
    }

    twostate lemma AttachedNodes(x: Node, new b: bool, new node: Node, new prefix: Prefix)
      requires old(Valid()) && prefix.bitlen <= MAXBITS && Attached(x, b, node)
      requires x.bit < prefix.bitlen == node.bit && node.key == KeyOf(prefix) && node.prefix == Some(prefix)
      requires b == node.key[x.bit] && node.key[..x.bit] == x.key && old(Kid(x, b)) == null
      ensures forall n {:trigger NodeOk(n)} | n in nodes :: NodeOk(n)
    {
      assert old(NodeOk(x));
      forall n | n in nodes ensures NodeOk(n) {
        if n != node { assert old(NodeOk(n)); }
        if n != x && n != node { assert Same(n); }
        if n.l != null && n.l in old(nodes) && n.l != x { assert Same(n.l); }
        if n.r != null && n.r in old(nodes) && n.r != x { assert Same(n.r); }
        if n.parent != null && n.parent != x { assert Same(n.parent); }
      }
    }

    twostate lemma AttachedAll(x: Node, new b: bool, new node: Node, new prefix: Prefix)
      requires old(Valid()) && prefix.bitlen <= MAXBITS && Attached(x, b, node) && active == old(active) + 1
      requires x.bit < prefix.bitlen == node.bit && node.key == KeyOf(prefix) && node.prefix == Some(prefix)
      requires b == node.key[x.bit] && node.key[..x.bit] == x.key && old(Kid(x, b)) == null
      ensures Added(node, prefix)
    {
      hide NodeOk;
      AttachedNodes(x, b, node, prefix);
      forall n | n in old(nodes) ensures n.prefix == old(n.prefix) { if n != x { assert Same(n); } }
    }

    /** A new leaf below x. */
    method Attach(x: Node, prefix: Prefix, ghost test: Addr) returns (node: Node)
      requires Valid() && prefix.bitlen <= MAXBITS && x.bit < prefix.bitlen && Place(x, x.bit, test, prefix)
      modifies this, nodes
      ensures Added(node, prefix)
    {
      hide NodeOk, Added;
      node := new Node(prefix.bitlen, Some(prefix), KeyOf(prefix));
      active := active + 1;
      node.parent := x;
      if Bit(prefix.addr, x.bit) { x.r := node; } else { x.l := node; }
      nodes := nodes + {node};
      AttachedAll(x, Bit(prefix.addr, x.bit), node, prefix);
    }

    /** mid has taken x's place, with x below it. */
    twostate predicate Spliced(x: Node, new mid: Node)
      reads this, nodes
    {
      && x in old(nodes) && fresh(mid) && mid in nodes && old(nodes) <= nodes
      && (forall n {:trigger Same(n)} | n in old(nodes) && n != x && n != old(x.parent) :: Same(n))
      && x.l == old(x.l) && x.r == old(x.r) && x.prefix == old(x.prefix) && x.parent == mid
      && mid.parent == old(x.parent)
      && (if old(x.parent) == null then head == mid
           else head == old(head) && old(x.parent) in old(nodes) && Rehung(old(x.parent), x, mid))
    }

    twostate predicate Rehung(p: Node, x: Node, new mid: Node)
      reads p
    {
      && p.parent == old(p.parent) && p.prefix == old(p.prefix)
      && (if old(p.r) == x then p.r == mid && p.l == old(p.l) else p.l == mid && p.r == old(p.r))
    }

    twostate lemma SplicedNodes(x: Node, new mid: Node)
      requires old(Valid()) && Spliced(x, mid) && (mid.l == x || mid.r == x)
      requires |mid.key| == mid.bit < x.bit == |x.key| && mid.key == x.key[..mid.bit]
      requires old(x.parent) != null ==> old(x.parent).bit < mid.bit
      ensures forall n {:trigger NodeOk(n)} | n in old(nodes) :: NodeOk(n)
    {
      hide KeyOf;
      assert old(NodeOk(x));
      var p := old(x.parent);
      if p != null { assert old(NodeOk(p)); }
      forall n | n in old(nodes) ensures NodeOk(n) {
        assert old(NodeOk(n));
        if n != x && n != p { assert Same(n); }
        if n.l != null && n.l in old(nodes) && n.l != x && n.l != p { assert Same(n.l); }
        if n.r != null && n.r in old(nodes) && n.r != x && n.r != p { assert Same(n.r); }
        if n.parent != null && n.parent in old(nodes) && n.parent != x && n.parent != p { assert Same(n.parent); }
      }
    }

    twostate lemma SplicedStored(x: Node, new mid: Node)
      requires Spliced(x, mid)
      ensures forall n | n in old(nodes) :: n.prefix == old(n.prefix)
    {
      forall n | n in old(nodes) ensures n.prefix == old(n.prefix) {
        if n != x && n != old(x.parent) { assert Same(n); }
      }
    }

    /** mid takes x's place and becomes x's parent. */
    method TakePlace(x: Node, mid: Node)
      requires x != mid && (x.parent != null ==> x.parent != x && x.parent != mid)
      modifies this`head, mid, x, x.parent
      ensures mid.l == old(mid.l) && mid.r == old(mid.r) && mid.prefix == old(mid.prefix) && mid.parent == old(x.parent)
      ensures x.l == old(x.l) && x.r == old(x.r) && x.prefix == old(x.prefix) && x.parent == mid
      ensures if old(x.parent) == null then head == mid else head == old(head) && Rehung(old(x.parent), x, mid)
    {
      mid.parent := x.parent;
      if x.parent == null {
        head := mid;
      } else if x.parent.r == x {
        x.parent.r := mid;
      } else {
        x.parent.l := mid;
      }
      x.parent := mid;
    }

    /** The prefix ends inside the bits that lead to x: its node goes right above x. */
    method InsertAbove(x: Node, prefix: Prefix, test: Addr) returns (node: Node)
      requires Valid() && prefix.bitlen <= MAXBITS && prefix.bitlen < x.bit && Place(x, prefix.bitlen, test, prefix)
      modifies this, nodes
      ensures Added(node, prefix)
    {
      hide NodeOk, Added;
      if x.parent != null { ParentOk(x); }
      node := new Node(prefix.bitlen, Some(prefix), KeyOf(prefix));
      active := active + 1;
      if prefix.bitlen < MAXBITS && Bit(test, prefix.bitlen) { node.r := x; } else { node.l := x; }
      TakePlace(x, node);
      nodes := nodes + {node};
      InsertedAbove(x, node, prefix);
    }

    twostate lemma InsertedAbove(x: Node, new node: Node, new prefix: Prefix)
      requires old(Valid()) && prefix.bitlen <= MAXBITS && Spliced(x, node)
      requires nodes == old(nodes) + {node} && active == old(active) + 1
      requires node.bit == prefix.bitlen < x.bit == |x.key| && node.key == KeyOf(prefix) == x.key[..node.bit]
               && node.prefix == Some(prefix)
      requires Kid(node, x.key[node.bit]) == x && Kid(node, !x.key[node.bit]) == null
      requires old(x.parent) != null ==> old(x.parent).bit < node.bit
      ensures Added(node, prefix)
    {
      SplicedNodes(x, node);
      SplicedStored(x, node);
      assert NodeOk(node);
    }

    /** The prefix departs inside the bits that lead to x: a glue node with both below it. */
    method InsertGlue(x: Node, differ: nat, prefix: Prefix, ghost test: Addr) returns (node: Node)
      requires Valid() && prefix.bitlen <= MAXBITS && differ < prefix.bitlen && differ < x.bit
               && Place(x, differ, test, prefix)
      modifies this, nodes
      ensures Added(node, prefix)
    {
      hide NodeOk, Added, Bits, Valid, Rehung, Bit;
      if x.parent != null { ParentOk(x); }
      node := new Node(prefix.bitlen, Some(prefix), KeyOf(prefix));
      active := active + 1;
      var glue := new Node(differ, None, KeyOf(prefix)[..differ]);
      active := active + 1;
      var right := Bit(prefix.addr, differ);
      assert right == node.key[differ];
      glue.r := if right then node else x;
      glue.l := if right then x else node;
      node.parent := glue;
      TakePlace(x, glue);
      nodes := nodes + {node, glue};
      InsertedGlue(x, glue, node, prefix);
    }

    twostate lemma InsertedGlue(x: Node, new glue: Node, new node: Node, new prefix: Prefix)
      requires old(Valid()) && prefix.bitlen <= MAXBITS && Spliced(x, glue) && fresh(node) && node != glue
      requires nodes == old(nodes) + {node, glue} && active == old(active) + 2
      requires node.bit == prefix.bitlen && node.key == KeyOf(prefix) && node.prefix == Some(prefix)
      requires glue.bit < prefix.bitlen && glue.bit < x.bit == |x.key|
               && glue.key == x.key[..glue.bit] == node.key[..glue.bit]
      requires glue.prefix == None && x.key[glue.bit] != node.key[glue.bit]
      requires Kid(glue, x.key[glue.bit]) == x && Kid(glue, node.key[glue.bit]) == node
      requires node.parent == glue && node.l == null && node.r == null
      requires old(x.parent) != null ==> old(x.parent).bit < glue.bit
      ensures Added(node, prefix)
    {
      SplicedNodes(x, glue);
      SplicedStored(x, glue);
      assert NodeOk(glue);
      assert NodeOk(node);
    }

    twostate predicate SameLinks(n: Node)
      reads n
    {
      n.l == old(n.l) && n.r == old(n.r) && n.parent == old(n.parent)
    }

    /** Only the prefix of x has changed. */
    twostate lemma Relabelled(x: Node)
      requires old(Valid()) && nodes == old(nodes) && head == old(head) && active == old(active)
      requires forall n {:trigger SameLinks(n)} | n in nodes :: SameLinks(n)
      requires forall n {:trigger n.prefix} | n in nodes && n != x :: n.prefix == old(n.prefix)
      requires x in nodes ==> PrefixOk(x)
      ensures Valid()
    {
      forall n | n in nodes ensures NodeOk(n) {
        assert old(NodeOk(n));
        assert SameLinks(n);
        if n.l != null { assert SameLinks(n.l); }
        if n.r != null { assert SameLinks(n.r); }
        if n.parent != null { assert SameLinks(n.parent); }
      }
    }

    /** The prefix has a node already, perhaps a glue node. */
    method Fill(x: Node, prefix: Prefix)
      requires Valid() && prefix.bitlen <= MAXBITS && x in nodes && x.key == KeyOf(prefix)
      modifies this, nodes
      ensures Added(x, prefix)
    {
      hide NodeOk;
      Lengths(x);
      if x.prefix.None? { x.prefix := Some(prefix); }
      Relabelled(x);
    }

    /** radix_lookup: finds the prefix or stores it. */
    method Lookup(prefix: Prefix) returns (node: Node)
      requires Valid() && prefix.bitlen <= MAXBITS
      modifies this, nodes
      ensures Added(node, prefix) && (old(nodes) == {} ==> nodes == {node})
      ensures forall n | n in old(Stored()) && n.key == KeyOf(prefix) :: node == n
    {
      hide NodeOk;
      if head == null {
        node := AddHead(prefix);
      } else {
        var x, differ, test := FindPlace(prefix);
        if differ == prefix.bitlen && x.bit == prefix.bitlen {
          Fill(x, prefix);
          node := x;
        } else if x.bit == differ {
          node := Attach(x, prefix, test);
        } else if prefix.bitlen == differ {
          node := InsertAbove(x, prefix, test);
        } else {
          node := InsertGlue(x, differ, prefix, test);
        }
      }
      forall n | n in old(Stored()) && n.key == KeyOf(prefix) ensures node == n { UniqueKeys(n, node); }
    }

    // ===== removing =====

    /** node holds nothing any more, and nothing else that is stored has changed. */
    twostate predicate Dropped(node: Node)
      reads this, nodes
    {
      && Valid() && nodes <= old(nodes)
      && Stored() == old(Stored()) - {node}
      && forall n | n in Stored() :: n.prefix == old(n.prefix)
    }

    /** The nodes in gone have left; out was one of them, and its child has taken its place. */
    twostate predicate Promoted(out: Node, new child: Node, new gone: set<Node>)
      reads this, nodes
    {
      && out in gone && gone <= old(nodes) && nodes == old(nodes) - gone && child in nodes
      && (forall n {:trigger Same(n)} | n in nodes && n != child && n != old(out.parent) :: Same(n))
      && child.l == old(child.l) && child.r == old(child.r) && child.prefix == old(child.prefix)
      && child.parent == old(out.parent) && old(child.parent) == out
      && (if old(out.parent) == null then head == child
          else head == old(head) && old(out.parent) in nodes && Rehung(old(out.parent), out, child))
    }

    /** gone is out, and perhaps a leaf below it. */
    twostate predicate OutAndLeaf(out: Node, new gone: set<Node>) {
      forall g | g in gone && g in old(nodes) && g != out :: old(g.parent == out && g.l == null && g.r == null)
    }

    twostate predicate KidsAccounted(out: Node, new child: Node, new gone: set<Node>) {
      && (old(out.l) == null || old(out.l) == child || old(out.l) in gone)
      && (old(out.r) == null || old(out.r) == child || old(out.r) in gone)
    }

    static lemma Chain(a: seq<bool>, b: seq<bool>, c: seq<bool>)
      requires |a| < |b| < |c| && b[..|a|] == a && c[..|b|] == b
      ensures c[..|a|] == a && c[|a|] == b[|a|]
    {
    }

    twostate lemma PromotedKid(out: Node, new child: Node, new gone: set<Node>, new n: Node, new b: bool)
      requires old(Valid()) && Promoted(out, child, gone) && OutAndLeaf(out, gone) && KidsAccounted(out, child, gone)
               && n in nodes
      ensures KidOk(n, Kid(n, b), b)
    {
      hide PrefixOk;
      assert old(NodeOk(out)) && old(NodeOk(child)) && old(NodeOk(n));
      var p := old(out.parent);
      if p != null {
        assert old(NodeOk(p));
        Chain(p.key, out.key, child.key);
      }
      var c := old(Kid(n, b));
      if c != null { assert old(NodeOk(c)); }
      if n != child && n != p { assert Same(n); }
      if c != null && c in nodes && c != child && c != p { assert Same(c); }
    }

    twostate lemma PromotedUp(out: Node, new child: Node, new gone: set<Node>, new n: Node)
      requires old(Valid()) && Promoted(out, child, gone) && OutAndLeaf(out, gone) && KidsAccounted(out, child, gone)
               && n in nodes
      ensures UpOk(n) && PrefixOk(n)
    {
      assert old(NodeOk(out)) && old(NodeOk(child)) && old(NodeOk(n));
      var p := old(out.parent);
      if p != null { assert old(NodeOk(p)); }
      if n != child && n != p { assert Same(n); }
      var q := n.parent;
      if q != null && q != child && q != p && q in nodes { assert Same(q); }
    }

    twostate lemma PromotedNodes(out: Node, new child: Node, new gone: set<Node>)
      requires old(Valid()) && Promoted(out, child, gone) && OutAndLeaf(out, gone) && KidsAccounted(out, child, gone)
      ensures forall n {:trigger NodeOk(n)} | n in nodes :: NodeOk(n)
    {
      hide Promoted, OutAndLeaf, KidsAccounted, KidOk, UpOk, PrefixOk;
      forall n | n in nodes ensures NodeOk(n) {
        assert n in old(nodes) by { PromotedSubset(out, child, gone); }
        assert old(NodeOk(n));
        PromotedKid(out, child, gone, n, false);
        PromotedKid(out, child, gone, n, true);
        PromotedUp(out, child, gone, n);
      }
    }

    twostate lemma PromotedSubset(out: Node, new child: Node, new gone: set<Node>)
      requires Promoted(out, child, gone)
      ensures nodes <= old(nodes)
    {
    }

    /** A leaf has left a node that keeps a prefix. */
    twostate predicate Trimmed(leaf: Node, new p: Node, new b: bool)
      reads this, nodes
    {
      && leaf in old(nodes) && nodes == old(nodes) - {leaf} && head == old(head) && p in nodes && p == old(leaf.parent)
      && (forall n {:trigger Same(n)} | n in nodes && n != p :: Same(n))
      && p.parent == old(p.parent) && p.prefix == old(p.prefix)
      && old(Kid(p, b)) == leaf && Kid(p, b) == null && Kid(p, !b) == old(Kid(p, !b))
    }

    twostate lemma TrimmedNodes(leaf: Node, new p: Node, new b: bool)
      requires old(Valid()) && Trimmed(leaf, p, b) && old(leaf.l) == null && old(leaf.r) == null && p.prefix.Some?
      ensures forall n {:trigger NodeOk(n)} | n in nodes :: NodeOk(n)
    {
      assert old(NodeOk(leaf));
      assert old(NodeOk(p));
      forall n | n in nodes ensures NodeOk(n) {
        assert old(NodeOk(n));
        if n != p { assert Same(n); }
        if n.l != null { assert old(NodeOk(n.l)); if n.l != p { assert Same(n.l); } }
        if n.r != null { assert old(NodeOk(n.r)); if n.r != p { assert Same(n.r); } }
        if n.parent != null && n.parent != p { assert Same(n.parent); }
      }
    }

    lemma LoneHead(n: Node)
      requires Valid() && n in nodes && n == head && n.l == null && n.r == null
      ensures nodes == {n}
    {
      forall m | m in nodes ensures m == n {
        HeadAbove(m);
        if m != n { ChildToward(n, m); }
      }
    }

    lemma KidsOk(n: Node)
      requires Valid() && n in nodes
      ensures n.l != null ==> n.l in nodes && n.l.parent == n && n.l.bit > n.bit
      ensures n.r != null ==> n.r in nodes && n.r.parent == n && n.r.bit > n.bit
      ensures n.l != null && n.r != null ==> n.l != n.r
      ensures n.parent == null <==> n == head
    {
      assert NodeOk(n);
    }

    static lemma Fewer(a: set<Node>, b: set<Node>)
      requires b <= a
      ensures |a - b| == |a| - |b|
    {
      assert a == (a - b) + b;
    }

    /** child takes out's place. */
    method LeavePlace(out: Node, child: Node)
      requires out != child && (out.parent != null ==> out.parent != out && out.parent != child)
      modifies this`head, child`parent, out.parent
      ensures child.parent == old(out.parent)
      ensures if old(out.parent) == null then head == child
              else head == old(head) && Rehung(old(out.parent), out, child)
    {
      if out.parent == null {
        head := child;
      } else if out.parent.r == out {
        out.parent.r := child;
      } else {
        out.parent.l := child;
      }
      child.parent := out.parent;
    }

    twostate lemma PromotedHead(out: Node, new child: Node, new gone: set<Node>)
      requires old(Valid()) && Promoted(out, child, gone) && OutAndLeaf(out, gone)
      ensures head != null && head in nodes
    {
      assert old(NodeOk(out));
      assert old(NodeOk(head));
    }

    twostate lemma PromotedAll(out: Node, new child: Node, new gone: set<Node>, new node: Node)
      requires old(Valid()) && Promoted(out, child, gone) && OutAndLeaf(out, gone) && KidsAccounted(out, child, gone)
      requires active == old(active) - |gone| && node in gone
               && forall g | g in gone && g != node :: g !in old(Stored())
      ensures Dropped(node)
    {
      hide NodeOk, OutAndLeaf, KidsAccounted;
      PromotedNodes(out, child, gone);
      PromotedHead(out, child, gone);
      Fewer(old(nodes), gone);
      forall n | n in nodes ensures n.prefix == old(n.prefix) {
        if n != child && n != old(out.parent) { assert Same(n); }
      }
    }

    /** A node with one child: the child takes its place. */
    method RemoveInner(node: Node, child: Node)
      requires Valid() && node in nodes && (node.l == null || node.r == null) && child in {node.l, node.r}
      modifies this, nodes
      ensures Dropped(node)
    {
      hide NodeOk, Dropped;
      KidsOk(node);
      if node.parent != null { ParentOk(node); }
      LeavePlace(node, child);
      active := active - 1;
      nodes := nodes - {node};
      PromotedAll(node, child, {node}, node);
    }

    twostate lemma TrimmedHead(leaf: Node, new p: Node, new b: bool)
      requires old(Valid()) && Trimmed(leaf, p, b)
      ensures head != null && head in nodes
    {
      assert old(NodeOk(leaf));
    }

    twostate lemma TrimmedAll(leaf: Node, new p: Node, new b: bool)
      requires old(Valid()) && Trimmed(leaf, p, b) && old(leaf.l) == null && old(leaf.r) == null && p.prefix.Some?
      requires active == old(active) - 1
      ensures Dropped(leaf)
    {
      hide NodeOk;
      TrimmedNodes(leaf, p, b);
      TrimmedHead(leaf, p, b);
      Fewer(old(nodes), {leaf});
      forall n | n in nodes ensures n.prefix == old(n.prefix) { if n != p { assert Same(n); } }
    }

    method RemoveOnly(node: Node)
      requires Valid() && node in nodes && node.l == null && node.r == null && node.parent == null
      modifies this
      ensures Dropped(node)
    {
      KidsOk(node);
      LoneHead(node);
      active := active - 1;
      head := null;
      nodes := {};
    }

    method RemoveBelow(node: Node, parent: Node)
      requires Valid() && node in nodes && node.l == null && node.r == null && node.parent == parent
               && parent.prefix.Some?
      modifies this, nodes
      ensures Dropped(node)
    {
      hide NodeOk, Dropped;
      ParentOk(node);
      KidsOk(parent);
      ghost var right := parent.r == node;
      active := active - 1;
      if parent.r == node { parent.r := null; } else { parent.l := null; }
      nodes := nodes - {node};
      TrimmedAll(node, parent, right);
    }

    method RemoveWithParent(node: Node, parent: Node)
      requires Valid() && node in nodes && node.l == null && node.r == null && node.parent == parent
               && parent.prefix.None?
      modifies this, nodes
      ensures Dropped(node)
    {
      hide NodeOk, Dropped;
      ParentOk(node);
      KidsOk(parent);
      Lengths(parent);
      if parent.parent != null { ParentOk(parent); }
      active := active - 1;
      var child: Node;
      if parent.r == node {
        parent.r := null;
        child := parent.l;
      } else {
        parent.l := null;
        child := parent.r;
      }
      LeavePlace(parent, child);
      active := active - 1;
      nodes := nodes - {node, parent};
      assert {node, parent} - {node} == {parent};
      PromotedAll(parent, child, {node, parent}, node);
    }

    /** radix_remove: a node with two children becomes a glue node, a node with one child gives it its place,
        and a leaf goes together with a parent that only held it and its sibling together. */
    method Remove(node: Node)
      requires Valid() && node in nodes
      modifies this, nodes
      ensures Dropped(node)
    {
      if node.r != null && node.l != null {
        node.prefix := None;
        Relabelled(node);
      } else if node.r == null && node.l == null {
        if node.parent == null {
          RemoveOnly(node);
        } else if node.parent.prefix.Some? {
          RemoveBelow(node, node.parent);
        } else {
          RemoveWithParent(node, node.parent);
        }
      } else {
        RemoveInner(node, if node.r != null then node.r else node.l);
      }
    }

    // ===== walking =====

    /** The subtrees of the pending nodes are apart, and hold just the nodes not seen yet. */
    ghost predicate Frontier(pending: seq<Node>, seen: set<Node>)
      requires Valid()
      reads this, nodes
    {
      && (forall i | 0 <= i < |pending| :: pending[i] in nodes)
      && (forall i, j | 0 <= i < |pending| && 0 <= j < |pending| && i != j :: !Above(pending[i], pending[j]))
      && seen <= nodes
      && forall n | n in nodes :: n in seen <==> Clear(pending, n)
    }

    ghost predicate Clear(pending: seq<Node>, n: Node)
      requires Valid() && n in nodes
      reads this, nodes
    {
      forall i | 0 <= i < |pending| :: !Above(pending[i], n)
    }

    ghost function Kids(x: Node): seq<Node>
      reads x
    {
      (if x.r != null then [x.r] else []) + (if x.l != null then [x.l] else [])
    }

    /** Below x: x itself and what is below its children, apart from each other. */
    lemma BelowKids(x: Node, n: Node)
      requires Valid() && x in nodes && n in nodes
      ensures x.l != null ==> x.l in nodes && !Above(x.l, x)
      ensures x.r != null ==> x.r in nodes && !Above(x.r, x)
      ensures Above(x, n) <==> n == x || (x.l != null && Above(x.l, n)) || (x.r != null && Above(x.r, n))
    {
      assert NodeOk(x);
      if x.l != null {
        if Above(x.l, x) { AbovePrefix(x.l, x); }
        if Above(x.l, n) { AboveAbove(x, x.l, n); }
      }
      if x.r != null {
        if Above(x.r, x) { AbovePrefix(x.r, x); }
        if Above(x.r, n) { AboveAbove(x, x.r, n); }
      }
      if Above(x, n) && n != x { ChildToward(x, n); }
    }

    lemma {:induction false} AboveAbove(a: Node, b: Node, n: Node)
      requires Valid() && b in nodes && n in nodes && Above(a, b) && Above(b, n)
      ensures Above(a, n)
      decreases n.bit
    {
      if b != n {
        assert NodeOk(n);
        assert NodeOk(n.parent);
        AboveAbove(a, b, n.parent);
      }
    }

    lemma KidsApart(x: Node)
      requires Valid() && x in nodes && x.l != null && x.r != null
      ensures x.l in nodes && x.r in nodes && !Above(x.l, x.r) && !Above(x.r, x.l)
    {
      assert NodeOk(x);
      if Above(x.l, x.r) { AbovePrefix(x.l, x.r); }
      if Above(x.r, x.l) { AbovePrefix(x.r, x.l); }
    }

    /** A pending node apart from x is apart from x's children. */
    lemma KidApart(x: Node, kid: Node, s: Node)
      requires Valid() && x in nodes && s in nodes && kid in nodes && kid.parent == x && !Above(x, s) && !Above(s, x)
      ensures !Above(kid, s) && !Above(s, kid)
    {
      assert NodeOk(kid);
      if Above(kid, s) {
        assert Above(x, kid) by { assert Above(x, x); }
        AboveAbove(x, kid, s);
      }
    }

    lemma WalkOn(stack: seq<Node>, x: Node, seen: set<Node>)
      requires Valid() && Frontier(stack + [x], seen)
      ensures x in nodes && x !in seen
      ensures Frontier(stack + Kids(x), seen + {x})
    {
      var old_, new_ := stack + [x], stack + Kids(x);
      assert old_[|stack|] == x;
      assert !Clear(old_, x) by { assert Above(old_[|stack|], x); }
      KidsOk(x);
      forall i | 0 <= i < |stack| ensures stack[i] in nodes && !Above(stack[i], x) && !Above(x, stack[i]) {
        assert old_[i] == stack[i] && !Above(old_[i], old_[|stack|]) && !Above(old_[|stack|], old_[i]);
      }
      forall i, j | 0 <= i < |new_| && 0 <= j < |new_| && i != j
        ensures new_[i] in nodes && new_[j] in nodes && !Above(new_[i], new_[j])
      {
        if i < |stack| && j < |stack| {
          assert new_[i] == old_[i] && new_[j] == old_[j];
        } else if i < |stack| {
          KidApart(x, new_[j], stack[i]);
        } else if j < |stack| {
          KidApart(x, new_[i], stack[j]);
        } else {
          KidsApart(x);
        }
      }
      forall n | n in nodes ensures n in seen + {x} <==> Clear(new_, n) { WalkedOne(stack, x, seen, n); }
    }

    /** What is pending stands from right to left, all of it after what was seen. */
    ghost predicate Ordered(pending: seq<Node>, seen: set<Node>) {
      && (forall i, j | 0 <= i < j < |pending| :: LeftOf(pending[j].key, pending[i].key))
      && (forall n, i | n in seen && 0 <= i < |pending| :: Before(n.key, pending[i].key))
    }

    lemma KidsOrdered(x: Node)
      requires Valid() && x in nodes
      ensures forall i | 0 <= i < |Kids(x)| :: x.key < Kids(x)[i].key
      ensures |Kids(x)| <= 2 && (|Kids(x)| == 2 ==> LeftOf(Kids(x)[1].key, Kids(x)[0].key))
    {
      assert NodeOk(x);
      if x.l != null && x.r != null {
        assert x.l.key[..x.bit] == x.r.key[..x.bit] && !x.l.key[x.bit] && x.r.key[x.bit];
      }
    }

    lemma OrderOn(stack: seq<Node>, x: Node, seen: set<Node>)
      requires Valid() && x in nodes && Ordered(stack + [x], seen)
      ensures Ordered(stack + Kids(x), seen + {x})
    {
      hide LeftOf, Before, Kids;
      var old_, new_ := stack + [x], stack + Kids(x);
      KidsOrdered(x);
      assert old_[|stack|] == x;
      forall i | 0 <= i < |stack| ensures LeftOf(x.key, stack[i].key) { assert old_[i] == stack[i]; }
      forall i, j | 0 <= i < j < |new_| ensures LeftOf(new_[j].key, new_[i].key) {
        if j < |stack| {
          assert new_[i] == old_[i] && new_[j] == old_[j];
        } else if i < |stack| {
          LongerLeft(x.key, stack[i].key, new_[j].key, stack[i].key);
        }
      }
      forall n, i | n in seen + {x} && 0 <= i < |new_| ensures Before(n.key, new_[i].key) {
        OrderedOne(stack, x, seen, n, i);
      }
    }

    lemma OrderedOne(stack: seq<Node>, x: Node, seen: set<Node>, n: Node, i: nat)
      requires Valid() && x in nodes && Ordered(stack + [x], seen) && n in seen + {x} && i < |stack + Kids(x)|
      ensures Before(n.key, (stack + Kids(x))[i].key)
    {
      hide LeftOf, Kids;
      var old_ := stack + [x];
      assert old_[|stack|] == x;
      if i < |stack| {
        assert old_[i] == stack[i];
      } else {
        KidsOrdered(x);
        if n in seen { LongerAfter(n.key, x.key, Kids(x)[i - |stack|].key); }
      }
    }

    ghost predicate InOrder(visited: seq<Node>) {
      forall i, j | 0 <= i < j < |visited| :: Before(visited[i].key, visited[j].key)
    }

    /** The stored ones among those seen, once and in order. */
    ghost predicate Visited(visited: seq<Node>, seen: set<Node>)
      reads this, nodes
    {
      && seen <= nodes
      && (forall n | n in seen && n.prefix.Some? :: n in visited)
      && (forall n | n in visited :: n in seen && n.prefix.Some?)
      && (forall i, j | 0 <= i < j < |visited| :: visited[i] != visited[j]) && InOrder(visited)
    }

    lemma VisitedNext(visited: seq<Node>, stack: seq<Node>, x: Node, seen: set<Node>)
      requires Visited(visited, seen) && Ordered(stack + [x], seen) && x in nodes && x !in seen
      ensures Visited(if x.prefix.Some? then visited + [x] else visited, seen + {x})
    {
      hide Before, LeftOf;
      assert (stack + [x])[|stack|] == x;
    }

    lemma WalkedOne(stack: seq<Node>, x: Node, seen: set<Node>, n: Node)
      requires Valid() && Frontier(stack + [x], seen) && x in nodes && n in nodes
      requires forall i | 0 <= i < |stack| :: stack[i] in nodes && !Above(stack[i], x)
      ensures n in seen + {x} <==> Clear(stack + Kids(x), n)
    {
      BelowKids(x, n);
      ClearSplit(stack, [x], n);
      ClearSplit(stack, Kids(x), n);
      ClearKids(x, n);
      assert Clear([x], n) <==> !Above(x, n) by { assert [x][0] == x; }
      if n == x { assert Clear(stack, x); }
    }

    lemma ClearSplit(a: seq<Node>, b: seq<Node>, n: Node)
      requires Valid() && n in nodes
      ensures Clear(a + b, n) <==> Clear(a, n) && Clear(b, n)
    {
      var c := a + b;
      if Clear(c, n) {
        forall i | 0 <= i < |a| ensures !Above(a[i], n) { assert c[i] == a[i]; }
        forall i | 0 <= i < |b| ensures !Above(b[i], n) { assert c[|a| + i] == b[i]; }
      }
    }

    lemma ClearKids(x: Node, n: Node)
      requires Valid() && n in nodes && x in nodes
      ensures Clear(Kids(x), n) <==> (x.l == null || !Above(x.l, n)) && (x.r == null || !Above(x.r, n))
    {
      var k := Kids(x);
      if x.r != null { assert k[0] == x.r; }
      if x.l != null { assert k[|k| - 1] == x.l; }
    }

    /** The stack of a walk: later entries hang deeper, all above x. */
    ghost predicate Deepening(stack: seq<Node>, x: Node)
      reads this, nodes
    {
      && (forall i | 0 <= i < |stack| ::
          stack[i] in nodes && stack[i].parent != null && i <= stack[i].parent.bit < stack[i].bit)
      && (forall i, j | 0 <= i < j < |stack| :: stack[i].parent.bit < stack[j].parent.bit)
      && (forall i | 0 <= i < |stack| :: stack[i].parent.bit < x.bit)
    }

    /** RADIX_WALK, as radix_process runs it: every stored prefix once and in order, on a stack of at most
        RADIX_MAXBITS. */
    method Walk() returns (visited: seq<Node>)
      requires Valid()
      ensures forall n :: n in visited <==> n in Stored()
      ensures forall i, j | 0 <= i < j < |visited| :: visited[i] != visited[j]
      ensures InOrder(visited)
    {
      hide NodeOk, Frontier, Above, Deepening, Kids, Bit, InOrder, Ordered, Bits, Visited;
      visited := [];
      assert Visited(visited, {}) by { NoneVisited(); }
      var stack: seq<Node> := [];
      var x := head;
      ghost var seen: set<Node> := {};
      if x != null {
        WalkStarts();
        assert stack + [x] == [x];
        Lengths(x);
        assert Deepening(stack, x) && Ordered([x], seen) by { NothingAside(x); }
      }
      while x != null
        invariant seen <= nodes && (x == null ==> seen == nodes) && Visited(visited, seen)
        invariant x != null ==>
                    Frontier(stack + [x], seen) && x in nodes && Deepening(stack, x) && |stack| <= x.bit <= MAXBITS
        invariant x != null ==> Ordered(stack + [x], seen)
        decreases nodes - seen, x != null
      {
        WalkOn(stack, x, seen);
        OrderOn(stack, x, seen);
        VisitedNext(visited, stack, x, seen);
        if x.prefix.Some? { visited := visited + [x]; }
        seen := seen + {x};
        stack, x := WalkTo(stack, x, seen);
      }
      AllVisited(visited);
    }

    lemma AllVisited(visited: seq<Node>)
      requires Visited(visited, nodes)
      ensures (forall n :: n in visited <==> n in Stored()) && InOrder(visited)
      ensures forall i, j | 0 <= i < j < |visited| :: visited[i] != visited[j]
    {
    }

    lemma NothingAside(x: Node)
      ensures Deepening([], x) && Ordered([x], {})
    {
    }

    lemma NoneVisited()
      ensures Visited([], {})
    {
    }

    lemma WalkStarts()
      requires Valid() && head != null
      ensures Frontier([head], {})
    {
      forall n | n in nodes ensures !Clear([head], n) { HeadAbove(n); assert [head][0] == head; }
    }

    lemma FrontierParts(pending: seq<Node>, seen: set<Node>)
      requires Valid() && Frontier(pending, seen)
      ensures forall i | 0 <= i < |pending| :: pending[i] in nodes
      ensures pending == [] ==> seen == nodes
    {
      if pending == [] { forall n | n in nodes ensures n in seen { assert Clear(pending, n); } }
    }

    lemma DeeperBy(stack: seq<Node>, x: Node, kid: Node)
      requires Valid() && Deepening(stack, x) && x.bit < kid.bit
      ensures Deepening(stack, kid)
    {
    }

    lemma Aside(stack: seq<Node>, x: Node, right: Node, left: Node)
      requires Valid() && Deepening(stack, x) && |stack| <= x.bit < left.bit && x.bit < right.bit && right.parent == x
               && right in nodes
      ensures Deepening(stack + [right], left)
    {
    }

    lemma Popped(stack: seq<Node>, x: Node)
      requires Valid() && Deepening(stack, x) && |stack| > 0
      ensures var n := |stack| - 1; Deepening(stack[..n], stack[n]) && n <= stack[n].bit
    {
    }

    /** The next node of a walk: the left child, with the right one set aside; or the right; or from the stack. */
    method WalkTo(stack: seq<Node>, x: Node, ghost seen: set<Node>) returns (rest: seq<Node>, next: Node?)
      requires Valid() && x in nodes && Deepening(stack, x) && |stack| <= x.bit <= MAXBITS
      requires Frontier(stack + Kids(x), seen)
      ensures next == null ==> seen == nodes
      ensures stack + Kids(x) == if next == null then [] else rest + [next]
      ensures next != null ==>
                Frontier(rest + [next], seen) && next in nodes && Deepening(rest, next) && |rest| <= next.bit <= MAXBITS
    {
      hide NodeOk, Frontier, Deepening;
      KidsOk(x);
      FrontierParts(stack + Kids(x), seen);
      rest := stack;
      if x.l != null {
        Lengths(x.l);
        if x.r != null {
          rest := stack + [x.r];
          Aside(stack, x, x.r, x.l);
        } else {
          DeeperBy(stack, x, x.l);
        }
        next := x.l;
        assert stack + Kids(x) == rest + [x.l];
      } else if x.r != null {
        Lengths(x.r);
        assert stack + Kids(x) == rest + [x.r];
        next := x.r;
        DeeperBy(stack, x, x.r);
      } else {
        assert stack + Kids(x) == stack;
        if |stack| > 0 {
          rest, next := stack[..|stack| - 1], stack[|stack| - 1];
          assert rest + [next] == stack;
          Lengths(next);
          Popped(stack, x);
        } else {
          next := null;
        }
      }
      assert |rest| <= MAXBITS + 1;
    }
  }

  /** The case that Best excludes exists: after one lookup, a shorter query of the same address finds that
      prefix, which does not cover it. */
  method ShortQuery(a: Addr) returns (t: Tree, best: Node?)
    ensures fresh(t) && t.Valid() && best != null && best.key == KeyOf(Prefix(a, 16))
    ensures !t.LongestCover(best, Prefix(a, 8))
  {
    hide Tree.NodeOk, Tree.Matching, Tree.EndsTheWay, Tree.LongestCover;
    t := new Tree();
    var n := t.Lookup(Prefix(a, 16));
    t.LongerMatch(n, a);
    var query := Prefix(a, 8);
    best := t.Best(query);
    assert t.Matching(n, query.addr) && t.EndsTheWay(n, query) && n.bit > query.bitlen;
  }
}
