/** The top-down splay tree, on linked nodes. */
module Splay {

  type Data = int

  class SNode {
    const data: Data
    var left: SNode?
    var right: SNode?

    constructor (data: Data)
      ensures this.data == data && left == null && right == null
    {
      this.data := data;
      left, right := null, null;
    }
  }

  /** What a linked tree stands for. */
  datatype Tree = Leaf | Branch(l: Tree, n: SNode, r: Tree)

  ghost function InOrder(t: Tree): seq<SNode> {
    match t
    case Leaf => []
    case Branch(l, n, r) => InOrder(l) + [n] + InOrder(r)
  }

  ghost function Elems(q: seq<SNode>): set<SNode> { set x | x in q }

  ghost function Objs(t: Tree): set<SNode> { Elems(InOrder(t)) }

  ghost predicate Rep(t: Tree, p: SNode?)
    reads Objs(t)
  {
    match t
    case Leaf => p == null
    case Branch(l, n, r) => p == n && Rep(l, n.left) && Rep(r, n.right)
  }

  ghost predicate Unique(q: seq<SNode>) { forall i, j | 0 <= i < j < |q| :: q[i] != q[j] }

  lemma Parts(a: seq<SNode>, b: seq<SNode>)
    requires Unique(a + b)
    ensures Unique(a) && Unique(b) && Elems(a) !! Elems(b) && Elems(a + b) == Elems(a) + Elems(b)
  {
    var c := a + b;
    forall i, j | 0 <= i < j < |a| ensures a[i] != a[j] { assert c[i] == a[i] && c[j] == a[j]; }
    forall i, j | 0 <= i < j < |b| ensures b[i] != b[j] { assert c[|a| + i] == b[i] && c[|a| + j] == b[j]; }
    forall i, j | 0 <= i < |a| && 0 <= j < |b| ensures a[i] != b[j] { assert c[i] == a[i] && c[|a| + j] == b[j]; }
  }

  /** The nodes of a tree without repetition: root and subtrees are apart. */
  lemma Apart(t: Tree)
    requires t.Branch? && Unique(InOrder(t))
    ensures Unique(InOrder(t.l)) && Unique(InOrder(t.r)) && t.n !in Objs(t.l) && t.n !in Objs(t.r)
            && Objs(t.l) !! Objs(t.r)
    ensures Objs(t) == Objs(t.l) + {t.n} + Objs(t.r)
  {
    Parts(InOrder(t.l) + [t.n], InOrder(t.r));
    Parts(InOrder(t.l), [t.n]);
    assert Elems([t.n]) == {t.n};
  }

  // ===== the two side trees: spines with a hole at the end =====

  datatype Rib = Rib(n: SNode, t: Tree)

  /** In order, a spine of right links: each node after its left subtree. */
  ghost function InLeft(s: seq<Rib>): seq<SNode> {
    if s == [] then [] else InLeft(s[..|s| - 1]) + InOrder(s[|s| - 1].t) + [s[|s| - 1].n]
  }

  /** In order, a spine of left links: each node before its right subtree. */
  ghost function InRight(s: seq<Rib>): seq<SNode> {
    if s == [] then [] else [s[|s| - 1].n] + (InOrder(s[|s| - 1].t) + InRight(s[..|s| - 1]))
  }

  /** The spine as a tree, with hole at its end. */
  ghost function LeftTree(s: seq<Rib>, hole: Tree): Tree {
    if s == [] then hole else LeftTree(s[..|s| - 1], Branch(s[|s| - 1].t, s[|s| - 1].n, hole))
  }

  ghost function RightTree(s: seq<Rib>, hole: Tree): Tree {
    if s == [] then hole else RightTree(s[..|s| - 1], Branch(hole, s[|s| - 1].n, s[|s| - 1].t))
  }

  lemma {:induction false} LeftTreeInOrder(s: seq<Rib>, hole: Tree)
    ensures InOrder(LeftTree(s, hole)) == InLeft(s) + InOrder(hole)
  {
    if s != [] {
      var last := s[|s| - 1];
      LeftTreeInOrder(s[..|s| - 1], Branch(last.t, last.n, hole));
      assert InLeft(s[..|s| - 1]) + (InOrder(last.t) + [last.n] + InOrder(hole)) == InLeft(s) + InOrder(hole);
    }
  }

  lemma Regroup(a: seq<SNode>, n: SNode, b: seq<SNode>, c: seq<SNode>)
    ensures a + [n] + b + c == a + ([n] + (b + c))
  {
  }

  lemma {:induction false} RightTreeInOrder(s: seq<Rib>, hole: Tree)
    ensures InOrder(RightTree(s, hole)) == InOrder(hole) + InRight(s)
  {
    if s != [] {
      var last := s[|s| - 1];
      RightTreeInOrder(s[..|s| - 1], Branch(hole, last.n, last.t));
      Regroup(InOrder(hole), last.n, InOrder(last.t), InRight(s[..|s| - 1]));
    }
  }

  ghost function LeftObjs(s: seq<Rib>): set<SNode> { Elems(InLeft(s)) }
  ghost function RightObjs(s: seq<Rib>): set<SNode> { Elems(InRight(s)) }

  /** The spine of right links from first on, with q in its hole. */
  ghost predicate HangsLeft(s: seq<Rib>, first: SNode?, q: SNode?)
    reads LeftObjs(s)
  {
    if s == [] then first == q
    else
      var last := s[|s| - 1];
      last.n.right == q && Rep(last.t, last.n.left) && HangsLeft(s[..|s| - 1], first, last.n)
  }

  ghost predicate HangsRight(s: seq<Rib>, first: SNode?, q: SNode?)
    reads RightObjs(s)
  {
    if s == [] then first == q
    else
      var last := s[|s| - 1];
      last.n.left == q && Rep(last.t, last.n.right) && HangsRight(s[..|s| - 1], first, last.n)
  }

  lemma {:induction false} CloseLeft(s: seq<Rib>, hole: Tree, first: SNode?, q: SNode?)
    requires HangsLeft(s, first, q) && Rep(hole, q)
    ensures Rep(LeftTree(s, hole), first)
  {
    if s != [] { CloseLeft(s[..|s| - 1], Branch(s[|s| - 1].t, s[|s| - 1].n, hole), first, s[|s| - 1].n); }
  }

  lemma {:induction false} CloseRight(s: seq<Rib>, hole: Tree, first: SNode?, q: SNode?)
    requires HangsRight(s, first, q) && Rep(hole, q)
    ensures Rep(RightTree(s, hole), first)
  {
    if s != [] { CloseRight(s[..|s| - 1], Branch(hole, s[|s| - 1].n, s[|s| - 1].t), first, s[|s| - 1].n); }
  }

  ghost function Tip(s: seq<Rib>, header: SNode): SNode { if s == [] then header else s[|s| - 1].n }

  /** The nodes in sight: what was split off to the left, the rest, what was split off to the right. */
  ghost predicate Split(all: seq<SNode>, ls: seq<Rib>, t: Tree, rs: seq<Rib>, header: SNode) {
    InLeft(ls) + InOrder(t) + InRight(rs) == all && Unique(all) && header !in all
  }

  lemma SplitApart(all: seq<SNode>, ls: seq<Rib>, t: Tree, rs: seq<Rib>, header: SNode)
    requires Split(all, ls, t, rs, header)
    ensures LeftObjs(ls) !! Objs(t) && LeftObjs(ls) !! RightObjs(rs) && Objs(t) !! RightObjs(rs)
    ensures header !in LeftObjs(ls) && header !in Objs(t) && header !in RightObjs(rs)
    ensures Unique(InLeft(ls)) && Unique(InOrder(t)) && Unique(InRight(rs))
    ensures Elems(all) == LeftObjs(ls) + Objs(t) + RightObjs(rs)
  {
    Parts(InLeft(ls) + InOrder(t), InRight(rs));
    Parts(InLeft(ls), InOrder(t));
    assert header !in Elems(all);
  }

  /** The last node of a spine is apart from the rest of it. */
  lemma TipApartLeft(s: seq<Rib>)
    requires s != [] && Unique(InLeft(s))
    ensures var last := s[|s| - 1];
            last.n !in Objs(last.t) && last.n !in LeftObjs(s[..|s| - 1]) && last.n in LeftObjs(s)
  {
    var last := s[|s| - 1];
    var rest := InLeft(s[..|s| - 1]) + InOrder(last.t);
    Parts(rest, [last.n]);
    Parts(InLeft(s[..|s| - 1]), InOrder(last.t));
    assert last.n in Elems([last.n]);
  }

  lemma TipApartRight(s: seq<Rib>)
    requires s != [] && Unique(InRight(s))
    ensures var last := s[|s| - 1];
            last.n !in Objs(last.t) && last.n !in RightObjs(s[..|s| - 1]) && last.n in RightObjs(s)
  {
    var last := s[|s| - 1];
    var rest := InOrder(last.t) + InRight(s[..|s| - 1]);
    Parts([last.n], rest);
    Parts(InOrder(last.t), InRight(s[..|s| - 1]));
    assert last.n in Elems([last.n]);
  }

  // ===== comparing =====

  /** A comparator that orders its arguments. */
  ghost predicate Consistent(cmp: (Data, Data) -> int) {
    && (forall a, b :: cmp(a, b) < 0 <==> cmp(b, a) > 0)
    && (forall a, b, c :: cmp(a, b) <= 0 && cmp(b, c) < 0 ==> cmp(a, c) < 0)
    && (forall a, b, c :: cmp(a, b) < 0 && cmp(b, c) <= 0 ==> cmp(a, c) < 0)
  }

  ghost predicate Ascending(q: seq<SNode>, cmp: (Data, Data) -> int) {
    forall i, j | 0 <= i < j < |q| :: cmp(q[i].data, q[j].data) < 0
  }

  ghost predicate AllBefore(q: seq<SNode>, data: Data, cmp: (Data, Data) -> int) {
    forall x | x in q :: cmp(data, x.data) > 0
  }
  ghost predicate AllAfter(q: seq<SNode>, data: Data, cmp: (Data, Data) -> int) {
    forall x | x in q :: cmp(data, x.data) < 0
  }

  // ===== what splaying does to a tree =====

  /** The tree splayed at the place of the data: two steps to one side turn the upper node under the lower one. */
  ghost function Splayed(t: Tree, data: Data, cmp: (Data, Data) -> int): (u: Tree)
    requires t.Branch?
    ensures u.Branch?
  {
    if cmp(data, t.n.data) < 0 && t.l.Branch? then
      if cmp(data, t.l.n.data) >= 0 then OntoRight(Splayed(t.l, data, cmp), t.n, t.r)
      else if t.l.l == Leaf then Branch(Leaf, t.l.n, Branch(t.l.r, t.n, t.r))
      else OntoRight(Splayed(t.l.l, data, cmp), t.l.n, Branch(t.l.r, t.n, t.r))
    else if cmp(data, t.n.data) > 0 && t.r.Branch? then
      if cmp(data, t.r.n.data) <= 0 then OntoLeft(Splayed(t.r, data, cmp), t.n, t.l)
      else if t.r.r == Leaf then Branch(Branch(t.l, t.n, t.r.l), t.r.n, Leaf)
      else OntoLeft(Splayed(t.r.r, data, cmp), t.r.n, Branch(t.l, t.n, t.r.l))
    else t
  }

  /** n and c join the right side of v. */
  ghost function OntoRight(v: Tree, n: SNode, c: Tree): Tree
    requires v.Branch?
  {
    Branch(v.l, v.n, Branch(v.r, n, c))
  }

  ghost function OntoLeft(v: Tree, n: SNode, c: Tree): Tree
    requires v.Branch?
  {
    Branch(Branch(c, n, v.l), v.n, v.r)
  }

  /** The nodes that a search for the data passes. */
  ghost function Path(t: Tree, data: Data, cmp: (Data, Data) -> int): nat {
    if t == Leaf then 0
    else if cmp(data, t.n.data) < 0 then 1 + Path(t.l, data, cmp)
    else if cmp(data, t.n.data) > 0 then 1 + Path(t.r, data, cmp)
    else 1
  }

  /** The tree with the node put in at the root, unless its data is there. */
  ghost function Inserted(t: Tree, node: SNode, cmp: (Data, Data) -> int): Tree {
    if t == Leaf then Branch(Leaf, node, Leaf)
    else
      var s := Splayed(t, node.data, cmp);
      if cmp(node.data, s.n.data) < 0 then Branch(s.l, node, Branch(Leaf, s.n, s.r))
      else if cmp(node.data, s.n.data) > 0 then Branch(Branch(s.l, s.n, Leaf), node, s.r)
      else s
  }

  // ===== one step =====

  lemma Root(t: Tree, p: SNode?)
    requires t.Branch? && Rep(t, p)
    ensures p == t.n && Rep(t.l, p.left) && Rep(t.r, p.right)
    ensures p.left == (if t.l == Leaf then null else t.l.n) && p.right == (if t.r == Leaf then null else t.r.n)
  {
  }

  lemma RotatedRight(a: Tree, y: SNode, b: Tree, x: SNode, c: Tree)
    ensures InOrder(Branch(Branch(a, y, b), x, c)) == InOrder(Branch(a, y, Branch(b, x, c)))
  {
    Regroup(InOrder(a) + [y], x, InOrder(b), InOrder(c));
    assert InOrder(a) + [y] + InOrder(b) + [x] + InOrder(c) == InOrder(a) + [y] + (InOrder(b) + [x] + InOrder(c));
  }

  /** Rotate right: the left child comes up. */
  method RotateRight(top: SNode, ghost t: Tree) returns (y: SNode, ghost u: Tree)
    requires t.Branch? && t.l.Branch? && Rep(t, top) && Unique(InOrder(t))
    modifies top, top.left
    ensures u == Branch(t.l.l, t.l.n, Branch(t.l.r, t.n, t.r)) && Rep(u, y) && InOrder(u) == InOrder(t)
    ensures y == old(top.left)
  {
    hide InOrder;
    Apart(t);
    Apart(t.l);
    u := Branch(t.l.l, t.l.n, Branch(t.l.r, t.n, t.r));
    assert Objs(t.l.l) !! {top, top.left} && Objs(t.l.r) !! {top, top.left} && Objs(t.r) !! {top, top.left};
    y := top.left;
    top.left := y.right;
    y.right := top;
    RotatedRight(t.l.l, t.l.n, t.l.r, t.n, t.r);
  }

  /** Rotate left: the right child comes up. */
  method RotateLeft(top: SNode, ghost t: Tree) returns (y: SNode, ghost u: Tree)
    requires t.Branch? && t.r.Branch? && Rep(t, top) && Unique(InOrder(t))
    modifies top, top.right
    ensures u == Branch(Branch(t.l, t.n, t.r.l), t.r.n, t.r.r) && Rep(u, y) && InOrder(u) == InOrder(t)
    ensures y == old(top.right)
  {
    hide InOrder;
    Apart(t);
    Apart(t.r);
    u := Branch(Branch(t.l, t.n, t.r.l), t.r.n, t.r.r);
    assert Objs(t.r.l) !! {top, top.right} && Objs(t.r.r) !! {top, top.right} && Objs(t.l) !! {top, top.right};
    y := top.right;
    top.right := y.left;
    y.left := top;
    RotatedRight(t.l, t.n, t.r.l, t.r.n, t.r.r);
  }

  /** The state of the loop. */
  ghost predicate Cut(all: seq<SNode>, ls: seq<Rib>, t: Tree, rs: seq<Rib>, header: SNode, l: SNode, r: SNode,
                      top: SNode)
    reads LeftObjs(ls), Objs(t), RightObjs(rs), header, l, r
  {
    && Split(all, ls, t, rs, header) && t.Branch? && Rep(t, top)
    && l == Tip(ls, header) && r == Tip(rs, header)
    && HangsLeft(ls, header.right, l.right) && HangsRight(rs, header.left, r.left)
  }

  lemma SplitRight(all: seq<SNode>, ls: seq<Rib>, t: Tree, rs: seq<Rib>, header: SNode)
    requires Split(all, ls, t, rs, header) && t.Branch?
    ensures Split(all, ls, t.l, rs + [Rib(t.n, t.r)], header)
  {
    var more := rs + [Rib(t.n, t.r)];
    assert more[..|rs|] == rs;
    Regroup(InLeft(ls) + InOrder(t.l), t.n, InOrder(t.r), InRight(rs));
    assert InLeft(ls) + InOrder(t) + InRight(rs) == InLeft(ls) + InOrder(t.l) + [t.n] + InOrder(t.r) + InRight(rs);
  }

  lemma SplitLeft(all: seq<SNode>, ls: seq<Rib>, t: Tree, rs: seq<Rib>, header: SNode)
    requires Split(all, ls, t, rs, header) && t.Branch?
    ensures Split(all, ls + [Rib(t.n, t.l)], t.r, rs, header)
  {
    var more := ls + [Rib(t.n, t.l)];
    assert more[..|ls|] == ls;
    assert InLeft(ls) + InOrder(t) + InRight(rs) == InLeft(ls) + InOrder(t.l) + [t.n] + InOrder(t.r) + InRight(rs);
  }

  /** Neither tip of a spine is in the tree between them. */
  lemma TipsApart(all: seq<SNode>, ls: seq<Rib>, t: Tree, rs: seq<Rib>, header: SNode)
    requires Split(all, ls, t, rs, header)
    ensures Tip(ls, header) !in Objs(t) && Tip(rs, header) !in Objs(t)
    ensures Tip(ls, header) !in RightObjs(rs) && Tip(rs, header) !in LeftObjs(ls)
  {
    SplitApart(all, ls, t, rs, header);
    if ls != [] { TipApartLeft(ls); }
    if rs != [] { TipApartRight(rs); }
  }

  /** A rotation changes nothing outside the tree. */
  method TurnRight(ghost all: seq<SNode>, ghost ls: seq<Rib>, ghost t: Tree, ghost rs: seq<Rib>, ghost header: SNode,
                   ghost l: SNode, ghost r: SNode, top: SNode) returns (y: SNode, ghost u: Tree)
    requires Cut(all, ls, t, rs, header, l, r, top) && t.l.Branch?
    modifies top, top.left
    ensures y == old(top.left) && u == Branch(t.l.l, t.l.n, Branch(t.l.r, t.n, t.r))
    ensures Cut(all, ls, u, rs, header, l, r, y) && |InOrder(u)| == |InOrder(t)|
  {
    hide InOrder;
    SplitApart(all, ls, t, rs, header);
    TipsApart(all, ls, t, rs, header);
    Root(t, top);
    Apart(t);
    Apart(t.l);
    assert forall o | o in Elems(all) :: o in all && allocated(o);
    y, u := RotateRight(top, t);
  }

  method TurnLeft(ghost all: seq<SNode>, ghost ls: seq<Rib>, ghost t: Tree, ghost rs: seq<Rib>, ghost header: SNode,
                  ghost l: SNode, ghost r: SNode, top: SNode) returns (y: SNode, ghost u: Tree)
    requires Cut(all, ls, t, rs, header, l, r, top) && t.r.Branch?
    modifies top, top.right
    ensures y == old(top.right) && u == Branch(Branch(t.l, t.n, t.r.l), t.r.n, t.r.r)
    ensures Cut(all, ls, u, rs, header, l, r, y) && |InOrder(u)| == |InOrder(t)|
  {
    hide InOrder;
    SplitApart(all, ls, t, rs, header);
    TipsApart(all, ls, t, rs, header);
    Root(t, top);
    Apart(t);
    Apart(t.r);
    assert forall o | o in Elems(all) :: o in all && allocated(o);
    y, u := RotateLeft(top, t);
  }

  /** Link right: top and what is right of it go to the right side. */
  method LinkRight(ghost all: seq<SNode>, ghost ls: seq<Rib>, ghost t: Tree, ghost rs: seq<Rib>, ghost header: SNode,
                   ghost l: SNode, r: SNode, top: SNode)
    requires Cut(all, ls, t, rs, header, l, r, top) && t.l.Branch?
    modifies r
    ensures top.left != null && Cut(all, ls, t.l, rs + [Rib(t.n, t.r)], header, l, top, top.left)
  {
    hide InOrder, Split;
    SplitApart(all, ls, t, rs, header);
    SplitRight(all, ls, t, rs, header);
    Apart(t);
    if rs != [] { TipApartRight(rs); }
    Root(t, top);
    r.left := top;
    assert HangsRight(rs, header.left, top);
    ghost var more := rs + [Rib(t.n, t.r)];
    assert more[..|rs|] == rs;
  }

  /** Link left: top and what is left of it go to the left side. */
  method LinkLeft(ghost all: seq<SNode>, ghost ls: seq<Rib>, ghost t: Tree, ghost rs: seq<Rib>, ghost header: SNode,
                  l: SNode, ghost r: SNode, top: SNode)
    requires Cut(all, ls, t, rs, header, l, r, top) && t.r.Branch?
    modifies l
    ensures top.right != null && Cut(all, ls + [Rib(t.n, t.l)], t.r, rs, header, top, r, top.right)
  {
    hide InOrder, Split;
    SplitApart(all, ls, t, rs, header);
    SplitLeft(all, ls, t, rs, header);
    Apart(t);
    if ls != [] { TipApartLeft(ls); }
    Root(t, top);
    l.right := top;
    assert HangsLeft(ls, header.right, top);
    ghost var more := ls + [Rib(t.n, t.l)];
    assert more[..|ls|] == ls;
  }

  // ===== the order of the parts =====

  /** The data belongs after the left side and before the right side. */
  ghost predicate Between(ls: seq<Rib>, rs: seq<Rib>, data: Data, cmp: (Data, Data) -> int) {
    AllBefore(InLeft(ls), data, cmp) && AllAfter(InRight(rs), data, cmp)
  }

  lemma AscendingParts(a: seq<SNode>, b: seq<SNode>, cmp: (Data, Data) -> int)
    requires Ascending(a + b, cmp)
    ensures Ascending(a, cmp) && Ascending(b, cmp)
    ensures forall x, y | x in a && y in b :: cmp(x.data, y.data) < 0
  {
    var c := a + b;
    forall i, j | 0 <= i < j < |a| ensures cmp(a[i].data, a[j].data) < 0 { assert c[i] == a[i] && c[j] == a[j]; }
    forall i, j | 0 <= i < j < |b|
      ensures cmp(b[i].data, b[j].data) < 0
    {
      assert c[|a| + i] == b[i] && c[|a| + j] == b[j];
    }
    forall i, j | 0 <= i < |a| && 0 <= j < |b|
      ensures cmp(a[i].data, b[j].data) < 0
    {
      assert c[i] == a[i] && c[|a| + j] == b[j];
    }
  }

  lemma Subtrees(all: seq<SNode>, ls: seq<Rib>, t: Tree, rs: seq<Rib>, header: SNode, cmp: (Data, Data) -> int)
    requires Split(all, ls, t, rs, header) && t.Branch? && Ascending(all, cmp)
    ensures forall x | x in InOrder(t.l) :: cmp(x.data, t.n.data) < 0
    ensures forall x | x in InOrder(t.r) :: cmp(t.n.data, x.data) < 0
  {
    AscendingParts(InLeft(ls) + InOrder(t), InRight(rs), cmp);
    AscendingParts(InLeft(ls), InOrder(t), cmp);
    AscendingParts(InOrder(t.l) + [t.n], InOrder(t.r), cmp);
    AscendingParts(InOrder(t.l), [t.n], cmp);
    assert t.n in [t.n];
    assert t.n in InOrder(t.l) + [t.n];
  }

  /** Data before the root is before all that goes right with it. */
  lemma GoesRight(ls: seq<Rib>, t: Tree, rs: seq<Rib>, data: Data, cmp: (Data, Data) -> int)
    requires Consistent(cmp) && t.Branch? && Between(ls, rs, data, cmp) && cmp(data, t.n.data) < 0
    requires forall x | x in InOrder(t.r) :: cmp(t.n.data, x.data) < 0
    ensures Between(ls, rs + [Rib(t.n, t.r)], data, cmp)
  {
    var more := rs + [Rib(t.n, t.r)];
    assert more[..|rs|] == rs;
    forall x | x in InRight(more) ensures cmp(data, x.data) < 0 {}
  }

  lemma GoesLeft(ls: seq<Rib>, t: Tree, rs: seq<Rib>, data: Data, cmp: (Data, Data) -> int)
    requires Consistent(cmp) && t.Branch? && Between(ls, rs, data, cmp) && cmp(data, t.n.data) > 0
    requires forall x | x in InOrder(t.l) :: cmp(x.data, t.n.data) < 0
    ensures Between(ls + [Rib(t.n, t.l)], rs, data, cmp)
  {
    var more := ls + [Rib(t.n, t.l)];
    assert more[..|ls|] == ls;
    forall x | x in InLeft(more) ensures cmp(data, x.data) > 0 {}
  }

  /** The loop is over: an equal key, or no child on the side where it would be. */
  predicate Ended(t: Tree, result: int) {
    t.Branch? && (result < 0 ==> t.l == Leaf) && (result > 0 ==> t.r == Leaf)
  }

  lemma InTree(t: Tree)
    requires t.Branch?
    ensures t.n in Objs(t) && (t.l.Branch? ==> t.l.n in Objs(t)) && (t.r.Branch? ==> t.r.n in Objs(t))
  {
    assert InOrder(t) == InOrder(t.l) + [t.n] + InOrder(t.r);
    assert t.l.Branch? ==> t.l.n in InOrder(t.l);
    assert t.r.Branch? ==> t.r.n in InOrder(t.r);
  }

  lemma Members(t: Tree)
    requires t.Branch?
    ensures Objs(t) == Elems(InOrder(t)) == Objs(t.l) + {t.n} + Objs(t.r)
  {
  }

  lemma Smaller(t: Tree)
    requires t.Branch?
    ensures |InOrder(t.l)| < |InOrder(t)| && |InOrder(t.r)| < |InOrder(t)|
  {
  }

  /** One turn of the loop when the data is before the root. */
  method GoLeft(data: Data, cmp: (Data, Data) -> int, result: int, ghost header: SNode, ghost l: SNode, r: SNode,
                top: SNode, ghost all: seq<SNode>, ghost ls: seq<Rib>, ghost t: Tree, ghost rs: seq<Rib>)
    returns (done: bool, last: int, r2: SNode, top2: SNode, ghost t2: Tree, ghost rs2: seq<Rib>, ghost asked: nat)
    requires Consistent(cmp) && Ascending(all, cmp) && Cut(all, ls, t, rs, header, l, r, top)
             && Between(ls, rs, data, cmp)
    requires result == cmp(data, top.data) < 0
    modifies Objs(t), r
    ensures Cut(all, ls, t2, rs2, header, l, r2, top2) && Between(ls, rs2, data, cmp)
    ensures if done then last == cmp(data, top2.data) && Ended(t2, last) else |InOrder(t2)| < |InOrder(t)|
    ensures r2 in Objs(t) + {r}
    ensures Whole(ls, Splayed(t2, data, cmp), rs2) == Whole(ls, Splayed(t, data, cmp), rs)
    ensures 1 + asked + (if done then 0 else 2 * Path(t2, data, cmp)) <= 2 * Path(t, data, cmp)
  {
    hide InOrder, Split, HangsLeft, HangsRight, Ascending, Between, Consistent, Whole, Splayed;
    done, last, r2, top2, t2, rs2, asked := false, result, r, top, t, rs, 0;
    SplayedLeft(t, data, cmp, ls, rs);
    Root(t, top);
    InTree(t);
    if top.left == null {
      done := true;
      return;
    }
    last, asked := cmp(data, top.left.data), 1;
    if last < 0 {
      top2, t2 := TurnRight(all, ls, t, rs, header, l, r, top);
      Root(t2, top2);
      if top2.left == null {
        done := true;
        return;
      }
    }
    Subtrees(all, ls, t2, rs, header, cmp);
    GoesRight(ls, t2, rs, data, cmp);
    Smaller(t2);
    LinkRight(all, ls, t2, rs, header, l, r, top2);
    rs2 := rs + [Rib(t2.n, t2.r)];
    r2 := top2;
    t2, top2 := t2.l, top2.left;
  }

  /** One turn of the loop when the data is after the root. */
  method GoRight(data: Data, cmp: (Data, Data) -> int, result: int, ghost header: SNode, l: SNode, ghost r: SNode,
                 top: SNode, ghost all: seq<SNode>, ghost ls: seq<Rib>, ghost t: Tree, ghost rs: seq<Rib>)
    returns (done: bool, last: int, l2: SNode, top2: SNode, ghost t2: Tree, ghost ls2: seq<Rib>, ghost asked: nat)
    requires Consistent(cmp) && Ascending(all, cmp) && Cut(all, ls, t, rs, header, l, r, top)
             && Between(ls, rs, data, cmp)
    requires result == cmp(data, top.data) > 0
    modifies Objs(t), l
    ensures Cut(all, ls2, t2, rs, header, l2, r, top2) && Between(ls2, rs, data, cmp)
    ensures if done then last == cmp(data, top2.data) && Ended(t2, last) else |InOrder(t2)| < |InOrder(t)|
    ensures l2 in Objs(t) + {l}
    ensures Whole(ls2, Splayed(t2, data, cmp), rs) == Whole(ls, Splayed(t, data, cmp), rs)
    ensures 1 + asked + (if done then 0 else 2 * Path(t2, data, cmp)) <= 2 * Path(t, data, cmp)
  {
    hide InOrder, Split, HangsLeft, HangsRight, Ascending, Between, Consistent, Whole, Splayed;
    done, last, l2, top2, t2, ls2, asked := false, result, l, top, t, ls, 0;
    SplayedRight(t, data, cmp, ls, rs);
    Root(t, top);
    InTree(t);
    if top.right == null {
      done := true;
      return;
    }
    last, asked := cmp(data, top.right.data), 1;
    if last > 0 {
      top2, t2 := TurnLeft(all, ls, t, rs, header, l, r, top);
      Root(t2, top2);
      if top2.right == null {
        done := true;
        return;
      }
    }
    Subtrees(all, ls, t2, rs, header, cmp);
    GoesLeft(ls, t2, rs, data, cmp);
    Smaller(t2);
    LinkLeft(all, ls, t2, rs, header, l, r, top2);
    ls2 := ls + [Rib(t2.n, t2.l)];
    l2 := top2;
    t2, top2 := t2.r, top2.right;
  }

  /** What one turn of the loop leaves to do. */
  lemma SplayedLeft(t: Tree, data: Data, cmp: (Data, Data) -> int, ls: seq<Rib>, rs: seq<Rib>)
    requires t.Branch? && cmp(data, t.n.data) < 0
    ensures t.l.Branch? && cmp(data, t.l.n.data) >= 0 ==>
              Whole(ls, Splayed(t.l, data, cmp), rs + [Rib(t.n, t.r)]) == Whole(ls, Splayed(t, data, cmp), rs)
    ensures t.l.Branch? && cmp(data, t.l.n.data) < 0 ==>
              var u := Branch(t.l.l, t.l.n, Branch(t.l.r, t.n, t.r));
              if t.l.l == Leaf then Splayed(u, data, cmp) == Splayed(t, data, cmp)
              else Whole(ls, Splayed(t.l.l, data, cmp), rs + [Rib(u.n, u.r)]) == Whole(ls, Splayed(t, data, cmp), rs)
  {
    hide RightTree;
    if t.l.Branch? {
      AddRight(rs, t.n, t.r, Splayed(t.l, data, cmp).r);
      if t.l.l.Branch? { AddRight(rs, t.l.n, Branch(t.l.r, t.n, t.r), Splayed(t.l.l, data, cmp).r); }
    }
  }

  lemma AddRight(rs: seq<Rib>, n: SNode, c: Tree, hole: Tree)
    ensures RightTree(rs + [Rib(n, c)], hole) == RightTree(rs, Branch(hole, n, c))
  {
    assert (rs + [Rib(n, c)])[..|rs|] == rs;
  }

  lemma SplayedRight(t: Tree, data: Data, cmp: (Data, Data) -> int, ls: seq<Rib>, rs: seq<Rib>)
    requires t.Branch? && cmp(data, t.n.data) > 0
    ensures t.r.Branch? && cmp(data, t.r.n.data) <= 0 ==>
              Whole(ls + [Rib(t.n, t.l)], Splayed(t.r, data, cmp), rs) == Whole(ls, Splayed(t, data, cmp), rs)
    ensures t.r.Branch? && cmp(data, t.r.n.data) > 0 ==>
              var u := Branch(Branch(t.l, t.n, t.r.l), t.r.n, t.r.r);
              if t.r.r == Leaf then Splayed(u, data, cmp) == Splayed(t, data, cmp)
              else Whole(ls + [Rib(u.n, u.l)], Splayed(t.r.r, data, cmp), rs) == Whole(ls, Splayed(t, data, cmp), rs)
  {
    hide LeftTree;
    if t.r.Branch? {
      AddLeft(ls, t.n, t.l, Splayed(t.r, data, cmp).l);
      if t.r.r.Branch? { AddLeft(ls, t.r.n, Branch(t.l, t.n, t.r.l), Splayed(t.r.r, data, cmp).l); }
    }
  }

  lemma AddLeft(ls: seq<Rib>, n: SNode, c: Tree, hole: Tree)
    ensures LeftTree(ls + [Rib(n, c)], hole) == LeftTree(ls, Branch(c, n, hole))
  {
    assert (ls + [Rib(n, c)])[..|ls|] == ls;
  }

  ghost function Whole(ls: seq<Rib>, t: Tree, rs: seq<Rib>): Tree
    requires t.Branch?
  {
    Branch(LeftTree(ls, t.l), t.n, RightTree(rs, t.r))
  }

  lemma WholeInOrder(all: seq<SNode>, ls: seq<Rib>, t: Tree, rs: seq<Rib>, header: SNode)
    requires Split(all, ls, t, rs, header) && t.Branch?
    ensures InOrder(Whole(ls, t, rs)) == all
    ensures InOrder(Whole(ls, t, rs).l) == InLeft(ls) + InOrder(t.l)
            && InOrder(Whole(ls, t, rs).r) == InOrder(t.r) + InRight(rs)
  {
    LeftTreeInOrder(ls, t.l);
    RightTreeInOrder(rs, t.r);
    Flatten(InLeft(ls), InOrder(t.l), t.n, InOrder(t.r), InRight(rs));
  }

  lemma Flatten(a: seq<SNode>, b: seq<SNode>, n: SNode, c: seq<SNode>, d: seq<SNode>)
    ensures a + (b + [n] + c) + d == (a + b) + [n] + (c + d)
  {
  }

  /** What is left of top and right of it fills the two holes. */
  method FillHoles(ghost all: seq<SNode>, ghost ls: seq<Rib>, ghost t: Tree, ghost rs: seq<Rib>, ghost header: SNode,
                   l: SNode, r: SNode, top: SNode)
    requires Cut(all, ls, t, rs, header, l, r, top)
    modifies l, r
    ensures HangsLeft(ls, header.right, top.left) && HangsRight(rs, header.left, top.right)
    ensures Rep(t.l, top.left) && Rep(t.r, top.right) && top == t.n
  {
    hide InOrder, Split;
    SplitApart(all, ls, t, rs, header);
    TipsApart(all, ls, t, rs, header);
    Apart(t);
    Root(t, top);
    if ls != [] { TipApartLeft(ls); }
    if rs != [] { TipApartRight(rs); }
    l.right := top.left;
    r.left := top.right;
  }

  /** The four writes that put the parts together under top. */
  method Assemble(ghost all: seq<SNode>, ghost ls: seq<Rib>, ghost t: Tree, ghost rs: seq<Rib>, header: SNode,
                  l: SNode, r: SNode, top: SNode)
    requires Cut(all, ls, t, rs, header, l, r, top)
    modifies l, r, top
    ensures Rep(Whole(ls, t, rs), top)
  {
    hide InOrder, Split, LeftTree, RightTree, HangsLeft, HangsRight;
    SplitApart(all, ls, t, rs, header);
    Apart(t);
    FillHoles(all, ls, t, rs, header, l, r, top);
    ghost var a, b := top.left, top.right;
    top.left := header.right;
    top.right := header.left;
    CloseLeft(ls, t.l, header.right, a);
    CloseRight(rs, t.r, header.left, b);
  }

  /** The loop of splay_splay, and the parts it ends with. */
  method SplayLoop(data: Data, start: SNode, cmp: (Data, Data) -> int, header: SNode, ghost s: Tree)
    returns (last: int, top: SNode, l: SNode, r: SNode, ghost ls: seq<Rib>, ghost t: Tree, ghost rs: seq<Rib>,
             ghost asked: nat)
    requires Consistent(cmp) && s.Branch? && Rep(s, start) && Unique(InOrder(s)) && Ascending(InOrder(s), cmp)
    requires header !in Objs(s) && header.left == null && header.right == null
    modifies Objs(s), header
    ensures Cut(InOrder(s), ls, t, rs, header, l, r, top) && Between(ls, rs, data, cmp)
    ensures last == cmp(data, top.data) && Ended(t, last)
    ensures l in Objs(s) + {header} && r in Objs(s) + {header}
    ensures Whole(ls, t, rs) == Splayed(s, data, cmp) && asked <= 2 * Path(s, data, cmp)
  {
    hide InOrder, Split, HangsLeft, HangsRight, Ascending, Between, Consistent, Whole;
    asked := 0;
    ghost var all := InOrder(s);
    l, r, top, ls, t, rs := header, header, start, [], s, [];
    assert Cut(all, ls, t, rs, header, l, r, top) && Between(ls, rs, data, cmp) by { Begin(s, header, data, cmp); }
    last := 0;
    var done := false;
    assert Whole(ls, Splayed(t, data, cmp), rs) == Splayed(s, data, cmp) by { NoSides(Splayed(s, data, cmp)); }
    while !done
      invariant Cut(all, ls, t, rs, header, l, r, top) && Between(ls, rs, data, cmp)
      invariant l in Objs(s) + {header} && r in Objs(s) + {header} && Objs(t) <= Objs(s)
      invariant done ==> last == cmp(data, top.data) && Ended(t, last)
      invariant Whole(ls, Splayed(t, data, cmp), rs) == Splayed(s, data, cmp)
      invariant asked + (if done then 0 else 2 * Path(t, data, cmp)) <= 2 * Path(s, data, cmp)
      decreases if done then 0 else 1 + |InOrder(t)|
    {
      ghost var more := 0;
      last, asked := cmp(data, top.data), asked + 1;
      if last < 0 {
        done, last, r, top, t, rs, more := GoLeft(data, cmp, last, header, l, r, top, all, ls, t, rs);
      } else if last > 0 {
        done, last, l, top, t, ls, more := GoRight(data, cmp, last, header, l, r, top, all, ls, t, rs);
      } else {
        done := true;
      }
      asked := asked + more;
      SplitApart(all, ls, t, rs, header);
    }
    assert Splayed(t, data, cmp) == t;
  }

  lemma NoSides(u: Tree)
    requires u.Branch?
    ensures Whole([], u, []) == u
  {
  }

  lemma Begin(s: Tree, header: SNode, data: Data, cmp: (Data, Data) -> int)
    requires Unique(InOrder(s)) && header !in Objs(s)
    ensures Split(InOrder(s), [], s, [], header) && Between([], [], data, cmp)
    ensures HangsLeft([], header.right, header.right) && HangsRight([], header.left, header.left)
  {
    assert [] + InOrder(s) + [] == InOrder(s);
  }

  /** Around the root: what is before the data on the left, what is after it on the right. */
  lemma Around(all: seq<SNode>, ls: seq<Rib>, t: Tree, rs: seq<Rib>, header: SNode, data: Data,
               cmp: (Data, Data) -> int, last: int)
    requires Split(all, ls, t, rs, header) && Ended(t, last) && last == cmp(data, t.n.data)
    requires Between(ls, rs, data, cmp) && Consistent(cmp) && Ascending(all, cmp)
    ensures AllBefore(InLeft(ls) + InOrder(t.l), data, cmp) && AllAfter(InOrder(t.r) + InRight(rs), data, cmp)
  {
    Subtrees(all, ls, t, rs, header, cmp);
    forall x | x in InOrder(t.l) ensures cmp(data, x.data) > 0 {}
    forall x | x in InOrder(t.r) ensures cmp(data, x.data) < 0 {}
  }

  lemma FoundAtRoot(u: Tree, data: Data, cmp: (Data, Data) -> int)
    requires u.Branch? && AllBefore(InOrder(u.l), data, cmp) && AllAfter(InOrder(u.r), data, cmp)
    ensures (exists x :: x in InOrder(u) && cmp(data, x.data) == 0) <==> cmp(data, u.n.data) == 0
  {
    assert u.n in InOrder(u);
  }

  /** splay_splay: the same nodes in the same order, with the data's place at the root, and the last
      comparison made is the one with the root. No node of the search path is compared more than twice. */
  method BringToRoot(data: Data, top: SNode?, cmp: (Data, Data) -> int, ghost t: Tree, ghost all: seq<SNode>)
    returns (root: SNode?, last: int, ghost u: Tree, ghost asked: nat)
    requires all == InOrder(t) && Consistent(cmp) && Rep(t, top) && Unique(all) && Ascending(all, cmp)
    modifies Objs(t)
    ensures Rep(u, root) && InOrder(u) == InOrder(t)
    ensures top == null ==> root == null && last == -1
    ensures top != null ==> root != null && u.Branch? && last == cmp(data, root.data)
    ensures u.Branch? ==> AllBefore(InOrder(u.l), data, cmp) && AllAfter(InOrder(u.r), data, cmp)
    ensures last == 0 <==> exists x :: x in InOrder(t) && cmp(data, x.data) == 0
    ensures u == (if t == Leaf then Leaf else Splayed(t, data, cmp)) && asked <= 2 * Path(t, data, cmp)
  {
    if top == null {
      root, last, u, asked := null, -1, Leaf, 0;
      return;
    }
    hide InOrder, Split, Ascending, Between, Consistent, AllBefore, AllAfter, LeftTree, RightTree, Splayed, Path;
    assert forall o | o in Objs(t) :: o in all && allocated(o);
    var header := new SNode(0);
    var r0, l, r;
    ghost var ls, v, rs;
    last, r0, l, r, ls, v, rs, asked := SplayLoop(data, top, cmp, header, t);
    Around(InOrder(t), ls, v, rs, header, data, cmp, last);
    WholeInOrder(InOrder(t), ls, v, rs, header);
    SplitApart(InOrder(t), ls, v, rs, header);
    Root(v, r0);
    InTree(v);
    Assemble(InOrder(t), ls, v, rs, header, l, r, r0);
    root, u := r0, Whole(ls, v, rs);
    FoundAtRoot(u, data, cmp);
  }

  /** after is before with one node put in. */
  ghost predicate OneMore(before: seq<SNode>, node: SNode, after: seq<SNode>) {
    exists k :: 0 <= k <= |before| && after == before[..k] + [node] + before[k..]
  }

  /** The new node on top, the old root to its right. */
  method PutBefore(node: SNode, at: SNode, ghost s: Tree)
    requires s.Branch? && Rep(s, at) && Unique(InOrder(s)) && node !in Objs(s)
    modifies node, at
    ensures Rep(Branch(s.l, node, Branch(Leaf, s.n, s.r)), node)
  {
    hide InOrder;
    Root(s, at);
    Apart(s);
    node.left := at.left;
    node.right := at;
    at.left := null;
    assert Rep(Branch(Leaf, s.n, s.r), at);
  }

  /** The new node on top, the old root to its left. */
  method PutAfter(node: SNode, at: SNode, ghost s: Tree)
    requires s.Branch? && Rep(s, at) && Unique(InOrder(s)) && node !in Objs(s)
    modifies node, at
    ensures Rep(Branch(Branch(s.l, s.n, Leaf), node, s.r), node)
  {
    hide InOrder;
    Root(s, at);
    Apart(s);
    node.right := at.right;
    node.left := at;
    at.right := null;
    assert Rep(Branch(s.l, s.n, Leaf), at);
  }

  lemma Lone(node: SNode)
    requires node.left == null && node.right == null
    ensures Rep(Branch(Leaf, node, Leaf), node)
  {
  }

  lemma NoTree(t: Tree, top: SNode?)
    requires Rep(t, top)
    ensures top == null <==> t == Leaf
  {
  }

  /** splay_insert: adds one node in order, or nothing when the data is there already. */
  method Insert(data: Data, top: SNode?, cmp: (Data, Data) -> int, ghost t: Tree, ghost all: seq<SNode>)
    returns (root: SNode, ghost u: Tree, ghost node: SNode, ghost asked: nat)
    requires all == InOrder(t) && Consistent(cmp) && Rep(t, top) && Unique(all) && Ascending(all, cmp)
    modifies Objs(t)
    ensures Rep(u, root) && Unique(InOrder(u)) && Ascending(InOrder(u), cmp)
    ensures (exists x :: x in InOrder(t) && cmp(data, x.data) == 0) ==> InOrder(u) == InOrder(t)
    ensures (forall x | x in InOrder(t) :: cmp(data, x.data) != 0) ==>
              fresh(root) && root.data == data && OneMore(InOrder(t), root, InOrder(u))
    ensures u == Inserted(t, node, cmp) && node.data == data && asked <= 2 * Path(t, data, cmp)
  {
    hide Splayed, Path, InOrder, Ascending, Consistent, AllBefore, AllAfter, OneMore, Unique, Rep;
    assert forall o | o in Objs(t) :: o in all && allocated(o);
    NoTree(t, top);
    var made := new SNode(data);
    node := made;
    var at, last;
    ghost var s;
    at, last, s, asked := BringToRoot(data, top, cmp, t, all);
    assert node !in Elems(all);
    if at == null {
      root, u := made, Branch(Leaf, node, Leaf);
      Alone(node, cmp);
      Lone(node);
      return;
    }
    assert node !in Objs(s) && at in Objs(s) by { Root(s, at); InTree(s); }
    Root(s, at);
    if last < 0 {
      PutBefore(made, at, s);
      root, u := made, Branch(s.l, node, Branch(Leaf, s.n, s.r));
      InsertedBefore(s, node, cmp);
    } else if last > 0 {
      PutAfter(made, at, s);
      root, u := made, Branch(Branch(s.l, s.n, Leaf), node, s.r);
      InsertedAfter(s, node, cmp);
    } else {
      root, u := at, s;
    }
  }

  lemma Alone(node: SNode, cmp: (Data, Data) -> int)
    ensures InOrder(Leaf) == [] && InOrder(Branch(Leaf, node, Leaf)) == [node] && Ascending([node], cmp)
    ensures Unique([node]) && OneMore([], node, [node])
  {
    assert [node] == [][..0] + [node] + [][0..];
  }

  lemma InsertedBefore(s: Tree, node: SNode, cmp: (Data, Data) -> int)
    requires s.Branch? && Unique(InOrder(s)) && Ascending(InOrder(s), cmp) && node !in InOrder(s) && Consistent(cmp)
    requires cmp(node.data, s.n.data) < 0 && AllBefore(InOrder(s.l), node.data, cmp)
             && AllAfter(InOrder(s.r), node.data, cmp)
    ensures var u := Branch(s.l, node, Branch(Leaf, s.n, s.r));
            OneMore(InOrder(s), node, InOrder(u)) && Unique(InOrder(u)) && Ascending(InOrder(u), cmp)
  {
    hide Unique, Ascending, OneMore, Consistent;
    var a, b := InOrder(s.l), [s.n] + InOrder(s.r);
    assert InOrder(s) == a + b;
    assert InOrder(Branch(Leaf, s.n, s.r)) == b;
    Middle(a, node, b, cmp);
    assert InOrder(Branch(s.l, node, Branch(Leaf, s.n, s.r))) == a + [node] + b;
  }

  lemma InsertedAfter(s: Tree, node: SNode, cmp: (Data, Data) -> int)
    requires s.Branch? && Unique(InOrder(s)) && Ascending(InOrder(s), cmp) && node !in InOrder(s) && Consistent(cmp)
    requires cmp(node.data, s.n.data) > 0 && AllBefore(InOrder(s.l), node.data, cmp)
             && AllAfter(InOrder(s.r), node.data, cmp)
    ensures var u := Branch(Branch(s.l, s.n, Leaf), node, s.r);
            OneMore(InOrder(s), node, InOrder(u)) && Unique(InOrder(u)) && Ascending(InOrder(u), cmp)
  {
    hide Consistent;
    var a, b := InOrder(s.l) + [s.n], InOrder(s.r);
    assert InOrder(s) == a + b;
    assert InOrder(Branch(s.l, s.n, Leaf)) == a;
    Middle(a, node, b, cmp);
  }

  lemma Middle(a: seq<SNode>, node: SNode, b: seq<SNode>, cmp: (Data, Data) -> int)
    requires Unique(a + b) && Ascending(a + b, cmp) && node !in a + b && Consistent(cmp)
    requires AllBefore(a, node.data, cmp) && AllAfter(b, node.data, cmp)
    ensures OneMore(a + b, node, a + [node] + b) && Unique(a + [node] + b) && Ascending(a + [node] + b, cmp)
  {
    hide Consistent, AllBefore, AllAfter, OneMore;
    Parts(a, b);
    AscendingParts(a, b, cmp);
    PutIn(a, node, b);
    var c := a + [node] + b;
    forall i, j | 0 <= i < j < |c|
      ensures c[i] != c[j] && cmp(c[i].data, c[j].data) < 0
    {
      MiddlePair(a, node, b, cmp, i, j);
    }
  }

  lemma PutIn(a: seq<SNode>, node: SNode, b: seq<SNode>)
    ensures OneMore(a + b, node, a + [node] + b)
  {
    assert (a + b)[..|a|] == a && (a + b)[|a|..] == b;
  }

  lemma MiddlePair(a: seq<SNode>, node: SNode, b: seq<SNode>, cmp: (Data, Data) -> int, i: nat, j: nat)
    requires i < j < |a| + 1 + |b| && Unique(a) && Unique(b) && Elems(a) !! Elems(b) && node !in a && node !in b
    requires Ascending(a, cmp) && Ascending(b, cmp) && (forall x, y | x in a && y in b :: cmp(x.data, y.data) < 0)
             && Consistent(cmp)
    requires AllBefore(a, node.data, cmp) && AllAfter(b, node.data, cmp)
    ensures var c := a + [node] + b; c[i] != c[j] && cmp(c[i].data, c[j].data) < 0
  {
    var c := a + [node] + b;
    if i < |a| { assert c[i] == a[i] && a[i] in Elems(a); } else if i > |a| { assert c[i] == b[i - |a| - 1]; }
    if j < |a| { assert c[j] == a[j]; } else if j > |a| { assert c[j] == b[j - |a| - 1] && c[j] in Elems(b); }
  }

  /** splay_walk: every node in order. */
  method Walk(top: SNode, ghost t: Tree, ghost all: seq<SNode>) returns (visited: seq<Data>)
    requires t.Branch? && Rep(t, top) && all == InOrder(t)
    ensures |visited| == |all| && forall i | 0 <= i < |all| :: visited[i] == all[i].data
    decreases t
  {
    Root(t, top);
    Members(t);
    assert forall o | o in all :: allocated(o);
    visited := [];
    if top.left != null { visited := Walk(top.left, t.l, InOrder(t.l)); }
    visited := visited + [top.data];
    if top.right != null {
      var more := Walk(top.right, t.r, InOrder(t.r));
      visited := visited + more;
    }
  }
}
