/** What splaying costs: the length of the search paths over a whole run, in powers of two. */
module SplayCost {
  import opened Splay

  // ===== the potential =====

  /** One more than the number of nodes. */
  ghost function Size(t: Tree): (s: nat)
    ensures s >= 1 && (t.Branch? ==> s >= 2)
  {
    if t == Leaf then 1 else Size(t.l) + Size(t.r)
  }

  /** The product of the sizes of all subtrees: large for a long tree, small for a balanced one. */
  ghost function Potential(t: Tree): (p: nat)
    ensures p >= 1
  {
    if t == Leaf then 1
    else
      MoreThanNone(Potential(t.l), Potential(t.r));
      MoreThanNone(Size(t), Potential(t.l) * Potential(t.r));
      Size(t) * (Potential(t.l) * Potential(t.r))
  }

  lemma MoreThanNone(a: nat, b: nat)
    requires a >= 1 && b >= 1
    ensures a * b >= 1
  {
  }

  function Pow2(k: nat): (p: nat)
    ensures p >= 1
  {
    if k == 0 then 1 else 2 * Pow2(k - 1)
  }

  lemma OntoSize(v: Tree, n: SNode, c: Tree)
    requires v.Branch?
    ensures Size(OntoRight(v, n, c)) == Size(OntoLeft(v, n, c)) == Size(v) + Size(c)
  {
    assert Size(Branch(v.r, n, c)) == Size(v.r) + Size(c) && Size(Branch(c, n, v.l)) == Size(c) + Size(v.l);
  }

  /** Splaying keeps the number of nodes. */
  lemma {:induction false} SameSize(t: Tree, data: Data, cmp: (Data, Data) -> int)
    requires t.Branch?
    ensures Size(Splayed(t, data, cmp)) == Size(t)
  {
    hide OntoRight, OntoLeft;
    if cmp(data, t.n.data) < 0 && t.l.Branch? {
      if cmp(data, t.l.n.data) >= 0 {
        SameSize(t.l, data, cmp);
        OntoSize(Splayed(t.l, data, cmp), t.n, t.r);
      } else if t.l.l.Branch? {
        SameSize(t.l.l, data, cmp);
        OntoSize(Splayed(t.l.l, data, cmp), t.l.n, Branch(t.l.r, t.n, t.r));
      }
    } else if cmp(data, t.n.data) > 0 && t.r.Branch? {
      if cmp(data, t.r.n.data) <= 0 {
        SameSize(t.r, data, cmp);
        OntoSize(Splayed(t.r, data, cmp), t.n, t.l);
      } else if t.r.r.Branch? {
        SameSize(t.r.r, data, cmp);
        OntoSize(Splayed(t.r.r, data, cmp), t.r.n, Branch(t.l, t.n, t.r.l));
      }
    }
  }

  // ===== products =====

  lemma Times(a: nat, b: nat, c: nat, d: nat)
    requires a <= b && c <= d
    ensures a * c <= b * d
  {
    assert a * c <= b * c;
    assert b * c <= b * d;
  }

  /** The two parts of a sum: at best half of it each. */
  lemma Halves(p: nat, q: nat, s: nat)
    requires p + q <= s
    ensures 4 * (p * q) <= s * s
  {
    Square(p, q);
    Times(p + q, s, p + q, s);
  }

  lemma Square(p: int, q: int)
    ensures 4 * (p * q) <= (p + q) * (p + q)
  {
    assert (p + q) * (p + q) - 4 * (p * q) == (p - q) * (p - q) >= 0;
  }

  /** A bound x <= q * q * a, with more on both sides. */
  lemma Scaled(x: nat, q: nat, a: nat, m: nat, n: nat, d: nat)
    requires x <= q * q * a && q * q * m <= n
    ensures x * m * d <= n * a * d
  {
    Times(x, q * q * a, m, m);
    Times(q * q * m, n, a, a);
    assert q * q * a * m == q * q * m * a;
    Times(x * m, n * a, d, d);
  }

  // ===== the sizes before and after =====

  ghost predicate Fits4(q: nat, v: nat, w: nat, s: nat, g: nat) { q * q * (4 * (v * w)) <= s * s * s * g }

  ghost predicate Fits8(q: nat, v: nat, w: nat, d: nat, s: nat, g: nat, h: nat) {
    q * q * (8 * (v * w * d)) <= s * s * s * (g * h)
  }

  /** Two steps to one side, then on below a. */
  lemma SizesZigZig(a: nat, v: nat, w: nat, g: nat, s: nat)
    requires a + w == s && v <= s && a <= g
    ensures Fits4(a, v, w, s, g)
  {
    Halves(a, w, s);
    Times(a, g, v, s);
    BothZigZig(a, v, w, g, s);
  }

  lemma BothZigZig(a: nat, v: nat, w: nat, g: nat, s: nat)
    requires 4 * (a * w) <= s * s && a * v <= g * s
    ensures Fits4(a, v, w, s, g)
  {
    Times(4 * (a * w), s * s, a * v, g * s);
    Regroup4(a, v, w);
    Regroup3(s, g);
  }

  lemma Regroup4(a: nat, v: nat, w: nat)
    ensures 4 * (a * w) * (a * v) == a * a * (4 * (v * w))
  {
  }

  lemma Regroup3(s: nat, g: nat)
    ensures s * s * (g * s) == s * s * s * g
  {
  }

  /** A step to each side, then on below b. */
  lemma SizesZigZag(b: nat, p: nat, q: nat, s: nat, g: nat)
    requires p + q == s && b <= s && b <= g
    ensures Fits4(b, p, q, s, g)
  {
    Halves(p, q, s);
    Times(b, g, b, s);
    BothZigZag(b, p, q, s, g);
  }

  lemma BothZigZag(b: nat, p: nat, q: nat, s: nat, g: nat)
    requires 4 * (p * q) <= s * s && b * b <= g * s
    ensures Fits4(b, p, q, s, g)
  {
    Times(4 * (p * q), s * s, b * b, g * s);
    Regroup3(s, g);
  }

  /** A step to one side and two to the other, then on below e. */
  lemma SizesZigZagZig(e: nat, p: nat, q: nat, d: nat, s: nat, g: nat, h: nat)
    requires p + q == s && g == d + e && g <= s && e <= h
    ensures Fits8(e, p, q, d, s, g, h)
  {
    Halves(p, q, s);
    SizesBelow(e, d, g, h, s);
    SizesBoth(e, p * q, d, s, g, h);
  }

  lemma SizesBelow(e: nat, d: nat, g: nat, h: nat, s: nat)
    requires g == d + e && g <= s && e <= h
    ensures 2 * (d * e) * e <= g * s * h
  {
    Halves(d, e, g);
    Times(g, g, g, s);
    Times(2 * (d * e), g * s, e, h);
  }

  lemma SizesBoth(e: nat, pq: nat, d: nat, s: nat, g: nat, h: nat)
    requires 4 * pq <= s * s && 2 * (d * e) * e <= g * s * h
    ensures e * e * (8 * (pq * d)) <= s * s * s * (g * h)
  {
    Times(4 * pq, s * s, 2 * (d * e) * e, g * s * h);
    Regroup8(e, pq, d);
    Regroup5(s, g, h);
  }

  lemma Regroup8(e: nat, pq: nat, d: nat)
    ensures 4 * pq * (2 * (d * e) * e) == e * e * (8 * (pq * d))
  {
  }

  lemma Regroup5(s: nat, g: nat, h: nat)
    ensures s * s * (g * s * h) == s * s * s * (g * h)
  {
  }

  // ===== the potentials before and after =====

  /** The potential p of a tree of size s over subtrees with l and r. */
  ghost predicate Product(p: nat, s: nat, l: nat, r: nat) { p == s * (l * r) }

  ghost predicate Bound(k: nat, l: nat, r: nat, s: nat, p: nat) { k * (l * r) <= s * s * p }

  /** The potential of a branch, from either side. */
  lemma PotentialOf(t: Tree)
    requires t.Branch?
    ensures Product(Potential(t), Size(t), Potential(t.l), Potential(t.r))
    ensures Product(Potential(t), Size(t), Potential(t.r), Potential(t.l))
  {
  }

  lemma OtherWay(k: nat, l: nat, r: nat, s: nat, p: nat)
    requires Bound(k, l, r, s, p)
    ensures Bound(k, r, l, s, p)
  {
  }

  /** From a part with a and sa, split into l and r, to a whole with t and s: w, then v over r, come up. */
  lemma CostZigZig(k: nat, l: nat, r: nat, a: nat, sa: nat, b: nat, c: nat, pw: nat, w: nat, pv: nat, v: nat, pg: nat,
                   g: nat, t: nat, s: nat)
    requires Bound(k, l, r, sa, a) && Fits4(sa, v, w, s, g)
    requires Product(pw, w, b, c) && Product(pv, v, r, pw) && Product(pg, g, a, b) && Product(t, s, pg, c)
    ensures Bound(4 * k, l, pv, s, t)
  {
    Scaled(k * (l * r), sa, a, 4 * (v * w), s * s * s * g, b * c);
    AfterZigZig(k, l, r, v, w, b * c);
    BeforeZigZig(s, g, a, b, c);
  }

  lemma AfterZigZig(k: nat, l: nat, r: nat, v: nat, w: nat, bc: nat)
    ensures 4 * k * (l * (v * (r * (w * bc)))) == k * (l * r) * (4 * (v * w)) * bc
  {
  }

  lemma BeforeZigZig(s: nat, g: nat, a: nat, b: nat, c: nat)
    ensures s * s * (s * (g * (a * b) * c)) == s * s * s * g * a * (b * c)
  {
  }

  /** The same, with v over a and l, and w over r and c. */
  lemma CostZigZag(k: nat, l: nat, r: nat, b: nat, sb: nat, a: nat, c: nat, pv: nat, v: nat, pw: nat, w: nat, pg: nat,
                   g: nat, t: nat, s: nat)
    requires Bound(k, l, r, sb, b) && Fits4(sb, v, w, s, g)
    requires Product(pv, v, a, l) && Product(pw, w, r, c) && Product(pg, g, a, b) && Product(t, s, pg, c)
    ensures Bound(4 * k, pv, pw, s, t)
  {
    Scaled(k * (l * r), sb, b, 4 * (v * w), s * s * s * g, a * c);
    AfterZigZag(k, l, r, v, w, a, c);
    BeforeZigZag(s, g, a, b, c);
  }

  lemma AfterZigZag(k: nat, l: nat, r: nat, v: nat, w: nat, a: nat, c: nat)
    ensures 4 * k * (v * (a * l) * (w * (r * c))) == k * (l * r) * (4 * (v * w)) * (a * c)
  {
  }

  lemma BeforeZigZag(s: nat, g: nat, a: nat, b: nat, c: nat)
    ensures s * s * (s * (g * (a * b) * c)) == s * s * s * g * b * (a * c)
  {
  }

  /** The same, with d over a and d', then v over it and l, and w over r and c. */
  lemma CostZigZagZig(k: nat, l: nat, r: nat, e: nat, se: nat, a: nat, b: nat, c: nat, pd: nat, d: nat, pv: nat, v: nat,
                      pw: nat, w: nat, ph: nat, h: nat, pg: nat, g: nat, t: nat, s: nat)
    requires Bound(k, l, r, se, e) && Fits8(se, v, w, d, s, g, h)
    requires Product(pd, d, a, b) && Product(pv, v, pd, l) && Product(pw, w, r, c)
    requires Product(ph, h, b, e) && Product(pg, g, a, ph) && Product(t, s, pg, c)
    ensures Bound(8 * k, pv, pw, s, t)
  {
    Scaled(k * (l * r), se, e, 8 * (v * w * d), s * s * s * (g * h), a * b * c);
    AfterZigZagZig(k, l, r, v, w, d, a, b, c);
    BeforeZigZagZig(s, g, h, a, b, c, e);
  }

  lemma AfterZigZagZig(k: nat, l: nat, r: nat, v: nat, w: nat, d: nat, a: nat, b: nat, c: nat)
    ensures 8 * k * (v * (d * (a * b) * l) * (w * (r * c))) == k * (l * r) * (8 * (v * w * d)) * (a * b * c)
  {
  }

  lemma BeforeZigZagZig(s: nat, g: nat, h: nat, a: nat, b: nat, c: nat, e: nat)
    ensures s * s * (s * (g * (a * (h * (b * e))) * c)) == s * s * s * (g * h) * e * (a * b * c)
  {
  }

  /** At the end of the path there is little to pay. */
  lemma CostHere(l: nat, r: nat, t: nat, s: nat)
    requires Product(t, s, l, r) && s >= 2
    ensures Bound(2, l, r, s, t)
  {
    Times(1, s, 1, s);
    Times(1, s * s, 2, s);
    Times(2, s * s * s, l * r, l * r);
    assert s * s * s * (l * r) == s * s * (s * (l * r));
  }

  lemma CostStep(a: nat, b: nat, c: nat, pw: nat, w: nat, pg: nat, g: nat, t: nat, s: nat)
    requires Product(pw, w, b, c) && Product(pg, g, a, b) && Product(t, s, pg, c) && w <= s && s >= 2 && g >= 1
    ensures Bound(4, a, pw, s, t)
  {
    SizesStep(w, s, g);
    Times(4 * w, s * s * s * g, a * (b * c), a * (b * c));
    AfterStep(a, b * c, w);
    BeforeStep(s, g, a, b, c);
  }

  lemma SizesStep(w: nat, s: nat, g: nat)
    requires w <= s && s >= 2 && g >= 1
    ensures 4 * w <= s * s * s * g
  {
    Times(2, s, 2, s);
    Times(4, s * s, w, s);
    Times(4 * w, s * s * s, 1, g);
  }

  lemma AfterStep(a: nat, bc: nat, w: nat)
    ensures 4 * w * (a * bc) == 4 * (a * (w * bc))
  {
  }

  lemma BeforeStep(s: nat, g: nat, a: nat, b: nat, c: nat)
    ensures s * s * s * g * (a * (b * c)) == s * s * (s * (g * (a * b) * c))
  {
  }

  lemma CostSteps(a: nat, b: nat, c: nat, pd: nat, d: nat, pw: nat, w: nat, ph: nat, h: nat, pg: nat, g: nat, t: nat,
                  s: nat)
    requires Product(pd, d, a, b) && Product(pw, w, 1, c) && Product(ph, h, b, 1) && Product(pg, g, a, ph)
             && Product(t, s, pg, c)
    requires d + w == s && s >= 2 && g >= 1 && h >= 1
    ensures Bound(8, pd, pw, s, t)
  {
    SizesSteps(d, w, s, g, h);
    Times(8 * (d * w), s * s * s * (g * h), a * b * c, a * b * c);
    AfterSteps(a, b, c, d, w);
    BeforeSteps(s, g, h, a, b, c);
  }

  lemma SizesSteps(d: nat, w: nat, s: nat, g: nat, h: nat)
    requires d + w == s && s >= 2 && g >= 1 && h >= 1
    ensures 8 * (d * w) <= s * s * s * (g * h)
  {
    Halves(d, w, s);
    Times(4 * (d * w), s * s, 2, s);
    MoreThanNone(g, h);
    Times(s * s * s, s * s * s, 1, g * h);
  }

  lemma AfterSteps(a: nat, b: nat, c: nat, d: nat, w: nat)
    ensures 8 * (d * w) * (a * b * c) == 8 * (d * (a * b) * (w * (1 * c)))
  {
  }

  lemma BeforeSteps(s: nat, g: nat, h: nat, a: nat, b: nat, c: nat)
    ensures s * s * s * (g * h) * (a * b * c) == s * s * (s * (g * (a * (h * (b * 1))) * c))
  {
  }

  // ===== one search =====

  /** The search path is paid for by the size of the tree and by what the potential below the root loses. */
  ghost predicate Paid(t: Tree, u: Tree, path: nat)
    requires u.Branch?
  {
    Bound(Pow2(path), Potential(u.l), Potential(u.r), Size(t), Potential(t))
  }

  lemma Powers(path: nat)
    ensures Pow2(path + 2) == 4 * Pow2(path) && Pow2(path + 3) == 8 * Pow2(path)
  {
    assert Pow2(path + 3) == 2 * Pow2(path + 2) == 4 * Pow2(path + 1);
  }

  lemma ZigZigLeft(a: Tree, y: SNode, b: Tree, x: SNode, c: Tree, v: Tree, path: nat)
    requires v.Branch? && Size(v) == Size(a) && Paid(a, v, path)
    ensures Paid(Branch(Branch(a, y, b), x, c), OntoRight(v, y, Branch(b, x, c)), path + 2)
  {
    hide Potential, Bound, Product, Fits4, Pow2;
    Powers(path);
    var w, g := Branch(b, x, c), Branch(a, y, b);
    var t, r := Branch(g, x, c), Branch(v.r, y, w);
    PotentialOf(w);
    PotentialOf(g);
    PotentialOf(t);
    PotentialOf(r);
    SizesZigZig(Size(a), Size(r), Size(w), Size(g), Size(t));
    CostZigZig(Pow2(path), Potential(v.l), Potential(v.r), Potential(a), Size(a), Potential(b), Potential(c),
               Potential(w), Size(w), Potential(r), Size(r), Potential(g), Size(g), Potential(t), Size(t));
    assert OntoRight(v, y, w) == Branch(v.l, v.n, r);
  }

  lemma ZigZigRight(a: Tree, y: SNode, b: Tree, x: SNode, c: Tree, v: Tree, path: nat)
    requires v.Branch? && Size(v) == Size(a) && Paid(a, v, path)
    ensures Paid(Branch(c, x, Branch(b, y, a)), OntoLeft(v, y, Branch(c, x, b)), path + 2)
  {
    hide Potential, Bound, Product, Fits4, Pow2;
    Powers(path);
    var w, g := Branch(c, x, b), Branch(b, y, a);
    var t, l := Branch(c, x, g), Branch(w, y, v.l);
    PotentialOf(w);
    PotentialOf(g);
    PotentialOf(t);
    PotentialOf(l);
    SizesZigZig(Size(a), Size(l), Size(w), Size(g), Size(t));
    OtherWay(Pow2(path), Potential(v.l), Potential(v.r), Size(a), Potential(a));
    CostZigZig(Pow2(path), Potential(v.r), Potential(v.l), Potential(a), Size(a), Potential(b), Potential(c),
               Potential(w), Size(w), Potential(l), Size(l), Potential(g), Size(g), Potential(t), Size(t));
    OtherWay(4 * Pow2(path), Potential(v.r), Potential(l), Size(t), Potential(t));
    assert OntoLeft(v, y, w) == Branch(l, v.n, v.r);
  }

  lemma ZigZagLeft(a: Tree, y: SNode, b: Tree, x: SNode, c: Tree, v: Tree, path: nat)
    requires v.Branch? && Size(v) == Size(b) && Paid(b, v, path)
    ensures Paid(Branch(Branch(a, y, b), x, c), OntoRight(OntoLeft(v, y, a), x, c), path + 2)
  {
    hide Potential, Bound, Product, Fits4, Pow2;
    Powers(path);
    var l, r, g := Branch(a, y, v.l), Branch(v.r, x, c), Branch(a, y, b);
    var t := Branch(g, x, c);
    PotentialOf(l);
    PotentialOf(r);
    PotentialOf(g);
    PotentialOf(t);
    SizesZigZag(Size(b), Size(l), Size(r), Size(t), Size(g));
    CostZigZag(Pow2(path), Potential(v.l), Potential(v.r), Potential(b), Size(b), Potential(a), Potential(c),
               Potential(l), Size(l), Potential(r), Size(r), Potential(g), Size(g), Potential(t), Size(t));
    assert OntoRight(OntoLeft(v, y, a), x, c) == Branch(l, v.n, r);
  }

  lemma ZigZagRight(a: Tree, y: SNode, b: Tree, x: SNode, c: Tree, v: Tree, path: nat)
    requires v.Branch? && Size(v) == Size(b) && Paid(b, v, path)
    ensures Paid(Branch(c, x, Branch(b, y, a)), OntoLeft(OntoRight(v, y, a), x, c), path + 2)
  {
    hide Potential, Bound, Product, Fits4, Pow2;
    Powers(path);
    var l, r, g := Branch(c, x, v.l), Branch(v.r, y, a), Branch(b, y, a);
    var t := Branch(c, x, g);
    PotentialOf(l);
    PotentialOf(r);
    PotentialOf(g);
    PotentialOf(t);
    SizesZigZag(Size(b), Size(r), Size(l), Size(t), Size(g));
    OtherWay(Pow2(path), Potential(v.l), Potential(v.r), Size(b), Potential(b));
    CostZigZag(Pow2(path), Potential(v.r), Potential(v.l), Potential(b), Size(b), Potential(a), Potential(c),
               Potential(r), Size(r), Potential(l), Size(l), Potential(g), Size(g), Potential(t), Size(t));
    OtherWay(4 * Pow2(path), Potential(r), Potential(l), Size(t), Potential(t));
    assert OntoLeft(OntoRight(v, y, a), x, c) == Branch(l, v.n, r);
  }

  lemma ZigZagZigLeft(a: Tree, y: SNode, b: Tree, z: SNode, e: Tree, x: SNode, c: Tree, v: Tree, path: nat)
    requires v.Branch? && Size(v) == Size(e) && Paid(e, v, path)
    ensures Paid(Branch(Branch(a, y, Branch(b, z, e)), x, c),
                 OntoRight(OntoLeft(v, z, Branch(a, y, b)), x, c), path + 3)
  {
    hide Potential, Bound, Product, Fits8, Pow2;
    Powers(path);
    var d, h := Branch(a, y, b), Branch(b, z, e);
    var l, r, g := Branch(d, z, v.l), Branch(v.r, x, c), Branch(a, y, h);
    var t := Branch(g, x, c);
    PotentialOf(d);
    PotentialOf(h);
    PotentialOf(l);
    PotentialOf(r);
    PotentialOf(g);
    PotentialOf(t);
    SizesZigZagZig(Size(e), Size(l), Size(r), Size(d), Size(t), Size(g), Size(h));
    CostZigZagZig(Pow2(path), Potential(v.l), Potential(v.r), Potential(e), Size(e), Potential(a), Potential(b),
                  Potential(c), Potential(d), Size(d), Potential(l), Size(l), Potential(r), Size(r), Potential(h),
                  Size(h), Potential(g), Size(g), Potential(t), Size(t));
    assert OntoRight(OntoLeft(v, z, d), x, c) == Branch(l, v.n, r);
  }

  lemma ZigZagZigRight(a: Tree, y: SNode, b: Tree, z: SNode, e: Tree, x: SNode, c: Tree, v: Tree, path: nat)
    requires v.Branch? && Size(v) == Size(e) && Paid(e, v, path)
    ensures Paid(Branch(c, x, Branch(Branch(e, z, b), y, a)),
                 OntoLeft(OntoRight(v, z, Branch(b, y, a)), x, c), path + 3)
  {
    hide Potential, Bound, Product, Fits8, Pow2;
    Powers(path);
    var d, h := Branch(b, y, a), Branch(e, z, b);
    var l, r, g := Branch(c, x, v.l), Branch(v.r, z, d), Branch(h, y, a);
    var t := Branch(c, x, g);
    PotentialOf(d);
    PotentialOf(h);
    PotentialOf(l);
    PotentialOf(r);
    PotentialOf(g);
    PotentialOf(t);
    SizesZigZagZig(Size(e), Size(r), Size(l), Size(d), Size(t), Size(g), Size(h));
    OtherWay(Pow2(path), Potential(v.l), Potential(v.r), Size(e), Potential(e));
    CostZigZagZig(Pow2(path), Potential(v.r), Potential(v.l), Potential(e), Size(e), Potential(a), Potential(b),
                  Potential(c), Potential(d), Size(d), Potential(r), Size(r), Potential(l), Size(l), Potential(h),
                  Size(h), Potential(g), Size(g), Potential(t), Size(t));
    OtherWay(8 * Pow2(path), Potential(r), Potential(l), Size(t), Potential(t));
    assert OntoLeft(OntoRight(v, z, d), x, c) == Branch(l, v.n, r);
  }

  lemma FirstPowers()
    ensures Pow2(1) == 2 && Pow2(2) == 4 && Pow2(3) == 8
  {
    assert Pow2(2) == 2 * Pow2(1);
    assert Pow2(3) == 2 * Pow2(2);
  }

  lemma EndHere(t: Tree)
    requires t.Branch?
    ensures Paid(t, t, 1)
  {
    hide Potential, Bound, Product, Pow2;
    FirstPowers();
    PotentialOf(t);
    CostHere(Potential(t.l), Potential(t.r), Potential(t), Size(t));
  }

  lemma EndLeft(a: Tree, y: SNode, b: Tree, x: SNode, c: Tree)
    ensures Paid(Branch(Branch(a, y, b), x, c), Branch(a, y, Branch(b, x, c)), 2)
  {
    hide Potential, Bound, Product, Pow2;
    FirstPowers();
    var w, g := Branch(b, x, c), Branch(a, y, b);
    var t := Branch(g, x, c);
    PotentialOf(w);
    PotentialOf(g);
    PotentialOf(t);
    CostStep(Potential(a), Potential(b), Potential(c), Potential(w), Size(w), Potential(g), Size(g), Potential(t),
             Size(t));
  }

  lemma EndRight(a: Tree, y: SNode, b: Tree, x: SNode, c: Tree)
    ensures Paid(Branch(c, x, Branch(b, y, a)), Branch(Branch(c, x, b), y, a), 2)
  {
    hide Potential, Bound, Product, Pow2;
    FirstPowers();
    var w, g := Branch(c, x, b), Branch(b, y, a);
    var t := Branch(c, x, g);
    PotentialOf(w);
    PotentialOf(g);
    PotentialOf(t);
    CostStep(Potential(a), Potential(b), Potential(c), Potential(w), Size(w), Potential(g), Size(g), Potential(t),
             Size(t));
    OtherWay(4, Potential(a), Potential(w), Size(t), Potential(t));
  }

  lemma NoPotential()
    ensures Potential(Leaf) == 1
  {
  }

  lemma EndZigZagLeft(a: Tree, y: SNode, b: Tree, z: SNode, x: SNode, c: Tree)
    ensures Paid(Branch(Branch(a, y, Branch(b, z, Leaf)), x, c), Branch(Branch(a, y, b), z, Branch(Leaf, x, c)), 3)
  {
    hide Potential, Bound, Product, Pow2;
    FirstPowers();
    NoPotential();
    var d, w, h := Branch(a, y, b), Branch(Leaf, x, c), Branch(b, z, Leaf);
    var g := Branch(a, y, h);
    var t := Branch(g, x, c);
    PotentialOf(d);
    PotentialOf(w);
    PotentialOf(h);
    PotentialOf(g);
    PotentialOf(t);
    CostSteps(Potential(a), Potential(b), Potential(c), Potential(d), Size(d), Potential(w), Size(w), Potential(h),
              Size(h), Potential(g), Size(g), Potential(t), Size(t));
  }

  lemma EndZigZagRight(a: Tree, y: SNode, b: Tree, z: SNode, x: SNode, c: Tree)
    ensures Paid(Branch(c, x, Branch(Branch(Leaf, z, b), y, a)), Branch(Branch(c, x, Leaf), z, Branch(b, y, a)), 3)
  {
    hide Potential, Bound, Product, Pow2;
    FirstPowers();
    NoPotential();
    var d, w, h := Branch(b, y, a), Branch(c, x, Leaf), Branch(Leaf, z, b);
    var g := Branch(h, y, a);
    var t := Branch(c, x, g);
    PotentialOf(d);
    PotentialOf(w);
    PotentialOf(h);
    PotentialOf(g);
    PotentialOf(t);
    CostSteps(Potential(a), Potential(b), Potential(c), Potential(d), Size(d), Potential(w), Size(w), Potential(h),
              Size(h), Potential(g), Size(g), Potential(t), Size(t));
    OtherWay(8, Potential(d), Potential(w), Size(t), Potential(t));
  }

  /** Every search is paid for. */
  lemma {:induction false} SearchPaid(t: Tree, data: Data, cmp: (Data, Data) -> int)
    requires t.Branch?
    ensures Paid(t, Splayed(t, data, cmp), Path(t, data, cmp))
    decreases t, 2
  {
    hide Paid;
    if cmp(data, t.n.data) < 0 && t.l.Branch? {
      PaidLeft(t, data, cmp);
    } else if cmp(data, t.n.data) > 0 && t.r.Branch? {
      PaidRight(t, data, cmp);
    } else {
      EndHere(t);
    }
  }

  lemma {:induction false} PaidLeft(t: Tree, data: Data, cmp: (Data, Data) -> int)
    requires t.Branch? && t.l.Branch? && cmp(data, t.n.data) < 0
    ensures Paid(t, Splayed(t, data, cmp), Path(t, data, cmp))
    decreases t, 1
  {
    hide Paid;
    var g := t.l;
    if cmp(data, g.n.data) < 0 && g.l.Branch? {
      SameSize(g.l, data, cmp);
      SearchPaid(g.l, data, cmp);
      assert Path(g, data, cmp) == 1 + Path(g.l, data, cmp);
      ZigZigLeft(g.l, g.n, g.r, t.n, t.r, Splayed(g.l, data, cmp), Path(g.l, data, cmp));
    } else if cmp(data, g.n.data) > 0 && g.r.Branch? {
      PaidLeftRight(t, data, cmp);
    } else {
      assert Path(g, data, cmp) == 1 && Splayed(g, data, cmp) == g;
      EndLeft(g.l, g.n, g.r, t.n, t.r);
    }
  }

  lemma {:induction false} PaidLeftRight(t: Tree, data: Data, cmp: (Data, Data) -> int)
    requires t.Branch? && t.l.Branch? && t.l.r.Branch? && cmp(data, t.n.data) < 0 && cmp(data, t.l.n.data) > 0
    ensures Paid(t, Splayed(t, data, cmp), Path(t, data, cmp))
    decreases t, 0
  {
    hide Paid;
    var g, h := t.l, t.l.r;
    if cmp(data, h.n.data) <= 0 {
      SameSize(h, data, cmp);
      SearchPaid(h, data, cmp);
      assert Splayed(g, data, cmp) == OntoLeft(Splayed(h, data, cmp), g.n, g.l);
      assert Path(g, data, cmp) == 1 + Path(h, data, cmp);
      ZigZagLeft(g.l, g.n, h, t.n, t.r, Splayed(h, data, cmp), Path(h, data, cmp));
    } else if h.r.Branch? {
      SameSize(h.r, data, cmp);
      SearchPaid(h.r, data, cmp);
      assert Splayed(g, data, cmp) == OntoLeft(Splayed(h.r, data, cmp), h.n, Branch(g.l, g.n, h.l));
      assert Path(g, data, cmp) == 1 + Path(h, data, cmp) && Path(h, data, cmp) == 1 + Path(h.r, data, cmp);
      ZigZagZigLeft(g.l, g.n, h.l, h.n, h.r, t.n, t.r, Splayed(h.r, data, cmp), Path(h.r, data, cmp));
    } else {
      assert Splayed(g, data, cmp) == Branch(Branch(g.l, g.n, h.l), h.n, Leaf);
      assert Path(g, data, cmp) == 1 + Path(h, data, cmp) && Path(h, data, cmp) == 1;
      EndZigZagLeft(g.l, g.n, h.l, h.n, t.n, t.r);
    }
  }

  lemma {:induction false} PaidRight(t: Tree, data: Data, cmp: (Data, Data) -> int)
    requires t.Branch? && t.r.Branch? && cmp(data, t.n.data) > 0
    ensures Paid(t, Splayed(t, data, cmp), Path(t, data, cmp))
    decreases t, 1
  {
    hide Paid;
    var g := t.r;
    if cmp(data, g.n.data) > 0 && g.r.Branch? {
      SameSize(g.r, data, cmp);
      SearchPaid(g.r, data, cmp);
      assert Path(g, data, cmp) == 1 + Path(g.r, data, cmp);
      ZigZigRight(g.r, g.n, g.l, t.n, t.l, Splayed(g.r, data, cmp), Path(g.r, data, cmp));
    } else if cmp(data, g.n.data) < 0 && g.l.Branch? {
      PaidRightLeft(t, data, cmp);
    } else {
      assert Path(g, data, cmp) == 1 && Splayed(g, data, cmp) == g;
      EndRight(g.r, g.n, g.l, t.n, t.l);
    }
  }

  lemma {:induction false} PaidRightLeft(t: Tree, data: Data, cmp: (Data, Data) -> int)
    requires t.Branch? && t.r.Branch? && t.r.l.Branch? && cmp(data, t.n.data) > 0 && cmp(data, t.r.n.data) < 0
    ensures Paid(t, Splayed(t, data, cmp), Path(t, data, cmp))
    decreases t, 0
  {
    hide Paid;
    var g, h := t.r, t.r.l;
    if cmp(data, h.n.data) >= 0 {
      SameSize(h, data, cmp);
      SearchPaid(h, data, cmp);
      assert Splayed(g, data, cmp) == OntoRight(Splayed(h, data, cmp), g.n, g.r);
      assert Path(g, data, cmp) == 1 + Path(h, data, cmp);
      ZigZagRight(g.r, g.n, h, t.n, t.l, Splayed(h, data, cmp), Path(h, data, cmp));
    } else if h.l.Branch? {
      SameSize(h.l, data, cmp);
      SearchPaid(h.l, data, cmp);
      assert Splayed(g, data, cmp) == OntoRight(Splayed(h.l, data, cmp), h.n, Branch(h.r, g.n, g.r));
      assert Path(g, data, cmp) == 1 + Path(h, data, cmp) && Path(h, data, cmp) == 1 + Path(h.l, data, cmp);
      ZigZagZigRight(g.r, g.n, h.r, h.n, h.l, t.n, t.l, Splayed(h.l, data, cmp), Path(h.l, data, cmp));
    } else {
      assert Splayed(g, data, cmp) == Branch(Leaf, h.n, Branch(h.r, g.n, g.r));
      assert Path(g, data, cmp) == 1 + Path(h, data, cmp) && Path(h, data, cmp) == 1;
      EndZigZagRight(g.r, g.n, h.r, h.n, t.n, t.l);
    }
  }

  /** One search: a long path only where the potential falls. */
  lemma SearchCost(t: Tree, data: Data, cmp: (Data, Data) -> int)
    requires t.Branch?
    ensures var u, s := Splayed(t, data, cmp), Size(t);
            Pow2(Path(t, data, cmp)) * Potential(u) <= s * s * s * Potential(t)
  {
    hide Splayed, Path, Potential, Pow2;
    SearchPaid(t, data, cmp);
    SameSize(t, data, cmp);
    var u, s := Splayed(t, data, cmp), Size(t);
    PotentialOf(u);
    WithRoot(Pow2(Path(t, data, cmp)), Potential(u.l), Potential(u.r), s, Potential(t), s, Potential(u));
  }

  lemma WithRoot(k: nat, l: nat, r: nat, s: nat, t: nat, z: nat, u: nat)
    requires Bound(k, l, r, s, t) && Product(u, z, l, r)
    ensures k * u <= s * s * z * t
  {
    Times(k * (l * r), s * s * t, z, z);
    assert k * (l * r) * z == k * (z * (l * r)) && s * s * t * z == s * s * z * t;
  }

  /** One insertion. */
  lemma InsertCost(t: Tree, node: SNode, cmp: (Data, Data) -> int)
    ensures var u, n := Inserted(t, node, cmp), Size(t) + 1;
            Pow2(Path(t, node.data, cmp)) * Potential(u) <= n * n * (n * n) * Potential(t)
  {
    hide Potential, Splayed;
    NoPotential();
    if t == Leaf {
      FirstNode(node);
    } else {
      InsertPaid(t, node, cmp);
    }
  }

  lemma FirstNode(node: SNode)
    ensures Potential(Branch(Leaf, node, Leaf)) == 2
  {
    hide Potential;
    NoPotential();
    PotentialOf(Branch(Leaf, node, Leaf));
    assert Size(Branch(Leaf, node, Leaf)) == 2;
  }

  ghost predicate Affords(k: nat, u: nat, n: nat, t: nat) { k * u <= n * n * (n * n) * t }

  lemma InsertPaid(t: Tree, node: SNode, cmp: (Data, Data) -> int)
    requires t.Branch?
    ensures Affords(Pow2(Path(t, node.data, cmp)), Potential(Inserted(t, node, cmp)), Size(t) + 1, Potential(t))
  {
    hide Splayed, Path, Potential, Pow2, Bound, Product, Affords;
    var u, k, s := Splayed(t, node.data, cmp), Pow2(Path(t, node.data, cmp)), Size(t);
    SearchPaid(t, node.data, cmp);
    SameSize(t, node.data, cmp);
    RootBefore(u, node, k, s, Potential(t));
    RootAfter(u, node, k, s, Potential(t));
    PotentialOf(u);
    SameRoot(k, Potential(u.l), Potential(u.r), s, Potential(t), Potential(u));
  }

  lemma RootBefore(u: Tree, node: SNode, k: nat, s: nat, t: nat)
    requires u.Branch? && Size(u) == s && Bound(k, Potential(u.l), Potential(u.r), s, t)
    ensures Affords(k, Potential(Branch(u.l, node, Branch(Leaf, u.n, u.r))), s + 1, t)
  {
    hide Potential, Bound, Product, Affords;
    NoPotential();
    var inner := Branch(Leaf, u.n, u.r);
    var w := Branch(u.l, node, inner);
    PotentialOf(inner);
    PotentialOf(w);
    assert Size(inner) == 1 + Size(u.r);
    assert Size(w) == Size(u.l) + Size(inner) && Size(u) == Size(u.l) + Size(u.r);
    NewRoot(k, Potential(u.l), Potential(u.r), s, t, Potential(inner), Size(inner), Potential(w));
  }

  lemma RootAfter(u: Tree, node: SNode, k: nat, s: nat, t: nat)
    requires u.Branch? && Size(u) == s && Bound(k, Potential(u.l), Potential(u.r), s, t)
    ensures Affords(k, Potential(Branch(Branch(u.l, u.n, Leaf), node, u.r)), s + 1, t)
  {
    hide Potential, Bound, Product, Affords;
    NoPotential();
    var inner := Branch(u.l, u.n, Leaf);
    var w := Branch(inner, node, u.r);
    PotentialOf(inner);
    PotentialOf(w);
    assert Size(inner) == Size(u.l) + 1;
    assert Size(w) == Size(inner) + Size(u.r) && Size(u) == Size(u.l) + Size(u.r);
    OtherWay(k, Potential(u.l), Potential(u.r), s, t);
    NewRoot(k, Potential(u.r), Potential(u.l), s, t, Potential(inner), Size(inner), Potential(w));
  }

  lemma NewRoot(k: nat, l: nat, r: nat, s: nat, t: nat, pi: nat, i: nat, w: nat)
    requires Bound(k, l, r, s, t) && Product(pi, i, 1, r) && Product(w, s + 1, l, pi) && i <= s
    ensures Affords(k, w, s + 1, t)
  {
    RootOver(k * (l * r), s, t, i, s + 1);
    RootGroups(k, l, r, s + 1, i);
  }

  lemma RootOver(x: nat, s: nat, t: nat, i: nat, n: nat)
    requires x <= s * s * t && i <= s <= n
    ensures x * (n * i) <= n * n * (n * n) * t
  {
    Times(n, n, i, n);
    Times(x, s * s * t, n * i, n * n);
    FourTimes(s, n, t);
  }

  lemma RootGroups(k: nat, l: nat, r: nat, n: nat, i: nat)
    ensures k * (l * r) * (n * i) == k * (n * (l * (i * (1 * r))))
  {
  }

  lemma FourTimes(s: nat, n: nat, t: nat)
    requires s <= n
    ensures s * s * t * (n * n) <= n * n * (n * n) * t
  {
    Times(s, n, s, n);
    Times(s * s, n * n, n * n * t, n * n * t);
    Regroup2(s * s, n * n, t);
    Regroup2(n * n, n * n, t);
  }

  lemma Regroup2(x: nat, y: nat, t: nat)
    ensures x * t * y == x * (y * t) == x * y * t
  {
  }

  lemma SameRoot(k: nat, l: nat, r: nat, s: nat, t: nat, u: nat)
    requires Bound(k, l, r, s, t) && Product(u, s, l, r)
    ensures Affords(k, u, s + 1, t)
  {
    WithRoot(k, l, r, s, t, s, u);
    CubeAndFourth(s, t);
  }

  lemma CubeAndFourth(s: nat, t: nat)
    ensures var n := s + 1; s * s * s * t <= n * n * (n * n) * t
  {
    var n := s + 1;
    Times(s, n, s, n);
    Times(s * s, n * n, s, n * n);
    Times(s * s * s, n * n * (n * n), t, t);
  }

  // ===== whole runs =====

  datatype Op = Find(data: Data) | Add(node: SNode)

  ghost function Sought(op: Op): Data { if op.Find? then op.data else op.node.data }

  ghost function After(t: Tree, op: Op, cmp: (Data, Data) -> int): Tree {
    match op
    case Find(data) => if t == Leaf then Leaf else Splayed(t, data, cmp)
    case Add(node) => Inserted(t, node, cmp)
  }

  ghost function AfterAll(t: Tree, ops: seq<Op>, cmp: (Data, Data) -> int): Tree {
    if ops == [] then t else After(AfterAll(t, ops[..|ops| - 1], cmp), ops[|ops| - 1], cmp)
  }

  /** The lengths of all search paths together. */
  ghost function Total(t: Tree, ops: seq<Op>, cmp: (Data, Data) -> int): nat {
    if ops == [] then 0
    else
      var before := ops[..|ops| - 1];
      Total(t, before, cmp) + Path(AfterAll(t, before, cmp), Sought(ops[|ops| - 1]), cmp)
  }

  function Power(b: nat, k: nat): nat { if k == 0 then 1 else b * Power(b, k - 1) }

  lemma OneMoreAtMost(t: Tree, op: Op, cmp: (Data, Data) -> int)
    ensures Size(After(t, op, cmp)) <= Size(t) + 1
  {
    hide Splayed;
    if t.Branch? {
      SameSize(t, Sought(op), cmp);
      var u := Splayed(t, Sought(op), cmp);
      assert Size(Branch(Leaf, u.n, u.r)) == 1 + Size(u.r) && Size(Branch(u.l, u.n, Leaf)) == Size(u.l) + 1;
    }
  }

  lemma {:induction false} SizesInRun(t: Tree, ops: seq<Op>, cmp: (Data, Data) -> int)
    ensures Size(AfterAll(t, ops, cmp)) <= Size(t) + |ops|
  {
    if ops != [] {
      SizesInRun(t, ops[..|ops| - 1], cmp);
      OneMoreAtMost(AfterAll(t, ops[..|ops| - 1], cmp), ops[|ops| - 1], cmp);
    }
  }

  lemma OpCost(t: Tree, op: Op, cmp: (Data, Data) -> int, n: nat)
    requires Size(t) < n
    ensures Pow2(Path(t, Sought(op), cmp)) * Potential(After(t, op, cmp)) <= n * n * (n * n) * Potential(t)
  {
    hide Splayed, Potential, Pow2, Inserted;
    var s := Size(t) + 1;
    if op.Add? {
      InsertCost(t, op.node, cmp);
    } else if t.Branch? {
      SearchCost(t, op.data, cmp);
      CubeAndFourth(Size(t), Potential(t));
    } else {
      FoundNothing(op.data, cmp, s);
    }
    Fourths(s, n, Potential(t));
  }

  lemma FoundNothing(data: Data, cmp: (Data, Data) -> int, s: nat)
    requires s >= 1
    ensures Pow2(Path(Leaf, data, cmp)) * Potential(Leaf) <= s * s * (s * s) * Potential(Leaf)
  {
    Times(1, s, 1, s);
    Times(1, s * s, 1, s * s);
  }

  lemma Fourths(s: nat, n: nat, t: nat)
    requires s <= n
    ensures s * s * (s * s) * t <= n * n * (n * n) * t
  {
    Times(s, n, s, n);
    Times(s * s, n * n, s * s, n * n);
    Times(s * s * (s * s), n * n * (n * n), t, t);
  }

  /** Over any run of searches and insertions, the paths are paid for by what the potential was at the start. */
  lemma {:induction false} RunCost(t: Tree, ops: seq<Op>, cmp: (Data, Data) -> int, n: nat)
    requires Size(t) + |ops| <= n
    ensures Pow2(Total(t, ops, cmp)) * Potential(AfterAll(t, ops, cmp)) <= Power(n * n * (n * n), |ops|) * Potential(t)
  {
    hide Potential, Pow2, After, Path, Power;
    if ops == [] {
      NoOps(n * n * (n * n), Potential(t));
    } else {
      var before, op := ops[..|ops| - 1], ops[|ops| - 1];
      var u := AfterAll(t, before, cmp);
      RunCost(t, before, cmp, n);
      SizesInRun(t, before, cmp);
      OpCost(u, op, cmp, n);
      Joined(Total(t, before, cmp), Path(u, Sought(op), cmp), Potential(u), Potential(After(u, op, cmp)),
             n * n * (n * n), |before|, Potential(t));
    }
  }

  lemma NoOps(f: nat, p: nat)
    ensures Pow2(0) * p <= Power(f, 0) * p
  {
  }

  lemma Joined(a: nat, b: nat, u: nat, w: nat, f: nat, m: nat, t: nat)
    requires Pow2(a) * u <= Power(f, m) * t && Pow2(b) * w <= f * u
    ensures Pow2(a + b) * w <= Power(f, m + 1) * t
  {
    hide Pow2;
    Pow2Sum(a, b);
    Times(Pow2(b) * w, f * u, Pow2(a), Pow2(a));
    Times(Pow2(a) * u, Power(f, m) * t, f, f);
    JoinedGroups(Pow2(a), Pow2(b), u, w, f, Power(f, m), t);
  }

  lemma JoinedGroups(x: nat, y: nat, u: nat, w: nat, f: nat, p: nat, t: nat)
    ensures y * w * x == x * y * w && f * u * x == x * u * f && p * t * f == f * p * t
  {
  }

  lemma {:induction false} Pow2Sum(a: nat, b: nat)
    ensures Pow2(a + b) == Pow2(a) * Pow2(b)
  {
    if b != 0 { Pow2Sum(a, b - 1); assert Pow2(a + b) == 2 * Pow2(a + (b - 1)); }
  }

  /** From the empty tree, m operations pass at most 4 * m * log2(m + 1) nodes. */
  lemma FromEmpty(ops: seq<Op>, cmp: (Data, Data) -> int)
    ensures Pow2(Total(Leaf, ops, cmp)) <= Power(|ops| + 1, 4 * |ops|)
  {
    hide Pow2, Total, Potential;
    var n := |ops| + 1;
    NoPotential();
    RunCost(Leaf, ops, cmp, n);
    var k, p := Pow2(Total(Leaf, ops, cmp)), Potential(AfterAll(Leaf, ops, cmp));
    Times(k, k, 1, p);
    PowerFour(n, |ops|);
  }

  lemma {:induction false} PowerFour(n: nat, m: nat)
    ensures Power(n * n * (n * n), m) == Power(n, 4 * m)
  {
    if m != 0 {
      PowerFour(n, m - 1);
      var p := Power(n, 4 * (m - 1));
      assert Power(n, 4 * m - 3) == n * p;
      assert Power(n, 4 * m - 2) == n * (n * p);
      assert Power(n, 4 * m - 1) == n * (n * (n * p));
      assert Power(n, 4 * m) == n * (n * (n * (n * p)));
      FourFactors(n, p);
    }
  }

  lemma FourFactors(n: nat, p: nat)
    ensures n * (n * (n * (n * p))) == n * n * (n * n) * p
  {
  }
}
