/** The binary heap of the replacement policies, with handles that know their position. */
module Heap {

  type Data = nat

  class HeapNode {
    var key: real
    var data: Data
    var id: nat

    constructor (key: real, data: Data, id: nat)
      ensures this.key == key && this.data == data && this.id == id
    {
      this.key, this.data, this.id := key, data, id;
    }
  }

  function Left(x: nat): nat { 2 * x + 1 }
  function Right(x: nat): nat { 2 * x + 2 }

  /** C's division truncates, so the root is its own parent. */
  function Parent(x: nat): nat { if x == 0 then 0 else (x - 1) / 2 }

  // ===== heap order, on the keys by position =====

  predicate InOrderAt(ks: seq<real>, k: nat) {
    0 < k < |ks| ==> ks[Parent(k)] <= ks[k]
  }

  ghost predicate HeapOrder(ks: seq<real>) { forall k | 0 <= k < |ks| :: InOrderAt(ks, k) }

  /** The parent of i is below the children of i. */
  ghost predicate Bridged(ks: seq<real>, i: nat) {
    forall k | 0 < k < |ks| && Parent(k) == i && i > 0 :: ks[Parent(i)] <= ks[k]
  }

  /** In order except perhaps between i and its parent. */
  ghost predicate ExceptUp(ks: seq<real>, i: nat) {
    (forall k | 0 <= k < |ks| && k != i :: InOrderAt(ks, k)) && Bridged(ks, i)
  }

  /** In order except perhaps between i and its children. */
  ghost predicate ExceptDown(ks: seq<real>, i: nat) {
    (forall k | 0 <= k < |ks| && (k == 0 || Parent(k) != i) :: InOrderAt(ks, k)) && Bridged(ks, i)
  }

  /** In order except perhaps around i. */
  ghost predicate ExceptAt(ks: seq<real>, i: nat) {
    (forall k | 0 <= k < |ks| && k != i && (k == 0 || Parent(k) != i) :: InOrderAt(ks, k)) && Bridged(ks, i)
  }

  function Swapped(ks: seq<real>, i: nat, j: nat): seq<real>
    requires i < |ks| && j < |ks|
  {
    ks[i := ks[j]][j := ks[i]]
  }

  /** Demoting a parent that is too large moves the trouble one level up. */
  lemma Promoted(ks: seq<real>, i: nat)
    requires 0 < i < |ks| && ExceptUp(ks, i) && ks[i] < ks[Parent(i)]
    ensures ExceptUp(Swapped(ks, Parent(i), i), Parent(i))
  {
    var t, p := Swapped(ks, Parent(i), i), Parent(i);
    forall k | 0 <= k < |t| && k != p ensures InOrderAt(t, k) {
      assert InOrderAt(ks, k) || k == i;
      if k > 0 && Parent(k) == p && k != i { assert InOrderAt(ks, k); }
    }
    forall k | 0 < k < |t| && Parent(k) == p && p > 0 ensures t[Parent(p)] <= t[k] {
      assert InOrderAt(ks, p);
      assert InOrderAt(ks, k) || k == i;
    }
  }

  /** Promoting the smaller child moves the trouble one level down. */
  lemma Demoted(ks: seq<real>, i: nat, kid: nat)
    requires i < |ks| && kid in {Left(i), Right(i)} && kid < |ks| && ExceptDown(ks, i) && ks[kid] < ks[i]
    requires forall k | k in {Left(i), Right(i)} && k < |ks| :: ks[kid] <= ks[k]
    ensures ExceptDown(Swapped(ks, kid, i), kid)
  {
    hide Parent;
    var t := Swapped(ks, kid, i);
    KidsOf(i);
    forall k | 0 <= k < |t| && (k == 0 || Parent(k) != kid) ensures InOrderAt(t, k) {
      if k > 0 { ParentOf(k); }
      assert k == 0 || Parent(k) == i || InOrderAt(ks, k);
    }
    forall k | 0 < k < |t| && Parent(k) == kid && kid > 0 ensures t[Parent(kid)] <= t[k] {
      ParentOf(k);
      assert InOrderAt(ks, k);
    }
  }

  lemma KidsOf(i: nat)
    ensures Parent(Left(i)) == i && Parent(Right(i)) == i && i < Left(i) && i < Right(i)
  {
  }

  lemma ParentOf(k: nat)
    requires 0 < k
    ensures Parent(k) < k && k in {Left(Parent(k)), Right(Parent(k))}
  {
  }

  /** The root is the minimum. */
  lemma {:induction false} RootIsMin(ks: seq<real>, k: nat)
    requires HeapOrder(ks) && k < |ks|
    ensures ks[0] <= ks[k]
  {
    if k > 0 {
      assert InOrderAt(ks, k);
      RootIsMin(ks, Parent(k));
    }
  }

  class PriorityHeap {
    var nodes: seq<HeapNode>
    var age: real
    const genKey: (Data, real) -> real

    ghost predicate Numbered()
      reads this`nodes, nodes
    {
      forall i | 0 <= i < |nodes| :: nodes[i].id == i
    }

    ghost function Keys(): (ks: seq<real>)
      reads this, nodes
      ensures |ks| == |nodes| && forall i | 0 <= i < |nodes| :: ks[i] == nodes[i].key
    {
      seq(|nodes|, i requires 0 <= i < |nodes| reads this, nodes => nodes[i].key)
    }

    ghost predicate Valid()
      reads this, nodes
    {
      Numbered() && HeapOrder(Keys())
    }

    /** The handles in the heap. */
    ghost function Handles(): set<HeapNode>
      reads this`nodes
    {
      set n | n in nodes
    }

    constructor (genKey: (Data, real) -> real)
      ensures Valid() && nodes == [] && this.genKey == genKey && age == 0.0
    {
      this.genKey := genKey;
      nodes, age := [], 0.0;
    }

    /** _heap_swap_element */
    method SwapElements(elm1: HeapNode, elm2: HeapNode)
      requires Numbered() && elm1 in nodes && elm2 in nodes
      modifies this`nodes, elm1`id, elm2`id
      ensures Numbered() && |nodes| == |old(nodes)| && (forall n :: n in nodes <==> n in old(nodes))
      ensures elm1.id == old(elm2.id) && elm2.id == old(elm1.id)
      ensures old(elm1.id) < |old(nodes)| && old(elm2.id) < |old(nodes)|
      ensures Keys() == Swapped(old(Keys()), old(elm1.id), old(elm2.id))
    {
      var elm1Id := elm1.id;
      elm1.id := elm2.id;
      elm2.id := elm1Id;
      nodes := nodes[elm1.id := elm1];
      nodes := nodes[elm2.id := elm2];
      forall n | n in old(nodes) ensures n in nodes {
        var i :| 0 <= i < |old(nodes)| && old(nodes)[i] == n;
        assert n == elm1 || n == elm2 || nodes[i] == n;
        assert nodes[elm1.id] == elm1 && nodes[elm2.id] == elm2;
      }
      forall n | n in nodes ensures n in old(nodes) {
        var i :| 0 <= i < |nodes| && nodes[i] == n;
        assert n == elm1 || n == elm2 || old(nodes)[i] == n;
      }
    }

    /** Only positions have changed. */
    twostate predicate Moved()
      reads this`nodes, nodes
    {
      && |nodes| == |old(nodes)| && (forall n | n in nodes :: n in old(nodes))
      && (forall n | n in old(nodes) :: n in nodes)
      && forall n | n in nodes :: n.key == old(n.key) && n.data == old(n.data)
    }

    /** _heap_ify_up */
    method IfyUp(elm: HeapNode)
      requires Numbered() && elm in nodes && ExceptUp(Keys(), elm.id)
      modifies this`nodes, nodes
      ensures Valid() && Moved() && elm in nodes && elm.id <= old(elm.id)
    {
      hide Swapped, HeapOrder, ExceptUp;
      while elm.id > 0
        invariant Numbered() && elm in nodes && elm.id < |nodes| && ExceptUp(Keys(), elm.id) && Moved()
                  && elm.id <= old(elm.id)
        decreases elm.id
      {
        assert nodes[elm.id] == elm by { Found(elm); }
        var parentNode := nodes[Parent(elm.id)];
        assert parentNode in nodes;
        if parentNode.key <= elm.key { break; }
        Promoted(Keys(), elm.id);
        SwapElements(parentNode, elm);
      }
      assert HeapOrder(Keys()) by { Settled(Keys(), elm.id); Found(elm); }
    }

    lemma Found(elm: HeapNode)
      requires Numbered() && elm in nodes
      ensures elm.id < |nodes| && nodes[elm.id] == elm
    {
    }

    /** _heap_ify_down */
    method IfyDown(elm: HeapNode)
      requires Numbered() && elm in nodes && ExceptDown(Keys(), elm.id)
      modifies this`nodes, nodes
      ensures Valid() && Moved()
    {
      hide Swapped, HeapOrder, ExceptDown;
      while true
        invariant Numbered() && elm in nodes && elm.id < |nodes| && ExceptDown(Keys(), elm.id) && Moved()
        decreases |nodes| - elm.id
      {
        assert nodes[elm.id] == elm by { Found(elm); }
        var left, right := Left(elm.id), Right(elm.id);
        if left >= |nodes| { break; }
        var kid := if right < |nodes| && nodes[right].key < nodes[left].key then nodes[right] else nodes[left];
        assert kid in nodes;
        if elm.key <= kid.key { break; }
        Demoted(Keys(), elm.id, kid.id);
        SwapElements(kid, elm);
      }
      assert HeapOrder(Keys()) by { SettledBelow(Keys(), elm.id); }
    }

    /** heap_insert */
    method Insert(dat: Data) returns (elm: HeapNode)
      requires Valid()
      modifies this`nodes, nodes
      ensures Valid() && fresh(elm) && elm.data == dat && elm.key == genKey(dat, age)
      ensures Handles() == old(Handles()) + {elm}
      ensures forall n | n in old(nodes) :: n.key == old(n.key) && n.data == old(n.data)
    {
      elm := new HeapNode(genKey(dat, age), dat, |nodes|);
      nodes := nodes + [elm];
      assert ExceptUp(Keys(), elm.id) by { Appended(old(Keys()), Keys()); }
      assert Handles() == old(Handles()) + {elm};
      IfyUp(elm);
    }

    /** heap_extractlast */
    method ExtractLast() returns (data: Data)
      requires Numbered() && |nodes| > 0
      modifies this`nodes
      ensures Numbered() && data == old(nodes[|nodes| - 1].data) && nodes == old(nodes)[..|old(nodes)| - 1]
      ensures Keys() == old(Keys())[..|old(nodes)| - 1]
      ensures forall n :: n in nodes <==> n in old(nodes) && n != old(nodes[|nodes| - 1])
    {
      data := nodes[|nodes| - 1].data;
      nodes := nodes[..|nodes| - 1];
      forall n | n in old(nodes) && n != old(nodes[|nodes| - 1]) ensures n in nodes {
        var i :| 0 <= i < |old(nodes)| && old(nodes)[i] == n;
        assert nodes[i] == n;
      }
    }

    /** heap_delete */
    method Delete(elm: HeapNode) returns (data: Data)
      requires Valid() && elm in nodes
      modifies this`nodes, nodes
      ensures Valid() && data == old(elm.data) && Handles() == old(Handles()) - {elm} && |nodes| == |old(nodes)| - 1
      ensures forall n | n in old(nodes) :: n.key == old(n.key) && n.data == old(n.data)
    {
      hide HeapOrder, Swapped, ExceptAt, ExceptUp, ExceptDown;
      data := elm.data;
      Found(elm);
      var lastNode := nodes[|nodes| - 1];
      ghost var ks := Keys();
      SwapElements(lastNode, elm);
      Found(elm);
      var _ := ExtractLast();
      if elm == lastNode {
        LastGone(ks);
      } else if |nodes| > 0 {
        HoleLeft(ks, old(elm.id));
        assert forall i | 0 <= i < |nodes| :: nodes[i] in old(nodes);
        Fix(lastNode);
      }
    }

    /** What heap_delete and heap_update do around a node whose key is new to its place. */
    method Fix(elm: HeapNode)
      requires Numbered() && elm in nodes && ExceptAt(Keys(), elm.id)
      modifies this`nodes, nodes
      ensures Valid() && Moved()
    {
      hide HeapOrder, ExceptAt, ExceptUp, ExceptDown;
      Found(elm);
      if elm.key < nodes[Parent(elm.id)].key {
        UpOnly(Keys(), elm.id);
        IfyUp(elm);
        assert ExceptDown(Keys(), elm.id) by { Anywhere(Keys(), elm.id); }
        Found(elm);
      } else {
        DownOnly(Keys(), elm.id);
      }
      assert forall i | 0 <= i < |nodes| :: nodes[i] in old(nodes);
      IfyDown(elm);
    }

    /** heap_update */
    method Update(elm: HeapNode, dat: Data) returns (was: Data)
      requires Valid() && elm in nodes
      modifies this`nodes, nodes
      ensures Valid() && was == old(elm.data) && Handles() == old(Handles())
      ensures elm.data == dat && elm.key == genKey(dat, age)
      ensures forall n | n in old(nodes) && n != elm :: n.key == old(n.key) && n.data == old(n.data)
    {
      hide HeapOrder, ExceptAt;
      was := elm.data;
      Found(elm);
      elm.key := genKey(dat, age);
      elm.data := dat;
      assert Keys() == old(Keys())[elm.id := elm.key];
      Rekeyed(old(Keys()), elm.id, elm.key);
      Fix(elm);
    }

    /** heap_extractmin: a node with the least key goes; nothing when the heap is empty. */
    method ExtractMin() returns (least: HeapNode?)
      requires Valid()
      modifies this`nodes, nodes
      ensures Valid() && (least == null <==> old(nodes) == [])
      ensures least == null ==> nodes == []
      ensures least != null ==>
                least in old(nodes) && Handles() == old(Handles()) - {least} && |nodes| == |old(nodes)| - 1
      ensures least != null ==> forall n | n in old(nodes) :: least.key <= n.key
      ensures forall n | n in old(nodes) :: n.key == old(n.key) && n.data == old(n.data)
    {
      if |nodes| == 0 { return null; }
      least := nodes[0];
      forall n | n in nodes ensures least.key <= n.key { Found(n); RootIsMin(Keys(), n.id); }
      var _ := Delete(least);
    }

    /** Extracting until the heap is empty gives every handle once, by ascending key. */
    method Drain() returns (out: seq<HeapNode>)
      requires Valid()
      modifies this`nodes, nodes
      ensures nodes == [] && (forall n :: n in out <==> n in old(nodes))
      ensures |out| == |old(nodes)|
      ensures forall i, j | 0 <= i < j < |out| :: out[i] != out[j] && out[i].key <= out[j].key
      ensures forall n | n in old(nodes) :: n.key == old(n.key) && n.data == old(n.data)
    {
      hide HeapOrder, Numbered, Keys;
      out := [];
      while |nodes| > 0
        invariant Valid() && |out| + |nodes| == |old(nodes)|
        invariant forall n :: n in old(nodes) <==> n in out || n in nodes
        invariant forall n | n in out :: n !in nodes
        invariant forall i, j | 0 <= i < j < |out| :: out[i] != out[j] && out[i].key <= out[j].key
        invariant forall m, n | m in out && n in nodes :: m.key <= n.key
        invariant forall n | n in old(nodes) :: n.key == old(n.key) && n.data == old(n.data)
        decreases |nodes|
      {
        assert forall n | n in nodes :: n in old(nodes);
        var least := ExtractMin();
        out := out + [least];
        assert forall n :: n in nodes <==> n in Handles();
      }
    }
  }

  lemma Rekeyed(ks: seq<real>, i: nat, key: real)
    requires HeapOrder(ks) && i < |ks|
    ensures ExceptAt(ks[i := key], i)
  {
    var t := ks[i := key];
    forall k | 0 <= k < |t| && k != i && (k == 0 || Parent(k) != i) ensures InOrderAt(t, k) { assert InOrderAt(ks, k); }
    forall k | 0 < k < |t| && Parent(k) == i && i > 0 ensures t[Parent(i)] <= t[k] {
      assert InOrderAt(ks, k) && InOrderAt(ks, i);
    }
  }

  lemma Settled(ks: seq<real>, i: nat)
    requires i < |ks| && ExceptUp(ks, i) && (i > 0 ==> ks[Parent(i)] <= ks[i])
    ensures HeapOrder(ks)
  {
  }

  lemma SettledBelow(ks: seq<real>, i: nat)
    requires i < |ks| && ExceptDown(ks, i)
    requires forall k | k in {Left(i), Right(i)} && k < |ks| :: ks[i] <= ks[k]
    ensures HeapOrder(ks)
  {
    forall k | 0 <= k < |ks| ensures InOrderAt(ks, k) {
      if k > 0 && Parent(k) == i { assert k in {Left(i), Right(i)}; }
    }
  }

  lemma Appended(ks: seq<real>, t: seq<real>)
    requires HeapOrder(ks) && |t| == |ks| + 1 && t[..|ks|] == ks
    ensures ExceptUp(t, |ks|)
  {
    forall k | 0 <= k < |ks| ensures InOrderAt(t, k) {
      assert InOrderAt(ks, k);
      assert t[k] == ks[k] && t[Parent(k)] == ks[Parent(k)];
    }
  }

  /** The last key put at p, and the last place given up. */
  lemma HoleLeft(ks: seq<real>, p: nat)
    requires HeapOrder(ks) && p < |ks| - 1
    ensures ExceptAt(Swapped(ks, |ks| - 1, p)[..|ks| - 1], p)
  {
    var t := Swapped(ks, |ks| - 1, p)[..|ks| - 1];
    forall k | 0 <= k < |t| && k != p && (k == 0 || Parent(k) != p) ensures InOrderAt(t, k) { assert InOrderAt(ks, k); }
    forall k | 0 < k < |t| && Parent(k) == p && p > 0 ensures t[Parent(p)] <= t[k] {
      assert InOrderAt(ks, k) && InOrderAt(ks, p);
    }
  }

  lemma LastGone(ks: seq<real>)
    requires HeapOrder(ks) && |ks| > 0
    ensures HeapOrder(Swapped(ks, |ks| - 1, |ks| - 1)[..|ks| - 1])
  {
    var t := Swapped(ks, |ks| - 1, |ks| - 1)[..|ks| - 1];
    forall k | 0 <= k < |t| ensures InOrderAt(t, k) { assert InOrderAt(ks, k); }
  }

  lemma UpOnly(ks: seq<real>, i: nat)
    requires i < |ks| && ExceptAt(ks, i) && ks[i] < ks[Parent(i)]
    ensures ExceptUp(ks, i)
  {
    forall k | 0 <= k < |ks| && k != i ensures InOrderAt(ks, k) {
      if k > 0 && Parent(k) == i { assert ks[Parent(i)] <= ks[k]; }
    }
  }

  lemma DownOnly(ks: seq<real>, i: nat)
    requires i < |ks| && ExceptAt(ks, i) && ks[Parent(i)] <= ks[i]
    ensures ExceptDown(ks, i)
  {
    forall k | 0 <= k < |ks| && (k == 0 || Parent(k) != i) ensures InOrderAt(ks, k) {
      if k != i { assert InOrderAt(ks, k); }
    }
  }

  lemma Anywhere(ks: seq<real>, i: nat)
    requires HeapOrder(ks) && i < |ks|
    ensures ExceptDown(ks, i)
  {
    forall k | 0 < k < |ks| && Parent(k) == i && i > 0 ensures ks[Parent(i)] <= ks[k] {
      assert InOrderAt(ks, k) && InOrderAt(ks, i);
    }
  }
}
