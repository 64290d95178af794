/** The registry of callback data: an object outlives its free for as long as it is locked. */
module Cbdata {

  /** A pointer; every allocation gives a new one. */
  datatype Ref = Null | Ptr(id: nat)

  datatype Entry = Entry(kind: nat, valid: bool, locks: nat)

  datatype Event = Alloc(p: Ref) | Free(p: Ref) | Lock(p: Ref) | Unlock(p: Ref)

  // ===== what the history of calls says =====

  /** Locks taken and not given back. */
  function Net(h: seq<Event>, p: Ref): int {
    if h == [] then 0
    else Net(h[..|h| - 1], p) + (if h[|h| - 1] == Lock(p) then 1 else if h[|h| - 1] == Unlock(p) then -1 else 0)
  }

  /** Freed, and not locked any more, after these calls. */
  predicate Over(h: seq<Event>, p: Ref) { Free(p) in h && Net(h, p) == 0 }

  /** Over after these calls or after an earlier one of them. */
  predicate Dead(h: seq<Event>, p: Ref) { h != [] && (Over(h, p) || Dead(h[..|h| - 1], p)) }

  /** The k-th call is the first after which p is freed and not locked. */
  ghost predicate FirstOver(h: seq<Event>, p: Ref, k: nat) {
    0 < k <= |h| && Over(h[..k], p) && forall j | 0 < j < k :: !Over(h[..j], p)
  }

  lemma {:induction false} DeadAtFirst(h: seq<Event>, p: Ref) returns (k: nat)
    requires Dead(h, p)
    ensures FirstOver(h, p, k)
  {
    var g := h[..|h| - 1];
    if Dead(g, p) {
      k := DeadAtFirst(g, p);
      assert forall j | 0 <= j <= k :: g[..j] == h[..j];
    } else {
      k := |h|;
      NotDeadBefore(g, p);
      assert forall j | 0 <= j <= |g| :: g[..j] == h[..j];
      assert h[..k] == h;
    }
  }

  lemma {:induction false} FirstIsDead(h: seq<Event>, p: Ref, k: nat)
    requires 0 < k <= |h| && Over(h[..k], p)
    ensures Dead(h, p)
  {
    if k < |h| {
      assert h[..|h| - 1][..k] == h[..k];
      FirstIsDead(h[..|h| - 1], p, k);
    } else {
      assert h[..k] == h;
    }
  }

  lemma {:induction false} NotDeadBefore(h: seq<Event>, p: Ref)
    requires !Dead(h, p)
    ensures forall j | 0 < j <= |h| :: !Over(h[..j], p)
  {
    if h != [] {
      var g := h[..|h| - 1];
      NotDeadBefore(g, p);
      assert forall j | 0 <= j <= |g| :: g[..j] == h[..j];
      assert h[..|h|] == h;
    }
  }

  lemma Later(h: seq<Event>, e: Event, p: Ref)
    ensures Net(h + [e], p) == Net(h, p) + (if e == Lock(p) then 1 else if e == Unlock(p) then -1 else 0)
    ensures Dead(h + [e], p) <==> Over(h + [e], p) || Dead(h, p)
    ensures Free(p) in h + [e] <==> Free(p) in h || e == Free(p)
  {
    assert (h + [e])[..|h + [e]| - 1] == h;
  }

  class Registry {
    var live: map<Ref, Entry>
    var count: int
    const types: nat
    ghost var history: seq<Event>
    ghost var released: seq<Ref>

    /** The registry knows p as the history has it. */
    ghost predicate Known(p: Ref)
      reads this
    {
      && (p in live <==> Alloc(p) in history && !Dead(history, p))
      && (p in live ==> live[p].valid == (Free(p) !in history) && live[p].locks == Net(history, p))
      && (p in live ==> live[p].valid || live[p].locks > 0)
      && multiset(released)[p] == (if Dead(history, p) then 1 else 0)
      && (Alloc(p) !in history ==> !Dead(history, p) && Net(history, p) == 0 && Free(p) !in history)
    }

    ghost predicate Valid()
      reads this
    {
      count == |live| && Null !in live && forall p :: Known(p)
    }

    constructor (types: nat)
      ensures Valid() && history == [] && released == [] && live == map[] && this.types == types
    {
      live, count, history, released := map[], 0, [], [];
      this.types := types;
    }

    /** cbdataInternalAlloc */
    method AllocObject(kind: nat, p: Ref)
      requires Valid() && 0 < kind < types && p != Null && Alloc(p) !in history
      modifies this
      ensures Valid() && history == old(history) + [Alloc(p)] && released == old(released)
      ensures live == old(live)[p := Entry(kind, true, 0)]
    {
      assert Known(p);
      live := live[p := Entry(kind, true, 0)];
      count := count + 1;
      history := history + [Alloc(p)];
      forall q ensures Known(q) { assert old(Known(q)); Later(old(history), Alloc(p), q); }
    }

    /** cbdataInternalFree: released now if it is not locked. */
    method FreeObject(p: Ref)
      requires Valid() && p in live && live[p].valid
      modifies this
      ensures Valid() && history == old(history) + [Free(p)]
      ensures released == old(released) + (if old(live[p].locks) == 0 then [p] else [])
      ensures live == if old(live[p].locks) == 0 then old(live) - {p} else old(live)[p := old(live[p]).(valid := false)]
    {
      assert Known(p);
      live := live[p := live[p].(valid := false)];
      history := history + [Free(p)];
      if live[p].locks == 0 {
        count := count - 1;
        live := live - {p};
        released := released + [p];
      }
      forall q ensures Known(q) { assert old(Known(q)); Later(old(history), Free(p), q); }
    }

    /** cbdataLock */
    method LockObject(p: Ref)
      requires Valid() && (p == Null || p in live)
      modifies this
      ensures Valid() && released == old(released)
      ensures if p == Null then history == old(history) && live == old(live)
              else history == old(history) + [Lock(p)]
                   && live == old(live)[p := old(live[p]).(locks := old(live[p].locks) + 1)]
    {
      if p == Null { return; }
      assert Known(p);
      assert live[p].locks > 0 || live[p].valid;
      live := live[p := live[p].(locks := live[p].locks + 1)];
      history := history + [Lock(p)];
      forall q ensures Known(q) { assert old(Known(q)); Later(old(history), Lock(p), q); }
    }

    /** cbdataUnlock: the last unlock of a freed object releases it. */
    method UnlockObject(p: Ref)
      requires Valid() && (p == Null || (p in live && live[p].locks > 0))
      modifies this
      ensures Valid()
      ensures p == Null ==> history == old(history) && live == old(live) && released == old(released)
      ensures p != Null ==> history == old(history) + [Unlock(p)]
      ensures p != Null ==> var gone := !old(live[p].valid) && old(live[p].locks) == 1;
                released == old(released) + (if gone then [p] else [])
                && live == if gone then old(live) - {p}
                           else old(live)[p := old(live[p]).(locks := old(live[p].locks) - 1)]
    {
      if p == Null { return; }
      assert Known(p);
      live := live[p := live[p].(locks := live[p].locks - 1)];
      history := history + [Unlock(p)];
      if !live[p].valid && live[p].locks == 0 {
        count := count - 1;
        live := live - {p};
        released := released + [p];
      }
      forall q ensures Known(q) { assert old(Known(q)); Later(old(history), Unlock(p), q); }
    }

    /** cbdataValid: whether the object has been freed. */
    method IsValid(p: Ref) returns (valid: bool)
      requires Valid() && (p == Null || (p in live && live[p].locks > 0))
      ensures valid <==> p == Null || Free(p) !in history
    {
      if p == Null { return true; }
      assert Known(p);
      return live[p].valid;
    }

    /** Over any run, an object is released exactly once, by the first call after which it is freed and
        not locked, and until then it is in the registry. */
    lemma ReleasedOnce(p: Ref)
      requires Valid() && Alloc(p) in history
      ensures multiset(released)[p] <= 1 && (multiset(released)[p] == 1 <==> p !in live)
      ensures multiset(released)[p] == 1 <==> exists k :: FirstOver(history, p, k)
    {
      assert Known(p);
      if Dead(history, p) {
        var k := DeadAtFirst(history, p);
      }
      if k :| FirstOver(history, p, k) { FirstIsDead(history, p, k); }
    }
  }
}
