/** The linked request queues: a head, and a pointer to where the next request is to be linked. */
module AioQueues {
  import opened AioProtocol

  class Request {
    const id: Req
    var next: Request?
  }

  ghost predicate Distinct(s: seq<Request>) { forall i, j | 0 <= i < j < |s| :: s[i] != s[j] }

  ghost predicate Apart(a: seq<Request>, b: seq<Request>) {
    forall i, j | 0 <= i < |a| && 0 <= j < |b| :: a[i] != b[j]
  }

  ghost function After(s: seq<Request>, i: nat): Request? { if i + 1 < |s| then s[i + 1] else null }

  /** The next fields of s follow s and end it. */
  ghost predicate Linked(s: seq<Request>)
    reads s
  {
    forall i {:trigger After(s, i)} | 0 <= i < |s| :: s[i].next == After(s, i)
  }

  ghost function Last(s: seq<Request>): Request? { if s == [] then null else s[|s| - 1] }

  /** The last request of a now leads to b. */
  twostate lemma Joined(a: seq<Request>, new b: seq<Request>)
    requires old(Linked(a)) && Distinct(a) && Distinct(b) && Apart(a, b) && b != []
    requires forall i | 0 <= i < |a| - 1 :: a[i].next == old(a[i].next)
    requires a != [] ==> a[|a| - 1].next == b[0]
    requires Linked(b)
    ensures Linked(a + b) && Distinct(a + b)
  {
    var c := a + b;
    forall i: nat {:trigger After(c, i)} | i < |c| ensures c[i].next == After(c, i) {
      if i < |a| - 1 {
        assert c[i] == a[i] && c[i + 1] == a[i + 1] && old(a[i].next) == After(a, i);
      } else if i >= |a| {
        assert c[i] == b[i - |a|] && b[i - |a|].next == After(b, i - |a|);
      }
    }
    forall i, j | 0 <= i < j < |c| ensures c[i] != c[j] {
      assert c[i] == if i < |a| then a[i] else b[i - |a|];
      assert c[j] == if j < |a| then a[j] else b[j - |a|];
    }
  }

  class Queue {
    var head: Request?
    var tail: Request?            // tailp points to its next field, or to head when it is null
    ghost var items: seq<Request>

    /** The requests are linked in order, the last one ends the chain, and tailp points into it. */
    ghost predicate Valid()
      reads this, items
    {
      && Distinct(items) && Linked(items)
      && head == (if items == [] then null else items[0])
      && tail == Last(items)
    }

    constructor ()
      ensures Valid() && items == []
    {
      head, tail, items := null, null, [];
    }

    /** The write through tailp. */
    method StoreAtTail(r: Request)
      modifies this`head, tail
      ensures if tail == null then head == r else head == old(head) && tail.next == r
    {
      if tail == null { head := r; } else { tail.next := r; }
    }

    /** A request is linked at the end. */
    method Put(r: Request)
      requires Valid() && r !in items && r.next == null
      modifies this, items
      ensures Valid() && items == old(items) + [r]
    {
      StoreAtTail(r);
      tail := r;
      Joined(items, [r]);
      items := items + [r];
    }

    /** A worker takes the first request. */
    method Pop() returns (r: Request)
      requires Valid() && items != []
      modifies this
      ensures Valid() && r == old(items)[0] && items == old(items)[1..]
    {
      r := head;
      assert r.next == After(items, 0);
      head := r.next;
      if head == null { tail := null; }
      items := items[1..];
      forall i: nat {:trigger After(items, i)} | i < |items| ensures items[i].next == After(items, i) {
        assert items[i] == old(items)[i + 1] && old(items)[i + 1].next == After(old(items), i + 1);
      }
    }

    method Reset()
      modifies this
      ensures Valid() && items == []
    {
      head, tail, items := null, null, [];
    }
  }

  /** Linking the chain of `from` behind `q`; its last request is last. */
  method Join(q: Queue, from: Queue, last: Request)
    requires q != from && q.Valid() && from.Valid() && from.items != [] && last == Last(from.items)
             && Apart(q.items, from.items)
    modifies q, from, q.items
    ensures q.Valid() && from.Valid() && q.items == old(q.items) + old(from.items) && from.items == []
  {
    ghost var a, b := q.items, from.items;
    assert q.tail != null ==> q.tail in a && q.tail !in b;
    q.StoreAtTail(from.head);
    q.tail := last;
    Joined(a, b);
    q.items := a + b;
    from.Reset();
  }

  /** squidaio_poll_queues: the overflow queue goes behind the request queue, unless that is locked. */
  method KickOverflow(q: Queue, overflow: Queue, locked: bool)
    requires q != overflow && q.Valid() && overflow.Valid() && Apart(q.items, overflow.items)
    modifies q, overflow, q.items
    ensures q.Valid() && overflow.Valid()
    ensures if locked then q.items == old(q.items) && overflow.items == old(overflow.items)
            else q.items == old(q.items) + old(overflow.items) && overflow.items == []
  {
    hide Linked, Distinct;
    if overflow.head != null && !locked {
      Join(q, overflow, overflow.tail);
    } else {
      assert old(q.items) + [] == old(q.items);
    }
  }

  /** squidaio_queue_request: straight to the request queue, to the overflow queue when that is locked, or
      behind what overflowed before. */
  method Submit(q: Queue, overflow: Queue, r: Request, locked: bool)
    requires q != overflow && q.Valid() && overflow.Valid() && r !in q.items && r !in overflow.items
             && Apart(q.items, overflow.items)
    modifies q, overflow, q.items, overflow.items, r
    ensures q.Valid() && overflow.Valid()
    ensures if locked then q.items == old(q.items) && overflow.items == old(overflow.items) + [r]
            else q.items == old(q.items) + old(overflow.items) + [r] && overflow.items == []
  {
    hide Linked, Distinct;
    r.next := null;
    if overflow.head == null {
      if !locked {
        q.Put(r);
        assert old(q.items) + [] + [r] == old(q.items) + [r];
      } else {
        overflow.Put(r);
      }
    } else {
      assert forall i | 0 <= i < |overflow.items| :: overflow.items[i] !in q.items;
      overflow.Put(r);
      assert Apart(q.items, overflow.items);
      if !locked { Join(q, overflow, r); }
    }
  }

  /** squidaio_poll_queues: the done queue, unless it is locked, goes behind the list of done requests, and
      the length of what went is taken off the count of requests. */
  method Collect(done: Queue, list: Queue, locked: bool, count: int) returns (left: int)
    requires done != list && done.Valid() && list.Valid() && Apart(list.items, done.items)
    modifies done, list, list.items
    ensures done.Valid() && list.Valid()
    ensures if locked then list.items == old(list.items) && done.items == old(done.items) && left == count
            else list.items == old(list.items) + old(done.items) && done.items == []
                 && left == count - |old(done.items)|
  {
    hide Linked, Distinct;
    left := count;
    if done.head != null && !locked {
      var n := Splice(done, list);
      left := count - n;
    } else {
      assert old(list.items) + [] == old(list.items);
    }
  }

  method Splice(done: Queue, list: Queue) returns (n: nat)
    requires done != list && done.Valid() && list.Valid() && done.items != [] && Apart(list.items, done.items)
    modifies done, list, list.items
    ensures done.Valid() && list.Valid() && list.items == old(list.items) + old(done.items) && done.items == []
    ensures n == |old(done.items)|
  {
    ghost var a, b := list.items, done.items;
    var requests: Request := done.head;
    assert list.tail != null ==> list.tail in a && list.tail !in b;
    done.Reset();
    list.StoreAtTail(requests);
    var last;
    n, last := CountChain(requests, b);
    list.tail := last;
    Joined(a, b);
    list.items := a + b;
  }

  /** Going along the chain to its end. */
  method CountChain(first: Request, ghost b: seq<Request>) returns (n: nat, last: Request)
    requires b != [] && first == b[0] && Linked(b)
    ensures n == |b| && last == Last(b)
  {
    last, n := first, 1;
    assert last.next == After(b, 0);
    while last.next != null
      invariant 1 <= n <= |b| && last == b[n - 1] && last.next == After(b, n - 1)
      decreases |b| - n
    {
      last := last.next;
      n := n + 1;
      assert b[n - 1].next == After(b, n - 1);
    }
  }

  /** squidaio_poll_done: the first done request is taken off. */
  method TakeDone(list: Queue) returns (r: Request?)
    requires list.Valid()
    modifies list
    ensures list.Valid()
    ensures if old(list.items) == [] then r == null && list.items == []
            else r == old(list.items)[0] && list.items == old(list.items)[1..]
  {
    if list.head == null { return null; }
    r := list.Pop();
  }

  // ===== the queues of the protocol hold the numbers of the linked requests =====

  function Ids(s: seq<Request>): seq<Req> { seq(|s|, i requires 0 <= i < |s| => s[i].id) }

  lemma IdsJoin(a: seq<Request>, b: seq<Request>)
    ensures Ids(a + b) == Ids(a) + Ids(b)
  {
  }

  lemma IdsRest(a: seq<Request>)
    requires a != []
    ensures Ids(a[1..]) == Ids(a)[1..] && Ids(a)[0] == a[0].id
  {
  }

  /** What Submit leaves is what the main thread's steps from its trylock to its append leave. */
  lemma SubmitMatches(s: State, q: seq<Request>, overflow: seq<Request>, r: Request)
    requires s.main == SubmitTry(r.id) && s.rq.queue == Ids(q) && s.rq.overflow == Ids(overflow)
    ensures var t := MainNext(s);
            if s.rq.lock == Free then
              t.main.RqAppend? && MainNext(t).rq.queue == Ids(q + overflow + [r]) && MainNext(t).rq.overflow == []
            else t.rq.queue == Ids(q) && t.rq.overflow == Ids(overflow + [r])
  {
    IdsJoin(overflow, [r]);
    IdsJoin(q, overflow + [r]);
    assert q + overflow + [r] == q + (overflow + [r]);
    assert Ids([r]) == [r.id];
  }

  /** The same for KickOverflow ... */
  lemma KickMatches(s: State, q: seq<Request>, overflow: seq<Request>)
    requires s.main.PollKick? && s.rq.queue == Ids(q) && s.rq.overflow == Ids(overflow)
    ensures var t := MainNext(s);
            if s.rq.lock == Free && overflow != [] then
              t.main.RqAppend? && MainNext(t).rq.queue == Ids(q + overflow) && MainNext(t).rq.overflow == []
            else t.rq == s.rq
  {
    IdsJoin(q, overflow);
  }

  /** ... for Collect, once the done queue is locked ... */
  lemma CollectMatches(s: State, done: seq<Request>, list: seq<Request>)
    requires s.main.PollTake? && s.dq.queue == Ids(done) && s.dq.list == Ids(list)
    ensures var t := MainNext(MainNext(MainNext(s)));
            t.dq.list == Ids(list + done) && t.dq.queue == [] && t.log.len == s.log.len - |done|
  {
    IdsJoin(list, done);
  }

  /** ... for TakeDone ... */
  lemma TakeMatches(s: State, list: seq<Request>, runs: bool)
    requires s.main.DoneHead? && list != [] && s.dq.list == Ids(list)
    ensures list[0].id !in s.ctl.cancelled ==>
              Enabled(s, Deliver(runs)) && Next(s, Deliver(runs)).dq.list == Ids(list[1..])
              && Next(s, Deliver(runs)).log.finished == s.log.finished + [list[0].id]
    ensures list[0].id in s.ctl.cancelled ==>
              Enabled(s, Go) && MainNext(s).dq.list == Ids(list[1..])
                && MainNext(s).log.finished == s.log.finished + [list[0].id]
  {
    IdsRest(list);
  }

  /** ... and for a worker's Pop and Put. */
  lemma WorkerMatches(s: State, i: nat, q: seq<Request>, done: seq<Request>, r: Request)
    requires WorkEnabled(s, i) && s.rq.queue == Ids(q) && s.dq.queue == Ids(done)
    ensures s.workers[i] == HoldRq && q != [] ==> WorkPc(s, i) == Popped(q[0].id) && WorkRq(s, i).queue == Ids(q[1..])
    ensures s.workers[i] == HoldDq(r.id) ==> WorkDq(s, i).queue == Ids(done + [r])
  {
    if q != [] { IdsRest(q); }
    IdsJoin(done, [r]);
    assert Ids([r]) == [r.id];
  }
}
