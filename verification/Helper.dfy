/** The scheduler of helper processes: a backlog, the least loaded server, and numbered slots in flight. */
module Helper {
  import opened Options

  /** A request and its callback data; every submission is a request of its own. */
  datatype Request = Request(id: nat, data: nat)

  /** How the callback of a finished request was called: with a reply, with NULL, or not at all. */
  datatype Outcome = Replied(msg: string) | Failed | Silent

  datatype Place = Queued | InSlot(server: Server, slot: nat) | Ended(outcome: Outcome)

  /** How many slots are taken. */
  function Occupied(slots: seq<Option<Request>>): nat {
    if slots == [] then 0 else (if slots[0].Some? then 1 else 0) + Occupied(slots[1..])
  }

  lemma {:induction false} OccupiedUpdate(slots: seq<Option<Request>>, i: nat, v: Option<Request>)
    requires i < |slots|
    ensures Occupied(slots[i := v]) == Occupied(slots) + (if v.Some? then 1 else 0) - (if slots[i].Some? then 1 else 0)
  {
    var t := slots[i := v];
    if i == 0 {
      assert t[1..] == slots[1..];
    } else {
      assert t[1..] == slots[1..][i - 1 := v];
      OccupiedUpdate(slots[1..], i - 1, v);
    }
  }

  /** With fewer taken than there are, one is free; with none taken, none holds a request. */
  lemma {:induction false} OccupiedBounds(slots: seq<Option<Request>>)
    ensures Occupied(slots) <= |slots|
    ensures Occupied(slots) < |slots| ==> None in slots
    ensures Occupied(slots) == 0 ==> forall i | 0 <= i < |slots| :: slots[i].None?
  {
    if slots != [] {
      OccupiedBounds(slots[1..]);
      if Occupied(slots) < |slots| && slots[0].Some? {
        assert None in slots[1..];
      }
      if Occupied(slots) == 0 {
        forall i | 0 <= i < |slots| ensures slots[i].None? { if i > 0 { assert slots[i] == slots[1..][i - 1]; } }
      }
    }
  }

  /** The slot a reply is for: its channel, or the only slot of a server without channels. */
  function SlotFor(concurrency: nat, channel: int): int { if concurrency > 0 then channel else 0 }

  /** The slots after some replies. */
  function SlotsAfter(slots: seq<Option<Request>>, concurrency: nat,
                      lines: seq<(int, string)>): (s: seq<Option<Request>>)
    ensures |s| == |slots|
  {
    if lines == [] then slots
    else
      var before := SlotsAfter(slots, concurrency, lines[..|lines| - 1]);
      var i := SlotFor(concurrency, lines[|lines| - 1].0);
      if 0 <= i < |before| then before[i := None] else before
  }

  /** The requests that some replies finish, and how: each reply finishes what its slot holds then. */
  function Answered(slots: seq<Option<Request>>, concurrency: nat, lines: seq<(int, string)>,
                    valid: set<nat>): map<Request, Outcome> {
    if lines == [] then map[]
    else
      var earlier := Answered(slots, concurrency, lines[..|lines| - 1], valid);
      var before := SlotsAfter(slots, concurrency, lines[..|lines| - 1]);
      var i := SlotFor(concurrency, lines[|lines| - 1].0);
      if 0 <= i < |before| && before[i].Some? then
        var r := before[i].value;
        earlier[r := if r.data in valid then Replied(lines[|lines| - 1].1) else Silent]
      else earlier
  }

  function CountTrue(s: seq<bool>): nat {
    if s == [] then 0 else CountTrue(s[..|s| - 1]) + (if s[|s| - 1] then 1 else 0)
  }

  /** The request last written on a channel. */
  function LastOn(wire: seq<(nat, Request)>, channel: nat): Option<Request> {
    if wire == [] then None
    else var last := wire[|wire| - 1];
      if last.0 == channel then Some(last.1) else LastOn(wire[..|wire| - 1], channel)
  }

  class Server {
    var requests: seq<Option<Request>>
    var pending: nat
    var writing: bool
    var closing: bool
    var shutdown: bool
    ghost var wire: seq<(nat, Request)>   // what was written to the process, with the channel

    constructor (capacity: nat)
      ensures requests == seq(capacity, i => None) && pending == 0 && !writing && !closing && !shutdown && wire == []
    {
      requests := seq(capacity, i => None);
      pending, writing, closing, shutdown, wire := 0, false, false, false, [];
    }
  }

  class Pool {
    var servers: seq<Server>
    var queue: seq<Request>
    var concurrency: nat
    var nToStart: nat
    var nRunning: int
    var nActive: int
    var queueSize: int
    var maxQueueSize: int
    var lastQueueWarn: int
    var lastRestart: int
    ghost var submitted: seq<Request>
    ghost var sent: seq<Request>
    ghost var place: map<Request, Place>
    var locks: map<nat, int>

    function Capacity(): (c: nat)
      reads this`concurrency
      ensures c >= 1
    {
      if concurrency > 0 then concurrency else 1
    }

    predicate Eligible(s: Server)
      reads s
    {
      !s.shutdown && !s.closing
    }

    // ===== the invariant =====

    ghost predicate ServerOk(s: Server)
      reads this`concurrency, s
    {
      && |s.requests| == Capacity()
      && s.pending == Occupied(s.requests)
      && (s.closing ==> s.shutdown)
    }

    ghost predicate Distinct(q: seq<Server>) { forall i, j | 0 <= i < j < |q| :: q[i] != q[j] }

    ghost function Active(): set<Server>
      reads this`servers, servers
    {
      set s | s in servers && !s.shutdown
    }

    /** Every slot of every server, and every server's counters. */
    ghost predicate Running()
      reads this`servers, this`concurrency, this`nRunning, this`nActive, servers
    {
      && Distinct(servers)
      && (forall s {:trigger ServerOk(s)} | s in servers :: ServerOk(s))
      && nRunning == |servers|
      && nActive == |Active()|
    }

    /** What was submitted is what was sent, then what is in hand, then the backlog. */
    ghost predicate Backlog(hand: seq<Request>)
      reads this`queueSize, this`queue, this`submitted, this`sent, this`place
    {
      && queueSize == |queue|
      && submitted == sent + hand + queue
      && (forall i, j | 0 <= i < j < |submitted| :: submitted[i] != submitted[j])
      && (forall r :: r in place <==> r in submitted)
      && (forall r :: r in queue || r in hand <==> r in place && place[r] == Queued)
    }

    ghost predicate InSlotOk(r: Request)
      requires r in place
      reads this`place, this`servers, servers
    {
      place[r].InSlot? ==>
        place[r].server in servers && place[r].slot < |place[r].server.requests|
        && place[r].server.requests[place[r].slot] == Some(r)
    }

    ghost predicate SlotOk(s: Server, i: nat)
      reads this`place, s
    {
      i < |s.requests| && s.requests[i].Some? ==>
        s.requests[i].value in place && place[s.requests[i].value] == InSlot(s, i) && LastOn(s.wire, i) == s.requests[i]
    }

    /** A request that is somewhere in the slots is in one slot only. */
    ghost predicate Slots()
      reads this`place, this`servers, servers
    {
      && (forall r {:trigger InSlotOk(r)} | r in place :: InSlotOk(r))
      && (forall s, i {:trigger SlotOk(s, i)} | s in servers :: SlotOk(s, i))
    }

    ghost function Open(d: nat): set<Request>
      reads this`place
    {
      set r | r in place && !place[r].Ended? && r.data == d
    }

    /** Callback data is locked once for every request that is not over. */
    ghost predicate Locked()
      reads this`place, this`locks
    {
      forall d :: |Open(d)| == if d in locks then locks[d] else 0
    }

    ghost predicate Valid()
      reads this, servers
    {
      Running() && Backlog([]) && Slots() && Locked()
    }

    ghost predicate Available(s: Server)
      reads this`concurrency, s
    {
      Eligible(s) && s.pending < Capacity()
    }

    /** Between events, a backlog means that no server has room. */
    ghost predicate Quiet()
      reads this`concurrency, this`queue, this`servers, servers
    {
      queue != [] ==> forall s | s in servers :: !Available(s)
    }

    constructor (concurrency: nat, nToStart: nat)
      ensures Valid() && Quiet() && submitted == [] && servers == [] && fresh(this)
      ensures this.concurrency == concurrency && this.nToStart == nToStart
      ensures maxQueueSize == 0 && lastQueueWarn == 0 && lastRestart == 0
    {
      this.concurrency, this.nToStart := concurrency, nToStart;
      servers, queue, nRunning, nActive, queueSize := [], [], 0, 0, 0;
      maxQueueSize, lastQueueWarn, lastRestart := 0, 0, 0;
      submitted, sent, place, locks := [], [], map[], map[];
    }

    // ===== choosing a server =====

    /** Server k is the first eligible one, if none after it has less to do, or else the next that has less. */
    ghost predicate ChosenAt(k: nat, first: nat)
      reads this`servers, servers
    {
      && first <= k < |servers| && Eligible(servers[first]) && Eligible(servers[k])
      && (forall i | 0 <= i < first :: !Eligible(servers[i]))
      && (forall i | first < i < k && Eligible(servers[i]) :: servers[i].pending >= servers[first].pending)
      && if k == first then forall i | k < i < |servers| && Eligible(servers[i]) ::
          servers[i].pending >= servers[k].pending
         else servers[k].pending < servers[first].pending
    }

    ghost predicate Chosen(s: Server)
      reads this`servers, servers
    {
      exists k: nat, first: nat :: ChosenAt(k, first) && servers[k] == s
    }

    /** GetFirstAvailable: a server exactly when an eligible one has room. */
    method GetFirstAvailable() returns (selected: Server?)
      requires Running()
      ensures selected != null ==> selected in servers && Available(selected) && Chosen(selected)
      ensures selected == null ==> forall s | s in servers :: !Available(s)
    {
      if nRunning == 0 { return null; }
      selected := null;
      var n := 0;
      ghost var first, k := 0, 0;
      while n < |servers|
        invariant 0 <= n <= |servers|
        invariant selected == null ==> forall i | 0 <= i < n :: !Eligible(servers[i])
        invariant selected != null ==>
                    && first == k < n && servers[k] == selected && selected.pending > 0
                    && (forall i | 0 <= i < first :: !Eligible(servers[i]))
                    && (forall i | first < i < n && Eligible(servers[i]) :: servers[i].pending >= selected.pending)
        invariant selected != null ==> selected in servers && Eligible(selected)
        invariant forall i | 0 <= i < n && Eligible(servers[i]) ::
                    selected != null && selected.pending <= servers[i].pending
      {
        var srv := servers[n];
        assert ServerOk(srv);
        n := n + 1;
        if selected != null && selected.pending <= srv.pending { continue; }
        if srv.shutdown { continue; }
        if srv.closing { continue; }
        if selected != null {
          assert ServerOk(selected);
          OccupiedBounds(selected.requests);
          selected := srv;
          k := n - 1;
          break;
        }
        selected := srv;
        first, k := n - 1, n - 1;
        if selected.pending == 0 { break; }
      }
      if selected == null { return null; }
      assert ChosenAt(k, first);
      assert ServerOk(selected);
      if selected.pending >= Capacity() { return null; }
    }

    // ===== sending =====

    /** Valid but for one request in hand. */
    ghost predicate Holding(r: Request)
      reads this, servers
    {
      Running() && Backlog([r]) && Slots() && Locked()
    }

    /** Only the place of r has changed, and it is not over. */
    twostate lemma StillOpen(r: Request)
      requires old(Locked()) && locks == old(locks) && r in old(place) && !old(place)[r].Ended?
      requires r in place && !place[r].Ended? && place == old(place)[r := place[r]]
      ensures Locked()
    {
      forall d ensures Open(d) == old(Open(d)) {}
    }

    /** helperRequestFree and the end of r. */
    method RequestFree(r: Request, ghost outcome: Outcome)
      requires Locked() && r in place && !place[r].Ended?
      modifies this`locks, this`place
      ensures Locked() && place == old(place)[r := Ended(outcome)]
      ensures r.data in old(locks) && locks == old(locks)[r.data := old(locks)[r.data] - 1]
    {
      assert r in Open(r.data);
      locks := locks[r.data := locks[r.data] - 1];
      place := place[r := Ended(outcome)];
      forall d ensures |Open(d)| == if d in locks then locks[d] else 0 {
        if d == r.data {
          assert Open(d) == old(Open(d)) - {r};
        } else {
          assert Open(d) == old(Open(d));
        }
      }
    }

    /** The first free slot. */
    method FreeSlot(srv: Server) returns (slot: nat)
      requires srv in servers && ServerOk(srv) && srv.pending < Capacity()
      ensures slot < |srv.requests| && srv.requests[slot].None?
      ensures forall j | 0 <= j < slot :: srv.requests[j].Some?
    {
      OccupiedBounds(srv.requests);
      slot := 0;
      while slot < Capacity() && srv.requests[slot].Some?
        invariant slot <= |srv.requests|
        invariant forall j | 0 <= j < slot :: srv.requests[j].Some?
      {
        slot := slot + 1;
      }
    }

    twostate predicate Untouched(s: Server)
      reads s
    {
      && s.requests == old(s.requests) && s.pending == old(s.pending) && s.wire == old(s.wire)
      && s.shutdown == old(s.shutdown) && s.closing == old(s.closing)
    }

    /** srv has r in a slot that was free, and r was in hand. */
    twostate predicate Took(srv: Server, slot: nat, r: Request)
      reads this, servers, srv
    {
      && servers == old(servers) && srv in servers && queue == old(queue) && concurrency == old(concurrency)
      && nRunning == old(nRunning) && nActive == old(nActive) && queueSize == old(queueSize) && locks == old(locks)
      && (forall s {:trigger Untouched(s)} | s in servers && s != srv :: Untouched(s))
      && slot < |old(srv.requests)| && old(srv.requests[slot]).None?
      && srv.requests == old(srv.requests)[slot := Some(r)] && srv.pending == old(srv.pending) + 1
      && srv.shutdown == old(srv.shutdown) && srv.closing == old(srv.closing)
      && srv.wire == old(srv.wire) + [(slot, r)] && srv.writing
      && submitted == old(submitted) && sent == old(sent) + [r] && place == old(place)[r := InSlot(srv, slot)]
    }

    lemma LastWritten(wire: seq<(nat, Request)>, slot: nat, r: Request, channel: nat)
      ensures LastOn(wire + [(slot, r)], channel) == if channel == slot then Some(r) else LastOn(wire, channel)
    {
      var w := wire + [(slot, r)];
      assert w[..|w| - 1] == wire;
    }

    twostate lemma TookRunning(srv: Server, new slot: nat, new r: Request)
      requires old(Running()) && Took(srv, slot, r)
      ensures Running()
    {
      assert old(ServerOk(srv));
      OccupiedUpdate(old(srv.requests), slot, Some(r));
      forall s | s in servers ensures ServerOk(s) && s.shutdown == old(s.shutdown) {
        assert old(ServerOk(s));
        assert s != srv ==> Untouched(s);
      }
      assert Active() == old(Active());
    }

    /** r leaves the hand. */
    twostate lemma LeftHand(r: Request)
      requires old(Backlog([r])) && queue == old(queue) && submitted == old(submitted) && queueSize == old(queueSize)
      requires sent == old(sent) + [r] && r in place && place[r] != Queued && place == old(place)[r := place[r]]
      ensures Backlog([])
    {
      assert old(submitted)[|old(sent)|] == r;
      assert r !in queue by {
        assert forall k | 0 <= k < |queue| :: queue[k] == old(submitted)[|old(sent)| + 1 + k];
      }
      assert sent + [] + queue == old(sent) + [r] + queue;
      assert forall x :: x in [r] <==> x == r;
    }

    lemma HandQueued(r: Request)
      requires Backlog([r])
      ensures r in place && place[r] == Queued
    {
      assert r in [r];
    }

    twostate lemma TookSlots(srv: Server, new slot: nat, new r: Request)
      requires old(Slots()) && r in old(place) && old(place)[r] == Queued && Took(srv, slot, r)
      ensures Slots()
    {
      hide LastOn;
      forall x | x in place ensures InSlotOk(x) {
        assert x != r ==> old(InSlotOk(x));
        if x != r && place[x].InSlot? && place[x].server != srv { assert Untouched(place[x].server); }
      }
      forall s, i: nat | s in servers ensures SlotOk(s, i) {
        assert old(SlotOk(s, i));
        if s == srv { LastWritten(old(srv.wire), slot, r, i); } else { assert Untouched(s); }
      }
    }

    /** r is over without having been in a slot. */
    twostate lemma NeverInSlot(r: Request)
      requires old(Slots()) && r in old(place) && old(place)[r] == Queued
      requires servers == old(servers) && r in place && place[r].Ended? && place == old(place)[r := place[r]]
      requires forall s {:trigger Untouched(s)} | s in servers :: Untouched(s)
      ensures Slots()
    {
      forall x | x in place ensures InSlotOk(x) {
        assert x != r ==> old(InSlotOk(x));
        if place[x].InSlot? { assert Untouched(place[x].server); }
      }
      forall s, i: nat | s in servers ensures SlotOk(s, i) { assert old(SlotOk(s, i)) && Untouched(s); }
    }

    /** Running concerns only the servers and the counters. */
    twostate lemma StillRunning()
      requires old(Running()) && servers == old(servers) && concurrency == old(concurrency)
      requires nRunning == old(nRunning) && nActive == old(nActive)
      requires forall s {:trigger Untouched(s)} | s in servers :: Untouched(s)
      ensures Running()
    {
      forall s | s in servers ensures ServerOk(s) && s.shutdown == old(s.shutdown) {
        assert old(ServerOk(s));
        assert Untouched(s);
      }
      assert Active() == old(Active());
    }

    /** What is over stays as it ended. */
    twostate predicate EndsKept()
      reads this`place
    {
      forall r | r in old(place) && old(place)[r].Ended? :: r in place && place[r] == old(place)[r]
    }

    /** Only requests in the backlog have moved. */
    twostate predicate OthersStay()
      reads this`place
    {
      forall r | r in old(place) && old(place)[r] != Queued :: r in place && place[r] == old(place)[r]
    }

    /** helperDispatch: r goes to srv's first free slot, or is over when its callback data is no longer valid. */
    method Dispatch(srv: Server, r: Request, valid: set<nat>)
      requires Holding(r) && srv in servers && srv.pending < Capacity()
      modifies this`sent, this`place, this`locks, srv
      ensures Valid() && servers == old(servers) && queue == old(queue) && submitted == old(submitted)
      ensures sent == old(sent) + [r] && OthersStay()
      ensures r.data !in valid ==> place == old(place)[r := Ended(Silent)] && unchanged(srv)
      ensures r.data in valid ==>
                exists slot: nat :: Took(srv, slot, r) && forall j | 0 <= j < slot :: old(srv.requests)[j].Some?
    {
      hide Backlog, Slots, Locked, LastOn, Open, InSlotOk, Active;
      HandQueued(r);
      if r.data !in valid {
        sent := sent + [r];
        RequestFree(r, Silent);
        NeverInSlot(r);
        StillRunning();
      } else {
        assert ServerOk(srv);
        var slot := FreeSlot(srv);
        srv.requests := srv.requests[slot := Some(r)];
        srv.pending := srv.pending + 1;
        srv.wire := srv.wire + [(slot, r)];
        if !srv.writing { srv.writing := true; }
        place := place[r := InSlot(srv, slot)];
        sent := sent + [r];
        assert Took(srv, slot, r);
        TookRunning(srv, slot, r);
        TookSlots(srv, slot, r);
        StillOpen(r);
      }
      LeftHand(r);
    }

    // ===== submitting =====

    twostate predicate Accepted(r: Request)
      reads this, servers
    {
      && servers == old(servers) && concurrency == old(concurrency) && nRunning == old(nRunning)
      && nActive == old(nActive)
      && (forall s {:trigger Untouched(s)} | s in servers :: Untouched(s))
      && r !in old(place) && place == old(place)[r := Queued] && submitted == old(submitted) + [r] && sent == old(sent)
      && locks == old(locks)[r.data := (if r.data in old(locks) then old(locks)[r.data] else 0) + 1]
    }

    twostate lemma AcceptedLocked(r: Request)
      requires old(Locked()) && r !in old(place) && place == old(place)[r := Queued]
      requires locks == old(locks)[r.data := (if r.data in old(locks) then old(locks)[r.data] else 0) + 1]
      ensures Locked()
    {
      forall d ensures |Open(d)| == if d in locks then locks[d] else 0 {
        AcceptedOpen(r, d);
        assert |old(Open(d))| == if d in old(locks) then old(locks)[d] else 0;
      }
    }

    twostate lemma AcceptedOpen(r: Request, new d: nat)
      requires r !in old(place) && place == old(place)[r := Queued]
      ensures |Open(d)| == |old(Open(d))| + if d == r.data then 1 else 0
    {
      if d == r.data {
        assert Open(d) == old(Open(d)) + {r} && r !in old(Open(d));
      } else {
        assert Open(d) == old(Open(d));
      }
    }

    twostate lemma AcceptedSlots(r: Request)
      requires old(Slots()) && Accepted(r)
      ensures Slots()
    {
      forall x | x in place ensures InSlotOk(x) {
        assert x != r ==> old(InSlotOk(x));
        if place[x].InSlot? { assert Untouched(place[x].server); }
      }
      forall s, i: nat | s in servers ensures SlotOk(s, i) { assert old(SlotOk(s, i)) && Untouched(s); }
    }

    /** r was submitted last. */
    ghost predicate Incoming(r: Request)
      reads this`queueSize, this`queue, this`submitted, this`sent, this`place
    {
      && queueSize == |queue|
      && submitted == sent + queue + [r]
      && (forall i, j | 0 <= i < j < |submitted| :: submitted[i] != submitted[j])
      && (forall x :: x in place <==> x in submitted)
      && (forall x :: x in queue || x == r <==> x in place && place[x] == Queued)
    }

    /** A new request, and the lock on its callback data. */
    method Accept(r: Request)
      requires Valid() && r !in submitted
      modifies this`submitted, this`place, this`locks
      ensures Running() && Slots() && Locked() && Incoming(r) && submitted == old(submitted) + [r] && OthersStay()
      ensures place == old(place)[r := Queued]
    {
      hide Running, Slots, Locked;
      assert sent + [] + queue == sent + queue;
      submitted := submitted + [r];
      place := place[r := Queued];
      locks := locks[r.data := (if r.data in locks then locks[r.data] else 0) + 1];
      AcceptedLocked(r);
      AcceptedSlots(r);
    }

    lemma InHand(r: Request)
      requires Incoming(r) && queue == []
      ensures Backlog([r])
    {
      assert sent + queue + [r] == sent + [r] + queue;
      assert forall x :: x in [r] <==> x == r;
    }

    /** The backlog is more than twice as long as there are servers, and no warning is recent. */
    predicate TooMany(sinceWarning: int, goingDown: bool)
      reads this`queueSize, this`nRunning
    {
      queueSize >= nRunning && sinceWarning >= 30 && !goingDown && queueSize > nRunning * 2
    }

    /** A warning is noted when the backlog is as long as there are servers and the last one is not recent; until
        then the longest backlog since is kept. */
    twostate predicate Warned(now: int, goingDown: bool, fatal: bool)
      reads this`maxQueueSize, this`lastQueueWarn, this`queueSize, this`nRunning
    {
      var full := queueSize >= nRunning;
      var warns := full && now - old(lastQueueWarn) >= 30 && !goingDown && !fatal;
      && lastQueueWarn == (if warns then now else old(lastQueueWarn))
      && maxQueueSize == (if warns || (full && old(maxQueueSize) < queueSize) then queueSize else old(maxQueueSize))
    }

    /** Enqueue's bookkeeping. Fatal says that the code gives up: the backlog is too long, the last warning
        is not recent, and the program is not going down. */
    method Overload(now: int, goingDown: bool) returns (fatal: bool)
      modifies this`maxQueueSize, this`lastQueueWarn
      ensures fatal <==> TooMany(now - old(lastQueueWarn), goingDown)
      ensures Warned(now, goingDown, fatal)
    {
      if queueSize < nRunning { return false; }
      if queueSize > maxQueueSize { maxQueueSize := queueSize; }
      if now - lastQueueWarn < 30 { return false; }
      if goingDown { return false; }
      if queueSize > nRunning * 2 { return true; }
      lastQueueWarn := now;
      maxQueueSize := queueSize;
      return false;
    }

    /** Enqueue. */
    method Enqueue(r: Request, now: int, goingDown: bool) returns (fatal: bool)
      requires Running() && Slots() && Locked() && Incoming(r)
      modifies this`queue, this`queueSize, this`maxQueueSize, this`lastQueueWarn
      ensures Valid() && queue == old(queue) + [r] && (fatal <==> TooMany(now - old(lastQueueWarn), goingDown))
      ensures Warned(now, goingDown, fatal)
    {
      hide Running, Slots, Locked;
      queue := queue + [r];
      queueSize := queueSize + 1;
      assert sent + old(queue) + [r] == sent + [] + queue;
      fatal := Overload(now, goingDown);
    }

    /** r is in the first slot of srv that was free, and was written to srv on that channel; nothing else was. */
    twostate predicate Given(srv: Server, slot: nat, r: Request)
      reads this`place, this`servers, servers, srv
    {
      && srv in servers && r in place && place[r] == InSlot(srv, slot)
      && slot < |old(srv.requests)| && old(srv.requests)[slot].None?
      && (forall j | 0 <= j < slot :: old(srv.requests)[j].Some?)
      && srv.requests == old(srv.requests)[slot := Some(r)] && srv.wire == old(srv.wire) + [(slot, r)]
      && servers == old(servers) && forall s {:trigger Untouched(s)} | s in servers && s != srv :: Untouched(s)
    }

    twostate predicate NoneTouched()
      reads this`servers, servers
    {
      servers == old(servers) && forall s {:trigger Untouched(s)} | s in servers :: Untouched(s)
    }

    /** The request goes to srv at once. */
    method SendAtOnce(srv: Server, r: Request, valid: set<nat>)
      requires Running() && Slots() && Locked() && Incoming(r) && queue == []
      requires srv in servers && srv.pending < Capacity()
      modifies this`sent, this`place, this`locks, srv
      ensures Valid() && sent == old(sent) + [r] && OthersStay()
      ensures r in place && place == old(place)[r := place[r]]
      ensures if r.data in valid then exists slot: nat :: Given(srv, slot, r)
              else place[r] == Ended(Silent) && unchanged(srv)
    {
      hide Backlog, Slots, Locked, Running, Incoming;
      InHand(r);
      Dispatch(srv, r, valid);
      if r.data in valid {
        ghost var slot: nat :| Took(srv, slot, r) && forall j | 0 <= j < slot :: old(srv.requests)[j].Some?;
        assert Given(srv, slot, r);
      }
    }

    /** helperSubmit: to a server that has room, else to the end of the backlog. */
    method Submit(r: Request, valid: set<nat>, now: int, goingDown: bool) returns (fatal: bool)
      requires Valid() && Quiet() && r !in submitted
      modifies this, servers
      ensures Valid() && Quiet() && servers == old(servers) && submitted == old(submitted) + [r] && OthersStay()
      ensures if old(exists s :: s in servers && Available(s)) then
                sent == old(sent) + [r] && queue == old(queue) == [] && !fatal
              else sent == old(sent) && queue == old(queue) + [r]
                   && (fatal <==> TooMany(now - old(lastQueueWarn), goingDown)) && Warned(now, goingDown, fatal)
      ensures r in place && place == old(place)[r := place[r]]
      ensures if old(exists s :: s in servers && Available(s)) then
                if r.data in valid then
                  exists s, slot: nat | s in old(servers) :: old(Available(s) && Chosen(s)) && Given(s, slot, r)
                else place[r] == Ended(Silent) && NoneTouched()
              else place[r] == Queued && NoneTouched()
    {
      hide Backlog, Slots, Locked, Running, Incoming, Chosen, TooMany;
      Accept(r);
      fatal := false;
      var srv := GetFirstAvailable();
      if srv != null {
        assert old(Available(srv) && Chosen(srv));
        label L: SendAtOnce(srv, r, valid);
        if r.data in valid {
          ghost var slot: nat :| Given@L(srv, slot, r);
          assert Given(srv, slot, r);
        }
      } else {
        fatal := Enqueue(r, now, goingDown);
      }
    }

    // ===== the backlog moves =====

    /** Dequeue. */
    method Dequeue() returns (r: Request)
      requires Valid() && queue != []
      modifies this`queue, this`queueSize
      ensures Holding(r) && old(queue) == [r] + queue
    {
      hide Running, Slots, Locked;
      r := queue[0];
      queue := queue[1..];
      queueSize := queueSize - 1;
      assert sent + [] + old(queue) == sent + [r] + queue;
    }

    /** The front of the backlog was sent, each request into a slot or, with stale data, to a silent end. */
    twostate predicate Sped(valid: set<nat>)
      reads this`sent, this`queue, this`place
    {
      && old(sent) <= sent && old(queue) == sent[|old(sent)|..] + queue
      && forall k | |old(sent)| <= k < |sent| ::
           sent[k] in place
           && if sent[k].data in valid then place[sent[k]].InSlot? else place[sent[k]] == Ended(Silent)
    }

    /** helperKickQueue: sends from the front while a server has room. */
    method Kick(valid: set<nat>)
      requires Valid()
      modifies this`queue, this`queueSize, this`sent, this`place, this`locks, servers
      ensures Valid() && Quiet() && servers == old(servers) && submitted == old(submitted) && OthersStay()
      ensures Sped(valid)
      ensures forall s | s in servers :: s.shutdown == old(s.shutdown) && s.closing == old(s.closing)
    {
      hide Running, Backlog, Slots, Locked, Chosen, Holding;
      var srv := GetFirstAvailable();
      while srv != null && queue != []
        invariant Valid() && servers == old(servers) && submitted == old(submitted) && OthersStay()
        invariant Sped(valid)
        invariant forall s | s in servers :: s.shutdown == old(s.shutdown) && s.closing == old(s.closing)
        invariant srv != null ==> srv in servers && Available(srv)
        invariant srv == null ==> forall s | s in servers :: !Available(s)
        decreases |queue|
      {
        ghost var q, n, s := queue, |old(sent)|, sent;
        var r := Dequeue();
        Dispatch(srv, r, valid);
        assert sent[n..] == s[n..] + [r] && s[n..] + q == s[n..] + [r] + queue;
        srv := GetFirstAvailable();
      }
    }

    // ===== replies =====

    /** The request in a slot of srv is over. */
    twostate predicate Gave(srv: Server, slot: nat, r: Request)
      reads this, servers, srv
    {
      && servers == old(servers) && srv in servers && concurrency == old(concurrency)
      && (forall s {:trigger Untouched(s)} | s in servers && s != srv :: Untouched(s))
      && slot < |old(srv.requests)| && old(srv.requests[slot]) == Some(r)
      && srv.requests == old(srv.requests)[slot := None]
      && srv.shutdown == old(srv.shutdown) && srv.closing == old(srv.closing) && srv.wire == old(srv.wire)
      && r in old(place) && r in place && place[r].Ended? && place == old(place)[r := place[r]]
    }

    twostate lemma GaveRunning(srv: Server, new slot: nat, new r: Request)
      requires old(Running()) && Gave(srv, slot, r) && srv.pending == old(srv.pending) - 1
      requires nRunning == old(nRunning) && nActive == old(nActive)
      ensures Running()
    {
      assert old(ServerOk(srv));
      OccupiedUpdate(old(srv.requests), slot, None);
      forall s | s in servers ensures ServerOk(s) && s.shutdown == old(s.shutdown) {
        assert old(ServerOk(s));
        assert s != srv ==> Untouched(s);
      }
      assert Active() == old(Active());
    }

    twostate lemma GaveSlots(srv: Server, new slot: nat, new r: Request)
      requires old(Slots()) && Gave(srv, slot, r)
      ensures Slots() && old(place)[r] == InSlot(srv, slot) && LastOn(srv.wire, slot) == Some(r)
    {
      hide LastOn;
      assert old(SlotOk(srv, slot));
      forall x | x in place ensures InSlotOk(x) {
        assert x != r ==> old(InSlotOk(x));
        if x != r && place[x].InSlot? && place[x].server != srv { assert Untouched(place[x].server); }
      }
      forall s, i: nat | s in servers ensures SlotOk(s, i) {
        assert old(SlotOk(s, i));
        if s != srv { assert Untouched(s); }
      }
    }

    /** Only a place that was a slot has changed. */
    twostate lemma StillQueued(r: Request)
      requires old(Backlog([])) && queue == old(queue) && submitted == old(submitted) && queueSize == old(queueSize)
               && sent == old(sent)
      requires r in old(place) && old(place)[r].InSlot? && r in place && place[r].Ended?
               && place == old(place)[r := place[r]]
      ensures Backlog([])
    {
    }

    lemma InTheSlot(srv: Server, slot: nat)
      requires Running() && Slots() && srv in servers && slot < |srv.requests| && srv.requests[slot].Some?
      ensures var r := srv.requests[slot].value; r in place && place[r] == InSlot(srv, slot)
      ensures srv.pending > 0
    {
      assert SlotOk(srv, slot) && ServerOk(srv);
      OccupiedBounds(srv.requests);
    }

    /** One line of a reply: it finishes the request that was last written on its channel, if that one is still open. */
    method HandleReply(srv: Server, channel: int, msg: string, valid: set<nat>)
      requires Valid() && srv in servers
      modifies this`place, this`locks, srv`requests, srv`pending
      ensures Valid() && EndsKept()
      ensures var i := SlotFor(concurrency, channel);
              if 0 <= i < |old(srv.requests)| && old(srv.requests)[i].Some? then
                var r := old(srv.requests)[i].value;
                LastOn(srv.wire, i) == Some(r) && srv.requests == old(srv.requests)[i := None]
                && place == old(place)[r := Ended(if r.data in valid then Replied(msg) else Silent)]
              else place == old(place) && srv.requests == old(srv.requests)
    {
      hide Running, Backlog, Slots, Locked;
      var i := if concurrency > 0 then channel else 0;
      assert |srv.requests| == Capacity() by { Sized(srv); }
      if !(concurrency == 0 || (i >= 0 && i < concurrency)) { return; }
      if srv.requests[i].None? { return; }
      var r := srv.requests[i].value;
      InTheSlot(srv, i);
      srv.requests := srv.requests[i := None];
      srv.pending := srv.pending - 1;
      RequestFree(r, if r.data in valid then Replied(msg) else Silent);
      assert Gave(srv, i, r);
      GaveRunning(srv, i, r);
      GaveSlots(srv, i, r);
      StillQueued(r);
    }

    lemma Sized(srv: Server)
      requires Running() && srv in servers
      ensures ServerOk(srv) && |srv.requests| == Capacity()
    {
      assert ServerOk(srv);
    }

    /** Only the flags of srv have changed. */
    twostate predicate Flagged(srv: Server)
      reads this`servers, servers, srv
    {
      && servers == old(servers) && srv in servers
      && srv.requests == old(srv.requests) && srv.pending == old(srv.pending) && srv.wire == old(srv.wire)
      && (forall s {:trigger Untouched(s)} | s in servers && s != srv :: Untouched(s))
    }

    twostate lemma FlaggedSlots(srv: Server)
      requires old(Slots()) && Flagged(srv) && place == old(place)
      ensures Slots()
    {
      hide LastOn;
      forall x | x in place ensures InSlotOk(x) {
        assert old(InSlotOk(x));
        if place[x].InSlot? && place[x].server != srv { assert Untouched(place[x].server); }
      }
      forall s, i: nat | s in servers ensures SlotOk(s, i) {
        assert old(SlotOk(s, i));
        if s != srv { assert Untouched(s); }
      }
    }

    twostate lemma FlaggedRunning(srv: Server)
      requires old(Running()) && Flagged(srv) && concurrency == old(concurrency) && nRunning == old(nRunning)
      requires srv.closing ==> srv.shutdown
      requires old(srv.shutdown) ==> srv.shutdown
      requires nActive == old(nActive) - if old(srv.shutdown) == srv.shutdown then 0 else 1
      ensures Running()
    {
      forall s | s in servers ensures ServerOk(s) && (s != srv ==> s.shutdown == old(s.shutdown)) {
        assert old(ServerOk(s));
        assert s != srv ==> Untouched(s);
      }
      assert Active() == if srv.shutdown then old(Active()) - {srv} else old(Active());
    }

    method Close(srv: Server)
      requires Valid() && srv in servers && srv.shutdown
      modifies srv`closing
      ensures Valid() && srv.closing
    {
      hide Running, Slots;
      srv.closing := true;
      FlaggedSlots(srv);
      FlaggedRunning(srv);
    }

    /** The loop of helperHandleRead over the lines. */
    method HandleReplies(srv: Server, lines: seq<(int, string)>, valid: set<nat>)
      requires Valid() && srv in servers
      modifies this`place, this`locks, srv`requests, srv`pending
      ensures Valid() && srv.requests == SlotsAfter(old(srv.requests), concurrency, lines) && EndsKept()
      ensures var answers := Answered(old(srv.requests), concurrency, lines, valid);
              && (forall r | r in answers :: r in place && place[r] == Ended(answers[r]))
              && forall r | r in old(place) && r !in answers :: r in place && place[r] == old(place)[r]
    {
      hide Valid;
      var k := 0;
      while k < |lines|
        invariant EndsKept()
        invariant 0 <= k <= |lines| && Valid() && srv.requests == SlotsAfter(old(srv.requests), concurrency, lines[..k])
        invariant forall r | r in Answered(old(srv.requests), concurrency, lines[..k], valid) ::
                    r in place && place[r] == Ended(Answered(old(srv.requests), concurrency, lines[..k], valid)[r])
        invariant forall r | r in old(place) && r !in Answered(old(srv.requests), concurrency, lines[..k], valid) ::
                    r in place && place[r] == old(place)[r]
      {
        assert lines[..k + 1][..k] == lines[..k];
        HandleReply(srv, lines[k].0, lines[k].1, valid);
        k := k + 1;
      }
      assert lines[..k] == lines;
    }

    /** helperHandleRead on complete lines: a server that was not asked is not heard. Then a server that is
        to shut down and has nothing pending is closed, or else the backlog moves. */
    method HandleRead(srv: Server, lines: seq<(int, string)>, valid: set<nat>)
      requires Valid() && Quiet() && srv in servers
      modifies this, servers
      ensures Valid() && Quiet() && servers == old(servers) && submitted == old(submitted) && Sped(valid)
              && EndsKept()
      ensures nToStart == old(nToStart)
      ensures forall s | s in servers :: s.shutdown == old(s.shutdown) && (s.closing == old(s.closing) || s == srv)
      ensures var rest := SlotsAfter(old(srv.requests), concurrency, if old(srv.pending) > 0 then lines else []);
              srv.closing <==> old(srv.closing) || (srv.shutdown && Occupied(rest) == 0)
      ensures var heard := if old(srv.pending) > 0 then lines else [];
              var answers := Answered(old(srv.requests), concurrency, heard, valid);
              && (forall r | r in answers :: r in place && place[r] == Ended(answers[r]))
              && forall r | r in old(place) && r !in answers && old(place)[r] != Queued ::
                  r in place && place[r] == old(place)[r]
    {
      hide Running, Backlog, Slots, Locked;
      if srv.pending > 0 {
        HandleReplies(srv, lines, valid);
      }
      Sized(srv);
      if srv.shutdown && srv.pending == 0 {
        if !srv.closing { Close(srv); }
      } else {
        Kick(valid);
      }
    }

    // ===== going down =====

    /** A write to srv has ended; more says that another one follows at once. */
    method DispatchDone(srv: Server, ok: bool, more: bool)
      requires Valid() && Quiet() && srv in servers
      modifies srv`writing, srv`closing
      ensures Valid() && Quiet()
      ensures srv.writing <==> old(srv.writing) && (!ok || more)
      ensures srv.closing <==> old(srv.closing) || (ok && !more && srv.shutdown && srv.pending == 0)
    {
      hide Running, Slots;
      if !ok || more { return; }
      Sized(srv);
      srv.writing := false;
      FlaggedSlots(srv);
      FlaggedRunning(srv);
      if srv.shutdown {
        if srv.closing { return; }
        if srv.pending > 0 { return; }
        Close(srv);
      }
    }

    /** helperShutdown: all servers are to go; those with nothing to do are closed. */
    method Shutdown()
      requires Valid() && Quiet()
      modifies this`nActive, servers
      ensures Valid() && Quiet() && nActive == 0
      ensures forall s | s in servers :: s.shutdown && s.requests == old(s.requests) && s.pending == old(s.pending)
      ensures forall s | s in servers ::
                s.closing == (old(s.closing) || (!old(s.shutdown) && !s.writing && s.pending == 0))
    {
      hide Slots, Backlog, Locked, Running;
      var k := 0;
      while k < |servers|
        invariant 0 <= k <= |servers| && Valid() && Quiet()
        invariant forall s | s in servers ::
                    s.requests == old(s.requests) && s.pending == old(s.pending) && s.writing == old(s.writing)
        invariant forall i | 0 <= i < k :: servers[i].shutdown
        invariant forall i | 0 <= i < k ::
                    var s := servers[i];
                    s.closing == (old(s.closing) || (!old(s.shutdown) && !s.writing && s.pending == 0))
        invariant forall i | k <= i < |servers| ::
                    servers[i].shutdown == old(servers[i].shutdown) && servers[i].closing == old(servers[i].closing)
      {
        assert forall i | 0 <= i < |servers| && i != k :: servers[i] != servers[k] by { Apart(k); }
        MarkDown(servers[k]);
        k := k + 1;
      }
      NoneActive();
    }

    lemma Apart(k: nat)
      requires Running() && k < |servers|
      ensures forall i | 0 <= i < |servers| && i != k :: servers[i] != servers[k]
    {
    }

    lemma NoneActive()
      requires Running() && forall i | 0 <= i < |servers| :: servers[i].shutdown
      ensures nActive == 0
    {
      assert Active() == {};
    }

    method MarkDown(srv: Server)
      requires Valid() && srv in servers
      modifies this`nActive, srv`shutdown, srv`closing
      ensures Valid() && srv.shutdown
      ensures srv.closing == (old(srv.closing) || (!old(srv.shutdown) && !srv.writing && srv.pending == 0))
    {
      hide Running, Slots;
      if srv.shutdown { return; }
      Sized(srv);
      nActive := nActive - 1;
      srv.shutdown := true;
      if !srv.writing && !srv.closing && srv.pending == 0 { srv.closing := true; }
      FlaggedSlots(srv);
      FlaggedRunning(srv);
    }

    // ===== starting and losing servers =====

    method AddServer()
      requires Valid()
      modifies this`servers, this`nRunning, this`nActive
      ensures Valid() && |servers| == |old(servers)| + 1 && servers[..|old(servers)|] == old(servers)
      ensures fresh(servers[|old(servers)|])
    {
      hide Backlog, Locked;
      var srv := new Server(Capacity());
      nRunning := nRunning + 1;
      nActive := nActive + 1;
      servers := servers + [srv];
      Added(srv);
    }

    twostate lemma Added(new srv: Server)
      requires old(Running() && Slots()) && fresh(srv) && servers == old(servers) + [srv]
               && concurrency == old(concurrency)
      requires srv.requests == seq(Capacity(), i => None) && srv.pending == 0 && !srv.closing && !srv.shutdown
      requires forall s {:trigger Untouched(s)} | s in old(servers) :: Untouched(s)
      requires nRunning == old(nRunning) + 1 && nActive == old(nActive) + 1 && place == old(place)
      ensures Running() && Slots()
    {
      hide LastOn;
      NothingIn(srv.requests);
      forall s | s in servers ensures ServerOk(s) && (s != srv ==> s.shutdown == old(s.shutdown)) {
        assert s != srv ==> old(ServerOk(s));
        assert s != srv ==> Untouched(s);
      }
      assert Active() == old(Active()) + {srv};
      forall x | x in place ensures InSlotOk(x) {
        assert old(InSlotOk(x));
        if place[x].InSlot? { assert Untouched(place[x].server); }
      }
      forall s, i: nat | s in servers ensures SlotOk(s, i) {
        if s != srv { assert old(SlotOk(s, i)) && Untouched(s); }
      }
    }

    lemma {:induction false} NothingIn(slots: seq<Option<Request>>)
      requires forall i | 0 <= i < |slots| :: slots[i].None?
      ensures Occupied(slots) == 0
    {
      if slots != [] { NothingIn(slots[1..]); }
    }

    /** helperOpenServers: started says which of the processes could be started. */
    method OpenServers(started: seq<bool>, valid: set<nat>, now: int)
      requires Valid() && |started| == nToStart
      modifies this, servers
      ensures Valid() && Quiet() && submitted == old(submitted) && Sped(valid) && OthersStay()
      ensures |servers| == |old(servers)| + CountTrue(started) && servers[..|old(servers)|] == old(servers)
              && lastRestart == now
      ensures forall s | s in servers :: s in old(servers) || fresh(s)
    {
      hide Running, Backlog, Slots, Locked;
      var k := 0;
      while k < nToStart
        invariant Valid() && nToStart == |started| && 0 <= k <= |started| && submitted == old(submitted)
                  && sent == old(sent) && place == old(place)
        invariant |servers| == |old(servers)| + CountTrue(started[..k]) && servers[..|old(servers)|] == old(servers)
        invariant forall i | |old(servers)| <= i < |servers| :: fresh(servers[i])
        modifies this`servers, this`nRunning, this`nActive
      {
        assert started[..k + 1][..k] == started[..k];
        if started[k] {
          ghost var before := servers;
          AddServer();
          assert servers == before + [servers[|before|]];
        }
        k := k + 1;
      }
      assert started[..k] == started;
      lastRestart := now;
      forall s | s in servers ensures s in old(servers) || fresh(s) {
        var i :| 0 <= i < |servers| && servers[i] == s;
        if i < |old(servers)| { assert s == servers[..|old(servers)|][i]; }
      }
      Kick(valid);
    }

    /** All requests in srv's slots end, told of the failure where their data is still valid. */
    method FailSlots(srv: Server, valid: set<nat>)
      requires Backlog([]) && Slots() && Locked() && srv in servers
      modifies this`place, this`locks, srv`requests
      ensures Backlog([]) && Slots() && Locked() && EndsKept()
      ensures srv.requests == seq(|old(srv.requests)|, i => None)
      ensures forall i | 0 <= i < |old(srv.requests)| && old(srv.requests)[i].Some? ::
                var r := old(srv.requests)[i].value;
                r in place && place[r] == Ended(if r.data in valid then Failed else Silent)
      ensures forall r | r in old(place) && !(old(place)[r].InSlot? && old(place)[r].server == srv) ::
                r in place && place[r] == old(place)[r]
    {
      hide Backlog, Slots, Locked, LastOn;
      var i := 0;
      while i < |srv.requests|
        invariant 0 <= i <= |srv.requests| == |old(srv.requests)| && Backlog([]) && Slots() && Locked() && EndsKept()
        invariant forall j | 0 <= j < i :: srv.requests[j].None?
        invariant forall j | i <= j < |srv.requests| :: srv.requests[j] == old(srv.requests)[j]
        invariant forall j | 0 <= j < i && old(srv.requests)[j].Some? ::
                    var r := old(srv.requests)[j].value;
                    r in place && place[r] == Ended(if r.data in valid then Failed else Silent)
        invariant forall r | r in old(place) && !(old(place)[r].InSlot? && old(place)[r].server == srv) ::
                    r in place && place[r] == old(place)[r]
        modifies this`place, this`locks, srv`requests
      {
        if srv.requests[i].Some? { FailSlot(srv, i, valid); }
        i := i + 1;
      }
    }

    method FailSlot(srv: Server, i: nat, valid: set<nat>)
      requires Backlog([]) && Slots() && Locked() && srv in servers && i < |srv.requests| && srv.requests[i].Some?
      modifies this`place, this`locks, srv`requests
      ensures Backlog([]) && Slots() && Locked()
      ensures srv.requests == old(srv.requests)[i := None]
      ensures var r := old(srv.requests)[i].value;
              r in old(place) && old(place)[r] == InSlot(srv, i)
              && place == old(place)[r := Ended(if r.data in valid then Failed else Silent)]
    {
      hide Backlog, Slots, Locked, LastOn;
      var r := srv.requests[i].value;
      InThatSlot(srv, i);
      srv.requests := srv.requests[i := None];
      RequestFree(r, if r.data in valid then Failed else Silent);
      GaveSlots(srv, i, r);
      StillQueued(r);
    }

    lemma InThatSlot(srv: Server, slot: nat)
      requires Slots() && srv in servers && slot < |srv.requests| && srv.requests[slot].Some?
      ensures var r := srv.requests[slot].value; r in place && place[r] == InSlot(srv, slot)
    {
      assert SlotOk(srv, slot);
    }

    /** srv has left the list, its slots empty. */
    twostate predicate Lost(srv: Server, k: nat)
      reads this`servers, servers
    {
      && k < |old(servers)| && old(servers)[k] == srv && servers == old(servers)[..k] + old(servers)[k + 1..]
      && (forall s {:trigger Untouched(s)} | s in old(servers) && s != srv && s in servers :: Untouched(s))
    }

    twostate lemma LostOthers(srv: Server, new k: nat)
      requires old(Running()) && Lost(srv, k)
      ensures forall s :: s in servers <==> s in old(servers) && s != srv
      ensures Distinct(servers) && |servers| == |old(servers)| - 1
    {
      forall s | s in old(servers) && s != srv ensures s in servers {
        var i :| 0 <= i < |old(servers)| && old(servers)[i] == s;
        if i < k { assert servers[i] == s; } else { assert servers[i - 1] == s; }
      }
      forall s | s in servers ensures s in old(servers) && s != srv {
        var i :| 0 <= i < |servers| && servers[i] == s;
        assert s == if i < k then old(servers)[i] else old(servers)[i + 1];
      }
    }

    twostate lemma LostRunning(srv: Server, new k: nat)
      requires old(Running()) && Lost(srv, k) && concurrency == old(concurrency) && nRunning == old(nRunning) - 1
      requires nActive == old(nActive) - if old(srv.shutdown) then 0 else 1
      ensures Running()
    {
      LostOthers(srv, k);
      forall s | s in servers ensures ServerOk(s) && s.shutdown == old(s.shutdown) {
        assert old(ServerOk(s)) && Untouched(s);
      }
      assert Active() == old(Active()) - {srv};
    }

    /** dlinkDelete takes srv, its slots empty, off the list. */
    method Unlink(srv: Server) returns (k: nat)
      requires Slots() && srv in servers && Distinct(servers)
      requires forall i | 0 <= i < |srv.requests| :: srv.requests[i].None?
      modifies this`servers
      ensures Slots() && k < |old(servers)| && old(servers)[k] == srv
      ensures servers == old(servers)[..k] + old(servers)[k + 1..]
    {
      hide LastOn;
      k := 0;
      while servers[k] != srv
        invariant 0 <= k < |servers| && srv !in servers[..k]
        decreases |servers| - k
      {
        k := k + 1;
      }
      servers := servers[..k] + servers[k + 1..];
      forall s | s in old(servers) && s != srv ensures s in servers {
        var i :| 0 <= i < |old(servers)| && old(servers)[i] == s;
        if i < k { assert servers[i] == s; } else { assert servers[i - 1] == s; }
      }
      forall x | x in place ensures InSlotOk(x) { assert old(InSlotOk(x)); }
      forall s, i: nat | s in servers ensures SlotOk(s, i) { assert old(SlotOk(s, i)); }
    }

    /** helperServerFree, when a server's connection closes: its requests fail, and when too few servers are
        left that were not told to go, new ones are started. Fatal says that they die too fast. */
    method ServerFree(srv: Server, started: seq<bool>, valid: set<nat>, now: int) returns (fatal: bool)
      requires Valid() && Quiet() && srv in servers && |started| == nToStart
      modifies this, servers
      ensures Valid() && Quiet() && submitted == old(submitted) && Sped(valid) && EndsKept()
      ensures forall i | 0 <= i < |old(srv.requests)| && old(srv.requests)[i].Some? ::
                var r := old(srv.requests)[i].value;
                r in place && place[r] == Ended(if r.data in valid then Failed else Silent)
      ensures forall r | r in old(place) && old(place)[r] != Queued
              && !(old(place)[r].InSlot? && old(place)[r].server == srv) ::
                r in place && place[r] == old(place)[r]
      ensures forall s | s in old(servers) && s != srv :: s in servers
      ensures srv !in servers
      ensures var few := !old(srv.shutdown) && old(nActive) - 1 <= old(nToStart) / 2;
              && (fatal <==> few && old(lastRestart) > now - 30)
              && |servers| == |old(servers)| - 1 + if few && !fatal then CountTrue(started) else 0
    {
      hide Backlog, Slots, Locked, Running, LastOn, Active, Occupied;
      assert Distinct(servers) by { Listed(); }
      FailSlots(srv, valid);
      ghost var k := Unlink(srv);
      nRunning := nRunning - 1;
      assert Lost(srv, k);
      fatal := false;
      if srv.shutdown {
        LostRunning(srv, k);
        LostOthers(srv, k);
      } else {
        nActive := nActive - 1;
        LostRunning(srv, k);
        LostOthers(srv, k);
        if nActive <= nToStart / 2 {
          if lastRestart > now - 30 { return true; }
          OpenServers(started, valid, now);
        }
      }
    }

    lemma Listed()
      requires Running()
      ensures Distinct(servers)
    {
    }

    // ===== what the invariant says =====

    /** No overtaking: what was sent is the front of what was submitted, and the backlog is the rest. */
    lemma InOrder()
      requires Valid()
      ensures |sent| <= |submitted| && submitted[..|sent|] == sent && submitted[|sent|..] == queue
    {
      assert sent + [] + queue == sent + queue;
    }

    /** A request holds at most one slot, and then it is neither in the backlog nor over. */
    lemma OneSlot(s: Server, i: nat, t: Server, j: nat)
      requires Valid() && s in servers && t in servers && i < |s.requests| && j < |t.requests|
      requires s.requests[i].Some? && s.requests[i] == t.requests[j]
      ensures s == t && i == j
      ensures var r := s.requests[i].value; r !in queue && r in place && !place[r].Ended?
    {
      assert SlotOk(s, i) && SlotOk(t, j);
    }

    /** A server never has more pending than it has slots: one, unless it takes requests by number. */
    lemma Bounded(s: Server)
      requires Valid() && s in servers
      ensures s.pending == Occupied(s.requests) <= |s.requests|
      ensures |s.requests| == if concurrency == 0 then 1 else concurrency
    {
      assert ServerOk(s);
      OccupiedBounds(s.requests);
    }
  }
}
