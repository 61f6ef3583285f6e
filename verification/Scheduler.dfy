/** The request pool: free, ready and blocked queues, and the calls that move requests between them. */
module Scheduler {
  import opened RequestQueues

  const REQUEST_TIMEOUT: int := 60

  /** The descriptor a blocked request waits for, and whether it waits to write. */
  datatype Wait = Reads(fd: int) | Writes(fd: int)

  function WaitFor(r: Request): Wait
    reads r`buffer_end, r`status, r`fd, r`data_fd, r`post_data_fd
  {
    if r.buffer_end != 0 then Writes(r.fd)
    else
      match r.status
      case PipeWrite => Writes(r.fd)
      case Write => Writes(r.fd)
      case PipeRead => Reads(r.data_fd)
      case BodyWrite => Writes(r.post_data_fd)
      case _ => Reads(r.fd)
  }

  /** The two descriptor sets. */
  datatype Fds = Fds(read: set<int>, write: set<int>)

  predicate Has(f: Fds, w: Wait) {
    match w
    case Reads(fd) => fd in f.read
    case Writes(fd) => fd in f.write
  }

  function With(f: Fds, w: Wait): Fds {
    match w
    case Reads(fd) => f.(read := f.read + {fd})
    case Writes(fd) => f.(write := f.write + {fd})
  }

  function Without(f: Fds, w: Wait): Fds {
    match w
    case Reads(fd) => f.(read := f.read - {fd})
    case Writes(fd) => f.(write := f.write - {fd})
  }

  /** The descriptors a request waits for, to read and to write. */
  ghost function ReadSet(r: Request): set<int>
    reads r`buffer_end, r`status, r`fd, r`data_fd
  {
    if r.buffer_end != 0 || r.status == PipeWrite || r.status == Write || r.status == BodyWrite then {}
    else if r.status == PipeRead then {r.data_fd} else {r.fd}
  }

  ghost function WriteSet(r: Request): set<int>
    reads r`buffer_end, r`status, r`fd, r`post_data_fd
  {
    if r.buffer_end != 0 || r.status == PipeWrite || r.status == Write then {r.fd}
    else if r.status == BodyWrite then {r.post_data_fd} else {}
  }

  lemma MarksAre(r: Request, f: Fds)
    ensures Has(f, WaitFor(r)) <==> ReadSet(r) <= f.read && WriteSet(r) <= f.write
  {
  }

  /** The effect of one `Connection:` header line in this configuration: keep-alive is only ever switched off. */
  function ConnectionHeader(k: Keepalive, ka_max: int): (r: Keepalive)
    ensures r == Active ==> k == Active && ka_max == 0
    ensures ka_max != 0 ==> r == Stopped
  {
    if ka_max != 0 && k != Stopped then Stopped else k
  }

  /** What one round does to a request; any values are possible. A handler returns -1 (blocked), 0 (complete),
      1 (more to do) or anything else (error), and has then written `written` bytes of output. `send_r_error` adds a page
      and flushes: `error_left` is what then remains in the buffer, nothing if all was sent or sending failed. */
  datatype Reply = Reply(retval: int, status: Status, written: nat, error_left: nat, flushed: bool,
    connection_headers: bool, data_fd: int, post_data_fd: int, logline: bool, response_status: int)

  predicate HasHandler(s: Status) { s != Close && s != OtherStatus }

  datatype Fate = Moves | Completes | Continues | Lingers

  /** Where a ready request goes, from its state before the round. */
  function FateOf(buffer_end: nat, status: Status, reply: Reply): Fate {
    if buffer_end != 0 then
      if status != Close then Continues else if reply.flushed then Completes else Lingers
    else if !HasHandler(status) then Completes
    else if reply.retval == -1 then Moves
    else if reply.retval == 1 then Continues
    else if (if reply.retval == 0 then reply.written else reply.error_left) == 0 then Completes
    else Lingers
  }

  /** What `fdset_update` sees of a blocked request: its descriptor, whether it has waited too long, and whether it has
      output pending. */
  datatype Look = Look(wait: Wait, late: bool, pending: bool)

  /** What becomes of it; one with output pending is not freed even when it is late. */
  function Outcome(l: Look, f: Fds): Fate {
    if l.late then (if l.pending then Lingers else Completes) else if Has(f, l.wait) then Moves else Continues
  }

  /** The descriptor sets behind it: cleared for one that leaves, set for one that stays and has no output pending. */
  function AfterLook(l: Look, f: Fds): Fds {
    match Outcome(l, f)
    case Continues => if l.pending then f else With(f, l.wait)
    case Lingers => f
    case _ => Without(f, l.wait)
  }

  /** The descriptor sets after the first `n` requests of the walk. */
  ghost function WalkTo(ls: seq<Look>, n: nat, f: Fds): Fds
    requires n <= |ls|
  {
    if n == 0 then f else AfterLook(ls[n - 1], WalkTo(ls, n - 1, f))
  }

  /** While the first `n` are walked, a descriptor none of them waits for keeps its mark. */
  lemma {:induction false} WalkKeeps(ls: seq<Look>, n: nat, f: Fds, w: Wait)
    requires n <= |ls| && forall i :: 0 <= i < n ==> ls[i].wait != w
    ensures Has(WalkTo(ls, n, f), w) <==> Has(f, w)
  {
    if n > 0 { WalkKeeps(ls, n - 1, f, w); }
  }

  /** No two requests wait for the same descriptor. */
  ghost predicate SeparateWaits(ls: seq<Look>) { forall j, k :: 0 <= j < k < |ls| ==> ls[j].wait != ls[k].wait }

  /** Which requests find their descriptor marked. */
  ghost function MarksOf(rs: seq<Request>, f: Fds): (marks: seq<bool>)
    reads rs
    ensures |marks| == |rs|
    ensures forall i :: 0 <= i < |rs| ==> marks[i] == (ReadSet(rs[i]) <= f.read && WriteSet(rs[i]) <= f.write)
    ensures forall i :: 0 <= i < |rs| ==> marks[i] == Has(f, WaitFor(rs[i]))
  {
    if rs == [] then []
    else
      MarksAre(rs[0], f);
      [ReadSet(rs[0]) <= f.read && WriteSet(rs[0]) <= f.write] + MarksOf(rs[1..], f)
  }

  /** When no two requests wait for the same descriptor, each one's fate is decided by its own mark before the walk. */
  lemma OwnMarksDecide(ls: seq<Look>, f: Fds, i: nat)
    requires i < |ls| && SeparateWaits(ls)
    ensures Outcome(ls[i], WalkTo(ls, i, f)) == Outcome(ls[i], f)
  {
    WalkKeeps(ls, i, f, ls[i].wait);
  }

  /** Then all that stay and have no output pending are watched behind the walk. */
  lemma {:induction false} StayersAreWatched(ls: seq<Look>, f: Fds, i: nat, n: nat)
    requires i < n <= |ls| && SeparateWaits(ls)
    requires Outcome(ls[i], f) == Continues && !ls[i].pending
    ensures Has(WalkTo(ls, n, f), ls[i].wait)
    decreases n
  {
    if n == i + 1 { OwnMarksDecide(ls, f, i); } else { StayersAreWatched(ls, f, i, n - 1); }
  }

  /** The requests with one of the given fates, in order. */
  ghost function Pick(rs: seq<Request>, fates: seq<Fate>, which: set<Fate>): seq<Request>
    requires |rs| == |fates|
  {
    if rs == [] then []
    else
      var n := |rs| - 1;
      Pick(rs[..n], fates[..n], which) + if fates[n] in which then [rs[n]] else []
  }

  function Reversed<T>(s: seq<T>): (r: seq<T>)
    ensures |r| == |s|
  {
    if s == [] then [] else [s[|s| - 1]] + Reversed(s[..|s| - 1])
  }

  lemma PickStep(rs: seq<Request>, fates: seq<Fate>, r: Request, f: Fate, which: set<Fate>)
    requires |rs| == |fates|
    ensures Pick(rs + [r], fates + [f], which) == Pick(rs, fates, which) + if f in which then [r] else []
  {
    assert (rs + [r])[..|rs|] == rs && (fates + [f])[..|rs|] == fates;
  }

  lemma ReversedStep<T>(s: seq<T>, x: T)
    ensures Reversed(s + [x]) == [x] + Reversed(s)
  {
    assert (s + [x])[..|s|] == s;
  }

  // ----- queues as parts of the pool

  /** Every request of the pool is in exactly one of the queues, or among the ones held outside. */
  ghost predicate Partition(pool: set<Request>, free: seq<Request>, ready: seq<Request>, blocked: seq<Request>,
      out: seq<Request>)
  {
    multiset(free) + multiset(ready) + multiset(blocked) + multiset(out) == multiset(pool)
  }

  ghost predicate Apart(s: seq<Request>, t: seq<Request>) {
    forall i, j :: 0 <= i < |s| && 0 <= j < |t| ==> s[i] != t[j]
  }

  lemma InPool(pool: set<Request>, free: seq<Request>, ready: seq<Request>, blocked: seq<Request>, out: seq<Request>)
    requires Partition(pool, free, ready, blocked, out)
    ensures Distinct(free) && Distinct(ready) && Distinct(blocked) && Distinct(out)
    ensures forall r :: r in free ==> r in pool && r !in ready && r !in blocked && r !in out
    ensures forall r :: r in ready ==> r in pool && r !in free && r !in blocked && r !in out
    ensures forall r :: r in blocked ==> r in pool && r !in free && r !in ready && r !in out
    ensures forall r :: r in out ==> r in pool && r !in free && r !in ready && r !in blocked
    ensures Apart(free, ready) && Apart(free, blocked) && Apart(ready, blocked)
    ensures Apart(out, free) && Apart(out, ready) && Apart(out, blocked)
    ensures forall r :: r in pool ==> r in free || r in ready || r in blocked || r in out
  {
    var all := multiset(pool);
    forall r ensures multiset(free)[r] + multiset(ready)[r] + multiset(blocked)[r] + multiset(out)[r] == all[r] <= 1
    {
    }
    Once(free); Once(ready); Once(blocked); Once(out);
    forall r | r in free ensures r in pool && r !in ready && r !in blocked && r !in out {
      assert r in multiset(free);
      assert r in ready <==> r in multiset(ready);
      assert r in blocked <==> r in multiset(blocked);
      assert r in out <==> r in multiset(out);
    }
    forall r | r in ready ensures r in pool && r !in blocked && r !in out {
      assert r in multiset(ready);
      assert r in blocked <==> r in multiset(blocked);
      assert r in out <==> r in multiset(out);
    }
    forall r | r in blocked ensures r in pool && r !in out {
      assert r in multiset(blocked);
      assert r in out <==> r in multiset(out);
    }
    forall i | 0 <= i < |free| ensures free[i] in free { }
    forall i | 0 <= i < |ready| ensures ready[i] in ready { }
    forall i | 0 <= i < |blocked| ensures blocked[i] in blocked { }
    forall i | 0 <= i < |out| ensures out[i] in out { }
    forall r | r in out ensures r in pool { assert r in multiset(out); }
    forall r | r in pool ensures r in free || r in ready || r in blocked || r in out {
      assert r in all;
      assert r in multiset(free) + multiset(ready) + multiset(blocked) + multiset(out);
    }
  }

  lemma Once(s: seq<Request>)
    requires forall r :: multiset(s)[r] <= 1
    ensures Distinct(s)
  {
    forall i, j | 0 <= i < j < |s| ensures s[i] != s[j] {
      assert s == s[..i] + [s[i]] + s[i + 1..j] + [s[j]] + s[j + 1..];
      assert multiset(s)[s[i]] >= 1 + if s[i] == s[j] then 1 else 0;
    }
  }

  lemma MultisetRemove(s: seq<Request>, k: nat)
    requires k < |s|
    ensures multiset(s) == multiset(RemoveAt(s, k)) + multiset([s[k]])
  {
    assert s == s[..k] + [s[k]] + s[k + 1..];
  }

  lemma RemoveSubset(s: seq<Request>, k: nat, req: Request)
    requires k < |s| && s[k] == req
    ensures forall r :: r in RemoveAt(s, k) ==> r in s
    ensures [s[k]] == [req] && req in s
  {
  }

  lemma HeadAndTail(s: seq<Request>)
    ensures s != [] ==> [s[0]] + s[1..] == s
  {
  }

  lemma HeadDiffers(s: seq<Request>, req: Request)
    ensures [req][0] == req && req in [req] && (s != [] ==> s[0] in s)
    ensures forall r :: r in [req] + s <==> r == req || r in s
  {
  }

  lemma NextIn(head: Request?, rs: seq<Request>, k: nat)
    requires Queue(head, rs) && k < |rs|
    ensures rs[k].next == if k + 1 < |rs| then rs[k + 1] else null
  {
  }

  lemma PutKeeps(pool: set<Request>, free: seq<Request>, ready: seq<Request>, blocked: seq<Request>, req: Request)
    requires Partition(pool, free, ready, blocked, [req])
    ensures Partition(pool, [req] + free, ready, blocked, [])
    ensures Partition(pool, free, [req] + ready, blocked, [])
    ensures Partition(pool, free, ready, [req] + blocked, [])
  {
  }

  lemma TakeKeeps(pool: set<Request>, free: seq<Request>, ready: seq<Request>, blocked: seq<Request>, k: nat)
    requires Partition(pool, free, ready, blocked, [])
    ensures k < |free| ==> Partition(pool, RemoveAt(free, k), ready, blocked, [free[k]])
    ensures k < |ready| ==> Partition(pool, free, RemoveAt(ready, k), blocked, [ready[k]])
    ensures k < |blocked| ==> Partition(pool, free, ready, RemoveAt(blocked, k), [blocked[k]])
  {
    if k < |free| { MultisetRemove(free, k); }
    if k < |ready| { MultisetRemove(ready, k); }
    if k < |blocked| { MultisetRemove(blocked, k); }
  }

  ghost predicate Inside(rs: seq<Request>, pool: set<Request>) { forall r :: r in rs ==> r in pool }

  lemma IsInside(rs: seq<Request>, pool: set<Request>, n: nat)
    requires Inside(rs, pool) && n < |rs|
    ensures rs[n] in pool
  {
  }

  lemma OthersDiffer(rs: seq<Request>, n: nat)
    requires Distinct(rs) && n < |rs|
    ensures forall i :: 0 <= i < |rs| && i != n ==> rs[i] != rs[n]
  {
  }

  ghost function Snapshot(rs: seq<Request>): (s: seq<(nat, Status)>)
    reads rs`buffer_end, rs`status
    ensures |s| == |rs| && forall i :: 0 <= i < |rs| ==> s[i] == (rs[i].buffer_end, rs[i].status)
  {
    if rs == [] then [] else [(rs[0].buffer_end, rs[0].status)] + Snapshot(rs[1..])
  }

  /** The ready queue after the round of its `k`th request. */
  ghost function Stay(fate: Fate, ready: seq<Request>, k: nat): seq<Request>
    requires k < |ready|
  {
    if fate in {Moves, Completes} then RemoveAt(ready, k) else ready
  }

  ghost function If(b: bool, r: Request, rs: seq<Request>): seq<Request> { (if b then [r] else []) + rs }

  /** The queues after the rounds of `visited`, when `rest` is still to come. */
  ghost predicate Sorted(visited: seq<Request>, fates: seq<Fate>, rest: seq<Request>, free: seq<Request>,
      ready: seq<Request>, blocked: seq<Request>, free0: seq<Request>, blocked0: seq<Request>)
  {
    |visited| == |fates| &&
    ready == Pick(visited, fates, {Continues, Lingers}) + rest &&
    blocked == Reversed(Pick(visited, fates, {Moves})) + blocked0 &&
    free == Reversed(Pick(visited, fates, {Completes})) + free0
  }

  ghost predicate SortedAt(rs: seq<Request>, fates: seq<Fate>, n: nat, free: seq<Request>, ready: seq<Request>,
      blocked: seq<Request>, free0: seq<Request>, blocked0: seq<Request>)
  {
    n <= |rs| && n <= |fates| && Sorted(rs[..n], fates[..n], rs[n..], free, ready, blocked, free0, blocked0)
  }

  /** The next round's request stands behind the ones that stayed. */
  lemma NextStands(rs: seq<Request>, fates: seq<Fate>, n: nat, free: seq<Request>, ready: seq<Request>,
      blocked: seq<Request>, free0: seq<Request>, blocked0: seq<Request>)
    returns (k: nat)
    requires n < |rs| && n < |fates| && SortedAt(rs, fates, n, free, ready, blocked, free0, blocked0)
    ensures k < |ready| && ready[k] == rs[n]
    ensures (if k + 1 < |ready| then ready[k + 1] else null) == if n + 1 < |rs| then rs[n + 1] else null
    ensures var fate := fates[n];
      SortedAt(rs, fates, n + 1,
        If(fate == Completes, rs[n], free), Stay(fate, ready, k), If(fate == Moves, rs[n], blocked), free0, blocked0)
  {
    k := |ready| - |rs[n..]|;
    SortedStep(rs[..n], fates[..n], rs[n..], free, ready, blocked, free0, blocked0, fates[n]);
    assert rs[..n] + [rs[n]] == rs[..n + 1] && fates[..n] + [fates[n]] == fates[..n + 1] && rs[n..][1..] == rs[n + 1..];
  }

  lemma SortedStep(visited: seq<Request>, fates: seq<Fate>, rest: seq<Request>, free: seq<Request>,
      ready: seq<Request>, blocked: seq<Request>, free0: seq<Request>, blocked0: seq<Request>, fate: Fate)
    requires Sorted(visited, fates, rest, free, ready, blocked, free0, blocked0) && rest != []
    ensures |ready| >= |rest| && Sorted(visited + [rest[0]], fates + [fate], rest[1..],
      If(fate == Completes, rest[0], free), Stay(fate, ready, |ready| - |rest|), If(fate == Moves, rest[0], blocked),
      free0, blocked0)
  {
    hide Pick, Reversed;
    var r := rest[0];
    PickStep(visited, fates, r, fate, {Continues, Lingers});
    PickStep(visited, fates, r, fate, {Moves});
    PickStep(visited, fates, r, fate, {Completes});
    var p, b, c := Pick(visited, fates, {Continues, Lingers}), Pick(visited, fates, {Moves}), Pick(visited, fates, {Completes});
    StayStep(p, rest, fate);
    IfStep(fate == Moves, b, r, blocked0);
    IfStep(fate == Completes, c, r, free0);
  }

  lemma StayStep(p: seq<Request>, rest: seq<Request>, fate: Fate)
    requires rest != []
    ensures Stay(fate, p + rest, |p|) == p + (if fate in {Continues, Lingers} then [rest[0]] else []) + rest[1..]
  {
  }

  lemma IfStep(b: bool, picked: seq<Request>, r: Request, rest: seq<Request>)
    ensures If(b, r, Reversed(picked) + rest) == Reversed(picked + if b then [r] else []) + rest
  {
    if b {
      ReversedStep(picked, r);
    } else {
      assert picked + [] == picked;
    }
  }

  /** The list a request is to be taken from. */
  datatype From = FromReady | FromBlock | FromNone

  /** One top-level call of the main loop, or the passing of time. */
  datatype Event =
    | Tick(now: int)
    | LameDuck
    | Connect(at_limit: bool, fd: int, named: bool)
    | Update(ka_timeout: int)
    | Process(handle: nat -> Reply)
    | Select(read: set<int>, write: set<int>)

  class Server {
    var request_free: Request?
    var request_ready: Request?
    var request_block: Request?
    var block_read_fdset: set<int>
    var block_write_fdset: set<int>
    var time_counter: int
    var lame_duck_mode: bool
    const ka_max: int
    ghost var pool: set<Request>
    ghost var free: seq<Request>
    ghost var ready: seq<Request>
    ghost var blocked: seq<Request>

    /** All three queues are well formed, and together with `out` they hold each request of the pool once. */
    ghost predicate Queues(out: seq<Request>)
      reads this`pool, this`free, this`ready, this`blocked
      reads this`request_free, this`request_ready, this`request_block, pool`next, pool`prev
    {
      Partition(pool, free, ready, blocked, out) &&
      (forall r :: r in free ==> r in pool) && (forall r :: r in ready ==> r in pool) &&
      (forall r :: r in blocked ==> r in pool) &&
      Queue(request_free, free) && Queue(request_ready, ready) && Queue(request_block, blocked)
    }

    /** Connections in use never keep alive. */
    ghost predicate InUse()
      reads this`pool, this`ready, this`blocked, pool`keepalive, pool`kacount
      requires (forall r :: r in ready ==> r in pool) && (forall r :: r in blocked ==> r in pool)
    {
      (forall r :: r in ready ==> r.keepalive != Active && r.kacount == 0) &&
      (forall r :: r in blocked ==> r.keepalive != Active && r.kacount == 0)
    }

    ghost predicate Valid()
      reads this`pool, this`free, this`ready, this`blocked
      reads this`request_free, this`request_ready, this`request_block, pool`next, pool`prev, pool`keepalive, pool`kacount
    {
      Queues([]) && InUse()
    }

    /** No blocked request has output pending. */
    ghost predicate NoBacklog()
      reads this`blocked, blocked`buffer_end
    {
      forall r :: r in blocked ==> r.buffer_end == 0
    }

    constructor (ka_max: int)
      ensures Valid() && pool == {} && free == ready == blocked == []
    {
      this.ka_max := ka_max;
      request_free, request_ready, request_block := null, null, null;
      block_read_fdset, block_write_fdset, time_counter, lame_duck_mode := {}, {}, 0, false;
      pool, free, ready, blocked := {}, [], [], [];
    }

    /** The branch conditions of `fdset_update` for giving up on a request. */
    predicate Expired(r: Request, ka_timeout: int)
      reads this`time_counter, r`kacount, r`time_last, r`logline
    {
      (r.kacount != 0 && time_counter - r.time_last >= ka_timeout && !r.logline) ||
      time_counter - r.time_last > REQUEST_TIMEOUT
    }

    /** `init_free_requests`: the uninitialised structs go on the free list. */
    method InitFreeRequests(num: nat)
      requires Valid() && pool == {} && free == ready == blocked == []
      modifies this
      ensures Valid() && fresh(pool) && |free| == |pool| == num && ready == [] && blocked == []
    {
      var i := 0;
      while i < num
        invariant i <= num && |free| == |pool| == i && ready == [] && blocked == [] && Queues([]) && fresh(pool)
      {
        var req := new Request();
        assert multiset(pool + {req}) == multiset(pool) + multiset([req]);
        pool := pool + {req};
        PutFree(req);
        i := i + 1;
      }
    }

    // ----- moving one request

    method PutFree(req: Request)
      requires Queues([req])
      modifies this`request_free, this`free, pool`next, pool`prev
      ensures Queues([]) && free == [req] + old(free)
      ensures forall r :: r in free <==> r == req || r in old(free)
    {
      hide Partition, Distinct, Queue, RemoveAt;
      InPool(pool, free, ready, blocked, [req]);
      PutKeeps(pool, free, ready, blocked, req);
      HeadDiffers(free, req);
      request_free := Enqueue(request_free, req, free);
      free := [req] + free;
    }

    method TakeFree(req: Request, ghost k: nat)
      requires Queues([]) && k < |free| && free[k] == req
      modifies this`request_free, this`free, pool`next, pool`prev
      ensures Queues([req]) && free == RemoveAt(old(free), k)
      ensures forall r :: r in free ==> r in old(free)
    {
      hide Partition, Distinct, Queue, RemoveAt;
      InPool(pool, free, ready, blocked, []);
      TakeKeeps(pool, free, ready, blocked, k);
      RemoveSubset(free, k, req);
      request_free := Dequeue(request_free, req, free, k);
      free := RemoveAt(free, k);
    }

    method PutReady(req: Request)
      requires Queues([req])
      modifies this`request_ready, this`ready, pool`next, pool`prev
      ensures Queues([]) && ready == [req] + old(ready)
      ensures forall r :: r in ready <==> r == req || r in old(ready)
    {
      hide Partition, Distinct, Queue, RemoveAt;
      InPool(pool, free, ready, blocked, [req]);
      PutKeeps(pool, free, ready, blocked, req);
      HeadDiffers(ready, req);
      request_ready := Enqueue(request_ready, req, ready);
      ready := [req] + ready;
    }

    method TakeReady(req: Request, ghost k: nat)
      requires Queues([]) && k < |ready| && ready[k] == req
      modifies this`request_ready, this`ready, pool`next, pool`prev
      ensures Queues([req]) && ready == RemoveAt(old(ready), k)
      ensures forall r :: r in ready ==> r in old(ready)
    {
      hide Partition, Distinct, Queue, RemoveAt;
      InPool(pool, free, ready, blocked, []);
      TakeKeeps(pool, free, ready, blocked, k);
      RemoveSubset(ready, k, req);
      request_ready := Dequeue(request_ready, req, ready, k);
      ready := RemoveAt(ready, k);
    }

    method PutBlocked(req: Request)
      requires Queues([req])
      modifies this`request_block, this`blocked, pool`next, pool`prev
      ensures Queues([]) && blocked == [req] + old(blocked)
      ensures forall r :: r in blocked <==> r == req || r in old(blocked)
    {
      hide Partition, Distinct, Queue, RemoveAt;
      InPool(pool, free, ready, blocked, [req]);
      PutKeeps(pool, free, ready, blocked, req);
      HeadDiffers(blocked, req);
      request_block := Enqueue(request_block, req, blocked);
      blocked := [req] + blocked;
    }

    method TakeBlocked(req: Request, ghost k: nat)
      requires Queues([]) && k < |blocked| && blocked[k] == req
      modifies this`request_block, this`blocked, pool`next, pool`prev
      ensures Queues([req]) && blocked == RemoveAt(old(blocked), k)
      ensures forall r :: r in blocked ==> r in old(blocked)
    {
      hide Partition, Distinct, Queue, RemoveAt;
      InPool(pool, free, ready, blocked, []);
      TakeKeeps(pool, free, ready, blocked, k);
      RemoveSubset(blocked, k, req);
      request_block := Dequeue(request_block, req, blocked, k);
      blocked := RemoveAt(blocked, k);
    }

    method FdSet(req: Request)
      modifies this`block_read_fdset, this`block_write_fdset
      ensures Sets() == With(old(Sets()), WaitFor(req))
      ensures block_read_fdset == old(block_read_fdset) + ReadSet(req)
      ensures block_write_fdset == old(block_write_fdset) + WriteSet(req)
    {
      match WaitFor(req)
      case Reads(fd) => block_read_fdset := block_read_fdset + {fd};
      case Writes(fd) => block_write_fdset := block_write_fdset + {fd};
    }

    method FdClear(req: Request)
      modifies this`block_read_fdset, this`block_write_fdset
      ensures Sets() == Without(old(Sets()), WaitFor(req))
      ensures block_read_fdset == old(block_read_fdset) - ReadSet(req)
      ensures block_write_fdset == old(block_write_fdset) - WriteSet(req)
    {
      match WaitFor(req)
      case Reads(fd) => block_read_fdset := block_read_fdset - {fd};
      case Writes(fd) => block_write_fdset := block_write_fdset - {fd};
    }

    function Sets(): Fds
      reads this`block_read_fdset, this`block_write_fdset
    {
      Fds(block_read_fdset, block_write_fdset)
    }

    // ----- the calls of the scheduler

    /** `block_request` */
    method BlockRequest(req: Request, ghost k: nat)
      requires Valid() && k < |ready| && ready[k] == req
      modifies this, pool`next, pool`prev
      ensures Valid() && pool == old(pool) && free == old(free) && Sets() == With(old(Sets()), WaitFor(req))
      ensures ready == RemoveAt(old(ready), k) && blocked == [req] + old(blocked)
      ensures block_read_fdset == old(block_read_fdset) + ReadSet(req)
      ensures block_write_fdset == old(block_write_fdset) + WriteSet(req)
      ensures time_counter == old(time_counter) && lame_duck_mode == old(lame_duck_mode)
    {
      hide Partition, Queue, WaitFor, With, ReadSet, WriteSet;
      assert req in ready;
      TakeReady(req, k);
      PutBlocked(req);
      FdSet(req);
    }

    /** `ready_request` */
    method ReadyRequest(req: Request, ghost k: nat)
      requires Valid() && k < |blocked| && blocked[k] == req
      modifies this, pool`next, pool`prev
      ensures Valid() && pool == old(pool) && free == old(free)
      ensures blocked == RemoveAt(old(blocked), k) && ready == [req] + old(ready)
      ensures Sets() == Without(old(Sets()), WaitFor(req))
      ensures block_read_fdset == old(block_read_fdset) - ReadSet(req)
      ensures block_write_fdset == old(block_write_fdset) - WriteSet(req)
      ensures time_counter == old(time_counter) && lame_duck_mode == old(lame_duck_mode)
    {
      hide Partition, Queue, WaitFor, Without, ReadSet, WriteSet;
      assert req in blocked;
      TakeBlocked(req, k);
      PutReady(req);
      FdClear(req);
    }

    /** `free_request`: a request with output pending stays where it is. */
    method FreeRequest(from: From, req: Request, ghost k: nat)
      requires Queues(if from == FromNone then [req] else []) && InUse()
      requires from == FromReady ==> k < |ready| && ready[k] == req
      requires from == FromBlock ==> k < |blocked| && blocked[k] == req
      requires req.keepalive != Active
      modifies this, pool`next, pool`prev, req`fd
      ensures Queues(if from == FromNone && req.buffer_end != 0 then [req] else []) && InUse()
      ensures pool == old(pool) && time_counter == old(time_counter) && lame_duck_mode == old(lame_duck_mode)
      ensures req.buffer_end != 0 ==> free == old(free) && ready == old(ready) && blocked == old(blocked)
      ensures req.buffer_end == 0 ==> free == [req] + old(free)
      ensures req.buffer_end == 0 ==> ready == if from == FromReady then RemoveAt(old(ready), k) else old(ready)
      ensures req.buffer_end == 0 ==> blocked == if from == FromBlock then RemoveAt(old(blocked), k) else old(blocked)
      ensures Sets() == if req.buffer_end != 0 then old(Sets()) else Without(old(Sets()), old(WaitFor(req)))
    {
      hide Partition, Queue, WaitFor, RemoveAt, Distinct, Without, ReadSet, WriteSet, Server.InUse;
      if req.buffer_end != 0 {
        return;
      }
      Unlink(from, req, k);
      FdClear(req);
      assert req.keepalive != Active; // so the connection is closed, never taken over by a new request
      req.fd := -1;
      PutFree(req);
    }

    /** `dequeue(list_head_addr, req)`, unless there is no list. */
    method Unlink(from: From, req: Request, ghost k: nat)
      requires Queues(if from == FromNone then [req] else []) && InUse()
      requires from == FromReady ==> k < |ready| && ready[k] == req
      requires from == FromBlock ==> k < |blocked| && blocked[k] == req
      modifies this`request_ready, this`request_block, this`ready, this`blocked, pool`next, pool`prev
      ensures Queues([req]) && InUse()
      ensures ready == if from == FromReady then RemoveAt(old(ready), k) else old(ready)
      ensures blocked == if from == FromBlock then RemoveAt(old(blocked), k) else old(blocked)
    {
      hide Partition, Queue, Distinct, RemoveAt;
      match from {
        case FromReady => TakeReady(req, k);
        case FromBlock => TakeBlocked(req, k);
        case FromNone =>
      }
    }

    /** `new_request`: the head of the free list, cleared, or NULL. */
    method NewRequest() returns (req: Request?)
      requires Valid()
      modifies this, pool`next, pool`prev, request_free
      ensures pool == old(pool) && ready == old(ready) && blocked == old(blocked) && time_counter == old(time_counter)
      ensures InUse() && lame_duck_mode == old(lame_duck_mode)
      ensures req == null <==> old(free) == []
      ensures req == null ==> Queues([]) && free == []
      ensures req == old(request_free) && (req != null ==> req in pool)
      ensures req != null ==> Queues([req]) && req == old(free)[0] && free == old(free)[1..]
      ensures req != null ==> req.buffer_end == 0 && req.kacount == 0 && req.keepalive == Inactive
    {
      req := request_free;
      if req != null {
        TakeFree(req, 0);
        InPool(pool, free, ready, blocked, [req]);
        assert req == [req][0];
        req.Clear();
      }
    }
  
    /** `get_sock_request`: `fd` is what `accept` returned, `named` whether the local address could be found. */
    method GetSockRequest(at_limit: bool, fd: int, named: bool) returns (conn: Request?)
      requires Valid()
      modifies this, pool`next, pool`prev, request_free
      ensures Valid() && pool == old(pool) && ready == old(ready)
      ensures time_counter == old(time_counter) && lame_duck_mode == old(lame_duck_mode)
      ensures conn != null <==> !at_limit && old(free) != [] && fd != -1 && named
      ensures conn == null ==> free == old(free) && blocked == old(blocked)
      ensures conn != null ==> conn == old(free)[0] && free == old(free)[1..] && blocked == [conn] + old(blocked)
      ensures conn != null ==> conn.time_last == time_counter && conn.fd == fd && conn.status == ReadHeader
      ensures old(NoBacklog()) ==> NoBacklog()
    {
      hide Partition, Queue;
      if at_limit {
        return null;
      }
      HeadAndTail(free);
      conn := NewRequest();
      if conn == null {
        return;
      }
      if fd == -1 {
        FreeRequest(FromNone, conn, 0);
        return null;
      }
      Accept(conn, fd);
      if !named {
        FreeRequest(FromNone, conn, 0);
        return null;
      }
      PutBlocked(conn);
    }

    /** The fields of a new connection. */
    method Accept(conn: Request, fd: int)
      modifies conn`fd, conn`status, conn`time_last
      ensures conn.fd == fd && conn.status == ReadHeader && conn.time_last == time_counter
    {
      conn.fd, conn.status, conn.time_last := fd, ReadHeader, time_counter;
    }

    /** The first half of a round: flush pending output, or run the handler. */
    method Round(current: Request, reply: Reply) returns (retval: int)
      requires current.keepalive != Active
      modifies current`buffer_end, current`status, current`keepalive, current`data_fd, current`post_data_fd
      modifies current`logline, current`response_status
      ensures current.keepalive != Active
      ensures match FateOf(old(current.buffer_end), old(current.status), reply)
        case Moves => retval == -1 && current.buffer_end == reply.written
        case Continues => retval == 1
        case Completes => retval !in {-1, 1} && (if retval == 0 then current.buffer_end else reply.error_left) == 0
        case Lingers => retval !in {-1, 1} && (if retval == 0 then current.buffer_end else reply.error_left) != 0
      ensures current.buffer_end ==
        if old(current.buffer_end) != 0 then (if reply.flushed then 0 else old(current.buffer_end))
        else if HasHandler(old(current.status)) then reply.written else 0
      ensures current.status ==
        if old(current.buffer_end) == 0 && HasHandler(old(current.status)) then reply.status else old(current.status)
    {
      if current.buffer_end != 0 {
        if reply.flushed {
          current.buffer_end := 0;
        }
        retval := if current.status == Close then 0 else 1;
      } else if HasHandler(current.status) {
        current.status := reply.status;
        current.buffer_end := reply.written;
        if reply.connection_headers {
          current.keepalive := ConnectionHeader(current.keepalive, ka_max);
        }
        current.data_fd, current.post_data_fd := reply.data_fd, reply.post_data_fd;
        current.logline, current.response_status := reply.logline, reply.response_status;
        retval := reply.retval;
      } else {
        retval := 0;
      }
      if lame_duck_mode {
        current.keepalive := Stopped;
      }
    }

    /** A whole round for one ready request; returns the next one. */
    method Dispatch(current: Request, reply: Reply, ghost k: nat, ghost fate: Fate) returns (next: Request?)
      requires Valid() && k < |ready| && ready[k] == current
      requires fate == FateOf(current.buffer_end, current.status, reply)
      modifies this, pool`next, pool`prev, current
      ensures Valid() && pool == old(pool)
      ensures time_counter == old(time_counter) && lame_duck_mode == old(lame_duck_mode)
      ensures next == if k + 1 < |old(ready)| then old(ready)[k + 1] else null
      ensures ready == Stay(fate, old(ready), k) && blocked == If(fate == Moves, current, old(blocked))
      ensures free == If(fate == Completes, current, old(free))
      ensures fate == Continues ==> current.time_last == time_counter
      ensures fate == Moves ==> current.buffer_end == reply.written
    {
      hide Partition, Queue, Distinct;
      NextIn(request_ready, ready, k);
      InPool(pool, free, ready, blocked, []);
      RemoveSubset(ready, k, current);
      var retval := Round(current, reply);
      next := current.next;
      Switch(current, retval, reply.error_left, k);
    }

    /** What becomes of a request after its round; on an error, an error page is added and the buffer flushed. */
    method Switch(current: Request, retval: int, error_left: nat, ghost k: nat)
      requires Valid() && k < |ready| && ready[k] == current
      modifies this, pool`next, pool`prev, current`buffer_end, current`time_last, current`fd
      ensures Valid() && pool == old(pool)
      ensures time_counter == old(time_counter) && lame_duck_mode == old(lame_duck_mode)
      ensures retval == 1 ==> current.time_last == time_counter
      ensures retval in {-1, 0, 1} ==> current.buffer_end == old(current.buffer_end)
      ensures var gone := retval !in {-1, 1} && (if retval == 0 then old(current.buffer_end) else error_left) == 0;
        ready == (if retval == -1 || gone then RemoveAt(old(ready), k) else old(ready)) &&
        blocked == (if retval == -1 then [current] else []) + old(blocked) &&
        free == (if gone then [current] else []) + old(free)
    {
      hide Partition, Queue, Distinct;
      InPool(pool, free, ready, blocked, []);
      RemoveSubset(ready, k, current);
      if retval == -1 {
        BlockRequest(current, k);
      } else if retval == 1 {
        current.time_last := time_counter;
      } else {
        if retval != 0 {
          current.buffer_end := error_left;
        }
        FreeRequest(FromReady, current, k);
      }
    }

    /** `n` of the requests in `rs` have had their round. */
    ghost predicate Rounds(rs: seq<Request>, before: seq<(nat, Status)>, n: nat, fates: seq<Fate>,
        replies: seq<Reply>, free0: seq<Request>, blocked0: seq<Request>)
      reads this, pool, rs
    {
      Valid() && Distinct(rs) && Inside(rs, pool) && n <= |rs| == |before| == |fates| == |replies| &&
      (forall i :: n <= i < |rs| ==> rs[i].buffer_end == before[i].0 && rs[i].status == before[i].1) &&
      (forall i :: 0 <= i < n && fates[i] == Continues ==> rs[i].time_last == time_counter) &&
      (forall i :: 0 <= i < n && fates[i] == Moves ==> rs[i].buffer_end == replies[i].written) &&
      SortedAt(rs, fates, n, free, ready, blocked, free0, blocked0)
    }

    /** The body of `process_requests`' loop. */
    method NextRound(current: Request, reply: Reply, ghost rs: seq<Request>, ghost before: seq<(nat, Status)>,
        ghost n: nat, ghost fates: seq<Fate>, ghost replies: seq<Reply>, ghost free0: seq<Request>,
        ghost blocked0: seq<Request>)
      returns (next: Request?)
      requires Rounds(rs, before, n, fates, replies, free0, blocked0) && n < |rs| == |fates| && current == rs[n]
      requires reply == replies[n] && fates[n] == FateOf(before[n].0, before[n].1, reply)
      modifies this, pool`next, pool`prev, current
      ensures Rounds(rs, before, n + 1, fates, replies, free0, blocked0) && pool == old(pool)
      ensures next == if n + 1 < |rs| then rs[n + 1] else null
    {
      hide FateOf, SortedAt, Server.Valid, Distinct, If, Stay, Inside;
      OthersDiffer(rs, n);
      IsInside(rs, pool, n);
      ghost var k := NextStands(rs, fates, n, free, ready, blocked, free0, blocked0);
      next := Dispatch(current, reply, k, fates[n]);
    }

    /** `process_requests`: one round for each request that was ready at the start, in queue order. */
    method ProcessRequests(handle: nat -> Reply) returns (ghost visited: seq<Request>, ghost fates: seq<Fate>)
      requires Valid()
      modifies this, pool
      ensures Valid() && pool == old(pool)
      ensures visited == old(ready) && |fates| == |visited|
      ensures forall i :: 0 <= i < |visited| ==>
        fates[i] == old(FateOf(ready[i].buffer_end, ready[i].status, handle(i)))
      ensures forall i :: 0 <= i < |visited| && fates[i] == Continues ==> visited[i].time_last == time_counter
      ensures forall i :: 0 <= i < |visited| && fates[i] == Moves ==> visited[i].buffer_end == handle(i).written
      ensures ready == Pick(visited, fates, {Continues, Lingers})
      ensures blocked == Reversed(Pick(visited, fates, {Moves})) + old(blocked)
      ensures free == Reversed(Pick(visited, fates, {Completes})) + old(free)
      ensures forall i :: 0 <= i < |visited| ==>
        Placed(visited[i], old(ready[i].buffer_end), old(ready[i].status), handle(i))
      ensures BlocksQuietly(Process(handle)) && old(NoBacklog()) ==> NoBacklog()
    {
      hide Server.Placed, FateOf, SortedAt, Pick, Reversed, Server.Rounds, Server.Valid, Inside;
      var current, n := request_ready, 0;
      visited := ready;
      ghost var before := Snapshot(visited);
      fates := seq(|visited|, i requires 0 <= i < |visited| => FateOf(before[i].0, before[i].1, handle(i)));
      ghost var replies := seq(|visited|, i requires 0 <= i < |visited| => handle(i));
      RoundsStart(before, fates, replies);
      while current != null
        invariant Rounds(visited, before, n, fates, replies, old(free), old(blocked)) && pool == old(pool)
        invariant Inside(visited, pool) && n <= |visited| && current == if n < |visited| then visited[n] else null
        invariant old(NoBacklog()) ==> forall r :: r in old(blocked) ==> r.buffer_end == 0
        decreases |visited| - n
      {
        IsInside(visited, pool, n);
        current := NextRound(current, handle(n), visited, before, n, fates, replies, old(free), old(blocked));
        n := n + 1;
      }
      RoundsOver(visited, before, fates, replies, old(free), old(blocked));
      forall i | 0 <= i < |fates| ensures fates[i] == Moves ==> replies[i].retval == -1 {
        OnlyBlockersMove(before[i].0, before[i].1, replies[i]);
      }
      forall i | 0 <= i < |visited|
        ensures Placed(visited[i], old(ready[i].buffer_end), old(ready[i].status), handle(i))
      {
        IsPlaced(visited, fates, i, before[i].0, before[i].1, handle(i), old(free), old(blocked));
      }
      if BlocksQuietly(Process(handle)) && old(NoBacklog()) {
        QuietRounds(visited, fates, old(blocked));
      }
    }

    /** Where a request is after its round, and what it then holds, said of its state before and of the reply alone. */
    ghost predicate Placed(r: Request, buffer_end: nat, status: Status, reply: Reply)
      reads this`free, this`ready, this`blocked, this`time_counter, r`time_last, r`buffer_end
    {
      var handled := buffer_end == 0 && status != Close && status != OtherStatus;
      var goesOn := if buffer_end != 0 then status != Close else handled && reply.retval == 1;
      var left := if buffer_end != 0 then (if reply.flushed then 0 else buffer_end)
        else if !handled then 0 else if reply.retval == 0 then reply.written else reply.error_left;
      (r in blocked <==> handled && reply.retval == -1) &&
      (r in ready <==> goesOn || (!(handled && reply.retval == -1) && left != 0)) &&
      (r in free <==> !goesOn && !(handled && reply.retval == -1) && left == 0) &&
      (goesOn ==> r.time_last == time_counter) && (r in blocked ==> r.buffer_end == reply.written)
    }

    lemma IsPlaced(rs: seq<Request>, fates: seq<Fate>, i: nat, buffer_end: nat, status: Status, reply: Reply,
        free0: seq<Request>, blocked0: seq<Request>)
      requires Valid() && i < |rs| == |fates| && fates[i] == FateOf(buffer_end, status, reply)
      requires ready == Pick(rs, fates, {Continues, Lingers})
      requires blocked == Reversed(Pick(rs, fates, {Moves})) + blocked0
      requires free == Reversed(Pick(rs, fates, {Completes})) + free0
      requires fates[i] == Continues ==> rs[i].time_last == time_counter
      requires fates[i] == Moves ==> rs[i].buffer_end == reply.written
      ensures Placed(rs[i], buffer_end, status, reply)
    {
      hide Pick, Reversed, Queue, Partition;
      PickHas(rs, fates, i);
      InPool(pool, free, ready, blocked, []);
    }

    lemma QuietRounds(rs: seq<Request>, fates: seq<Fate>, blocked0: seq<Request>)
      requires |fates| == |rs| && blocked == Reversed(Pick(rs, fates, {Moves})) + blocked0
      requires forall i :: 0 <= i < |rs| && fates[i] == Moves ==> rs[i].buffer_end == 0
      requires forall r :: r in blocked0 ==> r.buffer_end == 0
      ensures NoBacklog()
    {
      hide Pick, Reversed;
      forall r | r in blocked ensures r.buffer_end == 0 {
        if r !in blocked0 {
          InReversed(Pick(rs, fates, {Moves}), r);
          var i := PickedFrom(rs, fates, {Moves}, r);
        }
      }
    }

    lemma RoundsStart(before: seq<(nat, Status)>, fates: seq<Fate>, replies: seq<Reply>)
      requires Valid() && before == Snapshot(ready) && |fates| == |ready| == |replies|
      ensures Rounds(ready, before, 0, fates, replies, free, blocked)
      ensures Inside(ready, pool) && request_ready == if ready == [] then null else ready[0]
      ensures forall r :: r in ready ==> r !in blocked
    {
      InPool(pool, free, ready, blocked, []);
      NothingSorted(free, ready, blocked, fates);
    }

    lemma RoundsOver(rs: seq<Request>, before: seq<(nat, Status)>, fates: seq<Fate>, replies: seq<Reply>,
        free0: seq<Request>, blocked0: seq<Request>)
      requires Rounds(rs, before, |rs|, fates, replies, free0, blocked0)
      ensures |replies| == |fates| == |rs|
      ensures forall i :: 0 <= i < |rs| && fates[i] == Moves ==> rs[i].buffer_end == replies[i].written
      ensures forall i :: 0 <= i < |rs| && fates[i] == Continues ==> rs[i].time_last == time_counter
      ensures Valid() && |fates| == |rs| && ready == Pick(rs, fates, {Continues, Lingers})
      ensures blocked == Reversed(Pick(rs, fates, {Moves})) + blocked0
      ensures free == Reversed(Pick(rs, fates, {Completes})) + free0
    {
      AllSorted(rs, fates, free, ready, blocked, free0, blocked0);
    }

    // ----- fdset_update

    /** A blocked request as the walk sees it. */
    ghost function LookAt(r: Request): Look
      reads this`time_counter, r`time_last, r`buffer_end, r`status, r`fd, r`data_fd, r`post_data_fd
    {
      Look(WaitFor(r), time_counter - r.time_last > REQUEST_TIMEOUT, r.buffer_end != 0)
    }

    ghost function LooksOf(rs: seq<Request>): (ls: seq<Look>)
      reads this`time_counter, rs
      ensures |ls| == |rs| && forall i :: 0 <= i < |rs| ==> ls[i] == LookAt(rs[i])
    {
      if rs == [] then [] else [LookAt(rs[0])] + LooksOf(rs[1..])
    }

    /** One blocked request of `fdset_update`'s walk. */
    method Review(current: Request, ka_timeout: int, ghost k: nat) returns (next: Request?, ghost fate: Fate)
      requires Valid() && k < |blocked| && blocked[k] == current
      modifies this, pool`next, pool`prev, current`fd, current`keepalive
      ensures Valid() && pool == old(pool)
      ensures time_counter == old(time_counter) && lame_duck_mode == old(lame_duck_mode)
      ensures next == if k + 1 < |old(blocked)| then old(blocked)[k + 1] else null
      ensures fate == old(Outcome(LookAt(current), Sets())) && Sets() == old(AfterLook(LookAt(current), Sets()))
      ensures blocked == Stay(fate, old(blocked), k) && ready == If(fate == Moves, current, old(ready))
      ensures free == If(fate == Completes, current, old(free))
    {
      hide Partition, Queue, WaitFor, Distinct, Has, With, Without;
      NextIn(request_block, blocked, k);
      InPool(pool, free, ready, blocked, []);
      RemoveSubset(blocked, k, current);
      next := current.next;
      fate := Outcome(LookAt(current), Sets());
      if Expired(current, ka_timeout) {
        current.keepalive := Stopped;
        FreeRequest(FromBlock, current, k);
      } else if Has(Sets(), WaitFor(current)) {
        ReadyRequest(current, k);
      } else if current.buffer_end == 0 {
        FdSet(current);
      }
    }

    /** `n` of the blocked requests in `rs` have been reviewed; `looks` is what all of them were seen as. */
    ghost predicate Reviewed(rs: seq<Request>, n: nat, fates: seq<Fate>, looks: seq<Look>, f: Fds, free0: seq<Request>,
        ready0: seq<Request>)
      reads this, pool, rs
    {
      Valid() && Distinct(rs) && Inside(rs, pool) && n <= |rs| == |looks| && |fates| == n &&
      (forall i :: n <= i < |rs| ==> LookAt(rs[i]) == looks[i]) && Sets() == WalkTo(looks, n, f) &&
      (forall i :: 0 <= i < n ==> fates[i] == Outcome(looks[i], WalkTo(looks, i, f)) && SameWait(rs[i], looks[i])) &&
      SortedAt(rs, fates, n, free, blocked, ready, free0, ready0)
    }

    /** The walk changes neither time stamps nor pending output. */
    ghost predicate SameWait(r: Request, l: Look)
      reads this`time_counter, r`time_last, r`buffer_end
    {
      (l.late <==> time_counter - r.time_last > REQUEST_TIMEOUT) && (l.pending <==> r.buffer_end != 0)
    }

    method NextReview(current: Request, ka_timeout: int, ghost rs: seq<Request>, ghost n: nat, ghost fates: seq<Fate>,
        ghost looks: seq<Look>, ghost f: Fds, ghost free0: seq<Request>, ghost ready0: seq<Request>)
      returns (next: Request?, ghost fates': seq<Fate>)
      requires Reviewed(rs, n, fates, looks, f, free0, ready0) && n < |rs| && current == rs[n]
      modifies this, pool`next, pool`prev, current`fd, current`keepalive
      ensures Reviewed(rs, n + 1, fates', looks, f, free0, ready0) && pool == old(pool)
      ensures next == if n + 1 < |rs| then rs[n + 1] else null
    {
      hide SortedAt, Server.Valid, Distinct, If, Stay, Inside, WaitFor, Outcome, AfterLook;
      OthersDiffer(rs, n);
      IsInside(rs, pool, n);
      ghost var fate := Outcome(LookAt(current), Sets());
      fates' := fates + [fate];
      SortedMore(rs, fates, n, fate, free, blocked, ready, free0, ready0);
      ghost var k := NextStands(rs, fates', n, free, blocked, ready, free0, ready0);
      ghost var seen;
      next, seen := Review(current, ka_timeout, k);
    }

    /** `fdset_update`: a walk over the blocked requests, each one's fate and the descriptor sets exactly as the walk has
        it. No request without pending output stays blocked longer than the timeout. */
    method FdsetUpdate(ka_timeout: int) returns (ghost fates: seq<Fate>)
      requires Valid()
      modifies this, pool
      ensures Valid() && pool == old(pool)
      ensures |fates| == |old(blocked)| && Sets() == WalkTo(old(LooksOf(blocked)), |fates|, old(Sets()))
      ensures forall i :: 0 <= i < |fates| ==>
        fates[i] == Outcome(old(LookAt(blocked[i])), WalkTo(old(LooksOf(blocked)), i, old(Sets())))
      ensures blocked == Pick(old(blocked), fates, {Continues, Lingers})
      ensures ready == Reversed(Pick(old(blocked), fates, {Moves})) + old(ready)
      ensures free == Reversed(Pick(old(blocked), fates, {Completes})) + old(free)
      ensures forall r :: r in blocked ==> time_counter - r.time_last <= 60 || r.buffer_end != 0
      ensures forall i :: 0 <= i < |fates| ==>
        Judged(old(blocked[i]), old(time_counter - blocked[i].time_last > 60), old(blocked[i].buffer_end != 0),
          Has(WalkTo(old(LooksOf(blocked)), i, old(Sets())), old(WaitFor(blocked[i]))))
      ensures old(SeparateWaits(LooksOf(blocked))) ==> forall i :: 0 <= i < |fates| ==>
        Judged(old(blocked[i]), old(time_counter - blocked[i].time_last > 60), old(blocked[i].buffer_end != 0),
          old(ReadSet(blocked[i]) <= block_read_fdset && WriteSet(blocked[i]) <= block_write_fdset))
      ensures old(NoBacklog()) ==> NoBacklog()
    {
      hide Server.Judged, SeparateWaits, ReadSet, WriteSet, WaitFor, Has, Server.Reviewed, Server.Valid, Pick, Reversed,
        Inside, Outcome, Server.LookAt, Server.NoBacklog, WalkTo;
      var current := request_block;
      ghost var rs, n, f := blocked, 0, Sets();
      ghost var looks := LooksOf(rs);
      fates := [];
      ghost var marks := MarksOf(rs, f);
      LooksAre(rs);
      ReviewStart();
      NothingPending();
      while current != null
        invariant Reviewed(rs, n, fates, looks, f, old(free), old(ready)) && pool == old(pool)
        invariant Inside(rs, pool) && n <= |rs| && current == if n < |rs| then rs[n] else null
        decreases |rs| - n
      {
        IsInside(rs, pool, n);
        current, fates := NextReview(current, ka_timeout, rs, n, fates, looks, f, old(free), old(ready));
        n := n + 1;
      }
      ReviewOver(rs, fates, looks, f, old(free), old(ready));
      AllJudged(rs, fates, looks, f, marks, old(free), old(ready));
    }

    lemma LooksAre(rs: seq<Request>)
      ensures forall i :: 0 <= i < |rs| ==> LooksOf(rs)[i].wait == WaitFor(rs[i])
      ensures forall i :: 0 <= i < |rs| ==> (LooksOf(rs)[i].late <==> time_counter - rs[i].time_last > 60)
      ensures forall i :: 0 <= i < |rs| ==> (LooksOf(rs)[i].pending <==> rs[i].buffer_end != 0)
    {
    }

    /** Where a blocked request is after the walk: given up, made ready, or still waiting. */
    ghost predicate Judged(r: Request, late: bool, pending: bool, marked: bool)
      reads this`free, this`ready, this`blocked
    {
      (r in free <==> late && !pending) && (r in ready <==> !late && marked) &&
      (r in blocked <==> (late && pending) || (!late && !marked))
    }

    lemma IsJudged(rs: seq<Request>, fates: seq<Fate>, look: Look, f: Fds, i: nat, free0: seq<Request>,
        ready0: seq<Request>)
      requires Valid() && i < |rs| == |fates| && fates[i] == Outcome(look, f)
      requires blocked == Pick(rs, fates, {Continues, Lingers})
      requires ready == Reversed(Pick(rs, fates, {Moves})) + ready0
      requires free == Reversed(Pick(rs, fates, {Completes})) + free0
      ensures Judged(rs[i], look.late, look.pending, Has(f, look.wait))
    {
      hide Pick, Reversed, Queue, Partition, Has;
      PickHas(rs, fates, i);
      InPool(pool, free, ready, blocked, []);
    }

    lemma AllJudged(rs: seq<Request>, fates: seq<Fate>, looks: seq<Look>, f: Fds, marks: seq<bool>, free0: seq<Request>,
        ready0: seq<Request>)
      requires Valid() && |rs| == |fates| == |looks| == |marks|
      requires forall i :: 0 <= i < |fates| ==> fates[i] == Outcome(looks[i], WalkTo(looks, i, f))
      requires forall i :: 0 <= i < |marks| ==> (marks[i] <==> Has(f, looks[i].wait))
      requires blocked == Pick(rs, fates, {Continues, Lingers})
      requires ready == Reversed(Pick(rs, fates, {Moves})) + ready0
      requires free == Reversed(Pick(rs, fates, {Completes})) + free0
      ensures forall i :: 0 <= i < |rs| ==>
        Judged(rs[i], looks[i].late, looks[i].pending, Has(WalkTo(looks, i, f), looks[i].wait))
      ensures SeparateWaits(looks) ==> forall i :: 0 <= i < |rs| ==>
        Judged(rs[i], looks[i].late, looks[i].pending, marks[i])
    {
      hide Pick, Reversed, Outcome, WalkTo, Has, Server.Valid, Server.Judged;
      forall i | 0 <= i < |rs|
        ensures Judged(rs[i], looks[i].late, looks[i].pending, Has(WalkTo(looks, i, f), looks[i].wait))
        ensures SeparateWaits(looks) ==> Judged(rs[i], looks[i].late, looks[i].pending, marks[i])
      {
        IsJudged(rs, fates, looks[i], WalkTo(looks, i, f), i, free0, ready0);
        if SeparateWaits(looks) { WalkKeeps(looks, i, f, looks[i].wait); }
      }
    }

    /** Any sequence of top-level calls: the pool stays partitioned and the conditions on requests in use hold. */
    method Run(events: seq<Event>)
      requires Valid()
      modifies this, pool
      ensures Valid() && pool == old(pool)
      ensures (forall e :: e in events ==> BlocksQuietly(e)) && old(NoBacklog()) ==> NoBacklog()
    {
      hide Server.Valid, Server.NoBacklog, BlocksQuietly;
      var i := 0;
      while i < |events|
        invariant i <= |events| && Valid() && pool == old(pool)
        invariant (forall e :: e in events ==> BlocksQuietly(e)) && old(NoBacklog()) ==> NoBacklog()
      {
        match events[i] {
          case Tick(now) => time_counter := now;
          case LameDuck => lame_duck_mode := true;
          case Connect(at_limit, fd, named) =>
            FreeIsInPool();
            var _ := GetSockRequest(at_limit, fd, named);
          case Update(ka_timeout) => var _ := FdsetUpdate(ka_timeout);
          case Process(handle) => var _, _ := ProcessRequests(handle);
          case Select(read, write) => block_read_fdset, block_write_fdset := read, write;
        }
        i := i + 1;
      }
    }

    /** What the partition says of one request. */
    lemma ExactlyOneQueue(r: Request)
      requires Valid() && r in pool
      ensures (r in free && r !in ready && r !in blocked) || (r !in free && r in ready && r !in blocked) ||
        (r !in free && r !in ready && r in blocked)
      ensures Distinct(free) && Distinct(ready) && Distinct(blocked)
    {
      InPool(pool, free, ready, blocked, []);
    }

    lemma NothingPending()
      ensures NoBacklog() ==> forall i :: 0 <= i < |blocked| ==> !LooksOf(blocked)[i].pending
    {
    }

    lemma FreeIsInPool()
      requires Valid()
      ensures request_free == null || request_free in pool
    {
    }

    lemma ReviewStart()
      requires Valid()
      ensures Reviewed(blocked, 0, [], LooksOf(blocked), Sets(), free, ready)
      ensures Inside(blocked, pool) && request_block == if blocked == [] then null else blocked[0]
    {
      InPool(pool, free, ready, blocked, []);
      NothingSorted(free, blocked, ready, []);
    }

    lemma ReviewOver(rs: seq<Request>, fates: seq<Fate>, looks: seq<Look>, f: Fds, free0: seq<Request>,
        ready0: seq<Request>)
      requires Reviewed(rs, |rs|, fates, looks, f, free0, ready0)
      ensures Valid() && |fates| == |rs| == |looks| && blocked == Pick(rs, fates, {Continues, Lingers})
      ensures ready == Reversed(Pick(rs, fates, {Moves})) + ready0
      ensures free == Reversed(Pick(rs, fates, {Completes})) + free0
      ensures Sets() == WalkTo(looks, |looks|, f)
      ensures forall i :: 0 <= i < |fates| ==> fates[i] == Outcome(looks[i], WalkTo(looks, i, f))
      ensures forall r :: r in blocked ==> time_counter - r.time_last <= REQUEST_TIMEOUT || r.buffer_end != 0
      ensures (forall i :: 0 <= i < |looks| ==> !looks[i].pending) ==> NoBacklog()
    {
      hide Pick, Reversed, SortedAt, Server.Valid, Distinct, Inside, WalkTo, Has;
      AllSorted(rs, fates, free, blocked, ready, free0, ready0);
      forall r | r in blocked
        ensures time_counter - r.time_last <= REQUEST_TIMEOUT || r.buffer_end != 0
        ensures (forall i :: 0 <= i < |looks| ==> !looks[i].pending) ==> r.buffer_end == 0
      {
        var i := PickedFrom(rs, fates, {Continues, Lingers}, r);
      }
    }
  }

  /** No handler of these rounds blocks with output pending. */
  ghost predicate BlocksQuietly(e: Event) {
    e.Process? ==> forall i: nat :: e.handle(i).retval == -1 ==> e.handle(i).written == 0
  }

  lemma SortedMore(rs: seq<Request>, fates: seq<Fate>, n: nat, fate: Fate, free: seq<Request>, ready: seq<Request>,
      blocked: seq<Request>, free0: seq<Request>, blocked0: seq<Request>)
    requires |fates| == n && SortedAt(rs, fates, n, free, ready, blocked, free0, blocked0)
    ensures SortedAt(rs, fates + [fate], n, free, ready, blocked, free0, blocked0)
  {
    assert (fates + [fate])[..n] == fates[..n];
  }

  lemma OnlyBlockersMove(buffer_end: nat, status: Status, reply: Reply)
    ensures FateOf(buffer_end, status, reply) == Moves ==> reply.retval == -1
  {
  }

  /** A request is among those picked for its fate. */
  lemma PickHas(rs: seq<Request>, fates: seq<Fate>, i: nat)
    requires i < |rs| == |fates|
    ensures fates[i] in {Continues, Lingers} ==> rs[i] in Pick(rs, fates, {Continues, Lingers})
    ensures fates[i] == Moves ==> rs[i] in Reversed(Pick(rs, fates, {Moves}))
    ensures fates[i] == Completes ==> rs[i] in Reversed(Pick(rs, fates, {Completes}))
  {
    hide Pick, Reversed;
    if fates[i] in {Continues, Lingers} {
      IsPicked(rs, fates, {Continues, Lingers}, i);
    } else if fates[i] == Moves {
      IsPicked(rs, fates, {Moves}, i);
      ReversedHas(Pick(rs, fates, {Moves}), rs[i]);
    } else {
      IsPicked(rs, fates, {Completes}, i);
      ReversedHas(Pick(rs, fates, {Completes}), rs[i]);
    }
  }

  lemma {:induction false} IsPicked(rs: seq<Request>, fates: seq<Fate>, which: set<Fate>, i: nat)
    requires i < |rs| == |fates| && fates[i] in which
    ensures rs[i] in Pick(rs, fates, which)
  {
    var n := |rs| - 1;
    if i < n { IsPicked(rs[..n], fates[..n], which, i); }
  }

  lemma {:induction false} ReversedHas(s: seq<Request>, r: Request)
    requires r in s
    ensures r in Reversed(s)
    decreases |s|
  {
    if s[|s| - 1] != r { ReversedHas(s[..|s| - 1], r); }
  }

  lemma {:induction false} InReversed(s: seq<Request>, r: Request)
    requires r in Reversed(s)
    ensures r in s
    decreases |s|
  {
    if s[|s| - 1] != r { InReversed(s[..|s| - 1], r); }
  }

  lemma {:induction false} PickedFrom(rs: seq<Request>, fates: seq<Fate>, which: set<Fate>, r: Request) returns (i: nat)
    requires |rs| == |fates| && r in Pick(rs, fates, which)
    ensures i < |rs| && rs[i] == r && fates[i] in which
  {
    var n := |rs| - 1;
    if fates[n] in which && r == rs[n] {
      i := n;
    } else {
      i := PickedFrom(rs[..n], fates[..n], which, r);
    }
  }

  lemma NothingSorted(free: seq<Request>, ready: seq<Request>, blocked: seq<Request>, fates: seq<Fate>)
    ensures SortedAt(ready, fates, 0, free, ready, blocked, free, blocked)
  {
  }

  lemma AllSorted(visited: seq<Request>, fates: seq<Fate>, free: seq<Request>,
      ready: seq<Request>, blocked: seq<Request>, free0: seq<Request>, blocked0: seq<Request>)
    requires |visited| == |fates| && SortedAt(visited, fates, |visited|, free, ready, blocked, free0, blocked0)
    ensures ready == Pick(visited, fates, {Continues, Lingers})
    ensures blocked == Reversed(Pick(visited, fates, {Moves})) + blocked0
    ensures free == Reversed(Pick(visited, fates, {Completes})) + free0
  {
    assert visited[..|visited|] == visited && fates[..|visited|] == fates;
  }
}
