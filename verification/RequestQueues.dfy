/** Requests and the intrusive doubly linked queues that hold them. */
module RequestQueues {

  datatype Status =
    | ReadHeader | OneCr | OneLf | TwoCr | BodyRead | BodyWrite | Write | PipeRead | PipeWrite
    | Close | OtherStatus

  datatype Keepalive = Inactive | Stopped | Active

  class Request {
    var next: Request?
    var prev: Request?
    var status: Status
    var buffer_end: nat
    var fd: int
    var data_fd: int
    var post_data_fd: int
    var time_last: int
    var kacount: nat
    var keepalive: Keepalive
    var logline: bool
    var response_status: int

    /** A request as `malloc` leaves it: every field is arbitrary. */
    constructor () { }

    /** `memset(req, 0, …)` over the fields of a new connection. */
    method Clear()
      modifies this
      ensures next == null && prev == null && status == ReadHeader && buffer_end == 0
      ensures fd == data_fd == post_data_fd == time_last == 0 && kacount == 0 && keepalive == Inactive && !logline
      ensures response_status == 0
    {
      next, prev, status, buffer_end := null, null, ReadHeader, 0;
      fd, data_fd, post_data_fd, time_last, kacount, keepalive, logline, response_status := 0, 0, 0, 0, 0, Inactive, false, 0;
    }
  }

  /** `head` starts a queue whose `next` links run through `rs` and whose `prev` links run back. */
  ghost predicate Queue(head: Request?, rs: seq<Request>)
    reads rs`next, rs`prev
  {
    head == (if rs == [] then null else rs[0]) &&
    (forall i {:trigger rs[i].next} :: 0 <= i < |rs| ==> rs[i].next == if i + 1 < |rs| then rs[i + 1] else null) &&
    (forall i {:trigger rs[i].prev} :: 0 <= i < |rs| ==> rs[i].prev == if i > 0 then rs[i - 1] else null)
  }

  ghost predicate Distinct(rs: seq<Request>) { forall i, j :: 0 <= i < j < |rs| ==> rs[i] != rs[j] }

  function RemoveAt<T>(s: seq<T>, i: nat): (r: seq<T>)
    requires i < |s|
    ensures |r| == |s| - 1
  {
    s[..i] + s[i + 1..]
  }

  /** `enqueue`: at the head. */
  method Enqueue(head: Request?, req: Request, ghost rs: seq<Request>) returns (head': Request)
    requires Queue(head, rs) && Distinct(rs) && req !in rs
    modifies req`next, req`prev, (if rs == [] then {} else {rs[0]})`prev
    ensures head' == req && Queue(head', [req] + rs)
  {
    if head != null {
      head.prev := req;
    }
    req.next := head;
    req.prev := null;
    head' := req;
  }

  /** `dequeue`: from anywhere in the queue. */
  method Dequeue(head: Request?, req: Request, ghost rs: seq<Request>, ghost k: nat) returns (head': Request?)
    requires Queue(head, rs) && Distinct(rs) && k < |rs| && rs[k] == req
    modifies rs`next, rs`prev
    ensures Queue(head', RemoveAt(rs, k)) && req.next == null && req.prev == null
  {
    head' := head;
    if head == req {
      head' := req.next;
    }
    if req.prev != null {
      req.prev.next := req.next;
    }
    if req.next != null {
      req.next.prev := req.prev;
    }
    req.next := null;
    req.prev := null;
    assert Removed(rs, k);
  }

  /** Positions before and after a removal. */
  ghost predicate Removed(rs: seq<Request>, k: nat)
    requires k < |rs|
  {
    var t := RemoveAt(rs, k);
    forall i :: 0 <= i < |t| ==> t[i] == if i < k then rs[i] else rs[i + 1]
  }
}
