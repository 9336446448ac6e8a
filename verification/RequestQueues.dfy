/**
  The request structure and the three intrusive doubly linked lists it lives
  on.  A queue's ghost field `nodes` is the list it represents; the links in
  the requests are the representation.
 */
module RequestQueues {

  /** `req->status`, in the order of its numeric codes. */
  datatype Status =
    | ReadHeader | OneCr | OneLf | TwoCr | BodyRead | BodyWrite | Write | PipeRead | PipeWrite | Done | Dead

  datatype KeepAlive = KaInactive | KaStopped | KaActive

  class Request {
    var next: Request?
    var prev: Request?
    var fd: int
    var status: Status
    var timeLast: int
    var keepalive: KeepAlive
    var kacount: int
    var dataFd: int
    var postDataFd: int
    var bufferEnd: nat
    var responseStatus: int
    var logline: bool

    constructor ()
      ensures next == null && prev == null
      ensures fd == 0 && status == ReadHeader && bufferEnd == 0 && dataFd == 0 && postDataFd == 0
      ensures keepalive == KaInactive && kacount == 0 && !logline
    {
      next, prev := null, null;
      fd, status, timeLast, keepalive, kacount := 0, ReadHeader, 0, KaInactive, 0;
      dataFd, postDataFd, bufferEnd, responseStatus, logline := 0, 0, 0, 0, false;
    }

    /** The `memset` of everything above the buffers, the links being clear already. */
    method Clear()
      modifies this`fd, this`status, this`timeLast, this`keepalive, this`kacount
      modifies this`dataFd, this`postDataFd, this`bufferEnd, this`responseStatus, this`logline
      ensures fd == 0 && status == ReadHeader && bufferEnd == 0 && dataFd == 0 && postDataFd == 0
      ensures keepalive == KaInactive && kacount == 0 && !logline
    {
      fd, status, timeLast, keepalive, kacount := 0, ReadHeader, 0, KaInactive, 0;
      dataFd, postDataFd, bufferEnd, responseStatus, logline := 0, 0, 0, 0, false;
    }
  }

  /** Starts a request on a connected socket; one over the limit is answered at once. */
  method Open(r: Request, fd: int, now: int, kacount: int, refuse: bool)
    modifies r`fd, r`status, r`timeLast, r`kacount, r`bufferEnd
    ensures r.fd == fd && r.timeLast == now && r.kacount == kacount
    ensures r.status == if refuse then Done else ReadHeader
    ensures !refuse ==> r.bufferEnd == old(r.bufferEnd)
  {
    r.fd, r.status, r.timeLast, r.kacount := fd, ReadHeader, now, kacount;
    if refuse {
      r.bufferEnd := *;  // the "service unavailable" page
      r.status := Done;
    }
  }

  ghost predicate Distinct(s: seq<Request>) {
    forall i, j :: 0 <= i < j < |s| ==> s[i] != s[j]
  }

  ghost predicate Disjoint(s: seq<Request>, t: seq<Request>) {
    forall r :: r in s ==> r !in t
  }

  class Queue {
    var head: Request?
    ghost var nodes: seq<Request>

    ghost predicate Valid()
      reads this, nodes`next, nodes`prev
    {
      && Distinct(nodes)
      && head == (if nodes == [] then null else nodes[0])
      && (forall i {:trigger nodes[i].prev} :: 0 <= i < |nodes| ==> nodes[i].prev == if i == 0 then null
        else nodes[i - 1])
      && (forall i {:trigger nodes[i].next} ::
            0 <= i < |nodes| ==> nodes[i].next == if i == |nodes| - 1 then null else nodes[i + 1])
    }

    constructor ()
      ensures Valid() && nodes == []
    {
      head, nodes := null, [];
    }

    /** Unlinks a request from anywhere in the list; its own links are cleared. */
    method Dequeue(req: Request, ghost k: nat)
      requires Valid() && k < |nodes| && nodes[k] == req
      modifies this, nodes`next, nodes`prev
      ensures Valid()
      ensures nodes == old(nodes[..k] + nodes[k + 1..])
      ensures req !in nodes
      ensures req.next == null && req.prev == null
    {
      if head == req {
        head := req.next;
      }
      if req.prev != null {
        req.prev.next := req.next;
      }
      if req.next != null {
        req.next.prev := req.prev;
      }
      req.next := null;
      req.prev := null;
      nodes := nodes[..k] + nodes[k + 1..];
    }

    /** Links a request that is on no list in front of the head. */
    method Enqueue(req: Request)
      requires Valid() && req !in nodes
      modifies this, nodes`prev, req`next, req`prev
      ensures Valid()
      ensures nodes == [req] + old(nodes)
    {
      if head != null {
        head.prev := req;
      }
      req.next := head;
      req.prev := null;
      head := req;
      nodes := [req] + nodes;
    }
  }
}
