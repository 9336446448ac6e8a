/**
  The event loop: requests move between the ready, blocked and free lists, new
  connections are accepted while the ready list is being walked, and the
  descriptor sets given to `select` follow the blocked list.
 */
module EventLoop {
  import opened RequestQueues

  const REQUEST_TIMEOUT := 60
  const FD_SETSIZE := 1024

  ghost function Elements(s: seq<Request>): set<Request> {
    set r | r in s
  }

  /** Moving an element from one list to another leaves the elements of both together as they were. */
  lemma Regrouped(s: seq<Request>, t: seq<Request>, k: nat)
    requires k < |s|
    ensures Elements(s[..k] + s[k + 1..]) + Elements([s[k]] + t) == Elements(s) + Elements(t)
  {
    forall r | r in s
      ensures r == s[k] || r in s[..k] + s[k + 1..]
    {
      var i :| 0 <= i < |s| && s[i] == r;
      assert i < k ==> s[..k][i] == r;
      assert i > k ==> s[k + 1..][i - k - 1] == r;
    }
  }

  /** The descriptors a request owns; zero means none for the data descriptors. */
  ghost function Fds(r: Request): set<int>
    reads r`fd, r`dataFd, r`postDataFd
  {
    {r.fd} + (if r.dataFd != 0 then {r.dataFd} else {}) + (if r.postDataFd != 0 then {r.postDataFd} else {})
  }

  /** A request's descriptors differ, and one that waits for a data descriptor has it. */
  predicate HasAwaited(r: Request)
    reads r`status, r`fd, r`dataFd, r`postDataFd
  {
    && r.fd > 0 && r.fd != r.dataFd && r.fd != r.postDataFd && (r.dataFd == 0 || r.dataFd != r.postDataFd)
    && (r.status == PipeRead ==> r.dataFd != 0)
    && (r.status == BodyWrite ==> r.postDataFd != 0)
  }

  datatype Wait = ForRead(fd: int) | ForWrite(fd: int)

  /** What a request waits for: the socket while output is buffered, otherwise by status. */
  function Awaited(r: Request): (w: Wait)
    reads r`status, r`bufferEnd, r`fd, r`dataFd, r`postDataFd
    ensures HasAwaited(r) ==> w.fd in Fds(r)
  {
    if r.bufferEnd != 0 then ForWrite(r.fd)
    else match r.status
      case Write => ForWrite(r.fd)
      case PipeWrite => ForWrite(r.fd)
      case Done => ForWrite(r.fd)
      case PipeRead => ForRead(r.dataFd)
      case BodyWrite => ForWrite(r.postDataFd)
      case _ => ForRead(r.fd)
  }

  /** Live requests own open descriptors, and no two of them own the same one. */
  ghost predicate OwnDescriptors(live: set<Request>, openFds: set<int>)
    reads live`status, live`fd, live`dataFd, live`postDataFd
  {
    && (forall r :: r in live ==> HasAwaited(r) && Fds(r) <= openFds)
    && (forall r, s :: r in live && s in live && r != s ==> Fds(r) !! Fds(s))
  }

  /** A connection with a descriptor of its own can join. */
  lemma JoinDescriptors(live: set<Request>, openFds: set<int>, r: Request)
    requires OwnDescriptors(live, openFds) && r !in live && HasAwaited(r) && Fds(r) !! openFds
    ensures OwnDescriptors(live + {r}, openFds + Fds(r))
  {}

  /** A request can leave with its descriptors. */
  lemma LeaveDescriptors(live: set<Request>, openFds: set<int>, r: Request)
    requires OwnDescriptors(live, openFds) && r in live
    ensures OwnDescriptors(live - {r}, openFds - Fds(r))
  {}

  /**
    The examination of the blocked list after `select`: the requests it held,
    how many have had their turn, which are to be woken, which are late, and in
    what state each was; whether the sets were tidy, and what the requests that
    are about to die with their descriptor set wait for.
   */
  datatype Survey = Survey(
    queue: seq<Request>, n: nat, wake: set<Request>, late: set<Request>, was: map<Request, Status>,
    tidy: bool, dying: map<Request, Wait>)

  /** A call that a request's turn makes: its buffer is flushed, or its handler runs. */
  datatype Call = Flushing(r: Request, left: int) | Handling(r: Request, retval: int)

  class Server {
    const ready: Queue
    const block: Queue
    const free: Queue
    var totalConnections: int
    var pendingRequests: bool
    var sigterm: bool
    var currentTime: int
    var blockRead: set<int>
    var blockWrite: set<int>
    var maxFd: int
    var openFds: set<int>        // the kernel's table of descriptors in use
    ghost var log: seq<Request>      // every request dispatched, in order
    ghost var retired: seq<Request>  // every request put on the free list, in order
    ghost var calls: seq<Call>       // every flush and every handler, with what they returned, in order
    ghost var accepts: seq<int>      // what every call of `accept` brought: a connected socket or -1
    const serverFd: int
    const kaMax: int
    const kaTimeout: int
    const maxConnections: int

    ghost function Nodes(): set<Request>
      reads ready`nodes, block`nodes, free`nodes
    {
      Elements(ready.nodes) + Elements(block.nodes) + Elements(free.nodes)
    }

    ghost function Live(): set<Request>
      reads ready`nodes, block`nodes
    {
      Elements(ready.nodes) + Elements(block.nodes)
    }

    /** Three well-formed lists without a request in common. */
    ghost predicate ListsOk()
      reads ready, block, free, ready.nodes`next, ready.nodes`prev
      reads block.nodes`next, block.nodes`prev, free.nodes`next, free.nodes`prev
    {
      && ready != block && ready != free && block != free
      && ready.Valid() && block.Valid() && free.Valid()
      && Disjoint(ready.nodes, block.nodes) && Disjoint(ready.nodes, free.nodes) && Disjoint(block.nodes, free.nodes)
    }

    /** The lists are well formed, the counter agrees with two of them, and live requests share no descriptor. */
    ghost predicate Valid()
      reads this`totalConnections, this`openFds, ready, block, free, Nodes()
    {
      && ListsOk()
      && totalConnections == |ready.nodes| + |block.nodes|
      && OwnDescriptors(Live(), openFds)
    }

    predicate IsSet(w: Wait)
      reads this`blockRead, this`blockWrite
    {
      match w
      case ForRead(fd) => fd in blockRead
      case ForWrite(fd) => fd in blockWrite
    }

    /**
      `select` is asked whether the socket can be written while there is output
      for it, whether the script has written or the body's file can take more,
      and otherwise whether the client has written.
     */
    ghost predicate AskedAbout(r: Request): (asked: bool)
      reads this`blockRead, this`blockWrite, this`maxFd
      reads r`status, r`bufferEnd, r`fd, r`dataFd, r`postDataFd
      ensures asked <==> IsSet(Awaited(r)) && Awaited(r).fd <= maxFd
    {
      && (r.bufferEnd != 0 || r.status in {Write, PipeWrite, Done} ==> r.fd in blockWrite && r.fd <= maxFd)
      && (r.bufferEnd == 0 && r.status == PipeRead ==> r.dataFd in blockRead && r.dataFd <= maxFd)
      && (r.bufferEnd == 0 && r.status == BodyWrite ==> r.postDataFd in blockWrite && r.postDataFd <= maxFd)
      && (r.bufferEnd == 0 && r.status !in {Write, PipeWrite, Done, PipeRead, BodyWrite} ==>
            r.fd in blockRead && r.fd <= maxFd)
    }

    /** After `select`, what the request waits for has come. */
    ghost predicate EventCame(r: Request): (came: bool)
      reads this`blockRead, this`blockWrite, r`status, r`bufferEnd, r`fd, r`dataFd, r`postDataFd
      ensures came <==> IsSet(Awaited(r))
    {
      && (r.bufferEnd != 0 || r.status in {Write, PipeWrite, Done} ==> r.fd in blockWrite)
      && (r.bufferEnd == 0 && r.status == PipeRead ==> r.dataFd in blockRead)
      && (r.bufferEnd == 0 && r.status == BodyWrite ==> r.postDataFd in blockWrite)
      && (r.bufferEnd == 0 && r.status !in {Write, PipeWrite, Done, PipeRead, BodyWrite} ==> r.fd in blockRead)
    }

    /** A blocked request is not dead and `select` is asked about its descriptor. */
    ghost predicate Watched(r: Request)
      reads this`blockRead, this`blockWrite, this`maxFd
      reads r`status, r`bufferEnd, r`fd, r`dataFd, r`postDataFd
    {
      r.status != Dead && AskedAbout(r)
    }

    ghost predicate AllWatched()
      reads this`blockRead, this`blockWrite, this`maxFd, block`nodes
      reads block.nodes`status, block.nodes`bufferEnd, block.nodes`fd, block.nodes`dataFd, block.nodes`postDataFd
    {
      forall r :: r in block.nodes ==> Watched(r)
    }

    ghost predicate Named(w: Wait)
      reads block`nodes
      reads block.nodes`status, block.nodes`bufferEnd, block.nodes`fd, block.nodes`dataFd, block.nodes`postDataFd
    {
      exists r :: r in block.nodes && Awaited(r) == w
    }

    /** `select` is asked about nothing but the server's socket and what blocked requests wait for. */
    ghost predicate NoStrays()
      reads this`blockRead, this`blockWrite, block`nodes
      reads block.nodes`status, block.nodes`bufferEnd, block.nodes`fd, block.nodes`dataFd, block.nodes`postDataFd
    {
      forall w: Wait :: IsSet(w) ==> w == ForRead(serverFd) || Named(w)
    }

    /** What a change to other requests leaves of the bookkeeping, if the blocked ones stay as they were. */
    twostate lemma BlockedAsBefore()
      requires forall r :: r in old(block.nodes) ==> r in block.nodes
      requires forall r :: r in old(block.nodes) ==>
        r.status == old(r.status) && r.bufferEnd == old(r.bufferEnd) &&
        r.fd == old(r.fd) && r.dataFd == old(r.dataFd) && r.postDataFd == old(r.postDataFd)
      requires blockRead <= old(blockRead) && blockWrite <= old(blockWrite)
      ensures old(NoStrays()) ==> NoStrays()
    {
      if old(NoStrays()) {
        forall w: Wait | IsSet(w) && w != ForRead(serverFd)
          ensures Named(w)
        {
          assert old(IsSet(w)) && old(Named(w));
          var r :| r in old(block.nodes) && old(Awaited(r)) == w;
          assert Awaited(r) == w;
        }
      }
    }

    /**
      A request may change state, close descriptors and take ones the kernel
      hands out, which may be numbers just closed.
     */
    twostate lemma ExchangeDescriptors(r: Request)
      requires old(Valid()) && Live() == old(Live()) && r in Live()
      requires forall s :: s in Live() && s != r ==>
        s.fd == old(s.fd) && s.dataFd == old(s.dataFd) && s.postDataFd == old(s.postDataFd) && s.status == old(s.status)
      requires old(openFds) - old(Fds(r)) <= openFds
      requires HasAwaited(r) && Fds(r) <= openFds && Fds(r) * old(openFds) <= old(Fds(r))
      ensures OwnDescriptors(Live(), openFds)
    {
      assert forall s :: s in Live() && s != r ==> Fds(s) == old(Fds(s));
    }

    constructor (serverFd: int, kaMax: int, kaTimeout: int, maxConnections: int)
      ensures Valid() && Nodes() == {} && AllWatched() && NoStrays()
      ensures totalConnections == 0 && openFds == {} && this.serverFd == serverFd
      ensures fresh(ready) && fresh(block) && fresh(free) && ready != block
      ensures ready.nodes == [] && block.nodes == [] && free.nodes == []
    {
      ready := new Queue();
      block := new Queue();
      free := new Queue();
      this.serverFd, this.kaMax, this.kaTimeout, this.maxConnections := serverFd, kaMax, kaTimeout, maxConnections;
      totalConnections, pendingRequests, sigterm, currentTime := 0, false, false, 0;
      blockRead, blockWrite, maxFd, openFds := {}, {}, -1, {};
      log, retired, calls, accepts := [], [], [], [];
    }

    method FdSet(w: Wait)
      modifies this`blockRead, this`blockWrite, this`maxFd
      ensures blockRead == old(blockRead) + (if w.ForRead? then {w.fd} else {})
      ensures blockWrite == old(blockWrite) + (if w.ForWrite? then {w.fd} else {})
      ensures maxFd == if old(maxFd) < w.fd then w.fd else old(maxFd)
      ensures forall r :: r in block.nodes && old(Watched(r)) ==> Watched(r)
      ensures old(NoStrays()) && (w == ForRead(serverFd) || Named(w)) ==> NoStrays()
      ensures old(Valid()) ==> Valid() == true
    {
      hide ListsOk, OwnDescriptors;
      match w {
        case ForRead(fd) => blockRead := blockRead + {fd};
        case ForWrite(fd) => blockWrite := blockWrite + {fd};
      }
      if w.fd > maxFd {
        maxFd := w.fd;
      }
      assert ListsOk() == old(ListsOk()) && OwnDescriptors(Live(), openFds) == old(OwnDescriptors(Live(), openFds));
    }

    ghost predicate IsMine(q: Queue) {
      q == ready || q == block || q == free
    }

    /** `dequeue` on one of the three lists. */
    method Unlink(q: Queue, req: Request, ghost k: nat)
      requires ListsOk() && IsMine(q) && k < |q.nodes| && q.nodes[k] == req
      modifies q, q.nodes`next, q.nodes`prev
      ensures ListsOk() == true
      ensures q.nodes == old(q.nodes[..k] + q.nodes[k + 1..])
      ensures req !in Nodes()
    {
      q.Dequeue(req, k);
      assert forall r :: r in q.nodes ==> r in old(q.nodes);
      assert forall i :: 0 <= i < |ready.nodes| && q != ready ==> ready.nodes[i] !in old(q.nodes);
      assert forall i :: 0 <= i < |block.nodes| && q != block ==> block.nodes[i] !in old(q.nodes);
      assert forall i :: 0 <= i < |free.nodes| && q != free ==> free.nodes[i] !in old(q.nodes);
    }

    /** `enqueue` on one of the three lists. */
    method Link(q: Queue, req: Request)
      requires ListsOk() && IsMine(q) && req !in Nodes()
      modifies q, q.nodes`prev, req`next, req`prev
      ensures ListsOk() == true
      ensures q.nodes == [req] + old(q.nodes)
    {
      q.Enqueue(req);
      assert forall r :: r in q.nodes ==> r == req || r in old(q.nodes);
      assert forall i :: 0 <= i < |ready.nodes| && q != ready ==>
        ready.nodes[i] !in old(q.nodes) && ready.nodes[i] != req;
      assert forall i :: 0 <= i < |block.nodes| && q != block ==>
        block.nodes[i] !in old(q.nodes) && block.nodes[i] != req;
      assert forall i :: 0 <= i < |free.nodes| && q != free ==> free.nodes[i] !in old(q.nodes) && free.nodes[i] != req;
    }

    /** Moves the `k`-th request of one live list to the head of the other. */
    method Move(from: Queue, to: Queue, req: Request, ghost k: nat)
      requires Valid() && k < |from.nodes| && from.nodes[k] == req
      requires (from == ready && to == block) || (from == block && to == ready)
      modifies from, to, from.nodes`next, from.nodes`prev, to.nodes`prev
      ensures Valid() == true && Live() == old(Live())
      ensures from.nodes == old(from.nodes[..k] + from.nodes[k + 1..])
      ensures to.nodes == [req] + old(to.nodes)
    {
      Regrouped(from.nodes, to.nodes, k);
      Unlink(from, req, k);
      Link(to, req);
      assert Live() == Elements(from.nodes) + Elements(to.nodes) == old(Live());
      assert OwnDescriptors(Live(), openFds) == true;
    }

    /** Moves the `k`-th ready request to the blocked list and asks `select` about its descriptor. */
    method BlockRequest(req: Request, ghost k: nat)
      requires Valid() && k < |ready.nodes| && ready.nodes[k] == req
      modifies this`blockRead, this`blockWrite, this`maxFd, ready, block
      modifies ready.nodes`next, ready.nodes`prev, block.nodes`prev
      ensures Valid() == true && Live() == old(Live())
      ensures ready.nodes == old(ready.nodes[..k] + ready.nodes[k + 1..])
      ensures block.nodes == [req] + old(block.nodes)
      ensures AskedAbout(req) && (old(AllWatched()) && req.status != Dead ==> AllWatched())
      ensures old(NoStrays()) ==> NoStrays()
    {
      hide ListsOk, OwnDescriptors, NoStrays;
      Move(ready, block, req, k);
      BlockedAsBefore();
      assert req in block.nodes;
      FdSet(Awaited(req));
    }

    /** Descriptors added for other requests do not disturb one that is watched. */
    twostate lemma StillWatched(r: Request)
      requires old(Watched(r))
      requires old(blockRead) <= blockRead && old(blockWrite) <= blockWrite && old(maxFd) <= maxFd
      requires r.status == old(r.status) && r.bufferEnd == old(r.bufferEnd)
      requires r.fd == old(r.fd) && r.dataFd == old(r.dataFd) && r.postDataFd == old(r.postDataFd)
      ensures Watched(r)
    {}

    /** Moves the `k`-th blocked request to the ready list and stops asking `select` about it. */
    method ReadyRequest(req: Request, ghost k: nat)
      requires Valid() && k < |block.nodes| && block.nodes[k] == req
      modifies this`blockRead, this`blockWrite, ready, block
      modifies block.nodes`next, block.nodes`prev, ready.nodes`prev
      ensures Valid() == true && Live() == old(Live())
      ensures block.nodes == old(block.nodes[..k] + block.nodes[k + 1..])
      ensures ready.nodes == [req] + old(ready.nodes)
      ensures blockRead == old(blockRead) - (if Awaited(req).ForRead? then {Awaited(req).fd} else {})
      ensures blockWrite == old(blockWrite) - (if Awaited(req).ForWrite? then {Awaited(req).fd} else {})
    {
      Move(block, ready, req, k);
      match Awaited(req) {
        case ForRead(fd) => blockRead := blockRead - {fd};
        case ForWrite(fd) => blockWrite := blockWrite - {fd};
      }
    }

    /** Takes a request off the free list, or allocates one if memory allows; either way it is cleared. */
    method NewRequest(ghost fds: set<int>) returns (req: Request?)
      requires ListsOk() && OwnDescriptors(Live(), fds)
      modifies free, free.nodes
      ensures ListsOk() == true && OwnDescriptors(Live(), fds) == true
      ensures forall r :: r in block.nodes && old(Watched(r)) ==> Watched(r)
      ensures old(NoStrays()) ==> NoStrays()
      ensures free.nodes == if old(free.nodes) == [] then [] else old(free.nodes)[1..]
      ensures req == null ==> old(free.nodes) == []
      ensures req != null ==>
        req !in Nodes() && (if old(free.nodes) == [] then fresh(req) else req == old(free.nodes[0]))
      ensures req != null ==> req.status == ReadHeader && req.bufferEnd == 0 && req.dataFd == 0 && req.postDataFd == 0
      ensures req != null ==> req.keepalive == KaInactive && !req.logline
    {
      hide Awaited, Watched, NoStrays;
      if free.head != null {
        req := free.head;
        Unlink(free, free.head, 0);
        req.Clear();
        assert OwnDescriptors(Live(), fds) == true;
      } else {
        var hasMemory: bool := *;
        if !hasMemory {
          return null;
        }
        req := new Request();
      }
    }

    /** Puts a request that already counts as a connection on a live list. */
    method Admit(q: Queue, conn: Request, ghost others: set<int>)
      requires ListsOk() && totalConnections == |ready.nodes| + |block.nodes| + 1
      requires OwnDescriptors(Live(), others) == true && openFds == others + Fds(conn) && Fds(conn) !! others
      requires q == ready || q == block
      requires conn !in Nodes() && HasAwaited(conn)
      modifies q, q.nodes`prev, conn`next, conn`prev
      ensures Valid() == true && Live() == old(Live()) + {conn}
      ensures q.nodes == [conn] + old(q.nodes)
      ensures forall r :: r in old(block.nodes) && old(Watched(r)) ==> Watched(r)
      ensures old(NoStrays()) ==> NoStrays()
    {
      hide Watched, HasAwaited, NoStrays, Awaited, AskedAbout;
      JoinDescriptors(Live(), others, conn);
      ghost var live := Live() + {conn};
      Link(q, conn);
      BlockedAsBefore();
      assert Live() == live;
      assert OwnDescriptors(live, openFds) == true;
    }

    /** `accept`: nothing, or a descriptor the kernel has not handed out before. */
    method Accept() returns (fd: int)
      modifies this`pendingRequests, this`accepts
      ensures fd == -1 || (0 < fd < FD_SETSIZE && fd !in openFds)
      ensures accepts == old(accepts) + [fd]
    {
      fd := *;
      var named: bool := *;
      if fd <= 0 || fd in openFds {
        pendingRequests, fd := *, -1;
      } else if fd >= FD_SETSIZE || !named {
        fd := -1;
      }
      accepts := accepts + [fd];
    }

    /** Opens a request that is on no list; the lists do not notice. */
    method OpenUnlisted(conn: Request, fd: int, now: int, kacount: int, refuse: bool, ghost fds: set<int>)
      requires ListsOk() && OwnDescriptors(Live(), fds) && conn !in Nodes()
      modifies conn`fd, conn`status, conn`timeLast, conn`kacount, conn`bufferEnd
      ensures ListsOk() == true && OwnDescriptors(Live(), fds) == true && Nodes() == old(Nodes())
      ensures forall r :: r in block.nodes && old(Watched(r)) ==> Watched(r)
      ensures old(NoStrays()) ==> NoStrays()
      ensures conn.fd == fd && conn.kacount == kacount && conn.timeLast == now
      ensures conn.status == if refuse then Done else ReadHeader
      ensures !refuse ==> conn.bufferEnd == old(conn.bufferEnd)
    {
      Open(conn, fd, now, kacount, refuse);
      assert ListsOk() == true && Live() == old(Live());
      assert OwnDescriptors(Live(), fds) == true;
    }

    /** A cleared request opened on a connected socket, not yet on a list. */
    method NewConnection(fd: int, now: int, kacount: int, refuse: bool, ghost fds: set<int>) returns (conn: Request?)
      requires ListsOk() && OwnDescriptors(Live(), fds) && fd > 0
      modifies free, free.nodes
      ensures ListsOk() == true && OwnDescriptors(Live(), fds) == true
      ensures forall r :: r in block.nodes && old(Watched(r)) ==> Watched(r)
      ensures old(NoStrays()) ==> NoStrays()
      ensures conn == null ==> free.nodes == old(free.nodes) == []
      ensures conn != null ==> conn !in Nodes() && HasAwaited(conn) && Fds(conn) == {fd}
      ensures conn != null && !refuse ==> conn.bufferEnd == 0
      ensures conn != null ==> conn.status == if refuse then Done else ReadHeader
      ensures conn != null ==> conn.fd == fd && conn.kacount == kacount && conn.timeLast == now
      ensures conn != null ==> conn in old(free.nodes) || fresh(conn)
      ensures forall r :: r in free.nodes ==> r in old(free.nodes)
    {
      hide OwnDescriptors, NoStrays, Awaited, Watched;
      conn := NewRequest(fds);
      if conn != null {
        OpenUnlisted(conn, fd, now, kacount, refuse, fds);
      }
    }

    ghost predicate EndsWith(s: seq<Request>, rest: seq<Request>) {
      |rest| <= |s| && s[|s| - |rest|..] == rest
    }

    /** The list as it was, or with one request more at its head. */
    ghost predicate Lengthened(s: seq<Request>, was: seq<Request>) {
      s == was || (|s| > 0 && s[1..] == was)
    }

    /**
      What becomes of what `accept` brought: a connected socket gets a request at
      the head of the ready list, waiting for its header, or done at once if there
      are too many connections; but no memory means no request.
     */
    ghost predicate Received(was: seq<Request>, fd: int, noneFree: bool)
      reads this`currentTime, ready`nodes
      reads ready.nodes`fd, ready.nodes`timeLast, ready.nodes`kacount, ready.nodes`status
    {
      || (fd == -1 && ready.nodes == was)
      || (fd != -1 && ready.nodes == was && noneFree)
      || (fd != -1 && |ready.nodes| > 0 && ready.nodes[1..] == was && Opened(ready.nodes[0], fd))
    }

    ghost predicate Opened(conn: Request, fd: int)
      reads this`currentTime, conn`fd, conn`timeLast, conn`kacount, conn`status
    {
      && conn.fd == fd && conn.timeLast == currentTime && conn.kacount == kaMax
      && conn.status == if fd > maxConnections then Done else ReadHeader
    }

    /** Accepts at most one connection and puts it at the head of the ready list. */
    method GetRequest()
      requires Valid()
      modifies this`openFds, this`pendingRequests, this`totalConnections, this`accepts
      modifies ready, free, free.nodes, ready.nodes`prev
      ensures Valid()
      ensures Lengthened(ready.nodes, old(ready.nodes))
      ensures |accepts| == |old(accepts)| + 1 && old(accepts) <= accepts
      ensures Received(old(ready.nodes), accepts[|accepts| - 1], old(free.nodes) == [])
      ensures forall r :: r in Nodes() ==> r in old(Nodes()) || fresh(r)
      ensures old(AllWatched()) ==> AllWatched()
      ensures old(NoStrays()) ==> NoStrays()
    {
      var fd := Accept();
      if fd != -1 {
        Connect(fd);
      }
    }

    /** A new connection, unless memory has run out. */
    method Connect(fd: int)
      requires Valid() && fd > 0 && fd !in openFds
      modifies this`openFds, this`pendingRequests, this`totalConnections, ready, free, free.nodes, ready.nodes`prev
      ensures Valid() == true
      ensures Lengthened(ready.nodes, old(ready.nodes))
      ensures fd != -1 ==> Received(old(ready.nodes), fd, old(free.nodes) == [])
      ensures forall r :: r in Nodes() ==> r in old(Nodes()) || fresh(r)
      ensures forall r :: r in block.nodes && old(Watched(r)) ==> Watched(r)
      ensures old(NoStrays()) ==> NoStrays()
    {
      hide OwnDescriptors, Awaited, NoStrays, Watched, HasAwaited;
      var conn := NewConnection(fd, currentTime, kaMax, fd > maxConnections, openFds);
      if conn == null {
        return;
      }
      assert Opened(conn, fd);
      hide Opened;
      if fd > maxConnections {
        pendingRequests := false;
      }
      Register(conn, fd);
    }

    /** Counts a connection and puts it at the head of the ready list. */
    method Register(conn: Request, fd: int)
      requires ListsOk() && totalConnections == |ready.nodes| + |block.nodes|
      requires OwnDescriptors(Live(), openFds) == true && fd !in openFds
      requires conn !in Nodes() && HasAwaited(conn) && Fds(conn) == {fd}
      modifies this`openFds, this`totalConnections, ready, ready.nodes`prev, conn`next, conn`prev
      ensures Valid() == true
      ensures ready.nodes == [conn] + old(ready.nodes)
      ensures forall r :: r in block.nodes && old(Watched(r)) ==> Watched(r)
      ensures old(NoStrays()) ==> NoStrays()
    {
      hide OwnDescriptors, Awaited, NoStrays;
      ghost var others := openFds;
      totalConnections := totalConnections + 1;
      openFds := openFds + {fd};
      Admit(ready, conn, others);
    }

    /** Takes a finished request off the ready list and closes its data descriptors. */
    method Evict(req: Request, ghost k: nat) returns (ghost others: set<int>)
      requires Valid() && k < |ready.nodes| && ready.nodes[k] == req
      modifies this`openFds, ready, ready.nodes`next, ready.nodes`prev
      ensures ListsOk() && req !in Nodes()
      ensures ready.nodes == old(ready.nodes[..k] + ready.nodes[k + 1..])
      ensures totalConnections == |ready.nodes| + |block.nodes| + 1
      ensures OwnDescriptors(Live(), others) == true && openFds == others + {req.fd} && req.fd !in others
      ensures Nodes() <= old(Nodes()) && req.fd > 0
    {
      assert req in Live();
      others := openFds - Fds(req);
      LeaveDescriptors(Live(), openFds, req);
      Unlink(ready, req, k);
      assert Live() == old(Live()) - {req};
      assert OwnDescriptors(Live(), others) == true;
      if req.dataFd != 0 {
        openFds := openFds - {req.dataFd};
      }
      if req.postDataFd != 0 {
        openFds := openFds - {req.postDataFd};
      }
    }

    /** Puts a request that is on no list on the free list. */
    method Retire(req: Request)
      requires Valid() && req !in Nodes()
      modifies this`retired, free, free.nodes`prev, req`next, req`prev
      ensures Valid() == true
      ensures free.nodes == [req] + old(free.nodes)
      ensures retired == old(retired) + [req]
      ensures old(AllWatched()) ==> AllWatched()
      ensures old(NoStrays()) ==> NoStrays()
    {
      ghost var live := Live();
      retired := retired + [req];
      Link(free, req);
      assert Live() == live;
      assert OwnDescriptors(live, openFds) == true;
    }

    /** Hangs up: the socket closes and the request is retired. */
    method Close(req: Request, ghost others: set<int>)
      requires ListsOk() && req !in Nodes()
      requires totalConnections == |ready.nodes| + |block.nodes| + 1
      requires OwnDescriptors(Live(), others) && openFds == others + {req.fd} && req.fd !in others
      modifies this`openFds, this`totalConnections, this`retired, free, free.nodes`prev, req`next, req`prev
      ensures Valid()
      ensures free.nodes == [req] + old(free.nodes)
      ensures retired == old(retired) + [req]
      ensures totalConnections == old(totalConnections) - 1 && openFds == old(openFds) - {req.fd}
      ensures old(AllWatched()) ==> AllWatched()
      ensures old(NoStrays()) ==> NoStrays()
    {
      openFds := openFds - {req.fd};
      totalConnections := totalConnections - 1;
      assert Valid() == true && (old(AllWatched()) ==> AllWatched() == true);
      Retire(req);
    }

    /** Puts a connection that waits for a request on the blocked list. */
    method AdmitBlocked(conn: Request, ghost others: set<int>)
      requires ListsOk() && totalConnections == |ready.nodes| + |block.nodes| + 1
      requires OwnDescriptors(Live(), others) == true && openFds == others + Fds(conn) && Fds(conn) !! others
      requires conn !in Nodes() && HasAwaited(conn) && conn.status == ReadHeader && conn.bufferEnd == 0
      modifies this`blockRead, this`blockWrite, this`maxFd, block, block.nodes`prev, conn`next, conn`prev
      ensures Valid() == true
      ensures block.nodes == [conn] + old(block.nodes)
      ensures old(AllWatched()) ==> AllWatched()
      ensures old(NoStrays()) ==> NoStrays()
    {
      Admit(block, conn, others);
      assert conn in block.nodes && Awaited(conn) == ForRead(conn.fd);
      FdSet(ForRead(conn.fd));
    }

    /** `next` waits for another request on the connection of `req`. */
    ghost predicate Continues(next: Request, req: Request)
      reads next`fd, next`status, next`kacount, req`fd, req`kacount
    {
      next.fd == req.fd && next.status == ReadHeader && next.kacount == req.kacount - 1
    }

    ghost predicate KeptAlive(req: Request)
      reads req`keepalive, req`responseStatus, req`kacount
    {
      req.keepalive == KaActive && req.responseStatus < 500 && req.kacount > 0
    }

    /** Carries a kept-alive connection over to a new blocked request, if memory allows. */
    method CarryOver(req: Request, ghost others: set<int>) returns (ok: bool)
      requires ListsOk() && req !in Nodes() && req.fd > 0
      requires totalConnections == |ready.nodes| + |block.nodes| + 1
      requires OwnDescriptors(Live(), others) && openFds == others + {req.fd} && req.fd !in others
      modifies this`blockRead, this`blockWrite, this`maxFd, block, block.nodes`prev, free, free.nodes
      ensures ListsOk() && req !in Nodes()
      ensures ok ==> Valid() == true
      ensures old(AllWatched()) ==> AllWatched()
      ensures old(NoStrays()) ==> NoStrays()
      ensures ok ==> |block.nodes| > 0 && block.nodes[1..] == old(block.nodes) && Continues(block.nodes[0], req)
      ensures !ok ==> OwnDescriptors(Live(), others) == true && block.nodes == old(block.nodes)
      ensures !ok ==> free.nodes == old(free.nodes) == []
      ensures forall r :: r in Nodes() ==> r in old(Nodes()) || fresh(r)
      ensures forall r :: r in free.nodes ==> r in old(free.nodes)
    {
      hide NoStrays, OwnDescriptors, Awaited, Watched, HasAwaited;
      var conn := NewConnection(req.fd, req.timeLast, req.kacount - 1, false, others);
      assert old(AllWatched()) ==> AllWatched() == true;
      if conn == null {
        return false;
      }
      assert Continues(conn, req);
      AdmitBlocked(conn, others);
      return true;
    }

    /** The connection is closed and no longer counts. */
    ghost predicate Hung(blocked: seq<Request>, req: Request, connections: int)
      reads this`totalConnections, this`openFds, block`nodes, req`fd
    {
      block.nodes == blocked && totalConnections == connections - 1 && req.fd !in openFds
    }

    /** Its connection goes on as a new request at the head of the blocked list. */
    ghost predicate Continued(blocked: seq<Request>, req: Request)
      reads block`nodes, req`fd, req`kacount, block.nodes`fd, block.nodes`status, block.nodes`kacount
    {
      |block.nodes| > 0 && block.nodes[1..] == blocked && Continues(block.nodes[0], req)
    }

    /** Keeps a connection alive, if memory allows, and retires the request that had it. */
    method CarryOn(req: Request, ghost others: set<int>) returns (ok: bool)
      requires ListsOk() && req !in Nodes() && req.fd > 0
      requires totalConnections == |ready.nodes| + |block.nodes| + 1
      requires OwnDescriptors(Live(), others) && openFds == others + {req.fd} && req.fd !in others
      modifies this`blockRead, this`blockWrite, this`maxFd, this`retired
      modifies block, block.nodes`prev, free, free.nodes, req`next, req`prev
      ensures ok ==> Valid() == true && Continued(old(block.nodes), req)
      ensures ok ==> req in free.nodes && retired == old(retired) + [req]
      ensures !ok ==> ListsOk() && req !in Nodes() && OwnDescriptors(Live(), others) == true
      ensures !ok ==> free.nodes == old(free.nodes) == [] && block.nodes == old(block.nodes) && retired == old(retired)
      ensures old(AllWatched()) ==> AllWatched()
      ensures old(NoStrays()) ==> NoStrays()
      ensures forall r :: r in Nodes() ==> r == req || r in old(Nodes()) || fresh(r)
    {
      hide OwnDescriptors, Awaited, NoStrays;
      ok := CarryOver(req, others);
      assert forall i :: 0 <= i < |free.nodes| ==> free.nodes[i] in old(free.nodes);
      if ok {
        Retire(req);
      }
    }

    /** A request off the ready list: its connection is kept alive or closed. */
    method Finish(req: Request, ghost others: set<int>)
      requires ListsOk() && req !in Nodes() && req.fd > 0
      requires totalConnections == |ready.nodes| + |block.nodes| + 1
      requires OwnDescriptors(Live(), others) && openFds == others + {req.fd} && req.fd !in others
      modifies this`openFds, this`totalConnections, this`blockRead, this`blockWrite, this`maxFd, this`retired
      modifies block, block.nodes`prev, free, free.nodes, req`next, req`prev
      ensures Valid()
      ensures old(AllWatched()) ==> AllWatched()
      ensures old(NoStrays()) ==> NoStrays()
      ensures forall r :: r in Nodes() ==> r == req || r in old(Nodes()) || fresh(r)
      ensures req in free.nodes && retired == old(retired) + [req]
      ensures Hung(old(block.nodes), req, old(totalConnections)) || (KeptAlive(req) && Continued(old(block.nodes), req))
      ensures KeptAlive(req) && old(free.nodes) != [] ==> Continued(old(block.nodes), req)
    {
      if req.keepalive == KaActive && req.responseStatus < 500 && req.kacount > 0 {
        var ok := CarryOn(req, others);
        if ok {
          return;
        }
      }
      Close(req, others);
    }

    method MarkDone(req: Request)
      requires Valid() && req in ready.nodes
      modifies req`status
      ensures Valid() == true && req.status == Done
      ensures old(AllWatched()) ==> AllWatched()
      ensures old(NoStrays()) ==> NoStrays()
    {
      req.status := Done;
      ExchangeDescriptors(req);
    }

    /**
      Finishes a request: one with output left only becomes done; a kept-alive
      connection continues as a new blocked request; otherwise the connection closes.
     */
    method FreeRequest(req: Request, ghost k: nat)
      requires Valid() && k < |ready.nodes| && ready.nodes[k] == req
      modifies this`openFds, this`totalConnections, this`blockRead, this`blockWrite, this`maxFd, this`retired
      modifies ready, block, free, ready.nodes`next, ready.nodes`prev, req`status, block.nodes`prev, free.nodes
      ensures Valid()
      ensures old(AllWatched()) ==> AllWatched()
      ensures old(NoStrays()) ==> NoStrays()
      ensures if old(req.bufferEnd != 0 && req.status != Dead)
        then ready.nodes == old(ready.nodes) && req.status == Done
              else ready.nodes == old(ready.nodes[..k] + ready.nodes[k + 1..])
      ensures !old(req.bufferEnd != 0 && req.status != Dead) ==>
        req in free.nodes &&
        (Hung(old(block.nodes), req, old(totalConnections)) || (KeptAlive(req) && Continued(old(block.nodes), req))) &&
        (KeptAlive(req) && old(free.nodes) != [] ==> Continued(old(block.nodes), req))
      ensures retired == old(retired) + if old(req.bufferEnd != 0 && req.status != Dead) then [] else [req]
      ensures forall r :: r in Nodes() ==> r in old(Nodes()) || fresh(r)
    {
      hide OwnDescriptors, Awaited, NoStrays;
      if req.bufferEnd != 0 && req.status != Dead {
        MarkDone(req);
        return;
      }
      ghost var others := Evict(req, k);
      assert forall i :: 0 <= i < |free.nodes| ==> free.nodes[i] in old(free.nodes);
      Finish(req, others);
    }

    /** `req_flush`: blocked, an error that kills the request, or the number of bytes still buffered. */
    method Flush(r: Request) returns (n: int)
      modifies this`calls, r`status, r`bufferEnd
      ensures n >= -2
      ensures n == -1 ==> r.status == old(r.status) != Dead && r.bufferEnd == old(r.bufferEnd)
      ensures n == -2 ==> r.status == Dead
      ensures n >= 0 ==> r.status == old(r.status) && n == r.bufferEnd
      ensures calls == old(calls) + [Flushing(r, n)]
    {
      n := -2;
      if r.status != Dead {
        var blocked: bool, failed: bool, drained: bool := *, *, *;
        if r.bufferEnd != 0 && blocked {
          n := -1;
        } else if r.bufferEnd != 0 && failed {
          r.bufferEnd, r.status := 0, Dead;
        } else {
          if drained {
            r.bufferEnd := 0;
          }
          n := r.bufferEnd;
        }
      }
      calls := calls + [Flushing(r, n)];
    }

    /**
      A data descriptor a handler ends up holding: the one it had, or, having
      closed or forgotten that, none or a new one from the kernel.
     */
    method Exchange(had: int) returns (fd: int)
      requires had != 0 ==> had in openFds
      modifies this`openFds
      ensures fd == had || fd == 0 || (fd > 0 && fd !in old(openFds))
      ensures old(openFds) - (if had != 0 then {had} else {}) <= openFds
      ensures fd != 0 ==> fd in openFds
    {
      var keeps: bool, closes: bool := *, *;
      if keeps {
        return had;
      }
      if closes && had != 0 {
        openFds := openFds - {had};
      }
      fd := *;
      if fd <= 0 || fd in openFds {
        return 0;
      }
      openFds := openFds + {fd};
    }

    /** The two data descriptors a handler ends up holding. */
    method ExchangeBoth(r: Request) returns (data: int, post: int)
      requires HasAwaited(r) && Fds(r) <= openFds
      modifies this`openFds
      ensures r.fd != data && r.fd != post && (data == 0 || data != post)
      ensures r.fd in openFds && (data != 0 ==> data in openFds) && (post != 0 ==> post in openFds)
      ensures data in old(openFds) ==> data == 0 || data in Fds(r)
      ensures post in old(openFds) ==> post == 0 || post in Fds(r)
      ensures old(openFds) - Fds(r) <= openFds
    {
      data := Exchange(r.dataFd);
      post := Exchange(r.postDataFd);
    }

    /**
      What any of the status handlers may do to the request it is given: move
      on to any state it has the descriptors for, and then block or not.  Only
      a request that is not dead blocks.
     */
    method Handle(r: Request) returns (retval: int)
      requires Valid() && r in ready.nodes && r.status != Dead
      modifies this`openFds, this`calls
      modifies r`status, r`bufferEnd, r`keepalive, r`dataFd, r`postDataFd, r`responseStatus, r`logline
      ensures Valid() == true
      ensures retval in {-1, 0, 1} && (retval == -1 ==> r.status != Dead)
      ensures calls == old(calls) + [Handling(r, retval)]
    {
      hide ListsOk, NoStrays;
      assert r in Live();
      var data, post := ExchangeBoth(r);
      Become(r, data, post);
      ExchangeDescriptors(r);
      retval := *;
      if retval !in {-1, 0, 1} || (retval == -1 && r.status == Dead) {
        retval := 0;
      }
      calls := calls + [Handling(r, retval)];
      assert ListsOk() == true && Live() == old(Live());
    }

    /** The request takes any state that its descriptors allow. */
    method Become(r: Request, data: int, post: int)
      requires r.fd > 0 && r.fd != data && r.fd != post && (data == 0 || data != post)
      modifies r`status, r`bufferEnd, r`keepalive, r`dataFd, r`postDataFd, r`responseStatus, r`logline
      ensures HasAwaited(r) && r.dataFd == data && r.postDataFd == post
    {
      r.dataFd, r.postDataFd := data, post;
      r.status, r.bufferEnd, r.keepalive, r.responseStatus, r.logline := *, *, *, *, *;
      if !HasAwaited(r) {
        r.status := Write;
      }
    }

    /** An error ends the request; what is left keeps it going, and nothing left only ends one that is done. */
    ghost function Drained(n: int, was: Status): int {
      if n == -2 then 0 else if n > 0 || (n == 0 && was != Done) then 1 else n
    }

    /** Buffered output goes out before anything else happens; a finished request is over once it has none. */
    method Drain(current: Request) returns (retval: int)
      requires Valid() && current in ready.nodes && current.status != Dead
      modifies this`calls, current`status, current`bufferEnd
      ensures Valid()
      ensures exists n: int :: calls == old(calls) + [Flushing(current, n)] && retval == Drained(n, old(current.status))
      ensures retval in {-1, 0, 1} && (retval == -1 ==> current.status != Dead)
      ensures retval == -1 ==> current.status == old(current.status) && current.bufferEnd == old(current.bufferEnd)
      ensures retval == 0 ==>
        current.status == Dead || (current.status == old(current.status) == Done && current.bufferEnd == 0)
      ensures retval == 1 ==>
        current.status == old(current.status) && (current.status == Done ==> current.bufferEnd > 0)
    {
      var done := current.status == Done;
      retval := Flush(current);
      if retval == -2 {
        retval := 0;
      } else if retval > 0 || (retval == 0 && !done) {
        retval := 1;
      }
      ExchangeDescriptors(current);
    }

    /** One turn of a ready request: drain its buffer first, otherwise run the handler of its status. */
    method Dispatch(current: Request) returns (retval: int)
      requires Valid() && current in ready.nodes
      modifies this`openFds, this`currentTime, this`log, this`calls
      modifies current`status, current`bufferEnd, current`keepalive
      modifies current`dataFd, current`postDataFd, current`responseStatus, current`logline
      ensures Valid()
      ensures log == old(log) + [current]
      ensures if old(current.status) == Dead then calls == old(calls)
              else if old(current.bufferEnd) != 0 || old(current.status) == Done then
                exists n: int ::
                  calls == old(calls) + [Flushing(current, n)] && retval == Drained(n, old(current.status))
              else calls == old(calls) + [Handling(current, retval)]
      ensures retval in {-1, 0, 1} && (retval == -1 ==> current.status != Dead)
      ensures old(current.status) == Dead ==> retval == 0 && current.status == Dead && current.bufferEnd == 0
    {
      var now: int := *;
      currentTime := if now < currentTime then currentTime else now;
      log := log + [current];
      if current.status != Dead && (current.bufferEnd != 0 || current.status == Done) {
        retval := Drain(current);
      } else if current.status == Dead {
        retval := 0;
        current.bufferEnd := 0;
        current.keepalive := KaStopped;
        ExchangeDescriptors(current);
      } else {
        retval := Handle(current);
      }
    }

    /** A turn; once the server is to stop, no connection is kept alive any more. */
    method Attend(current: Request) returns (retval: int)
      requires Valid() && current in ready.nodes
      modifies this`openFds, this`currentTime, this`log, this`calls
      modifies current`status, current`bufferEnd, current`keepalive
      modifies current`dataFd, current`postDataFd, current`responseStatus, current`logline
      ensures Valid() == true
      ensures log == old(log) + [current] && |calls| == |old(calls)| + (if old(current.status) == Dead then 0 else 1)
      ensures sigterm ==> current.keepalive == KaStopped
      ensures old(AllWatched()) ==> AllWatched()
      ensures old(NoStrays()) ==> NoStrays()
      ensures retval in {-1, 0, 1} && (retval == -1 ==> current.status != Dead)
      ensures old(current.status) == Dead ==> retval == 0 && current.status == Dead
    {
      retval := Dispatch(current);
      if sigterm {
        current.keepalive := KaStopped;
      }
      forall r | old(AllWatched()) && r in block.nodes
        ensures Watched(r)
      {
        StillWatched(r);
      }
      BlockedAsBefore();
    }

    /** Serves the `k`-th ready request, then accepts a connection if one is pending. */
    method Serve(current: Request, ghost k: nat) returns (retval: int)
      requires Valid() && k < |ready.nodes| && ready.nodes[k] == current
      modifies this`openFds, this`currentTime, this`pendingRequests, this`totalConnections
      modifies this`log, this`calls, this`accepts
      modifies current`status, current`bufferEnd, current`keepalive
      modifies current`dataFd, current`postDataFd, current`responseStatus, current`logline
      modifies ready, free, free.nodes, ready.nodes`prev
      ensures Valid() == true
      ensures |accepts| == |old(accepts)| + (if old(pendingRequests) then 1 else 0) && old(accepts) <= accepts
      ensures log == old(log) + [current]
      ensures old(AllWatched()) ==> AllWatched()
      ensures old(NoStrays()) ==> NoStrays()
      ensures retval in {-1, 0, 1} && (retval == -1 ==> current.status != Dead)
      ensures old(current.status) == Dead ==> retval == 0 && current.status == Dead
      ensures Lengthened(ready.nodes, old(ready.nodes))
      ensures forall r :: r in old(ready.nodes) && r != current ==> r.status == old(r.status)
      ensures forall r :: r in Nodes() ==> r in old(Nodes()) || fresh(r)
    {
      hide OwnDescriptors, Awaited, NoStrays, Watched, Received;
      assert forall r :: r in ready.nodes ==> r !in free.nodes;
      retval := Attend(current);
      if pendingRequests {
        assert current in Live();
        GetRequest();
      }
    }

    /** Files the `k`-th ready request where its handler's result says, and moves on to its successor. */
    method Settle(current: Request, ghost k: nat, retval: int) returns (next: Request?)
      requires Valid() && k < |ready.nodes| && ready.nodes[k] == current
      requires retval == -1 ==> current.status != Dead
      modifies this`openFds, this`totalConnections, this`blockRead, this`blockWrite, this`maxFd, this`retired
      modifies ready, block, free, ready.nodes`next, ready.nodes`prev, current`status, current`timeLast
      modifies block.nodes`prev, free.nodes
      ensures Valid()
      ensures old(AllWatched()) ==> AllWatched()
      ensures old(NoStrays()) ==> NoStrays()
      ensures next == if k + 1 < old(|ready.nodes|) then old(ready.nodes)[k + 1] else null
      ensures EndsWith(ready.nodes, old(ready.nodes[k + 1..]))
      ensures var over := retval == 0 && old(current.status == Dead || current.bufferEnd == 0);
        && retired == old(retired) + (if over then [current] else [])
        && (over ==> ready.nodes == old(ready.nodes[..k] + ready.nodes[k + 1..]))
      ensures retval == -1 ==> block.nodes == [current] + old(block.nodes)
      ensures retval !in {-1, 0} ==> ready.nodes == old(ready.nodes) && block.nodes == old(block.nodes)
      ensures retval !in {-1, 0} ==> current.timeLast == currentTime
      ensures retval == -1 ==> current.timeLast == old(current.timeLast) && AskedAbout(current)
      ensures forall r :: r in old(ready.nodes) && r != current ==> r.status == old(r.status)
      ensures forall r :: r in Nodes() ==> r in old(Nodes()) || fresh(r)
    {
      hide OwnDescriptors, Awaited, NoStrays;
      next := current.next;
      ghost var were := ready.nodes;
      assert forall r :: r in ready.nodes ==> r !in free.nodes;
      match retval {
        case -1 =>
          BlockRequest(current, k);
        case 0 =>
          current.timeLast := currentTime;
          FreeRequest(current, k);
        case _ =>
          current.timeLast := currentTime;
      }
      assert ready.nodes == were || ready.nodes == were[..k] + were[k + 1..];
    }

    /** The pass has served the first `n` requests of `queue`; those of the rest that were dead still are. */
    ghost predicate Walking(queue: seq<Request>, n: nat, dead: set<Request>)
      reads ready`nodes, queue`status
    {
      && n <= |queue| && Distinct(queue) && EndsWith(ready.nodes, queue[n..])
      && forall i :: n <= i < |queue| && queue[i] in dead ==> queue[i].status == Dead
    }

    /** A request of the pass is served where it stands in the ready list. */
    method ServeListed(current: Request, ghost queue: seq<Request>, ghost n: nat, ghost dead: set<Request>)
      returns (retval: int)
      requires Valid() && Walking(queue, n, dead) && n < |queue| && queue[n] == current
      modifies this`openFds, this`currentTime, this`pendingRequests, this`totalConnections
      modifies this`log, this`calls, this`accepts
      modifies current`status, current`bufferEnd, current`keepalive
      modifies current`dataFd, current`postDataFd, current`responseStatus, current`logline
      modifies ready, free, free.nodes, ready.nodes`prev
      ensures Valid() == true
      ensures old(accepts) <= accepts
      ensures old(AllWatched()) ==> AllWatched()
      ensures old(NoStrays()) ==> NoStrays()
      ensures Walking(queue, n, dead - {current}) == true
      ensures log == old(log) + [current]
      ensures retval in {-1, 0, 1} && (retval == -1 ==> current.status != Dead)
      ensures current in dead ==> retval == 0 && current.status == Dead
      ensures forall r :: r in Nodes() ==> r in old(Nodes()) || fresh(r)
    {
      Tail(ready.nodes, queue, n);
      retval := Serve(current, |ready.nodes| - (|queue| - n));
      StillBehind(ready.nodes, old(ready.nodes), queue[n..]);
    }

    /** A request of the pass is filed where it belongs. */
    method SettleListed(current: Request, ghost queue: seq<Request>, ghost n: nat, ghost dead: set<Request>,
        retval: int)
      returns (next: Request?)
      requires Valid() && Walking(queue, n, dead - {current}) && n < |queue| && queue[n] == current
      requires retval == -1 ==> current.status != Dead
      requires current in dead ==> retval == 0 && current.status == Dead
      modifies this`openFds, this`totalConnections, this`blockRead, this`blockWrite, this`maxFd, this`retired
      modifies ready, block, free, ready.nodes`next, ready.nodes`prev, current`status, current`timeLast
      modifies block.nodes`prev, free.nodes
      ensures Valid() == true
      ensures old(AllWatched()) ==> AllWatched()
      ensures old(NoStrays()) ==> NoStrays()
      ensures Walking(queue, n + 1, dead) == true
      ensures next == if n + 1 == |queue| then null else queue[n + 1]
      ensures retired == old(retired) || retired == old(retired) + [current]
      ensures current in dead ==> retired == old(retired) + [current]
      ensures forall r :: r in Nodes() ==> r in old(Nodes()) || fresh(r)
    {
      Tail(ready.nodes, queue, n);
      next := Settle(current, |ready.nodes| - (|queue| - n), retval);
    }

    /** Serves and files one request of the pass. */
    method ServeNext(current: Request, ghost queue: seq<Request>, ghost n: nat, ghost dead: set<Request>)
      returns (next: Request?)
      requires Valid() && Walking(queue, n, dead) == true && n < |queue| && queue[n] == current
      modifies this, ready, block, free, Nodes()
      ensures Valid() == true
      ensures old(accepts) <= accepts
      ensures old(AllWatched()) ==> AllWatched()
      ensures old(NoStrays()) ==> NoStrays()
      ensures Walking(queue, n + 1, dead) == true
      ensures next == if n + 1 == |queue| then null else queue[n + 1]
      ensures log == old(log) + [current]
      ensures retired == old(retired) || retired == old(retired) + [current]
      ensures current in dead ==> retired == old(retired) + [current]
      ensures forall r :: r in Nodes() ==> r in old(Nodes()) || fresh(r)
    {
      hide OwnDescriptors, Awaited, NoStrays, Watched;
      Tail(ready.nodes, queue, n);
      var retval := ServeListed(current, queue, n, dead);
      next := SettleListed(current, queue, n, dead, retval);
    }

    lemma StillBehind(s: seq<Request>, was: seq<Request>, rest: seq<Request>)
      requires Lengthened(s, was) && EndsWith(was, rest)
      ensures EndsWith(s, rest)
    {
      if s != was {
        assert s[|s| - |rest|..] == s[1..][|was| - |rest|..];
      }
    }

    /** The rest of the pass, found at the end of the ready list. */
    lemma Tail(s: seq<Request>, queue: seq<Request>, n: nat)
      requires n < |queue| && EndsWith(s, queue[n..])
      ensures var k := |s| - (|queue| - n);
              && 0 <= k && s[k] == queue[n] && s[k + 1..] == queue[n + 1..]
              && (k + 1 < |s| ==> s[k + 1] == queue[n + 1])
      ensures forall i :: n <= i < |queue| ==> queue[i] in s
    {
      var k := |s| - (|queue| - n);
      forall i | n <= i < |queue|
        ensures queue[i] == s[k + (i - n)]
      {
        assert queue[i] == queue[n..][i - n] == s[k..][i - n];
      }
    }

    /** What the pass has written down: the first `n` requests of `queue` were dispatched, the dead ones retired. */
    ghost predicate Recorded(queue: seq<Request>, n: nat, dead: set<Request>, loggedBefore: seq<Request>,
                             logged: seq<Request>, retiredBefore: seq<Request>, retiredNow: seq<Request>)
    {
      && n <= |queue| && logged == loggedBefore + queue[..n] && retiredBefore <= retiredNow
      && forall i :: 0 <= i < n && queue[i] in dead ==> queue[i] in retiredNow[|retiredBefore|..]
    }

    lemma RecordNext(queue: seq<Request>, n: nat, dead: set<Request>, loggedBefore: seq<Request>,
                     logged: seq<Request>, retiredBefore: seq<Request>, mid: seq<Request>, retiredNow: seq<Request>)
      requires Recorded(queue, n, dead, loggedBefore, logged, retiredBefore, mid) == true && n < |queue|
      requires retiredNow == mid || retiredNow == mid + [queue[n]]
      requires queue[n] in dead ==> retiredNow == mid + [queue[n]]
      ensures Recorded(queue, n + 1, dead, loggedBefore, logged + [queue[n]], retiredBefore, retiredNow) == true
    {
      assert queue[..n + 1] == queue[..n] + [queue[n]];
      if retiredNow == mid + [queue[n]] {
        assert retiredNow[|retiredBefore|..] == mid[|retiredBefore|..] + [queue[n]];
      }
    }

    lemma AllRecorded(queue: seq<Request>, dead: set<Request>, loggedBefore: seq<Request>,
                      logged: seq<Request>, retiredBefore: seq<Request>, retiredNow: seq<Request>)
      requires Recorded(queue, |queue|, dead, loggedBefore, logged, retiredBefore, retiredNow) == true
      ensures logged == loggedBefore + queue && retiredBefore <= retiredNow
      ensures forall r :: r in queue && r in dead ==> r in retiredNow[|retiredBefore|..]
    {
      assert queue[..|queue|] == queue;
    }

    /** Before the first turn of the pass. */
    lemma Starting(dead: set<Request>)
      requires Valid() && forall r :: r in dead ==> r.status == Dead
      ensures Walking(ready.nodes, 0, dead) == true
      ensures Recorded(ready.nodes, 0, dead, log, log, retired, retired) == true
      ensures ready.head == if |ready.nodes| == 0 then null else ready.nodes[0]
    {}

    /** The loop of the pass: dispatches the ready list as it is now, and retires those that were dead. */
    method ServeAll(ghost dead: set<Request>)
      requires Valid()
      requires forall r :: r in dead ==> r.status == Dead
      modifies this, ready, block, free, Nodes()
      ensures Valid()
      ensures old(accepts) <= accepts
      ensures old(AllWatched()) ==> AllWatched()
      ensures old(NoStrays()) ==> NoStrays()
      ensures log == old(log) + old(ready.nodes)
      ensures old(retired) <= retired
      ensures forall r :: r in old(ready.nodes) && r in dead ==> r in retired[|old(retired)|..]
      ensures forall r :: r in Nodes() ==> r in old(Nodes()) || fresh(r)
    {
      hide Valid, AllWatched, Walking, Recorded;
      ghost var queue := ready.nodes;
      var current := ready.head;
      ghost var n := 0;
      Starting(dead);
      while current != null
        invariant Valid() == true
        invariant old(accepts) <= accepts
        invariant old(AllWatched()) ==> AllWatched()
        invariant old(NoStrays()) ==> NoStrays()
        invariant n <= |queue| && Walking(queue, n, dead) == true
        invariant current == if n == |queue| then null else queue[n]
        invariant Recorded(queue, n, dead, old(log), log, old(retired), retired) == true
        invariant forall r :: r in Nodes() ==> r in old(Nodes()) || fresh(r)
        decreases |queue| - n
      {
        ghost var logged, were := log, retired;
        current := ServeNext(current, queue, n, dead);
        RecordNext(queue, n, dead, old(log), logged, old(retired), were, retired);
        n := n + 1;
      }
      AllRecorded(queue, dead, old(log), log, old(retired), retired);
    }

    /**
      One pass over the ready list.  However many requests the pass itself
      unlinks, recycles or accepts, it dispatches the list it started from,
      each request once and in order; and it retires every request that was dead.
     */
    method ProcessRequests()
      requires Valid()
      modifies this, ready, block, free, Nodes()
      ensures Valid()
      ensures old(AllWatched()) ==> AllWatched()
      ensures old(NoStrays()) ==> NoStrays()
      ensures old(log) <= log && IsPass(log[|old(log)|..], old(ready.nodes))
      ensures old(accepts) <= accepts && (old(pendingRequests) ==> |accepts| > |old(accepts)|)
      ensures old(retired) <= retired
      ensures forall r :: r in old(ready.nodes) && old(r.status) == Dead ==> r in retired[|old(retired)|..]
      ensures forall r :: r in Nodes() ==> r in old(Nodes()) || fresh(r)
    {
      hide OwnDescriptors, Awaited, NoStrays;
      ghost var dead := set r | r in ready.nodes && r.status == Dead;
      assert forall r :: r in ready.nodes ==> r in Live() && r !in free.nodes;
      if pendingRequests {
        GetRequest();
      }
      ServeAll(dead);
    }

    lemma PassServes(dispatched: seq<Request>, list: seq<Request>, r: Request)
      requires IsPass(dispatched, list) && r in list
      ensures r in dispatched
    {
      if dispatched != list {
        assert r in dispatched[1..];
      }
    }

    /** What a pass dispatches: the ready list, perhaps with a new connection in front, each request once. */
    ghost predicate IsPass(dispatched: seq<Request>, list: seq<Request>) {
      Distinct(dispatched) && Lengthened(dispatched, list)
    }

    /** A keep-alive connection that stayed silent, or any request that made no progress, for too long. */
    ghost predicate TimedOut(r: Request)
      reads this`currentTime, r`timeLast, r`kacount, r`logline
    {
      var since := currentTime - r.timeLast;
      (r.kacount < kaMax && since >= kaTimeout && !r.logline) || since > REQUEST_TIMEOUT
    }

    /** Which blocked requests the next pass must serve. */
    ghost predicate MustWake(r: Request)
      reads this`currentTime, this`blockRead, this`blockWrite, r`timeLast, r`kacount, r`logline
      reads r`status, r`bufferEnd, r`fd, r`dataFd, r`postDataFd
    {
      TimedOut(r) || r.status == Dead || EventCame(r)
    }

    /** What `ready_request` takes a dead request to have waited for. */
    ghost function AwaitedDead(r: Request): Wait
      reads r`bufferEnd, r`fd
    {
      if r.bufferEnd != 0 then ForWrite(r.fd) else ForRead(r.fd)
    }

    /**
      A request that is about to time out although what it waits for has come;
      and a dead one is taken to have waited for something else.
     */
    ghost predicate DiesSet(r: Request)
      reads this`currentTime, this`blockRead, this`blockWrite, r`timeLast, r`kacount, r`logline
      reads r`status, r`bufferEnd, r`fd, r`dataFd, r`postDataFd
    {
      TimedOut(r) && IsSet(Awaited(r)) && Awaited(r) != AwaitedDead(r) && Awaited(r) != ForRead(serverFd)
    }

    ghost predicate DataReady(r: Request)
      reads this`blockRead, this`blockWrite, r`status, r`fd, r`dataFd, r`postDataFd
    {
      || (r.status == PipeRead && r.dataFd in blockRead && r.dataFd != serverFd)
      || (r.status == BodyWrite && r.postDataFd in blockWrite)
      || (r.status in {Write, PipeWrite, Done} && r.fd in blockWrite)
    }

    /** That is a request without buffered output, and not one that only waits to read from its client. */
    lemma DiesSetWhen(r: Request)
      requires HasAwaited(r) && r.fd != serverFd
      ensures DiesSet(r) <==> TimedOut(r) && r.bufferEnd == 0 && DataReady(r)
    {}

    /** What an unblocked request waited for is still set. */
    ghost predicate Stranded(r: Request, w: Wait)
      reads this`blockRead, this`blockWrite, block`nodes, r`fd, r`dataFd, r`postDataFd
    {
      IsSet(w) && w != ForRead(serverFd) && w.fd in Fds(r) && r !in block.nodes
    }

    /** Nobody else waits for it: live requests share no descriptor. */
    lemma StrandedIsStray(r: Request, w: Wait)
      requires Valid() && r in Live() && Stranded(r, w)
      ensures !NoStrays()
    {
      forall s | s in block.nodes ensures Awaited(s) != w {
        assert s in Live() && Awaited(s).fd in Fds(s);
      }
      assert !Named(w);
    }

    /** What the turn of one blocked request leaves alone in another. */
    twostate predicate Undisturbed(s: Request)
      reads this`currentTime, this`blockRead, this`blockWrite, this`maxFd, s`timeLast, s`kacount, s`logline
      reads s`status, s`bufferEnd, s`fd, s`dataFd, s`postDataFd
    {
      && s.status == old(s.status)
      && TimedOut(s) == old(TimedOut(s))
      && MustWake(s) == old(MustWake(s))
      && (old(Watched(s)) ==> Watched(s))
      && Awaited(s) == old(Awaited(s)) && DiesSet(s) == old(DiesSet(s)) && Fds(s) == old(Fds(s))
    }

    /** What one turn leaves as it was for a request that does not have it. */
    twostate predicate LeftAlone(s: Request)
      reads this`currentTime, this`blockRead, this`blockWrite, this`maxFd, s`timeLast, s`kacount, s`logline
      reads s`status, s`bufferEnd, s`fd, s`dataFd, s`postDataFd, ready`nodes, block`nodes
    {
      && Undisturbed(s)
      && (s in block.nodes <==> s in old(block.nodes))
      && (s in ready.nodes <==> s in old(ready.nodes))
    }

    twostate predicate Untouched(s: Request)
      reads s`timeLast, s`kacount, s`logline, s`status, s`bufferEnd, s`fd, s`dataFd, s`postDataFd
    {
      && s.status == old(s.status) && s.bufferEnd == old(s.bufferEnd)
      && s.fd == old(s.fd) && s.dataFd == old(s.dataFd) && s.postDataFd == old(s.postDataFd)
      && s.timeLast == old(s.timeLast) && s.kacount == old(s.kacount) && s.logline == old(s.logline)
    }

    twostate lemma OthersUndisturbed(current: Request)
      requires old(Valid()) && current in old(Live())
      requires forall fd :: fd !in old(Fds(current)) ==>
        (fd in blockRead <==> fd in old(blockRead)) && (fd in blockWrite <==> fd in old(blockWrite))
      requires old(maxFd) <= maxFd && currentTime == old(currentTime)
      requires forall s :: s in old(Live()) && s != current ==> Untouched(s) == true
      ensures forall s :: s in old(Live()) && s != current ==> Undisturbed(s)
    {
      forall s | s in old(Live()) && s != current
        ensures Undisturbed(s)
      {
        assert old(Awaited(s)).fd in old(Fds(s));
      }
    }

    /** A request that has waited too long dies. */
    method Expire(current: Request)
      requires Valid() && current in block.nodes
      modifies current`status
      ensures Valid() == true
      ensures current.status == if old(TimedOut(current)) then Dead else old(current.status)
      ensures Awaited(current).fd in Fds(current)
    {
      assert current in Live();
      var since := currentTime - current.timeLast;
      if (current.kacount < kaMax && since >= kaTimeout && !current.logline) || since > REQUEST_TIMEOUT {
        current.status := Dead;
        ExchangeDescriptors(current);
      }
    }

    /** A blocked request that is dead or has its event becomes ready; another is watched again. */
    method Refile(current: Request, ghost k: nat)
      requires Valid() && k < |block.nodes| && block.nodes[k] == current
      modifies this`blockRead, this`blockWrite, this`maxFd, ready, block, Live()`next, Live()`prev
      ensures Valid() == true && Live() == old(Live())
      ensures if old(current.status == Dead || IsSet(Awaited(current)))
              then block.nodes == old(block.nodes[..k] + block.nodes[k + 1..]) &&
                ready.nodes == [current] + old(ready.nodes)
              else block.nodes == old(block.nodes) && ready.nodes == old(ready.nodes) && Watched(current)
      ensures forall s :: s in Live() && s != current ==>
        (s in block.nodes <==> s in old(block.nodes)) && (s in ready.nodes <==> s in old(ready.nodes))
      ensures var wakes := old(current.status == Dead || IsSet(Awaited(current)));
        (current in ready.nodes <==> wakes) && (current in block.nodes <==> !wakes)
      ensures forall fd :: fd != Awaited(current).fd ==>
        (fd in blockRead <==> fd in old(blockRead)) && (fd in blockWrite <==> fd in old(blockWrite))
      ensures var wakes := old(current.status == Dead || IsSet(Awaited(current)));
        forall w: Wait :: IsSet(w) <==>
          if wakes then old(IsSet(w)) && w != Awaited(current) else old(IsSet(w)) || w == Awaited(current)
      ensures old(maxFd) <= maxFd
    {
      if current.status == Dead || IsSet(Awaited(current)) {
        ReadyRequest(current, k);
      } else {
        FdSet(Awaited(current));
      }
    }

    /** Decides about the `k`-th blocked request and refiles it. */
    method Examine(current: Request, ghost k: nat)
      requires Valid() && k < |block.nodes| && block.nodes[k] == current
      modifies this`blockRead, this`blockWrite, this`maxFd, ready, block, current`status, Live()`next, Live()`prev
      ensures Valid() == true && Live() == old(Live())
      ensures current.status == if old(TimedOut(current)) then Dead else old(current.status)
      ensures if old(MustWake(current))
              then block.nodes == old(block.nodes[..k] + block.nodes[k + 1..]) &&
                ready.nodes == [current] + old(ready.nodes)
              else block.nodes == old(block.nodes) && ready.nodes == old(ready.nodes) && Watched(current)
      ensures forall s :: s in Live() && s != current ==>
        (s in block.nodes <==> s in old(block.nodes)) && (s in ready.nodes <==> s in old(ready.nodes))
      ensures current in ready.nodes <==> old(MustWake(current))
      ensures current in block.nodes <==> !old(MustWake(current))
      ensures forall fd :: fd !in old(Fds(current)) ==>
        (fd in blockRead <==> fd in old(blockRead)) && (fd in blockWrite <==> fd in old(blockWrite))
      ensures forall w: Wait :: IsSet(w) <==>
        if old(MustWake(current)) then old(IsSet(w)) && w != Awaited(current)
          else old(IsSet(w)) || w == Awaited(current)
      ensures old(maxFd) <= maxFd
    {
      Expire(current);
      Refile(current, k);
    }

    /** Examines the `k`-th blocked request after `select` has returned. */
    method UpdateOne(current: Request, ghost k: nat)
      requires Valid() && k < |block.nodes| && block.nodes[k] == current
      modifies this`blockRead, this`blockWrite, this`maxFd, ready, block, current`status, Live()`next, Live()`prev
      ensures Valid() == true && Live() == old(Live())
      ensures current.status == if old(TimedOut(current)) then Dead else old(current.status)
      ensures if old(MustWake(current))
              then block.nodes == old(block.nodes[..k] + block.nodes[k + 1..]) &&
                ready.nodes == [current] + old(ready.nodes)
              else block.nodes == old(block.nodes) && ready.nodes == old(ready.nodes) && Watched(current)
      ensures forall s :: s in Live() && s != current ==> LeftAlone(s)
      ensures current in ready.nodes <==> old(MustWake(current))
      ensures current in block.nodes <==> !old(MustWake(current))
      ensures forall fd :: fd !in old(Fds(current)) ==>
        (fd in blockRead <==> fd in old(blockRead)) && (fd in blockWrite <==> fd in old(blockWrite))
      ensures old(NoStrays()) && !old(DiesSet(current)) ==> NoStrays()
      ensures old(DiesSet(current)) ==> Stranded(current, old(Awaited(current)))
      ensures old(current.bufferEnd != 0 && current.status != Dead && !TimedOut(current)) ==>
        (current in ready.nodes <==> old(current.fd in blockWrite))
    {
      hide OwnDescriptors, NoStrays, Stranded, Undisturbed, Awaited;
      Examine(current, k);
      OthersUndisturbed(current);
      Tidied(current);
    }

    /** A turn leaves what its request waited for set only if the request dies with it. */
    twostate lemma Tidied(current: Request)
      requires old(Valid()) && current in old(block.nodes)
      requires current.bufferEnd == old(current.bufferEnd) && current.fd == old(current.fd)
      requires current.dataFd == old(current.dataFd) && current.postDataFd == old(current.postDataFd)
      requires current.status == if old(TimedOut(current)) then Dead else old(current.status)
      requires forall s :: s in old(Live()) && s != current ==> LeftAlone(s)
      requires current in block.nodes <==> !old(MustWake(current))
      requires forall w: Wait :: IsSet(w) <==>
        if old(MustWake(current)) then old(IsSet(w)) && w != Awaited(current)
          else old(IsSet(w)) || w == Awaited(current)
      ensures old(NoStrays()) && !old(DiesSet(current)) ==> NoStrays()
      ensures old(DiesSet(current)) ==> Stranded(current, old(Awaited(current)))
    {
      if old(NoStrays()) && !old(DiesSet(current)) {
        forall w: Wait | IsSet(w) && w != ForRead(serverFd)
          ensures Named(w)
        {
          if old(IsSet(w)) {
            assert old(Named(w));
            var s :| s in old(block.nodes) && old(Awaited(s)) == w;
            assert s in old(Live());
            assert s in block.nodes && Awaited(s) == w;
          } else {
            assert current in block.nodes && Awaited(current) == w;
          }
        }
      }
      if old(DiesSet(current)) {
        assert current in old(Live());
      }
    }

    /** Where a request of the blocked list stands before and after its turn. */
    ghost predicate Unexamined(r: Request, wakes: bool, late: bool, was: Status)
      reads this`currentTime, this`blockRead, this`blockWrite, r`timeLast, r`kacount, r`logline
      reads r`status, r`bufferEnd, r`fd, r`dataFd, r`postDataFd, block`nodes
    {
      r.status == was && MustWake(r) == wakes && TimedOut(r) == late && r in block.nodes
    }

    ghost predicate Examined(r: Request, wakes: bool, late: bool, was: Status)
      reads this`blockRead, this`blockWrite, this`maxFd, ready`nodes, block`nodes
      reads r`status, r`bufferEnd, r`fd, r`dataFd, r`postDataFd
    {
      && r.status == (if late then Dead else was)
      && (r in ready.nodes <==> wakes)
      && (r in block.nodes <==> !wakes)
      && (!wakes ==> Watched(r))
    }

    /** The blocked list after the first requests of the survey have had their turn. */
    ghost predicate Progress(v: Survey)
      reads this, ready, block, Live(), v.queue
    {
      InOrder(v, block.nodes) && AllUnexamined(v) && AllExamined(v) && AllPending(v) && AllStranded(v) && Tidy(v)
    }

    /** A request whose turn is to come still dies with its descriptor set if it was to. */
    ghost predicate Pending(r: Request, dying: map<Request, Wait>)
      reads this`currentTime, this`blockRead, this`blockWrite, r`timeLast, r`kacount, r`logline
      reads r`status, r`bufferEnd, r`fd, r`dataFd, r`postDataFd
    {
      (r in dying <==> DiesSet(r)) && (r in dying ==> dying[r] == Awaited(r))
    }

    ghost predicate AllPending(v: Survey)
      reads this`currentTime, this`blockRead, this`blockWrite, v.queue
    {
      forall i :: v.n <= i < |v.queue| ==> Pending(v.queue[i], v.dying)
    }

    /** The turns so far have left set what those that died so waited for. */
    ghost predicate AllStranded(v: Survey)
      reads this`blockRead, this`blockWrite, block`nodes, v.queue
    {
      forall i :: 0 <= i < v.n <= |v.queue| && v.queue[i] in v.dying ==> Stranded(v.queue[i], v.dying[v.queue[i]])
    }

    /** And nothing else. */
    ghost predicate Tidy(v: Survey)
      reads this`blockRead, this`blockWrite, block`nodes
      reads block.nodes`status, block.nodes`bufferEnd, block.nodes`fd, block.nodes`dataFd, block.nodes`postDataFd
    {
      v.tidy && (forall i :: 0 <= i < v.n <= |v.queue| ==> v.queue[i] !in v.dying) ==> NoStrays()
    }

    /** What is still to come ends the blocked list `s`, and nothing is on it that was not there before. */
    ghost predicate InOrder(v: Survey, s: seq<Request>) {
      && v.n <= |v.queue| && Distinct(v.queue) && EndsWith(s, v.queue[v.n..])
      && (forall i :: 0 <= i < |v.queue| ==> v.queue[i] in v.was)
      && (forall r :: r in s ==> r in v.queue)
    }

    /** Taking or leaving the request whose turn it is keeps that order. */
    lemma InOrderNext(v: Survey, s: seq<Request>, now: seq<Request>)
      requires InOrder(v, s) && v.n < |v.queue|
      requires var k := |s| - (|v.queue| - v.n); now == s || now == s[..k] + s[k + 1..]
      ensures InOrder(v.(n := v.n + 1), now) == true
    {
      Head(s, v.queue, v.n);
      var k := |s| - (|v.queue| - v.n);
      assert now[|now| - (|s| - k - 1)..] == s[k + 1..];
    }

    ghost predicate AllUnexamined(v: Survey)
      reads this`currentTime, this`blockRead, this`blockWrite, v.queue, block`nodes
    {
      forall i :: v.n <= i < |v.queue| && v.queue[i] in v.was ==>
        Unexamined(v.queue[i], v.queue[i] in v.wake, v.queue[i] in v.late, v.was[v.queue[i]])
    }

    ghost predicate AllExamined(v: Survey)
      reads this`blockRead, this`blockWrite, this`maxFd, ready`nodes, block`nodes, v.queue
    {
      forall i :: 0 <= i < v.n <= |v.queue| && v.queue[i] in v.was ==>
        Examined(v.queue[i], v.queue[i] in v.wake, v.queue[i] in v.late, v.was[v.queue[i]])
    }

    /** The requests still to come keep their state through a turn. */
    twostate lemma OthersStillUnexamined(v: Survey)
      requires old(AllUnexamined(v)) && v.n < |v.queue| && Distinct(v.queue)
      requires forall s :: s in v.queue && s != v.queue[v.n] ==> LeftAlone(s)
      ensures AllUnexamined(v.(n := v.n + 1))
    {
      forall i | v.n < i < |v.queue| && v.queue[i] in v.was
        ensures Unexamined(v.queue[i], v.queue[i] in v.wake, v.queue[i] in v.late, v.was[v.queue[i]]) == true
      {
        assert LeftAlone(v.queue[i]);
      }
    }

    /** And so do the requests that have had theirs. */
    twostate lemma OthersStillExamined(v: Survey)
      requires old(AllExamined(v)) && v.n < |v.queue| && Distinct(v.queue)
      requires forall s :: s in v.queue && s != v.queue[v.n] ==> LeftAlone(s)
      requires v.queue[v.n] in v.was ==>
        Examined(v.queue[v.n], v.queue[v.n] in v.wake, v.queue[v.n] in v.late, v.was[v.queue[v.n]]) == true
      ensures AllExamined(v.(n := v.n + 1))
    {
      forall i | 0 <= i < v.n && v.queue[i] in v.was
        ensures Examined(v.queue[i], v.queue[i] in v.wake, v.queue[i] in v.late, v.was[v.queue[i]]) == true
      {
        assert LeftAlone(v.queue[i]);
      }
    }

    twostate lemma OthersStillPending(v: Survey)
      requires old(AllPending(v)) && v.n < |v.queue| && Distinct(v.queue)
      requires forall s :: s in v.queue && s != v.queue[v.n] ==> LeftAlone(s)
      ensures AllPending(v.(n := v.n + 1))
    {
      forall i | v.n < i < |v.queue|
        ensures Pending(v.queue[i], v.dying) == true
      {
        assert LeftAlone(v.queue[i]);
      }
    }

    twostate lemma OthersStillStranded(v: Survey)
      requires old(Valid()) && old(AllStranded(v)) && old(AllPending(v)) && v.n < |v.queue| && Distinct(v.queue)
      requires forall s :: s in v.queue ==> s in old(Live())
      requires forall s :: s in v.queue && s != v.queue[v.n] ==> LeftAlone(s)
      requires forall fd :: fd !in old(Fds(v.queue[v.n])) ==>
        (fd in blockRead <==> fd in old(blockRead)) && (fd in blockWrite <==> fd in old(blockWrite))
      requires old(DiesSet(v.queue[v.n])) ==> Stranded(v.queue[v.n], old(Awaited(v.queue[v.n])))
      ensures AllStranded(v.(n := v.n + 1))
    {
      var current := v.queue[v.n];
      assert old(Pending(current, v.dying));
      forall i | 0 <= i < v.n && v.queue[i] in v.dying
        ensures Stranded(v.queue[i], v.dying[v.queue[i]]) == true
      {
        assert LeftAlone(v.queue[i]) && v.queue[i] in old(Live()) && v.queue[i] != current;
        assert old(Stranded(v.queue[i], v.dying[v.queue[i]]));
        assert old(Fds(v.queue[i])) !! old(Fds(current));
      }
    }

    twostate lemma StillTidy(v: Survey)
      requires old(Tidy(v)) && old(AllPending(v)) && v.n < |v.queue|
      requires old(NoStrays()) && !old(DiesSet(v.queue[v.n])) ==> NoStrays()
      ensures Tidy(v.(n := v.n + 1))
    {
      assert old(Pending(v.queue[v.n], v.dying));
    }

    /** The request whose turn it was has been treated as it should. */
    twostate lemma NowExamined(v: Survey)
      requires v.n < |v.queue| && v.queue[v.n] in v.was && old(AllUnexamined(v))
      requires var r := v.queue[v.n];
        && r.status == (if old(TimedOut(r)) then Dead else old(r.status))
        && (r in ready.nodes <==> old(MustWake(r))) && (r in block.nodes <==> !old(MustWake(r)))
        && (!old(MustWake(r)) ==> Watched(r))
      ensures var r := v.queue[v.n]; Examined(r, r in v.wake, r in v.late, v.was[r]) == true
    {
      assert old(Unexamined(v.queue[v.n], v.queue[v.n] in v.wake, v.queue[v.n] in v.late, v.was[v.queue[v.n]]));
    }

    /** One turn. */
    method Turn(current: Request, ghost v: Survey)
      requires Valid() && Progress(v) && v.n < |v.queue| && v.queue[v.n] == current
      modifies this`blockRead, this`blockWrite, this`maxFd, ready, block, current`status, Live()`next, Live()`prev
      ensures Valid() == true && Live() == old(Live())
      ensures Progress(v.(n := v.n + 1)) == true
    {
      hide OwnDescriptors, MustWake, TimedOut, Awaited, Watched, Examined, Unexamined, AllExamined, AllUnexamined,
        Undisturbed, Pending, AllPending, AllStranded, Tidy, NoStrays, Stranded, DiesSet;
      Head(block.nodes, v.queue, v.n);
      forall r | r in v.queue
        ensures r in Live()
      {
        AllLive(v, r);
      }
      UpdateOne(current, |block.nodes| - (|v.queue| - v.n));
      InOrderNext(v, old(block.nodes), block.nodes);
      NowExamined(v);
      OthersStillUnexamined(v);
      OthersStillExamined(v);
      OthersStillPending(v);
      OthersStillStranded(v);
      StillTidy(v);
    }

    /** Every request of the survey is blocked or has been woken. */
    lemma AllLive(v: Survey, r: Request)
      requires Progress(v) && r in v.queue
      ensures r in Live()
    {
      var i :| 0 <= i < |v.queue| && v.queue[i] == r;
    }

    /**
      After `select`: wakes exactly the requests that are dead, have timed out or
      have a ready descriptor, and asks again about every other one.
     */
    method FdsetUpdate()
      requires Valid()
      modifies this`blockRead, this`blockWrite, this`maxFd, ready, block, block.nodes`status, Live()`next, Live()`prev
      ensures Valid() && Live() == old(Live())
      ensures AllWatched()
      ensures forall r :: r in old(block.nodes) ==> (r in ready.nodes <==> old(MustWake(r)))
      ensures forall r :: r in old(block.nodes) ==> r.status == if old(TimedOut(r)) then Dead else old(r.status)
      ensures old(NoStrays()) ==> (NoStrays() <==> forall r :: r in old(block.nodes) ==> !old(DiesSet(r)))
    {
      hide OwnDescriptors, NoStrays, DiesSet, MustWake, TimedOut, Awaited, AllExamined, AllUnexamined, AllPending,
        AllStranded, Tidy;
      ghost var v := Surveyed();
      Unstarted(v);
      var current := block.head;
      while current != null
        invariant v == old(Surveyed()).(n := v.n) && v.n <= |v.queue|
        invariant Valid() == true
        invariant Live() == old(Live())
        invariant Progress(v) == true
        invariant current == if v.n == |v.queue| then null else v.queue[v.n]
        decreases |v.queue| - v.n
      {
        Successor(current, v.queue, v.n);
        var next := current.next;
        Turn(current, v);
        current := next;
        v := v.(n := v.n + 1);
      }
      Finished(v);
      if old(NoStrays()) {
        FinishedTidy(v);
      }
    }

    /**
      After the last turn, something is set that nobody waits for exactly if a
      request died with its descriptor set.
     */
    lemma FinishedTidy(v: Survey)
      requires Valid() && Progress(v) && v.n == |v.queue| && v.tidy
      ensures NoStrays() <==> forall r :: r in v.queue ==> r !in v.dying
    {
      forall i | 0 <= i < |v.queue| && v.queue[i] in v.dying
        ensures !NoStrays()
      {
        AllLive(v, v.queue[i]);
        assert Stranded(v.queue[i], v.dying[v.queue[i]]);
        StrandedIsStray(v.queue[i], v.dying[v.queue[i]]);
      }
    }

    /** The blocked list as `select` leaves it. */
    ghost function Surveyed(): (v: Survey)
      reads this`currentTime, this`blockRead, this`blockWrite, block`nodes, block.nodes
      ensures v.queue == block.nodes && v.n == 0
      ensures forall r :: r in block.nodes ==> (r in v.wake <==> MustWake(r)) && (r in v.late <==> TimedOut(r))
      ensures forall r :: r in block.nodes ==> r in v.was && v.was[r] == r.status
      ensures v.tidy == NoStrays() && forall r :: r in block.nodes ==> Pending(r, v.dying)
    {
      Survey(block.nodes, 0, set r | r in block.nodes && MustWake(r),
             set r | r in block.nodes && TimedOut(r), map r | r in block.nodes :: r.status,
             NoStrays(), map r | r in block.nodes && DiesSet(r) :: Awaited(r))
    }

    /** Before the first turn. */
    lemma Unstarted(v: Survey)
      requires block.Valid() && v == Surveyed()
      ensures Progress(v) == true
    {}

    /** After the last turn. */
    lemma Finished(v: Survey)
      requires Progress(v) && v.n == |v.queue|
      ensures AllWatched()
      ensures forall r :: r in v.queue ==>
        r in v.was && r.status == (if r in v.late then Dead else v.was[r]) && (r in ready.nodes <==> r in v.wake)
    {
      forall r | r in v.queue
        ensures r in v.was && Examined(r, r in v.wake, r in v.late, v.was[r])
      {
        var i :| 0 <= i < |v.queue| && v.queue[i] == r;
      }
    }

    /** The next request to examine, found near the end of the blocked list. */
    lemma Head(s: seq<Request>, queue: seq<Request>, n: nat)
      requires n < |queue| && EndsWith(s, queue[n..])
      ensures var k := |s| - (|queue| - n);
              0 <= k && s[k] == queue[n] && s[k + 1..] == queue[n + 1..]
    {
      var k := |s| - (|queue| - n);
      assert s[k..] == queue[n..];
      assert s[k] == s[k..][0] && s[k + 1..] == s[k..][1..];
    }

    lemma Successor(current: Request, queue: seq<Request>, n: nat)
      requires block.Valid() && n < |queue| && queue[n] == current && EndsWith(block.nodes, queue[n..])
      ensures current.next == if n + 1 == |queue| then null else queue[n + 1]
    {
      var k := |block.nodes| - |queue[n..]|;
      assert block.nodes[k] == block.nodes[k..][0] == current;
      assert n + 1 < |queue| ==> block.nodes[k + 1] == block.nodes[k..][1] == queue[n + 1];
    }

    /**
      Everything one iteration of the loop does before it calls `select`: every
      blocked request is then watched, every one that had to be woken has been
      served, and every one of those that had died or timed out has been retired.
     */
    method BeforeSelect()
      requires Valid()
      modifies this, ready, block, free, Nodes()
      ensures Valid()
      ensures AllWatched() && forall r :: r in block.nodes ==> r.status != Dead && AskedAbout(r)
      ensures !sigterm && totalConnections < maxConnections - 10 ==> serverFd in blockRead && serverFd <= maxFd
      ensures old(NoStrays()) && (forall r :: r in old(block.nodes) ==> !old(DiesSet(r))) ==> NoStrays()
      ensures old(log) <= log
      ensures forall r :: r in old(block.nodes) && old(MustWake(r)) ==> r in log[|old(log)|..]
      ensures old(retired) <= retired
      ensures forall r :: r in old(block.nodes) && (old(TimedOut(r)) || old(r.status) == Dead) ==>
        r in retired[|old(retired)|..]
      ensures forall r :: r in Nodes() ==> r in old(Nodes()) || fresh(r)
    {
      Wake();
      label Woken:
      ProcessRequests();
      forall r | r in old@Woken(ready.nodes)
        ensures r in log[|old(log)|..]
      {
        PassServes(log[|old(log)|..], old@Woken(ready.nodes), r);
      }
      WatchServer();
    }

    /** Listens for new connections unless there are too many already. */
    method WatchServer()
      requires Valid()
      modifies this`blockRead, this`blockWrite, this`maxFd
      ensures Valid()
      ensures old(AllWatched()) ==> AllWatched()
      ensures !sigterm && totalConnections < maxConnections - 10 ==> serverFd in blockRead && serverFd <= maxFd
      ensures old(NoStrays()) ==> NoStrays()
    {
      if !sigterm && totalConnections < maxConnections - 10 {
        FdSet(ForRead(serverFd));
      }
    }

    /** Resets the descriptor bound and goes through the blocked list, if there is one. */
    method Wake()
      requires Valid()
      modifies this`blockRead, this`blockWrite, this`maxFd, ready, block, block.nodes`status, Live()`next, Live()`prev
      ensures Valid() && Nodes() == old(Nodes())
      ensures AllWatched()
      ensures forall r :: r in old(block.nodes) && old(MustWake(r)) ==> r in ready.nodes
      ensures old(NoStrays()) ==> (NoStrays() <==> forall r :: r in old(block.nodes) ==> !old(DiesSet(r)))
      ensures forall r :: r in old(block.nodes) && (old(TimedOut(r)) || old(r.status) == Dead) ==>
        r in ready.nodes && r.status == Dead
    {
      hide NoStrays, OwnDescriptors, DiesSet;
      maxFd := -1;
      if block.head != null {
        FdsetUpdate();
        WokenAreReady();
      }
    }

    /** What `FdsetUpdate` leaves for the pass: the dead and the timed out are dead and on the ready list. */
    twostate lemma WokenAreReady()
      requires Live() == old(Live()) && free.nodes == old(free.nodes)
      requires forall r :: r in old(block.nodes) ==> (r in ready.nodes <==> old(MustWake(r)))
      requires forall r :: r in old(block.nodes) ==> r.status == if old(TimedOut(r)) then Dead else old(r.status)
      ensures forall r :: r in old(block.nodes) && (old(TimedOut(r)) || old(r.status) == Dead) ==>
        r in ready.nodes && r.status == Dead
      ensures Nodes() == old(Nodes())
    {
      assert Nodes() == Live() + Elements(free.nodes);
    }

    /** `select`: interrupted, or each set shrinks to the descriptors that are ready, and time passes. */
    method Select()
      requires Valid()
      modifies this`blockRead, this`blockWrite, this`currentTime, this`pendingRequests
      ensures Valid() == true && Nodes() == old(Nodes())
      ensures blockRead <= old(blockRead) && blockWrite <= old(blockWrite) && currentTime >= old(currentTime)
      ensures pendingRequests ==> old(pendingRequests) || serverFd in blockRead
      ensures old(NoStrays()) ==> NoStrays()
    {
      hide ListsOk, OwnDescriptors, NoStrays, Awaited;
      var interrupted: bool := *;
      if interrupted {
        return;
      }
      var readable: set<int>, writable: set<int>, now: int := *, *, *;
      blockRead, blockWrite := blockRead * readable, blockWrite * writable;
      currentTime := if now < currentTime then currentTime else now;
      if serverFd in blockRead {
        pendingRequests := true;
      }
      assert ListsOk() == true && Live() == old(Live());
      assert OwnDescriptors(Live(), openFds) == true;
      BlockedAsBefore();
    }

    /** A termination signal stops the server listening; connections it has go on. */
    method CatchSignals()
      modifies this`sigterm, this`blockRead
      ensures old(sigterm) ==> sigterm && blockRead == old(blockRead)
      ensures old(NoStrays()) ==> NoStrays()
      ensures forall r :: r in block.nodes ==> DiesSet(r) == old(DiesSet(r))
    {
      var caught: bool := *;
      if caught && !sigterm {
        blockRead := blockRead - {serverFd};
        sigterm := true;
        BlockedAsBefore();
      }
    }

    /**
      One iteration of the loop: everything up to `select`, with all blocked
      requests watched and nothing else unless one died with its descriptor set,
      then `select`.
     */
    method Iterate()
      requires Valid()
      modifies this, ready, block, free, Nodes()
      ensures Valid() == true
      ensures old(NoStrays()) && (forall r :: r in old(block.nodes) ==> !old(DiesSet(r))) ==> NoStrays()
      ensures forall r :: r in Nodes() ==> r in old(Nodes()) || fresh(r)
    {
      CatchSignals();
      BeforeSelect();
      assert AllWatched();
      Select();
    }

    /** The endless loop, stopped after any number of iterations. */
    method SelectLoop(iterations: nat)
      requires Valid()
      modifies this, ready, block, free, Nodes()
      ensures Valid()
    {
      blockRead, blockWrite, maxFd := {}, {}, -1;
      for i := 0 to iterations
        invariant Valid() == true
        invariant forall r :: r in Nodes() ==> r in old(Nodes()) || fresh(r)
      {
        Iterate();
      }
    }
  }

  // ----- An input for which a stray descriptor is left -----

  /** A request that reads a script's output, on descriptors 6 and 7. */
  ghost predicate ReadsOutput(r: Request)
    reads r`status, r`bufferEnd, r`fd, r`dataFd, r`timeLast
  {
    r.status == PipeRead && r.bufferEnd == 0 && r.fd == 6 && r.dataFd == 7 && r.timeLast == 0
  }

  /** It becomes the only one of a server. */
  method StartReading(server: Server, r: Request)
    requires server.Valid() && server.ready.nodes == server.block.nodes == server.free.nodes == []
    requires server.openFds == {} && server.ready != server.block && ReadsOutput(r) && r.postDataFd == 0
    modifies server, server.ready, r
    ensures server.Valid() == true && (old(server.NoStrays()) ==> server.NoStrays())
    ensures server.ready.nodes == [r] && server.block.nodes == [] && ReadsOutput(r)
  {
    hide Server.NoStrays, OwnDescriptors, Server.ListsOk, Awaited;
    assert server.Live() == {} && server.Nodes() == {};
    server.openFds, server.totalConnections := {6, 7}, 1;
    server.Admit(server.ready, r, {});
  }

  /** A server with such a request. */
  method Reading() returns (server: Server, r: Request)
    ensures fresh(server) && fresh(r) && fresh(server.ready) && fresh(server.block)
    ensures server.Valid() == true && server.NoStrays() && server.AllWatched()
    ensures server.ready.nodes == [r] && server.block.nodes == [] && server.serverFd == 3 && ReadsOutput(r)
  {
    hide Server.NoStrays, OwnDescriptors, Server.ListsOk;
    r := new Request();
    r.fd, r.dataFd, r.status, r.timeLast := 6, 7, PipeRead, 0;
    server := new Server(3, 10, 15, 100);
    StartReading(server, r);
  }

  /** And waits for more, which has come. */
  method WaitForOutput() returns (server: Server, r: Request)
    ensures fresh(server) && fresh(r) && fresh(server.ready) && fresh(server.block)
    ensures server.Valid() == true && server.NoStrays() && server.AllWatched()
    ensures server.block.nodes == [r] && server.ready.nodes == [] && server.serverFd == 3 && ReadsOutput(r)
  {
    hide Server.NoStrays, Server.AllWatched, OwnDescriptors, Server.ListsOk;
    server, r := Reading();
    server.BlockRequest(r, 0);
  }

  /** It times out before the server looks at it, and leaves what it waited for set. */
  method OutputComesTooLate() returns (server: Server)
    ensures server.Valid() && !server.NoStrays()
  {
    hide OwnDescriptors, Server.NoStrays, Server.ListsOk;
    var r;
    server, r := WaitForOutput();
    server.currentTime := REQUEST_TIMEOUT + 1;
    assert server.Valid() && server.NoStrays() && r in server.block.nodes;
    assert server.DiesSet(r);
    server.FdsetUpdate();
  }
}
