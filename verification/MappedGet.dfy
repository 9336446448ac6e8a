/**
  A GET answered from a mapped file: the headers and as much of the file as
  fits go into the output buffer, the rest is written straight from the map.

  `Get` is the meaning of the request's fields; `Init` and `Turn` are one call
  of `init_get` and one turn in the event loop; a run is any sequence of turns
  and timeouts.  The theorems are about every run.
 */
module MappedGet {
  import opened Common
  import opened RequestQueues
  import opened OutputBuffer

  const SOCKETBUF_SIZE: nat := 8192

  datatype Get = Get(out: Out, filepos: nat, released: bool)

  /** `init_get` from the point where the file is mapped: `headers` are the messages of the 200 response. */
  ghost function Init(headers: seq<seq<byte>>, file: seq<byte>, io: WriteResult): (g: Get)
    ensures file != [] ==> Inv(g, file)
  {
    WrittenAllFits(Out(Write, [], []), headers);
    var o := WrittenAll(Out(Write, [], []), headers);
    if |o.pending| >= BUFFER_SIZE then Get(o, 0, false)
    else
      var k := Min(BUFFER_SIZE - |o.pending|, |file|);
      var o1 := o.(pending := o.pending + file[..k]);
      if k == |file| then Get(Flush(o1, io).0.(status := Done), k, false) else Get(o1, k, false)
  }

  /** `process_get`. */
  ghost function ProcessGet(g: Get, file: seq<byte>, io: WriteResult): (Get, int)
    requires g.filepos <= |file|
  {
    match io
    case WriteBlocked => (g, -1)
    case Wrote(n) =>
      var k := Min(n, Min(|file| - g.filepos, SOCKETBUF_SIZE));
      var g' := g.(out := g.out.(sent := g.out.sent + file[g.filepos..g.filepos + k]), filepos := g.filepos + k);
      (g', if g'.filepos == |file| then 0 else 1)
    case _ => (g.(out := g.out.(status := Dead)), 0)
  }

  /** What the event loop makes of a finished request: output left behind keeps it alive as done. */
  ghost function Finish(g: Get): Get {
    if g.out.pending != [] && g.out.status != Dead then g.(out := g.out.(status := Done)) else g.(released := true)
  }

  /** One turn of the request in the event loop. */
  ghost function Turn(g: Get, file: seq<byte>, io: WriteResult): Get
    requires g.filepos <= |file|
  {
    if g.released then g
    else if g.out.pending != [] && g.out.status != Dead && g.out.status != Done then
      var (o, r) := Flush(g.out, io);
      if r == FlushError then Finish(g.(out := o)) else g.(out := o)
    else if g.out.status == Done then
      var (o, r) := Flush(g.out, io);
      if r == FlushError || r == Flushed(false) then Finish(g.(out := o)) else g.(out := o)
    else if g.out.status == Dead then
      Finish(g.(out := g.out.(pending := [])))
    else
      var (g', retval) := ProcessGet(g, file, io);
      if retval == 0 then Finish(g') else g'
  }

  /** What can happen to the request: a turn, or the loop declaring it timed out. */
  datatype Event = TurnWith(io: WriteResult) | TimeOut

  ghost function Next(g: Get, file: seq<byte>, e: Event): Get
    requires g.filepos <= |file|
  {
    match e
    case TurnWith(io) => Turn(g, file, io)
    case TimeOut => if g.released then g else g.(out := g.out.(status := Dead))
  }

  ghost function Run(g: Get, file: seq<byte>, events: seq<Event>): Get
    requires Inv(g, file)
    decreases |events|
  {
    if events == [] then g
    else
      NextKeepsInv(g, file, events[0]);
      Run(Next(g, file, events[0]), file, events[1..])
  }

  /** Statuses a mapped GET goes through; done means the whole file has been handed over. */
  ghost predicate Inv(g: Get, file: seq<byte>) {
    && g.filepos <= |file|
    && g.out.status in {Write, Done, Dead}
    && (g.out.status == Done ==> g.filepos == |file|)
    && (g.out.status == Write && !g.released ==> g.filepos < |file|)
    && (g.released && g.out.status != Dead ==> g.filepos == |file| && g.out.pending == [])
  }

  lemma NextKeepsInv(g: Get, file: seq<byte>, e: Event)
    requires Inv(g, file)
    ensures Inv(Next(g, file, e), file)
  {}

  /** Everything the client has, is about to get from the buffer, and has yet to get from the file. */
  ghost function Stream(g: Get, file: seq<byte>): seq<byte>
    requires g.filepos <= |file|
  {
    g.out.sent + g.out.pending + file[g.filepos..]
  }

  /** No turn of a live request changes the stream: nothing is lost, repeated or reordered. */
  lemma NextKeepsStream(g: Get, file: seq<byte>, e: Event)
    requires Inv(g, file) && Next(g, file, e).out.status != Dead
    ensures Next(g, file, e).filepos <= |file|
    ensures Stream(Next(g, file, e), file) == Stream(g, file)
    ensures g.out.sent <= Next(g, file, e).out.sent
  {
    var g' := Next(g, file, e);
    if e.TurnWith? && !g.released {
      if g.out.status == Write && g.out.pending == [] {
        var k := g'.filepos - g.filepos;
        assert file[g.filepos..] == file[g.filepos..g.filepos + k] + file[g'.filepos..];
      } else if g.out.status != Dead {
        FlushConserves(g.out, e.io);
      }
    }
  }

  lemma DeadStaysDead(g: Get, file: seq<byte>, events: seq<Event>)
    requires Inv(g, file) && g.out.status == Dead
    ensures Run(g, file, events).out.status == Dead
    decreases |events|
  {
    if events != [] {
      NextKeepsInv(g, file, events[0]);
      DeadStaysDead(Next(g, file, events[0]), file, events[1..]);
    }
  }

  lemma {:induction false} RunKeepsStream(g: Get, file: seq<byte>, events: seq<Event>)
    requires Inv(g, file) && Run(g, file, events).out.status != Dead
    ensures var g' := Run(g, file, events);
            Inv(g', file) && Stream(g', file) == Stream(g, file) && g.out.sent <= g'.out.sent
    decreases |events|
  {
    if events != [] {
      var g1 := Next(g, file, events[0]);
      NextKeepsInv(g, file, events[0]);
      if g1.out.status == Dead {
        DeadStaysDead(g1, file, events[1..]);
      }
      NextKeepsStream(g, file, events[0]);
      RunKeepsStream(g1, file, events[1..]);
    }
  }

  /**
    When the answer is delivered: the headers fit the buffer and, if the whole
    answer does, the write tried while setting up did not fail outright.
   */
  ghost predicate Deliverable(headers: seq<seq<byte>>, file: seq<byte>, io: WriteResult) {
    && |Concat(headers)| <= BUFFER_SIZE
    && (|Concat(headers)| + |file| <= BUFFER_SIZE && |Concat(headers)| < BUFFER_SIZE ==>
      !io.WriteFailed? && !io.WriteInterrupted?)
  }

  /** What a freshly set up request will have sent if it lives. */
  lemma InitStream(headers: seq<seq<byte>>, file: seq<byte>, io: WriteResult)
    requires file != []
    ensures var g := Init(headers, file, io);
            && g.filepos <= |file|
            && (Deliverable(headers, file, io) ==>
                  g.out.status != Dead && g.out.sent <= Concat(headers) + file &&
                    Stream(g, file) == Concat(headers) + file)
            && (!Deliverable(headers, file, io) ==>
              g.out.status == Dead || |Stream(g, file)| < |Concat(headers) + file|)
  {
    var o0 := Out(Write, [], []);
    var o, h := WrittenAll(o0, headers), Concat(headers);
    WrittenAllFits(o0, headers);
    assert o0.pending + h == h;
    if |h| <= BUFFER_SIZE {
      assert o == Out(Write, h, []);
      if |h| < BUFFER_SIZE {
        InitFills(h, file, io);
      } else {
        assert file[0..] == file;
      }
    }
  }

  /** The first part of the file behind the headers, and the flush if that was all of it. */
  lemma InitFills(h: seq<byte>, file: seq<byte>, io: WriteResult)
    requires |h| < BUFFER_SIZE
    ensures var k := Min(BUFFER_SIZE - |h|, |file|);
            var o := Out(Write, h + file[..k], []);
            var o' := Flush(o, io).0;
            && o.sent + o.pending + file[k..] == h + file
            && (k == |file| && o'.status != Dead ==>
              o'.sent <= h + file && o'.sent + o'.pending + file[k..] == h + file)
            && (k == |file| && o'.status == Dead ==> o'.sent == o'.pending == [])
  {
    var k := Min(BUFFER_SIZE - |h|, |file|);
    var o := Out(Write, h + file[..k], []);
    assert h + file == h + file[..k] + file[k..];
    if Flush(o, io).0.status != Dead {
      FlushConserves(o, io);
    }
  }

  /**
    For every schedule of short writes and blocks, a request released without
    being dead has sent the headers and then the whole file exactly when the
    answer was deliverable.
   */
  lemma Delivered(headers: seq<seq<byte>>, file: seq<byte>, io: WriteResult, events: seq<Event>)
    requires file != []
    requires var g := Run(Init(headers, file, io), file, events); g.released && g.out.status != Dead
    ensures Run(Init(headers, file, io), file, events).out.sent == Concat(headers) + file
            <==> Deliverable(headers, file, io)
  {
    var g0 := Init(headers, file, io);
    var g := Run(g0, file, events);
    InitStream(headers, file, io);
    if g0.out.status == Dead {
      DeadStaysDead(g0, file, events);
    }
    RunKeepsStream(g0, file, events);
    assert g.out.sent == Stream(g, file);
  }

  /** A request that dies has sent no more than before. */
  lemma SentOnDying(g: Get, file: seq<byte>, e: Event, whole: seq<byte>)
    requires Inv(g, file) && g.out.sent <= whole && (g.out.status != Dead ==> Stream(g, file) == whole)
    ensures var g' := Next(g, file, e);
            g'.filepos <= |file| && g'.out.sent <= whole && (g'.out.status != Dead ==> Stream(g', file) == whole)
  {
    NextKeepsInv(g, file, e);
    if Next(g, file, e).out.status != Dead {
      NextKeepsStream(g, file, e);
    }
  }

  lemma {:induction false} RunSendsPrefix(g: Get, file: seq<byte>, events: seq<Event>, whole: seq<byte>)
    requires Inv(g, file) && g.out.sent <= whole && (g.out.status != Dead ==> Stream(g, file) == whole)
    ensures Run(g, file, events).out.sent <= whole
    decreases |events|
  {
    if events != [] {
      NextKeepsInv(g, file, events[0]);
      SentOnDying(g, file, events[0], whole);
      RunSendsPrefix(Next(g, file, events[0]), file, events[1..], whole);
    }
  }

  /** An error in the first write leaves nothing to send. */
  lemma InitUndeliverable(headers: seq<seq<byte>>, file: seq<byte>, io: WriteResult)
    requires file != [] && |Concat(headers)| <= BUFFER_SIZE && !Deliverable(headers, file, io)
    ensures var g := Init(headers, file, io);
            g.filepos <= |file| && g.out.sent == [] && (g.out.status != Dead ==> Stream(g, file) == [])
  {
    var o0, h := Out(Write, [], []), Concat(headers);
    WrittenAllFits(o0, headers);
    assert o0.pending + h == h;
    InitFills(h, file, io);
  }

  /**
    With headers that do not fit, either nothing will be sent, or the headers
    kept and the file, which was buffered whole.
   */
  lemma InitDropsHeaders(headers: seq<seq<byte>>, file: seq<byte>, io: WriteResult)
    requires file != [] && |Concat(headers)| > BUFFER_SIZE
    ensures var g := Init(headers, file, io);
            && g.filepos <= |file| && g.out.sent == []
            && (g.out.status != Dead ==> Stream(g, file) == Kept(headers) + file)
            && (|Kept(headers)| + |file| <= BUFFER_SIZE ==>
              g.out == Out(Done, Kept(headers) + file, []) && g.filepos == |file|)
  {
    KeptBounds(headers);
    KeptOf(Out(Write, [], []), Out(Write, [], []), headers);
    assert file[..|file|] == file;
  }

  /**
    What has been sent is a beginning of the headers that the buffer kept and
    the file, at every moment, whether the request lives or has died; so it is
    a beginning of the answer if the headers fit.
   */
  lemma SentIsPrefix(headers: seq<seq<byte>>, file: seq<byte>, io: WriteResult, events: seq<Event>)
    requires file != []
    ensures var sent := Run(Init(headers, file, io), file, events).out.sent;
            sent <= Kept(headers) + file && (|Concat(headers)| <= BUFFER_SIZE ==> sent <= Concat(headers) + file)
  {
    var g := Init(headers, file, io);
    KeptBounds(headers);
    if |Concat(headers)| > BUFFER_SIZE {
      InitDropsHeaders(headers, file, io);
      RunSendsPrefix(g, file, events, Kept(headers) + file);
    } else if Deliverable(headers, file, io) {
      InitStream(headers, file, io);
      RunSendsPrefix(g, file, events, Kept(headers) + file);
    } else {
      InitUndeliverable(headers, file, io);
      RunSendsPrefix(g, file, events, []);
    }
  }

  /**
    That the headers do not all fit is forgotten too.  A file that fits behind
    those that the buffer kept follows them: whatever the schedule, a request
    released without being dead has sent just that, and one that is served is
    released so.
   */
  lemma HeadersDropped(headers: seq<seq<byte>>, file: seq<byte>, io: WriteResult, events: seq<Event>)
    requires file != [] && |Concat(headers)| > BUFFER_SIZE && |Kept(headers)| + |file| <= BUFFER_SIZE
    ensures var g := Run(Init(headers, file, io), file, events);
            && (g.released && g.out.status != Dead ==> g.out.sent == Kept(headers) + file)
            && (AllTakeBytes(events) && |events| > |Kept(headers)| + |file| ==> g.released && g.out.status == Done)
  {
    var g0 := Init(headers, file, io);
    InitDropsHeaders(headers, file, io);
    var g := Run(g0, file, events);
    if g.out.status != Dead {
      RunKeepsStream(g0, file, events);
    }
    if AllTakeBytes(events) && |events| > |Kept(headers)| + |file| {
      EventuallyReleased(g0, file, events);
      DoneStaysDone(g0, file, events);
    }
  }

  /**
    Short messages around one that is too long, as a long enough default media
    type is: only those before it are sent.
   */
  lemma HeadersAfterLongDropped(first: seq<byte>, long: seq<byte>, rest: seq<seq<byte>>, file: seq<byte>,
                                io: WriteResult, events: seq<Event>)
    requires |first| + |file| <= BUFFER_SIZE < |first| + |long| && file != []
    requires AllTakeBytes(events) && |events| > |first| + |file|
    ensures var g := Run(Init([first, long] + rest, file, io), file, events);
            g.released && g.out.status == Done && g.out.sent == first + file
  {
    KeptBeforeLong(first, long, rest);
    HeadersDropped([first, long] + rest, file, io, events);
  }

  /** A hard error in that first write is forgotten: the request is released as done with nothing sent. */
  lemma ForgottenError(header: byte, b: byte)
    ensures var headers, file := [[header]], [b];
            var g := Init(headers, file, WriteFailed);
            var g' := Run(g, file, [TurnWith(Wrote(1))]);
            g'.released && g'.out.status == Done && g'.out.sent == []
  {
    var headers, file := [[header]], [b];
    assert headers[1..] == [];
    assert WrittenAll(Out(Write, [], []), headers) == Written(Out(Write, [], []), [header]);
    var g := Init(headers, file, WriteFailed);
    assert Run(g, file, [TurnWith(Wrote(1))]) == Run(Next(g, file, TurnWith(Wrote(1))), file, []) by {
      assert [TurnWith(Wrote(1))][1..] == [];
    }
  }

  // ----- Progress -----

  /** Turns still needed if every write takes at least one byte. */
  ghost function Work(g: Get, file: seq<byte>): nat
    requires g.filepos <= |file|
  {
    if g.released then 0 else |g.out.pending| + (|file| - g.filepos) + 1
  }

  /** A turn whose write makes progress leaves strictly less to do, so a request that is served is released. */
  lemma TurnMakesProgress(g: Get, file: seq<byte>, n: nat)
    requires Inv(g, file) && !g.released && n > 0
    ensures Next(g, file, TurnWith(Wrote(n))).filepos <= |file|
    ensures Work(Next(g, file, TurnWith(Wrote(n))), file) < Work(g, file)
  {}

  /** The request has its turns, and every write takes at least a byte. */
  ghost predicate AllTakeBytes(events: seq<Event>) {
    forall e :: e in events ==> e.TurnWith? && e.io.Wrote? && e.io.n > 0
  }

  lemma {:induction false} EventuallyReleased(g: Get, file: seq<byte>, events: seq<Event>)
    requires Inv(g, file) && |events| >= Work(g, file) && AllTakeBytes(events)
    ensures Run(g, file, events).released
    decreases |events|
  {
    if events != [] {
      var e := events[0];
      assert e in events && e == TurnWith(Wrote(e.io.n));
      NextKeepsInv(g, file, e);
      if !g.released {
        TurnMakesProgress(g, file, e.io.n);
      }
      EventuallyReleased(Next(g, file, e), file, events[1..]);
    }
  }

  lemma {:induction false} DoneStaysDone(g: Get, file: seq<byte>, events: seq<Event>)
    requires Inv(g, file) && g.out.status == Done && AllTakeBytes(events)
    ensures Run(g, file, events).out.status == Done
    decreases |events|
  {
    if events != [] {
      assert events[0] in events;
      NextKeepsInv(g, file, events[0]);
      DoneStaysDone(Next(g, file, events[0]), file, events[1..]);
    }
  }

  // ----- The request itself -----

  ghost function Meaning(req: Reply, released: bool): Get
    requires req.Valid()
    reads req, req.buffer
  {
    Get(req.Output(), req.filepos, released)
  }

  /** Copies the first bytes of the mapped file behind what is buffered. */
  method AppendFile(req: Reply, bytes: nat)
    requires req.Valid() && req.bufferStart == 0 && req.filepos == 0
    requires req.bufferEnd + bytes <= BUFFER_SIZE && bytes <= |req.dataMem|
    modifies req`bufferEnd, req`filepos, req.buffer
    ensures req.Valid() && req.filepos == bytes
    ensures req.Output() == old(req.Output()).(pending := old(req.Output()).pending + req.dataMem[..bytes])
  {
    ghost var o := req.Output();
    req.Blit(req.bufferEnd, req.dataMem[..bytes]);
    assert req.buffer[..req.bufferEnd + bytes] == o.pending + req.dataMem[..bytes];
    req.bufferEnd := req.bufferEnd + bytes;
    req.filepos := req.filepos + bytes;
  }

  /** `init_get` once the file is mapped. */
  method InitGet(req: Reply, headers: seq<seq<byte>>, file: seq<byte>, io: WriteResult)
    requires req.Valid() && req.Output() == Out(Write, [], []) && req.filepos == 0
    modifies req, req.buffer
    ensures req.Valid()
    ensures Meaning(req, false) == Init(headers, file, io)
    ensures req.dataMem == file && req.filesize == |file|
  {
    hide WrittenAll, Flush;
    assert req.bufferStart == 0;
    req.filesize, req.dataMem := |file|, file;
    req.ReqWriteAll(headers);
    assert req.bufferEnd == |req.Output().pending|;
    var bytes := BUFFER_SIZE - req.bufferEnd;
    if bytes > 0 {
      if bytes > req.filesize {
        bytes := req.filesize;
      }
      AppendFile(req, bytes);
      if req.filesize == req.filepos {
        var r := req.ReqFlush(io);
        req.status := Done;
      }
    }
  }

  /** `process_get`. */
  method ProcessGetStep(req: Reply, io: WriteResult) returns (retval: int)
    requires req.Valid() && req.filesize == |req.dataMem| && req.filepos <= req.filesize
    modifies req
    ensures req.Valid() && req.dataMem == old(req.dataMem) && req.filesize == old(req.filesize)
    ensures (Meaning(req, false), retval) == ProcessGet(old(Meaning(req, false)), req.dataMem, io)
  {
    var bytesToWrite := Min(req.filesize - req.filepos, SOCKETBUF_SIZE);
    match io {
      case WriteBlocked =>
        return -1;
      case Wrote(n) =>
        var bytesWritten := Min(n, bytesToWrite);
        req.sent := req.sent + req.dataMem[req.filepos..req.filepos + bytesWritten];
        req.filepos := req.filepos + bytesWritten;
        return if req.filepos == req.filesize then 0 else 1;
      case _ =>
        req.status := Dead;
        return 0;
    }
  }

  /** One turn of the request in the event loop, up to the point where it is released. */
  method TurnStep(req: Reply, io: WriteResult) returns (released: bool)
    requires req.Valid() && req.filesize == |req.dataMem| && Inv(Meaning(req, false), req.dataMem)
    modifies req
    ensures req.Valid() && req.dataMem == old(req.dataMem) && req.filesize == old(req.filesize)
    ensures Meaning(req, released) == Turn(old(Meaning(req, false)), req.dataMem, io)
  {
    var retval;
    if req.bufferEnd != 0 && req.status != Dead && req.status != Done {
      var r := req.ReqFlush(io);
      retval := if r == FlushError then 0 else if r == FlushBlocked then -1 else 1;
    } else if req.status == Done {
      var r := req.ReqFlush(io);
      retval := if r == FlushError || r == Flushed(false) then 0 else if r == FlushBlocked then -1 else 1;
    } else if req.status == Dead {
      retval := 0;
      req.bufferStart, req.bufferEnd := 0, 0;
    } else {
      retval := ProcessGetStep(req, io);
    }
    released := false;
    if retval == 0 {
      if req.bufferEnd != 0 && req.status != Dead {
        req.status := Done;
      } else {
        released := true;
      }
    }
  }

  /** The request's turns, and a timeout at any moment, until it is released. */
  method RunSteps(req: Reply, events: seq<Event>) returns (released: bool)
    requires req.Valid() && req.filesize == |req.dataMem| && Inv(Meaning(req, false), req.dataMem)
    modifies req
    ensures req.Valid() && req.dataMem == old(req.dataMem) && req.filesize == old(req.filesize)
    ensures Meaning(req, released) == Run(old(Meaning(req, false)), req.dataMem, events)
  {
    hide Turn, Inv;
    released := false;
    ghost var start, file := Meaning(req, false), req.dataMem;
    assert events[0..] == events;
    for i := 0 to |events|
      invariant req.Valid() && req.dataMem == file && req.filesize == |file|
      invariant Inv(Meaning(req, released), file) == true && Inv(start, file) == true
      invariant Run(start, file, events) == Run(Meaning(req, released), file, events[i..])
    {
      assert events[i..][0] == events[i] && events[i..][1..] == events[i + 1..];
      NextKeepsInv(Meaning(req, released), file, events[i]);
      released := EventStep(req, events[i], released);
    }
  }

  /** One event; a request that has been released is left alone. */
  method EventStep(req: Reply, e: Event, wasReleased: bool) returns (released: bool)
    requires req.Valid() && req.filesize == |req.dataMem| && Inv(Meaning(req, wasReleased), req.dataMem)
    modifies req
    ensures req.Valid() && req.dataMem == old(req.dataMem) && req.filesize == old(req.filesize)
    ensures Meaning(req, released) == Next(old(Meaning(req, wasReleased)), req.dataMem, e)
  {
    released := wasReleased;
    if !released {
      match e {
        case TurnWith(io) => released := TurnStep(req, io);
        case TimeOut => req.status := Dead;
      }
    }
  }

  /** A mapped file is answered: set up, then served. */
  method ServeFile(req: Reply, headers: seq<seq<byte>>, file: seq<byte>, io: WriteResult, events: seq<Event>)
    returns (released: bool)
    requires req.Valid() && req.Output() == Out(Write, [], []) && req.filepos == 0 && file != []
    modifies req, req.buffer
    ensures req.Valid()
    ensures Meaning(req, released) == Run(Init(headers, file, io), file, events)
    ensures req.sent <= Kept(headers) + file
    ensures released && req.status != Dead ==>
      (req.sent == Concat(headers) + file <==> Deliverable(headers, file, io))
  {
    InitGet(req, headers, file, io);
    released := RunSteps(req, events);
    SentIsPrefix(headers, file, io, events);
    if released && req.status != Dead {
      Delivered(headers, file, io, events);
    }
  }
}
