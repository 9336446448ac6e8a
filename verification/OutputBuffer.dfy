/**
  The per-request output buffer: `req_write` appends to it, `req_flush` drains
  it to the client.  `Out` is its meaning: the status that guards it, the bytes
  still buffered and the bytes already sent.
 */
module OutputBuffer {
  import opened Common
  import opened RequestQueues


  datatype CgiStatus = CgiParse | CgiBuffer | CgiDone

  datatype Out = Out(status: Status, pending: seq<byte>, sent: seq<byte>)

  /** `req_write`: the message is buffered whole, or the request dies; a dead request buffers nothing. */
  ghost function Written(o: Out, msg: seq<byte>): Out {
    if msg == [] || o.status == Dead then o
    else if |o.pending| + |msg| > BUFFER_SIZE then o.(status := Dead)
    else o.(pending := o.pending + msg)
  }

  ghost function WrittenAll(o: Out, msgs: seq<seq<byte>>): Out
    decreases |msgs|
  {
    if msgs == [] then o else WrittenAll(Written(o, msgs[0]), msgs[1..])
  }

  ghost function Concat(msgs: seq<seq<byte>>): seq<byte> {
    if msgs == [] then [] else msgs[0] + Concat(msgs[1..])
  }

  datatype FlushResult = FlushError | FlushBlocked | Flushed(left: bool)

  /** `req_flush`: even an interrupted write kills the request here. */
  ghost function Flush(o: Out, io: WriteResult): (Out, FlushResult) {
    if o.status == Dead then (o, FlushError)
    else if o.pending == [] then (o, Flushed(false))
    else match io
      case WriteBlocked => (o, FlushBlocked)
      case Wrote(n) =>
        var k := Min(n, |o.pending|);
        (o.(pending := o.pending[k..], sent := o.sent + o.pending[..k]), Flushed(k < |o.pending|))
      case _ => (o.(status := Dead, pending := []), FlushError)
  }

  /** Flushing moves bytes from the front of the buffer to the client and loses none while the request lives. */
  lemma FlushConserves(o: Out, io: WriteResult)
    requires Flush(o, io).0.status != Dead
    ensures var (o', r) := Flush(o, io);
            && o'.sent + o'.pending == o.sent + o.pending
            && o.sent <= o'.sent
            && (r == Flushed(false) ==> o'.pending == [])
  {}

  /** What a message list leaves in a live buffer: everything, exactly when everything fits. */
  lemma {:induction false} WrittenAllFits(o: Out, msgs: seq<seq<byte>>)
    requires o.status != Dead && |o.pending| <= BUFFER_SIZE
    ensures var o' := WrittenAll(o, msgs);
            && o'.sent == o.sent
            && |o.pending| <= |o'.pending| <= BUFFER_SIZE
            && (|o.pending| + |Concat(msgs)| <= BUFFER_SIZE ==> o' == o.(pending := o.pending + Concat(msgs)))
            && (|o.pending| + |Concat(msgs)| > BUFFER_SIZE ==>
                  o'.status == Dead && |o'.pending| < |o.pending| + |Concat(msgs)|)
    decreases |msgs|
  {
    if msgs == [] {
      assert o.pending + Concat(msgs) == o.pending;
    } else {
      var o1 := Written(o, msgs[0]);
      if o1.status == Dead {
        DeadWritesNothing(o1, msgs[1..]);
      } else {
        WrittenAllFits(o1, msgs[1..]);
        assert o.pending + Concat(msgs) == o1.pending + Concat(msgs[1..]);
      }
    }
  }

  lemma {:induction false} DeadWritesNothing(o: Out, msgs: seq<seq<byte>>)
    requires o.status == Dead
    ensures WrittenAll(o, msgs) == o
    decreases |msgs|
  {
    if msgs != [] {
      DeadWritesNothing(o, msgs[1..]);
    }
  }

  /** What an empty buffer keeps of a list of messages: the first ones, up to the one that does not fit. */
  ghost function Kept(msgs: seq<seq<byte>>): seq<byte> {
    WrittenAll(Out(Write, [], []), msgs).pending
  }

  /** What is buffered depends neither on what was sent before nor on the status of a live request. */
  lemma {:induction false} KeptOf(o: Out, q: Out, msgs: seq<seq<byte>>)
    requires o.pending == q.pending && (o.status == Dead <==> q.status == Dead)
    ensures var o', q' := WrittenAll(o, msgs), WrittenAll(q, msgs);
            && o'.pending == q'.pending && o'.sent == o.sent
            && (o'.status == Dead <==> q'.status == Dead) && o'.status in {o.status, Dead}
    decreases |msgs|
  {
    if msgs != [] {
      KeptOf(Written(o, msgs[0]), Written(q, msgs[0]), msgs[1..]);
    }
  }

  /** Of messages that do not all fit the first `n` are kept; the next one is the first that does not fit. */
  lemma {:induction false} KeptLeading(o: Out, msgs: seq<seq<byte>>) returns (n: nat)
    requires o.status != Dead && |o.pending| <= BUFFER_SIZE && |o.pending| + |Concat(msgs)| > BUFFER_SIZE
    ensures n < |msgs| && WrittenAll(o, msgs).pending == o.pending + Concat(msgs[..n])
    ensures |o.pending + Concat(msgs[..n])| + |msgs[n]| > BUFFER_SIZE
    decreases |msgs|
  {
    var o1 := Written(o, msgs[0]);
    if o1.status == Dead {
      DeadWritesNothing(o1, msgs[1..]);
      n := 0;
      assert o.pending + Concat(msgs[..0]) == o.pending;
    } else {
      n := KeptLeading(o1, msgs[1..]);
      assert msgs[..n + 1][0] == msgs[0] && msgs[..n + 1][1..] == msgs[1..][..n];
      assert o.pending + Concat(msgs[..n + 1]) == o1.pending + Concat(msgs[1..][..n]);
      n := n + 1;
    }
  }

  /** A message too long for what the first one leaves is dropped, and all after it. */
  lemma KeptBeforeLong(first: seq<byte>, long: seq<byte>, rest: seq<seq<byte>>)
    requires |first| <= BUFFER_SIZE < |first| + |long|
    ensures Kept([first, long] + rest) == first && |Concat([first, long] + rest)| > BUFFER_SIZE
  {
    var o, msgs := Out(Write, [], []), [first, long] + rest;
    assert msgs[1..] == [long] + rest && ([long] + rest)[1..] == rest;
    var o1 := Written(o, first);
    assert o1.pending == first;
    assert WrittenAll(o, msgs) == WrittenAll(o1, [long] + rest) == WrittenAll(Written(o1, long), rest);
    DeadWritesNothing(Written(o1, long), rest);
    assert Concat([long] + rest) == long + Concat(rest) && Concat(msgs) == first + Concat([long] + rest);
  }

  /** They are a beginning of the messages, and all of them exactly if they fit. */
  lemma KeptBounds(msgs: seq<seq<byte>>)
    ensures |Kept(msgs)| <= BUFFER_SIZE && Kept(msgs) <= Concat(msgs)
    ensures |Concat(msgs)| <= BUFFER_SIZE <==> Kept(msgs) == Concat(msgs)
    ensures WrittenAll(Out(Write, [], []), msgs).status == Dead <==> |Concat(msgs)| > BUFFER_SIZE
  {
    var o := Out(Write, [], []);
    WrittenAllFits(o, msgs);
    assert o.pending + Concat(msgs) == Concat(msgs);
    if |Concat(msgs)| > BUFFER_SIZE {
      var n := KeptLeading(o, msgs);
      ConcatPrefix(msgs, n);
      assert o.pending + Concat(msgs[..n]) == Concat(msgs[..n]);
    }
  }

  lemma {:induction false} ConcatPrefix(msgs: seq<seq<byte>>, n: nat)
    requires n <= |msgs|
    ensures Concat(msgs[..n]) <= Concat(msgs)
    decreases n
  {
    if n > 0 {
      ConcatPrefix(msgs[1..], n - 1);
      assert msgs[..n][1..] == msgs[1..][..n - 1];
    }
  }

  /** The fields of a request that move bytes to its client. */
  class Reply {
    const buffer: array<byte>
    var bufferStart: nat
    var bufferEnd: nat
    var status: Status
    var filesize: nat
    var filepos: nat
    var dataMem: seq<byte>
    var headerLine: nat
    var headerEnd: nat
    var cgiStatus: CgiStatus
    var source: seq<byte>  // what is still to come from `data_fd`
    ghost var sent: seq<byte>

    ghost predicate Valid()
      reads this, buffer
    {
      && buffer.Length == BUFFER_SIZE + 1
      && bufferStart <= bufferEnd <= BUFFER_SIZE
      && (bufferStart == bufferEnd ==> bufferEnd == 0)
      && headerLine <= headerEnd <= BUFFER_SIZE
    }

    ghost function Output(): Out
      requires Valid()
      reads this, buffer
    {
      Out(status, buffer[bufferStart..bufferEnd], sent)
    }

    /** The bytes between the relay pointers. */
    ghost function Relay(): seq<byte>
      requires Valid()
      reads this, buffer
    {
      buffer[headerLine..headerEnd]
    }

    constructor ()
      ensures Valid() && fresh(buffer)
      ensures Output() == Out(Write, [], []) && filepos == 0
    {
      buffer := new byte[BUFFER_SIZE + 1](_ => 0);
      bufferStart, bufferEnd, status := 0, 0, Write;
      filesize, filepos, dataMem := 0, 0, [];
      headerLine, headerEnd, cgiStatus, source := 0, 0, CgiBuffer, [];
      sent := [];
    }

    /** Copies bytes into the buffer at an offset. */
    method Blit(at: nat, bytes: seq<byte>)
      requires at + |bytes| <= buffer.Length
      modifies buffer
      ensures buffer[..] == old(buffer[..at]) + bytes + old(buffer[at + |bytes|..])
    {
      forall i | 0 <= i < |bytes| {
        buffer[at + i] := bytes[i];
      }
    }

    method ReqWrite(msg: seq<byte>)
      requires Valid() && bufferStart == 0
      modifies this`bufferEnd, this`status, buffer
      ensures Valid()
      ensures Output() == Written(old(Output()), msg)
      ensures forall i :: bufferEnd <= i < buffer.Length ==> buffer[i] == old(buffer[i])
    {
      if |msg| == 0 || status == Dead {
        return;
      }
      if bufferEnd + |msg| > BUFFER_SIZE {
        status := Dead;
        return;
      }
      Blit(bufferEnd, msg);
      assert buffer[..bufferEnd + |msg|] == old(buffer[..bufferEnd]) + msg;
      bufferEnd := bufferEnd + |msg|;
    }

    method ReqWriteAll(msgs: seq<seq<byte>>)
      requires Valid() && bufferStart == 0
      modifies this`bufferEnd, this`status, buffer
      ensures Valid()
      ensures Output() == WrittenAll(old(Output()), msgs)
      ensures forall i :: bufferEnd <= i < buffer.Length ==> buffer[i] == old(buffer[i])
      ensures old(bufferEnd) <= bufferEnd
    {
      for i := 0 to |msgs|
        invariant Valid() && old(bufferEnd) <= bufferEnd
        invariant WrittenAll(old(Output()), msgs) == WrittenAll(Output(), msgs[i..])
        invariant forall j :: bufferEnd <= j < buffer.Length ==> buffer[j] == old(buffer[j])
      {
        assert msgs[i..][0] == msgs[i] && msgs[i..][1..] == msgs[i + 1..];
        ghost var before := Output();
        ReqWrite(msgs[i]);
        assert WrittenAll(before, msgs[i..]) == WrittenAll(Output(), msgs[i + 1..]);
        assert bufferEnd == |Output().pending|;
      }
    }

    method ReqFlush(io: WriteResult) returns (r: FlushResult)
      requires Valid()
      modifies this`bufferStart, this`bufferEnd, this`status, this`sent
      ensures Valid()
      ensures (Output(), r) == Flush(old(Output()), io)
      ensures bufferEnd == 0 || bufferEnd == old(bufferEnd)
    {
      var bytesToWrite := bufferEnd - bufferStart;
      if status == Dead {
        return FlushError;
      }
      if bytesToWrite != 0 {
        match io {
          case WriteBlocked =>
            return FlushBlocked;
          case Wrote(n) =>
            var k := Min(n, bytesToWrite);
            sent := sent + buffer[bufferStart..bufferEnd][..k];
            assert buffer[bufferStart + k..bufferEnd] == buffer[bufferStart..bufferEnd][k..];
            bufferStart := bufferStart + k;
          case _ =>
            bufferStart, bufferEnd, status := 0, 0, Dead;
            return FlushError;
        }
      }
      if bufferStart == bufferEnd {
        bufferStart, bufferEnd := 0, 0;
      }
      return Flushed(bufferEnd != 0);
    }
  }
}
