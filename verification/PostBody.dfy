/**
  Storing the body of a POST: the bytes that arrived behind the header, and
  then the bytes read from the socket through the request's buffer, go to a
  temporary file; the script starts when the file holds the whole body.
 */
module PostBody {
  import opened Common
  import opened RequestQueues

  datatype Outcome = Storing | ScriptStarted | Refused | Broken

  /**
    `held` lies between the line pointers, `file` is the temporary file and
    `incoming` is what the socket still holds.
   */
  datatype Post = Post(status: Status, held: seq<byte>, filesize: nat, filepos: nat, file: seq<byte>,
                       incoming: seq<byte>, outcome: Outcome)

  /**
    The end of `read_header` for a POST.  `contentLength` is the header field
    as a number, if there is one; a zero `limit` means no limit.
   */
  ghost function Start(leftover: seq<byte>, contentLength: Option<int>, limit: nat, incoming: seq<byte>): Post {
    match contentLength
    case None => Post(BodyWrite, leftover, 0, 0, [], incoming, Refused)
    case Some(n) =>
      if n <= 0 || (limit != 0 && n > limit) then Post(BodyWrite, leftover, 0, 0, [], incoming, Refused)
      else Post(BodyWrite, if |leftover| > n then leftover[..n] else leftover, n, 0, [], incoming, Storing)
  }

  /** `write_body`. */
  ghost function WriteBody(p: Post, io: WriteResult): Post
    requires p.filepos <= p.filesize
  {
    var n := Min(|p.held|, p.filesize - p.filepos);
    if n == 0 then
      if p.filepos >= p.filesize then p.(held := [], outcome := ScriptStarted)
      else p.(held := [], status := BodyRead)
    else match io
      case WriteBlocked => p
      case WriteInterrupted => p
      case WriteFailed => p.(outcome := Broken)
      case Wrote(m) =>
        var k := Min(m, n);
        p.(file := p.file + p.held[..k], held := p.held[k..], filepos := p.filepos + k)
  }

  /** `read_body`: here an interrupted read ends the request. */
  ghost function ReadBody(p: Post, io: ReadResult): Post
    requires p.filepos <= p.filesize && |p.held| <= BUFFER_SIZE
  {
    var n := Min(p.filesize - p.filepos, BUFFER_SIZE - |p.held|);
    if n == 0 then p.(status := BodyWrite)
    else match io
      case ReadBlocked => p
      case ReadInterrupted => p.(outcome := Broken)
      case ReadFailed => p.(outcome := Broken)
      case Got(m) =>
        var k := Min(m + 1, Min(n, |p.incoming|));
        if k == 0 then p.(outcome := Refused)
        else p.(status := BodyWrite, held := p.held + p.incoming[..k], incoming := p.incoming[k..])
  }

  datatype Io = Io(read: ReadResult, write: WriteResult)

  ghost function Turn(p: Post, io: Io): (q: Post)
    requires p.filepos <= p.filesize && |p.held| <= BUFFER_SIZE
    ensures q.filepos <= q.filesize && |q.held| <= BUFFER_SIZE
  {
    if p.outcome != Storing then p
    else if p.status == BodyWrite then WriteBody(p, io.write)
    else if p.status == BodyRead then ReadBody(p, io.read)
    else p
  }

  // ----- What the file holds -----

  /**
    `body` is the client's stream from the end of the header on, `early` how
    much of it had arrived with the header.  The file is the part of the body
    stored so far, the held bytes follow it, and the socket follows those.
   */
  ghost predicate Inv(p: Post, body: seq<byte>, early: nat) {
    var at := p.filepos + |p.held|;
    && p.filepos == |p.file| && p.file <= body
    && at <= p.filesize && at <= |body| && |p.held| <= BUFFER_SIZE
    && body[p.filepos..at] == p.held
    && (early <= p.filesize ==> early <= at && p.incoming == body[at..])
    && (early > p.filesize ==> at == p.filesize)
    && p.status in {BodyRead, BodyWrite}
    && (p.status == BodyRead ==> p.held == [] && p.filepos < p.filesize)
    && (p.outcome == ScriptStarted ==> p.filepos == p.filesize)
  }

  lemma StartInv(leftover: seq<byte>, n: nat, limit: nat, incoming: seq<byte>)
    requires Start(leftover, Some(n), limit, incoming).outcome == Storing && |leftover| <= CLIENT_STREAM_SIZE
    ensures Inv(Start(leftover, Some(n), limit, incoming), leftover + incoming, |leftover|)
  {}

  lemma TurnKeepsInv(p: Post, io: Io, body: seq<byte>, early: nat)
    requires Inv(p, body, early)
    ensures Inv(Turn(p, io), body, early)
    ensures Turn(p, io).filesize == p.filesize
  {
    if p.outcome == Storing {
      if p.status == BodyWrite {
        WriteKeepsInv(p, io.write, body, early);
      } else {
        ReadKeepsInv(p, io.read, body, early);
      }
    }
  }

  lemma WriteKeepsInv(p: Post, io: WriteResult, body: seq<byte>, early: nat)
    requires Inv(p, body, early) && p.outcome == Storing && p.status == BodyWrite
    ensures Inv(WriteBody(p, io), body, early) && WriteBody(p, io).filesize == p.filesize
  {
    if io.Wrote? && p.held != [] {
      MovesOn(body, p.file, p.held, Min(io.n, Min(|p.held|, p.filesize - p.filepos)));
    }
  }

  /** The first held bytes move to the end of the file. */
  lemma MovesOn(body: seq<byte>, file: seq<byte>, held: seq<byte>, k: nat)
    requires file + held <= body && k <= |held|
    ensures file + held[..k] == body[..|file| + k]
    ensures held[k..] == body[|file| + k..|file| + |held|]
  {
    assert held == body[|file|..|file| + |held|];
  }

  lemma ReadKeepsInv(p: Post, io: ReadResult, body: seq<byte>, early: nat)
    requires Inv(p, body, early) && p.outcome == Storing && p.status == BodyRead
    ensures Inv(ReadBody(p, io), body, early) && ReadBody(p, io).filesize == p.filesize
  {
    if io.Got? && p.incoming != [] {
      var k := Min(io.n + 1, Min(Min(p.filesize - p.filepos, BUFFER_SIZE), |p.incoming|));
      BytesKeepInv(p, k, body, early);
      assert p.held + p.incoming[..k] == p.incoming[..k];
    }
  }

  lemma BytesKeepInv(p: Post, k: nat, body: seq<byte>, early: nat)
    requires Inv(p, body, early) && p.outcome == Storing && p.status == BodyRead
    requires k <= p.filesize - p.filepos && k <= BUFFER_SIZE && k <= |p.incoming|
    ensures Inv(p.(status := BodyWrite, held := p.incoming[..k], incoming := p.incoming[k..]), body, early) == true
  {
    assert p.incoming == body[p.filepos..];
    Arrives(body, p.filepos, k);
  }

  /** The next bytes of the body are read. */
  lemma Arrives(body: seq<byte>, at: nat, k: nat)
    requires at + k <= |body|
    ensures body[at..][..k] == body[at..at + k] && body[at..][k..] == body[at + k..]
  {}

  ghost function Run(p: Post, ios: seq<Io>): Post
    requires p.filepos <= p.filesize && |p.held| <= BUFFER_SIZE
    decreases |ios|
  {
    if ios == [] then p else Run(Turn(p, ios[0]), ios[1..])
  }

  lemma {:induction false} RunKeepsInv(p: Post, ios: seq<Io>, body: seq<byte>, early: nat)
    requires Inv(p, body, early)
    ensures Inv(Run(p, ios), body, early) && Run(p, ios).filesize == p.filesize
    decreases |ios|
  {
    if ios != [] {
      TurnKeepsInv(p, ios[0], body, early);
      RunKeepsInv(Turn(p, ios[0]), ios[1..], body, early);
    }
  }

  /**
    Under any schedule of short reads and writes the file holds the first
    `filepos` bytes of the body; the script starts with exactly the announced
    number of bytes stored; and no byte past the body is taken from the socket.
   */
  lemma BodyStored(leftover: seq<byte>, n: nat, limit: nat, incoming: seq<byte>, ios: seq<Io>)
    requires 0 < n && (limit == 0 || n <= limit) && |leftover| <= CLIENT_STREAM_SIZE
    ensures var p := Run(Start(leftover, Some(n), limit, incoming), ios);
            var body := leftover + incoming;
            && p.filepos <= n && p.filepos <= |body| && p.file == body[..p.filepos]
            && (p.outcome == ScriptStarted ==> p.filepos == n)
            && |incoming| - |p.incoming| <= (if |leftover| <= n then n - |leftover| else 0)
  {
    StartInv(leftover, n, limit, incoming);
    var p0 := Start(leftover, Some(n), limit, incoming);
    RunKeepsInv(p0, ios, leftover + incoming, |leftover|);
    if |leftover| > n {
      NothingRead(p0, ios, leftover + incoming, |leftover|);
    }
  }

  /** When the whole body came with the header the socket is left alone. */
  lemma {:induction false} NothingRead(p: Post, ios: seq<Io>, body: seq<byte>, early: nat)
    requires Inv(p, body, early) && early > p.filesize && p.status == BodyWrite
    ensures Run(p, ios).incoming == p.incoming
    decreases |ios|
  {
    if ios != [] {
      TurnKeepsInv(p, ios[0], body, early);
      NothingRead(Turn(p, ios[0]), ios[1..], body, early);
    }
  }

  /** A turn starts the script exactly when the file is complete. */
  lemma ScriptStartsWhenComplete(p: Post, io: Io, body: seq<byte>, early: nat)
    requires Inv(p, body, early) && p.outcome == Storing && p.status == BodyWrite
    ensures Turn(p, io).outcome == ScriptStarted <==> p.filesize <= |body| && p.file == body[..p.filesize]
  {}

  /** A request that is not accepted takes nothing from the socket and stores nothing, whatever happens. */
  lemma {:induction false} RefusedStays(p: Post, ios: seq<Io>)
    requires p.filepos <= p.filesize && |p.held| <= BUFFER_SIZE && p.outcome != Storing
    ensures Run(p, ios) == p
    decreases |ios|
  {
    if ios != [] {
      RefusedStays(p, ios[1..]);
    }
  }

  /** A body is accepted exactly if its announced length is positive and not above the limit, if there is one. */
  lemma AcceptedIff(leftover: seq<byte>, contentLength: Option<int>, limit: nat, incoming: seq<byte>, ios: seq<Io>)
    requires |leftover| <= CLIENT_STREAM_SIZE
    ensures var p := Start(leftover, contentLength, limit, incoming);
            match contentLength
            case Some(n) =>
              if 0 < n && (limit == 0 || n <= limit) then p.outcome == Storing && p.filesize == n
              else Run(p, ios) == p && p.outcome == Refused && p.file == [] && p.incoming == incoming
            case None => Run(p, ios) == p && p.outcome == Refused && p.file == [] && p.incoming == incoming
  {
    var p := Start(leftover, contentLength, limit, incoming);
    if p.outcome != Storing {
      RefusedStays(p, ios);
    }
  }

  // ----- Progress -----

  /** Turns left when every call makes progress. */
  ghost function Work(p: Post): nat
    requires p.filepos <= p.filesize
  {
    if p.outcome != Storing then 0
    else 3 * (p.filesize - p.filepos) + 1 + (if p.status == BodyRead then 1 else if p.held == [] then 2 else 0)
  }

  /** If the client sends the whole body and no call fails or stalls, every turn brings the script closer. */
  lemma TurnMakesProgress(p: Post, m: nat, r: nat, body: seq<byte>, early: nat)
    requires Inv(p, body, early) && p.outcome == Storing && p.filesize <= |body| && m > 0
    requires p.held == [] && p.filepos < p.filesize ==> p.incoming != []
    ensures var q := Turn(p, Io(Got(r), Wrote(m)));
            q.filepos <= q.filesize && Work(q) < Work(p) && q.outcome in {Storing, ScriptStarted}
  {}

  /** No call fails, blocks or brings nothing. */
  ghost predicate AllProductive(ios: seq<Io>) {
    forall i :: 0 <= i < |ios| ==> ios[i].read.Got? && ios[i].write.Wrote? && ios[i].write.n > 0
  }

  lemma {:induction false} RunsToTheScript(p: Post, ios: seq<Io>, body: seq<byte>, early: nat)
    requires Inv(p, body, early) && p.outcome in {Storing, ScriptStarted} && p.filesize <= |body|
    requires AllProductive(ios) && |ios| >= Work(p)
    ensures Run(p, ios).outcome == ScriptStarted
    decreases |ios|
  {
    if p.outcome == ScriptStarted {
      RefusedStays(p, ios);
    } else {
      var q := Turn(p, ios[0]);
      TurnMakesProgress(p, ios[0].write.n, ios[0].read.n, body, early);
      TurnKeepsInv(p, ios[0], body, early);
      RunsToTheScript(q, ios[1..], body, early);
    }
  }

  /** So a body that is accepted and sent whole is stored whole, and the script starts on it. */
  lemma BodyArrives(leftover: seq<byte>, n: nat, limit: nat, incoming: seq<byte>, ios: seq<Io>)
    requires 0 < n <= |leftover + incoming| && (limit == 0 || n <= limit) && |leftover| <= CLIENT_STREAM_SIZE
    requires AllProductive(ios) && |ios| >= 3 * n + 3
    ensures var p := Run(Start(leftover, Some(n), limit, incoming), ios);
            p.outcome == ScriptStarted && p.file == (leftover + incoming)[..n]
  {
    var p := Start(leftover, Some(n), limit, incoming);
    StartInv(leftover, n, limit, incoming);
    RunsToTheScript(p, ios, leftover + incoming, |leftover|);
    BodyStored(leftover, n, limit, incoming, ios);
  }

  // ----- The request itself -----

  class PostRequest {
    const clientStream: array<byte>
    const buffer: array<byte>
    var inBuffer: bool     // which of the two the line pointers point into
    var headerLine: nat
    var headerEnd: nat
    var status: Status
    var filesize: nat
    var filepos: nat
    var source: seq<byte>  // what the socket still holds
    ghost var file: seq<byte>

    ghost function Area(): array<byte>
      reads this
    {
      if inBuffer then buffer else clientStream
    }

    ghost predicate Valid()
      reads this, clientStream, buffer
    {
      && clientStream.Length == CLIENT_STREAM_SIZE && buffer.Length == BUFFER_SIZE
      && clientStream != buffer
      && headerLine <= headerEnd <= BUFFER_SIZE
      && (status == BodyRead ==> inBuffer && headerLine == headerEnd == 0)
      && filepos <= filesize
    }

    ghost function Meaning(outcome: Outcome): Post
      requires Valid()
      reads this, clientStream, buffer
    {
      Post(status, Area()[headerLine..headerEnd], filesize, filepos, file, source, outcome)
    }

    /** The end of `read_header`: `parsePos` and `streamPos` bound what arrived behind the header. */
    constructor (stream: seq<byte>, parsePos: nat, contentLength: Option<int>, limit: nat, incoming: seq<byte>)
      requires parsePos <= |stream| <= CLIENT_STREAM_SIZE
      ensures Valid() && fresh(clientStream) && fresh(buffer)
      ensures var start := Start(stream[parsePos..], contentLength, limit, incoming);
              Meaning(start.outcome) == start
    {
      clientStream := new byte[CLIENT_STREAM_SIZE](i requires i >= 0 => if i < |stream| then stream[i] else 0);
      buffer := new byte[BUFFER_SIZE](_ => 0);
      inBuffer, headerLine, headerEnd, status := false, parsePos, |stream|, BodyWrite;
      filesize, filepos, source, file := 0, 0, incoming, [];
      new;
      assert clientStream[parsePos..|stream|] == stream[parsePos..];
      if contentLength.Some? && contentLength.value > 0 && (limit == 0 || contentLength.value <= limit) {
        filesize := contentLength.value;
        if headerEnd - headerLine > filesize {
          headerEnd := headerLine + filesize;
        }
      }
    }

    method WriteBodyStep(io: WriteResult) returns (outcome: Outcome)
      requires Valid() && status == BodyWrite
      modifies this
      ensures Valid()
      ensures Meaning(outcome) == WriteBody(old(Meaning(Storing)), io)
    {
      ghost var p := Meaning(Storing);
      var bytesToWrite := headerEnd - headerLine;
      if filepos + bytesToWrite > filesize {
        bytesToWrite := filesize - filepos;
      }
      outcome := Storing;
      if bytesToWrite == 0 {
        inBuffer, headerLine, headerEnd := true, 0, 0;
        assert Meaning(Storing) == p.(held := []);
        if filepos >= filesize {
          return ScriptStarted;
        }
        status := BodyRead;
        return;
      }
      match io {
        case WriteBlocked =>
        case WriteInterrupted =>
        case WriteFailed =>
          outcome := Broken;
        case Wrote(m) =>
          var k := Min(m, bytesToWrite);
          Stored(k);
      }
    }

    /** The first `k` held bytes have gone to the file. */
    method Stored(k: nat)
      requires Valid() && status == BodyWrite && headerLine + k <= headerEnd && filepos + k <= filesize
      modifies this`file, this`filepos, this`headerLine
      ensures Valid()
      ensures var held := old(Area()[headerLine..headerEnd]);
              && file == old(file) + held[..k] && filepos == old(filepos) + k
              && Area()[headerLine..headerEnd] == held[k..]
    {
      Parts(Area()[..], headerLine, headerEnd, k);
      file := file + Area()[headerLine..headerLine + k];
      filepos := filepos + k;
      headerLine := headerLine + k;
    }

    lemma Parts(area: seq<byte>, from: nat, to: nat, k: nat)
      requires from + k <= to <= |area|
      ensures area[from..to][..k] == area[from..from + k] && area[from..to][k..] == area[from + k..to]
    {}

    method ReadBodyStep(io: ReadResult) returns (outcome: Outcome)
      requires Valid() && status == BodyRead
      modifies this, buffer
      ensures Valid()
      ensures Meaning(outcome) == ReadBody(old(Meaning(Storing)), io)
    {
      outcome := Storing;
      var bytesToRead := Min(filesize - filepos, BUFFER_SIZE - (headerEnd - headerLine));
      if bytesToRead == 0 {
        status := BodyWrite;
        return;
      }
      match io {
        case ReadBlocked =>
        case ReadInterrupted => outcome := Broken;
        case ReadFailed => outcome := Broken;
        case Got(m) =>
          var k := Min(m + 1, Min(bytesToRead, |source|));
          if k == 0 {
            return Refused;
          }
          forall i | 0 <= i < k {
            buffer[headerEnd + i] := source[i];
          }
          assert buffer[headerLine..headerEnd + k] == source[..k];
          status := BodyWrite;
          headerEnd := headerEnd + k;
          source := source[k..];
      }
    }

    /** One turn of the request in the event loop; one that is over is left alone. */
    method TurnStep(io: Io, before: Outcome) returns (outcome: Outcome)
      requires Valid()
      modifies this, buffer
      ensures Valid()
      ensures Meaning(outcome) == Turn(old(Meaning(before)), io)
    {
      outcome := before;
      if outcome == Storing {
        if status == BodyWrite {
          outcome := WriteBodyStep(io.write);
        } else if status == BodyRead {
          outcome := ReadBodyStep(io.read);
        }
      }
    }

    /** The request's turns. */
    method RunSteps(ios: seq<Io>, before: Outcome) returns (outcome: Outcome)
      requires Valid()
      modifies this, buffer
      ensures Valid()
      ensures Meaning(outcome) == Run(old(Meaning(before)), ios)
    {
      hide Turn;
      outcome := before;
      ghost var start := Meaning(before);
      assert ios[0..] == ios;
      for i := 0 to |ios|
        invariant Valid()
        invariant start.filepos <= start.filesize && |start.held| <= BUFFER_SIZE
        invariant Run(start, ios) == Run(Meaning(outcome), ios[i..])
      {
        assert ios[i..][0] == ios[i] && ios[i..][1..] == ios[i + 1..];
        outcome := TurnStep(ios[i], outcome);
      }
    }
  }

  /**
    A POST whose header has been read, and `stream` with it up to `parsePos`:
    the file gets the announced number of bytes of the body before the script
    starts, in order and no more.
   */
  method StoreBody(stream: seq<byte>, parsePos: nat, n: int, limit: nat, incoming: seq<byte>, ios: seq<Io>)
    returns (req: PostRequest, outcome: Outcome)
    requires parsePos <= |stream| <= CLIENT_STREAM_SIZE && 0 < n && (limit == 0 || n <= limit)
    ensures req.Valid() && req.Meaning(outcome) == Run(Start(stream[parsePos..], Some(n), limit, incoming), ios)
    ensures var body := stream[parsePos..] + incoming;
            && req.filepos <= |body| && req.file == body[..req.filepos]
            && (outcome == ScriptStarted ==> req.filepos == n)
  {
    ghost var start := Start(stream[parsePos..], Some(n), limit, incoming);
    req := new PostRequest(stream, parsePos, Some(n), limit, incoming);
    outcome := req.RunSteps(ios, Storing);
    BodyStored(stream[parsePos..], n, limit, incoming, ios);
  }
}
