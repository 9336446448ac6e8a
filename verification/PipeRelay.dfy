/**
  Relaying a script's (or a large file's) output to the client through the two
  halves of one buffer: the server's own header is written in front, the
  script's output is read behind it, and the two are merged once the script's
  header has been seen.

  `Pipe` is the meaning of the request's fields; the theorems are about every
  schedule of short reads, short writes, blocks and interrupts.
 */
module PipeRelay {
  import opened Common
  import opened RequestQueues
  import opened OutputBuffer

  const HALF: nat := BUFFER_SIZE / 2
  const LF_CR_LF: seq<byte> := [10, 13, 10]
  const LF_LF: seq<byte> := [10, 10]
  const STATUS_FIELD: seq<byte> := [115, 116, 97, 116, 117, 115, 58, 32]
  const LOCATION_FIELD: seq<byte> := [108, 111, 99, 97, 116, 105, 111, 110, 58, 32]
  const HTTP_VERSION: seq<byte> := [72, 84, 84, 80, 47, 49, 46, 48, 32]

  // ----- What the C string functions see -----

  /** The bytes before the first NUL. */
  function CString(s: seq<byte>): seq<byte> {
    if s == [] || s[0] == 0 then [] else [s[0]] + CString(s[1..])
  }

  predicate OccursAt(s: seq<byte>, pattern: seq<byte>, i: nat) {
    i + |pattern| <= |s| && s[i..i + |pattern|] == pattern
  }

  predicate Contains(s: seq<byte>, pattern: seq<byte>) {
    exists i | 0 <= i <= |s| :: OccursAt(s, pattern, i)
  }

  function ToLower(b: byte): byte {
    if 65 <= b <= 90 then b + 32 else b
  }

  predicate StartsWithNoCase(s: seq<byte>, field: seq<byte>) {
    |field| <= |s| && forall i :: 0 <= i < |field| ==> ToLower(s[i]) == field[i]
  }

  predicate HasHeaderEnd(s: seq<byte>) {
    Contains(CString(s), LF_CR_LF) || Contains(CString(s), LF_LF)
  }

  // ----- The machine -----

  /** `region` lies between the relay pointers, `top` is the offset of its end. */
  datatype Pipe = Pipe(out: Out, region: seq<byte>, top: nat, cgi: CgiStatus, source: seq<byte>, released: bool)

  /** The pages and header the server may write while it processes the script's header. */
  datatype Pages = Pages(header: seq<seq<byte>>, instead: seq<seq<byte>>)

  /**
    What has become of output held from the middle of the buffer on, once
    `header` has been written at its front: a long header runs over it.
   */
  ghost function Overlaid(header: seq<byte>, held: seq<byte>): (r: seq<byte>)
    ensures |r| == |held|
  {
    if |header| <= HALF then held
    else
      var n := Min(|header| - HALF, |held|);
      header[HALF..HALF + n] + held[n..]
  }

  ghost function AnswerInstead(p: Pipe, pages: Pages, io: WriteResult): Pipe {
    p.(out := Flush(WrittenAll(p.out, pages.instead), io).0)
  }

  /** `process_cgi_header` for a request that is neither simple nor HEAD. */
  ghost function ProcessCgiHeader(p: Pipe, pages: Pages, io: WriteResult): (Pipe, int) {
    HeaderProcessed(if p.cgi != CgiDone then p.(cgi := CgiBuffer) else p, pages, io)
  }

  ghost function HeaderProcessed(p: Pipe, pages: Pages, io: WriteResult): (Pipe, int) {
    if !HasHeaderEnd(p.region) then
      (AnswerInstead(p, pages, io), 0)
    else if StartsWithNoCase(p.region, STATUS_FIELD) then
      (p.(region := HTTP_VERSION + p.region[8..]), 1)
    else if StartsWithNoCase(p.region, LOCATION_FIELD) then
      var p := AnswerInstead(p, pages, io);
      (p.(out := p.out.(status := Done)), 1)
    else
      var o := WrittenAll(p.out, pages.header);
      if |o.pending| + |p.region| > BUFFER_SIZE then
        (AnswerInstead(p.(out := o.(pending := [])), pages, io), 0)
      else
        var o1 := o.(pending := o.pending + Overlaid(o.pending, p.region));
        (p.(out := Flush(o1, io).0, region := [], top := |o1.pending|), 1)
  }

  /** The result of the system calls one turn may make. */
  datatype Io = Io(read: ReadResult, write: WriteResult)

  ghost function ReadFromPipe(p: Pipe, pages: Pages, io: Io): (Pipe, int)
    requires p.top <= BUFFER_SIZE
  {
    var room := BUFFER_SIZE - p.top;
    if room == 0 then
      if p.cgi == CgiParse then ProcessCgiHeader(p.(cgi := CgiBuffer), pages, io.write)
      else (p.(out := p.out.(status := PipeWrite)), 1)
    else match io.read
      case ReadInterrupted => (p, 1)
      case ReadBlocked => (p, -1)
      case ReadFailed => (p.(out := p.out.(status := Dead)), 0)
      case Got(n) =>
        var k := Min(n + 1, Min(room, |p.source|));
        if k == 0 then
          var p1 := p.(out := p.out.(status := PipeWrite), cgi := CgiDone);
          if p.cgi == CgiParse then ProcessCgiHeader(p1, pages, io.write) else (p1, 1)
        else
          (p.(region := p.region + p.source[..k], top := p.top + k, source := p.source[k..]), 1)
  }

  ghost function WriteFromPipe(p: Pipe, io: WriteResult): (Pipe, int) {
    if p.region == [] then
      if p.cgi == CgiDone then (p, 0) else (p.(out := p.out.(status := PipeRead), top := 0), 1)
    else match io
      case WriteBlocked => (p, -1)
      case WriteInterrupted => (p, 1)
      case WriteFailed => (p.(out := p.out.(status := Dead)), 0)
      case Wrote(n) =>
        var k := Min(n, |p.region|);
        (p.(region := p.region[k..], out := p.out.(sent := p.out.sent + p.region[..k])), 1)
  }

  ghost function Finish(p: Pipe): Pipe {
    if p.out.pending != [] && p.out.status != Dead then p.(out := p.out.(status := Done)) else p.(released := true)
  }

  /** One turn of the request in the event loop. */
  ghost function Turn(p: Pipe, pages: Pages, io: Io): Pipe
    requires p.top <= BUFFER_SIZE
  {
    if p.released then p
    else if p.out.pending != [] && p.out.status != Dead && p.out.status != Done then
      var (o, r) := Flush(p.out, io.write);
      if r == FlushError then Finish(p.(out := o)) else p.(out := o)
    else if p.out.status == PipeRead then
      var (p', retval) := ReadFromPipe(p, pages, io);
      if retval == 0 then Finish(p') else p'
    else if p.out.status == PipeWrite then
      var (p', retval) := WriteFromPipe(p, io.write);
      if retval == 0 then Finish(p') else p'
    else if p.out.status == Dead then
      Finish(p.(out := p.out.(pending := [])))
    else
      var (o, r) := Flush(p.out, io.write);
      if r == FlushError || r == Flushed(false) then Finish(p.(out := o)) else p.(out := o)
  }

  datatype Event = TurnWith(io: Io) | TimeOut

  ghost function Next(p: Pipe, pages: Pages, e: Event): (p': Pipe)
    requires p.top <= BUFFER_SIZE
    ensures p'.top <= BUFFER_SIZE
  {
    match e
    case TurnWith(io) => Turn(p, pages, io)
    case TimeOut => if p.released then p else p.(out := p.out.(status := Dead))
  }

  /** `init_cgi`: a parsed CGI gets the upper half of the buffer. */
  ghost function StartCgi(output: seq<byte>): Pipe {
    Pipe(Out(PipeRead, [], []), [], HALF, CgiParse, output, false)
  }

  /** `init_get` for a file too large to map: the header is buffered, and the write tried at once. */
  ghost function StartFile(header: seq<seq<byte>>, file: seq<byte>, io: WriteResult): Pipe {
    var o := WrittenAll(Out(Write, [], []), header);
    Pipe(Flush(o.(status := PipeRead), io).0, [], 0, CgiBuffer, file, false)
  }

  // ----- What the script's output should become -----

  /** The part of the output that is examined for a header. */
  ghost function Examined(output: seq<byte>): seq<byte> {
    output[..Min(HALF, |output|)]
  }

  /** A header ends at `i`: a line feed and another, perhaps behind a carriage return, before any zero byte. */
  ghost predicate EndsAt(output: seq<byte>, i: nat) {
    && i + 1 < |Examined(output)| && 0 !in output[..i] && output[i] == 10
    && (output[i + 1] == 10 || (i + 2 < |Examined(output)| && output[i + 1] == 13 && output[i + 2] == 10))
  }

  ghost predicate HeaderEnds(output: seq<byte>) {
    exists i: nat :: EndsAt(output, i)
  }

  /** "Status: ", in upper or lower case. */
  ghost predicate SaysStatus(output: seq<byte>) {
    && 8 <= |output|
    && output[0] in {83, 115} && output[1] in {84, 116} && output[2] in {65, 97} && output[3] in {84, 116}
    && output[4] in {85, 117} && output[5] in {83, 115} && output[6] == 58 && output[7] == 32
  }

  /** "Location: ", in upper or lower case. */
  ghost predicate SaysLocation(output: seq<byte>) {
    && 10 <= |output|
    && output[0] in {76, 108} && output[1] in {79, 111} && output[2] in {67, 99} && output[3] in {65, 97}
    && output[4] in {84, 116} && output[5] in {73, 105} && output[6] in {79, 111} && output[7] in {78, 110}
    && output[8] == 58 && output[9] == 32
  }

  /** Output that is passed on: a header ends in the examined part, and it does not redirect. */
  ghost predicate IsRelayed(output: seq<byte>) {
    HeaderEnds(output) && !SaysLocation(output)
  }

  /** The buffer holds the server header and the examined part, or the header is not needed. */
  ghost predicate Passes(header: seq<byte>, output: seq<byte>) {
    SaysStatus(output) || |header| + |Examined(output)| <= BUFFER_SIZE
  }

  /** What the client receives of output that passes; a status field gives way to "HTTP/1.0 ". */
  ghost function Expected(header: seq<byte>, output: seq<byte>): seq<byte> {
    var held := Examined(output);
    if SaysStatus(output) then [72, 84, 84, 80, 47, 49, 46, 48, 32] + output[8..]
    else header + Overlaid(header, held) + output[|held|..]
  }

  /** Output that reaches the client. */
  ghost predicate Relays(pages: Pages, output: seq<byte>) {
    IsRelayed(output) && Passes(Concat(pages.header), output)
  }

  /** Output that asks for a redirection. */
  ghost predicate Redirects(output: seq<byte>) {
    HeaderEnds(output) && !SaysStatus(output) && SaysLocation(output)
  }

  /** What the client receives: the relayed output, what the buffer keeps of the redirecting page, or the error page. */
  ghost function Reaction(pages: Pages, output: seq<byte>): seq<byte> {
    if Relays(pages, output) then Expected(Concat(pages.header), output)
    else if Redirects(output) then Kept(pages.instead)
    else Concat(pages.instead)
  }

  // ----- What the C string functions find -----

  lemma {:induction false} CStringIs(s: seq<byte>, n: nat)
    requires n <= |s| && 0 !in s[..n] && (n < |s| ==> s[n] == 0)
    ensures CString(s) == s[..n]
  {
    if n > 0 {
      assert s[0] == s[..n][0];
      assert s[1..][..n - 1] == s[..n][1..];
      CStringIs(s[1..], n - 1);
    }
  }

  /** Where a string ends. */
  lemma {:induction false} FirstZero(s: seq<byte>) returns (n: nat)
    ensures n <= |s| && 0 !in s[..n] && (n < |s| ==> s[n] == 0)
  {
    if s == [] || s[0] == 0 {
      n := 0;
    } else {
      n := FirstZero(s[1..]);
      assert s[..n + 1] == [s[0]] + s[1..][..n];
      n := n + 1;
    }
  }

  /** A pattern without zero bytes is found exactly where it stands before the first zero byte. */
  lemma FoundBeforeZero(s: seq<byte>, pattern: seq<byte>, i: nat)
    requires pattern != [] && 0 !in pattern
    ensures OccursAt(CString(s), pattern, i) <==> OccursAt(s, pattern, i) && 0 !in s[..i]
  {
    var n := FirstZero(s);
    CStringIs(s, n);
    if OccursAt(s, pattern, i) && 0 !in s[..i] {
      forall k | 0 <= k < i + |pattern|
        ensures s[k] != 0
      {
        assert k < i ==> s[k] == s[..i][k];
        assert k >= i ==> s[k] == s[i..i + |pattern|][k - i] == pattern[k - i];
      }
      assert s[..n][i..i + |pattern|] == s[i..i + |pattern|];
    }
    if OccursAt(CString(s), pattern, i) {
      assert s[..i] == s[..n][..i] && s[..n][i..i + |pattern|] == s[i..i + |pattern|];
      assert forall k :: 0 <= k < i ==> s[..i][k] == s[..n][k];
    }
  }

  lemma PairAt(s: seq<byte>, i: nat)
    ensures OccursAt(s, LF_LF, i) <==> i + 2 <= |s| && s[i] == 10 && s[i + 1] == 10
  {
    if i + 2 <= |s| {
      assert s[i..i + 2] == [s[i], s[i + 1]];
    }
  }

  lemma TripleAt(s: seq<byte>, i: nat)
    ensures OccursAt(s, LF_CR_LF, i) <==> i + 3 <= |s| && s[i] == 10 && s[i + 1] == 13 && s[i + 2] == 10
  {
    if i + 3 <= |s| {
      assert s[i..i + 3] == [s[i], s[i + 1], s[i + 2]];
    }
  }

  lemma FoundAt(output: seq<byte>, i: nat)
    ensures EndsAt(output, i) <==>
      OccursAt(CString(Examined(output)), LF_LF, i) || OccursAt(CString(Examined(output)), LF_CR_LF, i)
  {
    hide CString, OccursAt;
    var e := Examined(output);
    FoundBeforeZero(e, LF_LF, i);
    FoundBeforeZero(e, LF_CR_LF, i);
    PairAt(e, i);
    TripleAt(e, i);
    if i <= |e| {
      assert e[..i] == output[..i];
    }
  }

  /** `strstr` finds a blank line exactly if a header ends. */
  lemma HeaderFound(output: seq<byte>)
    ensures HasHeaderEnd(Examined(output)) <==> HeaderEnds(output)
  {
    var c := CString(Examined(output));
    if HeaderEnds(output) {
      var i: nat :| EndsAt(output, i);
      FoundAt(output, i);
      assert Contains(c, LF_LF) || Contains(c, LF_CR_LF);
    }
    if HasHeaderEnd(Examined(output)) {
      var i :| 0 <= i <= |c| && (OccursAt(c, LF_LF, i) || OccursAt(c, LF_CR_LF, i));
      FoundAt(output, i);
    }
  }

  /** `strncasecmp` finds a field in either case. */
  lemma FieldsFound(output: seq<byte>)
    ensures StartsWithNoCase(Examined(output), STATUS_FIELD) <==> SaysStatus(output)
    ensures StartsWithNoCase(Examined(output), LOCATION_FIELD) <==> SaysLocation(output)
  {
    var e := Examined(output);
    if 8 <= |output| {
      StatusLetters(e);
    }
    if 10 <= |output| {
      LocationLetters(e);
    }
  }

  lemma StatusLetters(s: seq<byte>)
    requires 8 <= |s|
    ensures StartsWithNoCase(s, STATUS_FIELD) <==> SaysStatus(s)
  {
    assert StartsWithNoCase(s, STATUS_FIELD) <==>
      && ToLower(s[0]) == STATUS_FIELD[0] && ToLower(s[1]) == STATUS_FIELD[1] && ToLower(s[2]) == STATUS_FIELD[2]
      && ToLower(s[3]) == STATUS_FIELD[3] && ToLower(s[4]) == STATUS_FIELD[4] && ToLower(s[5]) == STATUS_FIELD[5]
      && ToLower(s[6]) == STATUS_FIELD[6] && ToLower(s[7]) == STATUS_FIELD[7];
  }

  lemma LocationLetters(s: seq<byte>)
    requires 10 <= |s|
    ensures StartsWithNoCase(s, LOCATION_FIELD) <==> SaysLocation(s)
  {
    assert StartsWithNoCase(s, LOCATION_FIELD) <==>
      && ToLower(s[0]) == LOCATION_FIELD[0] && ToLower(s[1]) == LOCATION_FIELD[1]
      && ToLower(s[2]) == LOCATION_FIELD[2] && ToLower(s[3]) == LOCATION_FIELD[3]
      && ToLower(s[4]) == LOCATION_FIELD[4] && ToLower(s[5]) == LOCATION_FIELD[5]
      && ToLower(s[6]) == LOCATION_FIELD[6] && ToLower(s[7]) == LOCATION_FIELD[7]
      && ToLower(s[8]) == LOCATION_FIELD[8] && ToLower(s[9]) == LOCATION_FIELD[9];
  }

  // ----- Invariants -----

  /** Sizes, and the fact that buffered output is drained before anything else moves. */
  ghost predicate Shape(p: Pipe) {
    && |p.region| <= p.top <= BUFFER_SIZE
    && |p.out.pending| <= BUFFER_SIZE
    && (p.out.status != Dead && p.region != [] ==> p.out.pending == [])
    && (p.cgi == CgiDone ==> p.source == [] || p.out.status == Dead)
  }

  /** Before the header is processed: nothing sent, and the region is the output read so far. */
  ghost predicate Parsing(p: Pipe, output: seq<byte>) {
    && p.cgi == CgiParse && !p.released && p.out == Out(PipeRead, [], [])
    && p.region + p.source == output && p.top == HALF + |p.region| <= BUFFER_SIZE
  }

  /** Everything the client has, is about to get and has yet to get. */
  ghost function Stream(p: Pipe): seq<byte> {
    p.out.sent + p.out.pending + p.region + p.source
  }

  /** Afterwards: what is sent, buffered, held and still to come always adds up to the whole stream. */
  ghost predicate Relaying(p: Pipe, stream: seq<byte>) {
    && Shape(p) && p.cgi != CgiParse
    && p.out.status in {PipeRead, PipeWrite}
    && Stream(p) == stream
    && (p.released ==> p.out.sent == stream)
  }

  ghost predicate Dying(p: Pipe) {
    p.out.status == Dead && p.top <= BUFFER_SIZE
  }

  /** The page that is sent in place of the output is on its way or has arrived. */
  ghost predicate Answered(p: Pipe, page: seq<byte>) {
    && p.top <= BUFFER_SIZE && |page| <= BUFFER_SIZE
    && p.out.status != Dead && p.out.sent + p.out.pending == page
    && (if p.released then p.out.pending == [] else p.out.status == Done)
  }

  /** A write that kills a request while it flushes. */
  ghost predicate WriteFails(io: WriteResult) { io.WriteFailed? || io.WriteInterrupted? }

  /**
    After the header has been processed.  A redirecting page whose first write
    failed is forgotten: the request is done although it had died, with nothing
    to send; so this can only be so if not all writes have been `calm`.
   */
  ghost predicate Decided(p: Pipe, output: seq<byte>, pages: Pages, calm: bool) {
    || (if Relays(pages, output) then Relaying(p, Reaction(pages, output)) else Answered(p, Reaction(pages, output)))
    || (!calm && Redirects(output) && Answered(p, []))
    || Dying(p)
  }

  ghost predicate Inv(p: Pipe, output: seq<byte>, pages: Pages, calm: bool) {
    Parsing(p, output) || Decided(p, output, pages, calm)
  }

  /** What the event loop makes of a handler's result. */
  ghost function Settled(r: (Pipe, int)): Pipe {
    if r.1 == 0 then Finish(r.0) else r.0
  }

  /** Reading in the parsing state keeps parsing until all that will be examined is there. */
  lemma ParsingStep(p: Pipe, output: seq<byte>, pages: Pages, io: Io)
    requires Parsing(p, output)
    ensures Inv(Settled(ReadFromPipe(p, pages, io)), output, pages, !WriteFails(io.write))
  {
    hide Decided;
    var room := BUFFER_SIZE - p.top;
    if room == 0 {
      assert p.region == Examined(output);
      HeaderStep(p.(cgi := CgiBuffer), output, pages, io.write);
    } else if io.read.Got? {
      var k := Min(io.read.n + 1, Min(room, |p.source|));
      if k == 0 {
        assert p.region == output == Examined(output);
        HeaderStep(p.(out := p.out.(status := PipeWrite), cgi := CgiDone), output, pages, io.write);
      } else {
        assert p.source == p.source[..k] + p.source[k..];
        assert p.region + p.source == p.region + p.source[..k] + p.source[k..];
      }
    } else if io.read.ReadFailed? {
      DeadIsDecided(Settled(ReadFromPipe(p, pages, io)), output, pages, !WriteFails(io.write));
    }
  }

  lemma DeadIsDecided(p: Pipe, output: seq<byte>, pages: Pages, calm: bool)
    requires Dying(p)
    ensures Decided(p, output, pages, calm)
  {}

  /** All of the examined part is there. */
  ghost predicate Ready(p: Pipe, output: seq<byte>) {
    && p.cgi != CgiParse && !p.released && p.out.status in {PipeRead, PipeWrite} && p.out.pending == p.out.sent == []
    && p.region + p.source == output && p.region == Examined(output) && p.top == HALF + |p.region|
    && (p.cgi == CgiDone ==> p.source == [])
  }

  /** Processing the header starts the relay of exactly the expected stream, or a page. */
  lemma HeaderStep(p: Pipe, output: seq<byte>, pages: Pages, io: WriteResult)
    requires Ready(p, output)
    ensures Decided(Settled(ProcessCgiHeader(p, pages, io)), output, pages, !WriteFails(io)) == true
  {
    hide HasHeaderEnd, StartsWithNoCase, Decided, WrittenAll, Flush, Overlaid, AnswerInstead;
    var q := if p.cgi != CgiDone then p.(cgi := CgiBuffer) else p;
    if !HasHeaderEnd(q.region) {
      HeaderlessDecided(q, output, pages, io);
    } else if StartsWithNoCase(q.region, STATUS_FIELD) {
      StatusDecided(q, output, pages, io);
    } else if StartsWithNoCase(q.region, LOCATION_FIELD) {
      RedirectDecided(q, output, pages, io);
    } else {
      MergeDecided(q, output, pages, io);
    }
  }

  lemma HeaderlessDecided(p: Pipe, output: seq<byte>, pages: Pages, io: WriteResult)
    requires Ready(p, output) && !HasHeaderEnd(p.region)
    ensures Decided(Finish(AnswerInstead(p, pages, io)), output, pages, !WriteFails(io)) == true
  {
    hide HasHeaderEnd, HeaderEnds, SaysStatus, SaysLocation, StartsWithNoCase, AnswerInstead, Concat;
    HeaderFound(output);
    PageSent(p, p.out, pages, io);
  }

  lemma StatusDecided(p: Pipe, output: seq<byte>, pages: Pages, io: WriteResult)
    requires Ready(p, output) && HasHeaderEnd(p.region) && StartsWithNoCase(p.region, STATUS_FIELD)
    ensures 8 <= |p.region|
    ensures Decided(p.(region := HTTP_VERSION + p.region[8..]), output, pages, !WriteFails(io)) == true
  {
    hide HasHeaderEnd, HeaderEnds, SaysStatus, SaysLocation, StartsWithNoCase;
    HeaderFound(output);
    FieldsFound(output);
    Starts(p.region);
    StatusIsNoLocation(p.region);
    RewriteStep(p, output);
  }

  lemma RedirectDecided(p: Pipe, output: seq<byte>, pages: Pages, io: WriteResult)
    requires Ready(p, output) && HasHeaderEnd(p.region)
    requires !StartsWithNoCase(p.region, STATUS_FIELD) && StartsWithNoCase(p.region, LOCATION_FIELD)
    ensures var q := AnswerInstead(p, pages, io);
            Decided(q.(out := q.out.(status := Done)), output, pages, !WriteFails(io)) == true
  {
    hide HasHeaderEnd, HeaderEnds, SaysStatus, SaysLocation, StartsWithNoCase, AnswerInstead, Answered, Kept;
    HeaderFound(output);
    FieldsFound(output);
    RedirectStep(p, pages, io);
  }

  lemma MergeDecided(p: Pipe, output: seq<byte>, pages: Pages, io: WriteResult)
    requires Ready(p, output) && HasHeaderEnd(p.region)
    requires !StartsWithNoCase(p.region, STATUS_FIELD) && !StartsWithNoCase(p.region, LOCATION_FIELD)
    ensures Decided(Settled(HeaderProcessed(p, pages, io)), output, pages, !WriteFails(io)) == true
  {
    hide HasHeaderEnd, HeaderEnds, SaysStatus, SaysLocation, StartsWithNoCase, Concat, Overlaid, Kept;
    HeaderFound(output);
    FieldsFound(output);
    if Passes(Concat(pages.header), output) {
      MergeStep(p, output, pages, io);
    } else {
      TooMuchStep(p, output, pages, io);
    }
  }

  lemma StatusIsNoLocation(s: seq<byte>)
    requires StartsWithNoCase(s, STATUS_FIELD)
    ensures !StartsWithNoCase(s, LOCATION_FIELD)
  {
    assert ToLower(s[0]) == STATUS_FIELD[0] != LOCATION_FIELD[0];
  }

  /** A redirecting page is sent as far as the buffer keeps it, unless its first write fails. */
  lemma RedirectStep(p: Pipe, pages: Pages, io: WriteResult)
    requires !p.released && p.top <= BUFFER_SIZE && p.out.status != Dead && p.out.pending == p.out.sent == []
    ensures var q := AnswerInstead(p, pages, io);
            var q' := q.(out := q.out.(status := Done));
            Answered(q', Kept(pages.instead)) || (WriteFails(io) && Answered(q', []))
  {
    KeptOf(p.out, Out(Write, [], []), pages.instead);
    KeptBounds(pages.instead);
    var o := WrittenAll(p.out, pages.instead);
    if Flush(o, io).0.status != Dead {
      FlushConserves(o, io);
    }
  }

  lemma Starts(s: seq<byte>)
    requires StartsWithNoCase(s, STATUS_FIELD)
    ensures 8 <= |s|
  {}

  /** Rewriting the status field: its eight bytes give way to the nine of the HTTP version. */
  lemma RewriteStep(p: Pipe, output: seq<byte>)
    requires p.region + p.source == output && 8 <= |p.region| && p.out.pending == p.out.sent == []
    ensures Stream(p.(region := HTTP_VERSION + p.region[8..])) == HTTP_VERSION + output[8..]
  {
    assert output[8..] == p.region[8..] + p.source;
  }

  /** Merging the two halves of the buffer: the header and the held bytes have room, and follow one another. */
  lemma MergeStep(p: Pipe, output: seq<byte>, pages: Pages, io: WriteResult)
    requires !p.released && p.out.status in {PipeRead, PipeWrite} && p.out.pending == p.out.sent == []
    requires p.region + p.source == output && |Concat(pages.header)| + |p.region| <= BUFFER_SIZE
    ensures var h := Concat(pages.header);
            var o := WrittenAll(p.out, pages.header);
            var o1 := o.(pending := o.pending + Overlaid(o.pending, p.region));
            var o2 := Flush(o1, io).0;
            && o.pending == h && |o1.pending| <= BUFFER_SIZE && |o2.pending| <= BUFFER_SIZE
            && (o2.status == p.out.status || o2.status == Dead)
            && (o2.status != Dead ==>
                  o2.sent + o2.pending + [] + p.source == h + Overlaid(h, p.region) + output[|p.region|..])
  {
    hide Overlaid, Concat;
    var h := Concat(pages.header);
    WrittenAllFits(p.out, pages.header);
    assert p.out.pending + h == h;
    var o := WrittenAll(p.out, pages.header);
    var o1 := o.(pending := o.pending + Overlaid(o.pending, p.region));
    assert p.source == output[|p.region|..];
    if Flush(o1, io).0.status != Dead {
      FlushConserves(o1, io);
      assert o1.sent + o1.pending + [] + p.source == h + Overlaid(h, p.region) + p.source;
    }
  }

  /** A header too long for both: the error page goes out in its place, unless that is too long as well. */
  lemma TooMuchStep(p: Pipe, output: seq<byte>, pages: Pages, io: WriteResult)
    requires Ready(p, output) && |Concat(pages.header)| + |p.region| > BUFFER_SIZE
    ensures var o := WrittenAll(p.out, pages.header);
            var q := AnswerInstead(p.(out := o.(pending := [])), pages, io);
            if |o.pending| + |p.region| > BUFFER_SIZE then Dying(q) || Answered(Finish(q), Concat(pages.instead))
            else o.status == Dead
  {
    hide Concat;
    WrittenAllFits(p.out, pages.header);
    var o := WrittenAll(p.out, pages.header).(pending := []);
    if o.status == Dead {
      DeadWritesNothing(o, pages.instead);
    } else {
      PageSent(p, o, pages, io);
    }
  }

  lemma PageSent(p: Pipe, o: Out, pages: Pages, io: WriteResult)
    requires !p.released && p.top <= BUFFER_SIZE && o.status != Dead && o.pending == o.sent == []
    ensures var q := AnswerInstead(p.(out := o), pages, io);
            Dying(q) || Answered(Finish(q), Concat(pages.instead))
  {
    hide Concat;
    WrittenAllFits(o, pages.instead);
    var o1 := WrittenAll(o, pages.instead);
    assert o.pending + Concat(pages.instead) == Concat(pages.instead);
    if Flush(o1, io).0.status != Dead {
      FlushConserves(o1, io);
    }
  }

  /** The page is sent like any finished answer. */
  lemma AnsweredStep(p: Pipe, page: seq<byte>, pages: Pages, io: Io)
    requires Answered(p, page)
    ensures Answered(Turn(p, pages, io), page) || Dying(Turn(p, pages, io))
  {
    if !p.released && Flush(p.out, io.write).0.status != Dead {
      FlushConserves(p.out, io.write);
    }
  }

  /** Once relaying, every turn keeps the stream. */
  lemma RelayingStep(p: Pipe, stream: seq<byte>, pages: Pages, io: Io)
    requires Relaying(p, stream)
    ensures Relaying(Turn(p, pages, io), stream) || Dying(Turn(p, pages, io))
  {
    if !p.released {
      if p.out.pending != [] {
        if Flush(p.out, io.write).0.status != Dead {
          FlushConserves(p.out, io.write);
        }
      } else if p.out.status == PipeRead {
        ReadingStep(p, pages, io);
      } else {
        WritingStep(p, io.write);
      }
    }
  }

  lemma ReadingStep(p: Pipe, pages: Pages, io: Io)
    requires Shape(p) && p.cgi != CgiParse && p.out.status == PipeRead && p.out.pending == [] && !p.released
    ensures var (p', retval) := ReadFromPipe(p, pages, io);
            (retval != 0 && Shape(p') && p'.cgi != CgiParse && p'.out.status in {PipeRead, PipeWrite} &&
             p'.out.pending == [] && !p'.released && Stream(p') == Stream(p))
            || (retval == 0 && Dying(p'))
  {
    var room := BUFFER_SIZE - p.top;
    if room > 0 && io.read.Got? {
      var k := Min(io.read.n + 1, Min(room, |p.source|));
      assert p.source == p.source[..k] + p.source[k..];
      assert p.region + p.source == p.region + p.source[..k] + p.source[k..];
    }
  }

  lemma WritingStep(p: Pipe, io: WriteResult)
    requires Shape(p) && p.cgi != CgiParse && p.out.status == PipeWrite && p.out.pending == [] && !p.released
    ensures var (p', retval) := WriteFromPipe(p, io);
            (retval != 0 && Shape(p') && p'.cgi != CgiParse && p'.out.status in {PipeRead, PipeWrite} &&
             p'.out.pending == [] && !p'.released && Stream(p') == Stream(p))
            || (retval == 0 && (Dying(p') || (p' == p && p.out.sent == Stream(p))))
  {
    if p.region != [] && io.Wrote? {
      var k := Min(io.n, |p.region|);
      assert p.region == p.region[..k] + p.region[k..];
      assert p.out.sent + [] + p.region == p.out.sent + p.region[..k] + [] + p.region[k..];
    }
  }

  lemma NextKeepsInv(p: Pipe, output: seq<byte>, pages: Pages, e: Event, calm: bool)
    requires Inv(p, output, pages, calm) && (calm ==> IsCalm(e))
    ensures Inv(Next(p, pages, e), output, pages, calm)
  {
    hide Reaction, Relays, Redirects, ReadFromPipe, WriteFromPipe;
    match e
    case TimeOut =>
    case TurnWith(io) =>
      if Parsing(p, output) {
        ParsingStep(p, output, pages, io);
      } else if Relaying(p, Reaction(pages, output)) && Relays(pages, output) {
        RelayingStep(p, Reaction(pages, output), pages, io);
      } else if Answered(p, Reaction(pages, output)) && !Relays(pages, output) {
        AnsweredStep(p, Reaction(pages, output), pages, io);
      } else if Answered(p, []) {
        AnsweredStep(p, [], pages, io);
      }
  }

  // ----- Runs -----

  ghost function Run(p: Pipe, pages: Pages, events: seq<Event>): (p': Pipe)
    requires p.top <= BUFFER_SIZE
    ensures p'.top <= BUFFER_SIZE
    decreases |events|
  {
    if events == [] then p else Run(Next(p, pages, events[0]), pages, events[1..])
  }

  ghost predicate IsCalm(e: Event) { e.TurnWith? ==> !WriteFails(e.io.write) }

  /** No write fails or is interrupted. */
  ghost predicate Calm(events: seq<Event>) {
    forall e :: e in events ==> IsCalm(e)
  }

  lemma {:induction false} RunKeepsInv(p: Pipe, output: seq<byte>, pages: Pages, events: seq<Event>, calm: bool)
    requires Inv(p, output, pages, calm) == true && (calm ==> Calm(events))
    ensures Inv(Run(p, pages, events), output, pages, calm) == true
    decreases |events|
  {
    hide Next, Decided;
    if events != [] {
      assert events[0] in events;
      TopBounded(p, output, pages, calm);
      NextKeepsInv(p, output, pages, events[0], calm);
      RunKeepsInv(Next(p, pages, events[0]), output, pages, events[1..], calm);
    }
  }

  lemma TopBounded(p: Pipe, output: seq<byte>, pages: Pages, calm: bool)
    requires Inv(p, output, pages, calm)
    ensures p.top <= BUFFER_SIZE
  {}

  /**
    However the script's output is cut up, and however the client's socket takes
    it, the client of a script gets the server header and then the output; or,
    if the output starts with a status field, a status line in place of that
    field and then the rest; or, if no header ends in the examined part or the
    server header is too long, the error page; or, if it redirects, what the
    buffer keeps of that page, or nothing if its first write failed.  Before the
    end it has a prefix of that.
   */
  lemma ScriptRelayed(output: seq<byte>, pages: Pages, events: seq<Event>)
    ensures var p, stream := Run(StartCgi(output), pages, events), Reaction(pages, output);
            p.out.status != Dead ==>
              && p.out.sent <= stream
              && (p.released ==> p.out.sent == stream || (Redirects(output) && !Calm(events) && p.out.sent == []))
  {
    hide Reaction, Relays, Redirects;
    var p0 := StartCgi(output);
    assert Parsing(p0, output);
    RunKeepsInv(p0, output, pages, events, Calm(events));
    var p := Run(p0, pages, events);
    if Relaying(p, Reaction(pages, output)) {
      assert p.out.sent <= Stream(p);
    }
  }

  // ----- Progress -----

  /** Reads bring bytes or the end, and writes take at least a byte. */
  ghost predicate IsProductive(e: Event) {
    e.TurnWith? && e.io.read.Got? && e.io.write.Wrote? && e.io.write.n > 0
  }

  ghost predicate AllProductive(events: seq<Event>) {
    forall i :: 0 <= i < |events| ==> IsProductive(events[i])
  }

  /** At the end of the output nothing more is read. */
  ghost predicate StopsReading(p: Pipe) {
    p.cgi == CgiDone ==> p.out.status != PipeRead
  }

  /** How far a request is from its next change between reading and writing. */
  ghost function Phase(p: Pipe): nat {
    if p.out.status == PipeRead then if p.top == BUFFER_SIZE then 4 else 1
    else if p.region == [] then 2
    else 3
  }

  /** Turns left when every call makes progress. */
  ghost function Work(p: Pipe): nat {
    if p.released then 0
    else if p.out.status == Dead then 1
    else if p.out.status == Done then |p.out.pending| + 1
    else
      6 * |p.source| + |p.region| + |p.out.pending| + Phase(p) + (if p.cgi == CgiDone then 0 else 5)
      + if p.cgi == CgiParse then 2 * BUFFER_SIZE else 0
  }

  /** The request need not die: the output passes or redirects, or else the pages fit the buffer. */
  ghost predicate CanAnswer(pages: Pages, output: seq<byte>) {
    || Relays(pages, output) || Redirects(output)
    || (|Concat(pages.instead)| <= BUFFER_SIZE && |Concat(pages.header)| <= BUFFER_SIZE)
  }

  lemma PageLives(p: Pipe, o: Out, pages: Pages, io: WriteResult)
    requires o.status != Dead && o.pending == [] && io.Wrote? && |Concat(pages.instead)| <= BUFFER_SIZE
    ensures AnswerInstead(p.(out := o), pages, io).out.status == o.status
  {
    WrittenAllFits(o, pages.instead);
  }

  lemma MergeLives(p: Pipe, output: seq<byte>, pages: Pages, io: WriteResult)
    requires Ready(p, output) && io.Wrote? && CanAnswer(pages, output)
    requires HeaderEnds(output) && !SaysStatus(output) && !SaysLocation(output)
    ensures var o := WrittenAll(p.out, pages.header);
            if |o.pending| + |p.region| > BUFFER_SIZE
            then AnswerInstead(p.(out := o.(pending := [])), pages, io).out.status == p.out.status
            else o.status == p.out.status
  {
    hide HeaderEnds, SaysStatus, SaysLocation, Concat;
    WrittenAllFits(p.out, pages.header);
    var o := WrittenAll(p.out, pages.header);
    if |o.pending| + |p.region| > BUFFER_SIZE {
      PageLives(p, o.(pending := []), pages, io);
    }
  }

  /** Processing the header leaves a request that can be answered alive. */
  lemma HeaderLives(p: Pipe, output: seq<byte>, pages: Pages, io: WriteResult)
    requires Ready(p, output) && StopsReading(p) && io.Wrote? && CanAnswer(pages, output)
    ensures var q := Settled(ProcessCgiHeader(p, pages, io));
            && q.out.status != Dead && StopsReading(q)
            && (q.source == p.source || q.released || q.out.status == Done) && q.cgi != CgiParse
  {
    hide HasHeaderEnd, StartsWithNoCase, HeaderEnds, SaysStatus, SaysLocation, Concat, Overlaid, WrittenAll;
    HeaderFound(output);
    FieldsFound(output);
    var q := if p.cgi != CgiDone then p.(cgi := CgiBuffer) else p;
    if !HeaderEnds(output) {
      assert q.(out := q.out) == q;
      PageLives(q, q.out, pages, io);
    } else if !SaysStatus(output) && !SaysLocation(output) {
      MergeLives(q, output, pages, io);
    }
  }

  /** What is left to do once the header has been processed. */
  lemma DecidedWork(p: Pipe, output: seq<byte>, pages: Pages)
    requires Decided(p, output, pages, true) && p.out.status != Dead && p.cgi != CgiParse
    ensures Work(p) <= 6 * |p.source| + BUFFER_SIZE + 9
    ensures p.released || p.out.status == Done ==> Work(p) <= BUFFER_SIZE + 1
  {}

  lemma ParsingWork(p: Pipe, output: seq<byte>, pages: Pages, e: Event)
    requires Parsing(p, output) && IsProductive(e) && CanAnswer(pages, output)
    ensures var q := Next(p, pages, e);
            Inv(q, output, pages, true) && q.out.status != Dead && StopsReading(q) && Work(q) < Work(p)
  {
    hide Decided, ProcessCgiHeader, WriteFromPipe, CanAnswer;
    var io := e.io;
    ParsingStep(p, output, pages, io);
    var room := BUFFER_SIZE - p.top;
    var k := Min(io.read.n + 1, Min(room, |p.source|));
    if room == 0 || k == 0 {
      var r := if room == 0 then p.(cgi := CgiBuffer) else p.(out := p.out.(status := PipeWrite), cgi := CgiDone);
      assert p.region == Examined(output);
      HeaderStep(r, output, pages, io.write);
      HeaderLives(r, output, pages, io.write);
      DecidedWork(Settled(ProcessCgiHeader(r, pages, io.write)), output, pages);
    }
  }

  lemma RelayingWork(p: Pipe, stream: seq<byte>, pages: Pages, e: Event)
    requires Relaying(p, stream) && StopsReading(p) && !p.released && IsProductive(e)
    ensures var q := Next(p, pages, e); q.out.status != Dead && StopsReading(q) && Work(q) < Work(p)
  {
    hide ProcessCgiHeader;
  }

  lemma AnsweredWork(p: Pipe, page: seq<byte>, pages: Pages, e: Event)
    requires Answered(p, page) && !p.released && IsProductive(e)
    ensures var q := Next(p, pages, e); q.out.status != Dead && StopsReading(q) && Work(q) < Work(p)
  {}

  lemma {:induction false} RunsToTheEnd(p: Pipe, output: seq<byte>, pages: Pages, events: seq<Event>)
    requires Inv(p, output, pages, true) == true && StopsReading(p) && p.out.status != Dead && p.top <= BUFFER_SIZE
    requires CanAnswer(pages, output) && AllProductive(events) && |events| >= Work(p)
    ensures var q := Run(p, pages, events); q.released && q.out.status != Dead
    decreases |events|
  {
    hide Inv, Next, CanAnswer, Work;
    if p.released {
      StaysReleased(p, pages, events);
    } else {
      WorkLeft(p);
      var e := events[0];
      assert IsProductive(e);
      ProductiveStep(p, output, pages, e);
      RunsToTheEnd(Next(p, pages, e), output, pages, events[1..]);
    }
  }

  lemma WorkLeft(p: Pipe)
    requires !p.released
    ensures Work(p) > 0
  {}

  lemma ProductiveStep(p: Pipe, output: seq<byte>, pages: Pages, e: Event)
    requires Inv(p, output, pages, true) == true && StopsReading(p) && p.out.status != Dead && !p.released
    requires CanAnswer(pages, output) && IsProductive(e) && p.top <= BUFFER_SIZE
    ensures var q := Next(p, pages, e);
            Inv(q, output, pages, true) == true && q.out.status != Dead && StopsReading(q) && Work(q) < Work(p)
  {
    hide Next, Work, Reaction, Parsing, Relaying, Answered, CanAnswer, Relays, Redirects;
    NextKeepsInv(p, output, pages, e, true);
    if Parsing(p, output) {
      ParsingWork(p, output, pages, e);
    } else if Relays(pages, output) {
      RelayingWork(p, Reaction(pages, output), pages, e);
    } else {
      AnsweredWork(p, Reaction(pages, output), pages, e);
    }
  }

  lemma {:induction false} StaysReleased(p: Pipe, pages: Pages, events: seq<Event>)
    requires p.released && p.top <= BUFFER_SIZE
    ensures Run(p, pages, events) == p
    decreases |events|
  {
    if events != [] {
      StaysReleased(p, pages, events[1..]);
    }
  }

  /**
    And it does arrive: a script that can be answered, served by enough reads and
    writes, is released without being dead and has sent all that it should.
   */
  lemma ScriptArrives(output: seq<byte>, pages: Pages, events: seq<Event>)
    requires CanAnswer(pages, output)
    requires AllProductive(events) && |events| >= 6 * |output| + 2 * BUFFER_SIZE + 6
    ensures var p := Run(StartCgi(output), pages, events);
            p.released && p.out.status != Dead && p.out.sent == Reaction(pages, output)
  {
    hide Reaction, Redirects, CanAnswer, Run;
    var p := StartCgi(output);
    assert Parsing(p, output);
    RunsToTheEnd(p, output, pages, events);
    ScriptRelayed(output, pages, events);
    assert Calm(events) by {
      forall e | e in events
        ensures IsCalm(e)
      {
        var i :| 0 <= i < |events| && events[i] == e;
        assert IsProductive(events[i]);
      }
    }
  }

  /**
    So the output of a script without a status field arrives in full behind the
    server header exactly if that header fits half the buffer, or else both fit
    the buffer and the bytes the header ran over were the same as its own.
   */
  lemma ScriptRelayedInFull(output: seq<byte>, pages: Pages, events: seq<Event>)
    requires IsRelayed(output) && !SaysStatus(output)
    requires var p := Run(StartCgi(output), pages, events); p.released && p.out.status != Dead
    ensures var h := Concat(pages.header);
            Run(StartCgi(output), pages, events).out.sent == h + output
            <==> |h| <= HALF || (|h| + |output| <= BUFFER_SIZE && Overlaid(h, output) == output)
  {
    hide HeaderEnds, SaysStatus, SaysLocation, Concat, Run;
    ScriptRelayed(output, pages, events);
    if Passes(Concat(pages.header), output) {
      WholeIffIntact(Concat(pages.header), output);
    } else {
      PageArrives(output, pages, events);
    }
  }

  /**
    A page in place of the output arrives in full exactly if it fits the buffer,
    which an error page that arrives does.
   */
  lemma PageArrives(output: seq<byte>, pages: Pages, events: seq<Event>)
    requires !Relays(pages, output)
    requires var p := Run(StartCgi(output), pages, events); p.released && p.out.status != Dead
    ensures !Redirects(output) ==> |Concat(pages.instead)| <= BUFFER_SIZE
    ensures !Redirects(output) || Calm(events) ==>
      (Run(StartCgi(output), pages, events).out.sent == Concat(pages.instead) <==>
        |Concat(pages.instead)| <= BUFFER_SIZE)
  {
    hide Relays, Redirects, Concat;
    var p0 := StartCgi(output);
    assert Parsing(p0, output);
    RunKeepsInv(p0, output, pages, events, Calm(events));
    KeptBounds(pages.instead);
  }

  /** A redirection whose first write fails is forgotten: the request is released as done with nothing sent. */
  lemma RedirectForgotten(output: seq<byte>, pages: Pages, io: Io)
    requires Redirects(output) && |output| <= HALF && 0 < |Concat(pages.instead)| <= BUFFER_SIZE
    ensures var events := [TurnWith(Io(Got(HALF), Wrote(1))), TurnWith(Io(Got(0), WriteFailed)), TurnWith(io)];
            var p := Run(StartCgi(output), pages, events);
            p.released && p.out.status == Done && p.out.sent == []
  {
    hide HeaderEnds, SaysStatus, SaysLocation, Concat, Turn;
    var e1, e2, e3 := TurnWith(Io(Got(HALF), Wrote(1))), TurnWith(Io(Got(0), WriteFailed)), TurnWith(io);
    assert [e1, e2, e3][1..] == [e2, e3] && [e2, e3][1..] == [e3] && [e3][1..] == [];
    var p0 := StartCgi(output);
    var p1 := p0.(region := output, source := [], top := HALF + |output|);
    ReadWhole(output, pages);
    var p2 := Next(p1, pages, e2);
    FailedRedirect(p1, output, pages);
    NothingLeft(p2, pages, io);
    assert Run(p0, pages, [e1, e2, e3]) == Run(p1, pages, [e2, e3]) == Run(p2, pages, [e3]) == Next(p2, pages, e3);
  }

  /** One read can bring a short output whole. */
  lemma ReadWhole(output: seq<byte>, pages: Pages)
    requires Redirects(output) && |output| <= HALF
    ensures Turn(StartCgi(output), pages, Io(Got(HALF), Wrote(1))) ==
            StartCgi(output).(region := output, source := [], top := HALF + |output|)
  {
    hide SaysStatus, SaysLocation, ProcessCgiHeader, WriteFromPipe;
    NoHeaderInNothing(output);
    assert output[..|output|] == output && [] + output == output && output[|output|..] == [];
  }

  lemma FailedRedirect(p: Pipe, output: seq<byte>, pages: Pages)
    requires Redirects(output) && |output| <= HALF && 0 < |Concat(pages.instead)| <= BUFFER_SIZE
    requires p == StartCgi(output).(region := output, source := [], top := HALF + |output|)
    ensures var q := Turn(p, pages, Io(Got(0), WriteFailed)); q.out == Out(Done, [], []) && !q.released
  {
    hide HasHeaderEnd, HeaderEnds, SaysStatus, SaysLocation, StartsWithNoCase, Concat;
    HeaderFound(output);
    FieldsFound(output);
    assert Examined(output) == output;
    var q := p.(out := p.out.(status := if p.top == BUFFER_SIZE then PipeRead else PipeWrite));
    KeptOf(q.out, Out(Write, [], []), pages.instead);
    KeptBounds(pages.instead);
    assert Flush(WrittenAll(q.out, pages.instead), WriteFailed).0 == Out(Dead, [], []);
  }

  lemma NothingLeft(p: Pipe, pages: Pages, io: Io)
    requires p.out == Out(Done, [], []) && !p.released
    requires p.top <= BUFFER_SIZE
    ensures Turn(p, pages, io) == p.(released := true)
  {}

  lemma NoHeaderInNothing(output: seq<byte>)
    requires Redirects(output)
    ensures output != []
  {}

  lemma WholeIffIntact(h: seq<byte>, output: seq<byte>)
    requires !SaysStatus(output) && Passes(h, output)
    ensures Expected(h, output) == h + output
            <==> |h| <= HALF || (|h| + |output| <= BUFFER_SIZE && Overlaid(h, output) == output)
  {
    assert output == Examined(output) + output[|Examined(output)|..];
    if |h| <= HALF {
      assert Expected(h, output) == h + output;
    } else {
      assert Examined(output) == output;
      assert Expected(h, output) == h + Overlaid(h, output);
      assert (h + Overlaid(h, output))[|h|..] == Overlaid(h, output) && (h + output)[|h|..] == output;
    }
  }

  lemma {:induction false} RunKeepsRelaying(p: Pipe, stream: seq<byte>, pages: Pages, events: seq<Event>)
    requires Relaying(p, stream) || Dying(p)
    ensures Relaying(Run(p, pages, events), stream) || Dying(Run(p, pages, events))
    decreases |events|
  {
    if events != [] {
      if Relaying(p, stream) && events[0].TurnWith? {
        RelayingStep(p, stream, pages, events[0].io);
      }
      RunKeepsRelaying(Next(p, pages, events[0]), stream, pages, events[1..]);
    }
  }

  lemma {:induction false} RelaysToTheEnd(p: Pipe, stream: seq<byte>, pages: Pages, events: seq<Event>)
    requires Relaying(p, stream) && StopsReading(p) && AllProductive(events) && |events| >= Work(p)
    ensures var q := Run(p, pages, events); q.released && q.out.status != Dead && q.out.sent == stream
    decreases |events|
  {
    hide Next, Work;
    if p.released {
      StaysReleased(p, pages, events);
    } else {
      WorkLeft(p);
      var e := events[0];
      assert IsProductive(e);
      RelayingWork(p, stream, pages, e);
      RelayingNext(p, stream, pages, e);
      RelaysToTheEnd(Next(p, pages, e), stream, pages, events[1..]);
    }
  }

  lemma RelayingNext(p: Pipe, stream: seq<byte>, pages: Pages, e: Event)
    requires Relaying(p, stream) && e.TurnWith?
    ensures Relaying(Next(p, pages, e), stream) || Dying(Next(p, pages, e))
  {
    RelayingStep(p, stream, pages, e.io);
  }

  /** A large file behind a header that fits arrives in full. */
  lemma FileArrives(header: seq<seq<byte>>, file: seq<byte>, n: nat, pages: Pages, events: seq<Event>)
    requires |Concat(header)| <= BUFFER_SIZE
    requires AllProductive(events) && |events| >= 6 * |file| + BUFFER_SIZE + 9
    ensures var p := Run(StartFile(header, file, Wrote(n)), pages, events);
            p.released && p.out.status != Dead && p.out.sent == Concat(header) + file
  {
    hide Concat, Run;
    var p := StartFile(header, file, Wrote(n));
    var o := WrittenAll(Out(Write, [], []), header);
    WrittenAllFits(Out(Write, [], []), header);
    assert Out(Write, [], []).pending + Concat(header) == Concat(header);
    FlushConserves(o.(status := PipeRead), Wrote(n));
    assert Stream(p) == p.out.sent + p.out.pending + [] + file == Concat(header) + file;
    RelaysToTheEnd(p, Concat(header) + file, pages, events);
  }

  /** A large file is delivered behind its header exactly when the header fits the buffer. */
  lemma FileRelayed(header: seq<seq<byte>>, file: seq<byte>, io: WriteResult, pages: Pages, events: seq<Event>)
    requires var p := Run(StartFile(header, file, io), pages, events); p.released && p.out.status != Dead
    ensures Run(StartFile(header, file, io), pages, events).out.sent == Concat(header) + file
            <==> |Concat(header)| <= BUFFER_SIZE
  {
    var o := WrittenAll(Out(Write, [], []), header);
    WrittenAllFits(Out(Write, [], []), header);
    assert Out(Write, [], []).pending + Concat(header) == Concat(header);
    var o1 := o.(status := PipeRead);
    var p0 := StartFile(header, file, io);
    if p0.out.status != Dead {
      FlushConserves(o1, io);
      calc {
        Stream(p0);
        p0.out.sent + p0.out.pending + [] + file;
        o.pending + file;
      }
    }
    RunKeepsRelaying(p0, o.pending + file, pages, events);
  }

  // ----- The request itself -----

  ghost function Meaning(req: Reply, released: bool): Pipe
    requires req.Valid()
    reads req, req.buffer
  {
    Pipe(req.Output(), req.Relay(), req.headerEnd, req.cgiStatus, req.source, released)
  }

  /** The request stands for `p`; held output that will never be used may have been overwritten. */
  ghost predicate Agrees(req: Reply, p: Pipe, released: bool, abandoned: bool)
    requires req.Valid()
    reads req, req.buffer
  {
    var m := Meaning(req, released);
    m == p || (abandoned && |m.region| == |p.region| && m.(region := p.region) == p)
  }

  /** Writes a page in place of the script's answer; what was held is not needed any more. */
  method Answer(req: Reply, page: seq<seq<byte>>, io: WriteResult)
    requires req.Valid() && req.bufferStart == 0
    modifies req`bufferStart, req`bufferEnd, req`status, req`sent, req.buffer
    ensures req.Valid()
    ensures req.Output() == Flush(WrittenAll(old(req.Output()), page), io).0
    ensures |req.Relay()| == |old(req.Relay())|
  {
    req.ReqWriteAll(page);
    var r := req.ReqFlush(io);
  }

  /** Overwrites the start of a status field, and the byte in front of it, with the protocol version. */
  method RewriteStatus(req: Reply)
    requires req.Valid() && 0 < req.headerLine && req.headerLine + 8 <= req.headerEnd && req.bufferEnd == 0
    modifies req`headerLine, req.buffer
    ensures req.Valid() && req.Output() == old(req.Output())
    ensures req.Relay() == HTTP_VERSION + old(req.Relay())[8..]
  {
    ghost var was, end := req.buffer[..], req.headerEnd;
    req.headerLine := req.headerLine - 1;
    req.Blit(req.headerLine, HTTP_VERSION);
    Blitted(was, req.headerLine, HTTP_VERSION, end, req.buffer[..]);
    assert req.buffer[req.headerLine..end] == req.buffer[..][req.headerLine..end];
    assert was[req.headerLine + 9..end] == was[req.headerLine + 1..end][8..];
  }

  /** A buffer after a copy, up to and from where the copied bytes begin. */
  lemma Blitted(was: seq<byte>, at: nat, bytes: seq<byte>, end: nat, now: seq<byte>)
    requires at + |bytes| <= end <= |was| && now == was[..at] + bytes + was[at + |bytes|..]
    ensures now[at..end] == bytes + was[at + |bytes|..end]
    ensures now[..at + |bytes|] == was[..at] + bytes
  {}

  /** Writes the server header at the front of the buffer, over held output if it is long. */
  method WriteHeader(req: Reply, pages: Pages)
    requires req.Valid() && req.bufferStart == req.bufferEnd == 0 && req.headerLine == HALF
    modifies req`bufferEnd, req`status, req.buffer
    ensures req.Valid()
    ensures req.Output() == WrittenAll(old(req.Output()), pages.header)
    ensures req.Relay() == Overlaid(req.Output().pending, old(req.Relay()))
  {
    hide Overlaid, WrittenAll;
    ghost var held, was := req.Relay(), req.buffer[..];
    req.ReqWriteAll(pages.header);
    ghost var h := req.Output().pending;
    forall i | 0 <= i < |held|
      ensures req.buffer[HALF + i] == Overlaid(h, held)[i]
    {
      OverlaidAt(h, held, i);
      assert held[i] == was[HALF + i];
      assert HALF + i < |h| ==> req.buffer[HALF + i] == h[HALF + i];
    }
    assert req.Relay() == Overlaid(h, held);
  }

  lemma OverlaidAt(header: seq<byte>, held: seq<byte>, i: nat)
    requires i < |held|
    ensures Overlaid(header, held)[i] == if HALF + i < |header| then header[HALF + i] else held[i]
  {}

  /**
    Writes the server header, moves the held output down until it touches it,
    and tries to send both; if the two do not fit, answers with a page.
   */
  method Merge(req: Reply, pages: Pages, io: WriteResult) returns (retval: int)
    requires req.Valid() && req.bufferStart == req.bufferEnd == 0 && req.headerLine == HALF
    modifies req`bufferStart, req`bufferEnd, req`status, req`sent, req`headerLine, req`headerEnd, req.buffer
    ensures req.Valid()
    ensures var o := WrittenAll(old(req.Output()), pages.header);
            if |o.pending| + |old(req.Relay())| > BUFFER_SIZE
            then && retval == 0 && req.headerEnd == old(req.headerEnd) && req.headerLine == old(req.headerLine)
                 && req.Output() == Flush(WrittenAll(o.(pending := []), pages.instead), io).0
            else var o1 := o.(pending := o.pending + Overlaid(o.pending, old(req.Relay())));
                 && retval == 1
                 && req.Output() == Flush(o1, io).0 && req.Relay() == [] && req.headerEnd == |o1.pending|
  {
    hide WrittenAll, Overlaid, Flush;
    WriteHeader(req, pages);
    ghost var header, held := req.Output(), req.Relay();
    var howmuch := req.headerEnd - req.headerLine;
    if req.bufferEnd + howmuch > BUFFER_SIZE {
      req.bufferEnd := 0;
      assert req.Output() == header.(pending := []);
      Answer(req, pages.instead, io);
      return 0;
    }
    req.Blit(req.bufferEnd, req.buffer[req.headerLine..req.headerEnd]);
    assert req.buffer[..req.bufferEnd + howmuch] == header.pending + held;
    req.bufferEnd := req.bufferEnd + howmuch;
    req.headerLine := req.bufferEnd;
    req.headerEnd := req.headerLine;
    var r := req.ReqFlush(io);
    return 1;
  }

  /** `process_cgi_header`. */
  method ProcessCgiHeaderStep(req: Reply, pages: Pages, io: WriteResult) returns (retval: int)
    requires req.Valid() && req.bufferStart == req.bufferEnd == 0 && req.headerLine == HALF && req.status != Dead
    modifies req, req.buffer
    ensures req.Valid()
    ensures req.source == old(req.source) && req.filesize == old(req.filesize) && req.filepos == old(req.filepos)
    ensures var (p, r) := ProcessCgiHeader(old(Meaning(req, false)), pages, io);
            retval == r && Agrees(req, p, false, retval == 0 || req.status in {Done, Dead})
  {
    hide HeaderProcessed;
    if req.cgiStatus != CgiDone {
      req.cgiStatus := CgiBuffer;
    }
    ghost var buf := req.Relay();
    req.buffer[req.headerEnd] := 0;
    assert req.Relay() == buf && req.Output() == old(req.Output());
    retval := ProcessHeader(req, pages, io);
  }

  /** The four kinds of header. */
  method ProcessHeader(req: Reply, pages: Pages, io: WriteResult) returns (retval: int)
    requires req.Valid() && req.bufferStart == req.bufferEnd == 0 && req.headerLine == HALF && req.status != Dead
    modifies req`bufferStart, req`bufferEnd, req`status, req`sent, req`headerLine, req`headerEnd, req.buffer
    ensures req.Valid()
    ensures var (p, r) := HeaderProcessed(old(Meaning(req, false)), pages, io);
            retval == r && Agrees(req, p, false, retval == 0 || req.status in {Done, Dead})
  {
    hide WrittenAll, Overlaid, Flush, HasHeaderEnd, StartsWithNoCase;
    ghost var p := Meaning(req, false);
    var buf := req.buffer[req.headerLine..req.headerEnd];
    if !HasHeaderEnd(buf) {
      Answer(req, pages.instead, io);
      assert Meaning(req, false).(region := p.region) == AnswerInstead(p, pages, io);
      return 0;
    } else if StartsWithNoCase(buf, STATUS_FIELD) {
      Starts(buf);
      RewriteStatus(req);
      assert Meaning(req, false) == p.(region := HTTP_VERSION + p.region[8..]);
      return 1;
    } else if StartsWithNoCase(buf, LOCATION_FIELD) {
      Answer(req, pages.instead, io);
      assert Meaning(req, false).(region := p.region) == AnswerInstead(p, pages, io);
      req.status := Done;
      return 1;
    } else {
      retval := Merge(req, pages, io);
    }
  }

  /** `read_from_pipe`. */
  method ReadFromPipeStep(req: Reply, pages: Pages, io: Io) returns (retval: int)
    requires req.Valid() && req.bufferEnd == 0 && req.status == PipeRead
    requires req.cgiStatus == CgiParse ==> req.headerLine == HALF
    modifies req, req.buffer
    ensures req.Valid()
    ensures var (p, r) := ReadFromPipe(old(Meaning(req, false)), pages, io);
            retval == r && Agrees(req, p, false, retval == 0 || req.status in {Done, Dead})
  {
    var bytesToRead := BUFFER_SIZE - req.headerEnd;
    if bytesToRead == 0 {
      if req.cgiStatus == CgiParse {
        req.cgiStatus := CgiBuffer;
        retval := ProcessCgiHeaderStep(req, pages, io.write);
        return retval;
      }
      req.status := PipeWrite;
      return 1;
    }
    match io.read {
      case ReadInterrupted =>
        return 1;
      case ReadBlocked =>
        return -1;
      case ReadFailed =>
        req.status := Dead;
        return 0;
      case Got(n) =>
        var bytesRead := Min(n + 1, Min(bytesToRead, |req.source|));
        if bytesRead == 0 {
          req.status := PipeWrite;
          if req.cgiStatus == CgiParse {
            req.cgiStatus := CgiDone;
            retval := ProcessCgiHeaderStep(req, pages, io.write);
            return retval;
          }
          req.cgiStatus := CgiDone;
          return 1;
        }
        Receive(req, bytesRead);
        return 1;
    }
  }

  /** A `read` of some bytes behind the held output. */
  method Receive(req: Reply, n: nat)
    requires req.Valid() && req.bufferEnd == 0 && n <= |req.source| && req.headerEnd + n <= BUFFER_SIZE
    modifies req`headerEnd, req`source, req.buffer
    ensures req.Valid() && req.Output() == old(req.Output())
    ensures req.Relay() == old(req.Relay()) + old(req.source)[..n]
    ensures req.source == old(req.source)[n..] && req.headerEnd == old(req.headerEnd) + n
  {
    ghost var held := req.Relay();
    req.Blit(req.headerEnd, req.source[..n]);
    assert req.buffer[req.headerLine..req.headerEnd + n] == held + req.source[..n];
    req.source := req.source[n..];
    req.headerEnd := req.headerEnd + n;
  }

  lemma Parts(buffer: seq<byte>, from: nat, to: nat, k: nat)
    requires from + k <= to <= |buffer|
    ensures buffer[from..to][..k] == buffer[from..from + k] && buffer[from..to][k..] == buffer[from + k..to]
  {}

  /** `write_from_pipe`. */
  method WriteFromPipeStep(req: Reply, io: WriteResult) returns (retval: int)
    requires req.Valid() && req.bufferEnd == 0
    modifies req
    ensures req.Valid()
    ensures (Meaning(req, false), retval) == WriteFromPipe(old(Meaning(req, false)), io)
  {
    var bytesToWrite := req.headerEnd - req.headerLine;
    if bytesToWrite == 0 {
      if req.cgiStatus == CgiDone {
        return 0;
      }
      req.status := PipeRead;
      req.headerLine, req.headerEnd := 0, 0;
      return 1;
    }
    match io {
      case WriteBlocked =>
        return -1;
      case WriteInterrupted =>
        return 1;
      case WriteFailed =>
        req.status := Dead;
        return 0;
      case Wrote(n) =>
        var k := Min(n, bytesToWrite);
        Parts(req.buffer[..], req.headerLine, req.headerEnd, k);
        req.sent := req.sent + req.buffer[req.headerLine..req.headerLine + k];
        req.headerLine := req.headerLine + k;
        return 1;
    }
  }

  /** What the event loop makes of a handler's result: a finished request is released unless output is left. */
  method Settle(req: Reply, retval: int, ghost p: Pipe) returns (released: bool)
    requires req.Valid() && !p.released
    requires Agrees(req, p, false, retval == 0 || req.status in {Done, Dead})
    modifies req`status
    ensures req.Valid()
    ensures Agrees(req, if retval == 0 then Finish(p) else p, released, released || req.status in {Done, Dead})
    ensures !released ==> req.status == old(req.status) || req.status == Done
  {
    released := false;
    assert req.Output() == p.out;
    if retval == 0 {
      if req.bufferEnd != 0 && req.status != Dead {
        req.status := Done;
      } else {
        released := true;
      }
    }
  }

  method FlushStep(req: Reply, io: WriteResult) returns (r: FlushResult)
    requires req.Valid()
    modifies req`bufferStart, req`bufferEnd, req`status, req`sent
    ensures req.Valid()
    ensures var (o, r') := Flush(old(req.Output()), io);
            r == r' && Meaning(req, false) == old(Meaning(req, false)).(out := o)
  {
    r := req.ReqFlush(io);
  }

  /** One turn of the request in the event loop, up to the point where it is released. */
  method TurnStep(req: Reply, pages: Pages, io: Io) returns (released: bool)
    requires req.Valid() && req.status in {PipeRead, PipeWrite, Done, Dead}
    requires req.cgiStatus == CgiParse ==> req.headerLine == HALF
    modifies req, req.buffer
    ensures req.Valid()
    ensures Agrees(req, Turn(old(Meaning(req, false)), pages, io), released, released || req.status in {Done, Dead})
  {
    var retval;
    ghost var p := Meaning(req, false);
    if req.bufferEnd != 0 && req.status != Dead && req.status != Done {
      p := p.(out := Flush(p.out, io.write).0);
      var r := FlushStep(req, io.write);
      retval := if r == FlushError then 0 else if r == FlushBlocked then -1 else 1;
    } else if req.status == PipeRead {
      p := ReadFromPipe(p, pages, io).0;
      retval := ReadFromPipeStep(req, pages, io);
    } else if req.status == PipeWrite {
      p := WriteFromPipe(p, io.write).0;
      retval := WriteFromPipeStep(req, io.write);
    } else if req.status == Dead {
      p := p.(out := p.out.(pending := []));
      retval := 0;
      req.bufferStart, req.bufferEnd := 0, 0;
    } else {
      p := p.(out := Flush(p.out, io.write).0);
      var r := FlushStep(req, io.write);
      retval := if r == FlushError || r == Flushed(false) then 0 else if r == FlushBlocked then -1 else 1;
    }
    released := Settle(req, retval, p);
  }

  /** A request on its way: one that still parses holds what it has read from the middle of the buffer on. */
  ghost predicate OnItsWay(p: Pipe) {
    && |p.region| <= p.top <= BUFFER_SIZE
    && p.out.status in {PipeRead, PipeWrite, Done, Dead}
    && (p.cgi == CgiParse ==> p.top == HALF + |p.region| && p.out.status in {PipeRead, Dead})
  }

  lemma NextIsOnItsWay(p: Pipe, pages: Pages, e: Event)
    requires OnItsWay(p)
    ensures Next(p, pages, e).released || OnItsWay(Next(p, pages, e))
  {
    hide ProcessCgiHeader;
    if e.TurnWith? && !p.released && p.cgi == CgiParse && p.out.status == PipeRead {
      HeaderIsOnItsWay(p.(cgi := CgiBuffer), pages, e.io.write);
      HeaderIsOnItsWay(p.(out := p.out.(status := PipeWrite), cgi := CgiDone), pages, e.io.write);
    }
  }

  lemma HeaderIsOnItsWay(p: Pipe, pages: Pages, io: WriteResult)
    requires p.top == HALF + |p.region| <= BUFFER_SIZE && p.cgi != CgiParse && p.out.status in {PipeRead, PipeWrite}
    ensures var q := ProcessCgiHeader(p, pages, io).0; OnItsWay(q) && q.cgi != CgiParse
  {
    hide HasHeaderEnd, StartsWithNoCase, WrittenAll, Overlaid, AnswerInstead;
    AnswerStatus(p, pages, io);
    if StartsWithNoCase(p.region, STATUS_FIELD) {
      Starts(p.region);
    } else {
      KeptOf(p.out, p.out, pages.header);
      AnswerStatus(p.(out := WrittenAll(p.out, pages.header).(pending := [])), pages, io);
    }
  }

  lemma AnswerStatus(p: Pipe, pages: Pages, io: WriteResult)
    ensures var q := AnswerInstead(p, pages, io);
            q == p.(out := q.out) && q.out.status in {p.out.status, Dead}
  {
    KeptOf(p.out, p.out, pages.instead);
  }

  /** Held output has no say in what becomes of a request that is done or dead. */
  lemma HeldIsAbandoned(p: Pipe, held: seq<byte>, pages: Pages, e: Event)
    requires p.top <= BUFFER_SIZE && (p.released || p.out.status in {Done, Dead})
    ensures Next(p.(region := held), pages, e) == Next(p, pages, e).(region := held)
    ensures var q := Next(p, pages, e); q.region == p.region && (q.released || q.out.status in {Done, Dead})
  {}

  /** One event; a request that has been released is left alone. */
  method EventStep(req: Reply, pages: Pages, e: Event, wasReleased: bool, ghost p: Pipe) returns (released: bool)
    requires req.Valid() && (wasReleased || OnItsWay(Meaning(req, false)))
    requires p.top <= BUFFER_SIZE
    requires Agrees(req, p, wasReleased, wasReleased || req.status in {Done, Dead})
    modifies req, req.buffer
    ensures req.Valid() && (released || OnItsWay(Meaning(req, false)))
    ensures Agrees(req, Next(p, pages, e), released, released || req.status in {Done, Dead})
  {
    released := wasReleased;
    ghost var m := Meaning(req, released);
    if m != p {
      HeldIsAbandoned(m, p.region, pages, e);
    }
    if !released {
      NextIsOnItsWay(m, pages, e);
      match e {
        case TurnWith(io) => released := TurnStep(req, pages, io);
        case TimeOut => req.status := Dead;
      }
    }
  }

  /** The request's turns, and a timeout at any moment, until it is released. */
  method RunSteps(req: Reply, pages: Pages, events: seq<Event>) returns (released: bool)
    requires req.Valid() && OnItsWay(Meaning(req, false))
    modifies req, req.buffer
    ensures req.Valid()
    ensures Agrees(req, Run(old(Meaning(req, false)), pages, events), released, released || req.status in {Done, Dead})
  {
    hide Next, OnItsWay;
    released := false;
    ghost var start := Meaning(req, false);
    ghost var p := start;
    assert events[0..] == events;
    for i := 0 to |events|
      invariant req.Valid() && (released || OnItsWay(Meaning(req, false)) == true)
      invariant start.top <= BUFFER_SIZE && p.top <= BUFFER_SIZE
      invariant Agrees(req, p, released, released || req.status in {Done, Dead})
      invariant Run(start, pages, events) == Run(p, pages, events[i..])
    {
      assert events[i..][0] == events[i] && events[i..][1..] == events[i + 1..];
      released := EventStep(req, pages, events[i], released, p);
      p := Next(p, pages, events[i]);
    }
  }

  /** A script is served: its output arrives, or a page in its place. */
  method ServeScript(req: Reply, output: seq<byte>, pages: Pages, events: seq<Event>) returns (released: bool)
    requires req.Valid() && Meaning(req, false) == StartCgi(output)
    modifies req, req.buffer
    ensures req.Valid()
    ensures var stream := Reaction(pages, output);
            req.status != Dead ==>
              && req.sent <= stream
              && (released ==> req.sent == stream || (Redirects(output) && !Calm(events) && req.sent == []))
  {
    hide Run, Reaction, Redirects;
    released := RunSteps(req, pages, events);
    ScriptRelayed(output, pages, events);
    assert req.Output() == Run(StartCgi(output), pages, events).out;
  }
}
