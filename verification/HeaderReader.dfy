/**
  Reading request headers: the byte-at-a-time status machine of `read_header`,
  fed by reads of any size, and the hand-over of unread bytes to the next
  request of a kept-alive connection.

  The reference is declarative: where a header block ends, and what its lines
  are, is said of the byte stream itself.
 */
module HeaderReader {
  import opened Common
  import opened RequestQueues

  // ----- The reference -----

  /** A line feed, carriage returns only, and the line feed just before `e`. */
  ghost predicate EndsHeader(s: seq<byte>, e: nat) {
    exists k: nat :: BlankLine(s, k, e)
  }

  ghost predicate BlankLine(s: seq<byte>, k: nat, e: nat) {
    && k + 1 < e <= |s|
    && s[k] == LF && s[e - 1] == LF
    && forall j :: k < j < e - 1 ==> s[j] == CR
  }

  /** The header block of `s` is its first `e` bytes. */
  ghost predicate HeaderEndsAt(s: seq<byte>, e: nat) {
    EndsHeader(s, e) && forall d: nat :: d < e ==> !EndsHeader(s, d)
  }

  /** The bytes after the last line feed. */
  ghost function Tail(s: seq<byte>): (t: seq<byte>)
    ensures |t| <= |s| && s[|s| - |t|..] == t
  {
    if s == [] || s[|s| - 1] == LF then [] else Tail(s[..|s| - 1]) + [s[|s| - 1]]
  }

  lemma {:induction false} TailIsTail(s: seq<byte>)
    ensures LF !in Tail(s)
    ensures |Tail(s)| < |s| ==> s[|s| - |Tail(s)| - 1] == LF
  {
    if s != [] && s[|s| - 1] != LF {
      TailIsTail(s[..|s| - 1]);
    }
  }

  ghost function StripCr(s: seq<byte>): (t: seq<byte>)
    ensures t <= s
  {
    if s == [] || s[|s| - 1] != CR then s else StripCr(s[..|s| - 1])
  }

  /** Stripping leaves nothing exactly when there is nothing but carriage returns. */
  lemma {:induction false} StripCrEmpty(s: seq<byte>)
    ensures StripCr(s) == [] <==> forall j :: 0 <= j < |s| ==> s[j] == CR
  {
    if s != [] {
      var t := s[..|s| - 1];
      StripCrEmpty(t);
      assert forall j :: 0 <= j < |t| ==> s[j] == t[j];
    }
  }

  /** The complete lines of `s`, each without its trailing carriage returns. */
  ghost function Lines(s: seq<byte>): seq<seq<byte>> {
    if s == [] then []
    else if s[|s| - 1] == LF then Lines(s[..|s| - 1]) + [StripCr(Tail(s[..|s| - 1]))]
    else Lines(s[..|s| - 1])
  }

  // ----- The machine -----

  /** What the line handlers decide: carry on, refuse, or answer at once (a simple request). */
  datatype Verdict = Proceed | Refuse | Simple

  datatype Outcome = Scanning | Ended | Refused | Answered

  ghost function OutcomeOf(v: Verdict): Outcome {
    match v
    case Proceed => Scanning
    case Refuse => Refused
    case Simple => Answered
  }

  /**
    The first `e` bytes settle what becomes of the request: its header ends, or
    a line is refused or answered at once.
   */
  ghost predicate Settles(s: seq<byte>, e: nat, handle: seq<seq<byte>> -> Verdict) {
    0 < e <= |s| && s[e - 1] == LF && (EndsHeader(s, e) || handle(Lines(s[..e])) != Proceed)
  }

  ghost predicate NothingSettles(s: seq<byte>, n: nat, handle: seq<seq<byte>> -> Verdict) {
    forall e: nat :: e <= n ==> !Settles(s, e, handle)
  }

  ghost predicate SettlesFirst(s: seq<byte>, e: nat, handle: seq<seq<byte>> -> Verdict) {
    Settles(s, e, handle) && forall d: nat :: d < e ==> !Settles(s, d, handle)
  }

  /** `headerLine` and `headerEnd` are offsets into the stream. */
  datatype Scan = Scan(status: Status, headerLine: nat, headerEnd: nat, lines: seq<seq<byte>>, outcome: Outcome)

  const START := Scan(ReadHeader, 0, 0, [], Scanning)

  function NextStatus(st: Status, c: byte): Status {
    match st
    case ReadHeader => if c == CR then OneCr else if c == LF then OneLf else ReadHeader
    case OneCr => if c == LF then OneLf else if c == CR then OneCr else ReadHeader
    case OneLf => if c == CR then TwoCr else if c == LF then BodyRead else ReadHeader
    case TwoCr => if c == LF then BodyRead else if c == CR then TwoCr else ReadHeader
    case _ => st
  }

  /** Scans the byte at offset `i`; `handle` sees all the lines delivered so far. */
  ghost function ScanByte(p: Scan, s: seq<byte>, i: nat, handle: seq<seq<byte>> -> Verdict): Scan
    requires i < |s|
  {
    var st := NextStatus(p.status, s[i]);
    var end := if p.status == ReadHeader && (s[i] == CR || s[i] == LF) then i else p.headerEnd;
    if st == OneLf then
      var line := if p.headerLine <= end <= i then s[p.headerLine..end] else [];
      var lines := p.lines + [line];
      var v := handle(lines);
      Scan(st, if v == Proceed then i + 1 else p.headerLine, end, lines, OutcomeOf(v))
    else
      Scan(st, p.headerLine, end, p.lines, if st == BodyRead then Ended else Scanning)
  }

  /** The machine after `n` bytes; it stops where its outcome is decided. */
  ghost function ScanTo(s: seq<byte>, n: nat, handle: seq<seq<byte>> -> Verdict): Scan
    requires n <= |s|
    decreases n
  {
    if n == 0 then START
    else
      var p := ScanTo(s, n - 1, handle);
      if p.outcome == Scanning then ScanByte(p, s, n - 1, handle) else p
  }

  // ----- The machine meets the reference -----

  /**
    What each status says about the bytes `s` scanned so far, given their last
    part `t`, and `u`, that part stripped.
   */
  ghost predicate Meets(p: Scan, s: seq<byte>, t: seq<byte>, u: seq<byte>, lines: seq<seq<byte>>) {
    && |t| <= |s| && s[|s| - |t|..] == t && u <= t
    && p.headerLine == |s| - |t|
    && p.lines == lines
    && match p.status
       case ReadHeader => u == t && (t == [] ==> s == [])
       case OneCr => |u| < |t| && p.headerEnd == p.headerLine + |u| && (u == [] ==> p.headerLine == 0)
       case OneLf => t == [] && s != []
       case TwoCr => t != [] && u == [] && p.headerLine > 0
       case _ => false
  }

  lemma LineFeedMeets(p: Scan, s: seq<byte>, t: seq<byte>, u: seq<byte>, ls: seq<seq<byte>>,
                      handle: seq<seq<byte>> -> Verdict)
    requires p.outcome == Scanning && Meets(p, s, t, u, ls)
    ensures var p' := ScanByte(p, s + [LF], |s|, handle);
            && (p'.outcome == Ended <==> u == [] && |t| < |s|)
            && (p'.outcome == Ended ==> p'.lines == ls)
            && (p'.outcome == Scanning ==> MeetsNext(p', s, LF, t, u, ls))
            && (!(u == [] && |t| < |s|) ==> p'.lines == ls + [u] && p'.outcome == OutcomeOf(handle(ls + [u])))
  {
    assert (s + [LF])[p.headerLine..|s|] == t;
    assert (s + [LF])[p.headerLine..p.headerLine + |u|] == u;
  }

  lemma CharacterMeets(p: Scan, s: seq<byte>, t: seq<byte>, u: seq<byte>, ls: seq<seq<byte>>, c: byte,
                       handle: seq<seq<byte>> -> Verdict)
    requires p.outcome == Scanning && Meets(p, s, t, u, ls) && c != LF
    ensures var p' := ScanByte(p, s + [c], |s|, handle); p'.outcome == Scanning && MeetsNext(p', s, c, t, u, ls)
  {
    assert (s + [c])[p.headerLine..] == t + [c];
  }

  /** One byte: either the block ends here, or a line is delivered, or the scan goes on. */
  lemma ScanByteMeets(p: Scan, s: seq<byte>, t: seq<byte>, u: seq<byte>, ls: seq<seq<byte>>, c: byte,
                      handle: seq<seq<byte>> -> Verdict)
    requires p.outcome == Scanning && Meets(p, s, t, u, ls) == true
    ensures var p' := ScanByte(p, s + [c], |s|, handle);
            && (p'.outcome == Ended <==> c == LF && u == [] && |t| < |s|)
            && (p'.outcome == Ended ==> p'.lines == ls)
            && (p'.outcome == Scanning ==> MeetsNext(p', s, c, t, u, ls))
            && (c != LF ==> p'.outcome == Scanning)
            && (c == LF && !(u == [] && |t| < |s|) ==>
              p'.lines == ls + [u] && p'.outcome == OutcomeOf(handle(ls + [u])))
  {
    hide *;
    if c == LF {
      LineFeedMeets(p, s, t, u, ls, handle);
    } else {
      CharacterMeets(p, s, t, u, ls, c, handle);
    }
  }

  /** How the reference moves with one more byte. */
  lemma Snoc(s: seq<byte>, c: byte)
    ensures c == LF ==> Tail(s + [c]) == [] && Lines(s + [c]) == Lines(s) + [StripCr(Tail(s))]
    ensures c != LF ==> Tail(s + [c]) == Tail(s) + [c] && Lines(s + [c]) == Lines(s)
    ensures c != LF ==> StripCr(Tail(s) + [c]) == if c == CR then StripCr(Tail(s)) else Tail(s) + [c]
  {
    assert (s + [c])[..|s|] == s;
    assert (Tail(s) + [c])[..|Tail(s)|] == Tail(s);
  }

  /** Where the last line feed is, when it is known what follows it. */
  lemma {:induction false} TailAfter(s: seq<byte>, k: nat)
    requires k < |s| && s[k] == LF && forall j :: k < j < |s| ==> s[j] != LF
    ensures Tail(s) == s[k + 1..]
  {
    if k + 1 < |s| {
      var b := s[..|s| - 1];
      TailAfter(b, k);
      assert s[k + 1..] == b[k + 1..] + [s[|s| - 1]];
    }
  }

  lemma BlankLineMade(s: seq<byte>)
    requires StripCr(Tail(s)) == [] && |Tail(s)| < |s|
    ensures EndsHeader(s + [LF], |s| + 1)
  {
    var t := Tail(s);
    var k := |s| - |t| - 1;
    StripCrEmpty(t);
    TailIsTail(s);
    forall j | k < j < |s|
      ensures s[j] == CR
    {
      assert s[j] == s[k + 1..][j - k - 1];
    }
    assert BlankLine(s + [LF], k, |s| + 1);
  }

  lemma BlankLineNeeded(s: seq<byte>, c: byte)
    requires EndsHeader(s + [c], |s| + 1)
    ensures c == LF && StripCr(Tail(s)) == [] && |Tail(s)| < |s|
  {
    var x := s + [c];
    var k: nat :| BlankLine(x, k, |s| + 1);
    assert x[|s|] == c && x[k] == s[k];
    assert forall j :: k < j < |s| ==> s[j] == x[j] == CR;
    TailAfter(s, k);
    StripCrEmpty(s[k + 1..]);
  }

  /** A blank line ends at `|s| + 1` exactly when the bytes since the last line feed are carriage returns. */
  lemma BlankLineAt(s: seq<byte>, c: byte)
    ensures EndsHeader(s + [c], |s| + 1) <==> c == LF && StripCr(Tail(s)) == [] && |Tail(s)| < |s|
  {
    if EndsHeader(s + [c], |s| + 1) {
      BlankLineNeeded(s, c);
    } else if c == LF && StripCr(Tail(s)) == [] && |Tail(s)| < |s| {
      BlankLineMade(s);
    }
  }

  lemma EndsHeaderPrefix(s: seq<byte>, n: nat, e: nat)
    requires e <= n <= |s|
    ensures EndsHeader(s[..n], e) <==> EndsHeader(s, e)
  {
    if EndsHeader(s, e) {
      var k: nat :| BlankLine(s, k, e);
      assert BlankLine(s[..n], k, e);
    }
    if EndsHeader(s[..n], e) {
      var k: nat :| BlankLine(s[..n], k, e);
      assert BlankLine(s, k, e);
    }
  }

  /** No header has ended within the first `n` bytes. */
  ghost predicate NoHeaderBy(s: seq<byte>, n: nat) {
    forall e: nat :: e <= n ==> !EndsHeader(s, e)
  }

  /** Where the machine is after `n` bytes, said of the stream. */
  ghost predicate AgreesAt(p: Scan, s: seq<byte>, n: nat)
    requires n <= |s|
  {
    var b := s[..n];
    && (p.outcome == Scanning ==> Meets(p, b, Tail(b), StripCr(Tail(b)), Lines(b)) && NoHeaderBy(s, n))
    && (p.outcome == Ended ==> exists e: nat :: 0 < e <= n && HeaderEndsAt(s, e) && p.lines == Lines(s[..e - 1]))
  }

  /**
    The machine agrees with the reference on every stream and at every point:
    while it scans no header has ended and it has delivered the complete lines;
    it ends exactly at the header's end.
   */
  lemma {:induction false} ScanMeetsReference(s: seq<byte>, n: nat, handle: seq<seq<byte>> -> Verdict)
    requires n <= |s|
    ensures AgreesAt(ScanTo(s, n, handle), s, n)
    decreases n
  {
    if n == 0 {
      assert s[..0] == [];
    } else {
      ScanMeetsReference(s, n - 1, handle);
      var p := ScanTo(s, n - 1, handle);
      if p.outcome == Scanning {
        ScanNext(p, s, n, handle);
      }
    }
  }

  lemma ScanNext(p: Scan, s: seq<byte>, n: nat, handle: seq<seq<byte>> -> Verdict)
    requires 0 < n <= |s| && p.outcome == Scanning && AgreesAt(p, s, n - 1) == true
    ensures AgreesAt(ScanByte(p, s, n - 1, handle), s, n) == true
  {
    hide ScanByte, Meets, AgreesAt, EndsHeader;
    var b := s[..n - 1];
    AgreesMeets(p, s, n - 1);
    NextMeets(p, s, n, Tail(b), StripCr(Tail(b)), Lines(b), handle);
  }

  lemma AgreesMeets(p: Scan, s: seq<byte>, n: nat)
    requires n <= |s| && p.outcome == Scanning && AgreesAt(p, s, n)
    ensures Meets(p, s[..n], Tail(s[..n]), StripCr(Tail(s[..n])), Lines(s[..n])) == true && NoHeaderBy(s, n) == true
  {}

  lemma NextMeets(p: Scan, s: seq<byte>, n: nat, t: seq<byte>, u: seq<byte>, ls: seq<seq<byte>>,
                  handle: seq<seq<byte>> -> Verdict)
    requires 0 < n <= |s| && p.outcome == Scanning && NoHeaderBy(s, n - 1) == true
    requires t == Tail(s[..n - 1]) && u == StripCr(t) && ls == Lines(s[..n - 1]) &&
      Meets(p, s[..n - 1], t, u, ls) == true
    ensures AgreesAt(ScanByte(p, s, n - 1, handle), s, n) == true
  {
    hide ScanByte, Meets, EndsHeader, NoHeaderBy, Tail, StripCr, Lines;
    var b, c := s[..n - 1], s[n - 1];
    var p' := ScanByte(p, s, n - 1, handle);
    SameScan(p, s, n, handle);
    assert b + [c] == s[..n];
    ScanByteMeets(p, b, t, u, ls, c, handle);
    EndsHereIff(s, n, t, u);
    if p'.outcome == Ended {
      EndedAgrees(p', s, n);
    } else if p'.outcome == Scanning {
      MeetsReference(p', b, c, t, u, ls);
      ScanningAgrees(p', s, n);
    }
  }

  lemma EndedAgrees(p': Scan, s: seq<byte>, n: nat)
    requires 0 < n <= |s| && NoHeaderBy(s, n - 1) == true && EndsHeader(s, n) == true
    requires p'.outcome == Ended && p'.lines == Lines(s[..n - 1])
    ensures AgreesAt(p', s, n) == true
  {
    FirstHeaderEnd(s, n);
  }

  lemma ScanningAgrees(p': Scan, s: seq<byte>, n: nat)
    requires 0 < n <= |s| && NoHeaderBy(s, n - 1) == true && EndsHeader(s, n) == false && p'.outcome == Scanning
    requires Meets(p', s[..n], Tail(s[..n]), StripCr(Tail(s[..n])), Lines(s[..n])) == true
    ensures AgreesAt(p', s, n) == true
  {
    NoHeaderYet(s, n);
  }

  lemma FirstHeaderEnd(s: seq<byte>, n: nat)
    requires n > 0 && NoHeaderBy(s, n - 1) == true && EndsHeader(s, n) == true
    ensures HeaderEndsAt(s, n)
  {}

  lemma NoHeaderYet(s: seq<byte>, n: nat)
    requires n > 0 && NoHeaderBy(s, n - 1) == true && EndsHeader(s, n) == false
    ensures NoHeaderBy(s, n)
  {
    forall e: nat | e <= n
      ensures !EndsHeader(s, e)
    {
      assert e == n || e <= n - 1;
    }
  }

  lemma MeetsReference(p': Scan, b: seq<byte>, c: byte, t: seq<byte>, u: seq<byte>, ls: seq<seq<byte>>)
    requires t == Tail(b) && u == StripCr(t) && ls == Lines(b) && MeetsNext(p', b, c, t, u, ls)
    ensures Meets(p', b + [c], Tail(b + [c]), StripCr(Tail(b + [c])), Lines(b + [c])) == true
  {
    Snoc(b, c);
    if c == LF {
      assert StripCr([]) == [];
    }
  }

  ghost predicate MeetsNext(p': Scan, b: seq<byte>, c: byte, t: seq<byte>, u: seq<byte>, ls: seq<seq<byte>>) {
    if c == LF then Meets(p', b + [c], [], [], ls + [u])
    else Meets(p', b + [c], t + [c], if c == CR then u else t + [c], ls)
  }

  lemma EndsHereIff(s: seq<byte>, n: nat, t: seq<byte>, u: seq<byte>)
    requires 0 < n <= |s| && t == Tail(s[..n - 1]) && u == StripCr(t)
    ensures EndsHeader(s, n) <==> s[n - 1] == LF && u == [] && |t| < n - 1
  {
    assert s[..n - 1] + [s[n - 1]] == s[..n];
    BlankLineAt(s[..n - 1], s[n - 1]);
    EndsHeaderPrefix(s, n, n);
  }

  /** Scanning a byte looks no further than that byte. */
  lemma SameScan(p: Scan, s: seq<byte>, n: nat, handle: seq<seq<byte>> -> Verdict)
    requires 0 < n <= |s|
    ensures ScanByte(p, s, n - 1, handle) == ScanByte(p, s[..n], n - 1, handle)
  {
    var end := if p.status == ReadHeader && (s[n - 1] == CR || s[n - 1] == LF) then n - 1 else p.headerEnd;
    if p.headerLine <= end <= n - 1 {
      assert s[p.headerLine..end] == s[..n][p.headerLine..end];
    }
  }

  /** What the machine's state `p` after `n` bytes says about the `n`-th. */
  ghost predicate JudgesRight(p: Scan, s: seq<byte>, n: nat, handle: seq<seq<byte>> -> Verdict)
    requires 0 < n <= |s|
  {
    && (p.outcome == Scanning <==> !Settles(s, n, handle))
    && (p.outcome == Ended <==> EndsHeader(s, n))
    && (p.outcome == Ended ==> p.lines == Lines(s[..n - 1]))
  }

  /** Each byte settles the request for the machine exactly if it does so for the reference. */
  lemma ByteSettles(s: seq<byte>, n: nat, handle: seq<seq<byte>> -> Verdict)
    requires 0 < n <= |s| && ScanTo(s, n - 1, handle).outcome == Scanning
    ensures JudgesRight(ScanTo(s, n, handle), s, n, handle) == true
  {
    hide *;
    var b := s[..n - 1];
    var t, u, ls := Tail(b), StripCr(Tail(b)), Lines(b);
    ScanStep(s, n - 1, handle);
    ScanningMeets(s, n - 1, handle);
    LinesNext(s, n);
    ByteOutcome(ScanTo(s, n - 1, handle), s, n, t, u, ls, handle);
    EndsHereIff(s, n, t, u);
    Judge(ScanTo(s, n, handle), s, n, handle, u == [] && |t| < n - 1, handle(ls + [u]));
  }

  lemma Judge(p: Scan, s: seq<byte>, n: nat, handle: seq<seq<byte>> -> Verdict, blank: bool, v: Verdict)
    requires 0 < n <= |s| && (EndsHeader(s, n) <==> s[n - 1] == LF && blank)
    requires s[n - 1] == LF ==> handle(Lines(s[..n])) == v
    requires p.outcome == if s[n - 1] != LF then Scanning else if blank then Ended else OutcomeOf(v)
    requires p.outcome == Ended ==> p.lines == Lines(s[..n - 1])
    ensures JudgesRight(p, s, n, handle) == true
  {
    hide EndsHeader, Lines;
  }

  /**
    The same by cases: another byte than a line feed settles nothing, a blank
    line ends the header, and a line is judged.
   */
  lemma ByteOutcome(p: Scan, s: seq<byte>, n: nat, t: seq<byte>, u: seq<byte>, ls: seq<seq<byte>>,
                    handle: seq<seq<byte>> -> Verdict)
    requires 0 < n <= |s| && p.outcome == Scanning && Meets(p, s[..n - 1], t, u, ls) == true
    ensures var p' := ScanByte(p, s, n - 1, handle);
            && p'.outcome == (if s[n - 1] != LF then Scanning else if u == [] && |t| < n - 1 then Ended
                              else OutcomeOf(handle(ls + [u])))
            && (p'.outcome == Ended ==> p'.lines == ls)
  {
    hide ScanByte, Meets;
    SameScan(p, s, n, handle);
    assert s[..n - 1] + [s[n - 1]] == s[..n];
    ScanByteMeets(p, s[..n - 1], t, u, ls, s[n - 1], handle);
  }

  lemma LinesNext(s: seq<byte>, n: nat)
    requires 0 < n <= |s|
    ensures s[n - 1] == LF ==> Lines(s[..n]) == Lines(s[..n - 1]) + [StripCr(Tail(s[..n - 1]))]
  {
    assert s[..n] == s[..n - 1] + [s[n - 1]];
    Snoc(s[..n - 1], s[n - 1]);
  }

  lemma ScanningMeets(s: seq<byte>, n: nat, handle: seq<seq<byte>> -> Verdict)
    requires n <= |s| && ScanTo(s, n, handle).outcome == Scanning
    ensures Meets(ScanTo(s, n, handle), s[..n], Tail(s[..n]), StripCr(Tail(s[..n])), Lines(s[..n])) == true
  {
    ScanMeetsReference(s, n, handle);
  }

  lemma {:induction false} ScanningIsUnsettled(s: seq<byte>, n: nat, handle: seq<seq<byte>> -> Verdict)
    requires n <= |s| && ScanTo(s, n, handle).outcome == Scanning
    ensures NothingSettles(s, n, handle)
    decreases n
  {
    if n > 0 {
      ScanningIsUnsettled(s, n - 1, handle);
      ByteSettles(s, n, handle);
    }
  }

  /** The machine stops at the first byte that settles the request; at a header's end it has every line before it. */
  lemma StopsHere(s: seq<byte>, n: nat, handle: seq<seq<byte>> -> Verdict)
    requires 0 < n <= |s|
    requires ScanTo(s, n - 1, handle).outcome == Scanning && ScanTo(s, n, handle).outcome != Scanning
    ensures SettlesFirst(s, n, handle)
    ensures ScanTo(s, n, handle).outcome == Ended <==> EndsHeader(s, n)
    ensures EndsHeader(s, n) ==> ScanTo(s, n, handle).lines == Lines(s[..n - 1])
  {
    ScanningIsUnsettled(s, n - 1, handle);
    ByteSettles(s, n, handle);
  }

  lemma NothingYet(s: seq<byte>, handle: seq<seq<byte>> -> Verdict)
    ensures NothingSettles(s, 0, handle)
  {}

  lemma SettlesOnce(s: seq<byte>, d: nat, e: nat, handle: seq<seq<byte>> -> Verdict)
    requires SettlesFirst(s, d, handle) && SettlesFirst(s, e, handle)
    ensures d == e
  {}

  /** What the first bytes settle does not depend on what follows them. */
  lemma SettlesPrefix(s: seq<byte>, n: nat, e: nat, handle: seq<seq<byte>> -> Verdict)
    requires e <= n <= |s|
    ensures Settles(s[..n], e, handle) <==> Settles(s, e, handle)
  {
    EndsHeaderPrefix(s, n, e);
    assert s[..n][..e] == s[..e];
  }

  lemma SettlesFirstPrefix(s: seq<byte>, n: nat, e: nat, handle: seq<seq<byte>> -> Verdict)
    requires e <= n <= |s| && SettlesFirst(s[..n], e, handle)
    ensures SettlesFirst(s, e, handle)
  {
    forall d: nat | d <= e
      ensures Settles(s[..n], d, handle) <==> Settles(s, d, handle)
    {
      SettlesPrefix(s, n, d, handle);
    }
  }

  lemma NothingSettlesPrefix(s: seq<byte>, n: nat, handle: seq<seq<byte>> -> Verdict)
    requires n <= |s| && NothingSettles(s[..n], n, handle)
    ensures NothingSettles(s, n, handle)
  {
    forall e: nat | e <= n
      ensures !Settles(s, e, handle)
    {
      SettlesPrefix(s, n, e, handle);
    }
  }

  /** A header block ends exactly where the first byte to settle the request ends a header. */
  lemma BlockSettles(s: seq<byte>, e: nat, handle: seq<seq<byte>> -> Verdict)
    requires SettlesFirst(s, e, handle) && EndsHeader(s, e)
    ensures HeaderEndsAt(s, e)
  {
    forall d: nat | d < e
      ensures !EndsHeader(s, d)
    {
      EndSettles(s, d, handle);
    }
  }

  lemma EndSettles(s: seq<byte>, e: nat, handle: seq<seq<byte>> -> Verdict)
    ensures EndsHeader(s, e) ==> Settles(s, e, handle)
  {}

  /** The machine looks only at the bytes it has scanned, so more bytes arriving change nothing. */
  lemma {:induction false} ScanPrefix(s: seq<byte>, more: seq<byte>, n: nat, handle: seq<seq<byte>> -> Verdict)
    requires n <= |s|
    ensures ScanTo(s + more, n, handle) == ScanTo(s, n, handle)
    decreases n
  {
    if n > 0 {
      ScanPrefix(s, more, n - 1, handle);
      var p := ScanTo(s, n - 1, handle);
      SameScan(p, s, n, handle);
      SameScan(p, s + more, n, handle);
      assert (s + more)[..n] == s[..n];
    }
  }

  lemma ScanStep(s: seq<byte>, n: nat, handle: seq<seq<byte>> -> Verdict)
    requires n < |s| && ScanTo(s, n, handle).outcome == Scanning
    ensures ScanTo(s, n + 1, handle) == ScanByte(ScanTo(s, n, handle), s, n, handle)
  {}

  /** A scanning machine's line pointers. */
  lemma LinePointers(s: seq<byte>, n: nat, handle: seq<seq<byte>> -> Verdict)
    requires n <= |s| && ScanTo(s, n, handle).outcome == Scanning
    ensures var p := ScanTo(s, n, handle);
            && p.headerLine <= n
            && (p.status == OneCr ==> p.headerLine <= p.headerEnd < n)
            && p.status in {ReadHeader, OneCr, OneLf, TwoCr}
  {
    ScanMeetsReference(s, n, handle);
  }

  // ----- One request's header -----

  datatype Step = More | Blocked | Decided | Closed | Overflow | Failed

  /**
    What one read brings when `arrived` bytes have arrived and `left` more
    could: how the turn ends, and how many bytes.
   */
  ghost function AfterScan(arrived: nat, left: nat, io: ReadResult): (r: (Step, nat))
    requires arrived <= CLIENT_STREAM_SIZE
    ensures r.1 <= left && arrived + r.1 <= CLIENT_STREAM_SIZE
  {
    if arrived == CLIENT_STREAM_SIZE then (Overflow, 0)
    else match io
      case ReadInterrupted => (More, 0)
      case ReadBlocked => (Blocked, 0)
      case ReadFailed => (Failed, 0)
      case Got(n) =>
        var got := Min(n + 1, Min(CLIENT_STREAM_SIZE - arrived, left));
        (if got == 0 then Closed else More, got)
  }

  class HeaderRequest {
    const stream: array<byte>
    var parsePos: nat
    var clientStreamPos: nat
    var headerLine: nat
    var headerEnd: nat
    var status: Status
    ghost var arrived: seq<byte>      // the bytes received so far
    var lines: seq<seq<byte>>         // the lines delivered so far
    var outcome: Outcome              // what the handlers and the scan have settled

    ghost function State(): Scan
      reads this
    {
      Scan(status, headerLine, headerEnd, lines, outcome)
    }

    /** The fields are the machine's state, and what has not been delivered has not been touched. */
    ghost predicate Valid(handle: seq<seq<byte>> -> Verdict)
      reads this, stream
    {
      && stream.Length == CLIENT_STREAM_SIZE
      && parsePos <= clientStreamPos == |arrived| <= CLIENT_STREAM_SIZE
      && State() == ScanTo(arrived, parsePos, handle)
      && (forall j :: parsePos <= j < clientStreamPos ==> stream[j] == arrived[j])
      && (outcome == Scanning ==> forall j :: headerLine <= j < clientStreamPos ==> stream[j] == arrived[j])
    }

    constructor (leftover: seq<byte>, ghost handle: seq<seq<byte>> -> Verdict)
      requires |leftover| <= CLIENT_STREAM_SIZE
      ensures Valid(handle) && fresh(stream)
      ensures arrived == leftover && parsePos == 0 && outcome == Scanning
    {
      stream := new byte[CLIENT_STREAM_SIZE](i requires i >= 0 => if i < |leftover| then leftover[i] else 0);
      parsePos, clientStreamPos, headerLine, headerEnd, status := 0, |leftover|, 0, 0, ReadHeader;
      arrived, lines, outcome := leftover, [], Scanning;
    }

    /** Ends the line at `headerEnd` and hands it to a handler, which may rewrite it in place. */
    method Deliver(handle: seq<seq<byte>> -> Verdict) returns (v: Verdict)
      requires stream.Length == CLIENT_STREAM_SIZE
      requires headerLine <= headerEnd < parsePos <= CLIENT_STREAM_SIZE
      modifies stream, this`lines
      ensures lines == old(lines) + [old(stream[headerLine..headerEnd])] && v == handle(lines)
      ensures forall i :: parsePos <= i < stream.Length ==> stream[i] == old(stream[i])
    {
      lines := lines + [stream[headerLine..headerEnd]];
      stream[headerEnd] := 0;
      for i := headerLine to headerEnd
        invariant forall j :: parsePos <= j < stream.Length ==> stream[j] == old(stream[j])
        invariant lines == old(lines) + [old(stream[headerLine..headerEnd])]
      {
        stream[i] := *;
      }
      v := handle(lines);
    }

    /** The loop over the bytes that have arrived: stops at the end of the header or where a handler says so. */
    method ScanArrived(handle: seq<seq<byte>> -> Verdict)
      requires Valid(handle) && outcome == Scanning
      modifies stream, this`parsePos, this`headerLine, this`headerEnd, this`status, this`lines, this`outcome
      ensures Valid(handle)
      ensures outcome == Scanning ==> parsePos == clientStreamPos
      ensures outcome != Scanning ==> 0 < parsePos && ScanTo(arrived, parsePos - 1, handle).outcome == Scanning
    {
      while parsePos < clientStreamPos && outcome == Scanning
        invariant Valid(handle)
        invariant outcome != Scanning ==> 0 < parsePos && ScanTo(arrived, parsePos - 1, handle).outcome == Scanning
        decreases clientStreamPos - parsePos
      {
        ScanOne(handle);
      }
    }

    /** The line that has ended goes to its handler. */
    method EndLine(handle: seq<seq<byte>> -> Verdict)
      requires headerLine <= headerEnd < parsePos <= clientStreamPos == |arrived| <= CLIENT_STREAM_SIZE == stream.Length
      requires forall j :: headerLine <= j < clientStreamPos ==> stream[j] == arrived[j]
      requires outcome == Scanning
      modifies stream, this`lines, this`headerLine, this`outcome
      ensures lines == old(lines) + [arrived[old(headerLine)..headerEnd]] && outcome == OutcomeOf(handle(lines))
      ensures headerLine == if outcome == Scanning then parsePos else old(headerLine)
      ensures forall j :: parsePos <= j < clientStreamPos ==> stream[j] == arrived[j]
    {
      assert stream[headerLine..headerEnd] == arrived[headerLine..headerEnd];
      var v := Deliver(handle);
      match v {
        case Proceed => headerLine := parsePos;
        case Refuse => outcome := Refused;
        case Simple => outcome := Answered;
      }
    }

    /** One byte. */
    method ScanOne(handle: seq<seq<byte>> -> Verdict)
      requires Valid(handle) && outcome == Scanning && parsePos < clientStreamPos
      modifies stream, this`parsePos, this`headerLine, this`headerEnd, this`status, this`lines, this`outcome
      ensures Valid(handle) && parsePos == old(parsePos) + 1
    {
      hide ScanTo;
      LinePointers(arrived, parsePos, handle);
      ScanStep(arrived, parsePos, handle);
      ghost var p := State();
      var c := stream[parsePos];
      if status == ReadHeader && (c == CR || c == LF) {
        headerEnd := parsePos;
      }
      status := NextStatus(status, c);
      parsePos := parsePos + 1;
      if status == OneLf {
        EndLine(handle);
      } else if status == BodyRead {
        outcome := Ended;
      }
      assert State() == ScanByte(p, arrived, parsePos - 1, handle);
    }

    /**
      `read_header`: scans what has arrived and, if that does not settle the
      request, reads once more.  `incoming` is what the socket still holds.
     */
    method ReadHeaderStep(handle: seq<seq<byte>> -> Verdict, incoming: seq<byte>, io: ReadResult)
      returns (step: Step, got: nat)
      requires Valid(handle) && outcome == Scanning
      modifies this, stream
      ensures step != Overflow ==> Valid(handle)
      ensures got <= |incoming| && arrived == old(arrived) + incoming[..got]
      ensures step == Decided <==> outcome != Scanning
      ensures step == Decided ==>
        got == 0 && 0 < parsePos && SettlesFirst(arrived, parsePos, handle) &&
          (outcome == Ended <==> EndsHeader(arrived, parsePos))
      ensures step != Decided ==> parsePos == |old(arrived)| && NothingSettles(old(arrived), parsePos, handle)
      ensures step != Decided ==> (step, got) == AfterScan(|old(arrived)|, |incoming|, io)
      ensures step == Overflow ==> status == Dead
    {
      hide ScanTo, SettlesFirst, NothingSettles;
      ScanArrived(handle);
      got := 0;
      assert incoming[..0] == [];
      if outcome != Scanning {
        StopsHere(arrived, parsePos, handle);
        return Decided, 0;
      }
      ScanningIsUnsettled(arrived, parsePos, handle);
      var bufBytesLeft := CLIENT_STREAM_SIZE - clientStreamPos;
      if bufBytesLeft < 1 {
        status := Dead;
        return Overflow, 0;
      }
      match io {
        case ReadInterrupted => step := More;
        case ReadBlocked => step := Blocked;
        case ReadFailed => step := Failed;
        case Got(n) =>
          got := Min(n + 1, Min(bufBytesLeft, |incoming|));
          if got == 0 {
            return Closed, 0;
          }
          Receive(handle, incoming[..got]);
          step := More;
      }
    }

    /** Bytes land behind those that have arrived already. */
    method Receive(ghost handle: seq<seq<byte>> -> Verdict, bytes: seq<byte>)
      requires Valid(handle) && outcome == Scanning && clientStreamPos + |bytes| <= CLIENT_STREAM_SIZE
      modifies stream, this`clientStreamPos, this`arrived
      ensures Valid(handle) && arrived == old(arrived) + bytes
    {
      hide ScanByte;
      ScanPrefix(arrived, bytes, parsePos, handle);
      forall i | 0 <= i < |bytes| {
        stream[clientStreamPos + i] := bytes[i];
      }
      arrived := arrived + bytes;
      clientStreamPos := clientStreamPos + |bytes|;
    }

    /** The keep-alive part of `free_request`: the bytes behind the header go to a new request. */
    method CarryOver(ghost handle: seq<seq<byte>> -> Verdict) returns (next: HeaderRequest)
      requires Valid(handle)
      ensures fresh(next) && next.Valid(handle) && fresh(next.stream)
      ensures next.arrived == arrived[parsePos..] && next.parsePos == 0 && next.outcome == Scanning
    {
      assert stream[parsePos..clientStreamPos] == arrived[parsePos..];
      next := new HeaderRequest(stream[parsePos..clientStreamPos], handle);
    }
  }

  /** However a stream is cut into reads, the header ends at the same byte, in the same state, with the same lines. */
  lemma ReadsDoNotMatter(s: seq<byte>, m: nat, t: seq<byte>, n: nat, stream: seq<byte>,
      handle: seq<seq<byte>> -> Verdict)
    requires s <= stream && t <= stream && 0 < m <= |s| && 0 < n <= |t|
    requires ScanTo(s, m - 1, handle).outcome == Scanning && ScanTo(s, m, handle).outcome != Scanning
    requires ScanTo(t, n - 1, handle).outcome == Scanning && ScanTo(t, n, handle).outcome != Scanning
    ensures m == n && ScanTo(s, m, handle) == ScanTo(t, n, handle)
  {
    hide ScanByte;
    InStream(s, m, stream, handle);
    InStream(t, n, stream, handle);
    if m < n { StaysDecided(stream, m, n - 1, handle); }
    if n < m { StaysDecided(stream, n, m - 1, handle); }
  }

  lemma InStream(s: seq<byte>, m: nat, stream: seq<byte>, handle: seq<seq<byte>> -> Verdict)
    requires s <= stream && 0 < m <= |s|
    ensures ScanTo(stream, m, handle) == ScanTo(s, m, handle) &&
      ScanTo(stream, m - 1, handle) == ScanTo(s, m - 1, handle)
  {
    hide ScanByte;
    assert stream == s + stream[|s|..];
    ScanPrefix(s, stream[|s|..], m, handle);
    ScanPrefix(s, stream[|s|..], m - 1, handle);
  }

  lemma {:induction false} StaysDecided(s: seq<byte>, m: nat, n: nat, handle: seq<seq<byte>> -> Verdict)
    requires m <= n <= |s| && ScanTo(s, m, handle).outcome != Scanning
    ensures ScanTo(s, n, handle) == ScanTo(s, m, handle)
    decreases n
  {
    if m < n {
      StaysDecided(s, m, n - 1, handle);
    }
  }

  // ----- A kept-alive connection -----

  lemma HeaderEndsOnce(s: seq<byte>, d: nat, e: nat)
    requires HeaderEndsAt(s, d) && HeaderEndsAt(s, e)
    ensures d == e && 0 < e <= |s|
  {}

  /** In a connection's stream, a header block starts at `m` and ends at `n`. */
  ghost predicate IsBlock(s: seq<byte>, m: nat, n: nat) {
    m <= n <= |s| && HeaderEndsAt(s[m..], n - m)
  }

  ghost predicate NoBlockFrom(s: seq<byte>, m: nat) {
    forall e: nat :: !IsBlock(s, m, e)
  }

  /** `cuts` are the places where the successive header blocks of a connection's stream end, from offset `n` on. */
  ghost predicate AreCutsFrom(s: seq<byte>, n: nat, cuts: seq<nat>) {
    && |cuts| > 0 && cuts[0] == n
    && (forall i :: 0 <= i < |cuts| ==> cuts[i] <= |s|)
    && forall i :: 0 < i < |cuts| ==> IsBlock(s, cuts[i - 1], cuts[i])
  }

  ghost predicate AreCuts(s: seq<byte>, cuts: seq<nat>) {
    AreCutsFrom(s, 0, cuts)
  }

  ghost predicate CutAt(s: seq<byte>, cuts: seq<nat>, blocks: seq<seq<byte>>) {
    |blocks| == |cuts| - 1 && forall i :: 0 < i < |cuts| ==> blocks[i - 1] == Slice(s, cuts[i - 1], cuts[i])
  }

  ghost function Slice(s: seq<byte>, m: nat, n: nat): seq<byte> {
    if m <= n <= |s| then s[m..n] else []
  }

  /** There is only one way to cut a stream: of two cuts, the shorter is the start of the longer. */
  lemma {:induction false} OneCut(s: seq<byte>, a: seq<nat>, b: seq<nat>, i: nat)
    requires AreCuts(s, a) && AreCuts(s, b) && i < |a| <= |b|
    ensures a[i] == b[i]
    decreases i
  {
    if i > 0 {
      OneCut(s, a, b, i - 1);
      assert IsBlock(s, a[i - 1], a[i]) && IsBlock(s, b[i - 1], b[i]);
      HeaderEndsOnce(s[a[i - 1]..], a[i] - a[i - 1], b[i] - b[i - 1]);
    }
  }

  /** How serving a connection stopped. */
  datatype Why = OutOfReads | EndOfStream | TooLong | Unserved | ReadError

  /** Why a turn without a result ends the connection. */
  function WhyOf(step: Step): Why {
    match step
    case Overflow => TooLong
    case Closed => EndOfStream
    case Failed => ReadError
    case _ => Unserved
  }

  /**
    What serving a connection came to: its header blocks, how it stopped, and
    how many bytes were received and scanned.
   */
  datatype Session = Session(blocks: seq<seq<byte>>, why: Why, received: nat, scanned: nat)

  ghost function Prepend(blocks: seq<seq<byte>>, x: Session): Session {
    x.(blocks := blocks + x.blocks)
  }

  /**
    The reference: a request starts at offset `n` of the client's stream, and of
    `received` bytes the first `seen` are known to settle nothing.  It looks for
    the first byte that settles the request; only if there is none does it read.
   */
  ghost function Serve(s: seq<byte>, n: nat, seen: nat, received: nat, results: seq<ReadResult>,
                       handle: seq<seq<byte>> -> Verdict): (x: Session)
    requires n <= seen <= received <= |s| && received - n <= CLIENT_STREAM_SIZE
    ensures n <= x.scanned <= x.received <= |s| && received <= x.received
    decreases |results|
  {
    if results == [] then Session([], OutOfReads, received, seen)
    else if exists e: nat :: n + e <= received && SettlesFirst(s[n..], e, handle) then
      var e: nat :| n + e <= received && SettlesFirst(s[n..], e, handle);
      if !EndsHeader(s[n..], e) then Session([], Unserved, received, n + e)
      else Prepend([s[n..n + e]], Serve(s, n + e, n + e, received, results[1..], handle))
    else
      var (step, got) := AfterScan(received - n, |s| - received, results[0]);
      if step == More || step == Blocked then Serve(s, n, received, received + got, results[1..], handle)
      else Session([], WhyOf(step), received, received)
  }

  lemma SliceOn(s: seq<byte>, n: nat, m: nat, k: nat)
    requires n <= m && m + k <= |s|
    ensures s[n..m + k] == s[n..m] + s[m..][..k]
  {}

  lemma NoMoreBlocks(s: seq<byte>, n: nat, handle: seq<seq<byte>> -> Verdict)
    requires n <= |s| && NothingSettles(s[n..], |s| - n, handle)
    ensures NoBlockFrom(s, n)
  {
    forall e: nat
      ensures !IsBlock(s, n, e)
    {
      if n <= e <= |s| {
        EndSettles(s[n..], e - n, handle);
      }
    }
  }

  /** What is known of the request that starts at `n`, the last one of the connection, by the way serving stopped. */
  ghost predicate Stopped(s: seq<byte>, n: nat, x: Session, results: seq<ReadResult>,
      handle: seq<seq<byte>> -> Verdict) {
    && n <= x.scanned <= x.received <= |s|
    && match x.why
       case OutOfReads => NothingSettles(s[n..], x.scanned - n, handle)
       case EndOfStream => x.received == |s| && NoBlockFrom(s, n)
       case TooLong => x.received == n + CLIENT_STREAM_SIZE && NothingSettles(s[n..], CLIENT_STREAM_SIZE, handle)
       case Unserved => SettlesFirst(s[n..], x.scanned - n, handle) && !EndsHeader(s[n..], x.scanned - n)
       case ReadError => ReadFailed in results && NothingSettles(s[n..], x.received - n, handle)
  }

  ghost function Gots(results: seq<ReadResult>): nat {
    if results == [] then 0 else (if results[0].Got? then 1 else 0) + Gots(results[1..])
  }

  lemma NotSettledYet(s: seq<byte>, n: nat, handle: seq<seq<byte>> -> Verdict)
    requires !exists e: nat :: e <= n && SettlesFirst(s, e, handle)
    ensures NothingSettles(s, n, handle)
  {
    FirstToSettle(s, n, handle);
  }

  lemma {:induction false} FirstToSettle(s: seq<byte>, n: nat, handle: seq<seq<byte>> -> Verdict)
    ensures NothingSettles(s, n, handle) || exists e: nat :: e <= n && SettlesFirst(s, e, handle)
    decreases n
  {
    if n > 0 {
      FirstToSettle(s, n - 1, handle);
      if NothingSettles(s, n - 1, handle) && Settles(s, n, handle) {
        assert SettlesFirst(s, n, handle);
      }
    }
  }

  /** The reference finds the byte that settles the request. */
  lemma ServeSettled(s: seq<byte>, n: nat, seen: nat, received: nat, results: seq<ReadResult>,
                     handle: seq<seq<byte>> -> Verdict, e: nat)
    requires n <= seen <= received <= |s| && received - n <= CLIENT_STREAM_SIZE
    requires results != [] && n + e <= received && SettlesFirst(s[n..], e, handle)
    ensures Serve(s, n, seen, received, results, handle) ==
            if !EndsHeader(s[n..], e) then Session([], Unserved, received, n + e)
            else Prepend([s[n..n + e]], Serve(s, n + e, n + e, received, results[1..], handle))
  {
    hide EndsHeader;
    var d: nat :| n + d <= received && SettlesFirst(s[n..], d, handle)
      && Serve(s, n, seen, received, results, handle) ==
         if !EndsHeader(s[n..], d) then Session([], Unserved, received, n + d)
         else Prepend([s[n..n + d]], Serve(s, n + d, n + d, received, results[1..], handle));
    SettlesOnce(s[n..], d, e, handle);
  }

  /** There is none, so it reads. */
  lemma ServeUnsettled(s: seq<byte>, n: nat, seen: nat, received: nat, results: seq<ReadResult>,
                       handle: seq<seq<byte>> -> Verdict)
    requires n <= seen <= received <= |s| && received - n <= CLIENT_STREAM_SIZE
    requires results != [] && NothingSettles(s[n..], received - n, handle)
    ensures var (step, got) := AfterScan(received - n, |s| - received, results[0]);
            Serve(s, n, seen, received, results, handle) ==
            if step == More || step == Blocked then Serve(s, n, received, received + got, results[1..], handle)
            else Session([], WhyOf(step), received, received)
  {}

  /** The blocks are cut off where the header blocks end, and serving stopped for the reason given. */
  ghost predicate ServedFrom(s: seq<byte>, n: nat, received: nat, cuts: seq<nat>, x: Session,
                             results: seq<ReadResult>, handle: seq<seq<byte>> -> Verdict)
  {
    && AreCutsFrom(s, n, cuts) && CutAt(s, cuts, x.blocks)
    && Stopped(s, cuts[|cuts| - 1], x, results, handle)
    && received <= x.received
    && (x.why == OutOfReads ==> Gots(results) <= x.received - received + |x.blocks|)
  }

  lemma CutFirst(s: seq<byte>, n: nat, e: nat, cuts: seq<nat>, blocks: seq<seq<byte>>)
    requires IsBlock(s, n, n + e) && AreCutsFrom(s, n + e, cuts) && CutAt(s, cuts, blocks)
    ensures AreCutsFrom(s, n, [n] + cuts) == true && CutAt(s, [n] + cuts, [s[n..n + e]] + blocks) == true
  {
    var all, cut := [n] + cuts, [s[n..n + e]] + blocks;
    forall i | 0 < i < |all|
      ensures IsBlock(s, all[i - 1], all[i]) && cut[i - 1] == Slice(s, all[i - 1], all[i])
    {
      if i > 1 {
        assert all[i - 1] == cuts[i - 2] && all[i] == cuts[i - 1] && cut[i - 1] == blocks[i - 2];
        assert IsBlock(s, cuts[i - 1 - 1], cuts[i - 1]);
      }
    }
  }

  lemma ServedFirst(s: seq<byte>, n: nat, e: nat, received: nat, cuts: seq<nat>, x: Session,
                    results: seq<ReadResult>, handle: seq<seq<byte>> -> Verdict)
    requires results != [] && IsBlock(s, n, n + e) &&
      ServedFrom(s, n + e, received, cuts, x, results[1..], handle) == true
    ensures ServedFrom(s, n, received, [n] + cuts, Prepend([s[n..n + e]], x), results, handle) == true
  {
    CutFirst(s, n, e, cuts, x.blocks);
    assert ([n] + cuts)[|cuts|] == cuts[|cuts| - 1];
  }

  /** A turn that only reads. */
  lemma ServedOn(s: seq<byte>, n: nat, received: nat, got: nat, cuts: seq<nat>, x: Session,
                 results: seq<ReadResult>, handle: seq<seq<byte>> -> Verdict)
    requires results != [] && (results[0].Got? ==> got > 0)
    requires ServedFrom(s, n, received + got, cuts, x, results[1..], handle) == true
    ensures ServedFrom(s, n, received, cuts, x, results, handle) == true
  {}

  lemma StopHere(s: seq<byte>, n: nat, received: nat, x: Session, results: seq<ReadResult>,
                 handle: seq<seq<byte>> -> Verdict)
    requires n <= received == x.received <= |s| && x.blocks == [] && Stopped(s, n, x, results, handle)
    requires x.why == OutOfReads ==> results == []
    ensures ServedFrom(s, n, received, [n], x, results, handle) == true
  {}

  /** What the reference does is right: its blocks cut the stream, and it stops for the reason it gives. */
  lemma {:induction false} ServeCuts(s: seq<byte>, n: nat, seen: nat, received: nat, results: seq<ReadResult>,
                                     handle: seq<seq<byte>> -> Verdict) returns (cuts: seq<nat>, x: Session)
    requires n <= seen <= received <= |s| && received - n <= CLIENT_STREAM_SIZE
    requires NothingSettles(s[n..], seen - n, handle)
    ensures x == Serve(s, n, seen, received, results, handle)
    ensures ServedFrom(s, n, received, cuts, x, results, handle) == true
    decreases |results|
  {
    hide SettlesFirst, NothingSettles, ServedFrom;
    if results == [] {
      cuts, x := [n], Session([], OutOfReads, received, seen);
      StopHere(s, n, received, x, results, handle);
    } else if e: nat :| n + e <= received && SettlesFirst(s[n..], e, handle) {
      ServeSettled(s, n, seen, received, results, handle, e);
      if EndsHeader(s[n..], e) {
        BlockSettles(s[n..], e, handle);
        NothingYet(s[n + e..], handle);
        var cuts1, x1 := ServeCuts(s, n + e, n + e, received, results[1..], handle);
        ServedFirst(s, n, e, received, cuts1, x1, results, handle);
        cuts, x := [n] + cuts1, Prepend([s[n..n + e]], x1);
      } else {
        cuts, x := [n], Session([], Unserved, received, n + e);
        StopHere(s, n, received, x, results, handle);
      }
    } else {
      NotSettledYet(s[n..], received - n, handle);
      cuts, x := ServeReads(s, n, seen, received, results, handle);
    }
  }

  lemma {:induction false} ServeReads(s: seq<byte>, n: nat, seen: nat, received: nat, results: seq<ReadResult>,
                                      handle: seq<seq<byte>> -> Verdict) returns (cuts: seq<nat>, x: Session)
    requires n <= seen <= received <= |s| && received - n <= CLIENT_STREAM_SIZE
    requires results != [] && NothingSettles(s[n..], received - n, handle)
    ensures x == Serve(s, n, seen, received, results, handle)
    ensures ServedFrom(s, n, received, cuts, x, results, handle) == true
    decreases |results|, 0
  {
    hide SettlesFirst, NothingSettles, ServedFrom;
    ServeUnsettled(s, n, seen, received, results, handle);
    var (step, got) := AfterScan(received - n, |s| - received, results[0]);
    if step == More || step == Blocked {
      cuts, x := ServeCuts(s, n, received, received + got, results[1..], handle);
      ServedOn(s, n, received, got, cuts, x, results, handle);
    } else {
      cuts, x := [n], Session([], WhyOf(step), received, received);
      if step == Closed {
        NoMoreBlocks(s, n, handle);
      }
      StopHere(s, n, received, x, results, handle);
    }
  }

  /** The whole session is `blocks` and what the reference still does with the remaining reads. */
  ghost predicate Remains(whole: Session, blocks: seq<seq<byte>>, s: seq<byte>, n: nat, seen: nat, received: nat,
                          results: seq<ReadResult>, handle: seq<seq<byte>> -> Verdict)
  {
    && n <= seen <= received <= |s| && received - n <= CLIENT_STREAM_SIZE
    && whole == Prepend(blocks, Serve(s, n, seen, received, results, handle))
  }

  /** A turn that settles the request. */
  lemma TurnSettles(whole: Session, blocks: seq<seq<byte>>, s: seq<byte>, n: nat, seen: nat, received: nat,
                    results: seq<ReadResult>, handle: seq<seq<byte>> -> Verdict, e: nat)
    requires Remains(whole, blocks, s, n, seen, received, results, handle) == true
    requires results != [] && n + e <= received && SettlesFirst(s[n..received], e, handle)
    ensures s[n..received][e..] == s[n + e..received]
    ensures if EndsHeader(s[n..received], e)
            then Remains(whole, blocks + [s[n..n + e]], s, n + e, n + e, received, results[1..], handle) == true
            else whole == Session(blocks, Unserved, received, n + e)
  {
    assert s[n..][..received - n] == s[n..received];
    SettlesFirstPrefix(s[n..], received - n, e, handle);
    EndsHeaderPrefix(s[n..], received - n, e);
    ServeSettled(s, n, seen, received, results, handle, e);
    if EndsHeader(s[n..], e) {
      var rest := Serve(s, n + e, n + e, received, results[1..], handle);
      assert blocks + ([s[n..n + e]] + rest.blocks) == (blocks + [s[n..n + e]]) + rest.blocks;
    } else {
      assert blocks + [] == blocks;
    }
  }

  /** A turn that reads. */
  lemma TurnReads(whole: Session, blocks: seq<seq<byte>>, s: seq<byte>, n: nat, seen: nat, received: nat,
                  results: seq<ReadResult>, handle: seq<seq<byte>> -> Verdict)
    requires Remains(whole, blocks, s, n, seen, received, results, handle) == true
    requires results != [] && NothingSettles(s[n..received], received - n, handle)
    ensures var (step, got) := AfterScan(received - n, |s| - received, results[0]);
            if step == More || step == Blocked
            then Remains(whole, blocks, s, n, received, received + got, results[1..], handle) == true
            else whole == Session(blocks, WhyOf(step), received, received)
  {
    assert s[n..][..received - n] == s[n..received];
    NothingSettlesPrefix(s[n..], received - n, handle);
    ServeUnsettled(s, n, seen, received, results, handle);
    assert blocks + [] == blocks;
  }

  /** One turn of the request that starts at `start`: it takes its block, ends the session or reads. */
  method ServeTurn(req: HeaderRequest, s: seq<byte>, start: nat, received: nat, blocks: seq<seq<byte>>,
                   results: seq<ReadResult>, handle: seq<seq<byte>> -> Verdict, ghost whole: Session)
    returns (next: HeaderRequest, start': nat, received': nat, blocks': seq<seq<byte>>, over: bool, why: Why)
    requires results != [] && req.Valid(handle) && req.outcome == Scanning
    requires start <= received <= |s| && req.arrived == s[start..received]
    requires Remains(whole, blocks, s, start, start + req.parsePos, received, results, handle) == true
    modifies req, req.stream
    ensures over ==> whole == Session(blocks', why, received', start' + next.parsePos)
    ensures !over ==> next.Valid(handle) == true && next.outcome == Scanning
    ensures !over ==> start' <= received' <= |s| && next.arrived == s[start'..received']
    ensures !over ==>
      Remains(whole, blocks', s, start', start' + next.parsePos, received', results[1..], handle) == true
    ensures next == req || (fresh(next) && fresh(next.stream))
  {
    hide ScanTo, Serve, SettlesFirst, NothingSettles;
    ghost var seen := start + req.parsePos;
    var step, got := req.ReadHeaderStep(handle, s[received..], results[0]);
    next, start', received', blocks', over, why := req, start, received, blocks, false, OutOfReads;
    if step == Decided {
      assert req.arrived == s[start..received];
      TurnSettles(whole, blocks, s, start, seen, received, results, handle, req.parsePos);
      if req.outcome != Ended {
        over, why := true, Unserved;
        return;
      }
      blocks' := blocks + [s[start..start + req.parsePos]];
      start' := start + req.parsePos;
      next := req.CarryOver(handle);
    } else {
      TurnReads(whole, blocks, s, start, seen, received, results, handle);
      SliceOn(s, start, received, got);
      received' := received + got;
      over, why := step != More && step != Blocked, WhyOf(step);
    }
  }

  /** The loop: one request after the other, each starting with the bytes its predecessor left. */
  method ServeRequests(s: seq<byte>, results: seq<ReadResult>, handle: seq<seq<byte>> -> Verdict)
    returns (blocks: seq<seq<byte>>, why: Why, received: nat, scanned: nat)
    ensures Session(blocks, why, received, scanned) == Serve(s, 0, 0, 0, results, handle)
  {
    ghost var whole := Serve(s, 0, 0, 0, results, handle);
    var start, over := 0, false;
    var req := new HeaderRequest([], handle);
    blocks, received := [], 0;
    assert results[0..] == results && [] + whole.blocks == whole.blocks;
    for i := 0 to |results|
      invariant 0 <= start <= received <= |s| && req.arrived == s[start..received]
      invariant req.Valid(handle) == true && req.outcome == Scanning && fresh(req) && fresh(req.stream)
      invariant Remains(whole, blocks, s, start, start + req.parsePos, received, results[i..], handle) == true
    {
      req, start, received, blocks, over, why :=
        ServeTurn(req, s, start, received, blocks, results[i..], handle, whole);
      if over {
        return blocks, why, received, start + req.parsePos;
      }
    }
    return blocks, OutOfReads, received, start + req.parsePos;
  }

  /**
    Serves a kept-alive connection whose client sends `s`.  This is what the
    reference does: the header blocks found cut the stream exactly, however the
    reads fall, and where serving stops no block is missing.
   */
  method ServeConnection(s: seq<byte>, results: seq<ReadResult>, handle: seq<seq<byte>> -> Verdict)
    returns (blocks: seq<seq<byte>>, why: Why, received: nat, scanned: nat)
    ensures Session(blocks, why, received, scanned) == Serve(s, 0, 0, 0, results, handle)
    ensures exists cuts :: Served(s, cuts, Session(blocks, why, received, scanned), results, handle)
    ensures forall cuts :: Served(s, cuts, Session(blocks, why, received, scanned), results, handle) ==>
      FirstCuts(s, cuts)
    ensures why == OutOfReads ==> Gots(results) <= received + |blocks|
  {
    blocks, why, received, scanned := ServeRequests(s, results, handle);
    ServedInFull(s, results, handle);
  }

  /** The blocks are what the cuts cut off, and serving stopped where it should. */
  ghost predicate Served(s: seq<byte>, cuts: seq<nat>, x: Session, results: seq<ReadResult>,
                         handle: seq<seq<byte>> -> Verdict)
  {
    AreCuts(s, cuts) && ServedFrom(s, 0, 0, cuts, x, results, handle)
  }

  lemma ServedInFull(s: seq<byte>, results: seq<ReadResult>, handle: seq<seq<byte>> -> Verdict)
    ensures var x := Serve(s, 0, 0, 0, results, handle);
            && (exists cuts :: Served(s, cuts, x, results, handle))
            && (forall cuts :: Served(s, cuts, x, results, handle) ==> FirstCuts(s, cuts))
            && (x.why == OutOfReads ==> Gots(results) <= x.received + |x.blocks|)
  {
    var x := Serve(s, 0, 0, 0, results, handle);
    var found, y := ServeCuts(s, 0, 0, 0, results, handle);
    assert Served(s, found, x, results, handle);
    forall cuts | AreCuts(s, cuts)
      ensures FirstCuts(s, cuts)
    {
      forall others: seq<nat>, i: nat | AreCuts(s, others) && i < |cuts| && i < |others|
        ensures others[i] == cuts[i]
      {
        if |cuts| <= |others| {
          OneCut(s, cuts, others, i);
        } else {
          OneCut(s, others, cuts, i);
        }
      }
    }
  }

  /** The cuts agree with any others of the same stream. */
  ghost predicate FirstCuts(s: seq<byte>, cuts: seq<nat>) {
    forall others: seq<nat>, i: nat :: AreCuts(s, others) && i < |cuts| && i < |others| ==> others[i] == cuts[i]
  }
}
