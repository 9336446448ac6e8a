/**
  Text copied into the output buffer with its special characters encoded, for
  URLs in headers and for HTML.  The loops stop when no room is left before a
  guard band; the test behind them only notices if the room is used up exactly.
 */
module EscapedOutput {
  import opened Common
  import opened EscapeTable
  import opened UriCoding
  import opened OutputBuffer

  datatype Style = Http | Html

  /** The bytes at the end of the buffer that the loop does not count on. */
  function Guard(style: Style): nat { if style.Http? then 3 else 5 }

  ghost function EncodeFor(style: Style, c: byte): (e: seq<byte>)
    ensures 1 <= |e| <= Guard(style) + 1
  {
    match style
    case Http => Encode(c)
    case Html =>
      match c
      case 62 => [38, 103, 116, 59]           // &gt;
      case 60 => [38, 108, 116, 59]           // &lt;
      case 38 => [38, 97, 109, 112, 59]       // &amp;
      case 34 => [38, 113, 117, 111, 116, 59] // &quot;
      case _ => [c]
  }

  ghost function EncodeAll(style: Style, s: seq<byte>): seq<byte> {
    if s == [] then [] else EncodeAll(style, s[..|s| - 1]) + EncodeFor(style, s[|s| - 1])
  }

  lemma OneMore(style: Style, s: seq<byte>, c: byte)
    ensures EncodeAll(style, s + [c]) == EncodeAll(style, s) + EncodeFor(style, c)
  {
    assert (s + [c])[..|s|] == s;
  }

  /** How much room the first `k` characters take. */
  ghost function Size(style: Style, msg: seq<byte>, k: nat): nat
    requires k <= |msg|
  {
    |EncodeAll(style, msg[..k])|
  }

  lemma NextSize(style: Style, msg: seq<byte>, k: nat)
    requires k < |msg|
    ensures EncodeAll(style, msg[..k + 1]) == EncodeAll(style, msg[..k]) + EncodeFor(style, msg[k])
    ensures Size(style, msg, k + 1) == Size(style, msg, k) + |EncodeFor(style, msg[k])|
  {
    assert msg[..k + 1] == msg[..k] + [msg[k]];
    OneMore(style, msg[..k], msg[k]);
  }

  /** A longer text has a longer encoding. */
  lemma {:induction false} Grows(style: Style, msg: seq<byte>, j: nat, k: nat)
    requires j < k <= |msg|
    ensures Size(style, msg, j) < Size(style, msg, k)
    decreases k
  {
    hide Size;
    NextSize(style, msg, k - 1);
    if j < k - 1 {
      Grows(style, msg, j, k - 1);
    }
  }

  /** The encoding of the first `k` characters uses up the room exactly. */
  ghost predicate Fills(style: Style, msg: seq<byte>, room: int, k: nat) {
    k <= |msg| && Size(style, msg, k) == room
  }

  /** The loop may stop after `n` characters: the one before still found room, and none is left. */
  ghost predicate Stops(style: Style, msg: seq<byte>, room: int, n: nat)
    requires n <= |msg|
  {
    (n > 0 ==> Size(style, msg, n - 1) < room) && (n == |msg| || room <= Size(style, msg, n))
  }

  method PutChar(buffer: array<byte>, at: nat, style: Style, words: seq<bv32>, c: byte) returns (width: nat)
    requires IsTable(words) && at + Guard(style) + 1 <= buffer.Length
    modifies buffer
    ensures width == |EncodeFor(style, c)|
    ensures buffer[..at + width] == old(buffer[..at]) + EncodeFor(style, c)
  {
    match style {
      case Http =>
        if NeedsEscape(words, c) {
          buffer[at], buffer[at + 1], buffer[at + 2] := PERCENT, HexDigit(c / 16), HexDigit(c % 16);
          return 3;
        }
      case Html =>
        if c == 62 || c == 60 {
          buffer[at], buffer[at + 1], buffer[at + 2], buffer[at + 3] := 38, if c == 62 then 103 else 108, 116, 59;
          return 4;
        } else if c == 38 {
          buffer[at], buffer[at + 1], buffer[at + 2], buffer[at + 3], buffer[at + 4] := 38, 97, 109, 112, 59;
          return 5;
        } else if c == 34 {
          buffer[at], buffer[at + 1], buffer[at + 2], buffer[at + 3] := 38, 113, 117, 111;
          buffer[at + 4], buffer[at + 5] := 116, 59;
          return 6;
        }
    }
    buffer[at] := c;
    width := 1;
  }

  /**
    With `room` bytes before the guard band, `n` characters are copied: the last
    of them still found room and none is left for the next, so it is all of them
    exactly if all but the last leave room.  An error is reported exactly if
    some beginning of the text uses the room up to the byte.
   */
  ghost predicate IsOutcome(style: Style, msg: seq<byte>, room: int, n: nat, error: bool) {
    && n <= |msg| && Stops(style, msg, room, n)
    && (n == |msg| <==> msg == [] || Size(style, msg, |msg| - 1) < room)
    && (error <==> exists k: nat :: Fills(style, msg, room, k))
  }

  /**
    `req_write_escape_http` and `req_write_escape_html`.  What is appended is
    the encoding of the first `n` characters of the text and fits the buffer.
    All of the text is copied exactly if the encoding of all but its last
    character leaves room, and the caller is told of an error exactly if some
    beginning of the text uses the room up to the byte, whether or not that
    was all of it.
   */
  method WriteEscaped(buffer: array<byte>, bufferEnd: nat, style: Style, words: seq<bv32>, msg: seq<byte>)
    returns (bufferEnd': nat, error: bool, ghost n: nat)
    requires IsTable(words) && buffer.Length == BUFFER_SIZE + 1 && bufferEnd <= BUFFER_SIZE
    modifies buffer
    ensures bufferEnd <= bufferEnd' <= BUFFER_SIZE && n <= |msg|
    ensures buffer[..bufferEnd'] == old(buffer[..bufferEnd]) + EncodeAll(style, msg[..n])
    ensures IsOutcome(style, msg, BUFFER_SIZE - bufferEnd - (if style == Http then 3 else 5), n, error)
  {
    hide Size;
    ghost var room := BUFFER_SIZE - bufferEnd - Guard(style);
    var left;
    bufferEnd', left, n := Copy(buffer, bufferEnd, style, words, msg);
    error := left == 0;
    Outcome(style, msg, room, n);
  }

  /** The copying loop. */
  method Copy(buffer: array<byte>, bufferEnd: nat, style: Style, words: seq<bv32>, msg: seq<byte>)
    returns (dest: nat, left: int, inp: nat)
    requires IsTable(words) && buffer.Length == BUFFER_SIZE + 1 && bufferEnd <= BUFFER_SIZE
    modifies buffer
    ensures bufferEnd <= dest <= BUFFER_SIZE && inp <= |msg|
    ensures buffer[..dest] == old(buffer[..bufferEnd]) + EncodeAll(style, msg[..inp])
    ensures var room := BUFFER_SIZE - bufferEnd - Guard(style);
            left == room - Size(style, msg, inp) && Stops(style, msg, room, inp)
  {
    hide EncodeFor;
    dest, inp := bufferEnd, 0;
    left := BUFFER_SIZE - bufferEnd - Guard(style);
    ghost var room, before := left, buffer[..bufferEnd];
    assert msg[..0] == [] && before + [] == before;
    while inp < |msg| && left > 0
      invariant inp <= |msg| && left == room - Size(style, msg, inp)
      invariant bufferEnd <= dest <= BUFFER_SIZE && dest == bufferEnd + room - left
      invariant buffer[..dest] == before + EncodeAll(style, msg[..inp])
      invariant inp > 0 ==> Size(style, msg, inp - 1) < room
    {
      NextSize(style, msg, inp);
      ghost var done := EncodeAll(style, msg[..inp]);
      var width := PutChar(buffer, dest, style, words, msg[inp]);
      Regroup(before, done, EncodeFor(style, msg[inp]));
      dest, left, inp := dest + width, left - width, inp + 1;
    }
  }

  /** Where the loop stops can be said beforehand. */
  lemma Outcome(style: Style, msg: seq<byte>, room: int, n: nat)
    requires n <= |msg| && Stops(style, msg, room, n)
    ensures n == |msg| <==> msg == [] || Size(style, msg, |msg| - 1) < room
    ensures Size(style, msg, n) == room <==> exists k: nat :: Fills(style, msg, room, k)
  {
    hide Size;
    if n < |msg| - 1 {
      Grows(style, msg, n, |msg| - 1);
    }
    if Size(style, msg, n) == room {
      assert Fills(style, msg, room, n);
    } else if k: nat :| Fills(style, msg, room, k) {
      if k < n - 1 {
        Grows(style, msg, k, n - 1);
      } else if n < k {
        Grows(style, msg, n, k);
      }
    }
  }

  /** Text can be lost without an error: two characters that need encoding, and room for one byte. */
  lemma SilentlyCut()
    ensures var msg: seq<byte> := [32, 32];
            0 !in msg && forall n: nat, error: bool :: IsOutcome(Http, msg, 1, n, error) ==> n == 1 && !error
  {
    var msg: seq<byte> := [32, 32];
    NextSize(Http, msg, 0);
    NextSize(Http, msg, 1);
    forall k: nat
      ensures !Fills(Http, msg, 1, k)
    {
      assert k <= 2 ==> Size(Http, msg, k) == 3 * k;
    }
  }

  /** And an error can be reported although nothing is lost: the same text, and room for all of it but no more. */
  lemma NeedlessError()
    ensures var msg: seq<byte> := [32, 32];
            0 !in msg && forall n: nat, error: bool :: IsOutcome(Http, msg, 6, n, error) ==> n == |msg| && error
  {
    var msg: seq<byte> := [32, 32];
    NextSize(Http, msg, 0);
    NextSize(Http, msg, 1);
    assert Fills(Http, msg, 6, 2);
  }

  // ----- What the encodings mean -----

  /** In headers the text is percent encoded. */
  lemma {:induction false} HttpIsEscape(s: seq<byte>)
    ensures EncodeAll(Http, s) == Escape(s)
    decreases |s|
  {
    if s != [] {
      var before, c := s[..|s| - 1], s[|s| - 1];
      HttpIsEscape(before);
      assert s == before + [c];
      EscapeAppend(before, c);
    }
  }

  /** Reads HTML: four character entities, and every other character as itself. */
  ghost function ReadHtml(s: seq<byte>): seq<byte>
    decreases |s|
  {
    if s == [] then []
    else if [38, 103, 116, 59] <= s then [62] + ReadHtml(s[4..])
    else if [38, 108, 116, 59] <= s then [60] + ReadHtml(s[4..])
    else if [38, 97, 109, 112, 59] <= s then [38] + ReadHtml(s[5..])
    else if [38, 113, 117, 111, 116, 59] <= s then [34] + ReadHtml(s[6..])
    else [s[0]] + ReadHtml(s[1..])
  }

  lemma ReadOne(c: byte, rest: seq<byte>)
    ensures ReadHtml(EncodeFor(Html, c) + rest) == [c] + ReadHtml(rest)
  {
    var e := EncodeFor(Html, c);
    var s := e + rest;
    assert s[|e|..] == rest && e <= s && s[0] == e[0];
    if c in {34, 38, 60, 62} {
      assert s[1] == e[1];
    }
  }

  /** HTML text reads as what was written, and holds no angle bracket or quotation mark. */
  lemma {:induction false} HtmlReadsBack(s: seq<byte>)
    ensures ReadHtml(EncodeAll(Html, s)) == s
    ensures forall c :: c in EncodeAll(Html, s) ==> c !in {34, 60, 62}
  {
    assert EncodeAll(Html, s) + [] == EncodeAll(Html, s);
    ReadAll(s, []);
    assert s + [] == s;
    NoMarkup(s);
  }

  lemma {:induction false} ReadAll(s: seq<byte>, rest: seq<byte>)
    ensures ReadHtml(EncodeAll(Html, s) + rest) == s + ReadHtml(rest)
    decreases |s|
  {
    hide ReadHtml;
    if s == [] {
      assert EncodeAll(Html, s) + rest == rest && s + ReadHtml(rest) == ReadHtml(rest);
    } else {
      var before, c := s[..|s| - 1], s[|s| - 1];
      assert EncodeAll(Html, s) + rest == EncodeAll(Html, before) + (EncodeFor(Html, c) + rest);
      ReadAll(before, EncodeFor(Html, c) + rest);
      ReadOne(c, rest);
      assert s + ReadHtml(rest) == before + ([c] + ReadHtml(rest));
    }
  }

  lemma {:induction false} NoMarkup(s: seq<byte>)
    ensures forall c :: c in EncodeAll(Html, s) ==> c !in {34, 60, 62}
    decreases |s|
  {
    if s != [] {
      NoMarkup(s[..|s| - 1]);
    }
  }
}
