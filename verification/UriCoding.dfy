/**
  Percent encoding: the encoder, and the decoder, which works in place and
  splits off the query.

  Characters are unsigned, and strings are written without their terminator.
 */
module UriCoding {
  import opened Common
  import opened CStrings
  import opened EscapeTable

  const PERCENT: byte := 37
  const HASH: byte := 35
  const QUESTION: byte := 63

  // ----- Encoding -----

  function HexDigit(d: nat): byte
    requires d < 16
  {
    if d >= 10 then 65 + (d - 10) else 48 + d
  }

  ghost function Encode(c: byte): (e: seq<byte>)
    ensures 1 <= |e| <= 3
  {
    if Escapes(c) then [PERCENT, HexDigit(c / 16), HexDigit(c % 16)] else [c]
  }

  ghost function Escape(s: seq<byte>): (e: seq<byte>)
    ensures |s| <= |e| <= 3 * |s|
  {
    if s == [] then [] else Encode(s[0]) + Escape(s[1..])
  }

  lemma {:induction false} EscapeConcat(a: seq<byte>, b: seq<byte>)
    ensures Escape(a + b) == Escape(a) + Escape(b)
  {
    hide Encode;
    if a == [] {
      assert a + b == b && [] + Escape(b) == Escape(b);
    } else {
      EscapeConcat(a[1..], b);
      assert (a + b)[1..] == a[1..] + b && (a + b)[0] == a[0];
      Regroup(Encode(a[0]), Escape(a[1..]), Escape(b));
    }
  }

  lemma EscapeAppend(s: seq<byte>, c: byte)
    ensures Escape(s + [c]) == Escape(s) + Encode(c)
  {
    EscapeConcat(s, [c]);
    assert Escape([c]) == Encode(c) by {
      assert [c][1..] == [] && Escape([]) == [] && Encode(c) + [] == Encode(c);
    }
  }

  method Put(r: array<byte>, index: nat, words: seq<bv32>, c: byte) returns (end: nat)
    requires IsTable(words) && index + 3 <= r.Length
    modifies r
    ensures end == index + |Encode(c)|
    ensures r[..end] == old(r[..index]) + Encode(c)
  {
    if NeedsEscape(words, c) {
      r[index], r[index + 1], r[index + 2] := PERCENT, HexDigit(c / 16), HexDigit(c % 16);
      end := index + 3;
    } else {
      r[index] := c;
      end := index + 1;
    }
  }

  /** `escape_string`: into the caller's buffer, or a new one three times as long as the text. */
  method EscapeString(inp: seq<byte>, words: seq<bv32>, buf: array?<byte>, hasMemory: bool) returns (r: array?<byte>)
    requires IsTable(words)
    requires buf != null ==> 3 * |inp| < buf.Length
    modifies if buf == null then {} else {buf}
    ensures r == null <==> buf == null && (inp == [] || !hasMemory)
    ensures buf != null ==> r == buf
    ensures buf == null && r != null ==> fresh(r) && r.Length == 3 * |inp| + 1
    ensures r != null ==> |Escape(inp)| < r.Length && r[..|Escape(inp)|] == Escape(inp) && r[|Escape(inp)|] == 0
  {
    hide Encode, Escape;
    var max := |inp| * 3;
    r := buf;
    if buf == null && max != 0 && hasMemory {
      r := new byte[max + 1];
    }
    if r == null {
      return;
    }
    var index := 0;
    assert inp[..0] == [] && r[..0] == [];
    for i := 0 to |inp|
      invariant index == |Escape(inp[..i])| <= 3 * i && r[..index] == Escape(inp[..i])
    {
      var c := inp[i];
      EscapeAppend(inp[..i], c);
      assert inp[..i + 1] == inp[..i] + [c];
      ghost var done := r[..index];
      index := Put(r, index, words, c);
      assert r[..index] == done + Encode(c);
    }
    assert inp[..|inp|] == inp;
    r[index] := 0;
  }

  // ----- Decoding -----

  /** `c & 0xdf`: without the bit that tells lower from upper case. */
  function Upper(c: byte): byte { if c / 32 % 2 == 1 then c - 32 else c }

  function HexValue(c: byte): int {
    if c >= 65 then Upper(c) - 65 + 10 else c - 48
  }

  /** The macro `HEX_TO_DECIMAL`, stored in a character; it does not check its digits. */
  function HexToDecimal(c: byte, d: byte): byte {
    (HexValue(c) * 16 + HexValue(d)) % 256
  }

  datatype Decoded = Illegal | Decoded(text: seq<byte>, query: Option<nat>)

  ghost function Prepend(t: seq<byte>, d: Decoded): Decoded {
    if d.Illegal? then d else d.(text := t + d.text)
  }

  /** Where the query starts behind a fragment. */
  ghost function QueryAfter(s: seq<byte>, at: nat): (q: Option<nat>)
    ensures match q
            case Some(k) => at < k <= at + |s| && s[k - at - 1] == 63 && 63 !in s[..k - at - 1]
            case None => 63 !in s
    decreases |s|
  {
    if s == [] then None else if s[0] == QUESTION then Some(at + 1) else QueryAfter(s[1..], at + 1)
  }

  /** Decodes `s`, which starts at offset `at` of the URI; `wants` says whether the caller asks for the query. */
  ghost function Unescape(s: seq<byte>, at: nat, wants: bool): Decoded
    decreases |s|
  {
    if s == [] then Decoded([], None)
    else if s[0] == PERCENT then
      if |s| < 3 then Illegal else Prepend([HexToDecimal(s[1], s[2])], Unescape(s[3..], at + 3, wants))
    else if s[0] == QUESTION then Decoded([], if wants then Some(at + 1) else None)
    else if s[0] == HASH then Decoded([], if wants then QueryAfter(s[1..], at + 1) else None)
    else Prepend([s[0]], Unescape(s[1..], at + 1, wants))
  }

  /** The search for a question mark behind a fragment. */
  method FindQuery(a: array<byte>, ghost s: seq<byte>, start: nat) returns (query: Option<nat>)
    requires Holds(a, s, start)
    ensures query == QueryAfter(s[start..], start)
    ensures query.Some? ==> start < query.value <= |s|
  {
    var i := start;
    while a[i] != 0
      invariant start <= i <= |s|
      invariant QueryAfter(s[start..], start) == QueryAfter(s[i..], i)
      decreases |s| - i
    {
      assert s[i..][0] == a[i] && s[i..][1..] == s[i + 1..];
      if a[i] == QUESTION {
        return Some(i + 1);
      }
      i := i + 1;
    }
    InText(a, s, i);
    query := None;
  }

  /** Where the loop stops. */
  lemma StopsAt(t: seq<byte>, at: nat, wants: bool)
    ensures t == [] ==> Unescape(t, at, wants) == Decoded([], None)
    ensures t != [] && t[0] == QUESTION ==> Unescape(t, at, wants) == Decoded([], if wants then Some(at + 1) else None)
    ensures t != [] && t[0] == HASH ==>
      Unescape(t, at, wants) == Decoded([], if wants then QueryAfter(t[1..], at + 1) else None)
    ensures t != [] && t[0] == PERCENT && |t| < 3 ==> Unescape(t, at, wants).Illegal?
  {}

  /**
    `unescape_uri`: decodes in place.  Writing never overtakes reading, so the
    query is still there, unchanged, where the caller is told to find it.
   */
  method UnescapeUri(a: array<byte>, n: nat, wants: bool) returns (ok: bool, query: Option<nat>)
    requires n < a.Length && a[n] == 0 && 0 !in a[..n]
    modifies a
    ensures match Unescape(old(a[..n]), 0, wants)
            case Illegal => !ok
            case Decoded(text, q) =>
              && ok && query == q && |text| <= n && a[..|text|] == text && a[|text|] == 0
              && (q.Some? ==> |text| < q.value <= n && a[q.value..] == old(a[q.value..]))
  {
    hide Unescape, QueryAfter, Holds;
    ghost var s, behind := a[..n], a[..];
    AllHeld(a, n);
    var from, to;
    ok, from, to := DecodeText(a, s, wants);
    query := None;
    if !ok {
      return;
    }
    query := Stop(a, s, from, wants);
    ghost var text, before := a[..to], a[..];
    assert text + [] == text;
    a[to] := 0;
    assert a[..] == before[to := 0];
    assert before[to := 0][..to] == before[..to] == text;
    if query.Some? {
      SameEnd(before, behind, from, to, query.value);
    }
  }

  lemma AllHeld(a: array<byte>, n: nat)
    requires n < a.Length && a[n] == 0 && 0 !in a[..n]
    ensures Holds(a, a[..n], 0) == true
  {}

  /** At the end, a query or a fragment: where the query starts, for a caller who wants it. */
  method Stop(a: array<byte>, ghost s: seq<byte>, from: nat, wants: bool) returns (query: Option<nat>)
    requires Holds(a, s, from) && (a[from] == 0 || a[from] == QUESTION || a[from] == HASH)
    ensures Unescape(s[from..], from, wants) == Decoded([], query)
    ensures query.Some? ==> from < query.value <= |s|
  {
    InText(a, s, from);
    StopsAt(s[from..], from, wants);
    query := None;
    if wants && a[from] == QUESTION {
      query := Some(from + 1);
    } else if wants && a[from] == HASH {
      query := FindQuery(a, s, from + 1);
    }
  }

  /** Past the place where reading stopped nothing has been written. */
  lemma SameEnd(now: seq<byte>, was: seq<byte>, from: nat, to: nat, at: nat)
    requires to <= from < at <= |now| == |was| && now[from..] == was[from..]
    ensures now[to := 0][at..] == was[at..]
  {
    assert now[at..] == now[from..][at - from..] && was[at..] == was[from..][at - from..];
  }

  /** The loop: decodes the text up to a query, a fragment or the end. */
  method DecodeText(a: array<byte>, ghost s: seq<byte>, ghost wants: bool) returns (ok: bool, from: nat, to: nat)
    requires Holds(a, s, 0)
    modifies a
    ensures !ok ==> Unescape(s, 0, wants).Illegal?
    ensures ok ==>
      && to <= from <= |s| && Holds(a, s, from) == true && (a[from] == 0 || a[from] == QUESTION || a[from] == HASH)
      && a[from..] == old(a[from..])
      && Unescape(s, 0, wants) == Prepend(a[..to], Unescape(s[from..], from, wants))
  {
    hide Unescape, QueryAfter;
    from, to := 0, 0;
    assert s[0..] == s;
    NothingBefore(Unescape(s, 0, wants));
    while a[from] != 0 && a[from] != QUESTION && a[from] != HASH
      invariant to <= from <= |s| && Holds(a, s, from) == true
      invariant forall j :: from <= j < a.Length ==> a[j] == old(a[j])
      invariant Unescape(s, 0, wants) == Prepend(a[..to], Unescape(s[from..], from, wants))
      decreases |s| - from
    {
      InText(a, s, from);
      ghost var done := a[..to];
      var d, width := Character(a, s, from, wants);
      if width == 0 {
        return false, from, to;
      }
      PrependTwice(done, d, Unescape(s[from + width..], from + width, wants));
      a[to] := d;
      assert a[..to + 1] == done + [d];
      from, to := from + width, to + 1;
    }
    ghost var behind := old(a[..]);
    assert forall j :: 0 <= j < a.Length - from ==> a[from..][j] == behind[from + j];
    assert a[from..] == behind[from..];
    ok := true;
  }

  /** The character at `from`, decoded, and how many characters stand for it; none if the text ends within them. */
  method Character(a: array<byte>, ghost s: seq<byte>, from: nat, ghost wants: bool) returns (d: byte, width: nat)
    requires Holds(a, s, from) && from < |s| && a[from] != QUESTION && a[from] != HASH
    ensures width == 0 ==> Unescape(s[from..], from, wants).Illegal?
    ensures width > 0 ==>
      from + width <= |s| &&
        Unescape(s[from..], from, wants) == Prepend([d], Unescape(s[from + width..], from + width, wants))
  {
    InText(a, s, from);
    if a[from] != PERCENT {
      return a[from], 1;
    }
    InText(a, s, from + 1);
    if a[from + 1] == 0 {
      return 0, 0;
    }
    InText(a, s, from + 2);
    if a[from + 2] == 0 {
      return 0, 0;
    }
    assert s[from..][1] == a[from + 1] && s[from..][2] == a[from + 2] && s[from..][3..] == s[from + 3..];
    return HexToDecimal(a[from + 1], a[from + 2]), 3;
  }

  /** The terminator is where the text ends and nowhere before. */
  lemma NothingBefore(d: Decoded)
    ensures Prepend([], d) == d
  {
    if d.Decoded? { assert [] + d.text == d.text; }
  }

  lemma PrependTwice(t: seq<byte>, c: byte, d: Decoded)
    ensures Prepend(t, Prepend([c], d)) == Prepend(t + [c], d)
  {
    if d.Decoded? { assert t + ([c] + d.text) == (t + [c]) + d.text; }
  }

  // ----- Round trips -----

  /** The part of a string before its first question mark. */
  ghost function BeforeQuery(s: seq<byte>): (b: seq<byte>)
    ensures b <= s && (|b| < |s| ==> s[|b|] == QUESTION) && QUESTION !in b
  {
    if s == [] || s[0] == QUESTION then [] else [s[0]] + BeforeQuery(s[1..])
  }

  /**
    A text is its own encoding exactly if no character of it has to be escaped;
    an encoding holds none but the sign.
   */
  lemma {:induction false} UnchangedIffPlain(s: seq<byte>)
    ensures Escape(s) == s <==> forall c :: c in s ==> !Escapes(c)
    ensures forall c :: c in Escape(s) ==> c == PERCENT || !Escapes(c)
    ensures |Escape(s)| == |s| ==> Escape(s) == s
    decreases |s|
  {
    if s != [] {
      var c, rest := s[0], s[1..];
      UnchangedIffPlain(rest);
      assert s == [c] + rest;
      if Escapes(c) {
        assert |Escape(s)| > |s|;
      } else {
        assert Escape(s) == [c] + Escape(rest);
      }
    }
  }

  lemma HexRoundTrip(c: byte)
    ensures HexToDecimal(HexDigit(c / 16), HexDigit(c % 16)) == c
  {
    DigitValue(c / 16);
    DigitValue(c % 16);
  }

  lemma DigitValue(d: nat)
    requires d < 16
    ensures HexValue(HexDigit(d)) == d
  {}

  /** What the encoding of one character decodes to. */
  lemma DecodeOne(c: byte, e: seq<byte>, at: nat)
    requires c != QUESTION
    ensures Unescape(Encode(c) + e, at, true) == Prepend([c], Unescape(e, at + |Encode(c)|, true))
  {
    var all := Encode(c) + e;
    if Escapes(c) {
      assert all[3..] == e && all[0] == PERCENT && all[1] == HexDigit(c / 16) && all[2] == HexDigit(c % 16);
      HexRoundTrip(c);
    } else {
      assert all[1..] == e && all[0] == c && c != PERCENT && c != HASH;
    }
  }

  /** Decoding gives back every encoded character up to the first question mark, and the query starts right after it. */
  lemma {:induction false} RoundTripFrom(s: seq<byte>, at: nat)
    ensures Unescape(Escape(s), at, true) ==
      Decoded(BeforeQuery(s), if |BeforeQuery(s)| < |s| then Some(at + |Escape(BeforeQuery(s))| + 1) else None)
    decreases |s|
  {
    hide Encode, Escape, Unescape;
    if s == [] {
      NothingDecodes(at);
    } else {
      var c, rest := s[0], s[1..];
      assert s == [c] + rest;
      EscapeCons(c, rest);
      if c == QUESTION {
        QuestionDecodes(rest, at);
      } else {
        var b := BeforeQuery(rest);
        EscapeCons(c, b);
        RoundTripFrom(rest, at + |Encode(c)|);
        DecodeOne(c, Escape(rest), at);
      }
    }
  }

  lemma EscapeCons(c: byte, t: seq<byte>)
    ensures Escape([c] + t) == Encode(c) + Escape(t)
  {
    assert ([c] + t)[1..] == t;
  }

  lemma NothingDecodes(at: nat)
    ensures Escape([]) == [] && Unescape([], at, true) == Decoded([], None)
  {}

  lemma QuestionDecodes(rest: seq<byte>, at: nat)
    ensures Escape([]) == [] && Unescape(Encode(QUESTION) + Escape(rest), at, true) == Decoded([], Some(at + 1))
  {}

  /**
    The round trip: decoding an encoded string gives the string up to its first
    question mark; the query it points to is the encoding of what follows.
   */
  lemma RoundTrip(s: seq<byte>)
    ensures var b := BeforeQuery(s);
            && (|b| == |s| ==> Unescape(Escape(s), 0, true) == Decoded(s, None))
            && (|b| < |s| ==>
                  var q := |Escape(b)| + 1;
                  && Unescape(Escape(s), 0, true) == Decoded(b, Some(q))
                  && q <= |Escape(s)| && Escape(s)[q..] == Escape(s[|b| + 1..]))
  {
    hide Escape, Unescape;
    RoundTripFrom(s, 0);
    var b := BeforeQuery(s);
    if |b| < |s| {
      EscapeSplit(s);
      var e, rest := Escape(b), Escape(s[|b| + 1..]);
      assert (e + ([QUESTION] + rest))[|e| + 1..] == rest;
    } else {
      assert b == s;
    }
  }

  lemma EscapeQuestion(rest: seq<byte>)
    ensures Escape([QUESTION] + rest) == [QUESTION] + Escape(rest)
  {
    assert ([QUESTION] + rest)[1..] == rest;
  }

  lemma EscapeSplit(s: seq<byte>)
    requires |BeforeQuery(s)| < |s|
    ensures var b := BeforeQuery(s); Escape(s) == Escape(b) + ([QUESTION] + Escape(s[|b| + 1..]))
  {
    var b := BeforeQuery(s);
    var rest := s[|b| + 1..];
    assert s == b + ([QUESTION] + rest);
    EscapeConcat(b, [QUESTION] + rest);
    EscapeQuestion(rest);
  }

  /** Decoding never makes a text longer. */
  lemma {:induction false} NeverLonger(s: seq<byte>, at: nat, wants: bool)
    ensures var d := Unescape(s, at, wants);
            d.Decoded? ==> |d.text| <= |s| && (d.query.Some? ==> |d.text| + at < d.query.value <= at + |s|)
    decreases |s|
  {
    if s != [] {
      if s[0] == PERCENT {
        if |s| >= 3 { NeverLonger(s[3..], at + 3, wants); }
      } else if s[0] == HASH {
        QueryBounds(s[1..], at + 1);
      } else if s[0] != QUESTION {
        NeverLonger(s[1..], at + 1, wants);
      }
    }
  }

  lemma {:induction false} QueryBounds(s: seq<byte>, at: nat)
    ensures QueryAfter(s, at).Some? ==> at < QueryAfter(s, at).value <= at + |s|
    decreases |s|
  {
    if s != [] && s[0] != QUESTION {
      QueryBounds(s[1..], at + 1);
    }
  }

  // ----- Decoding, said of the text's pieces -----

  /** A hexadecimal digit, in either case, and its value. */
  ghost predicate IsDigit(c: byte, v: nat) {
    (v < 10 && c as int == 48 + v) || (10 <= v < 16 && (c as int == 55 + v || c as int == 87 + v))
  }

  /** Two digits decode to the character they number, whatever their case; encoding writes such digits. */
  lemma DigitsDecode(c: byte, d: byte, v: nat, w: nat)
    requires IsDigit(c, v) && IsDigit(d, w)
    ensures HexToDecimal(c, d) as int == 16 * v + w
    ensures IsDigit(HexDigit(v), v)
  {
    DigitIs(c, v);
    DigitIs(d, w);
  }

  lemma DigitIs(c: byte, v: nat)
    requires IsDigit(c, v)
    ensures HexValue(c) == v
  {}

  /** A character that stands for itself, or three that stand for one. */
  datatype Piece = Plain(c: byte) | Coded(first: byte, second: byte)

  ghost predicate ArePieces(ps: seq<Piece>) {
    forall i :: 0 <= i < |ps| && ps[i].Plain? ==> ps[i].c !in {35, 37, 63}
  }

  /** How pieces are written, and what they mean. */
  ghost function Written(ps: seq<Piece>): (s: seq<byte>)
    ensures ps == [] ==> s == []
  {
    if ps == [] then []
    else (match ps[0] case Plain(c) => [c] case Coded(c, d) => [37, c, d]) + Written(ps[1..])
  }

  ghost function Meant(ps: seq<Piece>): seq<byte> {
    if ps == [] then []
    else [match ps[0] case Plain(c) => c case Coded(c, d) => HexToDecimal(c, d)] + Meant(ps[1..])
  }

  /** Pieces at the front are decoded one by one. */
  lemma {:induction false} PiecesDecode(ps: seq<Piece>, rest: seq<byte>, at: nat, wants: bool)
    requires ArePieces(ps)
    ensures Unescape(Written(ps) + rest, at, wants) == Prepend(Meant(ps), Unescape(rest, at + |Written(ps)|, wants))
    decreases |ps|
  {
    hide HexToDecimal;
    var s := Written(ps) + rest;
    if ps == [] {
      assert s == rest;
      NothingBefore(Unescape(rest, at, wants));
    } else {
      var s1 := Written(ps[1..]) + rest;
      var w := match ps[0] case Plain(c) => 1 case Coded(c, d) => 3;
      var c := match ps[0] case Plain(c) => c case Coded(c, d) => HexToDecimal(c, d);
      assert s[w..] == s1;
      assert Unescape(s, at, wants) == Prepend([c], Unescape(s1, at + w, wants));
      PiecesDecode(ps[1..], rest, at + w, wants);
      PrependPrepended([c], Meant(ps[1..]), Unescape(rest, at + |Written(ps)|, wants));
    }
  }

  lemma PrependPrepended(t: seq<byte>, u: seq<byte>, d: Decoded)
    ensures Prepend(t, Prepend(u, d)) == Prepend(t + u, d)
  {
    if d.Decoded? {
      assert t + (u + d.text) == (t + u) + d.text;
    }
  }

  /** Every text is pieces, and then nothing, a query, a fragment or an escape cut short. */
  lemma {:induction false} PiecesOf(s: seq<byte>) returns (ps: seq<Piece>, rest: seq<byte>)
    ensures ArePieces(ps) && s == Written(ps) + rest
    ensures rest == [] || rest[0] in {35, 63} || (rest[0] == 37 && |rest| < 3)
    decreases |s|
  {
    if s == [] || s[0] in {35, 63} || (s[0] == 37 && |s| < 3) {
      ps, rest := [], s;
    } else if s[0] == 37 {
      ps, rest := PiecesOf(s[3..]);
      var more := [Coded(s[1], s[2])] + ps;
      assert more[1..] == ps && s == [37, s[1], s[2]] + s[3..];
      ps := more;
    } else {
      ps, rest := PiecesOf(s[1..]);
      var more := [Plain(s[0])] + ps;
      assert more[1..] == ps && s == [s[0]] + s[1..];
      ps := more;
    }
  }

  /**
    What decoding gives for any text: what its pieces mean, and the query behind
    the first question mark after them, unless an escape is cut short.
   */
  lemma DecodesPieces(s: seq<byte>, wants: bool) returns (ps: seq<Piece>, rest: seq<byte>)
    ensures ArePieces(ps) && s == Written(ps) + rest
    ensures rest == [] || rest[0] in {35, 63} || (rest[0] == 37 && |rest| < 3)
    ensures Unescape(s, 0, wants).Illegal? <==> rest != [] && rest[0] == 37
    ensures match Unescape(s, 0, wants)
            case Illegal => true
            case Decoded(text, Some(q)) =>
              && text == Meant(ps) && wants && |Written(ps)| < q <= |s|
              && s[q - 1] == 63 && 63 !in rest[..q - 1 - |Written(ps)|]
            case Decoded(text, None) => text == Meant(ps) && (!wants || 63 !in rest)
  {
    hide Written, Meant, Unescape;
    ps, rest := PiecesOf(s);
    PiecesDecode(ps, rest, 0, wants);
    StopsAt(rest, |Written(ps)|, wants);
    assert Meant(ps) + [] == Meant(ps);
    if rest != [] && rest[0] == 35 {
      var q := QueryAfter(rest[1..], |Written(ps)| + 1);
      if q.Some? {
        var k := q.value - 1 - |Written(ps)|;
        assert rest[..k] == [rest[0]] + rest[1..][..k - 1];
      } else {
        assert rest == [rest[0]] + rest[1..];
      }
    }
  }
}
