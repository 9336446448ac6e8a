/** The table of characters that need percent encoding, packed into bits. */
module EscapeTable {
  import opened Common

  /** A 7-bit character's word in the table: `c >> 5`. */
  function Index(c: bv8): (i: nat)
    ensures i < 4
  {
    if c < 32 then 0 else if c < 64 then 1 else if c < 96 then 2 else 3
  }

  function Mask(c: bv8): bv32 {
    (1 as bv32) << (c & 31)
  }

  predicate Bit(words: seq<bv32>, c: bv8)
    requires |words| == 4
  {
    words[Index(c)] & Mask(c) != 0
  }

  /** The macro `needs_escape`. */
  predicate NeedsEscape(words: seq<bv32>, c: byte)
    requires |words| == 4
  {
    c >= 128 || Bit(words, c as bv8)
  }

  /** "-_.!~*'():@&=+$,/?" */
  function MarkAt(i: bv8): (c: bv8)
    ensures c < 128
  {
    match i
    case 0 => 45
    case 1 => 95
    case 2 => 46
    case 3 => 33
    case 4 => 126
    case 5 => 42
    case 6 => 39
    case 7 => 40
    case 8 => 41
    case 9 => 58
    case 10 => 64
    case 11 => 38
    case 12 => 61
    case 13 => 43
    case 14 => 36
    case 15 => 44
    case 16 => 47
    case _ => 63
  }

  ghost function MarkIndex(c: bv8): (i: bv8)
    ensures i < 18
  {
    match c
    case 45 => 0
    case 95 => 1
    case 46 => 2
    case 33 => 3
    case 126 => 4
    case 42 => 5
    case 39 => 6
    case 40 => 7
    case 41 => 8
    case 58 => 9
    case 64 => 10
    case 38 => 11
    case 61 => 12
    case 43 => 13
    case 36 => 14
    case 44 => 15
    case 47 => 16
    case _ => 17
  }

  const SPECIALS: bv8 := 80

  /** The characters of `special`: letters, digits and marks. */
  function Special(i: bv8): (c: bv8)
    requires i < SPECIALS
    ensures c < 128
  {
    if i < 26 then 65 + i else if i < 52 then 71 + i else if i < 62 then i - 4 else MarkAt(i - 62)
  }

  ghost predicate Alphanumeric(c: bv8) {
    65 <= c <= 90 || 97 <= c <= 122 || 48 <= c <= 57
  }

  ghost predicate Mark(c: bv8) {
    MarkAt(MarkIndex(c)) == c
  }

  /**
    What passes through: unreserved characters (section 2.3 of RFC 2396) and the
    reserved ones that do no harm here.
   */
  ghost predicate Passes(c: bv8) {
    Alphanumeric(c) || Mark(c)
  }

  /** The same of characters as numbers. */
  ghost predicate IsMark(c: byte) {
    || c == 33 || c == 36 || c == 38 || 39 <= c <= 47 || c == 58 || c == 61 || c == 63 || c == 64 || c == 95 || c == 126
  }

  /** What has to be escaped. */
  ghost predicate Escapes(c: byte) {
    !(65 <= c <= 90 || 97 <= c <= 122 || 48 <= c <= 57 || IsMark(c))
  }

  // Characters as bits and as numbers: every number below 256 is that of some eight bits.

  lemma NumberBounds(b: bv8)
    ensures b < 255 <==> b as int < 255
  {}

  lemma NumberOfNext(b: bv8)
    requires b < 255
    ensures (b + 1) as int == b as int + 1
  {}

  lemma BitsOfNumber(b: bv8)
    ensures (b as int) as bv8 == b
  {}

  lemma {:induction false} WithNumber(n: nat) returns (b: bv8)
    requires n < 256
    ensures b as int == n
  {
    if n == 0 {
      b := 0;
    } else {
      b := WithNumber(n - 1);
      NumberBounds(b);
      NumberOfNext(b);
      b := b + 1;
    }
  }

  lemma NumberOfBits(c: byte)
    ensures (c as bv8) as int == c as int
  {
    var b := WithNumber(c as int);
    BitsOfNumber(b);
  }

  lemma AlphanumericNumber(b: bv8)
    ensures var c := b as int; Alphanumeric(b) <==> 65 <= c <= 90 || 97 <= c <= 122 || 48 <= c <= 57
  {}

  lemma SameCharacters(c: byte)
    ensures Alphanumeric(c as bv8) <==> 65 <= c <= 90 || 97 <= c <= 122 || 48 <= c <= 57
  {
    NumberOfBits(c);
    AlphanumericNumber(c as bv8);
  }

  lemma MarksByNumber(b: bv8)
    ensures Mark(b) <==>
      || b == 33 || b == 36 || b == 38 || 39 <= b <= 47 || b == 58 || b == 61 || b == 63 || b == 64 || b == 95 ||
        b == 126
  {}

  lemma SameNumbers(b: bv8)
    ensures var c := b as int;
            && (c == 33 <==> b == 33) && (c == 36 <==> b == 36) && (c == 38 <==> b == 38) && (c == 58 <==> b == 58)
            && (c == 61 <==> b == 61) && (c == 63 <==> b == 63) && (c == 64 <==> b == 64) && (c == 95 <==> b == 95)
            && (c == 126 <==> b == 126) && (39 <= c <= 47 <==> 39 <= b <= 47)
  {}

  lemma SameMarks(c: byte)
    ensures Mark(c as bv8) <==> IsMark(c)
  {
    NumberOfBits(c);
    MarksByNumber(c as bv8);
    SameNumbers(c as bv8);
  }

  /** Where `special` has a character that passes. */
  ghost function Place(c: bv8): (i: bv8)
    ensures Passes(c) ==> i < SPECIALS
  {
    if 65 <= c <= 90 then c - 65
    else if 97 <= c <= 122 then c - 71
    else if 48 <= c <= 57 then c + 4
    else MarkIndex(c) + 62
  }

  /** `special` lists exactly the characters that pass through. */
  lemma SpecialIsPassed(c: bv8, i: bv8)
    ensures Passes(c) ==> Special(Place(c)) == c
    ensures i < SPECIALS ==> Passes(Special(i))
  {
    MarksAreMarks(i - 62);
  }

  lemma MarksAreMarks(i: bv8)
    ensures MarkAt(MarkIndex(MarkAt(i))) == MarkAt(i)
  {}

  lemma MasksDisjoint(j: bv8, c: bv8)
    requires j < 128 && c < 128 && j != c && Index(j) == Index(c)
    ensures Mask(j) & Mask(c) == 0
  {}

  lemma AllSet(c: bv8)
    ensures (0xFFFF_FFFF as bv32) & Mask(c) != 0
  {}

  lemma ClearBit(w: bv32, j: bv8, c: bv8)
    requires j < 128 && c < 128 && Index(j) == Index(c)
    ensures (w & !Mask(j)) & Mask(c) != 0 <==> w & Mask(c) != 0 && c != j
  {
    if j != c {
      MasksDisjoint(j, c);
    }
  }

  /** The table with a character's bit cleared. */
  ghost function Without(words: seq<bv32>, j: bv8): (w: seq<bv32>)
    requires |words| == 4
    ensures |w| == 4
  {
    words[Index(j) := words[Index(j)] & !Mask(j)]
  }

  /** Clearing a character's bit changes no other character's. */
  lemma ClearOne(words: seq<bv32>, j: bv8, c: bv8)
    requires |words| == 4 && j < 128 && c < 128
    ensures Bit(Without(words, j), c) <==> Bit(words, c) && c != j
  {
    if Index(j) == Index(c) {
      ClearBit(words[Index(j)], j, c);
    }
  }

  /** The table as it should be: a character is escaped exactly if it is not one that passes through. */
  ghost predicate IsTable(words: seq<bv32>) {
    |words| == 4 && forall c: byte :: NeedsEscape(words, c) <==> Escapes(c)
  }

  lemma SmallCharacter(c: byte)
    ensures c < 128 ==> c as bv8 < 128
    ensures c >= 128 ==> c as bv8 >= 128
  {
    NumberOfBits(c);
    SmallNumber(c as bv8);
  }

  lemma SmallNumber(b: bv8)
    ensures b < 128 <==> b as int < 128
  {}

  lemma TableFromBits(words: seq<bv32>)
    requires |words| == 4 && forall c: bv8 :: c < 128 ==> (Bit(words, c) <==> !Passes(c))
    ensures IsTable(words)
  {
    forall c: byte
      ensures NeedsEscape(words, c) <==> Escapes(c)
    {
      SmallCharacter(c);
      SpecialIsPassed(c as bv8, 0);
      SameCharacters(c);
      SameMarks(c);
    }
  }

  /** The bits set are those of the characters not listed. */
  ghost predicate Cleared(words: seq<bv32>, listed: set<bv8>) {
    |words| == 4 && forall c: bv8 :: c < 128 ==> (Bit(words, c) <==> c !in listed)
  }

  lemma ClearNext(words: seq<bv32>, listed: set<bv8>, j: bv8)
    requires j < 128 && Cleared(words, listed)
    ensures Cleared(Without(words, j), listed + {j}) == true
  {
    var after := Without(words, j);
    forall c: bv8 | c < 128
      ensures Bit(after, c) <==> c !in listed + {j}
    {
      ClearOne(words, j, c);
    }
  }

  /** The first `i` characters of `special` are listed, and nothing that does not pass. */
  ghost predicate Listed(listed: set<bv8>, i: bv8)
    requires i <= SPECIALS
  {
    && (forall k: bv8 :: k < i ==> Special(k) in listed)
    && (forall c :: c in listed ==> Passes(c))
  }

  lemma ListNext(listed: set<bv8>, i: bv8)
    requires i < SPECIALS && Listed(listed, i)
    ensures Listed(listed + {Special(i)}, i + 1)
  {
    forall k: bv8 | k < i + 1
      ensures Special(k) in listed + {Special(i)}
    {
      assert k < i || k == i;
    }
    SpecialIsPassed(0, i);
  }

  lemma ClearedAll(words: seq<bv32>, listed: set<bv8>)
    requires Cleared(words, listed) && Listed(listed, SPECIALS)
    ensures IsTable(words)
  {
    forall c: bv8 | c < 128
      ensures Bit(words, c) <==> !Passes(c)
    {
      SpecialIsPassed(c, 0);
      assert Passes(c) ==> Place(c) < SPECIALS && Special(Place(c)) in listed;
    }
    TableFromBits(words);
  }

  lemma ClearedNone(words: seq<bv32>)
    requires |words| == 4 && forall k :: 0 <= k < 4 ==> words[k] == 0xFFFF_FFFF
    ensures Cleared(words, {})
  {
    forall c: bv8 | c < 128
      ensures Bit(words, c)
    {
      AllSet(c);
    }
  }

  method ClearCharacter(words: array<bv32>, j: bv8)
    requires words.Length == 4
    modifies words
    ensures words[..] == Without(old(words[..]), j)
  {
    ghost var before := words[..];
    var at := Index(j);
    words[at] := words[at] & !Mask(j);
    assert words[..] == before[at := words[at]];
  }

  /** `build_needs_escape`. */
  method BuildNeedsEscape(words: array<bv32>)
    requires words.Length == 4
    modifies words
    ensures IsTable(words[..])
  {
    for i := 0 to words.Length
      invariant forall k :: 0 <= k < i ==> words[k] == 0xFFFF_FFFF
    {
      words[i] := 0xFFFF_FFFF;
    }
    ClearedNone(words[..]);
    ghost var listed: set<bv8> := {};
    var i: bv8 := 0;
    while i < SPECIALS
      invariant i <= SPECIALS && Listed(listed, i) == true
      invariant Cleared(words[..], listed) == true
    {
      var j := Special(i);
      ListNext(listed, i);
      ClearNext(words[..], listed, j);
      ClearCharacter(words, j);
      listed := listed + {j};
      i := i + 1;
    }
    ClearedAll(words[..], listed);
  }
}
