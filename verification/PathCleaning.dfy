/**
  `clean_pathname`: removes what a path does not need after a slash - another
  slash, "./" and "../" - in place and in one pass.
 */
module PathCleaning {
  import opened Common
  import opened CStrings

  const DOT: byte := 46

  /** What follows a slash can go. */
  ghost predicate Removable(t: seq<byte>) {
    Width(t) > 0
  }

  /** How much of `t` can go at once. */
  ghost function Width(t: seq<byte>): (n: nat)
    ensures n <= |t|
  {
    if |t| >= 1 && t[0] == SLASH then 1
    else if |t| >= 2 && t[0] == DOT && t[1] == SLASH then 2
    else if |t| >= 3 && t[0] == DOT && t[1] == DOT && t[2] == SLASH then 3
    else 0
  }

  ghost function Skip(t: seq<byte>): (u: seq<byte>)
    ensures |u| <= |t| && !Removable(u)
  {
    if Removable(t) then Skip(t[Width(t)..]) else t
  }

  ghost function Clean(s: seq<byte>): (r: seq<byte>)
    ensures |r| <= |s|
    decreases |s|
  {
    if s == [] then []
    else if s[0] == SLASH then [SLASH] + Clean(Skip(s[1..]))
    else [s[0]] + Clean(s[1..])
  }

  /** No slash is followed by a slash, "./" or "../". */
  ghost predicate IsClean(s: seq<byte>) {
    forall i: nat :: i < |s| && s[i] == 47 ==>
      && !(i + 1 < |s| && s[i + 1] == 47)
      && !(i + 2 < |s| && s[i + 1] == 46 && s[i + 2] == 47)
      && !(i + 3 < |s| && s[i + 1] == 46 && s[i + 2] == 46 && s[i + 3] == 47)
  }

  ghost predicate CleanAt(s: seq<byte>, i: nat)
    requires i < |s|
  {
    s[i] == SLASH ==> !Removable(s[i + 1..])
  }

  lemma CleanEverywhere(s: seq<byte>)
    ensures IsClean(s) <==> forall i: nat :: i < |s| ==> CleanAt(s, i)
  {
    forall i: nat | i < |s|
      ensures CleanAt(s, i) <==> (s[i] == 47 ==>
        && !(i + 1 < |s| && s[i + 1] == 47)
        && !(i + 2 < |s| && s[i + 1] == 46 && s[i + 2] == 47)
        && !(i + 3 < |s| && s[i + 1] == 46 && s[i + 2] == 46 && s[i + 3] == 47))
    {
      var t := s[i + 1..];
      assert i + 1 < |s| ==> t[0] == s[i + 1];
      assert i + 2 < |s| ==> t[1] == s[i + 2];
      assert i + 3 < |s| ==> t[2] == s[i + 3];
    }
    if forall i: nat :: i < |s| ==> CleanAt(s, i) {
      forall i: nat | i < |s| && s[i] == 47
        ensures !(i + 1 < |s| && s[i + 1] == 47) && !(i + 2 < |s| && s[i + 1] == 46 && s[i + 2] == 47)
        ensures !(i + 3 < |s| && s[i + 1] == 46 && s[i + 2] == 46 && s[i + 3] == 47)
      {
        assert CleanAt(s, i);
      }
    }
  }

  /** How much can go at `from`, looking no further than the terminator. */
  method RemovableAt(a: array<byte>, ghost s: seq<byte>, from: nat) returns (width: nat)
    requires Holds(a, s, from)
    ensures width == Width(s[from..])
  {
    ghost var t := s[from..];
    InText(a, s, from);
    if a[from] == SLASH {
      return 1;
    }
    if a[from] == DOT {
      InText(a, s, from + 1);
      assert from + 1 < |s| ==> t[1] == a[from + 1];
      if a[from + 1] == SLASH {
        return 2;
      }
      if a[from + 1] == DOT {
        InText(a, s, from + 2);
        assert from + 2 < |s| ==> t[2] == a[from + 2];
        if a[from + 2] == SLASH {
          return 3;
        }
      }
    }
    return 0;
  }

  lemma SkipStep(t: seq<byte>)
    ensures Skip(t) == if Width(t) == 0 then t else Skip(t[Width(t)..])
  {}

  /** Moves past everything removable. */
  method SkipAll(a: array<byte>, ghost s: seq<byte>, start: nat) returns (from: nat)
    requires Holds(a, s, start)
    ensures start <= from <= |s| && s[from..] == Skip(s[start..])
  {
    hide Skip, Width;
    from := start;
    while true
      invariant start <= from <= |s| && Skip(s[start..]) == Skip(s[from..])
      decreases |s| - from
    {
      var width := RemovableAt(a, s, from);
      SkipStep(s[from..]);
      assert s[from..][width..] == s[from + width..];
      if width == 0 {
        return;
      }
      from := from + width;
    }
  }

  /** The next character to keep, and where to go on after it. */
  method Next(a: array<byte>, ghost s: seq<byte>, at: nat) returns (c: byte, from: nat)
    requires Holds(a, s, at) && a[at] != 0
    ensures at < from <= |s| && Clean(s[at..]) == [c] + Clean(s[from..])
  {
    InText(a, s, at);
    c, from := a[at], at + 1;
    if c == SLASH {
      from := SkipAll(a, s, from);
    }
  }

  method CleanPathname(a: array<byte>, ghost s: seq<byte>)
    requires Holds(a, s, 0)
    modifies a
    ensures var r := Clean(s); a[..|r|] == r && a[|r|] == 0
    ensures forall j :: |s| < j < a.Length ==> a[j] == old(a[j])
  {
    var from, to := 0, 0;
    assert s[0..] == s && [] + Clean(s) == Clean(s);
    while a[from] != 0
      invariant to <= from <= |s| && Holds(a, s, from) == true
      invariant Clean(s) == a[..to] + Clean(s[from..])
      invariant forall j :: |s| < j < a.Length ==> a[j] == old(a[j])
      decreases |s| - from
    {
      ghost var done := a[..to];
      var c;
      c, from := Next(a, s, from);
      Regroup(done, [c], Clean(s[from..]));
      a[to] := c;
      assert a[..to + 1] == done + [c];
      to := to + 1;
    }
    InText(a, s, from);
    ghost var done := a[..to];
    assert done + [] == done;
    a[to] := 0;
    assert a[..to] == done;
  }

  // ----- What cleaning does -----

  lemma FirstKept(s: seq<byte>)
    requires s != []
    ensures Clean(s) != [] && Clean(s)[0] == s[0]
  {}

  lemma CleanCons(c: byte, t: seq<byte>)
    ensures IsClean([c] + t) <==> IsClean(t) && (c == SLASH ==> !Removable(t))
  {
    var s := [c] + t;
    CleanEverywhere(s);
    CleanEverywhere(t);
    assert s[0 + 1..] == t;
    forall i: nat | i < |t|
      ensures CleanAt(s, i + 1) == CleanAt(t, i)
    {
      assert s[i + 1] == t[i] && s[i + 1 + 1..] == t[i + 1..];
    }
    if IsClean(t) && CleanAt(s, 0) {
      forall i: nat | i < |s|
        ensures CleanAt(s, i)
      {
        assert i == 0 || CleanAt(s, (i - 1) + 1) == CleanAt(t, i - 1);
      }
    }
  }

  /** Cleaning what does not start with anything removable leaves it so. */
  lemma StaysUnremovable(t: seq<byte>)
    requires !Removable(t)
    ensures !Removable(Clean(t))
  {
    if t != [] {
      FirstKept(t);
      if t[0] == DOT && |t| > 1 {
        FirstKept(t[1..]);
        assert Clean(t)[1] == t[1];
        if t[1] == DOT && |t| > 2 {
          FirstKept(t[2..]);
          assert t[1..][1..] == t[2..] && Clean(t)[2] == t[2];
        }
      }
    }
  }

  /** Nothing removable is left after any slash, although removing brings new characters together. */
  lemma {:induction false} CleanIsClean(s: seq<byte>)
    ensures IsClean(Clean(s))
    decreases |s|
  {
    if s != [] {
      var rest := if s[0] == SLASH then Skip(s[1..]) else s[1..];
      CleanIsClean(rest);
      CleanCons(s[0], Clean(rest));
      if s[0] == SLASH {
        StaysUnremovable(rest);
      }
    }
  }

  /** A path that is clean already is not changed. */
  lemma {:induction false} CleanKeepsClean(s: seq<byte>)
    requires IsClean(s)
    ensures Clean(s) == s
    decreases |s|
  {
    if s != [] {
      assert s == [s[0]] + s[1..];
      CleanCons(s[0], s[1..]);
      CleanKeepsClean(s[1..]);
    }
  }

  lemma CleanTwice(s: seq<byte>)
    ensures Clean(Clean(s)) == Clean(s)
  {
    CleanIsClean(s);
    CleanKeepsClean(Clean(s));
  }

  /** A path is unchanged exactly if it is clean. */
  lemma UnchangedIffClean(s: seq<byte>)
    ensures Clean(s) == s <==> IsClean(s)
  {
    CleanIsClean(s);
    if IsClean(s) {
      CleanKeepsClean(s);
    }
  }

  // ----- The result as a normal form -----

  /** What may be taken out behind a slash. */
  ghost predicate Superfluous(piece: seq<byte>) {
    piece == [47] || piece == [46, 47] || piece == [46, 46, 47]
  }

  /** `t` is `s` without one superfluous piece behind the slash at `i`. */
  ghost predicate RemovedAt(s: seq<byte>, t: seq<byte>, i: nat, piece: seq<byte>) {
    && Superfluous(piece) && i + 1 + |piece| <= |s|
    && s[i] == 47 && s[i + 1..i + 1 + |piece|] == piece
    && t == s[..i + 1] + s[i + 1 + |piece|..]
  }

  ghost predicate Removes(s: seq<byte>, t: seq<byte>) {
    exists i: nat, piece: seq<byte> :: RemovedAt(s, t, i, piece)
  }

  /** `t` comes from `s` by taking out `n` superfluous pieces one after the other, in any order. */
  ghost predicate ReducesIn(s: seq<byte>, t: seq<byte>, n: nat) {
    if n == 0 then s == t else exists u :: Removes(s, u) && ReducesIn(u, t, n - 1)
  }

  ghost predicate Reduces(s: seq<byte>, t: seq<byte>) {
    exists n: nat :: ReducesIn(s, t, n)
  }

  lemma WidthOfPiece(piece: seq<byte>, u: seq<byte>)
    requires Superfluous(piece)
    ensures Width(piece + u) == |piece| && Skip(piece + u) == Skip(u)
  {
    assert (piece + u)[|piece|..] == u;
  }

  lemma PieceOfWidth(t: seq<byte>)
    requires Width(t) > 0
    ensures Width(t) <= |t| && Superfluous(t[..Width(t)])
  {}

  /** A slash is at the end of what can go, and nowhere before. */
  lemma SlashEndsPiece(t: seq<byte>, j: nat)
    requires j < |t| && t[j] == SLASH && Width(t) > 0
    ensures Width(t) - 1 <= j
  {}

  /** What can go at the beginning is settled by the bytes up to any slash. */
  lemma SameWidth(s: seq<byte>, t: seq<byte>, j: nat)
    requires j < |s| && j < |t| && s[..j + 1] == t[..j + 1] && s[j] == SLASH
    ensures Width(s) == Width(t)
  {
    assert forall k :: 0 <= k <= j ==> s[k] == s[..j + 1][k] == t[k];
  }

  /** A removal further on, seen from `w` bytes on. */
  lemma RemovedFurther(s: seq<byte>, t: seq<byte>, i: nat, piece: seq<byte>, w: nat)
    requires RemovedAt(s, t, i, piece) && w <= i
    ensures RemovedAt(s[w..], t[w..], i - w, piece)
  {
    assert s[w..][i - w + 1..i - w + 1 + |piece|] == piece;
    assert t[w..] == s[w..][..i - w + 1] + s[w..][i - w + 1 + |piece|..];
  }

  /** Removing a piece anywhere does not change what cleaning gives. */
  lemma {:induction false} RemovalKeepsClean(s: seq<byte>, t: seq<byte>, i: nat, piece: seq<byte>)
    requires RemovedAt(s, t, i, piece)
    ensures Clean(s) == Clean(t)
    decreases |s|, 1
  {
    assert s[0] == t[0];
    if i == 0 {
      var u := s[1 + |piece|..];
      assert s[1..] == piece + u && t[1..] == u;
      WidthOfPiece(piece, u);
    } else {
      RemovedFurther(s, t, i, piece, 1);
      if s[0] == SLASH {
        RemovalKeepsSkipped(s[1..], t[1..], i - 1, piece);
      } else {
        RemovalKeepsClean(s[1..], t[1..], i - 1, piece);
      }
    }
  }

  lemma {:induction false} RemovalKeepsSkipped(s: seq<byte>, t: seq<byte>, i: nat, piece: seq<byte>)
    requires RemovedAt(s, t, i, piece)
    ensures Clean(Skip(s)) == Clean(Skip(t))
    decreases |s|, 2
  {
    assert s[..i + 1] == t[..i + 1];
    SameWidth(s, t, i);
    var w := Width(s);
    if w == 0 {
      RemovalKeepsClean(s, t, i, piece);
    } else {
      SlashEndsPiece(s, i);
      if w <= i {
        RemovedFurther(s, t, i, piece, w);
        RemovalKeepsSkipped(s[w..], t[w..], i - w, piece);
      } else {
        var u := s[w + |piece|..];
        assert s[w..] == piece + u && t[w..] == u;
        WidthOfPiece(piece, u);
      }
    }
  }

  lemma FirstRemoval(s: seq<byte>, t: seq<byte>, n: nat) returns (u: seq<byte>, i: nat, piece: seq<byte>)
    requires n > 0 && ReducesIn(s, t, n)
    ensures RemovedAt(s, u, i, piece) && ReducesIn(u, t, n - 1) == true
  {
    u :| Removes(s, u) && ReducesIn(u, t, n - 1);
    i, piece :| RemovedAt(s, u, i, piece);
  }

  lemma OneMoreRemoval(s: seq<byte>, u: seq<byte>, i: nat, piece: seq<byte>, t: seq<byte>, n: nat)
    requires RemovedAt(s, u, i, piece) && ReducesIn(u, t, n) == true
    ensures ReducesIn(s, t, n + 1) == true
  {
    assert Removes(s, u);
  }

  lemma NoRemoval(s: seq<byte>, t: seq<byte>)
    ensures ReducesIn(s, t, 0) <==> s == t
  {}

  lemma {:induction false} ReductionKeepsClean(s: seq<byte>, t: seq<byte>, n: nat)
    requires ReducesIn(s, t, n) == true
    ensures Clean(s) == Clean(t)
    decreases n
  {
    hide ReducesIn, Clean;
    if n == 0 {
      NoRemoval(s, t);
    } else {
      var u, i, piece := FirstRemoval(s, t, n);
      RemovalKeepsClean(s, u, i, piece);
      ReductionKeepsClean(u, t, n - 1);
    }
  }

  lemma RemovedBehind(c: byte, s: seq<byte>, u: seq<byte>, i: nat, piece: seq<byte>)
    requires RemovedAt(s, u, i, piece)
    ensures RemovedAt([c] + s, [c] + u, i + 1, piece)
  {
    var cs := [c] + s;
    assert cs[i + 2..i + 2 + |piece|] == s[i + 1..i + 1 + |piece|];
    assert [c] + u == cs[..i + 2] + cs[i + 2 + |piece|..];
  }

  lemma {:induction false} ReducesBehind(c: byte, s: seq<byte>, t: seq<byte>, n: nat)
    requires ReducesIn(s, t, n) == true
    ensures ReducesIn([c] + s, [c] + t, n) == true
    decreases n
  {
    hide ReducesIn, RemovedAt;
    if n == 0 {
      NoRemoval(s, t);
      NoRemoval([c] + s, [c] + t);
    } else {
      var u, i, piece := FirstRemoval(s, t, n);
      RemovedBehind(c, s, u, i, piece);
      ReducesBehind(c, u, t, n - 1);
      OneMoreRemoval([c] + s, [c] + u, i + 1, piece, [c] + t, n - 1);
    }
  }

  lemma {:induction false} ReducesOn(s: seq<byte>, t: seq<byte>, u: seq<byte>, m: nat, n: nat)
    requires ReducesIn(s, t, m) == true && ReducesIn(t, u, n) == true
    ensures ReducesIn(s, u, m + n) == true
    decreases m
  {
    hide ReducesIn, RemovedAt;
    if m == 0 {
      NoRemoval(s, t);
    } else {
      var v, i, piece := FirstRemoval(s, t, m);
      ReducesOn(v, t, u, m - 1, n);
      OneMoreRemoval(s, v, i, piece, u, m - 1 + n);
    }
  }

  /** Skipping takes out one piece after the other. */
  lemma {:induction false} SkippingReduces(t: seq<byte>) returns (n: nat)
    ensures ReducesIn([SLASH] + t, [SLASH] + Skip(t), n) == true
    decreases |t|
  {
    hide ReducesIn, Width;
    var w := Width(t);
    if w == 0 {
      NoRemoval([SLASH] + t, [SLASH] + Skip(t));
      n := 0;
    } else {
      var u := t[w..];
      PieceOfWidth(t);
      var from, to := [SLASH] + t, [SLASH] + u;
      assert from[1..1 + w] == t[..w] && to == from[..1] + from[1 + w..];
      n := SkippingReduces(u);
      OneMoreRemoval(from, to, 0, t[..w], [SLASH] + Skip(t), n);
      n := n + 1;
    }
  }

  lemma SkipShortens(t: seq<byte>)
    ensures |Skip(t)| <= |t|
  {}

  lemma {:induction false} CleaningReduces(s: seq<byte>) returns (n: nat)
    ensures ReducesIn(s, Clean(s), n) == true
    decreases |s|
  {
    hide ReducesIn, Skip;
    if s == [] {
      NoRemoval(s, s);
      n := 0;
    } else {
      var c, rest := s[0], s[1..];
      assert s == [c] + rest;
      var m := 0;
      if c == SLASH {
        SkipShortens(rest);
        m := SkippingReduces(rest);
        rest := Skip(rest);
      } else {
        NoRemoval(s, s);
      }
      var k := CleaningReduces(rest);
      ReducesBehind(c, rest, Clean(rest), k);
      ReducesOn(s, [c] + rest, Clean(s), m, k);
      n := m + k;
    }
  }

  /**
    However superfluous pieces are taken out, one that leaves none ends in what
    cleaning gives; and cleaning takes out nothing else.
   */
  lemma CleanIsNormalForm(s: seq<byte>, t: seq<byte>)
    ensures Reduces(s, t) && IsClean(t) <==> t == Clean(s)
  {
    if Reduces(s, t) && IsClean(t) {
      var n: nat :| ReducesIn(s, t, n);
      ReductionKeepsClean(s, t, n);
      CleanKeepsClean(t);
    }
    var n := CleaningReduces(s);
    CleanIsClean(s);
  }
}
