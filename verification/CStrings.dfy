/** Zero-terminated text in a buffer that is rewritten in place while it is read. */
module CStrings {
  import opened Common

  /** The text `s` and its terminator are still in the buffer from `from` on. */
  ghost predicate Holds(a: array<byte>, s: seq<byte>, from: nat)
    reads a
  {
    && from <= |s| < a.Length && 0 !in s && a[|s|] == 0
    && forall j :: from <= j < |s| ==> a[j] == s[j]
  }

  /** What reading the byte at `from` tells about the text. */
  lemma InText(a: array<byte>, s: seq<byte>, from: nat)
    requires Holds(a, s, from)
    ensures a[from] == 0 <==> from == |s|
    ensures from < |s| ==> s[from..][0] == a[from] && s[from..][1..] == s[from + 1..] && |s[from..]| == |s| - from
    ensures from == |s| ==> s[from..] == []
  {
    if from < |s| {
      assert s[from] in s;
    }
  }
}
