/** Touch-screen samples and the strokes they form. */
module TouchSamples {

  /** `struct ts_sample`; the time stamp is a number. */
  datatype Sample = Sample(x: int, y: int, pressure: nat, tv: int)

  function Distance2(a: Sample, b: Sample): int {
    (a.x - b.x) * (a.x - b.x) + (a.y - b.y) * (a.y - b.y)
  }

  ghost predicate Press(s: Sample) { s.pressure > 0 }

  ghost predicate AllPresses(s: seq<Sample>) {
    forall i :: 0 <= i < |s| ==> Press(s[i])
  }

  /** The pen is down for a while and then lifted once. */
  datatype Stroke = Stroke(presses: seq<Sample>, release: Sample)

  ghost predicate IsStroke(k: Stroke) {
    k.presses != [] && AllPresses(k.presses) && !Press(k.release)
  }

  ghost predicate AreStrokes(ks: seq<Stroke>) {
    forall i :: 0 <= i < |ks| ==> IsStroke(ks[i])
  }

  ghost function Flatten(ks: seq<Stroke>): seq<Sample> {
    if ks == [] then [] else ks[0].presses + [ks[0].release] + Flatten(ks[1..])
  }

  /** Presses and releases alternate properly: a release follows a press, or comes first while the pen is `down`. */
  ghost predicate InStrokes(down: bool, s: seq<Sample>) {
    forall i: nat :: i < |s| ==> Alternates(down, s, i)
  }

  ghost predicate Alternates(down: bool, s: seq<Sample>, i: nat)
    requires i < |s|
  {
    Press(s[i]) || if i == 0 then down else Press(s[i - 1])
  }

  lemma {:induction false} FlattenAppend(ks: seq<Stroke>, k: Stroke)
    ensures Flatten(ks + [k]) == Flatten(ks) + (k.presses + [k.release])
  {
    if ks == [] {
      assert Flatten([k]) == k.presses + [k.release] + Flatten([]);
    } else {
      FlattenAppend(ks[1..], k);
      assert (ks + [k])[1..] == ks[1..] + [k];
    }
  }

  lemma {:induction false} EndsInRelease(ks: seq<Stroke>)
    requires AreStrokes(ks) && ks != []
    ensures var s := Flatten(ks); s != [] && !Press(s[|s| - 1])
  {
    var before, k := ks[..|ks| - 1], ks[|ks| - 1];
    assert ks == before + [k];
    FlattenAppend(before, k);
  }

  /** Such a sequence is a sequence of strokes, the last of them unfinished. */
  lemma {:induction false} StrokesOf(s: seq<Sample>) returns (ks: seq<Stroke>, tail: seq<Sample>)
    requires InStrokes(false, s)
    ensures AreStrokes(ks) && AllPresses(tail)
    ensures s == Flatten(ks) + tail
    decreases |s|
  {
    if s == [] {
      return [], [];
    }
    var s0, c := s[..|s| - 1], s[|s| - 1];
    forall i: nat | i < |s0|
      ensures Alternates(false, s0, i)
    {
      assert Alternates(false, s, i);
    }
    ks, tail := StrokesOf(s0);
    if Press(c) {
      assert s == Flatten(ks) + (tail + [c]);
      tail := tail + [c];
    } else {
      assert Alternates(false, s, |s| - 1);
      assert Press(s0[|s0| - 1]);
      if tail == [] && ks != [] {
        EndsInRelease(ks);
      }
      assert tail != [];
      FlattenAppend(ks, Stroke(tail, c));
      assert s == Flatten(ks) + (tail + [c]) + [];
      ks, tail := ks + [Stroke(tail, c)], [];
    }
  }

  // ----- Releases -----

  ghost function Releases(s: seq<Sample>): seq<Sample> {
    if s == [] then [] else Releases(s[..|s| - 1]) + if Press(s[|s| - 1]) then [] else [s[|s| - 1]]
  }

  lemma ReleasesOfOneMore(s: seq<Sample>, c: Sample)
    ensures Releases(s + [c]) == Releases(s) + if Press(c) then [] else [c]
  {
    assert (s + [c])[..|s|] == s;
  }

  lemma {:induction false} PressesAddNone(s: seq<Sample>, t: seq<Sample>)
    requires AllPresses(t)
    ensures Releases(s + t) == Releases(s)
    decreases |t|
  {
    hide Releases;
    if t == [] {
      assert s + t == s;
    } else {
      var t0, c := t[..|t| - 1], t[|t| - 1];
      PressesAddNone(s, t0);
      assert s + t == s + t0 + [c];
      ReleasesOfOneMore(s + t0, c);
    }
  }

  /** Finished strokes have one release each. */
  lemma {:induction false} ReleasesOfStrokes(ks: seq<Stroke>)
    requires AreStrokes(ks)
    ensures var rs := Releases(Flatten(ks)); |rs| == |ks| && forall i :: 0 <= i < |ks| ==> rs[i] == ks[i].release
    decreases |ks|
  {
    if ks != [] {
      hide Releases;
      var before, k := ks[..|ks| - 1], ks[|ks| - 1];
      assert ks == before + [k];
      ReleasesOfStrokes(before);
      FlattenAppend(before, k);
      PressesAddNone(Flatten(before), k.presses);
      assert Flatten(ks) == Flatten(before) + k.presses + [k.release];
      ReleasesOfOneMore(Flatten(before) + k.presses, k.release);
    }
  }
}
