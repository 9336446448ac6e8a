/**
  `variance`: delays samples by one slot so that a sample far from both its
  neighbours can be dropped.  A far sample is set aside as noise; a second far
  one in a row shows that the pen moved fast, and both pass.

  The filter may hand one sample on twice and leave another out; what it never
  does is mix strokes up, change their order or lose a release.
 */
module SpikeFilter {
  import opened Common
  import opened TouchSamples

  /** The filter's memory: its flags, the last sample and the suspected noise. */
  datatype Memory = Memory(penDown: bool, lastValid: bool, noiseValid: bool, submitNoise: bool, last: Sample,
    noise: Sample)

  /** One turn of the loop, for the sample `cur` that was read or resubmitted: at most one sample comes out. */
  ghost function Process(delta: int, m: Memory, cur: Sample): (Memory, seq<Sample>) {
    if cur.pressure == 0 then
      var m1 := if m.penDown then m.(submitNoise := true, noise := cur) else m;
      (m1.(penDown := false, lastValid := false, noiseValid := false, last := cur), [m.last])
    else if !m.lastValid then
      (m.(penDown := true, lastValid := true, last := cur), [])
    else if Distance2(cur, m.last) > delta then
      if m.noiseValid then
        (m.(penDown := true, noiseValid := false, submitNoise := true, last := m.noise, noise := cur), [m.noise])
      else
        (m.(penDown := true, noiseValid := true, noise := cur), [])
    else
      (m.(penDown := true, noiseValid := false, last := cur), [m.last])
  }

  /**
    One `variance_read` for at most `nr` samples, when the layer below has
    `input` to give: memory, output, and how much was read.
   */
  ghost function Read(delta: int, m: Memory, input: seq<Sample>, nr: nat): (Memory, seq<Sample>, nat)
    decreases nr, |input|, m.submitNoise
  {
    if nr == 0 then (m, [], 0)
    else if m.submitNoise then
      var (m1, out) := Process(delta, m.(submitNoise := false), m.noise);
      var (m2, more, n) := Read(delta, m1, input, nr - |out|);
      (m2, out + more, n)
    else if input == [] then (m, [], 0)
    else
      var (m1, out) := Process(delta, m, input[0]);
      var (m2, more, n) := Read(delta, m1, input[1..], nr - |out|);
      (m2, out + more, n + 1)
  }

  /** What is left of a read that has handed over `out` and taken `taken` samples. */
  ghost predicate SoFar(delta: int, start: Memory, input: seq<Sample>, nr: nat, out: seq<Sample>, m: Memory, taken: nat)
    requires taken <= |input| && |out| <= nr
  {
    var (m', more, n) := Read(delta, m, input[taken..], nr - |out|);
    Read(delta, start, input, nr) == (m', out + more, taken + n)
  }

  lemma Begins(delta: int, start: Memory, input: seq<Sample>, nr: nat)
    ensures SoFar(delta, start, input, nr, [], start, 0)
  {
    assert input[0..] == input;
    var out := Read(delta, start, input, nr).1;
    assert [] + out == out;
  }

  lemma Ends(delta: int, start: Memory, input: seq<Sample>, nr: nat, out: seq<Sample>, m: Memory, taken: nat)
    requires taken <= |input| && |out| <= nr && SoFar(delta, start, input, nr, out, m, taken)
    requires |out| == nr || (!m.submitNoise && taken == |input|)
    ensures Read(delta, start, input, nr) == (m, out, taken)
  {
    assert out + [] == out;
  }

  /** A turn that hands nothing on resubmits nothing. */
  lemma SubmitsIfEmits(delta: int, m: Memory, cur: Sample)
    requires !m.submitNoise
    ensures var (m1, out) := Process(delta, m, cur); |out| <= 1 && (m1.submitNoise ==> |out| == 1)
  {}

  /** One turn of the loop goes on with the same read. */
  lemma GoesOn(delta: int, start: Memory, input: seq<Sample>, nr: nat, out: seq<Sample>, m: Memory, taken: nat)
    requires taken <= |input| && |out| < nr && SoFar(delta, start, input, nr, out, m, taken)
    ensures m.submitNoise ==>
      var (m1, more) := Process(delta, m.(submitNoise := false), m.noise);
        SoFar(delta, start, input, nr, out + more, m1, taken)
    ensures !m.submitNoise && taken < |input| ==>
      var (m1, more) := Process(delta, m, input[taken]); SoFar(delta, start, input, nr, out + more, m1, taken + 1)
  {
    hide Read, Process;
    if m.submitNoise {
      ReadNoise(delta, m, input[taken..], nr - |out|);
      var (m1, more) := Process(delta, m.(submitNoise := false), m.noise);
      var rest := Read(delta, m1, input[taken..], nr - |out| - |more|).1;
      assert out + (more + rest) == (out + more) + rest;
    } else if taken < |input| {
      ReadSample(delta, m, input[taken..], nr - |out|);
      var (m1, more) := Process(delta, m, input[taken]);
      assert input[taken..][1..] == input[taken + 1..];
      var rest := Read(delta, m1, input[taken + 1..], nr - |out| - |more|).1;
      assert out + (more + rest) == (out + more) + rest;
    }
  }

  lemma ReadNoise(delta: int, m: Memory, input: seq<Sample>, nr: nat)
    requires nr > 0 && m.submitNoise
    ensures var (m1, out) := Process(delta, m.(submitNoise := false), m.noise);
            |out| <= 1 &&
            var (m2, more, n) := Read(delta, m1, input, nr - |out|);
            Read(delta, m, input, nr) == (m2, out + more, n)
  {}

  lemma ReadSample(delta: int, m: Memory, input: seq<Sample>, nr: nat)
    requires nr > 0 && !m.submitNoise && input != []
    ensures var (m1, out) := Process(delta, m, input[0]);
            |out| <= 1 &&
            var (m2, more, n) := Read(delta, m1, input[1..], nr - |out|);
            Read(delta, m, input, nr) == (m2, out + more, n + 1)
  {}

  class Variance {
    const delta: int
    var penDown: bool
    var lastValid: bool
    var noiseValid: bool
    var submitNoise: bool
    var last: Sample
    var noise: Sample

    constructor (delta: int)
      ensures this.delta == delta * delta && Settled(State()) && !penDown && !lastValid
    {
      this.delta := delta * delta;
      penDown, lastValid, noiseValid, submitNoise := false, false, false, false;
      last, noise := *, *;
    }

    ghost function State(): Memory
      reads this
    {
      Memory(penDown, lastValid, noiseValid, submitNoise, last, noise)
    }

    /** `variance_read`, reading one sample at a time from below. */
    method ReadSamples(samp: array<Sample>, nr: nat, input: seq<Sample>) returns (count: nat, taken: nat)
      requires nr <= samp.Length
      modifies this, samp
      ensures count <= nr && taken <= |input|
      ensures (State(), samp[..count], taken) == Read(delta, old(State()), input, nr)
      ensures samp[count..] == old(samp[count..])
    {
      hide Process, Read, SoFar;
      count, taken := 0, 0;
      Begins(delta, State(), input, nr);
      assert samp[..0] == [];
      while count < nr
        invariant count <= nr && taken <= |input|
        invariant SoFar(delta, old(State()), input, nr, samp[..count], State(), taken)
        invariant forall j :: count <= j < samp.Length ==> samp[j] == old(samp[j])
        decreases nr - count, |input| - taken, submitNoise
      {
        ghost var m, out, was := State(), samp[..count], taken;
        var cur;
        if submitNoise {
          cur := noise;
          submitNoise := false;
        } else {
          if taken == |input| {
            Ends(delta, old(State()), input, nr, out, m, taken);
            return;
          }
          cur := input[taken];
          taken := taken + 1;
        }
        SubmitsIfEmits(delta, State(), cur);
        var emits, s := Turn(cur);
        GoesOn(delta, old(State()), input, nr, out, m, was);
        if emits {
          samp[count] := s;
          assert samp[..count + 1] == out + [s];
          count := count + 1;
        } else {
          assert out + [] == out;
        }
      }
      Ends(delta, old(State()), input, nr, samp[..count], State(), taken);
    }

    method Turn(cur: Sample) returns (emits: bool, s: Sample)
      modifies this
      ensures (State(), if emits then [s] else []) == Process(delta, old(State()), cur)
    {
      if cur.pressure == 0 {
        if penDown {
          submitNoise, noise := true, cur;
        }
        penDown, noiseValid, lastValid := false, false, false;
      } else {
        penDown := true;
        if !lastValid {
          last, lastValid := cur, true;
          return false, cur;
        }
        if Distance2(cur, last) > delta {
          emits, s := noiseValid, noise;
          if noiseValid {
            last := noise;
            noiseValid, submitNoise := false, true;
          } else {
            noiseValid := true;
          }
          noise := cur;
          return;
        }
        noiseValid := false;
      }
      emits, s := true, last;
      last := cur;
    }
  }

  // ----- The whole output -----

  /** A resubmitted sample is not noise at the same time, and a resubmitted release finds the pen up. */
  ghost predicate Settled(m: Memory) {
    m.submitNoise ==> !m.noiseValid && (m.noise.pressure == 0 ==> !m.penDown)
  }

  /** Handles the resubmitted sample, if there is one. */
  ghost function Drain(delta: int, m: Memory): (Memory, seq<Sample>) {
    if m.submitNoise then Process(delta, m.(submitNoise := false), m.noise) else (m, [])
  }

  /** Everything that comes out for a stream, if the reader asks for enough. */
  ghost function Out(delta: int, m: Memory, input: seq<Sample>): seq<Sample>
    decreases |input|
  {
    var (m1, out1) := Drain(delta, m);
    if input == [] then out1
    else
      var (m2, out2) := Process(delta, m1, input[0]);
      out1 + out2 + Out(delta, m2, input[1..])
  }

  lemma DrainSettles(delta: int, m: Memory)
    requires Settled(m)
    ensures !Drain(delta, m).0.submitNoise && Settled(Drain(delta, m).0)
    ensures forall c: Sample :: Settled(Process(delta, Drain(delta, m).0, c).0)
  {}

  lemma OutDrains(delta: int, m: Memory, input: seq<Sample>)
    requires Settled(m)
    ensures Out(delta, m, input) == Drain(delta, m).1 + Out(delta, Drain(delta, m).0, input)
  {
    DrainSettles(delta, m);
    var (m1, out1) := Drain(delta, m);
    if input != [] {
      var (m2, out2) := Process(delta, m1, input[0]);
      assert out1 + out2 + Out(delta, m2, input[1..]) == out1 + ([] + out2 + Out(delta, m2, input[1..]));
    }
  }

  lemma OutTakes(delta: int, m: Memory, c: Sample, input: seq<Sample>)
    requires !m.submitNoise
    ensures Out(delta, m, [c] + input) == Process(delta, m, c).1 + Out(delta, Process(delta, m, c).0, input)
  {
    assert ([c] + input)[1..] == input;
    assert [] + Process(delta, m, c).1 == Process(delta, m, c).1;
  }

  /** Whatever one read hands over, the rest of the stream's output comes after it. */
  lemma {:induction false} ReadIsPartOfOut(delta: int, m: Memory, input: seq<Sample>, more: seq<Sample>, nr: nat)
    requires Settled(m)
    ensures var (m', out, n) := Read(delta, m, input, nr);
            n <= |input| && Settled(m') && |out| <= nr &&
            Out(delta, m, input + more) == out + Out(delta, m', input[n..] + more)
    decreases nr, |input|, m.submitNoise
  {
    hide Out;
    DrainSettles(delta, m);
    if nr == 0 || (!m.submitNoise && input == []) {
      assert input[0..] == input;
      assert Out(delta, m, input + more) == [] + Out(delta, m, input + more);
    } else if m.submitNoise {
      var (m1, out) := Process(delta, m.(submitNoise := false), m.noise);
      ReadIsPartOfOut(delta, m1, input, more, nr - |out|);
      OutDrains(delta, m, input + more);
      var (m2, out2, n) := Read(delta, m1, input, nr - |out|);
      Regroup(out, out2, Out(delta, m2, input[n..] + more));
    } else {
      var (m1, out) := Process(delta, m, input[0]);
      ReadIsPartOfOut(delta, m1, input[1..], more, nr - |out|);
      OutTakes(delta, m, input[0], input[1..] + more);
      assert input + more == [input[0]] + (input[1..] + more);
      var (m2, out2, n) := Read(delta, m1, input[1..], nr - |out|);
      assert input[1..][n..] == input[n + 1..];
      Regroup(out, out2, Out(delta, m2, input[n + 1..] + more));
    }
  }

  /** A caller's request: at most `nr` samples, while the layer below has `available` more to give. */
  datatype Request = Request(nr: nat, available: nat)

  lemma {:induction false} ReadBounded(delta: int, m: Memory, input: seq<Sample>, nr: nat)
    ensures var r := Read(delta, m, input, nr); |r.1| <= nr && r.2 <= |input|
    decreases nr, |input|, m.submitNoise
  {
    if nr == 0 {
    } else if m.submitNoise {
      var (m1, out) := Process(delta, m.(submitNoise := false), m.noise);
      ReadBounded(delta, m1, input, nr - |out|);
    } else if input != [] {
      var (m1, out) := Process(delta, m, input[0]);
      ReadBounded(delta, m1, input[1..], nr - |out|);
    }
  }

  ghost function Reads(delta: int, m: Memory, stream: seq<Sample>, rs: seq<Request>): (r: (Memory, seq<Sample>, nat))
    ensures r.2 <= |stream|
    decreases |rs|
  {
    if rs == [] then (m, [], 0)
    else
      var there := stream[..Min(rs[0].available, |stream|)];
      var (m1, out, n) := Read(delta, m, there, rs[0].nr);
      ReadBounded(delta, m, there, rs[0].nr);
      var (m2, more, k) := Reads(delta, m1, stream[n..], rs[1..]);
      (m2, out + more, n + k)
  }

  lemma OneRead(delta: int, m: Memory, stream: seq<Sample>, a: nat, nr: nat)
    requires Settled(m) && a <= |stream|
    ensures var (m1, out, n) := Read(delta, m, stream[..a], nr);
            n <= a && Settled(m1) && Out(delta, m, stream) == out + Out(delta, m1, stream[n..])
  {
    assert stream == stream[..a] + stream[a..];
    ReadIsPartOfOut(delta, m, stream[..a], stream[a..], nr);
    var n := Read(delta, m, stream[..a], nr).2;
    assert stream[..a][n..] + stream[a..] == stream[n..];
  }

  /** What has been handed over is the beginning of the stream's output, and the rest is still to come. */
  ghost predicate IsPartOfOut(delta: int, m: Memory, stream: seq<Sample>, m': Memory, out: seq<Sample>, n: nat)
    requires n <= |stream|
  {
    Settled(m') && Out(delta, m, stream) == out + Out(delta, m', stream[n..])
  }

  lemma PartsJoin(delta: int, m: Memory, stream: seq<Sample>, m1: Memory, out: seq<Sample>, n: nat,
                  m2: Memory, more: seq<Sample>, k: nat)
    requires n <= |stream| && k <= |stream[n..]|
    requires IsPartOfOut(delta, m, stream, m1, out, n) && IsPartOfOut(delta, m1, stream[n..], m2, more, k)
    ensures IsPartOfOut(delta, m, stream, m2, out + more, n + k)
  {
    assert stream[n..][k..] == stream[n + k..];
    Regroup(out, more, Out(delta, m2, stream[n + k..]));
  }

  /** However a stream is read, that is so. */
  lemma {:induction false} ReadsDoNotMatter(delta: int, m: Memory, stream: seq<Sample>, rs: seq<Request>)
    requires Settled(m)
    ensures var (m', out, n) := Reads(delta, m, stream, rs); IsPartOfOut(delta, m, stream, m', out, n)
    decreases |rs|
  {
    if rs == [] {
      assert stream[0..] == stream;
      assert [] + Out(delta, m, stream) == Out(delta, m, stream);
    } else {
      var a := Min(rs[0].available, |stream|);
      var (m1, out, n) := Read(delta, m, stream[..a], rs[0].nr);
      OneRead(delta, m, stream, a, rs[0].nr);
      ReadsDoNotMatter(delta, m1, stream[n..], rs[1..]);
      var (m2, more, k) := Reads(delta, m1, stream[n..], rs[1..]);
      PartsJoin(delta, m, stream, m1, out, n, m2, more, k);
    }
  }

  /** A read that returns fewer samples than asked for has taken all there was, and holds none back to resubmit. */
  lemma {:induction false} ShortReadTookAll(delta: int, m: Memory, input: seq<Sample>, nr: nat)
    requires Settled(m)
    ensures var (m', out, n) := Read(delta, m, input, nr); |out| < nr ==> n == |input| && !m'.submitNoise
    decreases nr, |input|, m.submitNoise
  {
    DrainSettles(delta, m);
    if nr > 0 && m.submitNoise {
      var (m1, out) := Process(delta, m.(submitNoise := false), m.noise);
      ShortReadTookAll(delta, m1, input, nr - |out|);
    } else if nr > 0 && input != [] {
      var (m1, out) := Process(delta, m, input[0]);
      ShortReadTookAll(delta, m1, input[1..], nr - |out|);
    }
  }

  /** So a caller who goes on asking, while the whole stream is there, gets everything. */
  lemma {:induction false} ReadsGetAll(delta: int, m: Memory, stream: seq<Sample>, rs: seq<Request>)
    requires Settled(m) && |rs| > |Out(delta, m, stream)|
    requires forall i :: 0 <= i < |rs| ==> rs[i].nr > 0 && rs[i].available >= |stream|
    ensures var (m', out, n) := Reads(delta, m, stream, rs); out == Out(delta, m, stream) && n == |stream|
    decreases |rs|
  {
    hide Out, Read;
    assert stream[..|stream|] == stream;
    var (m1, out, n) := Read(delta, m, stream, rs[0].nr);
    OneRead(delta, m, stream, |stream|, rs[0].nr);
    ShortReadTookAll(delta, m, stream, rs[0].nr);
    if out == [] || |rs| == 1 {
      assert n == |stream| && stream[n..] == [] by { assert |out| < rs[0].nr; }
      NothingLeft(delta, m1);
      ReadsOfNothing(delta, m1, rs[1..]);
      assert out + [] == out;
    } else {
      ReadsGetAll(delta, m1, stream[n..], rs[1..]);
    }
  }

  lemma NothingLeft(delta: int, m: Memory)
    requires !m.submitNoise
    ensures Out(delta, m, []) == []
  {}

  lemma {:induction false} ReadsOfNothing(delta: int, m: Memory, rs: seq<Request>)
    requires !m.submitNoise
    ensures Reads(delta, m, [], rs) == (m, [], 0)
    decreases |rs|
  {
    if rs != [] {
      var nothing: seq<Sample> := [];
      assert nothing[..0] == nothing && nothing[0..] == nothing && nothing + nothing == nothing;
      assert Read(delta, m, nothing, rs[0].nr) == (m, nothing, 0);
      ReadsOfNothing(delta, m, rs[1..]);
    }
  }

  // ----- Strokes -----

  /** Between strokes. */
  ghost predicate Resting(m: Memory) {
    !m.penDown && !m.lastValid && !m.noiseValid && !m.submitNoise
  }

  /** Within a stroke, with only presses of it in memory. */
  ghost predicate Within(m: Memory) {
    && m.penDown && m.lastValid && Settled(m) && Press(m.last)
    && (m.noiseValid || m.submitNoise ==> Press(m.noise))
  }

  /** The samples that may still come out. */
  ghost function Held(m: Memory): seq<Sample> {
    [m.last] + if m.noiseValid || m.submitNoise then [m.noise] else []
  }

  /** `out` repeats and skips samples of `from`, but never goes back. */
  ghost predicate Picked(out: seq<Sample>, from: seq<Sample>)
    decreases |out| + |from|
  {
    || out == []
    || (from != [] && ((out[0] == from[0] && Picked(out[1..], from)) || Picked(out, from[1..])))
  }

  lemma SkipOne(out: seq<Sample>, s: Sample, from: seq<Sample>)
    requires Picked(out, from)
    ensures Picked(out, [s] + from)
  {
    assert ([s] + from)[1..] == from;
  }

  lemma TakeFirst(s: Sample, out: seq<Sample>, from: seq<Sample>)
    requires from != [] && from[0] == s && Picked(out, from)
    ensures Picked([s] + out, from)
  {
    assert ([s] + out)[1..] == out;
  }

  lemma {:induction false} PickedFrom(out: seq<Sample>, from: seq<Sample>)
    requires Picked(out, from)
    ensures forall i :: 0 <= i < |out| ==> out[i] in from
    decreases |out| + |from|
  {
    if out != [] {
      if out[0] == from[0] && Picked(out[1..], from) {
        PickedFrom(out[1..], from);
        assert forall i :: 1 <= i < |out| ==> out[i] == out[1..][i - 1];
      } else {
        PickedFrom(out, from[1..]);
      }
    }
  }

  lemma PressWithin(delta: int, m: Memory, c: Sample, ps: seq<Sample>, qs: seq<Sample>)
    requires Within(m) && !m.submitNoise && Press(c)
    ensures Within(Process(delta, m, c).0)
    ensures Picked(qs, Held(Process(delta, m, c).0) + ps) ==> Picked(Process(delta, m, c).1 + qs, Held(m) + ([c] + ps))
  {
    var now := Held(Process(delta, m, c).0) + ps;
    if Picked(qs, now) {
      if Distance2(c, m.last) <= delta {
        assert now == [c] + ps;
        NearWithin(delta, m, c, ps, qs);
      } else if m.noiseValid {
        TakeFirst(m.noise, qs, now);
        SkipOne([m.noise] + qs, m.last, now);
        assert Held(m) + ([c] + ps) == [m.last] + now;
      } else {
        assert Held(m) + ([c] + ps) == now && Process(delta, m, c).1 + qs == qs;
      }
    }
  }

  lemma NearWithin(delta: int, m: Memory, c: Sample, ps: seq<Sample>, qs: seq<Sample>)
    requires Within(m) && !m.submitNoise && Press(c) && Distance2(c, m.last) <= delta && Picked(qs, [c] + ps)
    ensures Picked([m.last] + qs, Held(m) + ([c] + ps))
  {
    var now := [c] + ps;
    if m.noiseValid {
      SkipOne(qs, m.noise, now);
      SkipOne(qs, m.last, [m.noise] + now);
      assert Held(m) + now == [m.last] + ([m.noise] + now);
    } else {
      SkipOne(qs, m.last, now);
    }
    TakeFirst(m.last, qs, Held(m) + now);
  }

  /** The suspected press, resubmitted, is like any other. */
  lemma ResubmitWithin(delta: int, m: Memory, ps: seq<Sample>, qs: seq<Sample>)
    requires Within(m) && m.submitNoise
    ensures Within(Drain(delta, m).0) && !Drain(delta, m).0.submitNoise
    ensures Picked(qs, Held(Drain(delta, m).0) + ps) ==> Picked(Drain(delta, m).1 + qs, Held(m) + ps)
  {
    var m0 := m.(submitNoise := false);
    PressWithin(delta, m0, m.noise, ps, qs);
    assert Held(m0) + ([m.noise] + ps) == Held(m) + ps;
  }

  /** A release flushes the last press, resets the memory and follows at once. */
  lemma StrokeEnds(delta: int, m: Memory, r: Sample, rest: seq<Sample>) returns (m': Memory)
    requires Within(m) && !m.submitNoise && !Press(r)
    ensures Resting(m')
    ensures Out(delta, m, [r] + rest) == [m.last] + ([r] + Out(delta, m', rest))
    ensures Picked([m.last], Held(m))
  {
    var m1 := Process(delta, m, r).0;
    OutTakes(delta, m, r, rest);
    OutDrains(delta, m1, rest);
    m' := Drain(delta, m1).0;
  }

  /** The presses that come out of a stroke, from the middle of it on. */
  ghost function PressesOut(delta: int, m: Memory, ps: seq<Sample>): seq<Sample>
    requires Within(m)
    decreases |ps|, m.submitNoise
  {
    if m.submitNoise then
      ResubmitWithin(delta, m, ps, []);
      Drain(delta, m).1 + PressesOut(delta, Drain(delta, m).0, ps)
    else if ps == [] || !Press(ps[0]) then [m.last]
    else
      PressWithin(delta, m, ps[0], ps[1..], []);
      Process(delta, m, ps[0]).1 + PressesOut(delta, Process(delta, m, ps[0]).0, ps[1..])
  }

  /**
    The rest of a stroke and its release: some presses of the stroke come out in
    order, the last one held for certain, then the release.
   */
  lemma {:induction false} StrokeGoesOn(delta: int, m: Memory, ps: seq<Sample>, r: Sample, rest: seq<Sample>)
    returns (qs: seq<Sample>, m': Memory)
    requires Within(m) && AllPresses(ps) && !Press(r)
    ensures Resting(m') && qs != [] && Picked(qs, Held(m) + ps)
    ensures Out(delta, m, ps + ([r] + rest)) == qs + ([r] + Out(delta, m', rest))
    ensures qs == PressesOut(delta, m, ps)
    decreases |ps|, m.submitNoise
  {
    if m.submitNoise {
      qs, m' := StrokeResubmits(delta, m, ps, r, rest);
    } else if ps == [] {
      m' := StrokeEnds(delta, m, r, rest);
      qs := [m.last];
      assert ps + ([r] + rest) == [r] + rest && Held(m) + ps == Held(m);
    } else {
      var c, others := ps[0], ps[1..];
      assert ps == [c] + others;
      var (m1, out) := Process(delta, m, c);
      PressWithin(delta, m, c, others, []);
      var qs1;
      qs1, m' := StrokeGoesOn(delta, m1, others, r, rest);
      PressWithin(delta, m, c, others, qs1);
      var end := [r] + rest;
      assert ps + end == [c] + (others + end);
      OutTakes(delta, m, c, others + end);
      Regroup(out, qs1, [r] + Out(delta, m', rest));
      qs := out + qs1;
    }
  }

  lemma {:induction false} StrokeResubmits(delta: int, m: Memory, ps: seq<Sample>, r: Sample, rest: seq<Sample>)
    returns (qs: seq<Sample>, m': Memory)
    requires Within(m) && AllPresses(ps) && !Press(r) && m.submitNoise
    ensures Resting(m') && qs != [] && Picked(qs, Held(m) + ps)
    ensures Out(delta, m, ps + ([r] + rest)) == qs + ([r] + Out(delta, m', rest))
    ensures qs == PressesOut(delta, m, ps)
    decreases |ps|, m.submitNoise, 0
  {
    var (m1, out) := Drain(delta, m);
    ResubmitWithin(delta, m, ps, []);
    OutDrains(delta, m, ps + ([r] + rest));
    var qs1;
    qs1, m' := StrokeGoesOn(delta, m1, ps, r, rest);
    ResubmitWithin(delta, m, ps, qs1);
    Regroup(out, qs1, [r] + Out(delta, m', rest));
    qs := out + qs1;
  }

  /** No further apart than the threshold, which is a square. */
  ghost predicate Near(delta: int, a: Sample, b: Sample) {
    (a.x - b.x) * (a.x - b.x) + (a.y - b.y) * (a.y - b.y) <= delta
  }

  /** Every press is near the one before it. */
  ghost predicate Steady(delta: int, ps: seq<Sample>) {
    forall i: nat :: 0 < i < |ps| ==> NearLast(delta, ps, i)
  }

  ghost predicate NearLast(delta: int, ps: seq<Sample>, i: nat)
    requires 0 < i < |ps|
  {
    Near(delta, ps[i], ps[i - 1])
  }

  /** No more presses come out than are held or still to come. */
  lemma {:induction false} NoMoreThanHeld(delta: int, m: Memory, ps: seq<Sample>)
    requires Within(m) && AllPresses(ps)
    ensures |PressesOut(delta, m, ps)| <= |Held(m)| + |ps|
    decreases |ps|, m.submitNoise
  {
    if m.submitNoise {
      ResubmitWithin(delta, m, ps, []);
      NoMoreThanHeld(delta, Drain(delta, m).0, ps);
    } else if ps != [] {
      PressWithin(delta, m, ps[0], ps[1..], []);
      NoMoreThanHeld(delta, Process(delta, m, ps[0]).0, ps[1..]);
    }
  }

  /** Once a press is suspected, either it or the one before it is lost. */
  lemma SuspicionLoses(delta: int, m: Memory, ps: seq<Sample>)
    requires 0 <= delta && Within(m) && m.noiseValid && AllPresses(ps) && Distance2(m.noise, m.last) > delta
    ensures PressesOut(delta, m, ps) != [m.last, m.noise] + ps
  {
    if ps != [] {
      var m1 := Process(delta, m, ps[0]).0;
      PressWithin(delta, m, ps[0], ps[1..], []);
      if Distance2(ps[0], m.last) <= delta {
        NoMoreThanHeld(delta, m1, ps[1..]);
        assert |PressesOut(delta, m, ps)| < |[m.last, m.noise] + ps|;
      } else {
        assert PressesOut(delta, m, ps)[0] == m.noise != ([m.last, m.noise] + ps)[0];
      }
    }
  }

  lemma {:induction false} UnchangedIffSteady(delta: int, m: Memory, ps: seq<Sample>)
    requires 0 <= delta && Within(m) && !m.noiseValid && !m.submitNoise && AllPresses(ps)
    ensures PressesOut(delta, m, ps) == [m.last] + ps <==> Steady(delta, [m.last] + ps)
    decreases |ps|
  {
    if ps != [] {
      var c, others, m1 := ps[0], ps[1..], Process(delta, m, ps[0]).0;
      PressWithin(delta, m, c, others, []);
      assert ps == [c] + others;
      if Distance2(c, m.last) <= delta {
        UnchangedIffSteady(delta, m1, others);
        PrefixCancels(m.last, PressesOut(delta, m1, others), ps);
        SteadyTail(delta, m.last, ps);
      } else {
        SuspicionLoses(delta, m1, others);
        assert [m.last] + ps == [m.last, c] + others;
        assert !NearLast(delta, [m.last] + ps, 1);
      }
    }
  }

  lemma PrefixCancels(s: Sample, a: seq<Sample>, b: seq<Sample>)
    ensures [s] + a == [s] + b <==> a == b
  {
    assert ([s] + a)[1..] == a && ([s] + b)[1..] == b;
  }

  lemma SteadyTail(delta: int, s: Sample, ps: seq<Sample>)
    requires ps != []
    ensures Steady(delta, [s] + ps) <==> Distance2(ps[0], s) <= delta && Steady(delta, ps)
  {
    var all := [s] + ps;
    assert NearLast(delta, all, 1) <==> Distance2(ps[0], s) <= delta;
    forall i: nat | 0 < i < |ps|
      ensures NearLast(delta, ps, i) <==> NearLast(delta, all, i + 1)
    {}
    if Distance2(ps[0], s) <= delta && Steady(delta, ps) {
      forall i: nat | 0 < i < |all|
        ensures NearLast(delta, all, i)
      {
        assert i > 1 ==> NearLast(delta, ps, i - 1);
      }
    }
  }

  /** What becomes of a stroke. */
  ghost predicate Survives(k: Stroke, j: Stroke) {
    j.presses != [] && j.release == k.release && Picked(j.presses, k.presses)
  }

  lemma StrokePasses(delta: int, m: Memory, k: Stroke, rest: seq<Sample>) returns (j: Stroke, m': Memory)
    requires Resting(m) && IsStroke(k)
    ensures Resting(m') && Survives(k, j)
    ensures Out(delta, m, k.presses + ([k.release] + rest)) == j.presses + ([j.release] + Out(delta, m', rest))
    ensures 0 <= delta ==> (j == k <==> Steady(delta, k.presses))
  {
    var c, others := k.presses[0], k.presses[1..];
    assert k.presses == [c] + others;
    var (m1, out) := Process(delta, m, c);
    assert Held(m1) + others == k.presses;
    assert k.presses + ([k.release] + rest) == [c] + (others + ([k.release] + rest));
    OutTakes(delta, m, c, others + ([k.release] + rest));
    var qs;
    qs, m' := StrokeGoesOn(delta, m1, others, k.release, rest);
    j := Stroke(qs, k.release);
    if 0 <= delta {
      UnchangedIffSteady(delta, m1, others);
    }
  }

  /**
    Every finished stroke comes out as a stroke of its own: at least one press,
    all of them presses of that stroke and in order, then its release, once.  It
    comes out unchanged exactly if every press is near the one before it.
   */
  lemma {:induction false} StrokesPass(delta: int, m: Memory, ks: seq<Stroke>, tail: seq<Sample>)
    returns (js: seq<Stroke>, m': Memory)
    requires Resting(m) && AreStrokes(ks)
    ensures Resting(m') && |js| == |ks| && forall i :: 0 <= i < |ks| ==> Survives(ks[i], js[i])
    ensures 0 <= delta ==> forall i :: 0 <= i < |ks| ==> (js[i] == ks[i] <==> Steady(delta, ks[i].presses))
    ensures Out(delta, m, Flatten(ks) + tail) == Flatten(js) + Out(delta, m', tail)
    decreases |ks|
  {
    if ks == [] {
      assert Flatten(ks) + tail == tail;
      js, m' := [], m;
      assert Flatten(js) + Out(delta, m', tail) == Out(delta, m', tail);
    } else {
      FlattenFirst(ks, tail);
      var j, m1 := StrokePasses(delta, m, ks[0], Flatten(ks[1..]) + tail);
      var js1;
      js1, m' := StrokesPass(delta, m1, ks[1..], tail);
      js := [j] + js1;
      assert js[1..] == js1;
      FlattenFirst(js, Out(delta, m', tail));
      forall i | 0 <= i < |ks|
        ensures Survives(ks[i], js[i]) && (0 <= delta ==> (js[i] == ks[i] <==> Steady(delta, ks[i].presses)))
      {
        assert i > 0 ==> ks[i] == ks[1..][i - 1] && js[i] == js1[i - 1];
      }
    }
  }

  lemma FlattenFirst(ks: seq<Stroke>, tail: seq<Sample>)
    requires ks != []
    ensures Flatten(ks) + tail == ks[0].presses + ([ks[0].release] + (Flatten(ks[1..]) + tail))
  {}

  /** An unfinished stroke lets only its own presses out, in order. */
  lemma {:induction false} TailWithin(delta: int, m: Memory, ps: seq<Sample>)
    requires Within(m) && AllPresses(ps)
    ensures Picked(Out(delta, m, ps), Held(m) + ps)
    decreases |ps|, m.submitNoise
  {
    if m.submitNoise {
      ResubmitWithin(delta, m, ps, []);
      OutDrains(delta, m, ps);
      var m1 := Drain(delta, m).0;
      TailWithin(delta, m1, ps);
      ResubmitWithin(delta, m, ps, Out(delta, m1, ps));
    } else if ps == [] {
      assert Out(delta, m, ps) == [];
    } else {
      var c, others := ps[0], ps[1..];
      assert ps == [c] + others;
      var m1 := Process(delta, m, c).0;
      PressWithin(delta, m, c, others, []);
      OutTakes(delta, m, c, others);
      TailWithin(delta, m1, others);
      PressWithin(delta, m, c, others, Out(delta, m1, others));
    }
  }

  lemma TailPasses(delta: int, m: Memory, ps: seq<Sample>)
    requires Resting(m) && AllPresses(ps)
    ensures Picked(Out(delta, m, ps), ps)
  {
    if ps == [] {
      assert Out(delta, m, ps) == [];
    } else {
      var (m1, out) := Process(delta, m, ps[0]);
      assert ps == [ps[0]] + ps[1..];
      assert Held(m1) + ps[1..] == ps;
      OutTakes(delta, m, ps[0], ps[1..]);
      TailWithin(delta, m1, ps[1..]);
      assert [] + Out(delta, m1, ps[1..]) == Out(delta, m1, ps[1..]);
    }
  }

  // ----- Spikes -----

  /** A suspected sample that is neither resubmitted nor followed by another far one does not matter. */
  lemma {:induction false} DeadNoise(delta: int, m: Memory, noise: Sample, input: seq<Sample>)
    requires !m.submitNoise && !m.noiseValid
    ensures Out(delta, m.(noise := noise), input) == Out(delta, m, input)
    decreases |input|
  {
    if input != [] {
      var m2 := m.(noise := noise);
      var (m1, out) := Process(delta, m, input[0]);
      assert input == [input[0]] + input[1..];
      OutTakes(delta, m, input[0], input[1..]);
      OutTakes(delta, m2, input[0], input[1..]);
      if Process(delta, m2, input[0]).0 != m1 {
        DeadNoise(delta, m1, noise, input[1..]);
      }
    }
  }

  /**
    An isolated spike, far from the sample before it and followed by one that is
    near that sample again, leaves no trace.
   */
  lemma SpikeIsDropped(delta: int, m: Memory, spike: Sample, next: Sample, rest: seq<Sample>)
    requires Within(m) && !m.submitNoise && !m.noiseValid && Press(spike) && Press(next)
    requires !Near(delta, spike, m.last) && Near(delta, next, m.last)
    ensures Out(delta, m, [spike] + ([next] + rest)) == Out(delta, m, [next] + rest)
  {
    var m1 := Process(delta, m, spike).0;
    OutTakes(delta, m, spike, [next] + rest);
    OutTakes(delta, m1, next, rest);
    OutTakes(delta, m, next, rest);
    DeadNoise(delta, Process(delta, m, next).0, spike, rest);
  }

  /**
    At a quick movement, a second far press in a row, the suspected press comes
    out; it comes out a second time at once exactly if the new press is near it.
    The press before it is no longer held, and never comes out.
   */
  lemma QuickMovement(delta: int, m: Memory, cur: Sample, rest: seq<Sample>) returns (m': Memory)
    requires Within(m) && !m.submitNoise && m.noiseValid && Press(cur) && !Near(delta, cur, m.last)
    ensures Within(m') && !m'.submitNoise
    ensures var near := Near(delta, cur, m.noise);
      && Out(delta, m, [cur] + rest) == (if near then [m.noise, m.noise] else [m.noise]) + Out(delta, m', rest)
      && Held(m') == if near then [cur] else [m.noise, cur]
  {
    var m1 := Process(delta, m, cur).0;
    OutTakes(delta, m, cur, rest);
    OutDrains(delta, m1, rest);
    m' := Drain(delta, m1).0;
    assert [m.noise] + ([m.noise] + Out(delta, m', rest)) == [m.noise, m.noise] + Out(delta, m', rest);
  }

  /** After a quick movement one sample comes out twice and the one before it never does. */
  lemma OneTwiceOneNever(last: Sample)
    ensures var a, b, c, r := Sample(0, 0, 1, 0), Sample(10, 0, 1, 1), Sample(10, 1, 1, 2), Sample(10, 1, 0, 3);
            Out(1, Memory(false, false, false, false, last, last), [a, b, c, r]) == [b, b, c, r]
  {
    var a, b, c, r := Sample(0, 0, 1, 0), Sample(10, 0, 1, 1), Sample(10, 1, 1, 2), Sample(10, 1, 0, 3);
    var m0 := Memory(false, false, false, false, last, last);
    assert [a, b, c, r] == [a] + [b, c, r] && [b, c, r] == [b] + [c, r] && [c, r] == [c] + [r] && [r] == [r] + [];
    var m1 := Memory(true, true, false, false, a, last);
    OutTakes(1, m0, a, [b, c, r]);
    var m2 := m1.(noiseValid := true, noise := b);
    OutTakes(1, m1, b, [c, r]);
    var m3 := m2.(noiseValid := false, submitNoise := true, last := b, noise := c);
    OutTakes(1, m2, c, [r]);
    OutDrains(1, m3, [r]);
    var m4 := m3.(submitNoise := false, last := c);
    assert Drain(1, m3) == (m4, [b]);
    var m5 := StrokeEnds(1, m4, r, []);
    assert Out(1, m5, []) == [];
  }
}
