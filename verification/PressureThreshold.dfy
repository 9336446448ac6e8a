/**
  `pthres`: drops samples whose pressure is out of bounds and turns the first
  one that is too light after a press into a release.  The samples are
  compacted in place, and the pen's state is kept from one read to the next.
 */
module PressureThreshold {
  import opened TouchSamples

  /** The static variables `press`, `xsave` and `ysave`. */
  datatype Pen = Pen(press: bool, x: int, y: int)

  /** What becomes of one sample: at most one sample. */
  ghost function Pass(pmin: nat, pmax: nat, pen: Pen, s: Sample): (Pen, seq<Sample>) {
    if s.pressure < pmin then
      if pen.press then (pen.(press := false), [s.(pressure := 0, x := pen.x, y := pen.y)]) else (pen, [])
    else if s.pressure > pmax then (pen, [])
    else (Pen(true, s.x, s.y), [s])
  }

  ghost function Filter(pmin: nat, pmax: nat, pen: Pen, s: seq<Sample>): (Pen, seq<Sample>) {
    if s == [] then (pen, [])
    else
      var (pen1, out1) := Filter(pmin, pmax, pen, s[..|s| - 1]);
      var (pen2, out2) := Pass(pmin, pmax, pen1, s[|s| - 1]);
      (pen2, out1 + out2)
  }

  /** Filtering in batches is filtering at once. */
  lemma {:induction false} BatchesDoNotMatter(pmin: nat, pmax: nat, pen: Pen, a: seq<Sample>, b: seq<Sample>)
    ensures var (pen1, out1) := Filter(pmin, pmax, pen, a);
            var (pen2, out2) := Filter(pmin, pmax, pen1, b);
            Filter(pmin, pmax, pen, a + b) == (pen2, out1 + out2)
    decreases |b|
  {
    var (pen1, out1) := Filter(pmin, pmax, pen, a);
    if b == [] {
      assert a + b == a;
      assert out1 + [] == out1;
    } else {
      var b0, c := b[..|b| - 1], b[|b| - 1];
      BatchesDoNotMatter(pmin, pmax, pen, a, b0);
      var (pen2, out2) := Filter(pmin, pmax, pen1, b0);
      assert a + b == (a + b0) + [c];
      OneMore(pmin, pmax, pen, a + b0, c);
      assert out1 + out2 + Pass(pmin, pmax, pen2, c).1 == out1 + (out2 + Pass(pmin, pmax, pen2, c).1);
    }
  }

  lemma Advance(pmin: nat, pmax: nat, start: Pen, s: seq<Sample>, i: nat, pen: Pen, out: seq<Sample>, pen': Pen,
      more: seq<Sample>)
    requires i < |s| && (pen, out) == Filter(pmin, pmax, start, s[..i]) && (pen', more) == Pass(pmin, pmax, pen, s[i])
    ensures (pen', out + more) == Filter(pmin, pmax, start, s[..i + 1])
    ensures more == [] ==> out + more == out
  {
    assert s[..i + 1] == s[..i] + [s[i]];
    OneMore(pmin, pmax, start, s[..i], s[i]);
  }

  lemma OneMore(pmin: nat, pmax: nat, pen: Pen, s: seq<Sample>, c: Sample)
    ensures var (pen1, out1) := Filter(pmin, pmax, pen, s);
            var (pen2, out2) := Pass(pmin, pmax, pen1, c);
            Filter(pmin, pmax, pen, s + [c]) == (pen2, out1 + out2)
  {
    assert (s + [c])[..|s|] == s;
  }

  /** `memmove` of the last `left` samples one place down, onto the sample at `at`. */
  method MoveDown(samp: array<Sample>, at: nat, left: nat)
    requires at + 1 + left <= samp.Length
    modifies samp
    ensures samp[at..at + left] == old(samp[at + 1..at + 1 + left])
    ensures samp[..at] == old(samp[..at]) && samp[at + left..] == old(samp[at + left..])
  {
    forall j | at <= j < at + left {
      samp[j] := samp[j + 1];
    }
  }

  /** The samples still to look at: `n` of them from `at` on. */
  ghost function Remaining(samp: array<Sample>, at: nat, n: nat): seq<Sample>
    requires at + n <= samp.Length
    reads samp
  {
    samp[at..at + n]
  }

  lemma AllRemain(samp: array<Sample>, n: nat)
    requires n <= samp.Length
    ensures Remaining(samp, 0, n) == samp[..n]
  {}

  /** The samples left, and those behind them, as parts of what follows the first one left. */
  lemma Tails(a: seq<Sample>, nr: nat, ret: nat, left: nat)
    requires 0 < left <= ret - nr && ret <= |a|
    ensures a[nr..nr + left][0] == a[nr] && a[nr..nr + left][1..] == a[nr + 1..][..left - 1]
    ensures a[nr + 1..nr + left] == a[nr + 1..][..left - 1] && a[ret..] == a[nr + 1..][ret - nr - 1..]
  {}

  lemma Moved(was: seq<Sample>, a: seq<Sample>, nr: nat, ret: nat, left: nat)
    requires 0 < left <= ret - nr && ret <= |a| == |was|
    requires a[nr..ret - 1] == was[nr + 1..ret] && a[ret - 1..] == was[ret - 1..]
    ensures a[nr..nr + left - 1] == was[nr + 1..nr + left] && a[ret..] == was[ret..]
  {
    assert a[nr..nr + left - 1] == a[nr..ret - 1][..left - 1];
    assert was[nr + 1..nr + left] == was[nr + 1..ret][..left - 1];
    assert a[ret..] == a[ret - 1..][1..] && was[ret..] == was[ret - 1..][1..];
  }

  class Threshold {
    const pmin: nat
    const pmax: nat
    var press: bool
    var xsave: int
    var ysave: int

    constructor (pmin: nat, pmax: nat)
      ensures this.pmin == pmin && this.pmax == pmax && !press
    {
      this.pmin, this.pmax := pmin, pmax;
      press, xsave, ysave := false, 0, 0;
    }

    ghost function State(): Pen
      reads this
    {
      Pen(press, xsave, ysave)
    }

    /**
      `pthres_read`, once the layer below has put `ret` samples into `samp` or
      failed: the samples kept are the first `nr`, as filtering them in order
      gives them, and nothing behind the batch is touched.
     */
    method Read(samp: array<Sample>, ret: int) returns (nr: int)
      requires ret <= samp.Length
      modifies this, samp
      ensures ret < 0 ==> nr == ret && State() == old(State()) && samp[..] == old(samp[..])
      ensures ret >= 0 ==>
        && 0 <= nr <= ret
        && (State(), samp[..nr]) == Filter(pmin, pmax, old(State()), old(samp[..ret]))
        && samp[ret..] == old(samp[ret..])
    {
      hide Pass, Remaining;
      if ret < 0 {
        return ret;
      }
      nr := 0;
      AllRemain(samp, ret);
      ghost var was := samp[..ret];
      assert was[..0] == [] && was[0..] == was;
      var i := 0;
      while i < ret
        invariant 0 <= nr <= i <= ret
        invariant (State(), samp[..nr]) == Filter(pmin, pmax, old(State()), was[..i])
        invariant Remaining(samp, nr, ret - i) == was[i..]
        invariant samp[ret..] == old(samp[ret..])
      {
        ghost var pen, sofar := State(), samp[..nr];
        assert was[i..][0] == was[i];
        var kept, last := Turn(samp, nr, ret, ret - i);
        ghost var more := if kept then [samp[nr]] else [];
        Advance(pmin, pmax, old(State()), was, i, pen, sofar, State(), more);
        if last {
          assert was[..i + 1] == was;
          return;
        }
        assert was[i..][1..] == was[i + 1..];
        if kept {
          assert samp[..nr + 1] == samp[..nr] + [samp[nr]];
          nr := nr + 1;
        }
        i := i + 1;
      }
      assert was[..ret] == was;
    }

    /** The body of the loop: keeps the sample at `nr`, or closes the gap it leaves, unless it was the last. */
    method Turn(samp: array<Sample>, nr: nat, ret: nat, ghost left: nat) returns (kept: bool, last: bool)
      requires 0 < left <= ret - nr && ret <= samp.Length
      modifies this, samp
      ensures samp[..nr] == old(samp[..nr]) && samp[ret..] == old(samp[ret..])
      ensures (State(), if kept then [samp[nr]]
        else []) == Pass(pmin, pmax, old(State()), old(Remaining(samp, nr, left)[0]))
      ensures Remaining(samp, if kept then nr + 1 else nr, left - 1) == old(Remaining(samp, nr, left))[1..]
      ensures last ==> !kept && left == 1
    {
      hide Pass;
      Tails(samp[..], nr, ret, left);
      kept := PassAt(samp, nr);
      Tails(samp[..], nr, ret, left);
      last := false;
      if !kept {
        last := CloseGap(samp, nr, ret, left);
      }
    }

    /** Moves what is left over a sample that is not kept, unless that was the last. */
    method CloseGap(samp: array<Sample>, nr: nat, ret: nat, ghost left: nat) returns (last: bool)
      requires 0 < left <= ret - nr && ret <= samp.Length
      modifies samp
      ensures samp[..nr] == old(samp[..nr]) && samp[ret..] == old(samp[ret..])
      ensures samp[nr..nr + left - 1] == old(samp[nr + 1..nr + left])
      ensures last ==> left == 1
    {
      var after := ret - nr - 1;
      last := after <= 0;
      if after > 0 {
        ghost var was := samp[..];
        MoveDown(samp, nr, after);
        Moved(was, samp[..], nr, ret, left);
      }
    }

    /** Decides about the sample at `nr`, and makes it a release if need be. */
    method PassAt(samp: array<Sample>, nr: nat) returns (kept: bool)
      requires nr < samp.Length
      modifies this`press, this`xsave, this`ysave, samp
      ensures samp[..nr] == old(samp[..nr]) && samp[nr + 1..] == old(samp[nr + 1..])
      ensures (State(), if kept then [samp[nr]] else []) == Pass(pmin, pmax, old(State()), old(samp[nr]))
    {
      var s := samp[nr];
      if s.pressure < pmin {
        if !press {
          return false;
        }
        press := false;
        samp[nr] := s.(pressure := 0, x := xsave, y := ysave);
      } else {
        if s.pressure > pmax {
          return false;
        }
        press, xsave, ysave := true, s.x, s.y;
      }
      return true;
    }
  }

  // ----- What comes out -----

  ghost predicate Within(pmin: nat, pmax: nat, s: Sample) { pmin <= s.pressure <= pmax }

  /** The samples of `s` within bounds, in order. */
  ghost function WithinBounds(pmin: nat, pmax: nat, s: seq<Sample>): seq<Sample> {
    if s == [] then []
    else WithinBounds(pmin, pmax, s[..|s| - 1]) + if Within(pmin, pmax, s[|s| - 1]) then [s[|s| - 1]] else []
  }

  ghost function Presses(s: seq<Sample>): seq<Sample> {
    if s == [] then [] else Presses(s[..|s| - 1]) + if Press(s[|s| - 1]) then [s[|s| - 1]] else []
  }

  /** The pen before the sample at `i` of `out`. */
  ghost function Before(pen: Pen, out: seq<Sample>, i: nat): Pen
    requires i <= |out|
  {
    if i == 0 then pen else Pen(Press(out[i - 1]), out[i - 1].x, out[i - 1].y)
  }

  /** A press, or the release of a pen where it last pressed. */
  ghost predicate Continues(pen: Pen, s: Sample) {
    Press(s) || (pen.press && s.x == pen.x && s.y == pen.y)
  }

  ghost predicate Follows(pen: Pen, out: seq<Sample>, pen': Pen) {
    && (forall i: nat :: i < |out| ==> Continues(Before(pen, out, i), out[i]))
    && pen' == Before(pen, out, |out|)
  }

  lemma {:induction false} FilterFollows(pmin: nat, pmax: nat, pen: Pen, s: seq<Sample>)
    requires pmin > 0
    ensures var (pen', out) := Filter(pmin, pmax, pen, s);
            Follows(pen, out, pen') && InStrokes(pen.press, out) && Presses(out) == WithinBounds(pmin, pmax, s)
    decreases |s|
  {
    if s != [] {
      var c := s[|s| - 1];
      FilterFollows(pmin, pmax, pen, s[..|s| - 1]);
      var (pen1, out1) := Filter(pmin, pmax, pen, s[..|s| - 1]);
      var (pen2, out2) := Pass(pmin, pmax, pen1, c);
      if out2 == [] {
        assert out1 + out2 == out1;
      } else {
        assert (out1 + out2)[..|out1 + out2| - 1] == out1;
        FollowsOn(pen, out1, pen1, out2[0], pen2);
      }
    }
  }

  lemma FollowsOn(pen: Pen, out: seq<Sample>, pen1: Pen, c: Sample, pen2: Pen)
    requires Follows(pen, out, pen1) && Continues(pen1, c) && pen2 == Pen(Press(c), c.x, c.y)
    ensures Follows(pen, out + [c], pen2) && InStrokes(pen.press, out + [c])
  {
    var o := out + [c];
    forall i: nat | i < |o|
      ensures Continues(Before(pen, o, i), o[i])
    {
      assert Before(pen, o, i) == Before(pen, out, i);
      assert i < |out| ==> Continues(Before(pen, out, i), out[i]);
    }
    forall i: nat | i < |o|
      ensures Alternates(pen.press, o, i)
    {
      assert Continues(Before(pen, o, i), o[i]);
    }
  }

  // ----- When the pen is lifted -----

  /** A sample that is not simply too heavy. */
  ghost predicate Heeded(pmin: nat, pmax: nat, c: Sample) {
    c.pressure < pmin || c.pressure <= pmax
  }

  /** Of the first `n` samples the one at `k` is the last that is heeded. */
  ghost predicate LastHeeded(pmin: nat, pmax: nat, s: seq<Sample>, n: nat, k: nat)
    requires n <= |s|
  {
    k < n && Heeded(pmin, pmax, s[k]) && forall j :: k < j < n ==> !Heeded(pmin, pmax, s[j])
  }

  ghost predicate NoneHeeded(pmin: nat, pmax: nat, s: seq<Sample>, n: nat)
    requires n <= |s|
  {
    forall j :: 0 <= j < n ==> !Heeded(pmin, pmax, s[j])
  }

  /** The pen is down after `n` samples: the last one heeded was heavy enough, or there was none and it was down. */
  ghost predicate DownAfter(pmin: nat, pmax: nat, down: bool, s: seq<Sample>, n: nat)
    requires n <= |s|
  {
    || (exists k: nat :: LastHeeded(pmin, pmax, s, n, k) && s[k].pressure >= pmin)
    || (down && NoneHeeded(pmin, pmax, s, n))
  }

  /** Where the last of the first `n` samples within bounds was. */
  ghost function LastPlace(pmin: nat, pmax: nat, pen: Pen, s: seq<Sample>, n: nat): (int, int)
    requires n <= |s|
  {
    if n == 0 then (pen.x, pen.y)
    else if pmin <= s[n - 1].pressure <= pmax then (s[n - 1].x, s[n - 1].y)
    else LastPlace(pmin, pmax, pen, s, n - 1)
  }

  /** The sample at `i` lifts the pen. */
  ghost predicate LiftsAt(pmin: nat, pmax: nat, down: bool, s: seq<Sample>, i: nat)
    requires i < |s|
  {
    s[i].pressure < pmin && DownAfter(pmin, pmax, down, s, i)
  }

  /** What comes out for the sample at `i`: itself within bounds, a release at the last place if it lifts the pen. */
  ghost function Contribution(pmin: nat, pmax: nat, pen: Pen, s: seq<Sample>, i: nat): seq<Sample>
    requires i < |s|
  {
    if pmin <= s[i].pressure <= pmax then [s[i]]
    else if LiftsAt(pmin, pmax, pen.press, s, i) then
      var (x, y) := LastPlace(pmin, pmax, pen, s, i); [Sample(x, y, 0, s[i].tv)]
    else []
  }

  ghost function Contributions(pmin: nat, pmax: nat, pen: Pen, s: seq<Sample>, n: nat): seq<Sample>
    requires n <= |s|
  {
    if n == 0 then [] else Contributions(pmin, pmax, pen, s, n - 1) + Contribution(pmin, pmax, pen, s, n - 1)
  }

  /** One sample more, and whether the pen is down. */
  lemma DownNext(pmin: nat, pmax: nat, down: bool, s: seq<Sample>, n: nat)
    requires n < |s|
    ensures DownAfter(pmin, pmax, down, s, n + 1) <==>
      if s[n].pressure < pmin then false else s[n].pressure <= pmax || DownAfter(pmin, pmax, down, s, n)
  {
    if Heeded(pmin, pmax, s[n]) {
      assert LastHeeded(pmin, pmax, s, n + 1, n);
    } else {
      assert forall k: nat :: LastHeeded(pmin, pmax, s, n + 1, k) <==> LastHeeded(pmin, pmax, s, n, k);
    }
  }

  /**
    The filter for every bound and stream, sample by sample: the pen is down
    after it exactly if the last sample heeded was heavy enough, and what comes
    out is, in order, the samples within bounds and one release for each sample
    that lifts the pen, where it last pressed and with that sample's time.
   */
  lemma {:induction false} SampleBySample(pmin: nat, pmax: nat, pen: Pen, s: seq<Sample>, n: nat)
    requires n <= |s|
    ensures var (pen', out) := Filter(pmin, pmax, pen, s[..n]);
            && (pen'.press <==> DownAfter(pmin, pmax, pen.press, s, n))
            && (pen'.x, pen'.y) == LastPlace(pmin, pmax, pen, s, n)
            && out == Contributions(pmin, pmax, pen, s, n)
  {
    if n == 0 {
      assert NoneHeeded(pmin, pmax, s, 0);
    } else {
      hide DownAfter;
      SampleBySample(pmin, pmax, pen, s, n - 1);
      assert s[..n][..n - 1] == s[..n - 1];
      DownNext(pmin, pmax, pen.press, s, n - 1);
    }
  }

  /** The samples of `s` that lift the pen, in order. */
  ghost function Lifting(pmin: nat, pmax: nat, down: bool, s: seq<Sample>, n: nat): seq<Sample>
    requires n <= |s|
  {
    if n == 0 then []
    else Lifting(pmin, pmax, down, s, n - 1) + if LiftsAt(pmin, pmax, down, s, n - 1) then [s[n - 1]] else []
  }

  /** The times of samples. */
  ghost function Times(s: seq<Sample>): seq<int> {
    seq(|s|, i requires 0 <= i < |s| => s[i].tv)
  }

  lemma TimesOfOneMore(s: seq<Sample>, c: Sample)
    ensures Times(s + [c]) == Times(s) + [c.tv]
  {}

  lemma ContributionKinds(pmin: nat, pmax: nat, pen: Pen, s: seq<Sample>, i: nat)
    requires pmin > 0 && i < |s|
    ensures var c := Contribution(pmin, pmax, pen, s, i);
            if LiftsAt(pmin, pmax, pen.press, s, i) then |c| == 1 && !Press(c[0]) && c[0].tv == s[i].tv
            else c == [] || (|c| == 1 && Press(c[0]))
  {}

  lemma ReleasesStep(before: seq<Sample>, c: seq<Sample>, lifted: seq<Sample>, lifts: bool, x: Sample)
    requires Times(Releases(before)) == Times(lifted)
    requires if lifts then |c| == 1 && !Press(c[0]) && c[0].tv == x.tv else c == [] || (|c| == 1 && Press(c[0]))
    ensures Times(Releases(before + c)) == Times(lifted + if lifts then [x] else [])
  {
    hide Times, Releases;
    assert lifted + [] == lifted && Releases(before) + [] == Releases(before);
    if c == [] {
      assert before + c == before;
    } else {
      assert c == [c[0]];
      ReleasesOfOneMore(before, c[0]);
      TimesOfOneMore(Releases(before), c[0]);
      TimesOfOneMore(lifted, x);
    }
  }

  /** The releases that come out are those of the samples that lift the pen, one for each, with their times. */
  lemma {:induction false} ReleasesAreLifts(pmin: nat, pmax: nat, pen: Pen, s: seq<Sample>, n: nat)
    requires pmin > 0 && n <= |s|
    ensures Times(Releases(Contributions(pmin, pmax, pen, s, n))) == Times(Lifting(pmin, pmax, pen.press, s, n))
  {
    hide LiftsAt, Times, Releases, Contribution;
    if n == 0 {
      assert Releases([]) == [] by { NoReleases(); }
    } else {
      ReleasesAreLifts(pmin, pmax, pen, s, n - 1);
      ContributionKinds(pmin, pmax, pen, s, n - 1);
      ReleasesStep(Contributions(pmin, pmax, pen, s, n - 1), Contribution(pmin, pmax, pen, s, n - 1),
        Lifting(pmin, pmax, pen.press, s, n - 1), LiftsAt(pmin, pmax, pen.press, s, n - 1), s[n - 1]);
    }
  }

  lemma NoReleases()
    ensures Releases([]) == []
  {}

  /**
    With a positive lower bound the output is made of strokes; each release is
    where the pen last pressed; the presses are exactly the samples within
    bounds, and the releases are those of exactly the samples that lift the pen.
   */
  lemma OutputInStrokes(pmin: nat, pmax: nat, pen: Pen, s: seq<Sample>)
    requires pmin > 0
    ensures var (pen', out) := Filter(pmin, pmax, pen, s);
            && Follows(pen, out, pen') && InStrokes(pen.press, out)
            && Presses(out) == WithinBounds(pmin, pmax, s)
            && Times(Releases(out)) == Times(Lifting(pmin, pmax, pen.press, s, |s|))
            && (pen'.press <==> DownAfter(pmin, pmax, pen.press, s, |s|))
  {
    hide *;
    assert s[..|s|] == s;
    FilterFollows(pmin, pmax, pen, s);
    SampleBySample(pmin, pmax, pen, s, |s|);
    ReleasesAreLifts(pmin, pmax, pen, s, |s|);
  }

  /** A lower bound of zero lets a sample without pressure pass as a press, so the output may start with a release. */
  lemma StrokesIffBound(pmin: nat, pmax: nat)
    ensures (forall pen: Pen, s: seq<Sample> :: InStrokes(pen.press, Filter(pmin, pmax, pen, s).1)) <==> pmin > 0
  {
    if pmin > 0 {
      forall pen: Pen, s: seq<Sample>
        ensures InStrokes(pen.press, Filter(pmin, pmax, pen, s).1)
      {
        OutputInStrokes(pmin, pmax, pen, s);
      }
    } else {
      var pen, lift := Pen(false, 0, 0), Sample(0, 0, 0, 0);
      OneMore(pmin, pmax, pen, [], lift);
      assert [] + [lift] == [lift];
      var out := Filter(pmin, pmax, pen, [lift]).1;
      assert out == [lift] && !Alternates(pen.press, out, 0);
    }
  }
}
