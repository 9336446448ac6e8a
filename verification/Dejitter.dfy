/**
  `dejitter`: every press becomes a weighted average of the last presses, at
  most four, that followed each other closely.  A ring of four holds them.

  The reference is the window: the presses since the last reset, newest first.
 */
module Dejitter {
  import opened Common
  import opened TouchSamples

  const HISTORY: nat := 4

  /** Weights, newest sample first, by the number of samples less two; they add up to a power of two. */
  const WEIGHTS: seq<seq<nat>> := [[5, 3, 0, 0], [8, 5, 3, 0], [6, 4, 3, 3]]
  const SHIFTS: seq<nat> := [8, 16, 16]

  datatype Point = Point(x: int, y: int, p: nat)

  function PointOf(s: Sample): Point { Point(s.x, s.y, s.pressure) }

  /** The weighted sum of the first `n` of a list of coordinates. */
  ghost function Sum(xs: seq<int>, w: seq<nat>, n: nat): (r: int)
    requires n <= |xs| && n <= |w|
    ensures (forall i :: 0 <= i < n ==> xs[i] >= 0) ==> r >= 0
  {
    if n == 0 then 0 else Sum(xs, w, n - 1) + xs[n - 1] * w[n - 1]
  }

  lemma NoSum(xs: seq<int>, w: seq<nat>)
    ensures Sum(xs, w, 0) == 0
  {}

  lemma SumNext(xs: seq<int>, w: seq<nat>, n: nat)
    requires n < |xs| && n < |w|
    ensures Sum(xs, w, n + 1) == Sum(xs, w, n) + xs[n] * w[n]
  {}

  ghost function Xs(w: seq<Point>): seq<int> { seq(|w|, i requires 0 <= i < |w| => w[i].x) }
  ghost function Ys(w: seq<Point>): seq<int> { seq(|w|, i requires 0 <= i < |w| => w[i].y) }
  ghost function Ps(w: seq<Point>): seq<int> { seq(|w|, i requires 0 <= i < |w| => w[i].p) }

  /** The average of a window of two to four coordinates; shifting right rounds down. */
  ghost function Average(xs: seq<int>): (r: int)
    requires 2 <= |xs| <= HISTORY
    ensures (forall i :: 0 <= i < |xs| ==> xs[i] >= 0) ==> r >= 0
  {
    Sum(xs, WEIGHTS[|xs| - 2], |xs|) / SHIFTS[|xs| - 2]
  }

  // ----- The reference -----

  ghost function Far(delta: int, a: Point, s: Sample): bool {
    (s.x - a.x) * (s.x - a.x) + (s.y - a.y) * (s.y - a.y) > delta
  }

  /** The window after a press. */
  ghost function Grow(delta: int, w: seq<Point>, s: Sample): (w': seq<Point>)
    ensures 1 <= |w'| <= HISTORY && w'[0] == PointOf(s)
  {
    var kept := if w != [] && Far(delta, w[0], s) then [] else w;
    [PointOf(s)] + if |kept| < HISTORY then kept else kept[..HISTORY - 1]
  }

  ghost function Smooth(w: seq<Point>, s: Sample): Sample
    requires 1 <= |w| <= HISTORY
  {
    if |w| == 1 then s
    else Sample(Average(Xs(w)), Average(Ys(w)), Average(Ps(w)), s.tv)
  }

  ghost function Process(delta: int, w: seq<Point>, s: Sample): (seq<Point>, Sample) {
    if s.pressure == 0 then ([], s)
    else
      var w' := Grow(delta, w, s);
      (w', Smooth(w', s))
  }

  ghost function Filter(delta: int, w: seq<Point>, s: seq<Sample>): (r: (seq<Point>, seq<Sample>))
    ensures |r.1| == |s|
    decreases |s|
  {
    if s == [] then (w, [])
    else
      var (w1, out1) := Filter(delta, w, s[..|s| - 1]);
      var (w2, c) := Process(delta, w1, s[|s| - 1]);
      (w2, out1 + [c])
  }

  lemma OneMore(delta: int, w: seq<Point>, s: seq<Sample>, c: Sample)
    ensures var (w1, out1) := Filter(delta, w, s);
            var (w2, d) := Process(delta, w1, c);
            Filter(delta, w, s + [c]) == (w2, out1 + [d])
  {
    assert (s + [c])[..|s|] == s;
  }

  /** Filtering in batches is filtering at once. */
  lemma {:induction false} BatchesDoNotMatter(delta: int, w: seq<Point>, a: seq<Sample>, b: seq<Sample>)
    ensures var (w1, out1) := Filter(delta, w, a);
            var (w2, out2) := Filter(delta, w1, b);
            Filter(delta, w, a + b) == (w2, out1 + out2)
    decreases |b|
  {
    var (w1, out1) := Filter(delta, w, a);
    if b == [] {
      assert a + b == a && out1 + [] == out1;
    } else {
      var b0, c := b[..|b| - 1], b[|b| - 1];
      BatchesDoNotMatter(delta, w, a, b0);
      var (w2, out2) := Filter(delta, w1, b0);
      assert a + b == (a + b0) + [c];
      OneMore(delta, w, a + b0, c);
      var d := Process(delta, w2, c).1;
      assert (out1 + out2) + [d] == out1 + (out2 + [d]);
    }
  }

  lemma Advance(delta: int, start: seq<Point>, s: seq<Sample>, i: nat, w: seq<Point>, out: seq<Sample>)
    requires i < |s| && (w, out) == Filter(delta, start, s[..i])
    ensures var (w1, d) := Process(delta, w, s[i]); (w1, out + [d]) == Filter(delta, start, s[..i + 1])
  {
    assert s[..i + 1] == s[..i] + [s[i]];
    OneMore(delta, start, s[..i], s[i]);
  }

  // ----- The ring -----

  /** The `n` points before the slot `from` of a ring, newest first. */
  ghost function Points(ring: seq<Point>, from: int, n: nat): (w: seq<Point>)
    requires |ring| == HISTORY
  {
    seq(n, i requires 0 <= i < n => ring[(from - 1 - i) % HISTORY])
  }

  /** Writing a slot and moving past it puts the point in front and drops the fourth. */
  lemma Push(ring: seq<Point>, head: nat, n: nat, p: Point)
    requires |ring| == HISTORY && head < HISTORY && n <= HISTORY
    ensures var w := Points(ring, head, n);
            Points(ring[head := p], head + 1, if n < HISTORY then n + 1 else n) ==
              [p] + if n < HISTORY then w else w[..HISTORY - 1]
  {
    var m := if n < HISTORY then n + 1 else n;
    var w := Points(ring, head, n);
    var w' := Points(ring[head := p], head + 1, m);
    forall i | 1 <= i < m
      ensures w'[i] == w[i - 1]
    {
      assert (head + 1 - 1 - i) % HISTORY == (head - 1 - (i - 1)) % HISTORY != head;
    }
  }

  lemma WrapAround(ring: seq<Point>, from: nat, n: nat)
    requires |ring| == HISTORY && from <= HISTORY
    ensures Points(ring, from % HISTORY, n) == Points(ring, from, n)
  {
    if from == HISTORY {
      forall i | 0 <= i < n
        ensures Points(ring, 0, n)[i] == Points(ring, HISTORY, n)[i]
      {
        assert (0 - 1 - i) % HISTORY == (HISTORY - 1 - i) % HISTORY;
      }
    }
  }

  lemma SmoothOne(w: seq<Point>, s: Sample)
    requires |w| == 1
    ensures Smooth(w, s) == s
  {}

  lemma OneBack(n: int)
    ensures (n % HISTORY - 1) % HISTORY == (n - 1) % HISTORY
  {}

  class Ring {
    const delta: int
    var nr: nat
    var head: nat
    const hist: array<Point>

    constructor (delta: int)
      ensures Valid() && Window() == [] && this.delta == delta * delta && fresh(hist)
    {
      this.delta := delta * delta;
      nr, head := 0, 0;
      hist := new Point[HISTORY](_ => Point(0, 0, 0));
    }

    ghost predicate Valid()
      reads this
    {
      hist.Length == HISTORY && nr <= HISTORY && head < HISTORY
    }

    ghost function Window(): (w: seq<Point>)
      requires Valid()
      reads this, hist
    {
      Points(hist[..], head, nr)
    }

    /** The loop of `average`: walks the ring backwards from the newest point. */
    method AddUp(w: seq<nat>) returns (x: int, y: int, p: int)
      requires Valid() && nr <= |w|
      ensures var window := Points(hist[..], head + 1, nr);
              x == Sum(Xs(window), w, nr) && y == Sum(Ys(window), w, nr) && p == Sum(Ps(window), w, nr)
    {
      hide Sum;
      x, y, p := 0, 0, 0;
      var sn := head;
      ghost var window := Points(hist[..], head + 1, nr);
      NoSum(Xs(window), w);
      NoSum(Ys(window), w);
      NoSum(Ps(window), w);
      for i := 0 to nr
        invariant 0 <= sn < HISTORY && sn == (head - i) % HISTORY
        invariant x == Sum(Xs(window), w, i) && y == Sum(Ys(window), w, i) && p == Sum(Ps(window), w, i)
      {
        assert window[i] == hist[..][(head + 1 - 1 - i) % HISTORY] == hist[sn];
        assert Xs(window)[i] == hist[sn].x && Ys(window)[i] == hist[sn].y && Ps(window)[i] == hist[sn].p;
        SumNext(Xs(window), w, i);
        SumNext(Ys(window), w, i);
        SumNext(Ps(window), w, i);
        x := x + hist[sn].x * w[i];
        y := y + hist[sn].y * w[i];
        p := p + hist[sn].p * w[i];
        OneBack(head - i);
        sn := (sn - 1) % HISTORY;
      }
    }

    /** `average`. */
    method WeightedSums(samp: array<Sample>, at: nat)
      requires Valid() && 2 <= nr && at < samp.Length
      modifies samp
      ensures samp[at] == Smooth(Points(hist[..], head + 1, nr), old(samp[at]))
      ensures forall j :: 0 <= j < samp.Length && j != at ==> samp[j] == old(samp[j])
    {
      hide Sum;
      var x, y, p := AddUp(WEIGHTS[nr - 2]);
      var shift := SHIFTS[nr - 2];
      assert p / shift == Average(Ps(Points(hist[..], head + 1, nr)));
      samp[at] := Sample(x / shift, y / shift, p / shift, samp[at].tv);
    }

    /** `dejitter_read`, once the layer below has delivered `ret` samples: each is replaced in place. */
    method Read(samp: array<Sample>, ret: nat)
      requires Valid() && ret <= samp.Length
      modifies this, hist, samp
      ensures Valid()
      ensures (Window(), samp[..ret]) == Filter(delta, old(Window()), old(samp[..ret]))
      ensures samp[ret..] == old(samp[ret..])
    {
      hide Process;
      ghost var was := samp[..ret];
      var count := 0;
      while count < ret
        invariant Valid() && count <= ret
        invariant (Window(), samp[..count]) == Filter(delta, old(Window()), was[..count])
        invariant forall j :: count <= j < samp.Length ==> samp[j] == old(samp[j])
      {
        Advance(delta, old(Window()), was, count, Window(), samp[..count]);
        ghost var out := samp[..count];
        Replace(samp, count);
        assert samp[..count + 1] == out + [samp[count]];
        count := count + 1;
      }
      assert was[..ret] == was;
    }

    method Replace(samp: array<Sample>, count: nat)
      requires Valid() && count < samp.Length
      modifies this, hist, samp
      ensures Valid()
      ensures (Window(), samp[count]) == Process(delta, old(Window()), old(samp[count]))
      ensures forall j :: 0 <= j < samp.Length && j != count ==> samp[j] == old(samp[j])
    {
      hide Smooth;
      var s := samp[count];
      if s.pressure == 0 {
        nr := 0;
        assert Window() == [];
        return;
      }
      if nr != 0 {
        var prev := (head - 1) % HISTORY;
        assert hist[prev] == Window()[0];
        if (s.x - hist[prev].x) * (s.x - hist[prev].x) + (s.y - hist[prev].y) * (s.y - hist[prev].y) > delta {
          nr := 0;
        }
      }
      ghost var ring := hist[..];
      Push(ring, head, nr, PointOf(s));
      hist[head] := PointOf(s);
      assert hist[..] == ring[head := PointOf(s)];
      if nr < HISTORY {
        nr := nr + 1;
      }
      assert Points(hist[..], head + 1, nr) == Grow(delta, old(Window()), s);
      if nr != 1 {
        WeightedSums(samp, count);
      } else {
        SmoothOne(Points(hist[..], head + 1, nr), s);
      }
      WrapAround(hist[..], head + 1, nr);
      head := (head + 1) % HISTORY;
    }
  }

  // ----- What comes out -----

  /** A window of presses in which each follows the one before it within `d`. */
  ghost predicate Close(d: int, w: seq<Point>) {
    && 0 <= d && |w| <= HISTORY
    && (forall i :: 0 <= i < |w| ==> w[i].p > 0)
    && Steps(d, Xs(w)) && Steps(d, Ys(w))
  }

  ghost predicate Steps(d: int, xs: seq<int>) {
    forall i, j :: 0 <= i < |xs| && j == i + 1 < |xs| ==> -d <= xs[j] - xs[i] <= d
  }

  lemma SquareGrows(d: int, e: int)
    ensures 0 <= d < e ==> e * e > d * d
  {}

  lemma SquareBound(d: int, e: int)
    requires 0 <= d && e * e <= d * d
    ensures -d <= e <= d
  {
    SquareGrows(d, e);
    SquareGrows(d, -e);
    assert (-e) * (-e) == e * e;
  }

  lemma NotFar(d: int, a: Point, s: Sample)
    requires 0 <= d && !Far(d * d, a, s)
    ensures -d <= s.x - a.x <= d && -d <= s.y - a.y <= d
  {
    var dx, dy := s.x - a.x, s.y - a.y;
    assert dx * dx >= 0 && dy * dy >= 0;
    SquareBound(d, dx);
    SquareBound(d, dy);
  }

  lemma GrowStaysClose(d: int, w: seq<Point>, s: Sample)
    requires Close(d, w) && Press(s)
    ensures Close(d, Grow(d * d, w, s))
  {
    var w' := Grow(d * d, w, s);
    if |w'| > 1 {
      NotFar(d, w[0], s);
      assert forall i :: 1 <= i < |w'| ==> w'[i] == w[i - 1];
      assert forall i :: 1 <= i < |w'| ==> Xs(w')[i] == Xs(w)[i - 1] && Ys(w')[i] == Ys(w)[i - 1];
    }
  }

  lemma Unroll(xs: seq<int>)
    requires 2 <= |xs| <= HISTORY
    ensures |xs| == 2 ==> Average(xs) == (xs[0] * 5 + xs[1] * 3) / 8
    ensures |xs| == 3 ==> Average(xs) == (xs[0] * 8 + xs[1] * 5 + xs[2] * 3) / 16
    ensures |xs| == 4 ==> Average(xs) == (xs[0] * 6 + xs[1] * 4 + xs[2] * 3 + xs[3] * 3) / 16
  {
    var w := WEIGHTS[|xs| - 2];
    assert Sum(xs, w, 1) == Sum(xs, w, 0) + xs[0] * w[0];
    assert Sum(xs, w, 2) == Sum(xs, w, 1) + xs[1] * w[1];
    if |xs| > 2 { assert Sum(xs, w, 3) == Sum(xs, w, 2) + xs[2] * w[2]; }
    if |xs| > 3 { assert Sum(xs, w, 4) == Sum(xs, w, 3) + xs[3] * w[3]; }
  }

  /** The average is no further than 19/16 of the threshold, and rounding, from the newest sample. */
  lemma AverageNearNewest(d: int, xs: seq<int>)
    requires 0 <= d && 2 <= |xs| <= HISTORY && Steps(d, xs)
    ensures -(19 * d + 15) <= 16 * (Average(xs) - xs[0]) <= 19 * d
  {
    Unroll(xs);
    assert -d <= xs[1] - xs[0] <= d;
    if |xs| > 2 { assert -d <= xs[2] - xs[1] <= d; }
    if |xs| > 3 { assert -d <= xs[3] - xs[2] <= d; }
  }

  lemma AverageBetween(xs: seq<int>, lo: int, hi: int)
    requires 2 <= |xs| <= HISTORY && forall i :: 0 <= i < |xs| ==> lo <= xs[i] <= hi
    ensures lo <= Average(xs) <= hi
  {
    Unroll(xs);
  }

  ghost predicate Near(d: int, s: Sample, out: Sample) {
    && -(19 * d + 15) <= 16 * (out.x - s.x) <= 19 * d
    && -(19 * d + 15) <= 16 * (out.y - s.y) <= 19 * d
  }

  /** A press stays a press, near where it was. */
  lemma PressStaysNear(d: int, w: seq<Point>, s: Sample)
    requires Close(d, w) && Press(s)
    ensures var (w', out) := Process(d * d, w, s);
            Close(d, w') && Press(out) && out.tv == s.tv && Near(d, s, out)
  {
    var w' := Grow(d * d, w, s);
    GrowStaysClose(d, w, s);
    if |w'| > 1 {
      AverageNearNewest(d, Xs(w'));
      AverageNearNewest(d, Ys(w'));
      HighEnough(w');
    }
  }

  lemma HighEnough(w: seq<Point>)
    requires 2 <= |w| <= HISTORY && forall i :: 0 <= i < |w| ==> w[i].p > 0
    ensures Average(Ps(w)) > 0
  {
    Unroll(Ps(w));
    assert forall i :: 0 <= i < |w| ==> Ps(w)[i] >= 1;
  }

  /**
    Whatever the stream and however it is read: one sample out for each one in,
    releases unchanged, presses near where they were.
   */
  lemma {:induction false} OutputStaysNear(d: int, w: seq<Point>, s: seq<Sample>)
    requires Close(d, w)
    ensures var (w', out) := Filter(d * d, w, s);
            && Close(d, w') && |out| == |s|
            && forall k :: 0 <= k < |s| ==>
                 if Press(s[k]) then Press(out[k]) && out[k].tv == s[k].tv && Near(d, s[k], out[k]) else out[k] == s[k]
    decreases |s|
  {
    if s != [] {
      OutputStaysNear(d, w, s[..|s| - 1]);
      var w1 := Filter(d * d, w, s[..|s| - 1]).0;
      if Press(s[|s| - 1]) {
        PressStaysNear(d, w1, s[|s| - 1]);
      }
    }
  }

  // ----- Each sample's average, said of the stream -----

  /** The samples at `k - 1` and `k` are presses that followed each other closely. */
  ghost predicate Linked(delta: int, s: seq<Sample>, k: int)
    requires k < |s|
  {
    && 1 <= k && s[k - 1].pressure > 0 && s[k].pressure > 0
    && (s[k].x - s[k - 1].x) * (s[k].x - s[k - 1].x) + (s[k].y - s[k - 1].y) * (s[k].y - s[k - 1].y) <= delta
  }

  /** How many samples up to the one at `k` are averaged. */
  ghost function Depth(delta: int, s: seq<Sample>, k: nat): (n: nat)
    requires k < |s|
    ensures n <= k + 1 && n <= 4
  {
    if s[k].pressure == 0 then 0
    else if !Linked(delta, s, k) then 1
    else if !Linked(delta, s, k - 1) then 2
    else if !Linked(delta, s, k - 2) then 3
    else 4
  }

  /** What comes out for the sample at `k`. */
  ghost function SmoothedAt(delta: int, s: seq<Sample>, k: nat): Sample
    requires k < |s|
  {
    match Depth(delta, s, k)
    case 2 =>
      Sample((5 * s[k].x + 3 * s[k - 1].x) / 8, (5 * s[k].y + 3 * s[k - 1].y) / 8,
             (5 * s[k].pressure + 3 * s[k - 1].pressure) / 8, s[k].tv)
    case 3 =>
      Sample((8 * s[k].x + 5 * s[k - 1].x + 3 * s[k - 2].x) / 16,
             (8 * s[k].y + 5 * s[k - 1].y + 3 * s[k - 2].y) / 16,
             (8 * s[k].pressure + 5 * s[k - 1].pressure + 3 * s[k - 2].pressure) / 16, s[k].tv)
    case 4 =>
      Sample((6 * s[k].x + 4 * s[k - 1].x + 3 * s[k - 2].x + 3 * s[k - 3].x) / 16,
             (6 * s[k].y + 4 * s[k - 1].y + 3 * s[k - 2].y + 3 * s[k - 3].y) / 16,
             (6 * s[k].pressure + 4 * s[k - 1].pressure + 3 * s[k - 2].pressure + 3 * s[k - 3].pressure) / 16, s[k].tv)
    case _ => s[k]
  }

  /** The window after the sample at `k`: the last samples averaged, newest first. */
  ghost function WindowAt(delta: int, s: seq<Sample>, k: nat): seq<Point>
    requires k < |s|
  {
    seq(Depth(delta, s, k), i requires 0 <= i < Depth(delta, s, k) => PointOf(s[k - i]))
  }

  ghost function WindowBefore(delta: int, s: seq<Sample>, k: nat): seq<Point>
    requires k <= |s|
  {
    if k == 0 then [] else WindowAt(delta, s, k - 1)
  }

  lemma WindowGrows(delta: int, s: seq<Sample>, k: nat)
    requires k < |s| && s[k].pressure > 0
    ensures Grow(delta, WindowBefore(delta, s, k), s[k]) == WindowAt(delta, s, k)
  {
    if k > 0 {
      DepthNext(delta, s, k);
      var w := WindowAt(delta, s, k - 1);
      if Depth(delta, s, k - 1) > 0 {
        assert w[0] == PointOf(s[k - 1]);
      }
    }
  }

  lemma DepthNext(delta: int, s: seq<Sample>, k: nat)
    requires 0 < k < |s| && s[k].pressure > 0
    ensures Depth(delta, s, k) ==
      if !Linked(delta, s, k) then 1 else if Depth(delta, s, k - 1) == 4 then 4 else Depth(delta, s, k - 1) + 1
  {}

  lemma SmoothIs(delta: int, s: seq<Sample>, k: nat)
    requires k < |s| && s[k].pressure > 0
    ensures 1 <= |WindowAt(delta, s, k)| <= 4 && Smooth(WindowAt(delta, s, k), s[k]) == SmoothedAt(delta, s, k)
  {
    hide Average, Sum;
    var w := WindowAt(delta, s, k);
    if 2 <= |w| {
      Unroll(Xs(w));
      Unroll(Ys(w));
      Unroll(Ps(w));
      PointAt(w, 0, s[k]);
      PointAt(w, 1, s[k - 1]);
      if |w| > 2 { PointAt(w, 2, s[k - 2]); }
      if |w| > 3 { PointAt(w, 3, s[k - 3]); }
    }
  }

  lemma PointAt(w: seq<Point>, i: nat, c: Sample)
    requires i < |w| && w[i] == PointOf(c)
    ensures Xs(w)[i] == c.x && Ys(w)[i] == c.y && Ps(w)[i] == c.pressure
  {}

  lemma ReleaseIs(delta: int, s: seq<Sample>, k: nat)
    requires k < |s| && s[k].pressure == 0
    ensures SmoothedAt(delta, s, k) == s[k] && WindowAt(delta, s, k) == []
  {}

  lemma ProcessIs(delta: int, s: seq<Sample>, k: nat)
    requires k < |s|
    ensures Process(delta, WindowBefore(delta, s, k), s[k]) == (WindowAt(delta, s, k), SmoothedAt(delta, s, k))
  {
    hide SmoothedAt, Smooth, Grow, WindowAt;
    if s[k].pressure > 0 {
      WindowGrows(delta, s, k);
      SmoothIs(delta, s, k);
    } else {
      ReleaseIs(delta, s, k);
    }
  }

  lemma NothingToFilter(delta: int)
    ensures Filter(delta, [], []) == ([], [])
  {}

  /** Every sample, for every threshold and stream: releases and first presses as they are, the others averaged. */
  lemma {:induction false} SampleBySample(delta: int, s: seq<Sample>, n: nat)
    requires n <= |s|
    ensures Filter(delta, [], s[..n]).0 == WindowBefore(delta, s, n)
    ensures forall k :: 0 <= k < n ==> Filter(delta, [], s[..n]).1[k] == SmoothedAt(delta, s, k)
  {
    hide SmoothedAt, Process, Filter, WindowAt;
    if n == 0 {
      NothingToFilter(delta);
      assert s[..0] == [];
    } else {
      SampleBySample(delta, s, n - 1);
      assert s[..n] == s[..n - 1] + [s[n - 1]];
      OneMore(delta, [], s[..n - 1], s[n - 1]);
      ProcessIs(delta, s, n - 1);
    }
  }

  // ----- Strokes -----

  /** A rectangle on the screen. */
  datatype Box = Box(left: int, right: int, bottom: int, top: int)

  ghost predicate Inside(b: Box, x: int, y: int) {
    b.left <= x <= b.right && b.bottom <= y <= b.top
  }

  ghost predicate AllInside(b: Box, s: seq<Sample>) {
    forall i :: 0 <= i < |s| ==> Inside(b, s[i].x, s[i].y)
  }

  ghost predicate WindowInside(b: Box, w: seq<Point>) {
    && |w| <= HISTORY
    && forall i :: 0 <= i < |w| ==> Inside(b, w[i].x, w[i].y) && w[i].p > 0
  }

  lemma PressStaysInside(delta: int, b: Box, w: seq<Point>, s: Sample)
    requires WindowInside(b, w) && Press(s) && Inside(b, s.x, s.y)
    ensures var (w', out) := Process(delta, w, s);
            WindowInside(b, w') && Press(out) && Inside(b, out.x, out.y)
  {
    var w' := Grow(delta, w, s);
    if |w'| > 1 {
      AverageBetween(Xs(w'), b.left, b.right);
      AverageBetween(Ys(w'), b.bottom, b.top);
      HighEnough(w');
    }
  }

  /** Averaging presses never leaves the rectangle they are in. */
  lemma {:induction false} PressesStayInside(delta: int, b: Box, w: seq<Point>, ps: seq<Sample>)
    requires WindowInside(b, w) && AllPresses(ps) && AllInside(b, ps)
    ensures var (w', out) := Filter(delta, w, ps);
            WindowInside(b, w') && AllPresses(out) && AllInside(b, out)
    decreases |ps|
  {
    if ps != [] {
      PressesStayInside(delta, b, w, ps[..|ps| - 1]);
      PressStaysInside(delta, b, Filter(delta, w, ps[..|ps| - 1]).0, ps[|ps| - 1]);
    }
  }

  /** A stroke, read with an empty window, becomes a stroke with the same release, and leaves the window empty. */
  ghost function Smoothed(delta: int, k: Stroke): Stroke {
    Stroke(Filter(delta, [], k.presses).1, k.release)
  }

  lemma StrokeSmoothed(delta: int, k: Stroke)
    requires IsStroke(k)
    ensures Filter(delta, [], k.presses + [k.release]) == ([], Smoothed(delta, k).presses + [k.release])
    ensures IsStroke(Smoothed(delta, k)) && Smoothed(delta, k).release == k.release
    ensures forall b :: AllInside(b, k.presses) ==> AllInside(b, Smoothed(delta, k).presses)
  {
    OneMore(delta, [], k.presses, k.release);
    forall b | AllInside(b, k.presses)
      ensures AllInside(b, Smoothed(delta, k).presses)
    {
      PressesStayInside(delta, b, [], k.presses);
    }
    var b := Around(k.presses);
    PressesStayInside(delta, b, [], k.presses);
  }

  /** Some rectangle holds them all. */
  lemma {:induction false} Around(s: seq<Sample>) returns (b: Box)
    ensures AllInside(b, s)
    decreases |s|
  {
    if s == [] {
      return Box(0, 0, 0, 0);
    }
    var c := s[|s| - 1];
    b := Around(s[..|s| - 1]);
    b := Box(if c.x < b.left then c.x else b.left, if c.x > b.right then c.x else b.right,
             if c.y < b.bottom then c.y else b.bottom, if c.y > b.top then c.y else b.top);
    forall i | 0 <= i < |s|
      ensures Inside(b, s[i].x, s[i].y)
    {
      assert i < |s| - 1 ==> s[i] == s[..|s| - 1][i];
    }
  }

  ghost function AllSmoothed(delta: int, ks: seq<Stroke>): (js: seq<Stroke>)
    ensures |js| == |ks|
    ensures forall i :: 0 <= i < |ks| ==> js[i] == Smoothed(delta, ks[i])
  {
    seq(|ks|, i requires 0 <= i < |ks| => Smoothed(delta, ks[i]))
  }

  /** Strokes are smoothed one by one: none reaches into another. */
  lemma {:induction false} StrokesSmoothed(delta: int, ks: seq<Stroke>, tail: seq<Sample>)
    requires AreStrokes(ks)
    ensures AreStrokes(AllSmoothed(delta, ks))
    ensures Filter(delta, [], Flatten(ks) + tail).1 == Flatten(AllSmoothed(delta, ks)) + Filter(delta, [], tail).1
    decreases |ks|
  {
    hide Filter, Smoothed, IsStroke;
    var js := AllSmoothed(delta, ks);
    if ks == [] {
      assert js == [] && Flatten(ks) + tail == tail;
      assert Flatten(js) + Filter(delta, [], tail).1 == Filter(delta, [], tail).1;
    } else {
      var k, more := ks[0], ks[1..];
      StrokesSmoothed(delta, more, tail);
      StrokeSmoothed(delta, k);
      var stroke, rest := k.presses + [k.release], Flatten(more) + tail;
      Regroup(stroke, Flatten(more), tail);
      BatchesDoNotMatter(delta, [], stroke, rest);
      assert js[1..] == AllSmoothed(delta, more);
      assert js[0] == Smoothed(delta, k);
      forall i | 0 <= i < |js|
        ensures IsStroke(js[i])
      {
        assert i > 0 ==> js[i] == AllSmoothed(delta, more)[i - 1];
      }
      Regroup(js[0].presses + [js[0].release], Flatten(js[1..]), Filter(delta, [], tail).1);
    }
  }
}
