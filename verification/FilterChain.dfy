/** The three filters on top of each other: what happens to a stroke on its way from the panel to the application. */
module FilterChain {
  import opened TouchSamples
  import PressureThreshold
  import SpikeFilter
  import Dejitter

  /** What the application may read in the end, for everything the panel delivers. */
  ghost function Delivered(pmin: nat, pmax: nat, pen: PressureThreshold.Pen, spike: int, m: SpikeFilter.Memory,
                           jitter: int, raw: seq<Sample>): seq<Sample>
  {
    Dejitter.Filter(jitter, [], SpikeFilter.Out(spike, m, PressureThreshold.Filter(pmin, pmax, pen, raw).1)).1
  }

  /** The stroke `j` is what is left of `k`: the same release, and presses no further out than those of `k`. */
  ghost predicate Represents(k: Stroke, j: Stroke) {
    && IsStroke(j) && j.release == k.release
    && forall b :: Dejitter.AllInside(b, k.presses) ==> Dejitter.AllInside(b, j.presses)
  }

  lemma SurvivorRepresents(jitter: int, k: Stroke, mid: Stroke)
    requires IsStroke(k) && SpikeFilter.Survives(k, mid)
    ensures IsStroke(mid) && Represents(k, Dejitter.Smoothed(jitter, mid))
  {
    SpikeFilter.PickedFrom(mid.presses, k.presses);
    forall i | 0 <= i < |mid.presses|
      ensures Press(mid.presses[i])
    {
      assert mid.presses[i] in k.presses;
    }
    Dejitter.StrokeSmoothed(jitter, mid);
    forall b | Dejitter.AllInside(b, k.presses)
      ensures Dejitter.AllInside(b, mid.presses)
    {
      forall i | 0 <= i < |mid.presses|
        ensures Dejitter.Inside(b, mid.presses[i].x, mid.presses[i].y)
      {
        assert mid.presses[i] in k.presses;
      }
    }
  }

  /** No presses but presses: an unfinished stroke stays one. */
  lemma TailStays(jitter: int, spike: int, m: SpikeFilter.Memory, tail: seq<Sample>) returns (out: seq<Sample>)
    requires SpikeFilter.Resting(m) && AllPresses(tail)
    ensures out == Dejitter.Filter(jitter, [], SpikeFilter.Out(spike, m, tail)).1 && AllPresses(out)
  {
    var mid := SpikeFilter.Out(spike, m, tail);
    SpikeFilter.TailPasses(spike, m, tail);
    SpikeFilter.PickedFrom(mid, tail);
    forall i | 0 <= i < |mid|
      ensures Press(mid[i])
    {
      assert mid[i] in tail;
    }
    var b := Dejitter.Around(mid);
    Dejitter.PressesStayInside(jitter, b, [], mid);
    out := Dejitter.Filter(jitter, [], mid).1;
  }

  /** A stroke is finished for each sample of the raw stream that lifts the pen, with its time. */
  lemma OneStrokeEach(pmin: nat, pmax: nat, pen: PressureThreshold.Pen, raw: seq<Sample>, ks: seq<Stroke>,
                      tail: seq<Sample>)
    requires pmin > 0 && AreStrokes(ks) && AllPresses(tail)
    requires PressureThreshold.Filter(pmin, pmax, pen, raw).1 == Flatten(ks) + tail
    ensures var lifting := PressureThreshold.Lifting(pmin, pmax, pen.press, raw, |raw|);
            |ks| == |lifting| && forall i :: 0 <= i < |ks| ==> ks[i].release.tv == lifting[i].tv
  {
    hide PressureThreshold.Filter, PressureThreshold.Lifting, PressureThreshold.Follows, Releases, Flatten, InStrokes;
    PressureThreshold.OutputInStrokes(pmin, pmax, pen, raw);
    PressesAddNone(Flatten(ks), tail);
    ReleasesOfStrokes(ks);
    var rs, lifting := Releases(Flatten(ks)), PressureThreshold.Lifting(pmin, pmax, pen.press, raw, |raw|);
    assert |PressureThreshold.Times(rs)| == |PressureThreshold.Times(lifting)|;
    forall i | 0 <= i < |ks|
      ensures ks[i].release.tv == lifting[i].tv
    {
      assert PressureThreshold.Times(rs)[i] == PressureThreshold.Times(lifting)[i];
    }
  }

  /**
    Strokes survive the chain.  With a positive lower bound on the pressure the
    first filter makes strokes of whatever the panel delivers, their presses
    being the samples within bounds, one finished for each sample that lifts
    the pen; and each finished stroke arrives as one stroke, in order, with at
    least one press, its release, and no press outside the rectangle of its own
    presses.
   */
  lemma StrokesSurvive(pmin: nat, pmax: nat, pen: PressureThreshold.Pen, spike: int, m: SpikeFilter.Memory, jitter: int,
                       raw: seq<Sample>)
    returns (ks: seq<Stroke>, tail: seq<Sample>, js: seq<Stroke>, rest: seq<Sample>)
    requires pmin > 0 && !pen.press && SpikeFilter.Resting(m)
    ensures AreStrokes(ks) && AllPresses(tail) && AllPresses(rest)
    ensures PressureThreshold.Presses(Flatten(ks) + tail) == PressureThreshold.WithinBounds(pmin, pmax, raw)
    ensures PressureThreshold.Filter(pmin, pmax, pen, raw).1 == Flatten(ks) + tail
    ensures var lifting := PressureThreshold.Lifting(pmin, pmax, false, raw, |raw|);
            |ks| == |lifting| && forall i :: 0 <= i < |ks| ==> ks[i].release.tv == lifting[i].tv
    ensures Delivered(pmin, pmax, pen, spike, m, jitter, raw) == Flatten(js) + rest
    ensures |js| == |ks| && forall i :: 0 <= i < |ks| ==> Represents(ks[i], js[i])
  {
    var first := PressureThreshold.Filter(pmin, pmax, pen, raw).1;
    PressureThreshold.OutputInStrokes(pmin, pmax, pen, raw);
    ks, tail := StrokesOf(first);
    OneStrokeEach(pmin, pmax, pen, raw, ks, tail);
    var mids, m1 := SpikeFilter.StrokesPass(spike, m, ks, tail);
    js := Dejitter.AllSmoothed(jitter, mids);
    forall i | 0 <= i < |ks|
      ensures IsStroke(mids[i]) && Represents(ks[i], js[i])
    {
      SurvivorRepresents(jitter, ks[i], mids[i]);
    }
    Dejitter.StrokesSmoothed(jitter, mids, SpikeFilter.Out(spike, m1, tail));
    rest := TailStays(jitter, spike, m1, tail);
  }
}
