/**
  Frame buffers for the camera interface's output: a pool from which regions
  are taken at one end and given back in any order, and up to four frames per
  output, each one region with its planes inside it.

  Addresses and sizes are mathematical integers.
 */
module FrameAllocator {

  const MAX_FRAMES: nat := 4
  const PAGE_SIZE: nat := 4096

  datatype Format = Rgb565 | Rgb666 | Rgb888 | YCbCr420 | YCbCr422

  /** The physical addresses of a frame; `y` is also the address of an RGB frame. */
  datatype Frame = Frame(y: int, cb: int, cr: int)

  const NO_FRAME := Frame(0, 0, 0)

  // ----- Sizes -----

  predicate IsYuv(f: Format) { f.YCbCr420? || f.YCbCr422? }

  function ChromaSize(pixels: nat, f: Format): nat {
    if f.YCbCr420? then pixels / 4 else pixels / 2
  }

  /** The bytes a picture needs. */
  ghost function Needed(pixels: nat, f: Format): nat {
    match f
    case Rgb565 => pixels * 2
    case Rgb666 => pixels * 4
    case Rgb888 => pixels * 4
    case _ => pixels + 2 * ChromaSize(pixels, f)
  }

  /** A number of bytes, in whole pages. */
  ghost function RoundUp(n: nat): (r: nat)
    ensures n <= r < n + PAGE_SIZE && r % PAGE_SIZE == 0
  {
    if n % PAGE_SIZE != 0 then (n / PAGE_SIZE + 1) * PAGE_SIZE else n
  }

  /** The bounds determine the number of pages. */
  lemma OneSize(n: nat, r: nat)
    requires n <= r < n + PAGE_SIZE && r % PAGE_SIZE == 0
    ensures r == RoundUp(n)
  {}

  /** What a picture's buffer takes. */
  ghost function BufferSize(pixels: nat, f: Format): (size: nat)
    ensures Needed(pixels, f) <= size < Needed(pixels, f) + PAGE_SIZE && size % PAGE_SIZE == 0
    ensures size == 0 <==> pixels == 0
  {
    RoundUp(Needed(pixels, f))
  }

  /** `s3c_fimc_get_buffer_size`: the least number of whole pages that holds the picture. */
  method GetBufferSize(width: nat, height: nat, f: Format) returns (size: nat)
    ensures Needed(width * height, f) <= size < Needed(width * height, f) + PAGE_SIZE
    ensures size % PAGE_SIZE == 0 && size == BufferSize(width * height, f)
  {
    hide Needed;
    size := PictureSize(width * height, f);
    if size % PAGE_SIZE != 0 {
      size := (size / PAGE_SIZE + 1) * PAGE_SIZE;
    }
  }

  /** Its `switch`. */
  method PictureSize(pixels: nat, f: Format) returns (size: nat)
    ensures size == Needed(pixels, f)
  {
    size := pixels;
    match f {
      case Rgb565 => size := size * 2;
      case Rgb666 => size := size * 4;
      case Rgb888 => size := size * 4;
      case YCbCr420 => size := size + 2 * (size / 4);
      case YCbCr422 => size := size + 2 * (size / 2);
    }
  }

  // ----- The pool -----

  class Pool {
    const start: nat
    const total: nat
    var current: int

    constructor (start: nat, total: nat)
      ensures this.start == start && this.total == total && current == start
    {
      this.start, this.total, current := start, total, start;
    }

    /** Address zero stands for failure, so the pool must not begin there. */
    ghost predicate Valid()
      reads this
    {
      0 < start <= current <= start + total
    }

    /** `s3c_fimc_get_dma_region`. */
    method GetRegion(bytes: nat) returns (addr: int)
      modifies this
      ensures if old(current) + bytes > start + total then addr == 0 && current == old(current)
              else addr == old(current) && current == old(current) + bytes
    {
      if current + bytes > start + total {
        return 0;
      }
      addr := current;
      current := current + bytes;
    }

    /** `s3c_fimc_put_dma_region`. */
    method PutRegion(bytes: nat)
      modifies this
      ensures current == old(current) - bytes
    {
      current := current - bytes;
    }
  }

  // ----- Frames -----

  /** The frames that have a region. */
  ghost function Live(frames: seq<Frame>): nat {
    if frames == [] then 0 else Live(frames[..|frames| - 1]) + if frames[|frames| - 1].y != 0 then 1 else 0
  }

  lemma {:induction false} LiveAppend(a: seq<Frame>, b: seq<Frame>)
    ensures Live(a + b) == Live(a) + Live(b)
    decreases |b|
  {
    if b == [] {
      assert a + b == a;
    } else {
      assert (a + b)[..|a + b| - 1] == a + b[..|b| - 1];
      LiveAppend(a, b[..|b| - 1]);
    }
  }

  lemma {:induction false} AllLive(frames: seq<Frame>)
    requires forall i :: 0 <= i < |frames| ==> frames[i].y != 0
    ensures Live(frames) == |frames|
    decreases |frames|
  {
    if frames != [] {
      AllLive(frames[..|frames| - 1]);
    }
  }

  /** How a frame's planes lie in its region: one plane, or a luma plane and two chroma planes. */
  datatype Planes = OnePlane | ThreePlanes(luma: nat, chroma: nat)

  function Place(planes: Planes, addr: int, was: Frame): Frame {
    match planes
    case OnePlane => was.(y := addr)
    case ThreePlanes(luma, chroma) => Frame(addr, addr + luma, addr + luma + chroma)
  }

  /** What a frame behind the allocated ones takes over from an earlier one. */
  function Repeat(planes: Planes, earlier: Frame, was: Frame): Frame {
    if planes.OnePlane? then was.(y := earlier.y) else earlier
  }

  lemma PlaceTwice(planes: Planes, region: int, f: Frame)
    ensures Place(planes, region, f.(y := region)) == Place(planes, region, f) && Place(planes, region, f).y == region
  {}

  lemma RepeatTwice(planes: Planes, frame: Frame)
    ensures Repeat(planes, Repeat(planes, frame, frame), frame) == Repeat(planes, frame, frame)
  {}

  class Output {
    var bufSize: nat
    const addr: array<Frame>
    var nrFrames: nat
    var width: nat
    var height: nat
    var format: Format

    constructor (width: nat, height: nat, format: Format, nrFrames: nat)
      requires nrFrames <= MAX_FRAMES
      ensures Valid() && this.nrFrames == nrFrames && forall i :: 0 <= i < MAX_FRAMES ==> addr[i] == NO_FRAME
      ensures fresh(addr) && this.width == width && this.height == height && this.format == format
    {
      this.width, this.height, this.format, this.nrFrames, bufSize := width, height, format, nrFrames, 0;
      addr := new Frame[MAX_FRAMES](_ => NO_FRAME);
    }

    ghost predicate Valid()
      reads this
    {
      addr.Length == MAX_FRAMES && nrFrames <= MAX_FRAMES
    }

    /** `s3c_fimc_free_output_memory`: gives back a region for every frame that seems to have one. */
    method Free(pool: Pool)
      requires Valid()
      modifies pool, this`bufSize, addr
      ensures bufSize == 0
      ensures pool.current == old(pool.current) - old(bufSize) * Live(old(addr[..nrFrames]))
      ensures forall i :: 0 <= i < MAX_FRAMES ==> addr[i] == if i < nrFrames then NO_FRAME else old(addr[i])
    {
      ghost var frames := addr[..nrFrames];
      for i := 0 to nrFrames
        invariant bufSize == old(bufSize)
        invariant pool.current == old(pool.current) - bufSize * Live(frames[..i])
        invariant forall j :: 0 <= j < MAX_FRAMES ==> addr[j] == if j < i then NO_FRAME else old(addr[j])
      {
        assert frames[..i + 1][..i] == frames[..i] && frames[i] == addr[i];
        if addr[i].y != 0 {
          assert bufSize * (Live(frames[..i]) + 1) == bufSize * Live(frames[..i]) + bufSize;
          pool.PutRegion(bufSize);
        }
        addr[i] := NO_FRAME;
      }
      assert frames[..nrFrames] == frames;
      bufSize := 0;
    }

    /** The first loop: a region for every frame, until there is none left. */
    method TakeRegions(pool: Pool, planes: Planes) returns (ok: bool, ghost fit: nat)
      requires Valid() && pool.Valid()
      modifies pool, addr
      ensures pool.current == old(pool.current) + fit * bufSize <= pool.start + pool.total
      ensures ok ==> fit == nrFrames
      ensures !ok ==>
        fit < nrFrames && addr[fit].y == 0 && pool.start + pool.total < old(pool.current) + (fit + 1) * bufSize
      ensures forall j :: 0 <= j < fit ==> addr[j] == Place(planes, old(pool.current) + j * bufSize, old(addr[j]))
      ensures forall j :: fit < j < MAX_FRAMES ==> addr[j] == old(addr[j])
      ensures ok && fit < MAX_FRAMES ==> addr[fit] == old(addr[fit])
      ensures forall j :: 0 <= j < fit ==> addr[j].y != 0
    {
      hide Place;
      ghost var base := pool.current;
      for i := 0 to nrFrames
        invariant pool.current == base + i * bufSize <= pool.start + pool.total
        invariant forall j :: 0 <= j < i ==> addr[j] == Place(planes, base + j * bufSize, old(addr[j]))
        invariant forall j :: i <= j < MAX_FRAMES ==> addr[j] == old(addr[j])
        invariant forall j :: 0 <= j < i ==> addr[j].y != 0
      {
        assert (i + 1) * bufSize == i * bufSize + bufSize;
        var region := pool.GetRegion(bufSize);
        addr[i] := addr[i].(y := region);
        if region == 0 {
          return false, i;
        }
        PlaceTwice(planes, region, old(addr[i]));
        addr[i] := Place(planes, region, addr[i]);
      }
      return true, nrFrames;
    }

    /** The second loop: the remaining frames repeat the allocated ones. */
    method RepeatFrames(planes: Planes)
      requires Valid()
      modifies addr
      ensures forall i :: 0 <= i < nrFrames ==> addr[i] == old(addr[i])
      ensures forall i :: nrFrames <= i < MAX_FRAMES ==> addr[i] == Repeat(planes, addr[i - nrFrames], old(addr[i]))
    {
      hide Repeat;
      ghost var was := addr[..];
      for i := nrFrames to MAX_FRAMES
        invariant forall j :: 0 <= j < nrFrames ==> addr[j] == was[j]
        invariant forall j :: nrFrames <= j < i ==> addr[j] == Repeat(planes, addr[j - nrFrames], was[j])
        invariant forall j :: i <= j < MAX_FRAMES ==> addr[j] == was[j]
      {
        ghost var before := addr[..];
        RepeatTwice(planes, addr[i]);  // for an output without frames
        addr[i] := Repeat(planes, addr[i - nrFrames], addr[i]);
        assert addr[i] == Repeat(planes, addr[i - nrFrames], was[i]);
        forall j | nrFrames <= j < i
          ensures addr[j] == Repeat(planes, addr[j - nrFrames], was[j])
        {
          assert before[j] == Repeat(planes, before[j - nrFrames], was[j]);
          assert addr[j] == before[j] && addr[j - nrFrames] == before[j - nrFrames];
        }
      }
    }

    /** All frames have their regions, one after the other from `base` on, and the rest repeat them. */
    ghost predicate Allocated(planes: Planes, base: int, was: seq<Frame>)
      requires addr.Length == MAX_FRAMES == |was|
      reads this`bufSize, this`nrFrames, addr
    {
      && nrFrames <= MAX_FRAMES
      && (forall i :: 0 <= i < nrFrames ==> addr[i] == Place(planes, base + i * bufSize, was[i]))
      && (forall i :: nrFrames <= i < MAX_FRAMES ==> addr[i] == Repeat(planes, addr[i - nrFrames], was[i]))
    }

    /**
      `s3c_fimc_alloc_rgb_memory` and `s3c_fimc_alloc_yuv_memory`.  They succeed
      exactly if all frames fit.  A failure after `fit` frames gives those back,
      and also every later frame that was left over from before.
     */
    method Alloc(pool: Pool, planes: Planes) returns (ok: bool, ghost fit: nat)
      requires Valid() && pool.Valid()
      modifies pool, this`bufSize, addr
      ensures ok <==> old(pool.current) + nrFrames * old(bufSize) <= pool.start + pool.total
      ensures ok ==>
        bufSize == old(bufSize) && pool.current == old(pool.current) + nrFrames * bufSize &&
        Allocated(planes, old(pool.current), old(addr[..]))
      ensures !ok ==> FirstMisfit(pool.start + pool.total - old(pool.current), old(bufSize), fit) && fit < nrFrames
      ensures !ok ==>
        bufSize == 0 && pool.current == old(pool.current) - old(bufSize) * Live(old(addr[fit + 1..nrFrames]))
      ensures !ok ==> forall i :: 0 <= i < MAX_FRAMES ==> addr[i] == if i < nrFrames then NO_FRAME else old(addr[i])
    {
      hide Live, Place, Repeat;
      ghost var base, size, stale := pool.current, bufSize, addr[..nrFrames];
      ok, fit := TakeRegions(pool, planes);
      if ok {
        RepeatFrames(planes);
      } else {
        MoreDoesNotFit(fit + 1, nrFrames, size);
        RolledBack(addr[..nrFrames], stale, fit, size);
        assert stale[fit + 1..] == old(addr[fit + 1..nrFrames]);
        Free(pool);
      }
    }
  }

  /**
    Sizes the buffers and allocates them: that succeeds exactly if all frames
    fit.  A failure at frame `fit`, the first that does not, gives back a region
    too many for each later frame that is left over from before.
   */
  method AllocOutput(pool: Pool, out: Output) returns (ok: bool, ghost fit: nat)
    requires out.Valid() && pool.Valid()
    modifies pool, out`bufSize, out.addr
    ensures var pixels := out.width * out.height;
            var size := BufferSize(pixels, out.format);
            && (ok <==> old(pool.current) + out.nrFrames * size <= pool.start + pool.total)
            && (ok ==>
                  && out.bufSize == size
                  && pool.current == old(pool.current) + out.nrFrames * size
                  && out.Allocated(PlanesOf(pixels, out.format), old(pool.current), old(out.addr[..])))
            && (!ok ==>
                  && fit < out.nrFrames && FirstMisfit(pool.start + pool.total - old(pool.current), size, fit)
                  && pool.current == old(pool.current) - size * Live(old(out.addr[fit + 1..out.nrFrames]))
                  && out.bufSize == 0
                  && (forall i :: 0 <= i < MAX_FRAMES ==>
                        out.addr[i] == if i < out.nrFrames then NO_FRAME else old(out.addr[i])))
    ensures !ok ==>
      (pool.current == old(pool.current) <==> forall i :: fit < i < out.nrFrames ==> old(out.addr[i]).y == 0)
  {
    ghost var was := out.addr[..];
    out.bufSize := GetBufferSize(out.width, out.height, out.format);
    ghost var size := out.bufSize;
    ok, fit := out.Alloc(pool, PlanesOf(out.width * out.height, out.format));
    if !ok {
      ghost var stale := was[fit + 1..out.nrFrames];
      assert stale == old(out.addr[fit + 1..out.nrFrames]);
      NoneLive(stale);
      NothingGiven(size, Live(stale));
      assert forall i :: fit < i < out.nrFrames ==> was[i] == stale[i - fit - 1];
    }
  }

  function PlanesOf(pixels: nat, f: Format): Planes {
    if IsYuv(f) then ThreePlanes(pixels, ChromaSize(pixels, f)) else OnePlane
  }

  lemma {:induction false} NoneLive(frames: seq<Frame>)
    ensures Live(frames) == 0 <==> forall i :: 0 <= i < |frames| ==> frames[i].y == 0
    decreases |frames|
  {
    if frames != [] {
      NoneLive(frames[..|frames| - 1]);
    }
  }

  lemma NothingGiven(size: nat, live: nat)
    ensures size * live == 0 <==> size == 0 || live == 0
  {}

  /**
    Freeing with as many frames as were allocated restores the pool; with any
    other number it does not, unless frames are empty.
   */
  method AllocThenFree(pool: Pool, out: Output, nrFrames: nat) returns (ok: bool)
    requires out.Valid() && pool.Valid() && out.nrFrames > 0 && nrFrames <= MAX_FRAMES
    modifies pool, out, out.addr
    ensures var size := BufferSize(old(out.width * out.height), old(out.format));
            && (ok <==> old(pool.current) + old(out.nrFrames) * size <= pool.start + pool.total)
            && (ok ==> pool.current == old(pool.current) + old(out.nrFrames) * size - size * nrFrames)
    ensures ok ==>
      (pool.current == old(pool.current) <==> nrFrames == old(out.nrFrames) || old(out.width * out.height) == 0)
    ensures out.width == old(out.width) && out.height == old(out.height) && out.format == old(out.format)
    ensures ok ==> out.Valid() && out.nrFrames == nrFrames
    ensures ok ==> forall i :: 0 <= i < MAX_FRAMES ==> (out.addr[i].y != 0 <==> nrFrames <= i)
  {
    hide Live, BufferSize, Place, Repeat;
    ghost var base, pixels := pool.current, out.width * out.height;
    ghost var fit;
    ok, fit := AllocOutput(pool, out);
    if ok {
      ghost var n, size, planes := out.nrFrames, out.bufSize, PlanesOf(out.width * out.height, out.format);
      AllNonZero(out.addr[..], n, base, size, planes, old(out.addr[..]));
      out.nrFrames := nrFrames;
      AllLive(out.addr[..nrFrames]);
      SameMultiple(size, n, nrFrames);
      out.Free(pool);
    }
  }

  /**
    Allocates, frees with the same number of frames, and allocates `m`.  The
    free leaves the repeated addresses behind, so if the second allocation fails
    at frame `fit` it restores the pool exactly if none of those is among the
    frames after that one.
   */
  method AllocFreeAlloc(pool: Pool, out: Output, m: nat) returns (first: bool, second: bool, ghost fit: nat)
    requires out.Valid() && pool.Valid() && out.nrFrames > 0 && m <= MAX_FRAMES
    modifies pool, out, out.addr
    ensures var size, end := BufferSize(old(out.width * out.height), old(out.format)), pool.start + pool.total;
            && (first <==> old(pool.current) + old(out.nrFrames) * size <= end)
            && (second <==> first && old(pool.current) + m * size <= end)
            && (first && !second ==> fit < m && FirstMisfit(end - old(pool.current), size, fit))
    ensures first && !second ==>
      pool.current ==
        old(pool.current) - BufferSize(old(out.width * out.height), old(out.format)) * Stale(old(out.nrFrames), m, fit)
    ensures first && !second ==> (pool.current == old(pool.current) <==> m <= old(out.nrFrames) || m <= fit + 1)
  {
    hide Live, BufferSize;
    ghost var n := out.nrFrames;
    first := AllocThenFree(pool, out, out.nrFrames);
    second, fit := false, 0;
    if first {
      SameMultiple(BufferSize(out.width * out.height, out.format), n, n);
      assert pool.current == old(pool.current);
      out.nrFrames := m;
      label L:
      ghost var was, size := out.addr[..], BufferSize(out.width * out.height, out.format);
      second, fit := AllocOutput(pool, out);
      if !second {
        ghost var later := was[fit + 1..m];
        assert later == old@L(out.addr[fit + 1..m]);
        forall i | 0 <= i < |later|
          ensures later[i].y != 0 <==> n <= fit + 1 + i
        {
          assert later[i] == was[fit + 1 + i];
        }
        CountStale(later, if n > fit + 1 then n - (fit + 1) else 0);
        NothingGiven(size, Stale(n, m, fit));
      }
    }
  }

  /** The frames behind the failing one, `fit`, of the `m` asked for that were not among the `n` freed. */
  ghost function Stale(n: nat, m: nat, fit: nat): nat {
    var from := if n > fit + 1 then n else fit + 1;
    if m > from then m - from else 0
  }

  lemma {:induction false} CountStale(frames: seq<Frame>, dead: nat)
    requires forall i :: 0 <= i < |frames| ==> (frames[i].y != 0 <==> dead <= i)
    ensures Live(frames) == if |frames| > dead then |frames| - dead else 0
    decreases |frames|
  {
    if frames != [] {
      CountStale(frames[..|frames| - 1], dead);
    }
  }

  /**
    One such input: room for two frames, one allocated and freed, then four
    asked for.  The fourth still has the address the first one had, so three
    regions are given back for two, and the pool ends below its start.
   */
  method StaleFrameGivenBack() returns (pool: Pool, out: Output, first: bool, second: bool)
    ensures first && !second
    ensures pool.start == 4096 && pool.total == 8192 && pool.current == 0
  {
    pool := new Pool(4096, 8192);
    out := new Output(64, 32, Rgb565, 1);
    assert BufferSize(64 * 32, Rgb565) == 4096 by { OneSize(4096, 4096); }
    ghost var fit;
    first, second, fit := AllocFreeAlloc(pool, out, 4);
    assert fit == 2;
  }

  lemma SameMultiple(size: nat, m: nat, n: nat)
    ensures m * size - size * n == 0 <==> m == n || size == 0
  {}

  lemma AllNonZero(frames: seq<Frame>, n: nat, base: int, size: nat, planes: Planes, was: seq<Frame>)
    requires |frames| == MAX_FRAMES == |was| && 0 < n <= MAX_FRAMES && base > 0
    requires forall i :: 0 <= i < n ==> frames[i] == Place(planes, base + i * size, was[i])
    requires forall i :: n <= i < MAX_FRAMES ==> frames[i] == Repeat(planes, frames[i - n], was[i])
    ensures forall i :: 0 <= i < MAX_FRAMES ==> frames[i].y != 0
  {
    forall i: nat | i < MAX_FRAMES
      ensures frames[i].y != 0
    {
      TailRepeats(frames, n, planes, was, i);
      MoreDoesNotFit(0, i % n, size);
    }
  }

  /** Behind the allocated frames their addresses come round again. */
  lemma {:induction false} TailRepeats(frames: seq<Frame>, n: nat, planes: Planes, was: seq<Frame>, i: nat)
    requires |frames| == MAX_FRAMES == |was| && 0 < n <= MAX_FRAMES && i < MAX_FRAMES
    requires forall k :: n <= k < MAX_FRAMES ==> frames[k] == Repeat(planes, frames[k - n], was[k])
    ensures frames[i].y == frames[i % n].y
    ensures planes.ThreePlanes? ==> frames[i] == frames[i % n]
  {
    if i >= n {
      TailRepeats(frames, n, planes, was, i - n);
      ComesRound(i, n);
    }
  }

  lemma ComesRound(i: nat, n: nat)
    requires 0 < n <= i < MAX_FRAMES
    ensures i % n == (i - n) % n
  {
    if n == 1 {} else if n == 2 {} else {}
  }

  /** Every frame lies in the part of the pool taken for the output, and its planes lie in it one after the other. */
  lemma Layout(frames: seq<Frame>, n: nat, base: int, pixels: nat, f: Format, size: nat, was: seq<Frame>, i: nat)
    requires |frames| == MAX_FRAMES == |was| && i < n <= MAX_FRAMES && Needed(pixels, f) <= size
    requires forall k :: 0 <= k < n ==> frames[k] == Place(PlanesOf(pixels, f), base + k * size, was[k])
    ensures base <= frames[i].y && frames[i].y + size <= base + n * size
    ensures (match f case Rgb565 => 2 case Rgb666 => 4 case Rgb888 => 4 case _ => 1) * pixels <= size
    ensures IsYuv(f) ==> frames[i].y + pixels == frames[i].cb
    ensures IsYuv(f) ==> frames[i].cb + ChromaSize(pixels, f) == frames[i].cr
    ensures IsYuv(f) ==> frames[i].cr + ChromaSize(pixels, f) <= frames[i].y + size
  {
    MoreDoesNotFit(0, i, size);
    MoreDoesNotFit(i + 1, n, size);
    assert (i + 1) * size == i * size + size;
  }

  /** And no two frames overlap. */
  lemma FramesDisjoint(frames: seq<Frame>, n: nat, base: int, pixels: nat, f: Format, size: nat, was: seq<Frame>,
                       i: nat, j: nat)
    requires |frames| == MAX_FRAMES == |was| && i < j < n <= MAX_FRAMES && Needed(pixels, f) <= size
    requires forall k :: 0 <= k < n ==> frames[k] == Place(PlanesOf(pixels, f), base + k * size, was[k])
    ensures frames[i].y + size <= frames[j].y
  {
    MoreDoesNotFit(i + 1, j, size);
    assert (i + 1) * size == i * size + size;
  }

  /** The frame that no longer fits the room. */
  ghost predicate FirstMisfit(room: int, size: nat, fit: nat) {
    fit * size <= room < (fit + 1) * size
  }

  lemma MoreDoesNotFit(m: nat, n: nat, size: nat)
    requires m <= n
    ensures m * size <= n * size
  {}

  lemma GiveBack(size: nat, fit: nat, stale: nat)
    ensures size * (fit + stale) == fit * size + size * stale
  {}

  /** Rolling back gives back the regions just taken, and one for each later frame that was left over from before. */
  lemma RolledBack(now: seq<Frame>, was: seq<Frame>, fit: nat, size: nat)
    requires fit < |now| == |was| && now[fit].y == 0 && forall i :: 0 <= i < fit ==> now[i].y != 0
    requires forall i :: fit < i < |now| ==> now[i] == was[i]
    ensures size * Live(now) == fit * size + size * Live(was[fit + 1..])
  {
    FailedFrames(now, fit);
    assert now[fit + 1..] == was[fit + 1..];
    GiveBack(size, fit, Live(was[fit + 1..]));
  }

  /** Frames before the failed one have regions, the failed one has none. */
  lemma FailedFrames(now: seq<Frame>, fit: nat)
    requires fit < |now| && now[fit].y == 0 && forall i :: 0 <= i < fit ==> now[i].y != 0
    ensures Live(now) == fit + Live(now[fit + 1..])
  {
    assert now == now[..fit] + ([now[fit]] + now[fit + 1..]);
    LiveAppend(now[..fit], [now[fit]] + now[fit + 1..]);
    LiveAppend([now[fit]], now[fit + 1..]);
    AllLive(now[..fit]);
    assert [now[fit]][..0] == [];
  }
}
