/** ios_window_surface_flush (native/patches/0007-ios-display-driver.patch): the clipped copy of a
    dirty rectangle from the guest's bitmap into host_bits, forcing alpha to opaque. */
module PixelCopy {

  /** RECT: signed, half-open. */
  datatype Rect = Rect(left: int, top: int, right: int, bottom: int)

  function Max(a: int, b: int): int { if a > b then a else b }

  function Min(a: int, b: int): int { if a < b then a else b }

  predicate IsEmpty(r: Rect) { r.left >= r.right || r.top >= r.bottom }

  predicate Contains(r: Rect, x: int, y: int) { r.left <= x < r.right && r.top <= y < r.bottom }

  function Intersect(a: Rect, b: Rect): Rect {
    Rect(Max(a.left, b.left), Max(a.top, b.top), Min(a.right, b.right), Min(a.bottom, b.bottom))
  }

  const ALPHA: bv32 := 0xff00_0000

  function Opaque(p: bv32): bv32 { p | ALPHA }

  /** Geometry of a surface: the host copy is width x height, the guest bitmap srcWidth pixels wide. */
  datatype Geometry = Geometry(width: nat, height: nat, srcWidth: nat) {
    predicate Valid() { width <= srcWidth }
    function HostSize(): nat { width * height }
    function SrcSize(): nat { srcWidth * height }
    function Bounds(): Rect { Rect(0, 0, width, height) }
  }

  /** Column and row of host pixel k, and its place in the guest bitmap. */
  function X(g: Geometry, k: nat): nat
    requires g.width > 0
  { k % g.width }

  function Y(g: Geometry, k: nat): nat
    requires g.width > 0
  { k / g.width }

  lemma SourceIndexBound(g: Geometry, x: nat, y: nat)
    requires g.Valid() && x < g.width && y < g.height
    ensures y * g.srcWidth + x < g.SrcSize() && y * g.width + x < g.HostSize()
  {
    assert (y + 1) * g.srcWidth <= g.height * g.srcWidth;
    assert (y + 1) * g.width <= g.height * g.width;
  }

  lemma ProductIsFar(d: int, w: int)
    requires d != 0 && w > 0
    ensures d * w >= w || d * w <= 0 - w
  {
    if d > 0 { assert (d - 1) * w >= 0; } else { assert (-1 - d) * w >= 0; }
  }

  /** Quotient and remainder are unique. */
  lemma CoordinatesOf(w: nat, x: nat, y: nat)
    requires x < w
    ensures (y * w + x) / w == y && (y * w + x) % w == x
  {
    var k := y * w + x;
    assert (k / w) * w + k % w == k;
    assert (k / w - y) * w == (k / w) * w - y * w;
    if k / w != y { ProductIsFar(k / w - y, w); }
  }

  lemma PixelCoordinates(g: Geometry, k: nat)
    requires g.Valid() && k < g.HostSize()
    ensures g.width > 0 && X(g, k) < g.width && Y(g, k) < g.height && Y(g, k) * g.width + X(g, k) == k
  {
    assert g.width > 0 by { if g.width == 0 { ZeroWidth(g.height); } }
    assert (k / g.width) * g.width + k % g.width == k;
    if k / g.width >= g.height { RowsAbove(k / g.width, g.height, g.width); }
  }

  lemma ZeroWidth(h: nat)
    ensures 0 * h == 0
  {
  }

  lemma RowsAbove(y: nat, h: nat, w: nat)
    requires y >= h
    ensures y * w >= h * w == w * h
  {
  }

  function SourceIndex(g: Geometry, k: nat): (i: nat)
    requires g.Valid() && k < g.HostSize()
    ensures i < g.SrcSize()
  {
    PixelCoordinates(g, k);
    SourceIndexBound(g, X(g, k), Y(g, k));
    Y(g, k) * g.srcWidth + X(g, k)
  }

  /** Pixel k lies in the dirty rectangle (and, being a pixel of the surface, in its bounds). */
  predicate Dirty(g: Geometry, dirty: Rect, k: nat)
    requires g.Valid() && k < g.HostSize()
  {
    PixelCoordinates(g, k);
    Contains(dirty, X(g, k), Y(g, k))
  }

  /** host_bits after one flush. */
  function Flushed(g: Geometry, host: seq<bv32>, src: seq<bv32>, dirty: Rect): (r: seq<bv32>)
    requires g.Valid() && |host| == g.HostSize() && |src| == g.SrcSize()
    ensures |r| == |host|
    ensures forall k :: 0 <= k < |r| ==> r[k] == if Dirty(g, dirty, k) then Opaque(src[SourceIndex(g, k)]) else host[k]
  {
    seq(|host|, k requires 0 <= k < |host| => if Dirty(g, dirty, k) then Opaque(src[SourceIndex(g, k)]) else host[k])
  }

  lemma SourceOf(g: Geometry, x: nat, y: nat)
    requires g.Valid() && x < g.width && y < g.height
    ensures y * g.width + x < g.HostSize() && y * g.srcWidth + x < g.SrcSize()
    ensures X(g, y * g.width + x) == x && Y(g, y * g.width + x) == y
    ensures SourceIndex(g, y * g.width + x) == y * g.srcWidth + x
  {
    SourceIndexBound(g, x, y);
    CoordinatesOf(g.width, x, y);
  }

  /** The same by coordinates: the pixel in column x of row y, host pixel k, is read at the same place
      of the wider guest bitmap, its pixel j. */
  lemma FlushedAt(g: Geometry, host: seq<bv32>, src: seq<bv32>, dirty: Rect, x: nat, y: nat, k: nat, j: nat)
    requires g.Valid() && |host| == g.HostSize() && |src| == g.SrcSize() && x < g.width && y < g.height
    requires k == y * g.width + x && j == y * g.srcWidth + x
    ensures k < |host| && j < |src|
    ensures Flushed(g, host, src, dirty)[k] ==
      if dirty.left <= x < dirty.right && dirty.top <= y < dirty.bottom then Opaque(src[j]) else host[k]
  {
    SourceOf(g, x, y);
  }

  /** The alpha byte becomes 0xff and the colour stays. */
  lemma OpaqueIsAlphaOnly(p: bv32)
    ensures Opaque(p) >> 24 == 0xff && Opaque(p) & 0xff_ffff == p & 0xff_ffff
  {
  }

  // ---- the copy loops -----------------------------------------------------------------------

  /** Whether the loops have passed pixel k, being at row y and n pixels into it. */
  predicate Passed(g: Geometry, damage: Rect, y: int, n: int, k: nat)
    requires g.Valid() && k < g.HostSize()
  {
    PixelCoordinates(g, k);
    Contains(damage, X(g, k), Y(g, k)) && (Y(g, k) < y || (Y(g, k) == y && X(g, k) < damage.left + n))
  }

  /** host_bits at that point. */
  ghost function Partial(g: Geometry, host: seq<bv32>, src: seq<bv32>, damage: Rect, y: int, n: int): (r: seq<bv32>)
    requires g.Valid() && |host| == g.HostSize() && |src| == g.SrcSize()
    ensures |r| == |host|
  {
    seq(|host|, k requires 0 <= k < |host| =>
      if Passed(g, damage, y, n, k) then Opaque(src[SourceIndex(g, k)]) else host[k])
  }

  lemma PartialStart(g: Geometry, host: seq<bv32>, src: seq<bv32>, damage: Rect)
    requires g.Valid() && |host| == g.HostSize() && |src| == g.SrcSize()
    ensures Partial(g, host, src, damage, damage.top, 0) == host
  {
  }

  lemma PartialStep(g: Geometry, host: seq<bv32>, src: seq<bv32>, damage: Rect, y: nat, n: nat)
    requires g.Valid() && |host| == g.HostSize() && |src| == g.SrcSize()
    requires 0 <= damage.left + n < damage.right <= g.width && damage.top <= y < damage.bottom <= g.height
    ensures 0 <= y * g.width + damage.left + n < |host| && 0 <= y * g.srcWidth + damage.left + n < |src|
    ensures Partial(g, host, src, damage, y, n + 1) ==
      Partial(g, host, src, damage, y, n)
        [y * g.width + damage.left + n := Opaque(src[y * g.srcWidth + damage.left + n])]
  {
    var x := damage.left + n;
    SourceIndexBound(g, x, y);
    CoordinatesOf(g.width, x, y);
    var dst := y * g.width + x;
    forall k | 0 <= k < |host| && k != dst ensures Passed(g, damage, y, n + 1, k) <==> Passed(g, damage, y, n, k) {
      PixelCoordinates(g, k);
    }
  }

  lemma PartialRow(g: Geometry, host: seq<bv32>, src: seq<bv32>, damage: Rect, y: int)
    requires g.Valid() && |host| == g.HostSize() && |src| == g.SrcSize()
    ensures Partial(g, host, src, damage, y, damage.right - damage.left) == Partial(g, host, src, damage, y + 1, 0)
  {
  }

  /** Clipping to the bounds loses no dirty pixel of the surface. */
  lemma PartialEnd(g: Geometry, host: seq<bv32>, src: seq<bv32>, dirty: Rect)
    requires g.Valid() && |host| == g.HostSize() && |src| == g.SrcSize()
    ensures var damage := Intersect(dirty, g.Bounds());
      Flushed(g, host, src, dirty) == if IsEmpty(damage) then host else Partial(g, host, src, damage, damage.bottom, 0)
  {
    var damage := Intersect(dirty, g.Bounds());
    forall k | 0 <= k < |host|
      ensures Dirty(g, dirty, k) <==> !IsEmpty(damage) && Passed(g, damage, damage.bottom, 0, k)
    {
      PixelCoordinates(g, k);
    }
    if IsEmpty(damage) { assert Flushed(g, host, src, dirty) == host; }
  }

  class WindowSurface {
    const g: Geometry
    const hostBits: array<bv32>
    var flushCount: nat

    ghost predicate Valid() { g.Valid() && hostBits.Length == g.HostSize() }

    /** The surface of ios_window_surface_create: zeroed bits. */
    constructor (g: Geometry)
      requires g.Valid()
      ensures Valid() && fresh(hostBits) && this.g == g
      ensures hostBits[..] == seq(g.HostSize(), _ => 0)
    {
      this.g := g;
      hostBits := new bv32[g.HostSize()](_ => 0);
      flushCount := 0;
    }

    method Flush(dirty: Rect, colorBits: seq<bv32>)
      requires Valid() && |colorBits| == g.SrcSize()
      modifies hostBits, this`flushCount
      ensures hostBits[..] == Flushed(g, old(hostBits[..]), colorBits, dirty)
      ensures flushCount == old(flushCount) + if IsEmpty(Intersect(dirty, g.Bounds())) then 0 else 1
    {
      var damage := Intersect(dirty, g.Bounds());
      PartialEnd(g, hostBits[..], colorBits, dirty);
      if IsEmpty(damage) { return; }
      ghost var was := hostBits[..];
      PartialStart(g, was, colorBits, damage);
      var y := damage.top;
      while y < damage.bottom
        invariant damage.top <= y <= damage.bottom
        invariant flushCount == old(flushCount)
        invariant hostBits[..] == Partial(g, was, colorBits, damage, y, 0)
      {
        FlushRow(damage, y, colorBits, was);
        y := y + 1;
      }
      flushCount := flushCount + 1;
    }

    /** The inner loop. */
    method FlushRow(damage: Rect, y: int, colorBits: seq<bv32>, ghost was: seq<bv32>)
      requires Valid() && |colorBits| == g.SrcSize() && |was| == g.HostSize()
      requires 0 <= damage.left <= damage.right <= g.width && 0 <= damage.top <= y < damage.bottom <= g.height
      requires hostBits[..] == Partial(g, was, colorBits, damage, y, 0)
      modifies hostBits
      ensures hostBits[..] == Partial(g, was, colorBits, damage, y + 1, 0)
    {
      var x, width := 0, damage.right - damage.left;
      while x < width
        invariant 0 <= x <= width
        invariant hostBits[..] == Partial(g, was, colorBits, damage, y, x)
      {
        PartialStep(g, was, colorBits, damage, y, x);
        hostBits[y * g.width + damage.left + x] := colorBits[y * g.srcWidth + damage.left + x] | ALPHA;
        x := x + 1;
      }
      PartialRow(g, was, colorBits, damage, y);
    }
  }

  // ---- coherence over any run ---------------------------------------------------------------

  datatype Event = Paint(k: nat, value: bv32) | FlushOf(dirty: Rect)

  /** `stale`: pixels painted (or never flushed) since their last covering flush. */
  datatype Screen = Screen(src: seq<bv32>, host: seq<bv32>, stale: set<nat>)

  ghost predicate ScreenOk(g: Geometry, s: Screen) {
    g.Valid() && |s.host| == g.HostSize() && |s.src| == g.SrcSize()
  }

  ghost function After(g: Geometry, s: Screen, e: Event): (s': Screen)
    requires ScreenOk(g, s)
    ensures ScreenOk(g, s')
  {
    match e
    case Paint(k, v) =>
      if k < g.HostSize() then s.(src := s.src[SourceIndex(g, k) := v], stale := s.stale + {k}) else s
    case FlushOf(dirty) =>
      s.(host := Flushed(g, s.host, s.src, dirty),
         stale := set k | k in s.stale && !(k < g.HostSize() && Dirty(g, dirty, k)))
  }

  ghost function Replay(g: Geometry, s: Screen, events: seq<Event>): (s': Screen)
    requires ScreenOk(g, s)
    ensures ScreenOk(g, s')
    decreases |events|
  {
    if events == [] then s else Replay(g, After(g, s, events[0]), events[1..])
  }

  /** Every pixel that is not stale shows the guest's pixel with opaque alpha. */
  ghost predicate Coherent(g: Geometry, s: Screen)
    requires ScreenOk(g, s)
  {
    forall k :: 0 <= k < g.HostSize() && k !in s.stale ==> s.host[k] == Opaque(s.src[SourceIndex(g, k)])
  }

  ghost function Below(n: nat): (r: set<nat>)
    ensures forall k: nat :: k in r <==> k < n
  {
    if n == 0 then {} else Below(n - 1) + {n - 1}
  }

  /** A new surface: nothing flushed yet. */
  ghost function Created(g: Geometry, src: seq<bv32>): Screen {
    Screen(src, seq(g.HostSize(), _ => 0), Below(g.HostSize()))
  }

  lemma SourceIndexInjective(g: Geometry, j: nat, k: nat)
    requires g.Valid() && j < g.HostSize() && k < g.HostSize() && SourceIndex(g, j) == SourceIndex(g, k)
    ensures j == k
  {
    PixelCoordinates(g, j);
    PixelCoordinates(g, k);
    CoordinatesOf(g.srcWidth, X(g, j), Y(g, j));
    CoordinatesOf(g.srcWidth, X(g, k), Y(g, k));
  }

  lemma EventKeepsCoherence(g: Geometry, s: Screen, e: Event)
    requires ScreenOk(g, s) && Coherent(g, s)
    ensures Coherent(g, After(g, s, e))
  {
    var s' := After(g, s, e);
    forall k | 0 <= k < g.HostSize() && k !in s'.stale ensures s'.host[k] == Opaque(s'.src[SourceIndex(g, k)]) {
      if e.Paint? && e.k < g.HostSize() && SourceIndex(g, k) == SourceIndex(g, e.k) { SourceIndexInjective(g, k, e.k); }
    }
  }

  /** Over any sequence of guest paints and flushes of arbitrary rectangles, host_bits agrees with
      the guest's bitmap at every pixel not painted since its last covering flush. */
  lemma {:induction false} IncrementalCopyIsCoherent(g: Geometry, s: Screen, events: seq<Event>)
    requires ScreenOk(g, s) && Coherent(g, s)
    ensures Coherent(g, Replay(g, s, events))
    decreases |events|
  {
    if events != [] {
      EventKeepsCoherence(g, s, events[0]);
      IncrementalCopyIsCoherent(g, After(g, s, events[0]), events[1..]);
    }
  }

  /** A pixel leaves the stale set exactly by a flush that covers it: after flushing the whole
      surface host_bits is the opaque image of the guest's bitmap. */
  lemma FullFlushShowsAll(g: Geometry, src: seq<bv32>, events: seq<Event>, dirty: Rect)
    requires g.Valid() && |src| == g.SrcSize()
    requires dirty.left <= 0 && dirty.top <= 0 && g.width <= dirty.right && g.height <= dirty.bottom
    ensures var s := Replay(g, Created(g, src), events + [FlushOf(dirty)]);
      forall k :: 0 <= k < g.HostSize() ==> s.host[k] == Opaque(s.src[SourceIndex(g, k)])
  {
    var s0 := Created(g, src);
    ReplayConcat(g, s0, events, [FlushOf(dirty)]);
    var m := Replay(g, s0, events);
    forall k | 0 <= k < g.HostSize() ensures Dirty(g, dirty, k) { PixelCoordinates(g, k); }
    IncrementalCopyIsCoherent(g, s0, events);
    EventKeepsCoherence(g, m, FlushOf(dirty));
    assert Replay(g, m, [FlushOf(dirty)]) == After(g, m, FlushOf(dirty));
  }

  lemma {:induction false} ReplayConcat(g: Geometry, s: Screen, a: seq<Event>, b: seq<Event>)
    requires ScreenOk(g, s)
    ensures Replay(g, s, a + b) == Replay(g, Replay(g, s, a), b)
    decreases |a|
  {
    if a == [] {
      assert a + b == b;
    } else {
      assert (a + b)[1..] == a[1..] + b;
      ReplayConcat(g, After(g, s, a[0]), a[1..], b);
    }
  }
}
