/**
 Where the remote picture lies in the window, and which remote pixel a pointer position means
 (crates/frd-core/src/viewport.rs). Pointer positions are real numbers.
 */
module Viewport {
  import opened Arithmetic
  import opened Bytes
  import opened Results
  import opened FrameSurface

  datatype ContentViewport = ContentViewport(drawable: PixelSize, content: PixelRect, remote: PixelSize)

  function AtLeastOne(n: u32): u32 {
    if n == 0 then 1 else n
  }

  function Clamp(n: nat, low: nat, high: nat): nat
    requires low <= high
  {
    if n < low then low else if n > high then high else n
  }

  /** The extent of the axis that is not filled, before it is centred. */
  function Scaled(remote: nat, bound: nat, otherRemote: nat, otherBound: nat): nat
    requires otherRemote > 0 && bound > 0
  {
    Clamp(remote * otherBound / otherRemote, 1, bound)
  }

  function FitIn(remote: PixelSize, drawable: PixelSize, bounds: PixelRect): Option<ContentViewport> {
    var r := PixelSize(AtLeastOne(remote.width), AtLeastOne(remote.height));
    if || drawable.width == 0 || drawable.height == 0
       || bounds.width == 0 || bounds.height == 0
       || bounds.x + bounds.width > MAX_U32 || bounds.x + bounds.width > drawable.width
       || bounds.y + bounds.height > MAX_U32 || bounds.y + bounds.height > drawable.height
    then None
    else
      var fillsWidth := bounds.width * r.height <= bounds.height * r.width;
      var width := if fillsWidth then bounds.width else Scaled(r.width, bounds.width, r.height, bounds.height);
      var height := if fillsWidth then Scaled(r.height, bounds.height, r.width, bounds.width) else bounds.height;
      Some(ContentViewport(
             drawable,
             PixelRect(bounds.x + (bounds.width - width) / 2, bounds.y + (bounds.height - height) / 2, width, height),
             r))
  }

  /** Fitting to the whole drawable, which is never empty, cannot fail. */
  function Fit(remote: PixelSize, drawable: PixelSize): ContentViewport {
    var d := PixelSize(AtLeastOne(drawable.width), AtLeastOne(drawable.height));
    FitIn(remote, d, PixelRect(0, 0, d.width, d.height)).value
  }

  // ---------- The largest picture of the right shape ----------

  /** An extent at a scale, rounded down. */
  function AtScale(extent: nat, k: real): int {
    (extent as real * k).Floor
  }

  predicate AxisFits(extent: nat, bound: nat, k: real) {
    extent as real * k <= bound as real
  }

  /** Whether the remote picture, scaled by k, fits the bounds. */
  predicate ScaledFits(r: PixelSize, bounds: PixelRect, k: real) {
    k >= 0.0 && AxisFits(r.width, bounds.width, k) && AxisFits(r.height, bounds.height, k)
  }

  lemma FloorOfQuotient(n: nat, d: nat)
    requires d > 0
    ensures (n as real / d as real).Floor == n / d
  {
    var q, m := n / d, n % d;
    assert n as real == q as real * d as real + m as real;
    assert n as real / d as real == q as real + m as real / d as real;
    assert 0.0 <= m as real / d as real < 1.0;
  }

  lemma ScaleBelow(filled: nat, filledBound: nat, other: nat, k: real)
    requires filled > 0 && k >= 0.0 && AxisFits(filled, filledBound, k)
    ensures AtScale(other, k) <= other * filledBound / filled
    ensures AtScale(filled, k) <= filledBound
  {
    var limit := filledBound as real / filled as real;
    assert k <= limit;
    assert other as real * k <= other as real * limit;
    assert other as real * limit == (other * filledBound) as real / filled as real;
    FloorOfQuotient(other * filledBound, filled);
  }

  lemma ScaledIsWithin(filled: nat, filledBound: nat, other: nat, otherBound: nat)
    requires filled > 0 && filledBound * other <= otherBound * filled
    ensures other * filledBound / filled <= otherBound
  {
    assert other * filledBound / filled * filled <= otherBound * filled;
  }

  lemma TimesQuotient(n: nat, m: nat, d: nat)
    requires d > 0
    ensures n as real * (m as real / d as real) == (n * m) as real / d as real
  {
    assert (n * m) as real == n as real * m as real;
  }

  /** At the largest scale that fits, one axis is filled and the other is the scaled extent rounded down. */
  lemma LargestScale(filled: nat, filledBound: nat, other: nat, otherBound: nat) returns (k: real)
    requires filled > 0 && filledBound * other <= otherBound * filled
    ensures k >= 0.0 && AxisFits(filled, filledBound, k) && AxisFits(other, otherBound, k)
    ensures AtScale(filled, k) == filledBound
    ensures AtScale(other, k) == other * filledBound / filled <= otherBound
  {
    k := filledBound as real / filled as real;
    assert filled as real * k == filledBound as real;
    TimesQuotient(other, filledBound, filled);
    FloorOfQuotient(other * filledBound, filled);
    ScaledIsWithin(filled, filledBound, other, otherBound);
    QuotientWithin(other * filledBound, filled, otherBound);
  }

  lemma QuotientWithin(n: nat, d: nat, bound: nat)
    requires d > 0 && n <= bound * d
    ensures n as real / d as real <= bound as real
  {
    assert n as real <= (bound * d) as real == bound as real * d as real;
  }

  predicate Centred(low: nat, high: nat, at: nat, extent: nat) {
    low <= at && at + extent <= high && 0 <= (high - at - extent) - (at - low) <= 1
  }

  lemma HalfIsCentred(origin: nat, bound: nat, extent: nat)
    requires extent <= bound
    ensures Centred(origin, origin + bound, origin + (bound - extent) / 2, extent)
  {
  }

  /**
   The content lies in the bounds and fills one axis, centred on the other within a pixel. It is the remote
   picture at some scale k that fits, each extent rounded down but at least 1, and no scale that fits makes
   either extent larger; so the clamps to the bounds never cut anything off.
   */
  lemma FitIsLargest(remote: PixelSize, drawable: PixelSize, bounds: PixelRect) returns (k: real)
    requires FitIn(remote, drawable, bounds).Some?
    ensures var v := FitIn(remote, drawable, bounds).value;
            var c, r := v.content, v.remote;
            && Centred(bounds.x, bounds.x + bounds.width, c.x, c.width)
            && Centred(bounds.y, bounds.y + bounds.height, c.y, c.height)
            && (c.width == bounds.width || c.height == bounds.height)
            && ScaledFits(r, bounds, k)
            && c.width == (if AtScale(r.width, k) < 1 then 1 else AtScale(r.width, k))
            && c.height == (if AtScale(r.height, k) < 1 then 1 else AtScale(r.height, k))
            && forall j :: ScaledFits(r, bounds, j) ==>
                 AtScale(r.width, j) <= c.width && AtScale(r.height, j) <= c.height
  {
    hide AtScale, AxisFits;
    var v := FitIn(remote, drawable, bounds).value;
    var c, r := v.content, v.remote;
    HalfIsCentred(bounds.x, bounds.width, c.width);
    HalfIsCentred(bounds.y, bounds.height, c.height);
    if bounds.width * r.height <= bounds.height * r.width {
      k := LargestScale(r.width, bounds.width, r.height, bounds.height);
      forall j | ScaledFits(r, bounds, j)
        ensures AtScale(r.width, j) <= c.width && AtScale(r.height, j) <= c.height
      {
        ScaleBelow(r.width, bounds.width, r.height, j);
      }
    } else {
      k := LargestScale(r.height, bounds.height, r.width, bounds.width);
      forall j | ScaledFits(r, bounds, j)
        ensures AtScale(r.width, j) <= c.width && AtScale(r.height, j) <= c.height
      {
        ScaleBelow(r.height, bounds.height, r.width, j);
      }
    }
  }

  // ---------- Pointer positions ----------

  datatype PixelPoint = PixelPoint(x: u32, y: u32)

  function Times(x: real, n: nat): (y: real)
    ensures x >= 0.0 ==> y >= 0.0
  {
    x * n as real
  }

  function Over(x: real, d: nat): (y: real)
    requires d > 0
    ensures x >= 0.0 ==> y >= 0.0
  {
    x / d as real
  }

  /** The offset as a fraction n/d of itself, rounded down. */
  function Projected(offset: real, n: nat, d: nat): (p: nat)
    requires offset >= 0.0 && d > 0
  {
    hide Times, Over;
    Over(Times(offset, n), d).Floor
  }

  function MapAxis(value: real, origin: u32, extent: u32, remoteExtent: u32): Option<u32> {
    if extent == 0 || remoteExtent == 0 || origin + extent > MAX_U32 then None
    else if value < origin as real || value >= (origin + extent) as real then None
    else if extent == 1 || remoteExtent == 1 then Some(0)
    else
      var scaled := Projected(value - origin as real, remoteExtent - 1, extent - 1);
      Some(if scaled <= remoteExtent - 1 then scaled else remoteExtent - 1)
  }

  function MapPointer(v: ContentViewport, x: real, y: real): Option<PixelPoint> {
    var px := MapAxis(x, v.content.x, v.content.width, v.remote.width);
    var py := MapAxis(y, v.content.y, v.content.height, v.remote.height);
    if px.None? || py.None? then None else Some(PixelPoint(px.value, py.value))
  }

  /** The picture of a window fills one axis of it, and a position means a remote pixel exactly when it is on it. */
  lemma PositionMeansPixelExactlyInside(remote: PixelSize, drawable: PixelSize, x: real, y: real)
    ensures var v := Fit(remote, drawable);
            var c, point := v.content, MapPointer(v, x, y);
            && c.x + c.width <= AtLeastOne(drawable.width) && c.y + c.height <= AtLeastOne(drawable.height)
            && (c.width == AtLeastOne(drawable.width) || c.height == AtLeastOne(drawable.height))
            && (point.Some? <==>
                  c.x as real <= x < (c.x + c.width) as real && c.y as real <= y < (c.y + c.height) as real)
            && (point.Some? ==>
                  point.value.x < AtLeastOne(remote.width) && point.value.y < AtLeastOne(remote.height))
  {
    var d := PixelSize(AtLeastOne(drawable.width), AtLeastOne(drawable.height));
    var k := FitIsLargest(remote, d, PixelRect(0, 0, d.width, d.height));
    hide FitIn, Scaled, Projected;
  }

  lemma TimesIsMonotone(a: real, b: real, n: nat)
    requires a <= b
    ensures Times(a, n) <= Times(b, n)
  {
    ProductGrowsInReals(a, b, n as real);
  }

  lemma ProductGrowsInReals(a: real, b: real, n: real)
    requires a <= b && n >= 0.0
    ensures a * n <= b * n
  {
  }

  lemma OverIsMonotone(a: real, b: real, d: nat)
    requires a <= b && d > 0
    ensures Over(a, d) <= Over(b, d)
  {
    assert a / d as real <= b / d as real;
  }

  lemma ProjectionIsMonotone(a: real, b: real, n: nat, d: nat)
    requires 0.0 <= a <= b && d > 0
    ensures Projected(a, n, d) <= Projected(b, n, d)
  {
    hide Times, Over;
    TimesIsMonotone(a, b, n);
    OverIsMonotone(Times(a, n), Times(b, n), d);
  }

  /** A position further right never means a remote pixel further left, and every result is on the remote surface. */
  lemma MapAxisIsMonotone(a: real, b: real, origin: u32, extent: u32, remoteExtent: u32)
    requires a <= b && MapAxis(a, origin, extent, remoteExtent).Some? && MapAxis(b, origin, extent, remoteExtent).Some?
    ensures MapAxis(a, origin, extent, remoteExtent).value <= MapAxis(b, origin, extent, remoteExtent).value
    ensures MapAxis(b, origin, extent, remoteExtent).value < remoteExtent
  {
    hide Projected;
    if extent > 1 && remoteExtent > 1 {
      ProjectionIsMonotone(a - origin as real, b - origin as real, remoteExtent - 1, extent - 1);
    }
  }

  lemma TimesWhole(j: nat, n: nat)
    ensures Times(j as real, n) == (j * n) as real
  {
  }

  lemma OverWhole(n: nat, d: nat)
    requires d > 0
    ensures Over(n as real, d).Floor == n / d
  {
    FloorOfQuotient(n, d);
  }

  /** At a whole offset the projection is integer division. */
  lemma ProjectionOfWhole(j: nat, n: nat, d: nat)
    requires d > 0
    ensures Projected(j as real, n, d) == j * n / d
  {
    hide Times, Over;
    TimesWhole(j, n);
    OverWhole(j * n, d);
  }

  /** What the j-th content pixel of an axis maps to. */
  function AtPixel(j: nat, origin: u32, extent: u32, remoteExtent: u32): Option<u32> {
    MapAxis((origin + j) as real, origin, extent, remoteExtent)
  }

  lemma MapAxisAtPixel(j: nat, origin: u32, extent: u32, remoteExtent: u32)
    requires j < extent && extent > 1 && remoteExtent > 1 && origin + extent <= MAX_U32
    ensures j * (remoteExtent - 1) / (extent - 1) <= remoteExtent - 1
    ensures AtPixel(j, origin, extent, remoteExtent) == Some(j * (remoteExtent - 1) / (extent - 1))
  {
    hide Projected;
    var n, d := remoteExtent - 1, extent - 1;
    assert (origin + j) as real - origin as real == j as real;
    ProjectionOfWhole(j, n, d);
    OffsetWithin(j, n, d);
  }

  lemma OffsetWithin(j: nat, n: nat, d: nat)
    requires d > 0 && j <= d
    ensures j * n / d <= n
  {
    DivisionSplits(j * n, d);
    assert j * n <= d * n;
    NotAbove(j * n / d, d, n);
  }

  /** The remote pixel of an axis that a content pixel means: its share of the way from first to last. */
  function Share(j: nat, extent: nat, remoteExtent: nat): nat
    requires extent > 0 && remoteExtent > 0
  {
    if extent == 1 || remoteExtent == 1 then 0 else j * (remoteExtent - 1) / (extent - 1)
  }

  /** A content pixel means the remote pixel that lies as far across the remote surface and as far down. */
  lemma PointerAtPixel(v: ContentViewport, i: nat, j: nat)
    requires i < v.content.width && j < v.content.height && v.remote.width > 0 && v.remote.height > 0
    requires v.content.x + v.content.width <= MAX_U32 && v.content.y + v.content.height <= MAX_U32
    ensures var point := MapPointer(v, (v.content.x + i) as real, (v.content.y + j) as real);
            && point.Some?
            && point.value.x == Share(i, v.content.width, v.remote.width)
            && point.value.y == Share(j, v.content.height, v.remote.height)
  {
    hide Projected;
    if v.content.width > 1 && v.remote.width > 1 {
      MapAxisAtPixel(i, v.content.x, v.content.width, v.remote.width);
    }
    if v.content.height > 1 && v.remote.height > 1 {
      MapAxisAtPixel(j, v.content.y, v.content.height, v.remote.height);
    }
  }

  /** Moving the pointer right or down never moves what it means left or up, nor moves it across. */
  lemma PointerIsMonotone(v: ContentViewport, x: real, y: real, x': real, y': real)
    requires x <= x' && y <= y' && MapPointer(v, x, y).Some? && MapPointer(v, x', y').Some?
    ensures var a, b := MapPointer(v, x, y).value, MapPointer(v, x', y').value;
            && a.x <= b.x && a.y <= b.y && (x == x' ==> a.x == b.x) && (y == y' ==> a.y == b.y)
  {
    hide MapAxis;
    MapAxisIsMonotone(x, x', v.content.x, v.content.width, v.remote.width);
    MapAxisIsMonotone(y, y', v.content.y, v.content.height, v.remote.height);
  }

  /** First goes to first and last to last. */
  lemma MapAxisEnds(origin: u32, extent: u32, remoteExtent: u32)
    requires extent > 0 && remoteExtent > 0 && origin + extent <= MAX_U32
    ensures AtPixel(0, origin, extent, remoteExtent) == Some(0)
    ensures extent > 1 ==> AtPixel(extent - 1, origin, extent, remoteExtent) == Some(remoteExtent - 1)
  {
    hide AtPixel;
    if extent > 1 && remoteExtent > 1 {
      MapAxisAtPixel(0, origin, extent, remoteExtent);
      MapAxisAtPixel(extent - 1, origin, extent, remoteExtent);
      EndsDivide(remoteExtent - 1, extent - 1);
    } else {
      SinglePixelAxis(0, origin, extent, remoteExtent);
      SinglePixelAxis(extent - 1, origin, extent, remoteExtent);
    }
  }

  lemma EndsDivide(n: nat, d: nat)
    requires d > 0
    ensures 0 * n / d == 0 && d * n / d == n
  {
    QuotientOf(0, d, 0);
    QuotientOf(n, d, 0);
    assert d * n == n * d + 0;
  }

  lemma SinglePixelAxis(j: nat, origin: u32, extent: u32, remoteExtent: u32)
    requires (extent == 1 || remoteExtent == 1) && remoteExtent > 0 && j < extent && origin + extent <= MAX_U32
    ensures AtPixel(j, origin, extent, remoteExtent) == Some(0)
  {
  }

  predicate Reached(origin: u32, extent: u32, remoteExtent: u32, p: nat) {
    exists j :: 0 <= j < extent && AtPixel(j, origin, extent, remoteExtent) == Some(p)
  }

  /** With at least as many content pixels as remote ones, every remote pixel is some content pixel's. */
  lemma WideContentReaches(origin: u32, extent: u32, remoteExtent: u32, p: nat)
    requires p < remoteExtent <= extent && origin + extent <= MAX_U32
    ensures Reached(origin, extent, remoteExtent, p)
  {
    hide AtPixel;
    if remoteExtent == 1 {
      MapAxisEnds(origin, extent, remoteExtent);
    } else {
      var j := RoundedUp(p, remoteExtent - 1, extent - 1);
      MapAxisAtPixel(j, origin, extent, remoteExtent);
    }
  }

  /** The smallest j with j * n / d == p, for n no larger than d. */
  lemma RoundedUp(p: nat, n: nat, d: nat) returns (j: nat)
    requires 0 < n <= d && p <= n
    ensures j <= d && j * n / d == p
  {
    var m := p * d + n - 1;
    j := m / n;
    DivisionSplits(m, n);
    assert j * n == p * d + (n - 1 - m % n);
    QuotientOf(p, d, n - 1 - m % n);
    ProductGrows(p, n, d);
    NotAbove(j, n, d);
  }

  lemma ProductGrows(p: nat, n: nat, d: nat)
    requires p <= n
    ensures p * d <= n * d == d * n
  {
  }

  /** With fewer, the last remote pixel but one is never reached, or with a single content pixel the second. */
  lemma NarrowContentMisses(origin: u32, extent: u32, remoteExtent: u32)
    requires 0 < extent < remoteExtent && origin + extent <= MAX_U32
    ensures !Reached(origin, extent, remoteExtent, if extent == 1 then 1 else remoteExtent - 2)
  {
    if extent > 1 {
      hide AtPixel;
      forall j | 0 <= j < extent
        ensures AtPixel(j, origin, extent, remoteExtent) != Some(remoteExtent - 2)
      {
        MapAxisAtPixel(j, origin, extent, remoteExtent);
        SkipsLastButOne(j, remoteExtent - 1, extent - 1);
      }
    }
  }

  lemma SkipsLastButOne(j: nat, n: nat, d: nat)
    requires 0 < d < n && j <= d
    ensures j * n / d != n - 1
  {
    if j == d {
      EndsDivide(n, d);
    } else {
      DivisionSplits(j * n, d);
      ProductBelow(j, n, d);
      NotAbove(j * n / d, d, n - 2);
    }
  }

  lemma ProductBelow(j: nat, n: nat, d: nat)
    requires 0 < d < n && j < d
    ensures j * n <= (n - 2) * d + d - 1
  {
    assert j * n <= (d - 1) * n == d * n - n;
    assert (n - 2) * d == d * n - 2 * d;
  }

  /** Every remote pixel can be pointed at exactly when the content is at least as wide as the remote picture. */
  lemma EveryPixelIsReachedExactlyWhen(origin: u32, extent: u32, remoteExtent: u32)
    requires extent > 0 && remoteExtent > 0 && origin + extent <= MAX_U32
    ensures (forall p :: 0 <= p < remoteExtent ==> Reached(origin, extent, remoteExtent, p)) <==> extent >= remoteExtent
  {
    hide AtPixel;
    if extent >= remoteExtent {
      forall p | 0 <= p < remoteExtent
        ensures Reached(origin, extent, remoteExtent, p)
      {
        WideContentReaches(origin, extent, remoteExtent, p);
      }
    } else {
      NarrowContentMisses(origin, extent, remoteExtent);
    }
  }
}
