/** The fit and scroll geometry of scripts/mermaid_fit_probe.py, with exact rationals for its two float divisions. */
module FitGeometry {
  import opened Utils

  const MAX_AUTO_FILL_ZOOM_PERCENT: nat := 1000

  function Clamp(value: int, lo: int, hi: int): int {
    Max(lo, Min(hi, value))
  }

  function DivCeil(value: nat, divisor: nat): nat {
    if divisor == 0 then 0 else (value + divisor - 1) / divisor
  }

  /** `math.ceil`. */
  function Ceil(x: real): int {
    -((-x).Floor)
  }

  // ---------- zoom ----------

  function AxisFillZoomPercent(cells: nat, imagePx: nat, cellPx: nat): int {
    if cells == 0 || imagePx == 0 || cellPx == 0 then 100
    else Clamp(cells * cellPx * 100 / Max(imagePx, 1), 1, MAX_AUTO_FILL_ZOOM_PERCENT)
  }

  function FitZoomPercent(width: nat, height: nat, imgW: nat, imgH: nat, fontW: nat, fontH: nat): int {
    if width == 0 || height == 0 || imgW == 0 || imgH == 0 then 100 else
    var zoomW := width * Max(fontW, 1) * 100 / Max(imgW, 1);
    var zoomH := height * Max(fontH, 1) * 100 / Max(imgH, 1);
    Clamp(Min(zoomW, zoomH), 1, MAX_AUTO_FILL_ZOOM_PERCENT)
  }

  /** At `zoom` percent an image of `imagePx` pixels needs no more than `cells` cells. */
  predicate Fits(imagePx: nat, zoom: nat, cells: nat, cellPx: nat) {
    imagePx * zoom <= cells * Max(cellPx, 1) * 100
  }

  lemma QuotientIsLargest(a: nat, b: nat, z: nat)
    requires b > 0
    ensures b * z <= a <==> z <= a / b
  {
    assert a == b * (a / b) + a % b;
    if z <= a / b {
      MulMono(b, z, a / b);
    } else {
      MulMono(b, a / b + 1, z);
    }
  }

  lemma MulMono(b: nat, x: nat, y: nat)
    requires x <= y
    ensures b * x <= b * y
  {
  }

  /** Within the allowed range the zooms up to the fit zoom are those that fit on both axes, and the floor of 1. */
  lemma FitZoomIsLargestThatFits(width: nat, height: nat, imgW: nat, imgH: nat, fontW: nat, fontH: nat, z: nat)
    requires width > 0 && height > 0 && imgW > 0 && imgH > 0
    requires 1 <= z <= MAX_AUTO_FILL_ZOOM_PERCENT
    ensures z <= FitZoomPercent(width, height, imgW, imgH, fontW, fontH)
            <==> z == 1 || (Fits(imgW, z, width, fontW) && Fits(imgH, z, height, fontH))
  {
    QuotientIsLargest(width * Max(fontW, 1) * 100, imgW, z);
    QuotientIsLargest(height * Max(fontH, 1) * 100, imgH, z);
  }

  /** Every zoom lies between 1 and 1000 percent. */
  lemma ZoomsAreClamped(width: nat, height: nat, imgW: nat, imgH: nat, fontW: nat, fontH: nat)
    ensures 1 <= FitZoomPercent(width, height, imgW, imgH, fontW, fontH) <= 1000
    ensures 1 <= AxisFillZoomPercent(width, imgW, fontW) <= 1000
  {
  }

  function MinOfAxes(width: nat, height: nat, imgW: nat, imgH: nat, fontW: nat, fontH: nat): int {
    Min(AxisFillZoomPercent(width, imgW, fontW), AxisFillZoomPercent(height, imgH, fontH))
  }

  predicate AllPositive(width: nat, height: nat, imgW: nat, imgH: nat) {
    width > 0 && height > 0 && imgW > 0 && imgH > 0
  }

  /** The axis zoom is at least 100: a size is unknown, or the cells show the whole image at full size. */
  predicate AtLeastFullSize(cells: nat, imagePx: nat, cellPx: nat) {
    cells == 0 || imagePx == 0 || cells * cellPx >= imagePx
  }

  lemma AxisAtLeastFullSize(cells: nat, imagePx: nat, cellPx: nat)
    requires cellPx > 0
    ensures AxisFillZoomPercent(cells, imagePx, cellPx) >= 100 <==> AtLeastFullSize(cells, imagePx, cellPx)
  {
    if imagePx > 0 {
      QuotientIsLargest(cells * cellPx * 100, imagePx, 100);
    }
  }

  /**
   * With positive font sizes the fit zoom is the smaller of the two axis zooms exactly when no size is zero,
   * or each axis of the image that is known fits its pane at full size.
   */
  lemma FitZoomIsMinOfAxesIff(width: nat, height: nat, imgW: nat, imgH: nat, fontW: nat, fontH: nat)
    requires fontW > 0 && fontH > 0
    ensures FitZoomPercent(width, height, imgW, imgH, fontW, fontH)
            == MinOfAxes(width, height, imgW, imgH, fontW, fontH)
            <==> || AllPositive(width, height, imgW, imgH)
                 || (AtLeastFullSize(width, imgW, fontW) && AtLeastFullSize(height, imgH, fontH))
  {
    if AllPositive(width, height, imgW, imgH) {
      MinOfClamps(width * fontW * 100 / Max(imgW, 1), height * fontH * 100 / Max(imgH, 1));
    } else {
      AxisAtLeastFullSize(width, imgW, fontW);
      AxisAtLeastFullSize(height, imgH, fontH);
    }
  }

  lemma MinOfClamps(a: int, b: int)
    ensures Clamp(Min(a, b), 1, MAX_AUTO_FILL_ZOOM_PERCENT)
            == Min(Clamp(a, 1, MAX_AUTO_FILL_ZOOM_PERCENT), Clamp(b, 1, MAX_AUTO_FILL_ZOOM_PERCENT))
  {
  }

  ghost predicate AgreesOnAllSizes(fontW: nat, fontH: nat) {
    forall width: nat, height: nat, imgW: nat, imgH: nat :: AllPositive(width, height, imgW, imgH) ==>
      FitZoomPercent(width, height, imgW, imgH, fontW, fontH) == MinOfAxes(width, height, imgW, imgH, fontW, fontH)
  }

  /** The two formulas agree on all positive sizes exactly when both font sizes are positive. */
  lemma AxesAgreeIffFontsPositive(fontW: nat, fontH: nat)
    ensures AgreesOnAllSizes(fontW, fontH) <==> fontW > 0 && fontH > 0
  {
    if fontW > 0 && fontH > 0 {
      forall width: nat, height: nat, imgW: nat, imgH: nat | AllPositive(width, height, imgW, imgH)
        ensures FitZoomPercent(width, height, imgW, imgH, fontW, fontH)
                == MinOfAxes(width, height, imgW, imgH, fontW, fontH)
      {
        FitZoomIsMinOfAxesIff(width, height, imgW, imgH, fontW, fontH);
      }
    } else {
      ZeroFontDisagrees(fontW, fontH);
    }
  }

  /** Two cells per axis for a one-pixel image: the fit zoom is at least 200, a zero font makes the axis zoom 100. */
  lemma ZeroFontDisagrees(fontW: nat, fontH: nat)
    requires fontW == 0 || fontH == 0
    ensures AllPositive(2, 2, 1, 1)
    ensures FitZoomPercent(2, 2, 1, 1, fontW, fontH) != MinOfAxes(2, 2, 1, 1, fontW, fontH)
  {
  }

  // ---------- the exact scale and the centred rectangle ----------

  function RealMin(a: real, b: real): real {
    if a <= b then a else b
  }

  function Scale(width: nat, height: nat, imgW: nat, imgH: nat, fontW: nat, fontH: nat): real
    requires imgW > 0 && imgH > 0
  {
    RealMin((width * Max(fontW, 1)) as real / imgW as real, (height * Max(fontH, 1)) as real / imgH as real)
  }

  datatype Rect = Rect(x: int, y: int, width: int, height: int)

  function FittedCells(cells: nat, img: nat, font: nat, scale: real): int
    requires font > 0
  {
    Min(Ceil(img as real * scale / font as real), cells)
  }

  function VCenterFitted(width: nat, height: nat, imgW: nat, imgH: nat, fontW: nat, fontH: nat): Rect {
    if width == 0 || height == 0 || imgW == 0 || imgH == 0 then Rect(0, 0, width, height) else
    var scale := Scale(width, height, imgW, imgH, fontW, fontH);
    var fittedW := FittedCells(width, imgW, Max(fontW, 1), scale);
    var fittedH := FittedCells(height, imgH, Max(fontH, 1), scale);
    Rect((width - fittedW) / 2, (height - fittedH) / 2, fittedW, fittedH)
  }

  lemma DivTimes(a: real, b: real)
    requires b > 0.0
    ensures a / b * b == a
  {
  }

  lemma RealMulMono(a: real, b: real, c: real)
    requires a <= b && c >= 0.0
    ensures a * c <= b * c
  {
  }

  lemma RealDivMono(a: real, b: real, c: real)
    requires a <= b && c > 0.0
    ensures a / c <= b / c
  {
  }

  lemma QuotientSplits(q: real, b: real, r: real)
    requires b > 0.0
    ensures (q * b + r) / b == q + r / b
  {
  }

  lemma FractionBelowOne(r: real, b: real)
    requires 0.0 <= r < b
    ensures 0.0 <= r / b < 1.0
  {
  }

  lemma QuotientBetween(a: real, b: real, q: real, r: real)
    requires b > 0.0 && a == q * b + r && 0.0 <= r < b
    ensures q <= a / b < q + 1.0
  {
    QuotientSplits(q, b, r);
    FractionBelowOne(r, b);
  }

  lemma FloorBetween(x: real, q: int)
    requires q as real <= x < q as real + 1.0
    ensures x.Floor == q
  {
  }

  lemma RealOfSum(q: int, b: int, r: int)
    ensures (q * b + r) as real == q as real * b as real + r as real
  {
  }

  lemma Euclid(a: nat, b: nat)
    requires b > 0
    ensures a == (a / b) * b + a % b && 0 <= a % b < b
  {
  }

  /** Floor of an exact quotient of naturals is integer division. */
  lemma FloorOfQuotient(a: nat, b: nat)
    requires b > 0
    ensures (a as real / b as real).Floor == a / b
  {
    var q, r := a / b, a % b;
    Euclid(a, b);
    RealOfSum(q, b, r);
    QuotientBetween(a as real, b as real, q as real, r as real);
    FloorBetween(a as real / b as real, q);
  }

  /** The fit zoom is the clamped floor of a hundred times the exact scale the centred rectangle uses. */
  lemma FitZoomFromScale(width: nat, height: nat, imgW: nat, imgH: nat, fontW: nat, fontH: nat)
    requires width > 0 && height > 0 && imgW > 0 && imgH > 0
    ensures FitZoomPercent(width, height, imgW, imgH, fontW, fontH)
            == Clamp((100.0 * Scale(width, height, imgW, imgH, fontW, fontH)).Floor, 1, MAX_AUTO_FILL_ZOOM_PERCENT)
  {
    FloorOfQuotient(width * Max(fontW, 1) * 100, imgW);
    FloorOfQuotient(height * Max(fontH, 1) * 100, imgH);
    Hundredfold(width * Max(fontW, 1), imgW);
    Hundredfold(height * Max(fontH, 1), imgH);
  }

  lemma Hundredfold(a: nat, b: nat)
    requires b > 0
    ensures (a * 100) as real / b as real == 100.0 * (a as real / b as real)
  {
  }

  /** One axis: the scaled image needs at most the pane, positive, and covers it when the scale is this axis' own. */
  lemma FittedAxis(cells: nat, img: nat, font: nat, scale: real)
    requires cells > 0 && img > 0 && font > 0 && 0.0 < scale <= (cells * font) as real / img as real
    ensures var need := img as real * scale / font as real;
      && 0 < Ceil(need) <= cells && need <= Ceil(need) as real < need + 1.0
      && (scale == (cells * font) as real / img as real ==> Ceil(need) == cells)
  {
    var need := img as real * scale / font as real;
    RealMulMono(scale, (cells * font) as real / img as real, img as real);
    DivTimes((cells * font) as real, img as real);
    assert img as real * scale == scale * img as real;
    assert (cells * font) as real == cells as real * font as real;
    assert cells as real * font as real / font as real == cells as real;
    RealDivMono(img as real * scale, (cells * font) as real, font as real);
    Positive(img as real * scale, font as real, scale, img as real);
  }

  lemma Positive(a: real, b: real, scale: real, img: real)
    requires b > 0.0 && scale > 0.0 && img > 0.0 && a == img * scale
    ensures a > 0.0 && a / b > 0.0
  {
  }

  lemma ScaleBounds(width: nat, height: nat, imgW: nat, imgH: nat, fontW: nat, fontH: nat)
    requires width > 0 && height > 0 && imgW > 0 && imgH > 0
    ensures Max(fontW, 1) > 0 && Max(fontH, 1) > 0
    ensures var scale := Scale(width, height, imgW, imgH, fontW, fontH);
      var w, h := (width * Max(fontW, 1)) as real / imgW as real, (height * Max(fontH, 1)) as real / imgH as real;
      0.0 < scale && scale <= w && scale <= h && (scale == w || scale == h)
  {
    assert width * Max(fontW, 1) > 0 && height * Max(fontH, 1) > 0;
  }

  lemma AxisOfRectangle(cells: nat, img: nat, font: nat, scale: real)
    requires cells > 0 && img > 0 && font > 0 && 0.0 < scale <= (cells * font) as real / img as real
    ensures var fitted := FittedCells(cells, img, font, scale);
      && 0 < fitted <= cells
      && img as real * scale <= fitted as real * font as real
      && (fitted - 1) as real * font as real < img as real * scale
      && (scale == (cells * font) as real / img as real ==> fitted == cells)
  {
    hide Ceil;
    FittedAxis(cells, img, font, scale);
    Covers(img as real * scale, font as real, Ceil(img as real * scale / font as real) as real);
    FallsShort(img as real * scale, font as real, Ceil(img as real * scale / font as real));
  }

  lemma FallsShort(a: real, b: real, c: int)
    requires b > 0.0 && c as real < a / b + 1.0
    ensures (c - 1) as real * b < a
  {
    DivTimes(a, b);
    RealMulStrict((c - 1) as real, a / b, b);
  }

  lemma RealMulStrict(a: real, b: real, c: real)
    requires a < b && c > 0.0
    ensures a * c < b * c
  {
  }

  lemma Halves(cells: nat, fitted: nat)
    requires fitted <= cells
    ensures var x := (cells - fitted) / 2; 0 <= x && x + fitted <= cells && 0 <= (cells - x - fitted) - x <= 1
  {
  }

  /**
   * The rectangle lies inside the pane, fills at least one axis, and its margins differ by at most a cell. It covers
   * the scaled image, and a rectangle one cell narrower or lower does not. Without a size it is the whole pane.
   */
  lemma FittedRectangle(width: nat, height: nat, imgW: nat, imgH: nat, fontW: nat, fontH: nat)
    ensures var r := VCenterFitted(width, height, imgW, imgH, fontW, fontH);
      && r.x >= 0 && r.y >= 0 && r.width >= 0 && r.height >= 0
      && r.x + r.width <= width && r.y + r.height <= height
      && (r.width == width || r.height == height)
      && 0 <= (width - r.x - r.width) - r.x <= 1 && 0 <= (height - r.y - r.height) - r.y <= 1
      && (width > 0 && height > 0 && imgW > 0 && imgH > 0 ==>
            var scale := Scale(width, height, imgW, imgH, fontW, fontH);
            && r.width > 0 && r.height > 0
            && imgW as real * scale <= r.width as real * Max(fontW, 1) as real
            && imgH as real * scale <= r.height as real * Max(fontH, 1) as real
            && (r.width - 1) as real * Max(fontW, 1) as real < imgW as real * scale
            && (r.height - 1) as real * Max(fontH, 1) as real < imgH as real * scale)
      && (!AllPositive(width, height, imgW, imgH) ==> r == Rect(0, 0, width, height))
  {
    hide FittedCells, Max, Scale;
    if width > 0 && height > 0 && imgW > 0 && imgH > 0 {
      var r := VCenterFitted(width, height, imgW, imgH, fontW, fontH);
      var scale := Scale(width, height, imgW, imgH, fontW, fontH);
      ScaleBounds(width, height, imgW, imgH, fontW, fontH);
      AxisOfRectangle(width, imgW, Max(fontW, 1), scale);
      AxisOfRectangle(height, imgH, Max(fontH, 1), scale);
      Halves(width, r.width);
      Halves(height, r.height);
    }
  }

  lemma Covers(a: real, b: real, c: real)
    requires b > 0.0 && a / b <= c
    ensures a <= c * b
  {
    RealMulMono(a / b, c, b);
    DivTimes(a, b);
  }

  // ---------- the centred scroll ----------

  /** The image pixels a pane shows at `zoom` percent. */
  function ViewPx(cells: nat, zoom: nat, cellPx: nat): nat
    requires zoom > 0
  {
    cells * cellPx * 100 / zoom
  }

  function CenteredScrollCells(imagePx: nat, cells: nat, zoom: nat, cellPx: nat): int {
    if imagePx == 0 || cells == 0 || zoom == 0 || cellPx == 0 then 0 else
    var viewPx := ViewPx(cells, zoom, cellPx);
    var maxScrollPx := Max(0, imagePx - viewPx);
    if maxScrollPx == 0 then 0 else (maxScrollPx / 2) / Max(DivCeil(cellPx * 100, zoom), 1)
  }

  /** The centred viewport never runs past the image, and its right margin exceeds the left by less than two cells. */
  lemma CenteredScrollStaysInside(imagePx: nat, cells: nat, zoom: nat, cellPx: nat)
    requires zoom > 0 && cells > 0 && cellPx > 0
    requires imagePx > cells * cellPx * 100 / zoom
    ensures var cell := DivCeil(cellPx * 100, zoom);
      var left := CenteredScrollCells(imagePx, cells, zoom, cellPx) * cell;
      var right := imagePx - cells * cellPx * 100 / zoom - left;
      && (cell - 1) * zoom < cellPx * 100 <= cell * zoom
      && 0 <= left && 0 <= right && 0 <= right - left <= 2 * cell - 1
  {
    hide ViewPx, DivCeil;
    ViewIs(cells, zoom, cellPx);
    var cell := DivCeil(cellPx * 100, zoom);
    DivCeilIsLeast(cellPx * 100, zoom);
    CellPositive(cellPx, zoom);
    HalvedMargins(imagePx - ViewPx(cells, zoom, cellPx), cell);
  }

  lemma ViewIs(cells: nat, zoom: nat, cellPx: nat)
    requires zoom > 0
    ensures ViewPx(cells, zoom, cellPx) == cells * cellPx * 100 / zoom
  {
  }

  /** `div_ceil` is the least number whose product with the divisor reaches the value. */
  lemma DivCeilIsLeast(value: nat, divisor: nat)
    requires divisor > 0
    ensures (DivCeil(value, divisor) - 1) * divisor < value <= DivCeil(value, divisor) * divisor
  {
    Euclid(value + divisor - 1, divisor);
    Distributes(DivCeil(value, divisor), divisor);
  }

  lemma Distributes(a: int, b: int)
    ensures (a - 1) * b == a * b - b
  {
  }

  /** Splitting `m` pixels into whole cells of half of it. */
  lemma HalvedMargins(m: nat, cell: nat)
    requires cell > 0
    ensures var left := (m / 2) / cell * cell; 0 <= left <= m && 0 <= m - left - left <= 2 * cell - 1
  {
    Euclid(m / 2, cell);
    Euclid(m, 2);
  }

  lemma CellPositive(cellPx: nat, zoom: nat)
    requires zoom > 0 && cellPx > 0
    ensures DivCeil(cellPx * 100, zoom) >= 1
  {
    QuotientIsLargest(cellPx * 100 + zoom - 1, zoom, 1);
  }

  /** When the view shows the whole image, or a size is unknown, there is nothing to scroll. */
  lemma NoScrollWhenImageFits(imagePx: nat, cells: nat, zoom: nat, cellPx: nat)
    requires cells == 0 || zoom == 0 || cellPx == 0 || imagePx <= cells * cellPx * 100 / zoom
    ensures CenteredScrollCells(imagePx, cells, zoom, cellPx) == 0
  {
  }
}
