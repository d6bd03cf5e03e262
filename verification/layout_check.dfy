/** The pixel layout comparator: colour tolerance, canvas sizing, region
    selection, error/ignored pixel counting, the deviation percentage and the
    per-target run counter that names consecutive screenshots.

    Images are given as input (file reading and writing, and the painting of
    the distance image, are not modelled); the deviation is kept as an exact
    rational instead of a `double`. */
module LayoutCheck {
  import opened Wrappers
  import opened JavaInt
  import opened Strings

  /** Maximum per-channel difference, the denominator of a channel's
      deviation percentage. */
  const RGB_MAX_DEVIATION: nat := 255

  // ---------------------------------------------------------------------
  // Colours

  /** The red, green and blue bytes of a packed ARGB `int`, as
      `java.awt.Color(int)` extracts them (`(rgb >> 16) & 0xFF`, ...);
      Dafny's division by a positive constant floors, like an arithmetic
      shift. The alpha byte is never looked at. */
  function Red(rgb: int): nat { (rgb / 0x1_0000) % 256 }
  function Green(rgb: int): nat { (rgb / 0x100) % 256 }
  function Blue(rgb: int): nat { rgb % 256 }

  function Abs(v: int): nat { if v < 0 then -v else v }

  /** `(int) (100 * |a - b| / 255.0)`. The quotient is never within
      1/255 of an integer unless it is one, so the `double` division
      followed by truncation equals the exact floor computed here. */
  function ChannelPercent(a: nat, b: nat): nat {
    (100 * Abs(a - b)) / RGB_MAX_DEVIATION
  }

  /** `doRGBsMatch`: bit-identical colours match; otherwise, only with a
      positive tolerance, and only if every colour channel deviates by at
      most `tolerance` percent. */
  predicate RgbsMatch(tolerance: int, expectedRgb: int, actualRgb: int) {
    if expectedRgb == actualRgb then true
    else if tolerance > 0 then
      && ChannelPercent(Red(expectedRgb), Red(actualRgb)) <= tolerance
      && ChannelPercent(Green(expectedRgb), Green(actualRgb)) <= tolerance
      && ChannelPercent(Blue(expectedRgb), Blue(actualRgb)) <= tolerance
    else false
  }

  /** An independent statement of the channel test: a channel passes
      tolerance `t` exactly when `100 * |diff| < 255 * (t + 1)`. */
  lemma ChannelWithinTolerance(a: nat, b: nat, t: int)
    requires t >= 0
    ensures ChannelPercent(a, b) <= t <==> 100 * Abs(a - b) < RGB_MAX_DEVIATION * (t + 1)
  {
    var n := 100 * Abs(a - b);
    var q := n / RGB_MAX_DEVIATION;
    assert q * RGB_MAX_DEVIATION <= n < (q + 1) * RGB_MAX_DEVIATION;
    if q <= t {
      assert (q + 1) * RGB_MAX_DEVIATION <= (t + 1) * RGB_MAX_DEVIATION;
    } else {
      assert (t + 1) * RGB_MAX_DEVIATION <= q * RGB_MAX_DEVIATION;
    }
  }

  /** Bit-identical colours always match, whatever the tolerance. */
  lemma IdenticalColoursMatch(tolerance: int, rgb: int)
    ensures RgbsMatch(tolerance, rgb, rgb)
  {
  }

  /** With no positive tolerance, only bit-identical colours match. */
  lemma ZeroToleranceIsEquality(tolerance: int, expectedRgb: int, actualRgb: int)
    requires tolerance <= 0
    ensures RgbsMatch(tolerance, expectedRgb, actualRgb) <==> expectedRgb == actualRgb
  {
  }

  /** Matching does not depend on which image a colour comes from. */
  lemma MatchSymmetric(tolerance: int, x: int, y: int)
    ensures RgbsMatch(tolerance, x, y) <==> RgbsMatch(tolerance, y, x)
  {
  }

  /** Raising the tolerance never turns a match into a mismatch. */
  lemma MatchMonotone(t1: int, t2: int, x: int, y: int)
    requires t1 <= t2
    requires RgbsMatch(t1, x, y)
    ensures RgbsMatch(t2, x, y)
  {
  }

  lemma ShiftedChannels(a: int, k: int)
    ensures Red(a + k * 0x100_0000) == Red(a)
    ensures Green(a + k * 0x100_0000) == Green(a)
    ensures Blue(a + k * 0x100_0000) == Blue(a)
  {
    RedShift(a, k);
    GreenShift(a, k);
    BlueShift(a, k);
  }

  lemma RedShift(a: int, k: int)
    ensures Red(a + k * 0x100_0000) == Red(a)
  {
    ShiftedHigh(a, k);
    Mod256Shift(a / 0x1_0000, k);
  }

  lemma GreenShift(a: int, k: int)
    ensures Green(a + k * 0x100_0000) == Green(a)
  {
    ShiftedMiddle(a, k);
    Mod256Shift(a / 0x100, 0x100 * k);
  }

  lemma BlueShift(a: int, k: int)
    ensures Blue(a + k * 0x100_0000) == Blue(a)
  {
    Mod256Shift(a, 0x1_0000 * k);
  }

  lemma ShiftedHigh(a: int, k: int)
    ensures (a + k * 0x100_0000) / 0x1_0000 == a / 0x1_0000 + 256 * k
  {
    var q := a / 0x1_0000;
    var r := a % 0x1_0000;
    assert a + k * 0x100_0000 == (q + 256 * k) * 0x1_0000 + r;
  }

  lemma ShiftedMiddle(a: int, k: int)
    ensures (a + k * 0x100_0000) / 0x100 == a / 0x100 + 0x1_0000 * k
  {
    var q := a / 0x100;
    var r := a % 0x100;
    assert a + k * 0x100_0000 == (q + 0x1_0000 * k) * 0x100 + r;
  }

  lemma Mod256Shift(x: int, j: int)
    ensures (x + 256 * j) % 256 == x % 256
  {
  }

  /** With a positive tolerance the alpha byte is ignored: two colours that
      differ only above the low 24 bits match. */
  lemma AlphaIgnoredWithTolerance(tolerance: int, x: int, y: int)
    requires tolerance > 0
    requires x % 0x100_0000 == y % 0x100_0000
    ensures RgbsMatch(tolerance, x, y)
  {
    var k := (y - x) / 0x100_0000;
    assert y == x + k * 0x100_0000;
    ShiftedChannels(x, k);
  }

  // ---------------------------------------------------------------------
  // Images, canvas and bounds

  /** A raster as `BufferedImage.getRGB(x, y)` sees it: `rgb[y][x]` is the
      packed ARGB `int` of pixel (x, y). */
  datatype Image = Image(width: nat, height: nat, rgb: seq<seq<int>>) {
    /** `getRGB(x, y)`; 0 off the grid, where the comparison never reads. */
    function At(x: nat, y: nat): int {
      if y < |rgb| && x < |rgb[y]| then rgb[y][x] else 0
    }

    /** A `BufferedImage` has at least one pixel and a full grid. */
    predicate Valid() {
      && width >= 1 && height >= 1
      && |rgb| == height
      && (forall y :: 0 <= y < |rgb| ==> |rgb[y]| == width)
    }
  }

  datatype Size = Size(width: nat, height: nat)

  /** `calculateMaxImageSize`: the distance image is large enough for both
      images, and no larger. */
  function CanvasSize(expected: Image, actual: Image): (s: Size)
    ensures s.width >= expected.width && s.width >= actual.width
    ensures s.width == expected.width || s.width == actual.width
    ensures s.height >= expected.height && s.height >= actual.height
    ensures s.height == expected.height || s.height == actual.height
  {
    Size(if expected.width >= actual.width then expected.width else actual.width,
         if expected.height >= actual.height then expected.height else actual.height)
  }

  /** `isPixelInImageBounds`: only the upper bounds are tested; callers only
      pass non-negative coordinates. */
  predicate InBounds(image: Image, x: nat, y: nat) {
    image.width > x && image.height > y
  }

  /** Every pixel of either image lies on the canvas. */
  lemma CanvasCoversImages(expected: Image, actual: Image, x: nat, y: nat)
    requires InBounds(expected, x, y) || InBounds(actual, x, y)
    ensures x < CanvasSize(expected, actual).width && y < CanvasSize(expected, actual).height
  {
  }

  // ---------------------------------------------------------------------
  // Regions

  /** `java.awt.Rectangle` restricted to non-negative origin and extent. */
  datatype Rect = Rect(x: nat, y: nat, width: nat, height: nat)

  /** The rectangles compared: the annotated areas if area-colour mode is on,
      ignore-colour mode is off and the annotation reader returned a list
      (`annotations`, its result, is only consulted in that case);
      otherwise the single full-canvas rectangle. */
  function SelectRegions(useIgnoreColor: bool, useAreaColor: bool, annotations: Option<seq<Rect>>, canvas: Size)
    : (rs: seq<Rect>)
    ensures useAreaColor && !useIgnoreColor && annotations.Some? ==> rs == annotations.value
    ensures !(useAreaColor && !useIgnoreColor && annotations.Some?) ==>
              rs == [Rect(0, 0, canvas.width, canvas.height)]
  {
    var marked := if !useIgnoreColor && useAreaColor then annotations else None;
    if marked.None? then [Rect(0, 0, canvas.width, canvas.height)] else marked.value
  }

  /** Every cell of the regions lies on the canvas, so the distance image
      can be painted there. */
  predicate InsideCanvas(rs: seq<Rect>, canvas: Size) {
    forall k :: 0 <= k < |rs| ==> rs[k].x + rs[k].width <= canvas.width && rs[k].y + rs[k].height <= canvas.height
  }

  /** Only annotated areas can reach past the canvas: the selected regions
      stay on it iff the annotations are unused or stay on it themselves. */
  lemma OnlyAnnotationsLeaveCanvas(useIgnoreColor: bool, useAreaColor: bool, annotations: Option<seq<Rect>>, canvas: Size)
    ensures InsideCanvas(SelectRegions(useIgnoreColor, useAreaColor, annotations, canvas), canvas)
            <==> !(useAreaColor && !useIgnoreColor && annotations.Some?) || InsideCanvas(annotations.value, canvas)
  {
  }

  /** The annotations matter only in area-colour mode with the ignore
      colour off; otherwise the one region is the whole canvas, whose area
      is the canvas's width times height. */
  lemma SelectRegionsTotal(useIgnoreColor: bool, useAreaColor: bool, annotations: Option<seq<Rect>>, canvas: Size)
    ensures var rs := SelectRegions(useIgnoreColor, useAreaColor, annotations, canvas);
            !(useAreaColor && !useIgnoreColor) ==> rs == SelectRegions(useIgnoreColor, useAreaColor, None, canvas)
    ensures var rs := SelectRegions(useIgnoreColor, useAreaColor, annotations, canvas);
            TotalPixels(rs) == if useAreaColor && !useIgnoreColor && annotations.Some? then TotalPixels(annotations.value)
                               else canvas.width * canvas.height
  {
    var rs := SelectRegions(useIgnoreColor, useAreaColor, annotations, canvas);
    if !(useAreaColor && !useIgnoreColor && annotations.Some?) {
      assert rs[..0] == [];
      AreaIsProduct(canvas.height, canvas.width);
    }
  }

  /** `height * width`, as repeated addition of rows. */
  function Area(rows: nat, width: nat): nat {
    if rows == 0 then 0 else Area(rows - 1, width) + width
  }

  lemma MulSucc(a: nat, b: nat)
    ensures a * b + b == (a + 1) * b
  {
  }

  lemma {:induction false} AreaIsProduct(rows: nat, width: nat)
    ensures Area(rows, width) == rows * width
  {
    if rows > 0 {
      AreaIsProduct(rows - 1, width);
      MulSucc(rows - 1, width);
    }
  }

  /** `totalPixels`: the sum of `width * height` over the regions. */
  function TotalPixels(rs: seq<Rect>): nat
  {
    if |rs| == 0 then 0 else TotalPixels(rs[..|rs| - 1]) + Area(rs[|rs| - 1].height, rs[|rs| - 1].width)
  }

  // ---------------------------------------------------------------------
  // Per-cell classification and counting

  /** One comparison: both images, `RGB_DEVIATION_PERCENT` and the
      ignore-colour switch. */
  datatype Comparison = Comparison(expected: Image, actual: Image, tolerance: int, useIgnoreColor: bool) {
    predicate Valid() {
      expected.Valid() && actual.Valid()
    }

    /** The sentinel colour: the expected image's pixel (0, 0). */
    function IgnoreColor(): int {
      expected.At(0, 0)
    }
  }

  /** What a visited canvas cell contributes. */
  datatype Cell = Error | Match | Ignored | Outside

  /** The classification of cell (x, y), in the order the loop body tests:
      the bounds of both images, then the sentinel, then the colours. */
  function CellKind(c: Comparison, x: nat, y: nat): Cell
  {
    if InBounds(c.expected, x, y) && InBounds(c.actual, x, y) then
      var expectedRgb := c.expected.At(x, y);
      var actualRgb := c.actual.At(x, y);
      if c.useIgnoreColor && expectedRgb == c.IgnoreColor() then Ignored
      else if RgbsMatch(c.tolerance, expectedRgb, actualRgb) then Match
      else Error
    else Outside
  }

  /** What each classification means: outside one of the images a cell is
      neither compared nor counted; in ignore-colour mode a reference pixel
      equal to the sentinel is ignored and never compared; every other cell
      is an error exactly when its colours do not match. */
  lemma CellKindMeaning(c: Comparison, x: nat, y: nat)
    ensures CellKind(c, x, y) == Outside <==> !(InBounds(c.expected, x, y) && InBounds(c.actual, x, y))
    ensures CellKind(c, x, y) == Ignored <==>
              InBounds(c.expected, x, y) && InBounds(c.actual, x, y)
              && c.useIgnoreColor && c.expected.At(x, y) == c.IgnoreColor()
    ensures CellKind(c, x, y) == Error <==>
              InBounds(c.expected, x, y) && InBounds(c.actual, x, y)
              && !(c.useIgnoreColor && c.expected.At(x, y) == c.IgnoreColor())
              && !RgbsMatch(c.tolerance, c.expected.At(x, y), c.actual.At(x, y))
  {
  }

  /** The two counters of `generateDistanceImage`. */
  datatype Counts = Counts(errors: nat, ignored: nat)

  function Plus(a: Counts, b: Counts): Counts {
    Counts(a.errors + b.errors, a.ignored + b.ignored)
  }

  /** What one cell adds to the counters: at most one of them grows. */
  function CellCounts(c: Comparison, x: nat, y: nat): (n: Counts)
    ensures n.errors + n.ignored <= 1
    ensures n.errors == 1 <==> CellKind(c, x, y) == Error
    ensures n.ignored == 1 <==> CellKind(c, x, y) == Ignored
  {
    match CellKind(c, x, y)
    case Error => Counts(1, 0)
    case Ignored => Counts(0, 1)
    case _ => Counts(0, 0)
  }

  /** Counters over the `n` cells (x0, y) .. (x0 + n - 1, y), in loop order. */
  function RowCounts(c: Comparison, x0: nat, y: nat, n: nat): Counts
  {
    if n == 0 then Counts(0, 0) else Plus(RowCounts(c, x0, y, n - 1), CellCounts(c, x0 + n - 1, y))
  }

  /** Counters over the first `rows` rows of a rectangle. */
  function RectCounts(c: Comparison, r: Rect, rows: nat): Counts
  {
    if rows == 0 then Counts(0, 0) else Plus(RectCounts(c, r, rows - 1), RowCounts(c, r.x, r.y + rows - 1, r.width))
  }

  /** Counters over all regions; a cell covered by two regions counts twice,
      as in the source. */
  function RegionCounts(c: Comparison, rs: seq<Rect>): Counts
  {
    if |rs| == 0 then Counts(0, 0)
    else Plus(RegionCounts(c, rs[..|rs| - 1]), RectCounts(c, rs[|rs| - 1], rs[|rs| - 1].height))
  }

  /** The body of the innermost counting loop: one cell (x, y). The sentinel
      test is made twice, as in the source; an ignored pixel is never
      compared. */
  method CountCell(c: Comparison, ignoreColor: int, x: nat, y: nat, errors: nat, ignored: nat)
    returns (errors': nat, ignored': nat)
    requires c.Valid() && ignoreColor == c.IgnoreColor()
    ensures Counts(errors', ignored') == Plus(Counts(errors, ignored), CellCounts(c, x, y))
  {
    errors', ignored' := errors, ignored;
    var insideExpected := InBounds(c.expected, x, y);
    var insideActual := InBounds(c.actual, x, y);
    if insideExpected && insideActual {
      var expectedRgb := c.expected.rgb[y][x];
      var actualRgb := c.actual.rgb[y][x];
      var ignoredPixel := c.useIgnoreColor && expectedRgb == ignoreColor;
      if !ignoredPixel {
        var matches := RgbsMatch(c.tolerance, expectedRgb, actualRgb);
        if !matches {
          errors' := errors' + 1;
        }
      }
      if c.useIgnoreColor && expectedRgb == ignoreColor {
        ignored' := ignored' + 1;
      }
    }
  }

  /** One row of a rectangle, cells left to right. */
  method CountRow(c: Comparison, ignoreColor: int, r: Rect, y: nat, errors: nat, ignored: nat)
    returns (errors': nat, ignored': nat)
    requires c.Valid() && ignoreColor == c.IgnoreColor()
    ensures Counts(errors', ignored') == Plus(Counts(errors, ignored), RowCounts(c, r.x, y, r.width))
  {
    errors', ignored' := errors, ignored;
    var dx: nat := 0;
    while dx < r.width
      invariant dx <= r.width
      invariant Counts(errors', ignored') == Plus(Counts(errors, ignored), RowCounts(c, r.x, y, dx))
    {
      errors', ignored' := CountCell(c, ignoreColor, r.x + dx, y, errors', ignored');
      dx := dx + 1;
    }
  }

  /** One rectangle, rows top to bottom. */
  method CountRect(c: Comparison, ignoreColor: int, r: Rect, errors: nat, ignored: nat)
    returns (errors': nat, ignored': nat)
    requires c.Valid() && ignoreColor == c.IgnoreColor()
    ensures Counts(errors', ignored') == Plus(Counts(errors, ignored), RectCounts(c, r, r.height))
  {
    errors', ignored' := errors, ignored;
    var dy: nat := 0;
    while dy < r.height
      invariant dy <= r.height
      invariant Counts(errors', ignored') == Plus(Counts(errors, ignored), RectCounts(c, r, dy))
    {
      errors', ignored' := CountRow(c, ignoreColor, r, r.y + dy, errors', ignored');
      dy := dy + 1;
    }
  }

  /** The counting loops of `generateDistanceImage`: regions in order, rows
      top to bottom, cells left to right. */
  method CountPixels(c: Comparison, rs: seq<Rect>) returns (pixelsInError: nat, noOfIgnoredPixels: nat)
    requires c.Valid()
    ensures Counts(pixelsInError, noOfIgnoredPixels) == RegionCounts(c, rs)
    ensures pixelsInError + noOfIgnoredPixels <= TotalPixels(rs)
  {
    pixelsInError, noOfIgnoredPixels := 0, 0;
    var ignoreColor := c.expected.rgb[0][0];
    var i := 0;
    while i < |rs|
      invariant 0 <= i <= |rs|
      invariant Counts(pixelsInError, noOfIgnoredPixels) == RegionCounts(c, rs[..i])
    {
      pixelsInError, noOfIgnoredPixels := CountRect(c, ignoreColor, rs[i], pixelsInError, noOfIgnoredPixels);
      assert rs[..i + 1][..i] == rs[..i];
      i := i + 1;
    }
    assert rs[..|rs|] == rs;
    RegionCountsBounded(c, rs);
  }

  // ---------------------------------------------------------------------
  // Properties of the counters

  lemma {:induction false} RowCountsBounded(c: Comparison, x0: nat, y: nat, n: nat)
    ensures RowCounts(c, x0, y, n).errors + RowCounts(c, x0, y, n).ignored <= n
  {
    if n > 0 {
      RowCountsBounded(c, x0, y, n - 1);
    }
  }

  lemma {:induction false} RectCountsBounded(c: Comparison, r: Rect, rows: nat)
    ensures RectCounts(c, r, rows).errors + RectCounts(c, r, rows).ignored <= Area(rows, r.width)
  {
    if rows > 0 {
      RectCountsBounded(c, r, rows - 1);
      var y := r.y + rows - 1;
      RowCountsBounded(c, r.x, y, r.width);
      var before, row := RectCounts(c, r, rows - 1), RowCounts(c, r.x, y, r.width);
      assert RectCounts(c, r, rows) == Plus(before, row);
      assert Area(rows, r.width) == Area(rows - 1, r.width) + r.width;
    }
  }

  /** Errors and ignored pixels together never exceed `totalPixels`. */
  lemma {:induction false} RegionCountsBounded(c: Comparison, rs: seq<Rect>)
    ensures RegionCounts(c, rs).errors + RegionCounts(c, rs).ignored <= TotalPixels(rs)
  {
    if |rs| > 0 {
      var last := rs[|rs| - 1];
      RegionCountsBounded(c, rs[..|rs| - 1]);
      RectCountsBounded(c, last, last.height);
    }
  }

  lemma {:induction false} RowNoErrors(c: Comparison, x0: nat, y: nat, n: nat)
    requires c.expected == c.actual
    ensures RowCounts(c, x0, y, n).errors == 0
  {
    if n > 0 {
      RowNoErrors(c, x0, y, n - 1);
      var x := x0 + n - 1;
      if InBounds(c.expected, x, y) {
        IdenticalColoursMatch(c.tolerance, c.expected.At(x, y));
      }
    }
  }

  lemma {:induction false} RectNoErrors(c: Comparison, r: Rect, rows: nat)
    requires c.expected == c.actual
    ensures RectCounts(c, r, rows).errors == 0
  {
    if rows > 0 {
      RectNoErrors(c, r, rows - 1);
      RowNoErrors(c, r.x, r.y + rows - 1, r.width);
    }
  }

  /** Comparing an image with itself finds no error in any region. */
  lemma {:induction false} IdenticalImagesNoErrors(c: Comparison, rs: seq<Rect>)
    requires c.expected == c.actual
    ensures RegionCounts(c, rs).errors == 0
  {
    if |rs| > 0 {
      IdenticalImagesNoErrors(c, rs[..|rs| - 1]);
      RectNoErrors(c, rs[|rs| - 1], rs[|rs| - 1].height);
    }
  }

  lemma {:induction false} RowMonotone(c1: Comparison, c2: Comparison, x0: nat, y: nat, n: nat)
    requires c2 == c1.(tolerance := c2.tolerance) && c1.tolerance <= c2.tolerance
    ensures RowCounts(c2, x0, y, n).errors <= RowCounts(c1, x0, y, n).errors
    ensures RowCounts(c2, x0, y, n).ignored == RowCounts(c1, x0, y, n).ignored
  {
    if n > 0 {
      RowMonotone(c1, c2, x0, y, n - 1);
      var x := x0 + n - 1;
      if CellKind(c1, x, y) == Match {
        MatchMonotone(c1.tolerance, c2.tolerance, c1.expected.At(x, y), c1.actual.At(x, y));
      }
    }
  }

  lemma {:induction false} RectMonotone(c1: Comparison, c2: Comparison, r: Rect, rows: nat)
    requires c2 == c1.(tolerance := c2.tolerance) && c1.tolerance <= c2.tolerance
    ensures RectCounts(c2, r, rows).errors <= RectCounts(c1, r, rows).errors
    ensures RectCounts(c2, r, rows).ignored == RectCounts(c1, r, rows).ignored
  {
    if rows > 0 {
      RectMonotone(c1, c2, r, rows - 1);
      RowMonotone(c1, c2, r.x, r.y + rows - 1, r.width);
    }
  }

  /** Raising `RGB_DEVIATION_PERCENT` never increases the error count and
      leaves the ignored count unchanged. */
  lemma {:induction false} ToleranceMonotone(c1: Comparison, c2: Comparison, rs: seq<Rect>)
    requires c2 == c1.(tolerance := c2.tolerance) && c1.tolerance <= c2.tolerance
    ensures RegionCounts(c2, rs).errors <= RegionCounts(c1, rs).errors
    ensures RegionCounts(c2, rs).ignored == RegionCounts(c1, rs).ignored
  {
    if |rs| > 0 {
      ToleranceMonotone(c1, c2, rs[..|rs| - 1]);
      RectMonotone(c1, c2, rs[|rs| - 1], rs[|rs| - 1].height);
    }
  }

  /** Every cell of rectangle `r` has classification `k`. */
  predicate RectAllOf(c: Comparison, r: Rect, k: Cell)
  {
    forall x: nat, y: nat :: r.x <= x < r.x + r.width && r.y <= y < r.y + r.height ==> CellKind(c, x, y) == k
  }

  /** The counters after `n` cells of classification `k`. */
  function UniformCounts(k: Cell, n: nat): Counts {
    match k
    case Error => Counts(n, 0)
    case Ignored => Counts(0, n)
    case _ => Counts(0, 0)
  }

  lemma UniformPlus(k: Cell, a: nat, b: nat)
    ensures Plus(UniformCounts(k, a), UniformCounts(k, b)) == UniformCounts(k, a + b)
  {
  }

  /** The first `n` cells of row `y` from `x0` on all have classification `k`. */
  predicate RowUniform(c: Comparison, x0: nat, y: nat, n: nat, k: Cell) {
    n == 0 || (RowUniform(c, x0, y, n - 1, k) && CellKind(c, x0 + n - 1, y) == k)
  }

  /** The first `rows` rows of `r` are uniform. */
  predicate RectUniform(c: Comparison, r: Rect, rows: nat, k: Cell) {
    rows == 0 || (RectUniform(c, r, rows - 1, k) && RowUniform(c, r.x, r.y + rows - 1, r.width, k))
  }

  lemma {:induction false} RowFromPointwise(c: Comparison, r: Rect, k: Cell, y: nat, n: nat)
    requires RectAllOf(c, r, k) && r.y <= y < r.y + r.height && n <= r.width
    ensures RowUniform(c, r.x, y, n, k)
  {
    if n > 0 {
      RowFromPointwise(c, r, k, y, n - 1);
    }
  }

  lemma {:induction false} RectFromPointwise(c: Comparison, r: Rect, k: Cell, rows: nat)
    requires RectAllOf(c, r, k) && rows <= r.height
    ensures RectUniform(c, r, rows, k)
  {
    if rows > 0 {
      RectFromPointwise(c, r, k, rows - 1);
      RowFromPointwise(c, r, k, r.y + rows - 1, r.width);
    }
  }

  lemma {:induction false} RowAllOf(c: Comparison, x0: nat, y: nat, k: Cell, n: nat)
    requires RowUniform(c, x0, y, n, k)
    ensures RowCounts(c, x0, y, n) == UniformCounts(k, n)
  {
    if n > 0 {
      RowAllOf(c, x0, y, k, n - 1);
      RowStep(c, x0, y, k, n);
    }
  }

  /** One more cell of kind `k` extends a row of `n - 1` such cells. */
  lemma RowStep(c: Comparison, x0: nat, y: nat, k: Cell, n: nat)
    requires n > 0 && RowCounts(c, x0, y, n - 1) == UniformCounts(k, n - 1) && CellKind(c, x0 + n - 1, y) == k
    ensures RowCounts(c, x0, y, n) == UniformCounts(k, n)
  {
    CellUniform(c, x0 + n - 1, y, k);
    UniformPlus(k, n - 1, 1);
  }

  /** A cell of kind `k` counts as one cell of that kind. */
  lemma CellUniform(c: Comparison, x: nat, y: nat, k: Cell)
    requires CellKind(c, x, y) == k
    ensures CellCounts(c, x, y) == UniformCounts(k, 1)
  {
  }

  lemma {:induction false} RectAllOfCount(c: Comparison, r: Rect, k: Cell, rows: nat)
    requires RectUniform(c, r, rows, k)
    ensures RectCounts(c, r, rows) == UniformCounts(k, Area(rows, r.width))
  {
    if rows > 0 {
      RectAllOfCount(c, r, k, rows - 1);
      RowAllOf(c, r.x, r.y + rows - 1, k, r.width);
      UniformPlus(k, Area(rows - 1, r.width), r.width);
    }
  }

  /** Every rectangle of `rs` is uniform. */
  predicate RegionsUniform(c: Comparison, rs: seq<Rect>, k: Cell) {
    |rs| == 0 || (RegionsUniform(c, rs[..|rs| - 1], k) && RectUniform(c, rs[|rs| - 1], rs[|rs| - 1].height, k))
  }

  lemma {:induction false} RegionsFromPointwise(c: Comparison, rs: seq<Rect>, k: Cell)
    requires forall i :: 0 <= i < |rs| ==> RectAllOf(c, rs[i], k)
    ensures RegionsUniform(c, rs, k)
  {
    if |rs| > 0 {
      RegionsFromPointwise(c, rs[..|rs| - 1], k);
      RectFromPointwise(c, rs[|rs| - 1], k, rs[|rs| - 1].height);
    }
  }

  /** When every visited cell has the same classification, the matching
      counter equals `totalPixels` and the other stays zero. */
  lemma {:induction false} AllOfCount(c: Comparison, rs: seq<Rect>, k: Cell)
    requires RegionsUniform(c, rs, k)
    ensures RegionCounts(c, rs) == UniformCounts(k, TotalPixels(rs))
  {
    if |rs| > 0 {
      var last := rs[|rs| - 1];
      AllOfCount(c, rs[..|rs| - 1], k);
      RectAllOfCount(c, last, k, last.height);
      UniformPlus(k, TotalPixels(rs[..|rs| - 1]), Area(last.height, last.width));
    }
  }

  /** A reference image of one colour compared in ignore-colour mode with an
      image of the same size: the regions are the full canvas whatever the
      area settings, and every pixel of it is ignored. */
  lemma UniformReferenceAllIgnored(c: Comparison, useAreaColor: bool, annotations: Option<seq<Rect>>)
    requires c.Valid() && c.useIgnoreColor
    requires c.expected.width == c.actual.width && c.expected.height == c.actual.height
    requires forall y, x :: 0 <= y < c.expected.height && 0 <= x < c.expected.width ==> c.expected.At(x, y) == c.IgnoreColor()
    ensures var rs := SelectRegions(c.useIgnoreColor, useAreaColor, annotations, CanvasSize(c.expected, c.actual));
            && TotalPixels(rs) == c.expected.height * c.expected.width
            && RegionCounts(c, rs) == Counts(0, TotalPixels(rs))
  {
    var rs := SelectRegions(c.useIgnoreColor, useAreaColor, annotations, CanvasSize(c.expected, c.actual));
    assert RectAllOf(c, rs[0], Ignored);
    RegionsFromPointwise(c, rs, Ignored);
    AllOfCount(c, rs, Ignored);
    assert rs[..0] == [];
    AreaIsProduct(c.expected.height, c.expected.width);
  }

  // ---------------------------------------------------------------------
  // The deviation percentage

  /** A percentage as an exact fraction `num / den`, or the `NaN` a `double`
      division 0.0 / 0 produces. */
  datatype Distance = Ratio(num: nat, den: nat) | NaN

  /** `NO_DISTANCE`, the distance of a step that compared nothing. */
  const NO_DISTANCE: Distance := Ratio(0, 1)

  /** The source's `(double) pixelsInError / (totalPixels - noOfIgnoredPixels) * 100`
      without a guard: when every counted pixel is ignored (or no region is
      compared) the result is `NaN`. */
  function DistanceAsWritten(errors: nat, ignored: nat, total: nat): (d: Distance)
    requires errors + ignored <= total
    ensures d.NaN? <==> ignored == total
    ensures d.Ratio? ==> d.den == total - ignored && d.num == 100 * errors
  {
    if total - ignored == 0 then NaN else Ratio(100 * errors, total - ignored)
  }

  /** The corrected deviation: the same quotient, except that a comparison
      in which no pixel was compared has distance 0 instead of `NaN`. */
  function GuardedDistance(errors: nat, ignored: nat, total: nat): (d: Distance)
    requires errors + ignored <= total
    ensures d.Ratio? && d.den > 0
    ensures d.num <= 100 * d.den
    ensures errors == 0 <==> d.num == 0
    ensures ignored < total ==> d.num * (total - ignored) == 100 * errors * d.den
    ensures errors == total - ignored && ignored < total ==> d.num == 100 * d.den
  {
    if total - ignored == 0 then Ratio(0, 1) else Ratio(100 * errors, total - ignored)
  }

  /** Wherever the source's result is a number, the guarded distance is the
      same number. */
  lemma DistanceAgreesWhenDefined(errors: nat, ignored: nat, total: nat)
    requires errors + ignored <= total
    requires !DistanceAsWritten(errors, ignored, total).NaN?
    ensures DistanceAsWritten(errors, ignored, total) == GuardedDistance(errors, ignored, total)
  {
  }

  /** The pixel comparison as a whole, as the source computes it: regions,
      counts, total and the unguarded quotient. It is `NaN` exactly when
      every compared pixel was ignored or no pixel was compared; otherwise
      it is the percentage of errors among the pixels not ignored. */
  function PixelDistance(c: Comparison, useAreaColor: bool, annotations: Option<seq<Rect>>): (d: Distance)
    requires c.Valid()
    ensures var rs := SelectRegions(c.useIgnoreColor, useAreaColor, annotations, CanvasSize(c.expected, c.actual));
            var n := RegionCounts(c, rs);
            && (d.NaN? <==> n.ignored == TotalPixels(rs))
            && (d.Ratio? ==> d.num == 100 * n.errors && d.den == TotalPixels(rs) - n.ignored && 0 < d.den
                             && d.num <= 100 * d.den)
  {
    var rs := SelectRegions(c.useIgnoreColor, useAreaColor, annotations, CanvasSize(c.expected, c.actual));
    var n := RegionCounts(c, rs);
    RegionCountsBounded(c, rs);
    DistanceAsWritten(n.errors, n.ignored, TotalPixels(rs))
  }

  /** The corrected pixel comparison: the same, with the guarded quotient. */
  function PixelDistanceCorrected(c: Comparison, useAreaColor: bool, annotations: Option<seq<Rect>>): (d: Distance)
    requires c.Valid()
    ensures d.Ratio? && d.den > 0 && d.num <= 100 * d.den
  {
    var rs := SelectRegions(c.useIgnoreColor, useAreaColor, annotations, CanvasSize(c.expected, c.actual));
    var n := RegionCounts(c, rs);
    RegionCountsBounded(c, rs);
    GuardedDistance(n.errors, n.ignored, TotalPixels(rs))
  }

  /** The corrected comparison changes nothing where the source gives a
      number, and gives 0 where it gives `NaN`. */
  lemma CorrectedAgreesWhenDefined(c: Comparison, useAreaColor: bool, annotations: Option<seq<Rect>>)
    requires c.Valid()
    ensures PixelDistance(c, useAreaColor, annotations).Ratio? ==>
              PixelDistanceCorrected(c, useAreaColor, annotations) == PixelDistance(c, useAreaColor, annotations)
    ensures PixelDistance(c, useAreaColor, annotations).NaN? ==>
              PixelDistanceCorrected(c, useAreaColor, annotations) == NO_DISTANCE
  {
    var rs := SelectRegions(c.useIgnoreColor, useAreaColor, annotations, CanvasSize(c.expected, c.actual));
    RegionCountsBounded(c, rs);
  }

  /** `generateDistanceImage` without the painting: select the regions, run
      the counting loops, sum the region areas, divide. The loops count
      what the recursive region counts define, so the result is the
      unguarded quotient of those counts. */
  method GenerateDistance(c: Comparison, useAreaColor: bool, annotations: Option<seq<Rect>>)
    returns (d: Distance)
    requires c.Valid()
    ensures var rs := SelectRegions(c.useIgnoreColor, useAreaColor, annotations, CanvasSize(c.expected, c.actual));
            var n := RegionCounts(c, rs);
            n.errors + n.ignored <= TotalPixels(rs) && d == DistanceAsWritten(n.errors, n.ignored, TotalPixels(rs))
    ensures d == PixelDistance(c, useAreaColor, annotations)
    ensures d.Ratio? ==> d.den > 0 && d.num <= 100 * d.den
    ensures c.expected == c.actual && d.Ratio? ==> d.num == 0
  {
    var canvas := CanvasSize(c.expected, c.actual);
    var rs := SelectRegions(c.useIgnoreColor, useAreaColor, annotations, canvas);
    var errors, ignored := CountPixels(c, rs);
    var total := 0;
    var i := 0;
    while i < |rs|
      invariant 0 <= i <= |rs|
      invariant total == TotalPixels(rs[..i])
    {
      assert rs[..i + 1][..i] == rs[..i];
      AreaIsProduct(rs[i].height, rs[i].width);
      assert TotalPixels(rs[..i + 1]) == TotalPixels(rs[..i]) + Area(rs[i].height, rs[i].width);
      total := total + rs[i].height * rs[i].width;
      i := i + 1;
    }
    assert rs[..|rs|] == rs;
    RegionCountsBounded(c, rs);
    d := DistanceAsWritten(errors, ignored, total);
    if c.expected == c.actual {
      IdenticalImagesNoErrors(c, rs);
    }
  }

  // ---------------------------------------------------------------------
  // Fully differing images, and the inputs that give NaN

  /** Rectangle `r` lies within a `width` x `height` image. */
  predicate Inside(r: Rect, width: nat, height: nat) {
    r.x + r.width <= width && r.y + r.height <= height
  }

  /** Two images of the same size that differ in every pixel, compared with
      no tolerance and no ignore colour (a 10x10 black against a 10x10
      white image, say): every pixel of every compared region is an error,
      so the distance is 100% (100 errors of 100, or 25 of 25 for one 5x5
      annotated area). */
  lemma DisjointImagesFullDistance(c: Comparison, useAreaColor: bool, annotations: Option<seq<Rect>>)
    requires c.Valid() && !c.useIgnoreColor && c.tolerance <= 0
    requires c.expected.width == c.actual.width && c.expected.height == c.actual.height
    requires forall y, x :: 0 <= y < c.expected.height && 0 <= x < c.expected.width ==> c.expected.At(x, y) != c.actual.At(x, y)
    requires annotations.Some? ==> forall i :: 0 <= i < |annotations.value| ==> Inside(annotations.value[i], c.expected.width, c.expected.height)
    ensures var rs := SelectRegions(c.useIgnoreColor, useAreaColor, annotations, CanvasSize(c.expected, c.actual));
            && RegionCounts(c, rs) == Counts(TotalPixels(rs), 0)
            && (TotalPixels(rs) > 0 ==> PixelDistance(c, useAreaColor, annotations) == Ratio(100 * TotalPixels(rs), TotalPixels(rs)))
  {
    var rs := SelectRegions(c.useIgnoreColor, useAreaColor, annotations, CanvasSize(c.expected, c.actual));
    forall i | 0 <= i < |rs|
      ensures RectAllOf(c, rs[i], Error)
    {
      assert Inside(rs[i], c.expected.width, c.expected.height);
    }
    RegionsFromPointwise(c, rs, Error);
    AllOfCount(c, rs, Error);
  }

  /** The input that exposes the missing guard: a reference of one colour
      compared in ignore-colour mode with an image of the same size. Every
      pixel is ignored, so the unguarded division is 0.0 / 0, a `NaN`,
      which `BigDecimal` then rejects; the guarded distance is 0. */
  lemma UniformReferenceIsNaN(c: Comparison, useAreaColor: bool, annotations: Option<seq<Rect>>)
    requires c.Valid() && c.useIgnoreColor
    requires c.expected.width == c.actual.width && c.expected.height == c.actual.height
    requires forall y, x :: 0 <= y < c.expected.height && 0 <= x < c.expected.width ==> c.expected.At(x, y) == c.IgnoreColor()
    ensures var rs := SelectRegions(c.useIgnoreColor, useAreaColor, annotations, CanvasSize(c.expected, c.actual));
            var n := RegionCounts(c, rs);
            n.errors + n.ignored <= TotalPixels(rs)
            && DistanceAsWritten(n.errors, n.ignored, TotalPixels(rs)) == NaN
            && GuardedDistance(n.errors, n.ignored, TotalPixels(rs)) == Ratio(0, 1)
    ensures PixelDistance(c, useAreaColor, annotations) == NaN
    ensures PixelDistanceCorrected(c, useAreaColor, annotations) == NO_DISTANCE
  {
    UniformReferenceAllIgnored(c, useAreaColor, annotations);
  }

  /** The second input that exposes the missing guard: in area-colour mode
      (ignore colour off) an annotation reader that finds a list with no
      areas leaves nothing to compare, so the quotient is 0.0 / 0. */
  lemma NoAnnotatedAreaIsNaN(c: Comparison, annotations: Option<seq<Rect>>)
    requires c.Valid() && !c.useIgnoreColor && annotations == Some([])
    ensures PixelDistance(c, true, annotations) == NaN
    ensures PixelDistanceCorrected(c, true, annotations) == NO_DISTANCE
  {
    var rs := SelectRegions(c.useIgnoreColor, true, annotations, CanvasSize(c.expected, c.actual));
    assert rs == [];
    RegionCountsBounded(c, rs);
  }

  // ---------------------------------------------------------------------
  // Run counter and match steps

  /** The suffix-free name of the `k`-th preparation of a target: the bare
      name the first time, the name followed by `k` afterwards. */
  function RunName(name: string, k: nat): string {
    if k == 1 then name else name + NatToString(k)
  }

  /** Consecutive preparations of one target get pairwise different names. */
  lemma RunNamesDistinct(name: string, j: nat, k: nat)
    requires 1 <= j && 1 <= k && j != k
    ensures RunName(name, j) != RunName(name, k)
  {
    if j != 1 && k != 1 {
      var sj := NatToString(j);
      var sk := NatToString(k);
      assert sj != sk by {
        assert DigitsToNat(sj) == j && DigitsToNat(sk) == k;
      }
      assert (name + sj)[|name|..] == sj;
      assert (name + sk)[|name|..] == sk;
    }
  }

  /** The part of a `MatchStep` that `prepare` decides: the updated run
      counter, and the consecutive name (`null` in take-reference mode). */
  datatype Preparation = Preparation(runCount: map<string, nat>, consecutiveName: Option<string>)

  /** The run counter only ever holds positive counts. */
  predicate CountsPositive(runCount: map<string, nat>) {
    forall name :: name in runCount ==> runCount[name] >= 1
  }

  /** `prepare`: bump the target's run counter (also in take-reference-only
      mode) and, unless only a reference is taken, name the step after the
      target plus the new count from the second run on. */
  function Prepare(runCount: map<string, nat>, name: string, takeReferenceOnly: bool): (p: Preparation)
    requires CountsPositive(runCount)
    ensures CountsPositive(p.runCount)
    ensures name in p.runCount && p.runCount.Keys == runCount.Keys + {name}
    ensures p.runCount[name] == (if name in runCount then runCount[name] + 1 else 1)
    ensures forall other :: other in runCount && other != name ==> p.runCount[other] == runCount[other]
    ensures takeReferenceOnly <==> p.consecutiveName.None?
    ensures p.consecutiveName.Some? ==> p.consecutiveName.value == RunName(name, p.runCount[name])
  {
    var count := if name in runCount then runCount[name] + 1 else 1;
    var modifier := if name in runCount then NatToString(count) else "";
    Preparation(runCount[name := count], if takeReferenceOnly then None else Some(name + modifier))
  }

  /** Prepare the same target once per entry of `takeReferenceOnly`. */
  function PrepareAll(runCount: map<string, nat>, name: string, takeReferenceOnly: seq<bool>): (p: Preparation)
    requires CountsPositive(runCount) && |takeReferenceOnly| > 0
    ensures CountsPositive(p.runCount)
  {
    if |takeReferenceOnly| == 1 then Prepare(runCount, name, takeReferenceOnly[0])
    else
      var before := PrepareAll(runCount, name, takeReferenceOnly[..|takeReferenceOnly| - 1]);
      Prepare(before.runCount, name, takeReferenceOnly[|takeReferenceOnly| - 1])
  }

  /** Starting from an unseen target, the k-th preparation has counted k
      runs (reference-only runs included) and, unless it is itself
      reference-only, is named `RunName(name, k)`. */
  lemma {:induction false} KthPreparation(runCount: map<string, nat>, name: string, takeReferenceOnly: seq<bool>)
    requires CountsPositive(runCount) && name !in runCount && |takeReferenceOnly| > 0
    ensures var p := PrepareAll(runCount, name, takeReferenceOnly);
            && p.runCount[name] == |takeReferenceOnly|
            && (takeReferenceOnly[|takeReferenceOnly| - 1] <==> p.consecutiveName.None?)
            && (p.consecutiveName.Some? ==> p.consecutiveName.value == RunName(name, |takeReferenceOnly|))
  {
    if |takeReferenceOnly| > 1 {
      KthPreparation(runCount, name, takeReferenceOnly[..|takeReferenceOnly| - 1]);
    }
  }

  datatype Mode = PIXEL | ANNOTATED

  /** The observable result of `matchPixels(screenshot, name)`. */
  datatype MatchStep = MatchStep(mode: Mode, takeReferenceOnly: bool, consecutiveName: Option<string>, distance: Distance)

  /** `matchPixels`: prepare the step, then compare unless only a
      reference is taken; a reference-only step keeps `NO_DISTANCE`. */
  function MatchPixels(runCount: map<string, nat>, name: string, takeReferenceOnly: bool,
                       c: Comparison, useAreaColor: bool, annotations: Option<seq<Rect>>)
    : (r: (MatchStep, map<string, nat>))
    requires c.Valid() && CountsPositive(runCount)
    ensures r.1 == Prepare(runCount, name, takeReferenceOnly).runCount
    ensures r.0.mode == PIXEL && r.0.takeReferenceOnly == takeReferenceOnly
    ensures takeReferenceOnly ==> r.0.distance == NO_DISTANCE
    ensures r.0.consecutiveName == Prepare(runCount, name, takeReferenceOnly).consecutiveName
    ensures !takeReferenceOnly ==> r.0.distance == PixelDistance(c, useAreaColor, annotations)
    ensures r.0.distance.Ratio? ==> r.0.distance.den > 0 && r.0.distance.num <= 100 * r.0.distance.den
  {
    var p := Prepare(runCount, name, takeReferenceOnly);
    var d := if takeReferenceOnly then NO_DISTANCE else PixelDistance(c, useAreaColor, annotations);
    (MatchStep(PIXEL, takeReferenceOnly, p.consecutiveName, d), p.runCount)
  }
}
