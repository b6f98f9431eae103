/** Drawing a bitmap subtitle frame, cropped, padded and doubled in size, as a greyscale image. */
module Raster {
  import opened Wrappers

  const OCR_SCALE := 2
  const OCR_PADDING := 16
  const MIN_VISIBLE_ALPHA := 8
  const U32_MAX := 0xFFFF_FFFF

  /** A rectangle of RGBA pixels, four bytes each, placed at (`x`, `y`) on the video. */
  datatype Composition = Composition(x: nat, y: nat, width: nat, rgba: seq<nat>) {
    /** Coordinates are 16 bits and samples are bytes; a positive width is what dividing by it demands. */
    predicate Valid() {
      x < 0x1_0000 && y < 0x1_0000 && 0 < width < 0x1_0000 && forall k | 0 <= k < |rgba| :: rgba[k] < 0x100
    }

    function Count(): nat {
      |rgba| / 4
    }

    function Alpha(k: nat): nat
      requires k < Count()
    {
      rgba[4 * k + 3]
    }
  }

  /** A visible pixel by its place on the video, and how dark it makes the paper. */
  datatype Pixel = Pixel(x: nat, y: nat, shade: int)

  predicate Valid(frame: seq<Composition>) {
    forall i | 0 <= i < |frame| :: frame[i].Valid()
  }

  function PixelAt(c: Composition, k: nat): Pixel
    requires c.Valid() && k < c.Count()
  {
    Pixel(c.x + k % c.width, c.y + k / c.width, 255 - c.Alpha(k))
  }

  /** The visible ones among the first `k` pixels of a composition. */
  function VisibleUpTo(c: Composition, k: nat): seq<Pixel>
    requires c.Valid() && k <= c.Count()
  {
    if k == 0 then []
    else VisibleUpTo(c, k - 1) + (if c.Alpha(k - 1) <= MIN_VISIBLE_ALPHA then [] else [PixelAt(c, k - 1)])
  }

  /** The visible pixels of the first `i` compositions, in drawing order. */
  function Visible(frame: seq<Composition>, i: nat): seq<Pixel>
    requires Valid(frame) && i <= |frame|
  {
    if i == 0 then [] else Visible(frame, i - 1) + VisibleUpTo(frame[i - 1], frame[i - 1].Count())
  }

  // ---- The crop box ----

  datatype Box = Box(minX: nat, minY: nat, maxX: nat, maxY: nat)

  const EMPTY_BOX := Box(U32_MAX, U32_MAX, 0, 0)

  function Min(a: int, b: int): int {
    if a <= b then a else b
  }

  function Max(a: int, b: int): int {
    if a >= b then a else b
  }

  /** Rows saturate at the largest 32-bit value. */
  function Grow(box: Box, p: Pixel): Box {
    var x, y := Min(p.x, U32_MAX), Min(p.y, U32_MAX);
    Box(Min(box.minX, x), Min(box.minY, y), Max(box.maxX, x), Max(box.maxY, y))
  }

  function Bounds(pixels: seq<Pixel>): Box {
    if pixels == [] then EMPTY_BOX else Grow(Bounds(pixels[..|pixels| - 1]), pixels[|pixels| - 1])
  }

  predicate Inside(box: Box, p: Pixel) {
    box.minX <= p.x <= box.maxX && box.minY <= p.y <= box.maxY
  }

  /** Every coordinate fits in 32 bits. */
  predicate InRange(pixels: seq<Pixel>) {
    forall i | 0 <= i < |pixels| :: pixels[i].x <= U32_MAX && pixels[i].y <= U32_MAX
  }

  predicate Touches(box: Box, pixels: seq<Pixel>) {
    && (exists i | 0 <= i < |pixels| :: pixels[i].x == box.minX)
    && (exists i | 0 <= i < |pixels| :: pixels[i].y == box.minY)
    && (exists i | 0 <= i < |pixels| :: pixels[i].x == box.maxX)
    && (exists i | 0 <= i < |pixels| :: pixels[i].y == box.maxY)
  }

  lemma {:induction false} BoundsHold(pixels: seq<Pixel>)
    ensures forall i | 0 <= i < |pixels| && pixels[i].x <= U32_MAX && pixels[i].y <= U32_MAX ::
              Inside(Bounds(pixels), pixels[i])
    ensures pixels != [] ==> Bounds(pixels).minX <= Bounds(pixels).maxX <= U32_MAX
                             && Bounds(pixels).minY <= Bounds(pixels).maxY <= U32_MAX
  {
    if pixels != [] {
      var init := pixels[..|pixels| - 1];
      BoundsHold(init);
      forall i | 0 <= i < |pixels| && pixels[i].x <= U32_MAX && pixels[i].y <= U32_MAX
        ensures Inside(Bounds(pixels), pixels[i])
      {
        if i < |init| {
          assert Inside(Bounds(init), init[i]);
        }
      }
    }
  }

  /** When all coordinates are in range, the crop box is the smallest one around the visible pixels. */
  lemma {:induction false} BoundsAreTight(pixels: seq<Pixel>)
    requires pixels != [] && InRange(pixels)
    ensures Touches(Bounds(pixels), pixels)
    ensures forall i | 0 <= i < |pixels| :: Inside(Bounds(pixels), pixels[i])
  {
    BoundsHold(pixels);
    var init, last := pixels[..|pixels| - 1], pixels[|pixels| - 1];
    assert pixels[|pixels| - 1] == last;
    if init != [] {
      assert InRange(init);
      BoundsAreTight(init);
      var a :| 0 <= a < |init| && init[a].x == Bounds(init).minX;
      var b :| 0 <= b < |init| && init[b].y == Bounds(init).minY;
      var c :| 0 <= c < |init| && init[c].x == Bounds(init).maxX;
      var d :| 0 <= d < |init| && init[d].y == Bounds(init).maxY;
      assert pixels[a] == init[a] && pixels[b] == init[b] && pixels[c] == init[c] && pixels[d] == init[d];
    }
  }

  /** One composition of the first pass; a row that no 32-bit number holds ends it. */
  method GrowOver(c: Composition, ghost before: seq<Pixel>, visible: bool, box: Box) returns (r: Option<(bool, Box)>)
    requires c.Valid() && visible == (before != []) && box == Bounds(before)
    ensures r.None? ==> !InRange(VisibleUpTo(c, c.Count()))
    ensures r.Some? ==> var pixels := before + VisibleUpTo(c, c.Count());
                        r.value == (pixels != [], Bounds(pixels))
  {
    var seen, grown := visible, box;
    assert before + VisibleUpTo(c, 0) == before;
    for k := 0 to c.Count()
      invariant seen == (before + VisibleUpTo(c, k) != []) && grown == Bounds(before + VisibleUpTo(c, k))
    {
      ghost var pixels := before + VisibleUpTo(c, k);
      if c.Alpha(k) > MIN_VISIBLE_ALPHA {
        var p := PixelAt(c, k);
        if k / c.width > U32_MAX {
          VisibleUpToHas(c, c.Count(), k);
          return None;
        }
        seen := true;
        grown := Grow(grown, p);
        assert before + VisibleUpTo(c, k + 1) == pixels + [p];
        assert (pixels + [p])[..|pixels|] == pixels;
      } else {
        assert before + VisibleUpTo(c, k + 1) == pixels;
      }
    }
    r := Some((seen, grown));
  }

  /** The first pass. */
  method FindBounds(frame: seq<Composition>) returns (r: Option<(bool, Box)>)
    requires Valid(frame)
    ensures r.None? ==> !InRange(Visible(frame, |frame|))
    ensures r.Some? ==> r.value == (Visible(frame, |frame|) != [], Bounds(Visible(frame, |frame|)))
  {
    var visible, box := false, EMPTY_BOX;
    for i := 0 to |frame|
      invariant visible == (Visible(frame, i) != []) && box == Bounds(Visible(frame, i))
    {
      var grown := GrowOver(frame[i], Visible(frame, i), visible, box);
      if grown.None? {
        VisibleGrows(frame, i + 1, |frame|);
        return None;
      }
      visible, box := grown.value.0, grown.value.1;
    }
    r := Some((visible, box));
  }

  lemma {:induction false} VisibleGrows(frame: seq<Composition>, i: nat, n: nat)
    requires Valid(frame) && 0 < i <= n <= |frame|
    ensures InRange(Visible(frame, n)) ==> InRange(VisibleUpTo(frame[i - 1], frame[i - 1].Count()))
    decreases n
  {
    InRangeConcat(Visible(frame, n - 1), VisibleUpTo(frame[n - 1], frame[n - 1].Count()));
    if i < n {
      VisibleGrows(frame, i, n - 1);
    }
  }

  lemma InRangeConcat(a: seq<Pixel>, b: seq<Pixel>)
    ensures InRange(a + b) ==> InRange(a) && InRange(b)
  {
    if InRange(a + b) {
      assert forall k | 0 <= k < |a| :: a[k] == (a + b)[k];
      assert forall k | 0 <= k < |b| :: b[k] == (a + b)[|a| + k];
    }
  }

  lemma {:induction false} VisibleUpToHas(c: Composition, n: nat, k: nat)
    requires c.Valid() && k < n <= c.Count() && c.Alpha(k) > MIN_VISIBLE_ALPHA
    ensures PixelAt(c, k) in VisibleUpTo(c, n)
    decreases n
  {
    if k < n - 1 {
      VisibleUpToHas(c, n - 1, k);
    }
  }

  // ---- The canvas ----

  function Side(low: nat, high: nat): nat
    requires low <= high
  {
    OCR_SCALE * (high - low + 1 + 2 * OCR_PADDING)
  }

  /** The canvas of a box as the source works it out, each operation checked against 32 bits. */
  method Canvas(box: Box) returns (r: Option<(nat, nat)>)
    requires box.minX <= box.maxX <= U32_MAX && box.minY <= box.maxY <= U32_MAX
    ensures r.Some? <==> Side(box.minX, box.maxX) * Side(box.minY, box.maxY) <= U32_MAX
    ensures r.Some? ==> r.value == (Side(box.minX, box.maxX), Side(box.minY, box.maxY))
  {
    ghost var w, h := Side(box.minX, box.maxX), Side(box.minY, box.maxY);
    AtLeastOnce(w, h);
    AtLeastOnce(h, w);
    var contentWidth, contentHeight := box.maxX - box.minX + 1, box.maxY - box.minY + 1;
    if contentWidth > U32_MAX || contentHeight > U32_MAX { return None; }
    var paddedWidth, paddedHeight := contentWidth + OCR_PADDING * 2, contentHeight + OCR_PADDING * 2;
    if paddedWidth > U32_MAX || paddedHeight > U32_MAX { return None; }
    var width, height := paddedWidth * OCR_SCALE, paddedHeight * OCR_SCALE;
    if width > U32_MAX || height > U32_MAX { return None; }
    if width * height > U32_MAX { return None; }
    r := Some((width, height));
  }

  // ---- The picture ----

  /** White, or the darkest of the pixels at a place. */
  function Darkest(pixels: seq<Pixel>, x: int, y: int): int {
    if pixels == [] then 255
    else
      var last, rest := pixels[|pixels| - 1], Darkest(pixels[..|pixels| - 1], x, y);
      if last.x == x && last.y == y then Min(rest, last.shade) else rest
  }

  /** The canvas column or row `at`, as a place on the video. */
  function Source(low: nat, at: nat): int {
    low + at / OCR_SCALE - OCR_PADDING
  }

  function Painted(pixels: seq<Pixel>, box: Box, column: nat, row: nat): int {
    Darkest(pixels, Source(box.minX, column), Source(box.minY, row))
  }

  lemma AtLeastOnce(a: nat, width: nat)
    requires a > 0
    ensures a * width >= width
  {
  }

  lemma Places(t: nat, width: nat, row: nat, column: nat)
    requires column < width && t == row * width + column
    ensures t / width == row && t % width == column
  {
    var q, r := t / width, t % width;
    assert (q - row) * width == column - r;
    if q > row {
      AtLeastOnce(q - row, width);
    } else if q < row {
      assert (row - q) * width == r - column;
      AtLeastOnce(row - q, width);
    }
  }

  lemma InCanvas(width: nat, height: nat, row: nat, column: nat)
    requires row < height && column < width
    ensures row * width + column < width * height
  {
    assert (row + 1) * width <= height * width;
  }

  function Pressed(before: int, hit: bool, shade: int): int {
    if hit then Min(before, shade) else before
  }

  /** One row of a pixel's square. */
  method PressRow(output: array<int>, width: nat, height: nat, row: nat, x: nat, shade: int)
    requires output.Length == width * height <= U32_MAX
    requires row < height && x + OCR_SCALE <= width
    modifies output
    ensures forall t | 0 <= t < output.Length ::
              output[t] == Pressed(old(output[t]), t / width == row && x <= t % width < x + OCR_SCALE, shade)
  {
    for offsetX := 0 to OCR_SCALE
      invariant forall t | 0 <= t < output.Length ::
                  output[t] == Pressed(old(output[t]), t / width == row && x <= t % width < x + offsetX, shade)
    {
      var target := row * width + (x + offsetX);
      InCanvas(width, height, row, x + offsetX);
      Places(target, width, row, x + offsetX);
      assert target <= U32_MAX;
      output[target] := Min(output[target], shade);
      forall t | 0 <= t < output.Length
        ensures output[t] == Pressed(old(output[t]), t / width == row && x <= t % width < x + offsetX + 1, shade)
      {
        if t / width == row && t % width == x + offsetX {
          assert t == (t / width) * width + t % width;
        }
      }
    }
  }

  /** A visible pixel darkens its square of the canvas. */
  method Press(output: array<int>, width: nat, height: nat, x: nat, y: nat, shade: int)
    requires output.Length == width * height <= U32_MAX
    requires x + OCR_SCALE <= width && y + OCR_SCALE <= height
    modifies output
    ensures forall t | 0 <= t < output.Length ::
              output[t] == Pressed(old(output[t]),
                                   y <= t / width < y + OCR_SCALE && x <= t % width < x + OCR_SCALE, shade)
  {
    for offsetY := 0 to OCR_SCALE
      invariant forall t | 0 <= t < output.Length ::
                  output[t] == Pressed(old(output[t]),
                                       y <= t / width < y + offsetY && x <= t % width < x + OCR_SCALE, shade)
    {
      PressRow(output, width, height, y + offsetY, x, shade);
    }
  }

  /** The square a pixel is pressed into is where the canvas shows that pixel's place. */
  lemma SquareIsSource(low: nat, at: nat, place: nat)
    requires low <= place
    ensures var start := (place - low + OCR_PADDING) * OCR_SCALE;
            start <= at < start + OCR_SCALE <==> Source(low, at) == place
  {
  }

  lemma PaintedSnoc(pixels: seq<Pixel>, p: Pixel, box: Box, column: nat, row: nat)
    requires box.minX <= p.x && box.minY <= p.y
    ensures var x, y := (p.x - box.minX + OCR_PADDING) * OCR_SCALE, (p.y - box.minY + OCR_PADDING) * OCR_SCALE;
            Painted(pixels + [p], box, column, row)
            == Pressed(Painted(pixels, box, column, row),
                       y <= row < y + OCR_SCALE && x <= column < x + OCR_SCALE, p.shade)
  {
    assert (pixels + [p])[..|pixels|] == pixels;
    SquareIsSource(box.minX, column, p.x);
    SquareIsSource(box.minY, row, p.y);
  }

  ghost predicate Shows(output: seq<int>, width: nat, pixels: seq<Pixel>, box: Box)
    requires width > 0
  {
    forall t | 0 <= t < |output| :: output[t] == Painted(pixels, box, t % width, t / width)
  }

  /** One pixel of the second pass. */
  method PaintPixel(output: array<int>, width: nat, height: nat, box: Box, ghost pixels: seq<Pixel>, p: Pixel)
    requires width == Side(box.minX, Max(box.minX, box.maxX)) && height == Side(box.minY, Max(box.minY, box.maxY))
    requires output.Length == width * height <= U32_MAX
    requires Inside(box, p) && Shows(output[..], width, pixels, box)
    modifies output
    ensures Shows(output[..], width, pixels + [p], box)
  {
    var x, y := (p.x - box.minX + OCR_PADDING) * OCR_SCALE, (p.y - box.minY + OCR_PADDING) * OCR_SCALE;
    ghost var before := output[..];
    Press(output, width, height, x, y, p.shade);
    forall t | 0 <= t < output.Length
      ensures output[t] == Painted(pixels + [p], box, t % width, t / width)
    {
      assert before[t] == Painted(pixels, box, t % width, t / width);
      PaintedSnoc(pixels, p, box, t % width, t / width);
    }
  }

  ghost predicate Fits(pixels: seq<Pixel>, box: Box) {
    forall i | 0 <= i < |pixels| && pixels[i].y <= U32_MAX :: Inside(box, pixels[i])
  }

  lemma FitsConcat(a: seq<Pixel>, b: seq<Pixel>, box: Box)
    requires Fits(a + b, box)
    ensures Fits(a, box) && Fits(b, box)
  {
    assert forall k | 0 <= k < |a| :: a[k] == (a + b)[k];
    assert forall k | 0 <= k < |b| :: b[k] == (a + b)[|a| + k];
  }

  lemma {:induction false} FrameFits(frame: seq<Composition>, i: nat, n: nat, box: Box)
    requires Valid(frame) && i < n <= |frame| && Fits(Visible(frame, n), box)
    ensures Fits(VisibleUpTo(frame[i], frame[i].Count()), box)
    decreases n
  {
    FitsConcat(Visible(frame, n - 1), VisibleUpTo(frame[n - 1], frame[n - 1].Count()), box);
    if i < n - 1 {
      FrameFits(frame, i, n - 1, box);
    }
  }

  /** Columns never leave the 32-bit range, so every pixel whose row does not is in the crop box. */
  lemma {:induction false} VisibleColumns(c: Composition, k: nat)
    requires c.Valid() && k <= c.Count()
    ensures forall p | p in VisibleUpTo(c, k) :: p.x <= U32_MAX
  {
    if k > 0 {
      VisibleColumns(c, k - 1);
    }
  }

  lemma {:induction false} FrameColumns(frame: seq<Composition>, n: nat)
    requires Valid(frame) && n <= |frame|
    ensures forall p | p in Visible(frame, n) :: p.x <= U32_MAX
  {
    if n > 0 {
      FrameColumns(frame, n - 1);
      VisibleColumns(frame[n - 1], frame[n - 1].Count());
    }
  }

  /** One composition of the second pass; a pixel whose row no 32-bit number holds ends it. */
  method PaintComposition(c: Composition, output: array<int>, width: nat, height: nat, box: Box,
                          ghost before: seq<Pixel>)
    returns (ok: bool)
    requires c.Valid() && Fits(VisibleUpTo(c, c.Count()), box)
    requires box.minX <= box.maxX && box.minY <= box.maxY
    requires width == Side(box.minX, box.maxX) && height == Side(box.minY, box.maxY)
    requires output.Length == width * height <= U32_MAX
    requires Shows(output[..], width, before, box)
    modifies output
    ensures ok <==> InRange(VisibleUpTo(c, c.Count()))
    ensures ok ==> Shows(output[..], width, before + VisibleUpTo(c, c.Count()), box)
  {
    assert before + VisibleUpTo(c, 0) == before;
    for k := 0 to c.Count()
      invariant Shows(output[..], width, before + VisibleUpTo(c, k), box) && InRange(VisibleUpTo(c, k))
    {
      ghost var pixels := before + VisibleUpTo(c, k);
      if c.Alpha(k) > MIN_VISIBLE_ALPHA {
        var p := PixelAt(c, k);
        VisibleUpToHas(c, c.Count(), k);
        if p.y > U32_MAX {
          return false;
        }
        PaintPixel(output, width, height, box, pixels, p);
        assert before + VisibleUpTo(c, k + 1) == pixels + [p];
      } else {
        assert before + VisibleUpTo(c, k + 1) == pixels;
      }
    }
    ok := true;
  }

  /** The second pass. */
  method Paint(frame: seq<Composition>, output: array<int>, width: nat, height: nat, box: Box) returns (ok: bool)
    requires Valid(frame) && Fits(Visible(frame, |frame|), box)
    requires box.minX <= box.maxX && box.minY <= box.maxY
    requires width == Side(box.minX, box.maxX) && height == Side(box.minY, box.maxY)
    requires output.Length == width * height <= U32_MAX
    requires forall t | 0 <= t < output.Length :: output[t] == 255
    modifies output
    ensures ok <==> InRange(Visible(frame, |frame|))
    ensures ok ==> Shows(output[..], width, Visible(frame, |frame|), box)
  {
    for i := 0 to |frame|
      invariant Shows(output[..], width, Visible(frame, i), box) && InRange(Visible(frame, i))
    {
      FrameFits(frame, i, |frame|, box);
      ok := PaintComposition(frame[i], output, width, height, box, Visible(frame, i));
      if !ok {
        VisibleGrows(frame, i + 1, |frame|);
        return false;
      }
    }
    ok := true;
  }

  /** Paints a white canvas. */
  method Draw(frame: seq<Composition>, width: nat, height: nat, box: Box) returns (r: Option<seq<int>>)
    requires Valid(frame) && Fits(Visible(frame, |frame|), box)
    requires box.minX <= box.maxX && box.minY <= box.maxY
    requires width == Side(box.minX, box.maxX) && height == Side(box.minY, box.maxY)
    requires width * height <= U32_MAX
    ensures r.Some? <==> InRange(Visible(frame, |frame|))
    ensures r.Some? ==> |r.value| == width * height && Shows(r.value, width, Visible(frame, |frame|), box)
  {
    var size: nat := width * height;
    var output := new int[size](_ => 255);
    var ok := Paint(frame, output, width, height, box);
    r := if ok then Some(output[..]) else None;
  }

  datatype OcrImage = OcrImage(width: nat, height: nat, pixels: seq<int>)

  /** Whether a picture comes out at all. */
  predicate Drawable(pixels: seq<Pixel>) {
    && pixels != []
    && InRange(pixels)
    && var box := Bounds(pixels);
      && box.minX <= box.maxX && box.minY <= box.maxY
      && Side(box.minX, box.maxX) * Side(box.minY, box.maxY) <= U32_MAX
  }

  /**
   * A frame becomes an image if and only if something is visible, every visible row is a 32-bit number and the
   * canvas has at most 2^32 - 1 pixels; each canvas pixel is then the darkest visible pixel at its place.
   */
  method FrameToOcrImage(frame: seq<Composition>) returns (r: Option<OcrImage>)
    requires Valid(frame)
    ensures r.Some? <==> Drawable(Visible(frame, |frame|))
    ensures r.Some? ==>
              var pixels, image := Visible(frame, |frame|), r.value;
              var box := Bounds(pixels);
              && image.width == Side(box.minX, box.maxX) && image.height == Side(box.minY, box.maxY)
              && |image.pixels| == image.width * image.height
              && Shows(image.pixels, image.width, pixels, box)
  {
    var bounds := FindBounds(frame);
    if bounds.None? { return None; }
    var (visible, box) := bounds.value;
    if !visible { return None; }
    BoundsHold(Visible(frame, |frame|));
    var canvas := Canvas(box);
    if canvas.None? { return None; }
    var (width, height) := canvas.value;
    FrameColumns(frame, |frame|);
    var output := Draw(frame, width, height, box);
    r := if output.None? then None else Some(OcrImage(width, height, output.value));
  }

  // ---- What the picture shows ----

  /** The darkest pixel at a place is one of the pixels there, or white paper, and none there is darker. */
  lemma {:induction false} DarkestIsLeast(pixels: seq<Pixel>, x: int, y: int)
    ensures Darkest(pixels, x, y) <= 255
    ensures forall i | 0 <= i < |pixels| && pixels[i].x == x && pixels[i].y == y :: Darkest(pixels, x, y) <= pixels[i].shade
    ensures Darkest(pixels, x, y) == 255
            || exists i :: 0 <= i < |pixels| && pixels[i].x == x && pixels[i].y == y && Darkest(pixels, x, y) == pixels[i].shade
  {
    if pixels != [] {
      var init, last := pixels[..|pixels| - 1], pixels[|pixels| - 1];
      DarkestIsLeast(init, x, y);
      forall i | 0 <= i < |pixels| && pixels[i].x == x && pixels[i].y == y
        ensures Darkest(pixels, x, y) <= pixels[i].shade
      {
        assert i < |init| ==> pixels[i] == init[i];
      }
      if Darkest(pixels, x, y) != 255 {
        if Darkest(init, x, y) == Darkest(pixels, x, y) {
          var i :| 0 <= i < |init| && init[i].x == x && init[i].y == y && Darkest(init, x, y) == init[i].shade;
          assert pixels[i] == init[i];
        } else {
          assert pixels[|pixels| - 1] == last;
        }
      }
    }
  }

  /** The padding on all four sides stays white. */
  lemma BorderStaysWhite(pixels: seq<Pixel>, column: nat, row: nat)
    requires Drawable(pixels)
    requires var box := Bounds(pixels);
             var width, height := Side(box.minX, box.maxX), Side(box.minY, box.maxY);
             var border := OCR_SCALE * OCR_PADDING;
             column < border || width - border <= column || row < border || height - border <= row
    ensures Painted(pixels, Bounds(pixels), column, row) == 255
  {
    BoundsAreTight(pixels);
    DarkestIsLeast(pixels, Source(Bounds(pixels).minX, column), Source(Bounds(pixels).minY, row));
  }

  /** The measures of the picture: each pixel is two by two, and 16 pixels of paper surround the content. */
  lemma Measures(low: nat, high: nat, at: nat, d: nat)
    requires low <= at <= high && d < 2
    ensures Side(low, high) == 2 * (high - low + 1) + 64 && Source(low, 2 * (at - low) + 32 + d) == at
  {
  }

  /** Nothing visible falls outside the picture: every visible pixel darkens a whole square inside the border. */
  lemma EveryPixelIsDrawn(pixels: seq<Pixel>, i: nat, dx: nat, dy: nat)
    requires Drawable(pixels) && i < |pixels| && dx < OCR_SCALE && dy < OCR_SCALE
    ensures var box := Bounds(pixels);
            var column, row := (pixels[i].x - box.minX + OCR_PADDING) * OCR_SCALE + dx,
                               (pixels[i].y - box.minY + OCR_PADDING) * OCR_SCALE + dy;
            && OCR_SCALE * OCR_PADDING <= column < Side(box.minX, box.maxX) - OCR_SCALE * OCR_PADDING
            && OCR_SCALE * OCR_PADDING <= row < Side(box.minY, box.maxY) - OCR_SCALE * OCR_PADDING
            && Painted(pixels, box, column, row) <= pixels[i].shade
  {
    BoundsAreTight(pixels);
    assert Inside(Bounds(pixels), pixels[i]);
    DarkestIsLeast(pixels, pixels[i].x, pixels[i].y);
    var box := Bounds(pixels);
    SquareIsSource(box.minX, (pixels[i].x - box.minX + OCR_PADDING) * OCR_SCALE + dx, pixels[i].x);
    SquareIsSource(box.minY, (pixels[i].y - box.minY + OCR_PADDING) * OCR_SCALE + dy, pixels[i].y);
  }

  // ---- Which samples are seen ----

  lemma {:induction false} VisibleHas(frame: seq<Composition>, n: nat, i: nat, k: nat)
    requires Valid(frame) && i < n <= |frame| && k < frame[i].Count() && frame[i].Alpha(k) > MIN_VISIBLE_ALPHA
    ensures PixelAt(frame[i], k) in Visible(frame, n)
    decreases n
  {
    if i < n - 1 {
      VisibleHas(frame, n - 1, i, k);
    } else {
      VisibleUpToHas(frame[i], frame[i].Count(), k);
    }
  }

  /** `p` is the sample in this row and column of the composition, and visible. */
  predicate IsSample(c: Composition, row: nat, column: nat, p: Pixel)
    requires c.Valid()
  {
    column < c.width && IsSampleAt(c, row * c.width + column, Pixel(c.x + column, c.y + row, p.shade), p)
  }

  /** The `k`-th sample is visible, and `p` is as dark as it is opaque and at the place of `q`. */
  predicate IsSampleAt(c: Composition, k: nat, q: Pixel, p: Pixel)
    requires c.Valid()
  {
    4 * k + 3 < |c.rgba| && c.rgba[4 * k + 3] > 8 && p == q && p.shade == 255 - c.rgba[4 * k + 3]
  }

  /**
   * Samples are four bytes each, row by row; every one whose alpha is above 8 is seen at its place on the video, as
   * dark as it is opaque.
   */
  lemma EverySampleIsSeen(frame: seq<Composition>, i: nat, row: nat, column: nat, p: Pixel)
    requires Valid(frame) && i < |frame| && IsSample(frame[i], row, column, p)
    ensures p in Visible(frame, |frame|)
  {
    var c := frame[i];
    var k := row * c.width + column;
    Places(k, c.width, row, column);
    PixelOfSample(c, k, p);
    VisibleHas(frame, |frame|, i, k);
  }

  lemma PixelOfSample(c: Composition, k: nat, p: Pixel)
    requires c.Valid() && IsSampleAt(c, k, Pixel(c.x + k % c.width, c.y + k / c.width, p.shade), p)
    ensures k < c.Count() && c.Alpha(k) > MIN_VISIBLE_ALPHA && PixelAt(c, k) == p
  {
  }

  lemma {:induction false} VisibleUpToFrom(c: Composition, n: nat, p: Pixel) returns (k: nat)
    requires c.Valid() && n <= c.Count() && p in VisibleUpTo(c, n)
    ensures k < n && c.Alpha(k) > MIN_VISIBLE_ALPHA && p == PixelAt(c, k)
    decreases n
  {
    if p in VisibleUpTo(c, n - 1) {
      k := VisibleUpToFrom(c, n - 1, p);
    } else {
      k := n - 1;
    }
  }

  lemma SampleAt(c: Composition, k: nat) returns (row: nat, column: nat)
    requires c.Valid() && k < c.Count() && c.Alpha(k) > MIN_VISIBLE_ALPHA
    ensures IsSample(c, row, column, PixelAt(c, k))
  {
    row, column := k / c.width, k % c.width;
    assert row * c.width + column == k;
  }

  lemma SampleFrom(c: Composition, p: Pixel) returns (row: nat, column: nat)
    requires c.Valid() && p in VisibleUpTo(c, c.Count())
    ensures IsSample(c, row, column, p)
  {
    var k := VisibleUpToFrom(c, c.Count(), p);
    row, column := SampleAt(c, k);
  }

  /** Nothing else is seen. */
  lemma {:induction false} OnlySamplesAreSeen(frame: seq<Composition>, n: nat, p: Pixel)
    requires Valid(frame) && n <= |frame| && p in Visible(frame, n)
    ensures exists i: nat, row: nat, column: nat :: i < n && IsSample(frame[i], row, column, p)
    decreases n
  {
    if p in Visible(frame, n - 1) {
      OnlySamplesAreSeen(frame, n - 1, p);
    } else {
      var row, column := SampleFrom(frame[n - 1], p);
    }
  }
}
