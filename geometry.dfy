/** The geometry engine of scripts/format_media.py: clamping the focal point,
    the focal crop box and the inscribed (letterbox) scale box, with the
    centring offsets its callers compute. Ratios are exact reals. */
module Geometry {
  import opened Rounding

  /** Pixel dimensions are positive (the source divides by them). */
  type Pos = n: int | n > 0 witness 1

  /** clamp01: the focal fraction, forced into [0, 1]. */
  function Clamp01(x: real): (r: real)
    ensures 0.0 <= r <= 1.0
    ensures 0.0 <= x <= 1.0 ==> r == x
    ensures x < 0.0 ==> r == 0.0
    ensures x > 1.0 ==> r == 1.0
  {
    if x < 0.0 then 0.0
    else if x > 1.0 then 1.0
    else x
  }

  // ---------------------------------------------------------------------
  // The three arithmetic forms the source uses: a ratio of two sizes, a
  // size times a real, and a size divided by a real.

  /** w / h, as `src_w / src_h` and `target_w / target_h` compute it. */
  function Ratio(w: int, h: Pos): real {
    w as real / h as real
  }

  /** n * r, as in `crop_h * tgt_ratio`, `max_left * focal_x`, `src_w * scale`. */
  function Times(n: int, r: real): real {
    n as real * r
  }

  /** n / r, as in `crop_w / tgt_ratio`. */
  function Over(n: int, r: real): real
    requires r != 0.0
  {
    n as real / r
  }

  // ---------------------------------------------------------------------
  // Exact real arithmetic used by the proofs

  lemma MulDiv(a: real, b: real)
    requires b != 0.0
    ensures (a / b) * b == a
  {
  }

  lemma MulStrict(x: real, y: real, m: real)
    requires x < y && m > 0.0
    ensures x * m < y * m
  {
  }

  lemma MulLe(x: real, y: real, m: real)
    requires x <= y && m >= 0.0
    ensures x * m <= y * m
  {
  }

  lemma CancelRight(x: real, y: real, m: real)
    requires m > 0.0 && x * m == y * m
    ensures x == y
  {
    if x < y {
      MulStrict(x, y, m);
    } else if y < x {
      MulStrict(y, x, m);
    }
  }

  /** a/b > c/d exactly when a*d > c*b, for positive b and d. */
  lemma CrossMultiply(a: real, b: real, c: real, d: real)
    requires b > 0.0 && d > 0.0
    ensures a / b > c / d <==> a * d > c * b
  {
    var p, q := a / b, c / d;
    MulDiv(a, b);
    MulDiv(c, d);
    if p > q {
      MulStrict(q, p, b * d);
    } else {
      MulLe(p, q, b * d);
    }
    assert p * (b * d) == (p * b) * d;
    assert q * (b * d) == (q * d) * b;
  }

  /** b * (c/d) == (b*c)/d. */
  lemma TimesRatio(b: real, c: real, d: real)
    requires d > 0.0
    ensures b * (c / d) == (b * c) / d
  {
    MulDiv(c, d);
    MulDiv(b * c, d);
    assert (b * (c / d)) * d == b * ((c / d) * d);
    CancelRight(b * (c / d), (b * c) / d, d);
  }

  /** a / (c/d) == (a*d)/c. */
  lemma OverRatio(a: real, c: real, d: real)
    requires c > 0.0 && d > 0.0
    ensures a / (c / d) == (a * d) / c
  {
    var q := c / d;
    MulDiv(c, d);
    assert q > 0.0;
    MulDiv(a, q);
    MulDiv(a * d, c);
    assert (a / q) * c == ((a / q) * q) * d;
    CancelRight(a / q, (a * d) / c, c);
  }

  /** b * (c/d) < a when b*c < a*d, for positive d. */
  lemma TimesRatioBelow(a: real, b: real, c: real, d: real)
    requires d > 0.0 && b * c < a * d
    ensures b * (c / d) < a
  {
    var q := c / d;
    MulDiv(c, d);
    var x := b * q;
    assert x * d == b * (q * d);
    if x >= a {
      MulLe(a, x, d);
    }
  }

  /** a / (c/d) <= b when a*d <= c*b, for positive c and d. */
  lemma OverRatioAtMost(a: real, b: real, c: real, d: real)
    requires c > 0.0 && d > 0.0 && a * d <= c * b
    ensures a / (c / d) <= b
  {
    var q := c / d;
    MulDiv(c, d);
    assert q > 0.0;
    var y := a / q;
    MulDiv(a, q);
    assert y * c == (y * q) * d;
    if y > b {
      MulStrict(b, y, c);
    }
  }

  lemma PositiveProduct(a: real, b: real)
    requires a > 0.0 && b > 0.0
    ensures a * b > 0.0
  {
    MulStrict(0.0, a, b);
  }

  lemma PositiveQuotient(a: real, b: real)
    requires a > 0.0 && b > 0.0
    ensures a / b > 0.0
  {
    MulDiv(a, b);
    if a / b <= 0.0 {
      MulLe(a / b, 0.0, b);
    }
  }

  // ---------------------------------------------------------------------
  // The same facts, stated on the source's own arithmetic forms

  /** Comparing the ratios is comparing the cross products. */
  lemma RatioComparison(srcW: Pos, srcH: Pos, tgtW: Pos, tgtH: Pos)
    ensures Ratio(srcW, srcH) > Ratio(tgtW, tgtH) <==> srcW * tgtH > tgtW * srcH
  {
    CrossMultiply(srcW as real, srcH as real, tgtW as real, tgtH as real);
  }

  lemma RatioPositive(w: Pos, h: Pos)
    ensures Ratio(w, h) > 0.0
  {
    PositiveQuotient(w as real, h as real);
  }

  /** A fraction in [0, 1] of a non-negative length stays in [0, length]. */
  lemma TimesFraction(len: int, f: real)
    requires len >= 0 && 0.0 <= f <= 1.0
    ensures 0.0 <= Times(len, f) <= len as real
  {
    var l := len as real;
    MulLe(f, 1.0, l);
    MulLe(0.0, f, l);
    assert Times(len, f) == f * l;
    assert 1.0 * l == l && 0.0 * l == 0.0;
  }

  /** h * (w/h') is the exact product h*w/h'. */
  lemma TimesRatioExact(n: int, w: Pos, h: Pos)
    ensures Times(n, Ratio(w, h)) == (n * w) as real / h as real
  {
    TimesRatio(n as real, w as real, h as real);
  }

  /** n / (w/h) is the exact quotient n*h/w. */
  lemma OverRatioExact(n: int, w: Pos, h: Pos)
    ensures Ratio(w, h) != 0.0
    ensures Over(n, Ratio(w, h)) == (n * h) as real / w as real
  {
    RatioPositive(w, h);
    OverRatio(n as real, w as real, h as real);
  }

  // ---------------------------------------------------------------------
  // Crop box (crop_box_centered)

  /** A crop box as crop_box_centered returns it: left, top, width, height. */
  datatype Box = Box(left: int, top: int, width: int, height: int)

  function Max(a: int, b: int): int {
    if a >= b then a else b
  }

  /** The source is relatively wider than the target, by cross-multiplication. */
  predicate WiderThanTarget(srcW: Pos, srcH: Pos, tgtW: Pos, tgtH: Pos) {
    srcW * tgtH > tgtW * srcH
  }

  /** The exact (unrounded) length of the constrained side:
      src_h * tgt_w / tgt_h when the source is wider, else src_w * tgt_h / tgt_w. */
  function IdealCropSide(srcW: Pos, srcH: Pos, tgtW: Pos, tgtH: Pos): real {
    if WiderThanTarget(srcW, srcH, tgtW, tgtH)
    then (srcH * tgtW) as real / tgtH as real
    else (srcW * tgtH) as real / tgtW as real
  }

  /** The sides of the crop box (lines 97-107). One side is kept; the other is
      the rounded exact side, which lies between 0 and the source side. */
  function CropSize(srcW: Pos, srcH: Pos, tgtW: Pos, tgtH: Pos): (s: (int, int))
    ensures WiderThanTarget(srcW, srcH, tgtW, tgtH) ==>
      s.0 == Round(IdealCropSide(srcW, srcH, tgtW, tgtH)) && s.1 == srcH
    ensures !WiderThanTarget(srcW, srcH, tgtW, tgtH) ==>
      s.0 == srcW && s.1 == Round(IdealCropSide(srcW, srcH, tgtW, tgtH))
    ensures 0 <= s.0 <= srcW && 0 <= s.1 <= srcH
  {
    var srcRatio := Ratio(srcW, srcH);
    var tgtRatio := Ratio(tgtW, tgtH);
    RatioComparison(srcW, srcH, tgtW, tgtH);
    RatioPositive(tgtW, tgtH);
    if srcRatio > tgtRatio then
      CropSideWide(srcW, srcH, tgtW, tgtH);
      (Round(Times(srcH, tgtRatio)), srcH)
    else
      CropSideNarrow(srcW, srcH, tgtW, tgtH);
      (srcW, Round(Over(srcW, tgtRatio)))
  }

  lemma CropSideWide(srcW: Pos, srcH: Pos, tgtW: Pos, tgtH: Pos)
    requires WiderThanTarget(srcW, srcH, tgtW, tgtH)
    ensures Times(srcH, Ratio(tgtW, tgtH)) == IdealCropSide(srcW, srcH, tgtW, tgtH)
    ensures 0 <= Round(Times(srcH, Ratio(tgtW, tgtH))) <= srcW
  {
    TimesRatioExact(srcH, tgtW, tgtH);
    TimesRatioBelow(srcW as real, srcH as real, tgtW as real, tgtH as real);
    PositiveProduct(srcH as real, Ratio(tgtW, tgtH)) by {
      RatioPositive(tgtW, tgtH);
    }
    RoundWithin(Times(srcH, Ratio(tgtW, tgtH)), srcW);
  }

  lemma CropSideNarrow(srcW: Pos, srcH: Pos, tgtW: Pos, tgtH: Pos)
    requires !WiderThanTarget(srcW, srcH, tgtW, tgtH)
    ensures Ratio(tgtW, tgtH) != 0.0
    ensures Over(srcW, Ratio(tgtW, tgtH)) == IdealCropSide(srcW, srcH, tgtW, tgtH)
    ensures 0 <= Round(Over(srcW, Ratio(tgtW, tgtH))) <= srcH
  {
    OverRatioExact(srcW, tgtW, tgtH);
    OverRatioAtMost(srcW as real, srcH as real, tgtW as real, tgtH as real);
    RatioPositive(tgtW, tgtH);
    PositiveQuotient(srcW as real, Ratio(tgtW, tgtH));
    RoundWithin(Over(srcW, Ratio(tgtW, tgtH)), srcH);
  }

  /** The position along one axis (lines 112-122): the rounded focal fraction
      of the slack, clamped into [0, slack]. */
  function FocalOffset(slack: int, focal: real): (o: int)
    requires slack >= 0
    ensures 0 <= o <= slack
  {
    var o0 := Round(Times(slack, focal));
    var o1 := if o0 < 0 then 0 else o0;
    if o1 > slack then slack else o1
  }

  /** A focal fraction inside [0, 1] never needs the clamp. */
  lemma FocalOffsetUnclamped(slack: int, focal: real)
    requires slack >= 0 && 0.0 <= focal <= 1.0
    ensures FocalOffset(slack, focal) == Round(Times(slack, focal))
  {
    TimesFraction(slack, focal);
    RoundWithin(Times(slack, focal), slack);
  }

  /** crop_box_centered: the largest box of the target's aspect ratio inside
      the source, placed at the focal fraction of the slack. The box lies in
      the source and keeps at least one source side whole. */
  function CropBox(srcW: Pos, srcH: Pos, tgtW: Pos, tgtH: Pos, focalX: real, focalY: real): (b: Box)
    ensures 0 <= b.left && b.left + b.width <= srcW
    ensures 0 <= b.top && b.top + b.height <= srcH
    ensures 0 <= b.width && 0 <= b.height
    ensures b.width == srcW || b.height == srcH
  {
    var (cropW, cropH) := CropSize(srcW, srcH, tgtW, tgtH);
    var maxLeft := Max(0, srcW - cropW);
    var maxTop := Max(0, srcH - cropH);
    Box(FocalOffset(maxLeft, focalX), FocalOffset(maxTop, focalY), cropW, cropH)
  }

  /** The slack `max(0, src - crop)` never clamps: it is the plain difference,
      and the offsets are the focal offsets of those differences. */
  lemma CropBoxSlack(srcW: Pos, srcH: Pos, tgtW: Pos, tgtH: Pos, focalX: real, focalY: real)
    ensures var b := CropBox(srcW, srcH, tgtW, tgtH, focalX, focalY);
      && (b.width, b.height) == CropSize(srcW, srcH, tgtW, tgtH)
      && srcW - b.width >= 0 && srcH - b.height >= 0
      && b.left == FocalOffset(srcW - b.width, focalX)
      && b.top == FocalOffset(srcH - b.height, focalY)
  {
  }

  /** The constrained crop side is the nearest integer to the exact side
      (src_h * tgt_w / tgt_h when the source is wider, src_w * tgt_h / tgt_w
      otherwise): within one half of it, and an exact tie goes to even. The
      other side is the full source side. */
  lemma CropBoxNearest(srcW: Pos, srcH: Pos, tgtW: Pos, tgtH: Pos, focalX: real, focalY: real)
    ensures var b := CropBox(srcW, srcH, tgtW, tgtH, focalX, focalY);
      var wide := WiderThanTarget(srcW, srcH, tgtW, tgtH);
      var side := if wide then b.width else b.height;
      var ideal := IdealCropSide(srcW, srcH, tgtW, tgtH);
      && (if wide then b.height == srcH else b.width == srcW)
      && -0.5 <= side as real - ideal <= 0.5
      && ((side as real - ideal == 0.5 || ideal - side as real == 0.5) ==> IsEven(side))
  {
    CropBoxSlack(srcW, srcH, tgtW, tgtH, focalX, focalY);
  }

  /** A focal fraction inside [0, 1] is never clamped: each offset is exactly
      the rounded fraction of the slack. */
  lemma CropBoxFocalInRange(srcW: Pos, srcH: Pos, tgtW: Pos, tgtH: Pos, focalX: real, focalY: real)
    requires 0.0 <= focalX <= 1.0 && 0.0 <= focalY <= 1.0
    ensures var b := CropBox(srcW, srcH, tgtW, tgtH, focalX, focalY);
      && b.left == Round(Times(srcW - b.width, focalX))
      && b.top == Round(Times(srcH - b.height, focalY))
  {
    var b := CropBox(srcW, srcH, tgtW, tgtH, focalX, focalY);
    CropBoxSlack(srcW, srcH, tgtW, tgtH, focalX, focalY);
    FocalOffsetUnclamped(srcW - b.width, focalX);
    FocalOffsetUnclamped(srcH - b.height, focalY);
  }

  /** Focal 0 anchors the box at the top-left; focal 1 at the bottom-right,
      with each offset the whole slack. */
  lemma CropBoxAnchors(srcW: Pos, srcH: Pos, tgtW: Pos, tgtH: Pos)
    ensures var b := CropBox(srcW, srcH, tgtW, tgtH, 0.0, 0.0);
      b.left == 0 && b.top == 0
    ensures var b := CropBox(srcW, srcH, tgtW, tgtH, 1.0, 1.0);
      b.left == srcW - b.width && b.top == srcH - b.height
  {
    var b0 := CropBox(srcW, srcH, tgtW, tgtH, 0.0, 0.0);
    var b1 := CropBox(srcW, srcH, tgtW, tgtH, 1.0, 1.0);
    CropBoxFocalInRange(srcW, srcH, tgtW, tgtH, 0.0, 0.0);
    CropBoxFocalInRange(srcW, srcH, tgtW, tgtH, 1.0, 1.0);
    assert Times(srcW - b0.width, 0.0) == 0.0 && Times(srcH - b0.height, 0.0) == 0.0;
    RoundOfInt(0);
    assert Times(srcW - b1.width, 1.0) == (srcW - b1.width) as real;
    assert Times(srcH - b1.height, 1.0) == (srcH - b1.height) as real;
    RoundOfInt(srcW - b1.width);
    RoundOfInt(srcH - b1.height);
  }

  /** Focal (0.5, 0.5) centres the box: twice each offset is within one pixel
      of the slack. */
  lemma CropBoxCentred(srcW: Pos, srcH: Pos, tgtW: Pos, tgtH: Pos)
    ensures var b := CropBox(srcW, srcH, tgtW, tgtH, 0.5, 0.5);
      && -1 <= 2 * b.left - (srcW - b.width) <= 1
      && -1 <= 2 * b.top - (srcH - b.height) <= 1
  {
    var b := CropBox(srcW, srcH, tgtW, tgtH, 0.5, 0.5);
    CropBoxFocalInRange(srcW, srcH, tgtW, tgtH, 0.5, 0.5);
    assert Times(srcW - b.width, 0.5) == (srcW - b.width) as real / 2.0;
    assert Times(srcH - b.height, 0.5) == (srcH - b.height) as real / 2.0;
  }

  /** When source and target have the same aspect ratio, the box is the whole
      source at (0, 0), whatever the focal point. */
  lemma CropBoxSameRatio(srcW: Pos, srcH: Pos, tgtW: Pos, tgtH: Pos, focalX: real, focalY: real)
    requires srcW * tgtH == tgtW * srcH
    ensures CropBox(srcW, srcH, tgtW, tgtH, focalX, focalY) == Box(0, 0, srcW, srcH)
  {
    CropBoxSlack(srcW, srcH, tgtW, tgtH, focalX, focalY);
    SameRatioSide(srcW, srcH, tgtW, tgtH);
    RoundOfInt(srcH);
    assert Times(0, focalX) == 0.0 && Times(0, focalY) == 0.0;
    RoundOfInt(0);
  }

  lemma SameRatioSide(srcW: Pos, srcH: Pos, tgtW: Pos, tgtH: Pos)
    requires srcW * tgtH == tgtW * srcH
    ensures IdealCropSide(srcW, srcH, tgtW, tgtH) == srcH as real
  {
    var c, b := tgtW as real, srcH as real;
    assert (srcW * tgtH) as real == c * b;
    MulDiv(c * b, c);
    CancelRight((c * b) / c, b, c);
  }

  /** 4000x3000 cropped to 1080x1920 at the centre: 3000 * 1080 / 1920 = 1687.5
      rounds half to even to 1688, and half of the slack 2312 is 1156. */
  lemma CropBoxExample()
    ensures CropBox(4000, 3000, 1080, 1920, 0.5, 0.5) == Box(1156, 0, 1688, 3000)
  {
    CropBoxSlack(4000, 3000, 1080, 1920, 0.5, 0.5);
    assert IdealCropSide(4000, 3000, 1080, 1920) == 1687.5;
    RoundUnique(1687.5, 1688);
    FocalOffsetUnclamped(2312, 0.5);
    FocalOffsetUnclamped(0, 0.5);
    assert Times(2312, 0.5) == 1156.0 && Times(0, 0.5) == 0.0;
    RoundOfInt(1156);
    RoundOfInt(0);
  }

  // ---------------------------------------------------------------------
  // Fit box (pad_box) and centring (format_image / format_video pad path)

  /** p/m <= n when p <= n*m, for positive m. */
  lemma QuotientAtMost(p: real, m: real, n: real)
    requires m > 0.0 && p <= n * m
    ensures p / m <= n
  {
    var q := p / m;
    MulDiv(p, m);
    if q > n {
      MulStrict(n, q, m);
    }
  }

  /** (a*b)/a == b. */
  lemma CancelQuotient(a: real, b: real)
    requires a > 0.0
    ensures (a * b) / a == b
  {
    MulDiv(a * b, a);
    CancelRight((a * b) / a, b, a);
  }

  /** The source is relatively taller than the target, so that the height
      limits the scale. */
  predicate TallerThanTarget(srcW: Pos, srcH: Pos, tgtW: Pos, tgtH: Pos) {
    tgtH * srcW < tgtW * srcH
  }

  /** pad_box: the source scaled by the smaller of the two side ratios, each
      side rounded. It fits the target, and touches it on at least one side. */
  function PadBox(srcW: Pos, srcH: Pos, tgtW: Pos, tgtH: Pos): (s: (int, int))
    ensures 0 <= s.0 <= tgtW && 0 <= s.1 <= tgtH
    ensures s.0 == tgtW || s.1 == tgtH
  {
    var byW, byH := Ratio(tgtW, srcW), Ratio(tgtH, srcH);
    var scale := if byH < byW then byH else byW;
    PadScale(srcW, srcH, tgtW, tgtH);
    (Round(Times(srcW, scale)), Round(Times(srcH, scale)))
  }

  /** What pad_box's scale does to each side: the limiting side becomes the
      target side exactly; the other is the exact scaled side, at most the
      target side. */
  lemma PadScale(srcW: Pos, srcH: Pos, tgtW: Pos, tgtH: Pos)
    ensures var byW, byH := Ratio(tgtW, srcW), Ratio(tgtH, srcH);
      var scale := if byH < byW then byH else byW;
      && (byH < byW <==> TallerThanTarget(srcW, srcH, tgtW, tgtH))
      && (TallerThanTarget(srcW, srcH, tgtW, tgtH) ==>
            Times(srcH, scale) == tgtH as real
            && Times(srcW, scale) == (srcW * tgtH) as real / srcH as real
            && 0.0 < Times(srcW, scale) <= tgtW as real)
      && (!TallerThanTarget(srcW, srcH, tgtW, tgtH) ==>
            Times(srcW, scale) == tgtW as real
            && Times(srcH, scale) == (srcH * tgtW) as real / srcW as real
            && 0.0 < Times(srcH, scale) <= tgtH as real)
  {
    CrossMultiply(tgtW as real, srcW as real, tgtH as real, srcH as real);
    if TallerThanTarget(srcW, srcH, tgtW, tgtH) {
      PadScaleBy(srcW, srcH, tgtW, tgtH);
    } else {
      PadScaleBy(srcH, srcW, tgtH, tgtW);
    }
  }

  /** Scaling by the ratio `tgtH / srcH` when that one limits (or both do). */
  lemma PadScaleBy(srcW: Pos, srcH: Pos, tgtW: Pos, tgtH: Pos)
    requires tgtH * srcW <= tgtW * srcH
    ensures Times(srcH, Ratio(tgtH, srcH)) == tgtH as real
    ensures Times(srcW, Ratio(tgtH, srcH)) == (srcW * tgtH) as real / srcH as real
    ensures 0.0 < Times(srcW, Ratio(tgtH, srcH)) <= tgtW as real
  {
    TimesRatioExact(srcH, tgtH, srcH);
    TimesRatioExact(srcW, tgtH, srcH);
    CancelQuotient(srcH as real, tgtH as real);
    QuotientAtMost((srcW * tgtH) as real, srcH as real, tgtW as real);
    PositiveQuotient((srcW * tgtH) as real, srcH as real);
  }

  /** pad_box's result exactly: the limiting side is the target side and the
      other is the nearest integer (ties to even) to the source side scaled by
      the limiting ratio, so the source's aspect ratio is kept up to rounding. */
  lemma PadBoxAspect(srcW: Pos, srcH: Pos, tgtW: Pos, tgtH: Pos)
    ensures var (newW, newH) := PadBox(srcW, srcH, tgtW, tgtH);
      if TallerThanTarget(srcW, srcH, tgtW, tgtH) then
        newH == tgtH && newW == Round((srcW * tgtH) as real / srcH as real)
      else
        newW == tgtW && newH == Round((srcH * tgtW) as real / srcW as real)
  {
    PadScale(srcW, srcH, tgtW, tgtH);
    RoundOfInt(tgtW);
    RoundOfInt(tgtH);
  }

  /** `(outer - inner) // 2`. Python's `//` floors; Dafny's `/` is Euclidean,
      and the two agree for the positive divisor 2. The offset is the floor of
      half the room: the left (top) margin is at most the right (bottom) one,
      by at most one pixel. */
  function CenterOffset(outer: int, inner: int): (o: int)
    ensures 2 * o <= outer - inner <= 2 * o + 1
    ensures inner <= outer ==> 0 <= o && o + inner <= outer
    ensures inner <= outer ==> o <= (outer - inner) - o <= o + 1
  {
    (outer - inner) / 2
  }

  /** Where the pad path puts the scaled source on the target canvas. */
  datatype Layout = Layout(newW: int, newH: int, x: int, y: int)

  /** The pad path's numbers: pad_box's size, centred with floor offsets. */
  function PadLayout(srcW: Pos, srcH: Pos, tgtW: Pos, tgtH: Pos): (l: Layout)
    ensures 0 <= l.x && l.x + l.newW <= tgtW
    ensures 0 <= l.y && l.y + l.newH <= tgtH
    ensures 0 <= l.newW && 0 <= l.newH
    ensures l.newW == tgtW || l.newH == tgtH
  {
    var (newW, newH) := PadBox(srcW, srcH, tgtW, tgtH);
    Layout(newW, newH, CenterOffset(tgtW, newW), CenterOffset(tgtH, newH))
  }

  /** 3000x4000 padded into 1080x1080: the scale is min(0.36, 0.27) = 0.27,
      giving 810x1080 at offset (135, 0). */
  lemma PadLayoutExample()
    ensures PadLayout(3000, 4000, 1080, 1080) == Layout(810, 1080, 135, 0)
  {
    PadBoxAspect(3000, 4000, 1080, 1080);
    assert (3000 * 1080) as real / 4000 as real == 810.0;
    RoundOfInt(810);
  }
}
