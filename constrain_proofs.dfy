/**
  What `constrain_dimensions` promises: the result fits the box, it touches
  the box when both bounds are given (which is what makes small images grow),
  both axes are scaled by one factor up to a pixel, a single bound never
  enlarges the image beyond the rounding correction, and constraining a
  result again to the same box changes nothing.
 */
module ConstrainProofs {
  import opened PhpMath
  import opened UpscaleImages

  /** Multiplying two non-negative lower bounds gives a lower bound of the product. */
  lemma MulMono(a: real, b: real, c: real, d: real)
    requires 0.0 <= a <= b && 0.0 <= c <= d
    ensures a * c <= b * d
  {
    assert a * c <= b * c;
    assert b * c <= b * d;
  }

  /** Scaling by at most an axis's own ratio keeps that axis inside its bound. */
  lemma ScaleWithinBound(current: nat, max: nat, ratio: real)
    requires max > 0 && 0.0 <= ratio <= AxisRatio(current, max)
    ensures ScaleAxis(current, ratio) <= max
  {
    if current > 0 {
      assert current as real * ratio <= current as real * AxisRatio(current, max);
      IntValBounds(current as real * ratio, max);
    } else {
      IntValOfWhole(0);
    }
  }

  /** Scaling by at least an axis's own ratio reaches that axis's bound. */
  lemma ScaleReachesBound(current: nat, max: nat, ratio: real)
    requires AxisConstrained(current, max) && AxisRatio(current, max) <= ratio
    ensures max <= ScaleAxis(current, ratio)
  {
    assert current as real * AxisRatio(current, max) <= current as real * ratio;
    IntValBounds(current as real * ratio, max);
  }

  /** Scaling by exactly an axis's own ratio lands on its bound. */
  lemma ScaleAtOwnRatio(current: nat, max: nat)
    requires AxisConstrained(current, max)
    ensures ScaleAxis(current, AxisRatio(current, max)) == max
  {
    IntValOfWhole(max);
  }

  /** The fit treats the two axes alike: swapping them swaps the result. */
  lemma ConstrainSwap(cw: nat, ch: nat, mw: nat, mh: nat)
    ensures var r := ConstrainDimensions(cw, ch, mw, mh);
            ConstrainDimensions(ch, cw, mh, mw) == Size(r.h, r.w)
  {
  }

  /**
    When the chosen ratio is 1 the image keeps its size, apart from the
    rounding correction.
   */
  lemma ConstrainAtUnitRatio(cw: nat, ch: nat, mw: nat, mh: nat)
    requires !(mw == 0 && mh == 0) && SnugRatio(cw, ch, mw, mh) == 1.0
    ensures ConstrainDimensions(cw, ch, mw, mh) == Size(BumpAxis(cw, cw, mw), BumpAxis(ch, ch, mh))
  {
    ConstrainAtRatio(cw, ch, mw, mh, 1.0);
    IntValOfWhole(cw);
    IntValOfWhole(ch);
  }

  /** The fit at a ratio already known: each axis scaled by it, truncated and corrected. */
  lemma ConstrainAtRatio(cw: nat, ch: nat, mw: nat, mh: nat, k: real)
    requires !(mw == 0 && mh == 0) && SnugRatio(cw, ch, mw, mh) == k
    ensures ConstrainDimensions(cw, ch, mw, mh) == Size(BumpAxis(ScaleAxis(cw, k), cw, mw), BumpAxis(ScaleAxis(ch, k), ch, mh))
  {
  }

  /** The result fits the box on every axis that has a bound. */
  lemma ConstrainFitsBox(cw: nat, ch: nat, mw: nat, mh: nat)
    ensures var r := ConstrainDimensions(cw, ch, mw, mh);
            (mw > 0 ==> r.w <= mw) && (mh > 0 ==> r.h <= mh)
  {
    if mw == 0 && mh == 0 { return; }
    var wr, hr := AxisRatio(cw, mw), AxisRatio(ch, mh);
    var larger := Max(wr, hr);
    if Overflows(cw, ch, mw, mh, larger) {
      var smaller := Min(wr, hr);
      if mw > 0 { ScaleWithinBound(cw, mw, smaller); }
      if mh > 0 { ScaleWithinBound(ch, mh, smaller); }
    }
  }

  /**
    With both bounds and a non-empty image, the result touches the box on at
    least one axis: it is enlarged or reduced until it meets a side.
   */
  lemma ConstrainTouchesBox(cw: nat, ch: nat, mw: nat, mh: nat)
    requires cw > 0 && ch > 0 && mw > 0 && mh > 0
    ensures var r := ConstrainDimensions(cw, ch, mw, mh);
            r.w == mw || r.h == mh
  {
    var wr, hr := AxisRatio(cw, mw), AxisRatio(ch, mh);
    var larger, smaller := Max(wr, hr), Min(wr, hr);
    if !Overflows(cw, ch, mw, mh, larger) {
      ScaleReachesBound(cw, mw, larger);
    } else if smaller == wr {
      ScaleAtOwnRatio(cw, mw);
    } else {
      ScaleAtOwnRatio(ch, mh);
    }
  }

  /**
    Both axes are scaled by the same factor, so the aspect ratio survives up
    to one pixel per axis (truncation loses less than one, the correction adds
    exactly one).
   */
  lemma ConstrainKeepsAspect(cw: nat, ch: nat, mw: nat, mh: nat)
    requires mw > 0 || mh > 0
    ensures var r := ConstrainDimensions(cw, ch, mw, mh);
            var k := SnugRatio(cw, ch, mw, mh);
            && 0.0 < k
            && r.w as real - 1.0 <= cw as real * k < r.w as real + 1.0
            && r.h as real - 1.0 <= ch as real * k < r.h as real + 1.0
  {
    var k := SnugRatio(cw, ch, mw, mh);
    ScaledWithinPixel(cw, mw, k);
    ScaledWithinPixel(ch, mh, k);
  }

  /** One axis scaled, truncated and corrected is within a pixel of the exact product. */
  lemma ScaledWithinPixel(current: nat, max: nat, k: real)
    requires 0.0 <= k
    ensures var v := BumpAxis(ScaleAxis(current, k), current, max);
            v as real - 1.0 <= current as real * k < v as real + 1.0
  {
    assert 0.0 <= current as real * k;
  }

  /** With a height bound only, the larger ratio always overflows the unbounded width. */
  lemma HeightOnlyRatio(cw: nat, ch: nat, mh: nat)
    requires cw > 0 && ch > 0 && mh > 0
    ensures SnugRatio(cw, ch, 0, mh) == Min(1.0, mh as real / ch as real)
  {
    var larger := Max(1.0, AxisRatio(ch, mh));
    IntValBounds(cw as real * larger, 0);
  }

  /**
    With a height bound only, the width is unbounded, so the larger ratio
    always overflows it: the height is reduced to the bound but never enlarged,
    except that an image one pixel short of the bound is raised to it, and the
    width is kept whenever the height is not reduced.
   */
  lemma ConstrainHeightOnly(cw: nat, ch: nat, mh: nat)
    requires cw > 0 && ch > 0 && mh > 0
    ensures SnugRatio(cw, ch, 0, mh) == Min(1.0, mh as real / ch as real)
    ensures var r := ConstrainDimensions(cw, ch, 0, mh);
            && r.w <= cw
            && (ch <= mh ==> r.w == cw)
            && r.h == (if ch >= mh || ch == mh - 1 then mh else ch)
  {
    HeightOnlyRatio(cw, ch, mh);
    if ch <= mh {
      HeightOnlyKeeps(cw, ch, mh);
    } else {
      HeightOnlyShrinks(cw, ch, mh);
    }
  }

  /** A height within its bound: the ratio is 1 and only the correction can change the height. */
  lemma HeightOnlyKeeps(cw: nat, ch: nat, mh: nat)
    requires cw > 0 && 0 < ch <= mh
    ensures ConstrainDimensions(cw, ch, 0, mh) == Size(cw, BumpAxis(ch, ch, mh))
  {
    HeightOnlyRatio(cw, ch, mh);
    RatioAtLeastOne(ch, mh);
    assert SnugRatio(cw, ch, 0, mh) == 1.0;
    ConstrainAtUnitRatio(cw, ch, 0, mh);
  }

  /** A height above its bound is reduced to it, and the width by the same factor. */
  lemma HeightOnlyShrinks(cw: nat, ch: nat, mh: nat)
    requires cw > 0 && 0 < mh < ch
    ensures var r := ConstrainDimensions(cw, ch, 0, mh);
            r.w <= cw && r.h == mh
  {
    var s := AxisRatio(ch, mh);
    HeightOnlyRatio(cw, ch, mh);
    RatioBelowOne(ch, mh);
    assert SnugRatio(cw, ch, 0, mh) == s;
    ConstrainAtRatio(cw, ch, 0, mh, s);
    ScaleAtOwnRatio(ch, mh);
    assert AxisRatio(cw, cw) == 1.0;
    ScaleWithinBound(cw, cw, s);
  }

  /** The width-only case mirrors ConstrainHeightOnly. */
  lemma ConstrainWidthOnly(cw: nat, ch: nat, mw: nat)
    requires cw > 0 && ch > 0 && mw > 0
    ensures SnugRatio(cw, ch, mw, 0) == Min(1.0, mw as real / cw as real)
    ensures var r := ConstrainDimensions(cw, ch, mw, 0);
            && r.h <= ch
            && (cw <= mw ==> r.h == ch)
            && r.w == (if cw >= mw || cw == mw - 1 then mw else cw)
  {
    ConstrainHeightOnly(ch, cw, mw);
    ConstrainSwap(ch, cw, 0, mw);
  }

  /** A zero-width image with a height bound is given exactly the bound's height. */
  lemma ConstrainZeroWidth(ch: nat, mw: nat, mh: nat)
    requires ch > 0 && mh > 0
    ensures ConstrainDimensions(0, ch, mw, mh) == Size(0, mh)
  {
    var hr := AxisRatio(ch, mh);
    IntValOfWhole(0);
    ScaleAtOwnRatio(ch, mh);
    if ch <= mh {
      RatioAtLeastOne(ch, mh);
      assert !Overflows(0, ch, mw, mh, hr);
    } else {
      RatioBelowOne(ch, mh);
      IntValOfWhole(ch);
      assert Overflows(0, ch, mw, mh, 1.0);
    }
    ConstrainAtRatio(0, ch, mw, mh, hr);
  }

  /**
    First round with both bounds set and the width binding: the width lands on
    its bound, and a height below its bound is small enough that the height's
    own ratio overflows the width on a second round.
   */
  lemma WidthBindsRound(cw: nat, ch: nat, mw: nat, mh: nat)
    requires cw > 0 && ch > 0 && mw > 0 && mh > 0
    requires AxisRatio(cw, mw) <= AxisRatio(ch, mh)
    ensures var r := ConstrainDimensions(cw, ch, mw, mh);
            && r.w == mw && 0 <= r.h <= mh
            && (0 < r.h < mh ==> (mw + 1) as real <= mw as real * AxisRatio(r.h, mh))
  {
    var wr, hr := AxisRatio(cw, mw), AxisRatio(ch, mh);
    assert Max(wr, hr) == hr && Min(wr, hr) == wr;
    ScaleAtOwnRatio(ch, mh);
    ScaleAtOwnRatio(cw, mw);
    if !Overflows(cw, ch, mw, mh, hr) {
      ScaleReachesBound(cw, mw, hr);
    } else {
      var h0 := ScaleAxis(ch, wr);
      ScaleWithinBound(ch, mh, wr);
      assert ConstrainDimensions(cw, ch, mw, mh) == Size(mw, BumpAxis(h0, ch, mh));
      if 0 < h0 < mh {
        assert h0 as real <= ch as real * wr;
        // The larger ratio overflowed the width: cw * hr >= mw + 1.
        assert (mw + 1) as real <= cw as real * hr by {
          IntValBounds(cw as real * hr, mw);
        }
        ProductOfOwnRatios(cw, ch, mw, mh);
        ShortHeightOverflowsWidth(mw, h0, mh, ch as real * wr, cw as real * hr);
      }
    }
  }

  lemma ProductOfOwnRatios(cw: nat, ch: nat, mw: nat, mh: nat)
    requires cw > 0 && ch > 0 && mw > 0 && mh > 0
    ensures (ch as real * AxisRatio(cw, mw)) * (cw as real * AxisRatio(ch, mh)) == mw as real * mh as real
  {
    var wr, hr := AxisRatio(cw, mw), AxisRatio(ch, mh);
    calc {
      (ch as real * wr) * (cw as real * hr);
      (cw as real * wr) * (ch as real * hr);
      mw as real * mh as real;
    }
  }

  /**
    A height `h` truncated from `a`, where `a * b == mw * mh` and `b` is at
    least `mw + 1`: its own ratio to the height bound overflows the width.
   */
  lemma ShortHeightOverflowsWidth(mw: nat, h: nat, mh: nat, a: real, b: real)
    requires mw > 0 && 0 < h < mh
    requires h as real <= a && (mw + 1) as real <= b && a * b == mw as real * mh as real
    ensures (mw + 1) as real <= mw as real * AxisRatio(h, mh)
  {
    // h * (mw + 1) <= a * b == mw * mh
    MulMono(h as real, a, (mw + 1) as real, b);
    HeightRatioOverflowsWidth(mw, h, mh);
  }

  /** A bound at or above the current extent gives a ratio of at least 1. */
  lemma RatioAtLeastOne(current: nat, max: nat)
    requires 0 < current <= max
    ensures 1.0 <= AxisRatio(current, max)
  {
    if current < max {
      RatioAboveOne(current, max);
    } else {
      assert AxisRatio(max, max) == 1.0;
    }
  }

  /** A bound below the current extent gives a ratio below 1. */
  lemma RatioBelowOne(current: nat, max: nat)
    requires 0 < max < current
    ensures AxisRatio(current, max) < 1.0
  {
    var r := AxisRatio(current, max);
    if 1.0 <= r {
      MulMono(current as real, current as real, 1.0, r);
    }
  }

  /** A bound above the current extent gives a ratio above 1. */
  lemma RatioAboveOne(current: nat, max: nat)
    requires 0 < current < max
    ensures 1.0 < AxisRatio(current, max)
  {
    var r := AxisRatio(current, max);
    if r <= 1.0 {
      MulMono(current as real, current as real, r, 1.0);
    }
  }

  /** The ratio that would bring a small enough height to its bound overflows a width already on its bound. */
  lemma HeightRatioOverflowsWidth(mw: nat, h: nat, mh: nat)
    requires mw > 0 && 0 < h < mh && h as real * (mw + 1) as real <= mw as real * mh as real
    ensures (mw + 1) as real <= mw as real * AxisRatio(h, mh)
  {
    var hr := AxisRatio(h, mh);
    assert (mw as real * hr) * h as real == mw as real * mh as real;
  }

  /**
    A width on its bound and a height on its bound, or below it and small
    enough that the height ratio overflows the width, is left as it is.
   */
  lemma StableOnWidthBound(mw: nat, h: nat, mh: nat)
    requires mw > 0 && h <= mh && h != mh - 1
    requires 0 < h < mh ==> (mw + 1) as real <= mw as real * AxisRatio(h, mh)
    ensures ConstrainDimensions(mw, h, mw, mh) == Size(mw, h)
  {
    UnitRatioOnWidthBound(mw, h, mh);
    ConstrainAtUnitRatio(mw, h, mw, mh);
  }

  /** Under the conditions of StableOnWidthBound the fit chooses the ratio 1. */
  lemma UnitRatioOnWidthBound(mw: nat, h: nat, mh: nat)
    requires mw > 0 && h <= mh
    requires 0 < h < mh ==> (mw + 1) as real <= mw as real * AxisRatio(h, mh)
    ensures SnugRatio(mw, h, mw, mh) == 1.0
  {
    if h == mh {
      UnitRatioOnBox(mw, mh);
    } else if h == 0 {
      UnitRatioEmptyHeight(mw, mh);
    } else {
      UnitRatioShortHeight(mw, h, mh);
    }
  }

  lemma UnitRatioOnBox(mw: nat, mh: nat)
    requires mw > 0
    ensures SnugRatio(mw, mh, mw, mh) == 1.0
  {
    assert AxisRatio(mw, mw) == 1.0 && AxisRatio(mh, mh) == 1.0;
    IntValOfWhole(mw);
    IntValOfWhole(mh);
  }

  lemma UnitRatioEmptyHeight(mw: nat, mh: nat)
    requires mw > 0
    ensures SnugRatio(mw, 0, mw, mh) == 1.0
  {
    assert AxisRatio(mw, mw) == 1.0 && AxisRatio(0, mh) == 1.0;
    IntValOfWhole(mw);
    IntValOfWhole(0);
  }

  lemma UnitRatioShortHeight(mw: nat, h: nat, mh: nat)
    requires mw > 0 && 0 < h < mh
    requires (mw + 1) as real <= mw as real * AxisRatio(h, mh)
    ensures SnugRatio(mw, h, mw, mh) == 1.0
  {
    var hr := AxisRatio(h, mh);
    assert AxisRatio(mw, mw) == 1.0;
    RatioAboveOne(h, mh);
    IntValBounds(mw as real * hr, mw);
    assert Overflows(mw, h, mw, mh, Max(1.0, hr));
  }

  /** Idempotence when both bounds are set and the width is the axis that binds. */
  lemma IdempotentWidthBinds(cw: nat, ch: nat, mw: nat, mh: nat)
    requires cw > 0 && ch > 0 && mw > 0 && mh > 0
    requires AxisRatio(cw, mw) <= AxisRatio(ch, mh)
    ensures var r := ConstrainDimensions(cw, ch, mw, mh);
            ConstrainDimensions(r.w, r.h, mw, mh) == r
  {
    var r := ConstrainDimensions(cw, ch, mw, mh);
    WidthBindsRound(cw, ch, mw, mh);
    StableOnWidthBound(mw, r.h, mh);
  }

  /** A non-empty image within a height-only bound, not one pixel short of it, is left as it is. */
  lemma StableUnderHeightBound(w: nat, h: nat, mh: nat)
    requires w > 0 && 0 < h <= mh && h != mh - 1
    ensures ConstrainDimensions(w, h, 0, mh) == Size(w, h)
  {
    var hr := AxisRatio(h, mh);
    RatioAtLeastOne(h, mh);
    assert Max(1.0, hr) == hr && Min(1.0, hr) == 1.0;
    MulMono(1.0, hr, w as real, w as real);
    IntValBounds(w as real * hr, 0);
    assert Overflows(w, h, 0, mh, hr);
    ConstrainAtUnitRatio(w, h, 0, mh);
  }

  /** Idempotence when only the height is bounded and the image is not empty. */
  lemma IdempotentHeightOnly(cw: nat, ch: nat, mh: nat)
    requires cw > 0 && ch > 0 && mh > 0
    ensures var r := ConstrainDimensions(cw, ch, 0, mh);
            ConstrainDimensions(r.w, r.h, 0, mh) == r
  {
    var r := ConstrainDimensions(cw, ch, 0, mh);
    ConstrainHeightOnly(cw, ch, mh);
    if ch <= mh {
      StableUnderHeightBound(cw, r.h, mh);
    } else if r.w == 0 {
      ConstrainZeroWidth(mh, 0, mh);
    } else {
      StableUnderHeightBound(r.w, mh, mh);
    }
  }

  /** An image with a zero side is left alone or given the bound on its other side, and that is stable. */
  lemma IdempotentZeroSide(cw: nat, ch: nat, mw: nat, mh: nat)
    requires cw == 0 && !(mw == 0 && mh == 0)
    ensures var r := ConstrainDimensions(cw, ch, mw, mh);
            ConstrainDimensions(r.w, r.h, mw, mh) == r
  {
    IntValOfWhole(0);
    IntValOfWhole(ch);
    if ch > 0 && mh > 0 {
      ConstrainZeroWidth(ch, mw, mh);
      ConstrainZeroWidth(mh, mw, mh);
    } else if ch > 0 {
      assert Overflows(0, ch, mw, mh, 1.0);
      ConstrainAtUnitRatio(0, ch, mw, mh);
    } else {
      ConstrainAtUnitRatio(0, 0, mw, mh);
    }
  }

  /**
    Constraining a result again to the same box gives the same result: the
    rounding correction's stated purpose, here holding for every input.
   */
  lemma ConstrainIdempotent(cw: nat, ch: nat, mw: nat, mh: nat)
    ensures var r := ConstrainDimensions(cw, ch, mw, mh);
            ConstrainDimensions(r.w, r.h, mw, mh) == r
  {
    var r := ConstrainDimensions(cw, ch, mw, mh);
    if mw == 0 && mh == 0 {
    } else if cw == 0 {
      IdempotentZeroSide(cw, ch, mw, mh);
    } else if ch == 0 {
      IdempotentZeroSide(ch, cw, mh, mw);
      ConstrainSwap(cw, ch, mw, mh);
      ConstrainSwap(r.w, r.h, mw, mh);
    } else if mw > 0 && mh > 0 {
      if AxisRatio(cw, mw) <= AxisRatio(ch, mh) {
        IdempotentWidthBinds(cw, ch, mw, mh);
      } else {
        IdempotentWidthBinds(ch, cw, mh, mw);
        ConstrainSwap(cw, ch, mw, mh);
        ConstrainSwap(r.w, r.h, mw, mh);
      }
    } else if mw == 0 {
      IdempotentHeightOnly(cw, ch, mh);
    } else {
      IdempotentHeightOnly(ch, cw, mw);
      ConstrainSwap(cw, ch, mw, mh);
      ConstrainSwap(r.w, r.h, mw, mh);
    }
  }

  /** The regression case behind the rounding correction: 465×700 in a 177×177 box is 117×177. */
  lemma ConstrainTallIntoSquare()
    ensures ConstrainDimensions(465, 700, 177, 177) == Size(117, 177)
  {
    var wr, hr := AxisRatio(465, 177), AxisRatio(700, 177);
    assert wr == 177.0 / 465.0 && hr == 177.0 / 700.0;
    assert Max(wr, hr) == wr && Min(wr, hr) == hr;
    IntValOfWhole(177);
    IntValBounds(700.0 * wr, 177);
    assert Overflows(465, 700, 177, 177, wr);
    assert 465.0 * hr == 82305.0 / 700.0;
    IntValBounds(465.0 * hr, 117);
    IntValBounds(465.0 * hr, 116);
  }

  /** A height bound alone shrinks 800×600 to 400×300. */
  lemma ConstrainHeightBoundOnly()
    ensures ConstrainDimensions(800, 600, 0, 300) == Size(400, 300)
  {
    assert AxisRatio(800, 0) == 1.0 && AxisRatio(600, 300) == 0.5;
    IntValOfWhole(800);
    assert Overflows(800, 600, 0, 300, 1.0);
    assert 800.0 * 0.5 == 400.0 && 600.0 * 0.5 == 300.0;
    IntValOfWhole(400);
    IntValOfWhole(300);
  }
}
