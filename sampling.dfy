/**
 * `calculateInSampleSize`, which GalleryActivity.kt and PhotoAdapter.kt each carry an
 * identical private copy of: the largest power-of-two subsampling factor that keeps a
 * decoded thumbnail at least as large as the requested size.
 */
module Sampling {
  /** Kotlin's `/` on `Int`, which truncates toward zero (bounds are -1 for an undecodable file). */
  function KtDiv(a: int, b: int): (q: int)
    requires b > 0
    ensures a >= 0 ==> q == a / b
    ensures a < 0 ==> q <= 0 && q * b - b < a <= q * b
  {
    if a >= 0 then a / b else -((-a) / b)
  }

  predicate IsPowerOfTwo(n: int)
    decreases if n > 0 then n else 0
  {
    n == 1 || (n > 1 && n % 2 == 0 && IsPowerOfTwo(n / 2))
  }

  /** The image halved and then subsampled by `s` still covers the requested size. */
  predicate StillCovers(halfHeight: int, halfWidth: int, reqWidth: int, reqHeight: int, s: int)
    requires s > 0
  {
    KtDiv(halfHeight, s) >= reqHeight && KtDiv(halfWidth, s) >= reqWidth
  }

  lemma DivAtLeastOne(a: int, b: int)
    requires b > 0 && a >= 0 && a / b >= 1
    ensures b <= a
  {
  }

  /**
   * The loop doubles the factor while the halved image subsampled by it still covers the
   * request, so it stops at the first factor that does not (or keeps 1 when the image
   * already fits). It terminates when either requested dimension is positive, and the
   * factor never exceeds the image's larger side, so Int doubling cannot overflow.
   */
  method CalculateInSampleSize(height: int, width: int, reqWidth: int, reqHeight: int)
    returns (inSampleSize: int)
    requires reqWidth > 0 || reqHeight > 0
    ensures inSampleSize >= 1 && IsPowerOfTwo(inSampleSize)
    ensures height <= reqHeight && width <= reqWidth ==> inSampleSize == 1
    ensures height > reqHeight || width > reqWidth ==>
      !StillCovers(KtDiv(height, 2), KtDiv(width, 2), reqWidth, reqHeight, inSampleSize)
    ensures inSampleSize > 1 ==>
      StillCovers(KtDiv(height, 2), KtDiv(width, 2), reqWidth, reqHeight, inSampleSize / 2)
    ensures inSampleSize == 1 || inSampleSize <= height || inSampleSize <= width
  {
    inSampleSize := 1;
    if height > reqHeight || width > reqWidth {
      var halfHeight := KtDiv(height, 2);
      var halfWidth := KtDiv(width, 2);
      while KtDiv(halfHeight, inSampleSize) >= reqHeight && KtDiv(halfWidth, inSampleSize) >= reqWidth
        invariant inSampleSize >= 1 && IsPowerOfTwo(inSampleSize)
        invariant inSampleSize > 1 ==> StillCovers(halfHeight, halfWidth, reqWidth, reqHeight, inSampleSize / 2)
        invariant inSampleSize == 1 || (reqHeight > 0 && inSampleSize <= height) || (reqWidth > 0 && inSampleSize <= width)
        decreases if reqHeight > 0 then halfHeight - inSampleSize else halfWidth - inSampleSize
      {
        if reqHeight > 0 {
          DivAtLeastOne(halfHeight, inSampleSize);
        } else {
          DivAtLeastOne(halfWidth, inSampleSize);
        }
        assert (inSampleSize * 2) / 2 == inSampleSize;
        inSampleSize := inSampleSize * 2;
      }
    }
  }

  lemma {:induction false} PowersOfTwoOrdered(a: int, b: int)
    requires IsPowerOfTwo(a) && IsPowerOfTwo(b) && a < b
    ensures b > 1 && a <= b / 2
    decreases b
  {
    assert a >= 1 by { PowerOfTwoPositive(a); }
    if a > 1 {
      PowerOfTwoPositive(b / 2);
      PowersOfTwoOrdered(a / 2, b / 2);
    }
  }

  lemma {:induction false} PowerOfTwoPositive(n: int)
    requires IsPowerOfTwo(n)
    ensures n >= 1
  {
  }

  lemma DivAntitone(a: int, x: int, y: int)
    requires a >= 0 && 0 < x <= y
    ensures a / y <= a / x
  {
    var q, p := a / y, a / x;
    assert q >= 0 && q * y <= a;
    MulLeft(q, x, y);
    assert a < (p + 1) * x;
    CancelFactor(q, p + 1, x);
  }

  lemma MulLeft(q: int, x: int, y: int)
    requires q >= 0 && x <= y
    ensures q * x <= q * y
  {
    assert q * y - q * x == q * (y - x);
  }

  lemma CancelFactor(u: int, v: int, x: int)
    requires x > 0 && u * x < v * x
    ensures u < v
  {
    assert (v - u) * x == v * x - u * x;
  }

  /** Covering is preserved by a smaller factor, for positive requests. */
  lemma CoversAtSmallerFactor(halfHeight: int, halfWidth: int, reqWidth: int, reqHeight: int, x: int, y: int)
    requires reqWidth > 0 && reqHeight > 0 && 0 < x <= y
    requires StillCovers(halfHeight, halfWidth, reqWidth, reqHeight, y)
    ensures StillCovers(halfHeight, halfWidth, reqWidth, reqHeight, x)
  {
    DivAntitone(halfHeight, x, y);
    DivAntitone(halfWidth, x, y);
  }

  /**
   * For positive requests the factor is determined by the exit condition: only one
   * power of two stops covering the request while its half still covered it.
   */
  lemma SampleSizeUnique(halfHeight: int, halfWidth: int, reqWidth: int, reqHeight: int, s1: int, s2: int)
    requires reqWidth > 0 && reqHeight > 0
    requires IsPowerOfTwo(s1) && IsPowerOfTwo(s2) && s1 >= 1 && s2 >= 1
    requires !StillCovers(halfHeight, halfWidth, reqWidth, reqHeight, s1)
    requires !StillCovers(halfHeight, halfWidth, reqWidth, reqHeight, s2)
    requires s1 > 1 ==> StillCovers(halfHeight, halfWidth, reqWidth, reqHeight, s1 / 2)
    requires s2 > 1 ==> StillCovers(halfHeight, halfWidth, reqWidth, reqHeight, s2 / 2)
    ensures s1 == s2
  {
    if s1 != s2 {
      var lo, hi := if s1 < s2 then s1 else s2, if s1 < s2 then s2 else s1;
      PowersOfTwoOrdered(lo, hi);
      CoversAtSmallerFactor(halfHeight, halfWidth, reqWidth, reqHeight, lo, hi / 2);
    }
  }
}
