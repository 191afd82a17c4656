/** Pixel arithmetic shared by both averaging routines: the `int32` running sum
    (`np.zeros(..., dtype='int32')` plus repeated `image_array + image`), and the
    finalisation `(image_array / count).astype('int32')`.
    An image is flattened to its sequence of pixels in row-major order. */
module Pixels {

  import opened Arith

  type Image = seq<int>

  const INT32_MIN: int := -0x8000_0000
  const INT32_MAX: int := 0x7fff_ffff
  const INT32_MODULUS: int := 0x1_0000_0000

  predicate InInt32(v: int) {
    INT32_MIN <= v <= INT32_MAX
  }

  /** Every image has the same number of pixels (the shape precondition the code relies on). */
  predicate SameShape(images: seq<Image>) {
    forall i, j | 0 <= i < |images| && 0 <= j < |images| :: |images[i]| == |images[j]|
  }

  /** The value an `int32` holds after an arithmetic result `x` is stored in it (wrap-around). */
  function Wrap32(x: int): (r: int)
    ensures InInt32(r)
    ensures (x - r) % INT32_MODULUS == 0
  {
    (x - INT32_MIN) % INT32_MODULUS + INT32_MIN
  }

  /** `np.zeros(shape, dtype='int32')`. */
  function Zeros(n: nat): Image {
    seq(n, _ => 0)
  }

  /** `acc + img` on an `int32` accumulator: pixel-wise, wrapping at 32 bits. */
  function AddInt32(acc: Image, img: Image): Image
    requires |img| == |acc|
  {
    seq(|acc|, p requires 0 <= p < |acc| => Wrap32(acc[p] + img[p]))
  }

  function PixelAt(img: Image, p: int): int {
    if 0 <= p < |img| then img[p] else 0
  }

  /** The exact (unbounded) sum of pixel `p` over `images`. */
  function PixelSum(images: seq<Image>, p: int): int
    decreases |images|
  {
    if |images| == 0 then 0
    else PixelSum(images[..|images| - 1], p) + PixelAt(images[|images| - 1], p)
  }

  /** What the `int32` accumulator holds after adding `images` to zeros of `n` pixels. */
  function Accumulated(images: seq<Image>, n: nat): Image {
    seq(n, p => Wrap32(PixelSum(images, p)))
  }

  /** `int(float(s) / d)`: real division followed by a cast that truncates toward zero. */
  function TruncDiv(s: int, d: int): (q: int)
    requires d > 0
    ensures 0 <= s ==> 0 <= q && q * d <= s < q * d + d
    ensures s < 0 ==> q <= 0 && q * d - d < s <= q * d
  {
    if s >= 0 then (DivBounds(s, d); s / d)
    else (DivBounds(-s, d); NegMul((-s) / d, d); -((-s) / d))
  }

  /** `(acc / count).astype('int32')`. */
  function Finalise(acc: Image, count: int): Image
    requires count > 0
  {
    seq(|acc|, p requires 0 <= p < |acc| => TruncDiv(acc[p], count))
  }

  /** The averaged image of a non-empty series of images of `n` pixels. */
  function Average(images: seq<Image>, n: nat): Image
    requires |images| > 0
  {
    Finalise(Accumulated(images, n), |images|)
  }

  // ---------------------------------------------------------------------------
  // int32 wrap-around

  lemma ModShift(x: int, k: int)
    ensures (x + k * INT32_MODULUS) % INT32_MODULUS == x % INT32_MODULUS
  {
    var q, r := x / INT32_MODULUS, x % INT32_MODULUS;
    assert x + k * INT32_MODULUS == (q + k) * INT32_MODULUS + r;
  }

  /** Storing an intermediate sum in an `int32` does not change the final wrapped sum. */
  lemma WrapAdd(a: int, b: int)
    ensures Wrap32(Wrap32(a) + b) == Wrap32(a + b)
  {
    var w := Wrap32(a);
    var k := (a - INT32_MIN) / INT32_MODULUS;
    assert w == a - k * INT32_MODULUS;
    ModShift(a + b - INT32_MIN, -k);
  }

  /** Values already inside the `int32` range are stored unchanged. */
  lemma WrapIdentity(x: int)
    requires InInt32(x)
    ensures Wrap32(x) == x
  {
  }

  // ---------------------------------------------------------------------------
  // Accumulation

  /** One step of the accumulation loop: adding `img` to the accumulator of `images`
      gives the accumulator of `images + [img]`. */
  lemma AccumulateStep(images: seq<Image>, img: Image, n: nat)
    requires |img| == n
    ensures AddInt32(Accumulated(images, n), img) == Accumulated(images + [img], n)
  {
    var ext := images + [img];
    assert ext[..|ext| - 1] == images;
    forall p | 0 <= p < n
      ensures AddInt32(Accumulated(images, n), img)[p] == Accumulated(ext, n)[p]
    {
      WrapAdd(PixelSum(images, p), img[p]);
    }
  }

  /** When no partial sum leaves the `int32` range, the accumulator holds the exact sum. */
  lemma AccumulatedIsExactSum(images: seq<Image>, n: nat)
    requires forall p | 0 <= p < n :: InInt32(PixelSum(images, p))
    ensures forall p | 0 <= p < n :: Accumulated(images, n)[p] == PixelSum(images, p)
  {
    forall p | 0 <= p < n ensures Accumulated(images, n)[p] == PixelSum(images, p) {
      WrapIdentity(PixelSum(images, p));
    }
  }

  lemma {:induction false} PixelSumConcat(s: seq<Image>, t: seq<Image>, p: int)
    ensures PixelSum(s + t, p) == PixelSum(s, p) + PixelSum(t, p)
    decreases |t|
  {
    if |t| == 0 {
      assert s + t == s;
    } else {
      var st := s + t;
      assert st[..|st| - 1] == s + t[..|t| - 1];
      PixelSumConcat(s, t[..|t| - 1], p);
    }
  }

  lemma PixelSumRemove(b: seq<Image>, j: int, p: int)
    requires 0 <= j < |b|
    ensures PixelSum(b, p) == PixelSum(b[..j] + b[j + 1..], p) + PixelAt(b[j], p)
  {
    assert b == b[..j] + ([b[j]] + b[j + 1..]);
    PixelSumConcat(b[..j], [b[j]] + b[j + 1..], p);
    PixelSumConcat([b[j]], b[j + 1..], p);
    PixelSumConcat(b[..j], b[j + 1..], p);
    assert [b[j]][..0] == [];
  }

  lemma MultisetRemove(b: seq<Image>, j: int)
    requires 0 <= j < |b|
    ensures multiset(b[..j] + b[j + 1..]) == multiset(b) - multiset{b[j]}
  {
    assert b == b[..j] + [b[j]] + b[j + 1..];
  }

  /** The sum of a pixel depends only on the multiset of images, not on their order. */
  lemma {:induction false} PixelSumPermutation(a: seq<Image>, b: seq<Image>, p: int)
    requires multiset(a) == multiset(b)
    ensures PixelSum(a, p) == PixelSum(b, p)
    decreases |a|
  {
    if |a| == 0 {
      assert |b| == |multiset(b)| == 0;
    } else {
      var x := a[|a| - 1];
      var front := a[..|a| - 1];
      assert x in multiset(b) by { assert a == front + [x]; }
      var j :| 0 <= j < |b| && b[j] == x;
      MultisetRemove(a, |a| - 1);
      MultisetRemove(b, j);
      assert a[..|a| - 1] + a[|a|..] == front;
      PixelSumPermutation(front, b[..j] + b[j + 1..], p);
      PixelSumRemove(b, j, p);
    }
  }

  /** Accumulation is commutative: the averaged image does not depend on the order
      in which the images were added. */
  lemma AveragePermutation(a: seq<Image>, b: seq<Image>, n: nat)
    requires |a| > 0 && multiset(a) == multiset(b)
    ensures |b| == |a| && Average(b, n) == Average(a, n)
  {
    assert |a| == |multiset(a)| == |multiset(b)| == |b|;
    forall p | 0 <= p < n ensures Accumulated(a, n)[p] == Accumulated(b, n)[p] {
      PixelSumPermutation(a, b, p);
    }
    assert Accumulated(a, n) == Accumulated(b, n);
  }

  lemma {:induction false} PixelSumOfConstant(images: seq<Image>, p: int, v: int)
    requires forall i | 0 <= i < |images| :: PixelAt(images[i], p) == v
    ensures PixelSum(images, p) == |images| * v
    decreases |images|
  {
    if |images| > 0 {
      PixelSumOfConstant(images[..|images| - 1], p, v);
      assert (|images| - 1) * v + v == |images| * v;
    }
  }

  /** Dividing a multiple of `d` by `d` is exact, whatever the sign. */
  lemma TruncDivOfMultiple(d: int, v: int)
    requires d > 0
    ensures TruncDiv(d * v, d) == v
  {
    var q := TruncDiv(d * v, d);
    var k := q - v;
    assert k * d == q * d - v * d;
    if v >= 0 {
      assert 0 <= d * v by { MulAtLeast(v, d); }
      ZeroFactor(k, d);
    } else {
      assert d * v < 0 by { MulAtLeast(-v, d); NegMul(v, d); }
      ZeroFactor(-k, d);
      NegMul(k, d);
    }
  }

  /** Averaging identical constant images returns that constant (no drift), provided
      the running sum stays inside the `int32` range. */
  lemma AverageOfConstant(images: seq<Image>, n: nat, v: int)
    requires |images| > 0
    requires forall i, p | 0 <= i < |images| && 0 <= p < n :: PixelAt(images[i], p) == v
    requires forall k | 0 <= k <= |images| :: InInt32(k * v)
    ensures Average(images, n) == seq(n, _ => v)
  {
    forall p | 0 <= p < n ensures Average(images, n)[p] == v {
      PixelSumOfConstant(images, p, v);
      WrapIdentity(|images| * v);
      TruncDivOfMultiple(|images|, v);
    }
  }

  /** The final cast cannot overflow: every averaged pixel lies in the `int32` range. */
  lemma FinaliseInInt32(acc: Image, count: int)
    requires count > 0
    requires forall p | 0 <= p < |acc| :: InInt32(acc[p])
    ensures forall p | 0 <= p < |acc| :: InInt32(Finalise(acc, count)[p])
  {
    forall p | 0 <= p < |acc| ensures InInt32(Finalise(acc, count)[p]) {
      var s, q := acc[p], TruncDiv(acc[p], count);
      if s >= 0 {
        MulAtLeast(q, count);
      } else {
        MulAtLeast(-q, count);
        NegMul(q, count);
      }
    }
  }

  /** Truncation, not rounding and not floor division: a true average of 2.9 gives 2, and
      -2.9 gives -2 where Dafny's and Python's integer `//` would give -3. */
  lemma TruncationExamples()
    ensures TruncDiv(100, 4) == 25
    ensures TruncDiv(29, 10) == 2
    ensures TruncDiv(-29, 10) == -2 && -29 / 10 == -3
  {
  }
}
