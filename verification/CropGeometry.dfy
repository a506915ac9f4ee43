/** Crop rectangles and plane layouts of YU12 frames. Aspect ratios are exact rationals. */
module CropGeometry {

  datatype CroppingType = HORIZONTAL | VERTICAL

  datatype Size = Size(width: nat, height: nat)

  datatype Rect = Rect(left: int, top: int, width: int, height: int)

  datatype Option<T> = None | Some(value: T)

  /** Offsets of the three planes in the frame's data, and the distance of their rows. */
  datatype Layout = Layout(y: int, cb: int, cr: int, yStride: nat, cStride: nat)

  // ---------------------------------------------------------------- crop rectangles

  predicate Positive(s: Size) { s.width > 0 && s.height > 0 }

  predicate Even(s: Size) { s.width % 2 == 0 && s.height % 2 == 0 }

  function Abs(x: int): nat { if x < 0 then -x else x }

  /** |a.width / a.height - b.width / b.height| < 0.025 */
  predicate AspectRatioClose(a: Size, b: Size) {
    40 * Abs(a.width * b.height - b.width * a.height) < a.height * b.height
  }

  /** Close means that the two quotients themselves are less than 0.025 apart. */
  lemma {:induction false} AspectRatioCloseExactly(a: Size, b: Size)
    requires Positive(a) && Positive(b)
    ensures var d := a.width as real / a.height as real - b.width as real / b.height as real;
            AspectRatioClose(a, b) <==> -0.025 < d && d < 0.025
  {
    var h, k := a.height as real, b.height as real;
    var p, q := a.width as real / h, b.width as real / k;
    var n, m := a.width * b.height - b.width * a.height, a.height * b.height;
    assert a.width as real == p * h && b.width as real == q * k;
    assert m as real == h * k && h * k > 0.0 by { Products(a.height, b.height); }
    assert n as real == (p - q) * (h * k) by {
      Products(a.width, b.height);
      Products(b.width, a.height);
      assert p * h * k - q * k * h == (p - q) * (h * k);
    }
    QuotientWithin(n, m, p - q);
  }

  /** n == d * m, in reals. */
  lemma {:induction false} QuotientWithin(n: int, m: nat, d: real)
    requires m > 0 && n as real == d * m as real
    ensures 40 * Abs(n) < m <==> -0.025 < d && d < 0.025
  {
    QuotientBelow(n, m, d);
    QuotientBelow(-n, m, -d);
  }

  lemma {:induction false} QuotientBelow(n: int, m: nat, d: real)
    requires m > 0 && n as real == d * m as real
    ensures 40 * n < m <==> d < 0.025
  {
    var r := m as real;
    assert (40 * n) as real == 40.0 * (d * r);
    if d < 0.025 {
      RealMono(d, 0.025, r);
    } else if d > 0.025 {
      RealMono(0.025, d, r);
    }
  }

  /** Sizes of the ratios 4:3, 16:9, 2:1 and 20:9 are close only if they have the same ratio. */
  lemma {:induction false} RatiosToldApart(a: Size, b: Size, i: nat, j: nat)
    requires Positive(a) && Positive(b) && i < 4 && j < 4
    requires var r := [(4, 3), (16, 9), (2, 1), (20, 9)];
             && a.width * r[i].1 == a.height * r[i].0
             && b.width * r[j].1 == b.height * r[j].0
    ensures AspectRatioClose(a, b) <==> i == j
  {
    var r := [(4, 3), (16, 9), (2, 1), (20, 9)];
    AspectRatioCloseExactly(a, b);
    ExactRatio(a, r[i].0, r[i].1);
    ExactRatio(b, r[j].0, r[j].1);
  }

  lemma {:induction false} ExactRatio(s: Size, p: nat, q: nat)
    requires Positive(s) && q > 0 && s.width * q == s.height * p
    ensures s.width as real / s.height as real == p as real / q as real
  {
    Products(s.width, q);
    Products(s.height, p);
    CrossDivided(s.width as real, s.height as real, p as real, q as real);
  }

  lemma {:induction false} CrossDivided(w: real, h: real, x: real, y: real)
    requires h > 0.0 && y > 0.0 && w * y == h * x
    ensures w / h == x / y
  {
    var a, b, d := w / h, x / y, h * y;
    assert w == a * h && x == b * y;
    assert a * d == b * d;
    if a < b { RealMono(a, b, d); } else if b < a { RealMono(b, a, d); }
  }

  /** x & ~0x1 */
  function EvenPart(x: nat): nat { x - x % 2 }

  /** a * b / c in 64 bits, rounded down. */
  function MulDiv(a: nat, b: nat, c: nat): nat
    requires c > 0
  {
    a * b / c
  }

  function GetCropRect(ct: CroppingType, inSz: Size, outSz: Size): Option<Rect>
    requires Positive(inSz) && Positive(outSz)
  {
    if AspectRatioClose(inSz, outSz) then Some(Rect(0, 0, inSz.width, inSz.height))
    else if ct == VERTICAL then
      var scaledOutH := MulDiv(outSz.height, inSz.width, outSz.width);
      if scaledOutH > inSz.height then None
      else
        var h := EvenPart(scaledOutH);
        Some(Rect(0, EvenPart((inSz.height - h) / 2), inSz.width, h))
    else
      var scaledOutW := MulDiv(outSz.width, inSz.height, outSz.height);
      if scaledOutW > inSz.width then None
      else
        var w := EvenPart(scaledOutW);
        Some(Rect(EvenPart((inSz.width - w) / 2), 0, w, inSz.height))
  }

  predicate Inside(r: Rect, s: Size) {
    && 0 <= r.left && 0 <= r.width && r.left + r.width <= s.width
    && 0 <= r.top && 0 <= r.height && r.top + r.height <= s.height
  }

  predicate EvenRect(r: Rect) {
    r.left % 2 == 0 && r.top % 2 == 0 && r.width % 2 == 0 && r.height % 2 == 0
  }

  /** off even, and as near the middle of the free space as an even number can be. */
  predicate Centred(off: int, free: int) {
    off % 2 == 0 && 2 * off <= free < 2 * off + 4
  }

  /** part is the largest even number with part / whole <= num / den. */
  predicate Scaled(part: int, whole: int, num: int, den: int) {
    part % 2 == 0 && part * den <= num * whole < (part + 2) * den
  }

  /** A crop succeeds exactly when the ratios are close, as AspectRatioCloseExactly says, or the
      frame of the output's ratio fits into the input, to within one row or column. */
  lemma {:induction false} CropSucceedsExactly(ct: CroppingType, inSz: Size, outSz: Size)
    requires Positive(inSz) && Positive(outSz)
    ensures GetCropRect(ct, inSz, outSz).Some?
       <==> || AspectRatioClose(inSz, outSz)
            || (ct == VERTICAL && outSz.height * inSz.width < (inSz.height + 1) * outSz.width)
            || (ct == HORIZONTAL && outSz.width * inSz.height < (inSz.width + 1) * outSz.height)
  {
    QuotientAtMost(outSz.height * inSz.width, outSz.width, inSz.height);
    QuotientAtMost(outSz.width * inSz.height, outSz.height, inSz.width);
  }

  lemma {:induction false} QuotientAtMost(a: nat, d: nat, q: nat)
    requires d > 0
    ensures a / d <= q <==> a < (q + 1) * d
  {
    var p, r := a / d, a % d;
    assert a == p * d + r;
    if p <= q {
      assert p * d <= q * d by { MulMono(p, q, d); }
    } else {
      assert (q + 1) * d <= p * d by { MulMono(q + 1, p, d); }
    }
  }

  lemma {:induction false} Distribute(a: int, b: int)
    ensures (a + 1) * b == a * b + b
  {
  }

  lemma {:induction false} MulMono(a: int, b: int, d: nat)
    requires a <= b
    ensures a * d <= b * d
  {
  }

  /** The rectangle of a crop lies inside the frame, keeps one side whole, has the output's ratio
      to within two pixels and is centred; for an even frame it is even. */
  lemma {:induction false} CropIsRight(ct: CroppingType, inSz: Size, outSz: Size)
    requires Positive(inSz) && Positive(outSz) && GetCropRect(ct, inSz, outSz).Some?
    ensures var r := GetCropRect(ct, inSz, outSz).value;
            && Inside(r, inSz)
            && (Even(inSz) ==> EvenRect(r))
            && (if AspectRatioClose(inSz, outSz) then r == Rect(0, 0, inSz.width, inSz.height)
                else if ct == VERTICAL then
                  && r.left == 0 && r.width == inSz.width
                  && Scaled(r.height, inSz.width, outSz.height, outSz.width)
                  && Centred(r.top, inSz.height - r.height)
                else
                  && r.top == 0 && r.height == inSz.height
                  && Scaled(r.width, inSz.height, outSz.width, outSz.height)
                  && Centred(r.left, inSz.width - r.width))
  {
    if !AspectRatioClose(inSz, outSz) {
      if ct == VERTICAL {
        CroppedSide(outSz.height, inSz.width, outSz.width, inSz.height);
      } else {
        CroppedSide(outSz.width, inSz.height, outSz.height, inSz.width);
      }
    }
  }

  /** The side that is cropped. */
  lemma {:induction false} CroppedSide(num: nat, whole: nat, den: nat, limit: nat)
    requires den > 0 && MulDiv(num, whole, den) <= limit
    ensures var part := EvenPart(MulDiv(num, whole, den));
            var off := EvenPart((limit - part) / 2);
            && 0 <= part && 0 <= off && off + part <= limit
            && Scaled(part, whole, num, den) && Centred(off, limit - part)
  {
    EvenQuotient(num, whole, den);
    EvenHalf(limit - EvenPart(MulDiv(num, whole, den)));
  }

  lemma {:induction false} EvenHalf(free: nat)
    ensures Centred(EvenPart(free / 2), free)
  {
  }

  lemma {:induction false} EvenQuotient(num: nat, whole: nat, den: nat)
    requires den > 0
    ensures Scaled(EvenPart(MulDiv(num, whole, den)), whole, num, den)
  {
    var a := num * whole;
    var q := a / den;
    var p := EvenPart(q);
    assert a == q * den + a % den;
    assert p * den <= q * den by { MulMono(p, q, den); }
    assert (q + 1) * den <= (p + 2) * den by { MulMono(q + 1, p + 2, den); }
    assert (q + 1) * den == q * den + den;
  }

  /** The crop is empty, though reported as a success, exactly when the output is so flat, or so
      narrow, that less than two rows or columns of the input are left. */
  lemma {:induction false} CropIsEmptyExactly(ct: CroppingType, inSz: Size, outSz: Size)
    requires Positive(inSz) && Positive(outSz) && GetCropRect(ct, inSz, outSz).Some?
    ensures var r := GetCropRect(ct, inSz, outSz).value;
            (r.width == 0 || r.height == 0)
            <==> && !AspectRatioClose(inSz, outSz)
                 && if ct == VERTICAL then outSz.height * inSz.width < 2 * outSz.width
                    else outSz.width * inSz.height < 2 * outSz.height
  {
    if ct == VERTICAL {
      EmptyPart(outSz.height, inSz.width, outSz.width);
    } else {
      EmptyPart(outSz.width, inSz.height, outSz.height);
    }
  }

  lemma {:induction false} EmptyPart(num: nat, whole: nat, den: nat)
    requires den > 0
    ensures EvenPart(MulDiv(num, whole, den)) == 0 <==> num * whole < 2 * den
  {
    QuotientAtMost(num * whole, den, 1);
  }

  // ---------------------------------------------------------------- frames

  const TWO32 := 0x1_0000_0000

  /** An allocated YU12 frame; its size is in 32 bits. */
  class AllocatedFrame {
    const mWidth: nat
    const mHeight: nat
    var mData: seq<int>

    constructor (w: nat, h: nat)
      ensures mWidth == w && mHeight == h && mData == []
    {
      mWidth, mHeight, mData := w, h, [];
    }

    /** Every product is taken modulo 2^32. */
    method Allocate() returns (ret: int, out: Layout)
      modifies this
      ensures ret == if Even(Size(mWidth, mHeight)) then 0 else -22  // -EINVAL
      ensures ret == 0 ==> mData == Resized(old(mData), FrameBytes(mWidth, mHeight))
      ensures ret == 0 ==>
                out == Layout(0, mWidth * mHeight % TWO32,
                              mWidth * mHeight % TWO32 + mWidth * mHeight % TWO32 / 4,
                              mWidth, mWidth / 2)
      ensures ret != 0 ==> mData == old(mData)
    {
      out := Layout(0, 0, 0, 0, 0);
      if mWidth % 2 != 0 || mHeight % 2 != 0 { return -22, out; }
      var dataSize := FrameBytes(mWidth, mHeight);
      if |mData| != dataSize {
        mData := Resized(mData, dataSize);
      }
      var cbStart := mWidth * mHeight % TWO32;
      var crStart := cbStart + mWidth * mHeight % TWO32 / 4;
      out := Layout(0, cbStart, crStart, mWidth, mWidth / 2);
      ret := 0;
    }

    method GetLayout() returns (out: Option<Layout>)
      ensures out == CroppedLayout(Size(mWidth, mHeight), Rect(0, 0, mWidth, mHeight))
    {
      out := GetCroppedLayout(Rect(0, 0, mWidth, mHeight));
    }

    /** Refused is a window beyond the right or lower edge, or with an odd number. */
    method GetCroppedLayout(rect: Rect) returns (out: Option<Layout>)
      ensures out.None? <==> || rect.left + rect.width > mWidth || rect.top + rect.height > mHeight
                             || rect.left % 2 != 0 || rect.top % 2 != 0
                             || rect.width % 2 != 0 || rect.height % 2 != 0
      ensures out == CroppedLayout(Size(mWidth, mHeight), rect)
    {
      if rect.left + rect.width > mWidth || rect.top + rect.height > mHeight
         || rect.left % 2 != 0 || rect.top % 2 != 0 || rect.width % 2 != 0 || rect.height % 2 != 0
      {
        return None;
      }
      var cbStart := mWidth * mHeight;
      var crStart := cbStart + mWidth * mHeight / 4;
      var chroma := mWidth * rect.top / 4 + rect.left / 2;
      out := Some(Layout(mWidth * rect.top + rect.left, cbStart + chroma, crStart + chroma,
                         mWidth, mWidth / 2));
    }
  }

  /** What resize makes of the data: cut, or filled up with zeros. */
  function Resized(data: seq<int>, size: nat): (r: seq<int>)
    ensures |r| == size
    ensures forall i :: 0 <= i < size ==> r[i] == if i < |data| then data[i] else 0
  {
    if size <= |data| then data[..size]
    else data + seq(size - |data|, i requires 0 <= i < size - |data| => 0)
  }

  /** mWidth * mHeight * 3 / 2 in 32 bits. */
  function FrameBytes(w: nat, h: nat): nat {
    (w * h % TWO32) * 3 % TWO32 / 2
  }

  function CroppedLayout(s: Size, rect: Rect): Option<Layout> {
    if rect.left + rect.width > s.width || rect.top + rect.height > s.height || !EvenRect(rect)
    then None
    else
      var cbStart := s.width * s.height;
      var crStart := cbStart + s.width * s.height / 4;
      var chroma := s.width * rect.top / 4 + rect.left / 2;
      Some(Layout(s.width * rect.top + rect.left, cbStart + chroma, crStart + chroma,
                  s.width, s.width / 2))
  }

  /** A frame has its w * h * 3 / 2 bytes exactly when that does not overflow 32 bits. */
  lemma {:induction false} FrameBytesExactly(w: nat, h: nat)
    requires w % 2 == 0 && h % 2 == 0
    ensures FrameBytes(w, h) == w * h * 3 / 2 <==> w * h * 3 < TWO32
  {
    var n := w * h;
    assert (n % TWO32) * 3 % TWO32 == n * 3 % TWO32 by {
      var q := n / TWO32;
      assert n == q * TWO32 + n % TWO32;
      assert n * 3 == (n % TWO32) * 3 + (q * 3) * TWO32;
      ModPlus((n % TWO32) * 3, q * 3);
    }
  }

  lemma {:induction false} ModPlus(a: nat, k: nat)
    ensures (a + k * TWO32) % TWO32 == a % TWO32
  {
    var q, r := a / TWO32, a % TWO32;
    assert a + k * TWO32 == (q + k) * TWO32 + r;
  }

  /** The element at row r and column c of a plane of width w and height h. */
  lemma {:induction false} InPlane(r: int, c: int, w: int, h: int)
    requires 0 <= r < h && 0 <= c < w
    ensures 0 <= r * w + c < w * h
  {
    assert (r + 1) * w <= h * w;
  }

  /** Row r, column c of the Y window is that pixel of the picture, in the Y plane; and so for
      the two chroma windows, which start and end at whole chroma pixels. */
  lemma {:induction false} CropWindows(s: Size, rect: Rect, r: int, c: int)
    requires Even(s) && Inside(rect, s) && CroppedLayout(s, rect).Some?
    ensures var l, n := CroppedLayout(s, rect).value, s.width * s.height;
            && (0 <= r < rect.height && 0 <= c < rect.width ==>
                  var p := l.y + r * l.yStride + c;
                  p == (rect.top + r) * s.width + (rect.left + c) && 0 <= p < n)
            && (0 <= r < rect.height / 2 && 0 <= c < rect.width / 2 ==>
                  var p := l.cb + r * l.cStride + c;
                  && p == n + (rect.top / 2 + r) * (s.width / 2) + (rect.left / 2 + c)
                  && n <= p < n + n / 4)
            && (0 <= r < rect.height / 2 && 0 <= c < rect.width / 2 ==>
                  var p := l.cr + r * l.cStride + c;
                  && p == n + n / 4 + (rect.top / 2 + r) * (s.width / 2) + (rect.left / 2 + c)
                  && n + n / 4 <= p < n * 3 / 2)
  {
    var w, h, t, x := s.width / 2, s.height / 2, rect.top / 2, rect.left / 2;
    Quarter(s.width, s.height);
    Quarter(s.width, rect.top);
    if 0 <= r < rect.height && 0 <= c < rect.width {
      assert (rect.top + r) * s.width == s.width * rect.top + r * s.width;
      InPlane(rect.top + r, rect.left + c, s.width, s.height);
    }
    if 0 <= r < rect.height / 2 && 0 <= c < rect.width / 2 {
      assert (t + r) * w == w * t + r * w;
      InPlane(t + r, x + c, w, h);
    }
  }

  lemma {:induction false} Quarter(a: int, b: int)
    requires a % 2 == 0 && b % 2 == 0
    ensures a * b / 4 == (a / 2) * (b / 2) && a * b == 4 * ((a / 2) * (b / 2))
  {
    assert a * b == (2 * (a / 2)) * (2 * (b / 2));
    assert a * b == 4 * ((a / 2) * (b / 2));
  }

  /** Whatever getCropRect finds for an even frame, getCroppedLayout accepts. */
  lemma {:induction false} CropIsAccepted(ct: CroppingType, inSz: Size, outSz: Size)
    requires Positive(inSz) && Positive(outSz) && Even(inSz)
    requires GetCropRect(ct, inSz, outSz).Some?
    ensures CroppedLayout(inSz, GetCropRect(ct, inSz, outSz).value).Some?
  {
    CropIsRight(ct, inSz, outSz);
  }

  // ---------------------------------------------------------------- the thumbnail

  function Min(a: real, b: real): real { if b < a then b else a }

  /** A side of the thumbnail, scaled and truncated to an even number. */
  function Shrink(scale: real, side: nat): int {
    2 * (scale * side as real / 2.0).Floor
  }

  /** The crop for a thumbnail: one scale factor for both sides. */
  function ThumbCrop(inSz: Size, outSz: Size): Rect
    requires Positive(inSz) && Positive(outSz)
  {
    var scale := Min(inSz.height as real / outSz.height as real,
                     inSz.width as real / outSz.width as real);
    var w, h := Shrink(scale, outSz.width), Shrink(scale, outSz.height);
    Rect(2 * ((inSz.width - w) / 4), 2 * ((inSz.height - h) / 4), w, h)
  }

  /** The sanity check on it. */
  predicate ThumbCropSane(r: Rect, inSz: Size) {
    !(|| r.top < 0 || r.top >= inSz.height || r.left < 0 || r.left >= inSz.width
      || r.width <= 0 || r.width + r.left > inSz.width
      || r.height <= 0 || r.height + r.top > inSz.height)
  }

  lemma {:induction false} RealMono(a: real, b: real, d: real)
    requires a < b && d > 0.0
    ensures a * d < b * d
  {
  }

  lemma {:induction false} ShrinkScales(whole: nat, num: nat, den: nat)
    requires den > 0
    ensures Scaled(Shrink(whole as real / den as real, num), whole, num, den)
  {
    var scale := whole as real / den as real;
    Truncated(scale, num);
    Undivided(whole, num, den);
    ScaledIfReal(scale * num as real, Shrink(scale, num), whole, num, den);
  }

  lemma {:induction false} ScaledIfReal(s: real, part: int, whole: nat, num: nat, den: nat)
    requires den > 0 && part % 2 == 0 && part as real <= s < (part + 2) as real
    requires s * den as real == num as real * whole as real
    ensures Scaled(part, whole, num, den)
  {
    RealOrder(s, part + 2, whole, num, den);
    RealOrder(s, part, whole, num, den);
  }

  lemma {:induction false} RealOrder(s: real, k: int, whole: nat, num: nat, den: nat)
    requires den > 0 && s * den as real == num as real * whole as real
    ensures s < k as real <==> num * whole < k * den
  {
    var d, x := den as real, k as real;
    assert (num * whole) as real == s * d by { Products(num, whole); }
    assert (k * den) as real == x * d by { Products(k, den); }
    if s < x {
      RealMono(s, x, d);
    } else if x < s {
      RealMono(x, s, d);
    }
    Reals(num * whole, k * den);
  }

  lemma {:induction false} Truncated(scale: real, side: nat)
    ensures var p := Shrink(scale, side);
            p % 2 == 0 && p as real <= scale * side as real < (p + 2) as real
  {
    var half := scale * side as real / 2.0;
    assert half.Floor as real <= half < (half.Floor + 1) as real;
  }

  lemma {:induction false} Reals(a: int, b: int)
    ensures a < b <==> a as real < b as real
  {
  }

  lemma {:induction false} Undivided(whole: nat, num: nat, den: nat)
    requires den > 0
    ensures whole as real / den as real * num as real * den as real == num as real * whole as real
  {
    var w, n, d := whole as real, num as real, den as real;
    var q := w / d;
    assert q * d == w;
    assert q * n * d == q * d * n;
  }

  lemma {:induction false} Products(a: int, b: int)
    ensures (a * b) as real == a as real * b as real
  {
  }

  /** Which factor is the smaller, in whole numbers. */
  lemma {:induction false} SmallerFactor(inSz: Size, outSz: Size)
    requires Positive(inSz) && Positive(outSz)
    ensures inSz.width as real / outSz.width as real < inSz.height as real / outSz.height as real
       <==> inSz.width * outSz.height < inSz.height * outSz.width
  {
    var w, h := inSz.width as real, inSz.height as real;
    var a, b := outSz.width as real, outSz.height as real;
    var p, q := w / a, h / b;
    assert p * a == w && q * b == h;
    assert (inSz.width * outSz.height) as real == p * (a * b) by { assert w * b == p * a * b; }
    assert (inSz.height * outSz.width) as real == q * (a * b) by { assert h * a == q * b * a; }
    assert a * b > 0.0;
  }

  /** The thumbnail crop is even, inside the picture and centred; one side is kept whole, but for
      an odd pixel, and the other is the thumbnail's ratio of it. */
  lemma {:induction false} ThumbCropIsRight(inSz: Size, outSz: Size)
    requires Positive(inSz) && Positive(outSz)
    ensures var r := ThumbCrop(inSz, outSz);
            && EvenRect(r) && Inside(r, inSz)
            && Centred(r.left, inSz.width - r.width) && Centred(r.top, inSz.height - r.height)
            && if inSz.width * outSz.height < inSz.height * outSz.width then
                 r.width == EvenPart(inSz.width)
                 && Scaled(r.height, inSz.width, outSz.height, outSz.width)
               else
                 r.height == EvenPart(inSz.height)
                 && Scaled(r.width, inSz.height, outSz.width, outSz.height)
  {
    SmallerFactor(inSz, outSz);
    var r := ThumbCrop(inSz, outSz);
    if inSz.width * outSz.height < inSz.height * outSz.width {
      ThumbSides(inSz.width, outSz.width, outSz.height, inSz.height, r.width, r.height);
    } else {
      ThumbSides(inSz.height, outSz.height, outSz.width, inSz.width, r.height, r.width);
    }
    CentredAt(inSz.width, r.width);
    CentredAt(inSz.height, r.height);
  }

  lemma {:induction false} CentredAt(whole: nat, part: int)
    requires 0 <= part <= whole
    ensures Centred(2 * ((whole - part) / 4), whole - part)
    ensures 0 <= 2 * ((whole - part) / 4) <= whole - part
  {
  }

  /** One side of the input is scaled to itself, the other one by the same factor. */
  lemma {:induction false} ThumbSides(side: nat, thumb: nat, other: nat, limit: nat, a: int, b: int)
    requires thumb > 0 && other * side <= limit * thumb
    requires a == Shrink(side as real / thumb as real, thumb)
    requires b == Shrink(side as real / thumb as real, other)
    ensures a == EvenPart(side) && Scaled(b, side, other, thumb)
    ensures 0 <= b <= limit && b % 2 == 0 && a % 2 == 0
  {
    ShrinkScales(side, thumb, thumb);
    ShrinkScales(side, other, thumb);
    WholeSide(side, thumb, a);
    PartFits(b, side, other, thumb, limit);
  }

  /** A side scaled by n / n is itself, but for an odd pixel. */
  lemma {:induction false} WholeSide(whole: nat, n: nat, part: int)
    requires n > 0 && Scaled(part, whole, n, n)
    ensures part == EvenPart(whole)
  {
    Distribute(whole, n);
    if part > whole { MulMono(whole + 1, part, n); }
    if part + 2 <= whole { MulMono(part + 2, whole, n); }
  }

  lemma {:induction false} PartFits(part: int, whole: nat, num: nat, den: nat, limit: nat)
    requires den > 0 && Scaled(part, whole, num, den) && num * whole <= limit * den
    ensures 0 <= part <= limit
  {
    if part > limit {
      assert (limit + 1) * den <= part * den by { MulMono(limit + 1, part, den); }
    }
    if part < 0 {
      MulMono(part + 2, 0, den);
      assert false;
    }
  }

  /** The sanity check rejects exactly the crops with a side that rounds to zero. */
  lemma {:induction false} ThumbRejectedExactly(inSz: Size, outSz: Size)
    requires Positive(inSz) && Positive(outSz)
    ensures !ThumbCropSane(ThumbCrop(inSz, outSz), inSz)
       <==> || inSz.width < 2 || inSz.height < 2
            || inSz.width * outSz.height < 2 * outSz.width
            || inSz.height * outSz.width < 2 * outSz.height
  {
    ThumbCropIsRight(inSz, outSz);
    var r := ThumbCrop(inSz, outSz);
    SaneExactly(r, inSz);
    assert inSz.width * outSz.height == outSz.height * inSz.width;
    assert inSz.height * outSz.width == outSz.width * inSz.height;
    if inSz.width * outSz.height < inSz.height * outSz.width {
      ZeroExactly(r.height, inSz.width, outSz.height, outSz.width);
      Narrow(inSz.width, outSz.height, outSz.width, inSz.height);
    } else {
      ZeroExactly(r.width, inSz.height, outSz.width, outSz.height);
      Narrow(inSz.height, outSz.width, outSz.height, inSz.width);
    }
  }

  lemma {:induction false} SaneExactly(r: Rect, inSz: Size)
    requires Positive(inSz) && Inside(r, inSz)
    requires Centred(r.left, inSz.width - r.width) && Centred(r.top, inSz.height - r.height)
    ensures ThumbCropSane(r, inSz) <==> r.width > 0 && r.height > 0
  {
  }

  lemma {:induction false} Narrow(side: nat, other: nat, thumb: nat, limit: nat)
    requires thumb > 0 && other > 0 && other * side <= limit * thumb
    ensures limit < 2 ==> other * side < 2 * thumb
    ensures limit * thumb < 2 * other ==> side < 2
  {
    if limit < 2 { MulMono(limit, 1, thumb); }
    if side >= 2 { MulMono(2, side, other); }
  }

  lemma {:induction false} ZeroExactly(part: int, whole: nat, num: nat, den: nat)
    requires den > 0 && Scaled(part, whole, num, den) && 0 <= part
    ensures part == 0 <==> num * whole < 2 * den
  {
    if part > 0 { assert 2 * den <= part * den by { MulMono(2, part, den); } }
  }

  /** What passes the check, getCroppedLayout accepts. */
  lemma {:induction false} ThumbIsAccepted(inSz: Size, outSz: Size)
    requires Positive(inSz) && Positive(outSz)
    ensures CroppedLayout(inSz, ThumbCrop(inSz, outSz)).Some?
  {
    ThumbCropIsRight(inSz, outSz);
  }
}
