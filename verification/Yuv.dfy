/**
 * RGB to YUV 4:2:0 conversion in fixed point, 8-alignment by cropping, and the
 * repacking of planes whose rows are wider than what is encoded. An image is
 * its row-major buffer of 8-bit RGB triples.
 */
module Yuv {
  type byte = b: int | 0 <= b < 256

  /** Full range keeps 0 to 255; limited range uses 16 to 235 for luma and 16 to 240 for chroma. */
  datatype Range = Full | Limited

  // ---------- One pixel ----------

  function Clamp(x: int, lo: int, hi: int): int {
    if x < lo then lo else if x > hi then hi else x
  }

  function RawY(range: Range, r: int, g: int, b: int): int {
    match range
    case Full => (77 * r + 150 * g + 29 * b + 128) / 256
    case Limited => 16 + (66 * r + 129 * g + 25 * b + 128) / 256
  }

  function RawCb(range: Range, r: int, g: int, b: int): int {
    match range
    case Full => 128 + (-43 * r - 85 * g + 128 * b + 128) / 256
    case Limited => 128 + (-38 * r - 74 * g + 112 * b + 128) / 256
  }

  function RawCr(range: Range, r: int, g: int, b: int): int {
    match range
    case Full => 128 + (128 * r - 107 * g - 21 * b + 128) / 256
    case Limited => 128 + (112 * r - 94 * g - 18 * b + 128) / 256
  }

  function Luma(range: Range, r: byte, g: byte, b: byte): byte {
    if range.Full? then Clamp(RawY(range, r, g, b), 0, 255) else Clamp(RawY(range, r, g, b), 16, 235)
  }

  function Cb(range: Range, r: byte, g: byte, b: byte): byte {
    if range.Full? then Clamp(RawCb(range, r, g, b), 0, 255) else Clamp(RawCb(range, r, g, b), 16, 240)
  }

  function Cr(range: Range, r: byte, g: byte, b: byte): byte {
    if range.Full? then Clamp(RawCr(range, r, g, b), 0, 255) else Clamp(RawCr(range, r, g, b), 16, 240)
  }

  /** The limited-range clamps and the full-range luma clamp never act. */
  lemma ClampsIdle(r: byte, g: byte, b: byte)
    ensures Luma(Full, r, g, b) == RawY(Full, r, g, b)
    ensures Luma(Limited, r, g, b) == RawY(Limited, r, g, b)
    ensures Cb(Limited, r, g, b) == RawCb(Limited, r, g, b)
    ensures Cr(Limited, r, g, b) == RawCr(Limited, r, g, b)
  {}

  /** The full-range chroma clamp acts on the value 256 alone, and only for pure blue and pure red. */
  lemma ChromaClampActsIff(r: byte, g: byte, b: byte)
    ensures 1 <= RawCb(Full, r, g, b) <= 256 && 1 <= RawCr(Full, r, g, b) <= 256
    ensures Cb(Full, r, g, b) != RawCb(Full, r, g, b) <==> r == 0 && g == 0 && b == 255
    ensures Cr(Full, r, g, b) != RawCr(Full, r, g, b) <==> r == 255 && g == 0 && b == 0
  {}

  /** Greys carry no colour, and keep their value in full range. */
  lemma GreyIsNeutral(range: Range, v: byte)
    ensures Cb(range, v, v, v) == 128 && Cr(range, v, v, v) == 128
    ensures Luma(Full, v, v, v) == v
  {}

  /** Fixed-point luma is within 1 of the BT.601 weights (ITU-R BT.601, section 2.5.1). */
  lemma LumaError(r: byte, g: byte, b: byte)
    ensures
      var exact := 0.299 * r as real + 0.587 * g as real + 0.114 * b as real;
      -1.0 < Luma(Full, r, g, b) as real - exact < 1.0
  {
    var n := 77 * r + 150 * g + 29 * b + 128;
    var y := n / 256;
    assert 256 * y <= n < 256 * y + 256;
    assert Luma(Full, r, g, b) == y;
    assert n as real == 77.0 * r as real + 150.0 * g as real + 29.0 * b as real + 128.0;
  }

  /** Full-range chroma is within 0.7 of the JFIF weights (JFIF 1.02, "Conversion to and from RGB"). */
  lemma ChromaError(r: byte, g: byte, b: byte)
    ensures
      var cb := 128.0 - 0.168736 * r as real - 0.331264 * g as real + 0.5 * b as real;
      var cr := 128.0 + 0.5 * r as real - 0.418688 * g as real - 0.081312 * b as real;
      && -0.7 < Cb(Full, r, g, b) as real - cb < 0.7
      && -0.7 < Cr(Full, r, g, b) as real - cr < 0.7
  {
    Quotient(-43 * r - 85 * g + 128 * b + 128);
    Quotient(128 * r - 107 * g - 21 * b + 128);
    ChromaClampActsIff(r, g, b);
  }

  /** Limited range: luma and chroma are within 1 of the studio-swing weights of ITU-R BT.601. */
  lemma LimitedError(r: byte, g: byte, b: byte)
    ensures
      var y := 16.0 + (65.481 * r as real + 128.553 * g as real + 24.966 * b as real) / 255.0;
      var cb := 128.0 + (-37.797 * r as real - 74.203 * g as real + 112.0 * b as real) / 255.0;
      var cr := 128.0 + (112.0 * r as real - 93.786 * g as real - 18.214 * b as real) / 255.0;
      && -1.0 < Luma(Limited, r, g, b) as real - y < 1.0
      && -1.0 < Cb(Limited, r, g, b) as real - cb < 1.0
      && -1.0 < Cr(Limited, r, g, b) as real - cr < 1.0
  {
    Quotient(66 * r + 129 * g + 25 * b + 128);
    Quotient(-38 * r - 74 * g + 112 * b + 128);
    Quotient(112 * r - 94 * g - 18 * b + 128);
    ClampsIdle(r, g, b);
  }

  lemma Quotient(n: int)
    ensures 256.0 * (n / 256) as real <= n as real < 256.0 * (n / 256) as real + 256.0
  {
    var q := n / 256;
    assert 256 * q <= n < 256 * q + 256;
  }

  // ---------- Planes ----------

  type Sampler = (nat, nat) -> byte

  function Row(w: nat, f: Sampler, r: nat): seq<byte> {
    seq(w, c requires 0 <= c < w => f(r, c))
  }

  /** The w by h plane with sample f(r, c) in row r, column c, row after row. */
  function Plane(w: nat, h: nat, f: Sampler): seq<byte> {
    if h == 0 then [] else Plane(w, h - 1, f) + Row(w, f, h - 1)
  }

  lemma Distribute(a: nat, b: nat, w: nat)
    ensures (a + b) * w == a * w + b * w && 0 <= b * w
  {}

  lemma RowEnd(w: nat, h: nat, r: nat)
    requires r < h
    ensures r * w + w == (r + 1) * w <= h * w
  {
    Distribute(r, 1, w);
    Distribute(r + 1, h - r - 1, w);
  }

  lemma RowsApart(r: nat, h: nat, w: nat)
    ensures r >= h ==> r * w >= h * w
  {
    if r >= h {
      Distribute(h, r - h, w);
    }
  }

  lemma {:induction false} PlaneLength(w: nat, h: nat, f: Sampler)
    ensures |Plane(w, h, f)| == h * w
  {
    if h > 0 {
      PlaneLength(w, h - 1, f);
    }
  }

  lemma {:induction false} PlaneAt(w: nat, h: nat, f: Sampler, r: nat, c: nat)
    requires r < h && c < w
    ensures r * w + c < |Plane(w, h, f)| && Plane(w, h, f)[r * w + c] == f(r, c)
  {
    PlaneLength(w, h, f);
    PlaneLength(w, h - 1, f);
    RowEnd(w, h, r);
    if r < h - 1 {
      RowEnd(w, h - 1, r);
      PlaneAt(w, h - 1, f, r, c);
    } else {
      assert Plane(w, h, f)[(h - 1) * w + c] == Row(w, f, h - 1)[c];
    }
  }

  /** Planes are equal when all their samples are. */
  lemma {:induction false} PlaneEqual(w: nat, h: nat, f: Sampler, g: Sampler)
    requires forall r, c :: 0 <= r < h && 0 <= c < w ==> f(r, c) == g(r, c)
    ensures Plane(w, h, f) == Plane(w, h, g)
  {
    if h > 0 {
      PlaneEqual(w, h - 1, f, g);
      assert Row(w, f, h - 1) == Row(w, g, h - 1);
    }
  }

  function Sample(buf: seq<byte>, k: int): byte {
    if 0 <= k < |buf| then buf[k] else 0
  }

  /** Reads a buffer whose rows are `stride` bytes apart. */
  function Strided(buf: seq<byte>, stride: nat): Sampler {
    (r: nat, c: nat) => Sample(buf, r * stride + c)
  }

  lemma RowFits(length: nat, stride: nat, width: nat, row: nat, rows: nat)
    requires row < rows && (rows - 1) * stride + width <= length
    ensures 0 <= row * stride <= row * stride + width <= length
  {
    Distribute(row, rows - 1 - row, stride);
  }

  lemma StridedRow(plane: seq<byte>, stride: nat, width: nat, row: nat)
    requires 0 <= row * stride <= row * stride + width <= |plane|
    ensures plane[row * stride..row * stride + width] == Row(width, Strided(plane, stride), row)
  {}

  /** Cuts rows of `width` bytes out of rows of `stride` bytes, in bounds for every row. */
  method RepackPlane(plane: seq<byte>, stride: nat, width: nat, rows: nat) returns (out: seq<byte>)
    requires rows > 0 ==> (rows - 1) * stride + width <= |plane|
    ensures out == Plane(width, rows, Strided(plane, stride))
  {
    out := [];
    for row := 0 to rows
      invariant out == Plane(width, row, Strided(plane, stride))
    {
      RowFits(|plane|, stride, width, row, rows);
      StridedRow(plane, stride, width, row);
      var start := row * stride;
      out := out + plane[start..start + width];
    }
  }

  /** Repacking a plane to a smaller size keeps exactly the samples of its top-left corner. */
  lemma RepackIsCrop(w: nat, h: nat, f: Sampler, width: nat, rows: nat)
    requires width <= w && rows <= h
    ensures rows > 0 ==> (rows - 1) * w + width <= |Plane(w, h, f)|
    ensures Plane(width, rows, Strided(Plane(w, h, f), w)) == Plane(width, rows, f)
  {
    var p := Plane(w, h, f);
    if rows > 0 {
      PlaneLength(w, h, f);
      RowEnd(w, h, rows - 1);
    }
    forall r, c | 0 <= r < rows && 0 <= c < width ensures Strided(p, w)(r, c) == f(r, c) {
      PlaneAt(w, h, f, r, c);
    }
    PlaneEqual(width, rows, Strided(p, w), f);
  }

  // ---------- Images ----------

  /** Colour channel k of the pixel in row r, column c. */
  function Pixel(raw: seq<byte>, w: nat, r: nat, c: nat, k: nat): byte {
    Sample(raw, (r * w + c) * 3 + k)
  }

  function YSampler(range: Range, raw: seq<byte>, w: nat): Sampler {
    (r: nat, c: nat) => Luma(range, Pixel(raw, w, r, c, 0), Pixel(raw, w, r, c, 1), Pixel(raw, w, r, c, 2))
  }

  function BlockSum(raw: seq<byte>, w: nat, r: nat, c: nat, k: nat): nat {
    Pixel(raw, w, r, c, k) + Pixel(raw, w, r, c + 1, k) + Pixel(raw, w, r + 1, c, k) + Pixel(raw, w, r + 1, c + 1, k)
  }

  /** The mean of the 2 by 2 block of chroma sample (cy, cx), rounded down. */
  function Mean(raw: seq<byte>, w: nat, cy: nat, cx: nat, k: nat): byte {
    BlockSum(raw, w, cy * 2, cx * 2, k) / 4
  }

  function USampler(range: Range, raw: seq<byte>, w: nat): Sampler {
    (cy: nat, cx: nat) => Cb(range, Mean(raw, w, cy, cx, 0), Mean(raw, w, cy, cx, 1), Mean(raw, w, cy, cx, 2))
  }

  function VSampler(range: Range, raw: seq<byte>, w: nat): Sampler {
    (cy: nat, cx: nat) => Cr(range, Mean(raw, w, cy, cx, 0), Mean(raw, w, cy, cx, 1), Mean(raw, w, cy, cx, 2))
  }

  /** n rounded down to a multiple of 8. */
  function Align(n: nat): nat {
    n / 8 * 8
  }

  /** The top-left ew by eh corner of an image. */
  function Crop(raw: seq<byte>, w: nat, ew: nat, eh: nat): seq<byte> {
    Plane(3 * ew, eh, Strided(raw, 3 * w))
  }

  lemma TripleIndex(r: nat, w: nat, c: nat, k: nat)
    ensures (r * w + c) * 3 + k == r * (3 * w) + (3 * c + k)
  {
    assert r * (3 * w) == 3 * (r * w);
  }

  lemma CropPixel(raw: seq<byte>, w: nat, ew: nat, eh: nat, r: nat, c: nat, k: nat)
    requires r < eh && c < ew && k < 3
    ensures Pixel(Crop(raw, w, ew, eh), ew, r, c, k) == Pixel(raw, w, r, c, k)
  {
    PlaneAt(3 * ew, eh, Strided(raw, 3 * w), r, 3 * c + k);
    TripleIndex(r, ew, c, k);
    TripleIndex(r, w, c, k);
  }

  lemma CropMean(raw: seq<byte>, w: nat, ew: nat, eh: nat, cy: nat, cx: nat, k: nat)
    requires cy < eh / 2 && cx < ew / 2 && k < 3
    ensures Mean(Crop(raw, w, ew, eh), ew, cy, cx, k) == Mean(raw, w, cy, cx, k)
  {
    var r, c := cy * 2, cx * 2;
    CropPixel(raw, w, ew, eh, r, c, k);
    CropPixel(raw, w, ew, eh, r, c + 1, k);
    CropPixel(raw, w, ew, eh, r + 1, c, k);
    CropPixel(raw, w, ew, eh, r + 1, c + 1, k);
  }

  function CeilHalf(n: nat): nat {
    (n + 1) / 2
  }

  /** The luma half of the result below; it holds for every width. */
  lemma CropConvertLuma(range: Range, raw: seq<byte>, w: nat, h: nat)
    ensures
      var ew, eh, y := Align(w), Align(h), Plane(w, h, YSampler(range, raw, w));
      && Plane(ew, eh, Strided(y, w)) == Plane(ew, eh, YSampler(range, Crop(raw, w, ew, eh), ew))
      && (eh > 0 ==> (eh - 1) * w + ew <= |y|)
  {
    AlignBelow(w);
    AlignBelow(h);
    CropSamplers(range, raw, w, Align(w), Align(h));
    StridedRepack(w, h, YSampler(range, raw, w), Align(w), Align(h), w);
  }

  lemma CropConvertChroma(range: Range, raw: seq<byte>, w: nat, h: nat)
    requires w % 2 == 0
    ensures
      var ew, eh := Align(w), Align(h);
      var u, v := Plane(w / 2, h / 2, USampler(range, raw, w)), Plane(w / 2, h / 2, VSampler(range, raw, w));
      var crop := Crop(raw, w, ew, eh);
      && Plane(ew / 2, eh / 2, Strided(u, CeilHalf(w))) == Plane(ew / 2, eh / 2, USampler(range, crop, ew))
      && Plane(ew / 2, eh / 2, Strided(v, CeilHalf(w))) == Plane(ew / 2, eh / 2, VSampler(range, crop, ew))
      && |u| == |v|
      && (eh / 2 > 0 ==> (eh / 2 - 1) * CeilHalf(w) + ew / 2 <= |u|)
  {
    var ew, eh := Align(w), Align(h);
    AlignBelow(w);
    AlignBelow(h);
    CropSamplers(range, raw, w, ew, eh);
    StridedRepack(w / 2, h / 2, USampler(range, raw, w), ew / 2, eh / 2, CeilHalf(w));
    StridedRepack(w / 2, h / 2, VSampler(range, raw, w), ew / 2, eh / 2, CeilHalf(w));
  }

  /**
   * Cropping to the aligned size and converting gives the same three planes as
   * converting the whole image and repacking every plane, for every image of
   * even width; all repacked rows lie within their planes.
   */
  lemma {:induction false} CropConvertIsConvertRepack(range: Range, raw: seq<byte>, w: nat, h: nat)
    requires w % 2 == 0
    ensures
      var ew, eh := Align(w), Align(h);
      var crop := Crop(raw, w, ew, eh);
      var y := Plane(w, h, YSampler(range, raw, w));
      var u, v := Plane(w / 2, h / 2, USampler(range, raw, w)), Plane(w / 2, h / 2, VSampler(range, raw, w));
      && Plane(ew, eh, Strided(y, w)) == Plane(ew, eh, YSampler(range, crop, ew))
      && Plane(ew / 2, eh / 2, Strided(u, CeilHalf(w))) == Plane(ew / 2, eh / 2, USampler(range, crop, ew))
      && Plane(ew / 2, eh / 2, Strided(v, CeilHalf(w))) == Plane(ew / 2, eh / 2, VSampler(range, crop, ew))
      && (eh > 0 ==> (eh - 1) * w + ew <= |y|)
      && (eh / 2 > 0 ==> (eh / 2 - 1) * CeilHalf(w) + ew / 2 <= |u| == |v|)
  {
    CropConvertLuma(range, raw, w, h);
    CropConvertChroma(range, raw, w, h);
  }

  lemma AlignBelow(n: nat)
    ensures Align(n) <= n && Align(n) % 8 == 0 && n - Align(n) < 8
    ensures Align(n) / 2 <= n / 2 <= CeilHalf(n) && (n % 2 == 0 ==> CeilHalf(n) == n / 2)
  {}

  lemma StridedRepack(w: nat, h: nat, f: Sampler, width: nat, rows: nat, stride: nat)
    requires width <= w && rows <= h && stride == w
    ensures Plane(width, rows, Strided(Plane(w, h, f), stride)) == Plane(width, rows, f)
    ensures rows > 0 ==> (rows - 1) * stride + width <= |Plane(w, h, f)|
    ensures |Plane(w, h, f)| == h * w
  {
    RepackIsCrop(w, h, f, width, rows);
    PlaneLength(w, h, f);
  }

  lemma CropSamplers(range: Range, raw: seq<byte>, w: nat, ew: nat, eh: nat)
    ensures
      var crop := Crop(raw, w, ew, eh);
      && Plane(ew, eh, YSampler(range, raw, w)) == Plane(ew, eh, YSampler(range, crop, ew))
      && Plane(ew / 2, eh / 2, USampler(range, raw, w)) == Plane(ew / 2, eh / 2, USampler(range, crop, ew))
      && Plane(ew / 2, eh / 2, VSampler(range, raw, w)) == Plane(ew / 2, eh / 2, VSampler(range, crop, ew))
  {
    var crop := Crop(raw, w, ew, eh);
    forall r, c | 0 <= r < eh && 0 <= c < ew ensures YSampler(range, raw, w)(r, c) == YSampler(range, crop, ew)(r, c) {
      CropPixel(raw, w, ew, eh, r, c, 0);
      CropPixel(raw, w, ew, eh, r, c, 1);
      CropPixel(raw, w, ew, eh, r, c, 2);
    }
    PlaneEqual(ew, eh, YSampler(range, raw, w), YSampler(range, crop, ew));
    forall cy, cx | 0 <= cy < eh / 2 && 0 <= cx < ew / 2
      ensures USampler(range, raw, w)(cy, cx) == USampler(range, crop, ew)(cy, cx)
      ensures VSampler(range, raw, w)(cy, cx) == VSampler(range, crop, ew)(cy, cx)
    {
      CropMean(raw, w, ew, eh, cy, cx, 0);
      CropMean(raw, w, ew, eh, cy, cx, 1);
      CropMean(raw, w, ew, eh, cy, cx, 2);
    }
    PlaneEqual(ew / 2, eh / 2, USampler(range, raw, w), USampler(range, crop, ew));
    PlaneEqual(ew / 2, eh / 2, VSampler(range, raw, w), VSampler(range, crop, ew));
  }

  // ---------- The conversion loops ----------

  lemma PixelInBounds(raw: seq<byte>, w: nat, h: nat, r: nat, c: nat)
    requires |raw| == w * h * 3 && r < h && c < w
    ensures 0 <= (r * w + c) * 3 && (r * w + c) * 3 + 2 < |raw|
    ensures forall k: nat :: k < 3 ==> Pixel(raw, w, r, c, k) == raw[(r * w + c) * 3 + k]
  {
    RowEnd(w, h, r);
  }

  /** On the bytes of the image: a luma sample is made of the red, green and blue byte of its own pixel. */
  lemma LumaSample(range: Range, raw: seq<byte>, w: nat, h: nat, r: nat, c: nat)
    requires |raw| == w * h * 3 && r < h && c < w
    ensures
      var y, at := Plane(w, h, YSampler(range, raw, w)), (r * w + c) * 3;
      && 0 <= at < |raw| - 2 && 0 <= r * w + c < |y|
      && y[r * w + c] == Luma(range, raw[at], raw[at + 1], raw[at + 2])
  {
    PixelInBounds(raw, w, h, r, c);
    PlaneAt(w, h, YSampler(range, raw, w), r, c);
  }

  /** m is the mean of four values, rounded down. */
  predicate IsMean(m: int, a: int, b: int, c: int, d: int) {
    4 * m <= a + b + c + d < 4 * m + 4
  }

  /**
   * A chroma sample is made of the means of the red, the green and the blue
   * bytes of four pixels: two side by side, and the two below them.
   */
  lemma ChromaSample(range: Range, raw: seq<byte>, w: nat, h: nat, cy: nat, cx: nat)
    returns (red: byte, green: byte, blue: byte)
    requires |raw| == w * h * 3 && cy < h / 2 && cx < w / 2
    ensures BlockInBounds(raw, w, cy, cx)
    ensures
      var at, below := (2 * cy * w + 2 * cx) * 3, ((2 * cy + 1) * w + 2 * cx) * 3;
      && IsMean(red, raw[at], raw[at + 3], raw[below], raw[below + 3])
      && IsMean(green, raw[at + 1], raw[at + 4], raw[below + 1], raw[below + 4])
      && IsMean(blue, raw[at + 2], raw[at + 5], raw[below + 2], raw[below + 5])
    ensures
      var u, v := Plane(w / 2, h / 2, USampler(range, raw, w)), Plane(w / 2, h / 2, VSampler(range, raw, w));
      var k := cy * (w / 2) + cx;
      && 0 <= k < |u| == |v|
      && u[k] == Cb(range, red, green, blue) && v[k] == Cr(range, red, green, blue)
  {
    red, green, blue := Mean(raw, w, cy, cx, 0), Mean(raw, w, cy, cx, 1), Mean(raw, w, cy, cx, 2);
    BlockMeans(raw, w, h, cy, cx);
    PlaneAt(w / 2, h / 2, USampler(range, raw, w), cy, cx);
    PlaneAt(w / 2, h / 2, VSampler(range, raw, w), cy, cx);
    PlaneLength(w / 2, h / 2, USampler(range, raw, w));
    PlaneLength(w / 2, h / 2, VSampler(range, raw, w));
  }

  predicate BlockInBounds(raw: seq<byte>, w: nat, cy: nat, cx: nat) {
    var at, below := (2 * cy * w + 2 * cx) * 3, ((2 * cy + 1) * w + 2 * cx) * 3;
    0 <= at < at + 5 < |raw| && 0 <= below < below + 5 < |raw|
  }

  lemma BlockMeans(raw: seq<byte>, w: nat, h: nat, cy: nat, cx: nat)
    requires |raw| == w * h * 3 && cy < h / 2 && cx < w / 2
    ensures BlockInBounds(raw, w, cy, cx)
    ensures
      var at, below := (2 * cy * w + 2 * cx) * 3, ((2 * cy + 1) * w + 2 * cx) * 3;
      && IsMean(Mean(raw, w, cy, cx, 0), raw[at], raw[at + 3], raw[below], raw[below + 3])
      && IsMean(Mean(raw, w, cy, cx, 1), raw[at + 1], raw[at + 4], raw[below + 1], raw[below + 4])
      && IsMean(Mean(raw, w, cy, cx, 2), raw[at + 2], raw[at + 5], raw[below + 2], raw[below + 5])
  {
    PixelInBounds(raw, w, h, 2 * cy, 2 * cx);
    PixelInBounds(raw, w, h, 2 * cy, 2 * cx + 1);
    PixelInBounds(raw, w, h, 2 * cy + 1, 2 * cx);
    PixelInBounds(raw, w, h, 2 * cy + 1, 2 * cx + 1);
  }

  /** A plane that is filled in row-major order up to row r, column c. */
  ghost predicate FilledUpTo(p: seq<byte>, w: nat, h: nat, f: Sampler, r: nat, c: nat) {
    && |p| == h * w
    && forall i, j :: 0 <= i < h && 0 <= j < w && (i < r || (i == r && j < c)) ==> Sample(p, i * w + j) == f(i, j)
  }

  lemma FilledIsPlane(p: seq<byte>, w: nat, h: nat, f: Sampler)
    requires FilledUpTo(p, w, h, f, h, 0)
    ensures p == Plane(w, h, f)
  {
    var q := Plane(w, h, f);
    PlaneLength(w, h, f);
    if w == 0 {
      assert h * w == 0;
    } else {
      forall k | 0 <= k < h * w ensures p[k] == q[k] {
        var r, c := k / w, k % w;
        assert k == r * w + c;
        RowsApart(r, h, w);
        PlaneAt(w, h, f, r, c);
        assert Sample(p, r * w + c) == f(r, c);
      }
    }
  }

  lemma FillNext(p: seq<byte>, w: nat, h: nat, f: Sampler, r: nat, c: nat)
    requires FilledUpTo(p, w, h, f, r, c) && r < h && c < w
    ensures r * w + c < |p|
    ensures FilledUpTo(p[r * w + c := f(r, c)], w, h, f, r, c + 1)
  {
    RowEnd(w, h, r);
    var q := p[r * w + c := f(r, c)];
    forall i, j | 0 <= i < h && 0 <= j < w && (i < r || (i == r && j < c + 1))
      ensures Sample(q, i * w + j) == f(i, j)
    {
      FilledSample(p, w, h, f, r, c, i, j);
    }
  }

  lemma FilledSample(p: seq<byte>, w: nat, h: nat, f: Sampler, r: nat, c: nat, i: nat, j: nat)
    requires FilledUpTo(p, w, h, f, r, c) && r < h && r * w + c < |p|
    requires i < h && j < w && (i < r || (i == r && j <= c))
    ensures Sample(p[r * w + c := f(r, c)], i * w + j) == f(i, j)
  {
    SampleUpdated(p, r * w + c, f(r, c), i * w + j);
    if i != r || j != c {
      IndexBefore(w, i, j, r, c);
    }
  }

  lemma SampleUpdated(p: seq<byte>, k: nat, v: byte, n: int)
    requires k < |p|
    ensures Sample(p[k := v], n) == if n == k then v else Sample(p, n)
  {}

  lemma IndexBefore(w: nat, i: nat, j: nat, r: nat, c: nat)
    requires j < w && (i < r || (i == r && j < c))
    ensures i * w + j < r * w + c
  {
    if i < r {
      RowEnd(w, r, i);
    }
  }

  lemma FillRowDone(p: seq<byte>, w: nat, h: nat, f: Sampler, r: nat)
    requires FilledUpTo(p, w, h, f, r, w)
    ensures FilledUpTo(p, w, h, f, r + 1, 0)
  {}

  /** Sums one colour channel over the 2 by 2 block at (row, col). */
  method SumBlock(raw: seq<byte>, w: nat, h: nat, row: nat, col: nat, k: nat) returns (sum: nat)
    requires |raw| == w * h * 3 && row + 1 < h && col + 1 < w && k < 3
    ensures sum == BlockSum(raw, w, row, col, k)
  {
    sum := 0;
    for dy := 0 to 2
      invariant sum == (if dy >= 1 then Pixel(raw, w, row, col, k) + Pixel(raw, w, row, col + 1, k) else 0)
                       + if dy >= 2 then Pixel(raw, w, row + 1, col, k) + Pixel(raw, w, row + 1, col + 1, k) else 0
    {
      ghost var above := sum;
      for dx := 0 to 2
        invariant sum == above + (if dx >= 1 then Pixel(raw, w, row + dy, col, k) else 0)
                         + if dx >= 2 then Pixel(raw, w, row + dy, col + 1, k) else 0
      {
        PixelInBounds(raw, w, h, row + dy, col + dx);
        sum := sum + raw[((row + dy) * w + (col + dx)) * 3 + k];
      }
    }
  }

  method FillLuma(range: Range, raw: seq<byte>, w: nat, h: nat, plane: array<byte>)
    requires |raw| == w * h * 3 && plane.Length == w * h
    modifies plane
    ensures plane[..] == Plane(w, h, YSampler(range, raw, w))
  {
    ghost var f := YSampler(range, raw, w);
    for row := 0 to h
      invariant FilledUpTo(plane[..], w, h, f, row, 0)
    {
      for col := 0 to w
        invariant FilledUpTo(plane[..], w, h, f, row, col)
      {
        PixelInBounds(raw, w, h, row, col);
        FillNext(plane[..], w, h, f, row, col);
        var idx := (row * w + col) * 3;
        ghost var before := plane[..];
        plane[row * w + col] := Luma(range, raw[idx], raw[idx + 1], raw[idx + 2]);
        assert plane[..] == before[row * w + col := f(row, col)];
      }
      FillRowDone(plane[..], w, h, f, row);
    }
    FilledIsPlane(plane[..], w, h, f);
  }

  method FillChroma(range: Range, raw: seq<byte>, w: nat, h: nat, u: array<byte>, v: array<byte>)
    requires |raw| == w * h * 3 && u != v && u.Length == v.Length == (w / 2) * (h / 2)
    modifies u, v
    ensures u[..] == Plane(w / 2, h / 2, USampler(range, raw, w))
    ensures v[..] == Plane(w / 2, h / 2, VSampler(range, raw, w))
  {
    var cw, ch := w / 2, h / 2;
    ghost var f, g := USampler(range, raw, w), VSampler(range, raw, w);
    for cy := 0 to ch
      invariant FilledUpTo(u[..], cw, ch, f, cy, 0) && FilledUpTo(v[..], cw, ch, g, cy, 0)
    {
      for cx := 0 to cw
        invariant FilledUpTo(u[..], cw, ch, f, cy, cx) && FilledUpTo(v[..], cw, ch, g, cy, cx)
      {
        var row, col := cy * 2, cx * 2;
        var sumR := SumBlock(raw, w, h, row, col, 0);
        var sumG := SumBlock(raw, w, h, row, col, 1);
        var sumB := SumBlock(raw, w, h, row, col, 2);
        var r, gr, b := sumR / 4, sumG / 4, sumB / 4;
        FillNext(u[..], cw, ch, f, cy, cx);
        FillNext(v[..], cw, ch, g, cy, cx);
        ghost var beforeU, beforeV := u[..], v[..];
        u[cy * cw + cx] := Cb(range, r, gr, b);
        v[cy * cw + cx] := Cr(range, r, gr, b);
        assert u[..] == beforeU[cy * cw + cx := f(cy, cx)];
        assert v[..] == beforeV[cy * cw + cx := g(cy, cx)];
      }
      FillRowDone(u[..], cw, ch, f, cy);
      FillRowDone(v[..], cw, ch, g, cy);
    }
    FilledIsPlane(u[..], cw, ch, f);
    FilledIsPlane(v[..], cw, ch, g);
  }

  /** Converts a whole image; every buffer index is in bounds. */
  method RgbToYuv420(range: Range, raw: seq<byte>, w: nat, h: nat) returns (y: seq<byte>, u: seq<byte>, v: seq<byte>)
    requires |raw| == w * h * 3
    ensures y == Plane(w, h, YSampler(range, raw, w))
    ensures u == Plane(w / 2, h / 2, USampler(range, raw, w))
    ensures v == Plane(w / 2, h / 2, VSampler(range, raw, w))
  {
    var yPlane := new byte[w * h](_ => 0);
    var uPlane := new byte[(w / 2) * (h / 2)](_ => 0);
    var vPlane := new byte[(w / 2) * (h / 2)](_ => 0);
    FillLuma(range, raw, w, h, yPlane);
    FillChroma(range, raw, w, h, uPlane, vPlane);
    y, u, v := yPlane[..], uPlane[..], vPlane[..];
  }

  // ---------- Encoding ready-made planes ----------

  /** A tightly packed buffer is its own plane. */
  lemma TightPlane(p: seq<byte>, w: nat, h: nat, width: nat, rows: nat)
    requires |p| == h * w && width == w && rows == h
    ensures p == Plane(width, rows, Strided(p, w))
  {
    FilledIsPlane(p, w, h, Strided(p, w));
  }

  lemma RepackFits(length: nat, stride: nat, height: nat, width: nat, rows: nat)
    requires length >= height * stride && width <= stride && rows <= height
    ensures rows > 0 ==> (rows - 1) * stride + width <= length
  {
    if rows > 0 {
      RowEnd(stride, height, rows - 1);
    }
  }

  /** The planes handed to the encoder: passed on when both sizes are aligned, repacked otherwise. */
  method AlignPlanes(y: seq<byte>, u: seq<byte>, v: seq<byte>, width: nat, height: nat)
    returns (ew: nat, eh: nat, ye: seq<byte>, ue: seq<byte>, ve: seq<byte>)
    requires |y| >= height * width && |u| >= (height / 2) * CeilHalf(width) && |v| >= (height / 2) * CeilHalf(width)
    ensures ew == Align(width) && eh == Align(height)
    ensures ew == width && eh == height ==> ye == y && ue == u && ve == v
    ensures ew != width || eh != height ==>
      && ye == Plane(ew, eh, Strided(y, width))
      && ue == Plane(ew / 2, eh / 2, Strided(u, CeilHalf(width)))
      && ve == Plane(ew / 2, eh / 2, Strided(v, CeilHalf(width)))
  {
    ew, eh := Align(width), Align(height);
    AlignBelow(width);
    AlignBelow(height);
    if ew == width && eh == height {
      ye, ue, ve := y, u, v;
    } else {
      RepackFits(|y|, width, height, ew, eh);
      RepackFits(|u|, CeilHalf(width), height / 2, ew / 2, eh / 2);
      RepackFits(|v|, CeilHalf(width), height / 2, ew / 2, eh / 2);
      ye := RepackPlane(y, width, ew, eh);
      ue := RepackPlane(u, CeilHalf(width), ew / 2, eh / 2);
      ve := RepackPlane(v, CeilHalf(width), ew / 2, eh / 2);
    }
  }

  /** Planes of exactly their size that are passed on unchanged are what repacking would have made of them. */
  lemma AlignedIsRepacked(y: seq<byte>, c: seq<byte>, width: nat, height: nat)
    requires Align(width) == width && Align(height) == height
    requires |y| == height * width && |c| == height / 2 * CeilHalf(width)
    ensures y == Plane(Align(width), Align(height), Strided(y, width))
    ensures c == Plane(Align(width) / 2, Align(height) / 2, Strided(c, CeilHalf(width)))
  {
    AlignedHalf(width);
    TightPlane(y, width, height, Align(width), Align(height));
    TightPlane(c, CeilHalf(width), height / 2, Align(width) / 2, Align(height) / 2);
  }

  lemma AlignedHalf(n: nat)
    requires Align(n) == n
    ensures CeilHalf(n) == Align(n) / 2
  {
    var q := n / 8;
    assert n == 8 * q;
    assert (8 * q + 1) / 2 == 4 * q && 8 * q / 2 == 4 * q;
  }

  /** n rounded down to an even number. */
  function Even(n: nat): nat {
    n / 2 * 2
  }

  /** Of a decoded plane only the first `keep` bytes are passed on, and read as rows of `stride` bytes. */
  function Resliced(plane: seq<byte>, keep: nat, stride: nat, width: nat, rows: nat): seq<byte>
    requires keep <= |plane|
  {
    Plane(width, rows, Strided(plane[..keep], stride))
  }

  /**
   * The native JPEG path cuts a luma plane, decoded with rows of `stride`
   * bytes, to Even(w) * Even(h) bytes and reads it with stride Even(w).
   */
  ghost predicate NativeLumaRight(y: seq<byte>, stride: nat, w: nat, h: nat) {
    && Even(w) * Even(h) <= |y|
    && Resliced(y, Even(w) * Even(h), Even(w), Align(w), Align(h)) == Plane(Align(w), Align(h), Strided(y, stride))
  }

  /** The same for a chroma plane, whose rows are at least half a luma row long, rounded up. */
  ghost predicate NativeChromaRight(c: seq<byte>, stride: nat, w: nat, h: nat) {
    && Even(w) / 2 * Even(h) / 2 <= |c|
    && Resliced(c, Even(w) / 2 * Even(h) / 2, Even(w) / 2, Align(w) / 2, Align(h) / 2)
       == Plane(Align(w) / 2, Align(h) / 2, Strided(c, stride))
  }

  lemma ProductGrows(a: nat, b: nat, c: nat, d: nat)
    requires a <= c && b <= d
    ensures a * b <= d * c
  {
    assert (c - a) * b >= 0 && c * (d - b) >= 0;
  }

  lemma HalfProduct(a: nat, b: nat)
    requires b % 2 == 0
    ensures a * b / 2 == a * (b / 2)
  {
    assert a * b == 2 * (a * (b / 2));
  }

  lemma SliceSample(plane: seq<byte>, w: nat, rows: nat, r: nat, c: nat)
    requires w * rows <= |plane| && r < rows && c < w
    ensures Sample(plane[..w * rows], r * w + c) == Sample(plane, r * w + c)
  {
    RowEnd(w, rows, r);
  }

  /** Cutting a plane after its last needed row is harmless as long as the stride is right. */
  lemma SliceSame(plane: seq<byte>, stride: nat, rows: nat, width: nat, height: nat)
    requires stride * rows <= |plane| && width <= stride && height <= rows
    ensures Resliced(plane, stride * rows, stride, width, height) == Plane(width, height, Strided(plane, stride))
  {
    var slice := plane[..stride * rows];
    forall r, c | 0 <= r < height && 0 <= c < width
      ensures Strided(slice, stride)(r, c) == Strided(plane, stride)(r, c)
    {
      SliceSample(plane, stride, rows, r, c);
    }
    PlaneEqual(width, height, Strided(slice, stride), Strided(plane, stride));
  }

  lemma EmptyPlane(w: nat, h: nat, f: Sampler, g: Sampler)
    requires w == 0 || h == 0
    ensures Plane(w, h, f) == Plane(w, h, g)
  {
    PlaneEqual(w, h, f, g);
  }

  lemma NativeLuma(y: seq<byte>, stride: nat, w: nat, h: nat)
    requires stride >= w && |y| >= h * stride && (stride == Even(w) || w < 8 || h < 8)
    ensures NativeLumaRight(y, stride, w, h)
  {
    var cut, rows := Even(w), Even(h);
    ProductGrows(cut, rows, stride, h);
    if stride == cut {
      SliceSame(y, cut, rows, Align(w), Align(h));
    } else {
      EmptyPlane(Align(w), Align(h), Strided(y[..cut * rows], cut), Strided(y, stride));
    }
  }

  lemma NativeChroma(c: seq<byte>, stride: nat, w: nat, h: nat)
    requires stride >= CeilHalf(w) && |c| >= CeilHalf(h) * stride && (stride == Even(w) / 2 || w < 8 || h < 8)
    ensures NativeChromaRight(c, stride, w, h)
  {
    var cut, rows := Even(w) / 2, Even(h) / 2;
    HalfProduct(cut, Even(h));
    ProductGrows(cut, rows, stride, CeilHalf(h));
    if stride == cut {
      SliceSame(c, cut, rows, Align(w) / 2, Align(h) / 2);
    } else {
      EmptyPlane(Align(w) / 2, Align(h) / 2, Strided(c[..cut * rows], cut), Strided(c, stride));
    }
  }

  /** A plane that is dark but for one sample. */
  function BrightAt(n: nat, k: nat): (p: seq<byte>)
    ensures |p| == n && forall i :: 0 <= i < n ==> p[i] == if i == k then 255 else 0
  {
    seq(n, i requires 0 <= i < n => if i == k then 255 else 0)
  }

  /** Read with too short a stride, the sample after the first short row turns up at the beginning of the second. */
  lemma WrongStride(n: nat, cut: nat, cutRows: nat, stride: nat, width: nat, rows: nat)
    requires 0 < cut < stride < n && cutRows >= 2 && cut * cutRows <= n && width >= 1 && rows >= 2
    ensures
      var p := BrightAt(n, cut);
      Resliced(p, cut * cutRows, cut, width, rows) != Plane(width, rows, Strided(p, stride))
  {
    var p, keep := BrightAt(n, cut), cut * cutRows;
    RowEnd(cut, cutRows, 1);
    assert cut < keep;
    assert Strided(p[..keep], cut)(1, 0) == 255 && Strided(p, stride)(1, 0) == 0;
    PlaneAt(width, rows, Strided(p[..keep], cut), 1, 0);
    PlaneAt(width, rows, Strided(p, stride), 1, 0);
  }

  lemma LumaGoesWrong(stride: nat, w: nat, h: nat)
    requires w >= 8 && h >= 8 && stride > Even(w)
    ensures !NativeLumaRight(BrightAt(h * stride, Even(w)), stride, w, h)
  {
    ProductGrows(Even(w), Even(h), stride, h);
    RowEnd(stride, h, 1);
    WrongStride(h * stride, Even(w), Even(h), stride, Align(w), Align(h));
  }

  lemma ChromaGoesWrong(stride: nat, w: nat, h: nat)
    requires w >= 8 && h >= 8 && stride > Even(w) / 2
    ensures !NativeChromaRight(BrightAt(CeilHalf(h) * stride, Even(w) / 2), stride, w, h)
  {
    HalfProduct(Even(w) / 2, Even(h));
    ProductGrows(Even(w) / 2, Even(h) / 2, stride, CeilHalf(h));
    RowEnd(stride, CeilHalf(h), 1);
    WrongStride(CeilHalf(h) * stride, Even(w) / 2, Even(h) / 2, stride, Align(w) / 2, Align(h) / 2);
  }

  /**
   * Whatever the decoder's row lengths and however many rows it adds: the
   * native path encodes the picture that was decoded, for all samples, exactly
   * when the rows are as long as the path takes them to be, or the aligned
   * picture is empty.
   */
  lemma {:induction false} NativePathRightIff(stride: nat, chromaStride: nat, w: nat, h: nat)
    requires stride >= w && chromaStride >= CeilHalf(w)
    ensures
      (&& (forall y: seq<byte> :: |y| >= h * stride ==> NativeLumaRight(y, stride, w, h))
       && (forall c: seq<byte> :: |c| >= CeilHalf(h) * chromaStride ==> NativeChromaRight(c, chromaStride, w, h)))
      <==> (stride == Even(w) && chromaStride == Even(w) / 2) || w < 8 || h < 8
  {
    if (stride == Even(w) && chromaStride == Even(w) / 2) || w < 8 || h < 8 {
      forall y: seq<byte> | |y| >= h * stride ensures NativeLumaRight(y, stride, w, h) {
        NativeLuma(y, stride, w, h);
      }
      forall c: seq<byte> | |c| >= CeilHalf(h) * chromaStride ensures NativeChromaRight(c, chromaStride, w, h) {
        NativeChroma(c, chromaStride, w, h);
      }
    } else if stride != Even(w) {
      LumaGoesWrong(stride, w, h);
      assert |BrightAt(h * stride, Even(w))| >= h * stride;
    } else {
      ChromaGoesWrong(chromaStride, w, h);
      assert |BrightAt(CeilHalf(h) * chromaStride, Even(w) / 2)| >= CeilHalf(h) * chromaStride;
    }
  }

  /** Rows of w bytes, or of w rounded up to an even number: with either layout the width must be even. */
  lemma NativeNeedsEvenWidth(w: nat)
    ensures w == Even(w) && CeilHalf(w) == Even(w) / 2 <==> w % 2 == 0
    ensures 2 * CeilHalf(w) == Even(w) && CeilHalf(w) == Even(w) / 2 <==> w % 2 == 0
  {}
}
