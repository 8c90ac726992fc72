/**
 * The content-aware crop: Sobel gradient energy of a window, and the
 * search for the window of highest energy on a grid of step 2. The scaled
 * sizes and positions that the program computes in floating point are
 * arbitrary naturals here, before the limits the program puts on them.
 */
module SmartCrop {
  type byte = b: int | 0 <= b < 256

  const STEP: nat := 2
  const MAX_SAMPLE_ENERGY: nat := 1300500   // 1020^2 + 510^2

  /** A grey image of at least one pixel. */
  datatype Grey = Grey(pixels: seq<seq<byte>>, w: nat) {
    ghost predicate Valid() {
      w > 0 && |pixels| > 0 && forall y :: 0 <= y < |pixels| ==> |pixels[y]| == w
    }

    function H(): nat { |pixels| }

    /** The pixel at (x, y), clamped to the border. */
    function Get(x: int, y: int): byte
      requires Valid()
    {
      pixels[ClampIndex(y, H())][ClampIndex(x, w)]
    }
  }

  function ClampIndex(k: int, n: nat): (r: nat)
    requires n > 0
    ensures r < n
  {
    if k < 0 then 0 else if k > n - 1 then n - 1 else k
  }

  /** No pixel index is nearer to k. */
  lemma ClampIsNearest(k: int, n: nat, j: nat)
    requires j < n
    ensures Abs(k - ClampIndex(k, n)) <= Abs(k - j)
  {}

  // ---------- Energy ----------

  function Gx(img: Grey, x: int, y: int): int
    requires img.Valid()
  {
    img.Get(x + 1, y - 1) + 2 * img.Get(x + 1, y) + img.Get(x + 1, y + 1)
    - img.Get(x - 1, y - 1) - 2 * img.Get(x - 1, y) - img.Get(x - 1, y + 1)
  }

  function Gy(img: Grey, x: int, y: int): int
    requires img.Valid()
  {
    img.Get(x - 1, y + 1) + 2 * img.Get(x, y + 1) + img.Get(x + 1, y + 1)
    - img.Get(x - 1, y - 1) - 2 * img.Get(x, y - 1) - img.Get(x + 1, y - 1)
  }

  function SampleEnergy(img: Grey, x: int, y: int): int
    requires img.Valid()
  {
    Gx(img, x, y) * Gx(img, x, y) + Gy(img, x, y) * Gy(img, x, y)
  }

  /** The samples x, x + step, ... below `end` of row y. */
  function RowEnergy(img: Grey, x: nat, end: nat, y: nat, step: nat): int
    requires img.Valid() && step > 0
    decreases end - x
  {
    if x >= end then 0 else SampleEnergy(img, x, y) + RowEnergy(img, x + step, end, y, step)
  }

  function Energy(img: Grey, x: nat, xEnd: nat, y: nat, yEnd: nat, step: nat): int
    requires img.Valid() && step > 0
    decreases yEnd - y
  {
    if y >= yEnd then 0 else RowEnergy(img, x, xEnd, y, step) + Energy(img, x, xEnd, y + step, yEnd, step)
  }

  /** How many samples a window of n pixels has on one axis. */
  function Samples(n: nat, step: nat): nat
    requires step > 0
  {
    if n == 0 then 0 else if n < step then 1 else 1 + Samples(n - step, step)
  }

  /** At the program's step of 2 that is half the pixels, rounded up. */
  lemma {:induction false} SamplesOfTwo(n: nat)
    ensures Samples(n, STEP) == (n + 1) / 2
  {
    if n >= 2 {
      SamplesOfTwo(n - 2);
    }
  }

  lemma {:induction false} SamplesCover(n: nat, step: nat)
    requires step > 0
    ensures n <= Samples(n, step) * step < n + step
  {
    if n >= step {
      SamplesCover(n - step, step);
      Distribute(1, Samples(n - step, step), step);
    } else if n > 0 {
      assert 1 * step == step;
    }
  }

  lemma Distribute(a: nat, b: nat, m: nat)
    ensures (a + b) * m == a * m + b * m
  {}

  // ---------- What one sample measures ----------

  /** The 3 by 3 neighbourhood of (x, y) lies inside the picture. */
  ghost predicate Interior(img: Grey, x: int, y: int)
    requires img.Valid()
  {
    1 <= x < img.w - 1 && 1 <= y < img.H() - 1
  }

  /** On an even slope, a levels per column and b per row, a sample measures 64 times the squared slope. */
  lemma SlopeEnergy(img: Grey, x: int, y: int, a: int, b: int, c: int)
    requires img.Valid() && Interior(img, x, y)
    requires forall r, q :: y - 1 <= r <= y + 1 && x - 1 <= q <= x + 1 ==>
      img.pixels[r][q] as int == a * (q - x) + b * (r - y) + c
    ensures SampleEnergy(img, x, y) == 64 * (a * a + b * b)
  {
    Neighbours(img, x, y);
    Slope(a, b, c);
    Eightfold(a);
    Eightfold(b);
    assert Gx(img, x, y) == 8 * a;
    assert Gy(img, x, y) == 8 * b;
  }

  lemma Eightfold(a: int)
    ensures 8 * a * (8 * a) == 64 * (a * a)
  {}

  lemma Slope(a: int, b: int, c: int)
    ensures a * -1 + b * -1 + c == c - a - b && a * 0 + b * -1 + c == c - b && a * 1 + b * -1 + c == c + a - b
    ensures a * -1 + b * 0 + c == c - a && a * 1 + b * 0 + c == c + a
    ensures a * -1 + b * 1 + c == c - a + b && a * 0 + b * 1 + c == c + b && a * 1 + b * 1 + c == c + a + b
  {}

  lemma Neighbours(img: Grey, x: int, y: int)
    requires img.Valid() && Interior(img, x, y)
    ensures img.Get(x - 1, y - 1) == img.pixels[y - 1][x - 1] && img.Get(x, y - 1) == img.pixels[y - 1][x]
    ensures img.Get(x + 1, y - 1) == img.pixels[y - 1][x + 1] && img.Get(x - 1, y) == img.pixels[y][x - 1]
    ensures img.Get(x + 1, y) == img.pixels[y][x + 1] && img.Get(x - 1, y + 1) == img.pixels[y + 1][x - 1]
    ensures img.Get(x, y + 1) == img.pixels[y + 1][x] && img.Get(x + 1, y + 1) == img.pixels[y + 1][x + 1]
  {}

  /** A single bright pixel counts twice its square at a corner of the sample, four times beside it, else nothing. */
  lemma SpotEnergy(img: Grey, x: int, y: int, px: int, py: int, v: byte)
    requires img.Valid() && Interior(img, x, y)
    requires forall j, i :: 0 <= j < img.H() && 0 <= i < img.w ==>
      img.pixels[j][i] == if j == py && i == px then v else 0
    ensures
      SampleEnergy(img, x, y) ==
        var dx, dy := Abs(px - x), Abs(py - y);
        if dx == 1 && dy == 1 then 2 * (v * v) else if dx + dy == 1 then 4 * (v * v) else 0
  {
    Neighbours(img, x, y);
    Squares(v);
  }

  lemma Squares(v: int)
    ensures 2 * v * (2 * v) == 4 * (v * v) && (0 - v) * (0 - v) == v * v && (0 - 2 * v) * (0 - 2 * v) == 4 * (v * v)
  {}

  /** The largest energy is reached: the corner of a bright region that ends at the sample. */
  lemma MaxIsReached()
    ensures
      var img := Grey([[0, 0, 255], [0, 0, 255], [0, 255, 255]], 3);
      img.Valid() && SampleEnergy(img, 1, 1) == 1020 * 1020 + 510 * 510 == MAX_SAMPLE_ENERGY
  {
    var top, bottom: seq<byte> := [0, 0, 255], [0, 255, 255];
    var img := Grey([top, top, bottom], 3);
    assert img.pixels[0] == img.pixels[1] == top && img.pixels[2] == bottom;
    Neighbours(img, 1, 1);
    assert Gx(img, 1, 1) == 1020 && Gy(img, 1, 1) == 510;
  }

  /** t shows img with rows and columns exchanged. */
  ghost predicate Transposes(img: Grey, t: Grey)
    requires img.Valid() && t.Valid()
  {
    && t.w == img.H() && t.H() == img.w
    && forall x, y :: 0 <= x < img.w && 0 <= y < img.H() ==> t.pixels[x][y] == img.pixels[y][x]
  }

  lemma TransposedSample(img: Grey, t: Grey, x: int, y: int)
    requires img.Valid() && t.Valid() && Transposes(img, t)
    ensures SampleEnergy(t, y, x) == SampleEnergy(img, x, y)
  {
    assert Gx(t, y, x) == Gy(img, x, y) && Gy(t, y, x) == Gx(img, x, y) by {
      forall i, j ensures t.Get(j, i) == img.Get(i, j) {}
    }
  }

  // ---------- Regions as double sums ----------

  /** f(0) + ... + f(n - 1). */
  ghost function SumTo(n: nat, f: nat -> int): int {
    if n == 0 then 0 else SumTo(n - 1, f) + f(n - 1)
  }

  lemma {:induction false} SumShift(n: nat, f: nat -> int, g: nat -> int)
    requires forall i: nat :: i < n ==> g(i) == f(i + 1)
    ensures SumTo(n + 1, f) == f(0) + SumTo(n, g)
  {
    if n > 0 {
      SumShift(n - 1, f, g);
    }
  }

  lemma {:induction false} SumEqual(n: nat, f: nat -> int, g: nat -> int)
    requires forall i: nat :: i < n ==> f(i) == g(i)
    ensures SumTo(n, f) == SumTo(n, g)
  {
    if n > 0 {
      SumEqual(n - 1, f, g);
    }
  }

  lemma {:induction false} SumPlus(n: nat, f: nat -> int, g: nat -> int)
    ensures SumTo(n, f) + SumTo(n, g) == SumTo(n, (i: nat) => f(i) + g(i))
  {
    if n > 0 {
      SumPlus(n - 1, f, g);
    }
  }

  /** A double sum can be taken by rows or by columns. */
  lemma {:induction false} SumSwap(n: nat, m: nat, f: (nat, nat) -> int)
    ensures SumTo(n, (i: nat) => SumTo(m, (j: nat) => f(i, j))) == SumTo(m, (j: nat) => SumTo(n, (i: nat) => f(i, j)))
  {
    var rows := (i: nat) => SumTo(m, (j: nat) => f(i, j));
    if n == 0 {
      SumEqual(m, (j: nat) => SumTo(n, (i: nat) => f(i, j)), (j: nat) => 0);
      SumZero(m);
    } else {
      SumSwap(n - 1, m, f);
      var before, last := (j: nat) => SumTo(n - 1, (i: nat) => f(i, j)), (j: nat) => f(n - 1, j);
      SumPlus(m, before, last);
      SumEqual(m, (j: nat) => SumTo(n, (i: nat) => f(i, j)), (j: nat) => before(j) + last(j));
      assert rows(n - 1) == SumTo(m, last);
    }
  }

  lemma {:induction false} SumZero(n: nat)
    ensures SumTo(n, (j: nat) => 0) == 0
  {
    if n > 0 {
      SumZero(n - 1);
    }
  }

  /** The sample energies of n points in a row, `step` pixels apart, starting at (x, y). */
  ghost function RowSum(img: Grey, x: nat, y: nat, n: nat, step: nat): int
    requires img.Valid()
  {
    SumTo(n, (i: nat) => SampleEnergy(img, x + i * step, y))
  }

  ghost function GridSum(img: Grey, x: nat, y: nat, n: nat, m: nat, step: nat): int
    requires img.Valid()
  {
    SumTo(m, (j: nat) => RowSum(img, x, y + j * step, n, step))
  }

  lemma NextRow(y: nat, j: nat, step: nat)
    ensures y + 0 * step == y && y + step + j * step == y + (j + 1) * step
  {}

  lemma RowShift(img: Grey, x: nat, y: nat, n: nat, step: nat)
    requires img.Valid()
    ensures RowSum(img, x, y, n + 1, step) == SampleEnergy(img, x, y) + RowSum(img, x + step, y, n, step)
  {
    var f := (i: nat) => SampleEnergy(img, x + i * step, y);
    var g := (i: nat) => SampleEnergy(img, x + step + i * step, y);
    forall i: nat ensures g(i) == f(i + 1) {
      Distribute(i, 1, step);
    }
    SumShift(n, f, g);
  }

  lemma GridShift(img: Grey, x: nat, y: nat, n: nat, m: nat, step: nat)
    requires img.Valid()
    ensures GridSum(img, x, y, n, m + 1, step) == RowSum(img, x, y, n, step) + GridSum(img, x, y + step, n, m, step)
  {
    var f := (j: nat) => RowSum(img, x, y + j * step, n, step);
    var g := (j: nat) => RowSum(img, x, y + step + j * step, n, step);
    forall j: nat ensures g(j) == f(j + 1) {
      NextRow(y, j, step);
    }
    NextRow(y, 0, step);
    SumShift(m, f, g);
  }

  lemma {:induction false} RowIsSum(img: Grey, x: nat, end: nat, y: nat, step: nat)
    requires img.Valid() && step > 0 && x <= end
    ensures RowEnergy(img, x, end, y, step) == RowSum(img, x, y, Samples(end - x, step), step)
    decreases end - x
  {
    if x + step <= end {
      RowIsSum(img, x + step, end, y, step);
      RowShift(img, x, y, Samples(end - x - step, step), step);
    } else if x < end {
      RowShift(img, x, y, 0, step);
    }
  }

  /** A region's energy is the sum of its samples over a grid of Samples(..) by Samples(..) points. */
  lemma {:induction false} EnergyIsGridSum(img: Grey, x: nat, xEnd: nat, y: nat, yEnd: nat, step: nat)
    requires img.Valid() && step > 0 && x <= xEnd && y <= yEnd
    ensures
      Energy(img, x, xEnd, y, yEnd, step) == GridSum(img, x, y, Samples(xEnd - x, step), Samples(yEnd - y, step), step)
    decreases yEnd - y
  {
    var n := Samples(xEnd - x, step);
    if y < yEnd {
      RowIsSum(img, x, xEnd, y, step);
    }
    if y + step <= yEnd {
      EnergyIsGridSum(img, x, xEnd, y + step, yEnd, step);
      GridShift(img, x, y, n, Samples(yEnd - y - step, step), step);
    } else if y < yEnd {
      GridShift(img, x, y, n, 0, step);
    }
  }

  /** The energy of a region is the energy of the same region in the transposed picture. */
  lemma TransposedEnergy(img: Grey, t: Grey, x: nat, xEnd: nat, y: nat, yEnd: nat, step: nat)
    requires img.Valid() && t.Valid() && Transposes(img, t) && step > 0 && x <= xEnd && y <= yEnd
    ensures Energy(t, y, yEnd, x, xEnd, step) == Energy(img, x, xEnd, y, yEnd, step)
  {
    var n, m := Samples(xEnd - x, step), Samples(yEnd - y, step);
    EnergyIsGridSum(img, x, xEnd, y, yEnd, step);
    EnergyIsGridSum(t, y, yEnd, x, xEnd, step);
    TransposedGrid(img, t, x, y, n, m, step);
  }

  lemma TransposedGrid(img: Grey, t: Grey, x: nat, y: nat, n: nat, m: nat, step: nat)
    requires img.Valid() && t.Valid() && Transposes(img, t)
    ensures GridSum(t, y, x, m, n, step) == GridSum(img, x, y, n, m, step)
  {
    var f := (j: nat, i: nat) => SampleEnergy(img, x + i * step, y + j * step);
    forall j: nat, i: nat ensures SampleEnergy(t, y + j * step, x + i * step) == f(j, i) {
      TransposedSample(img, t, x + i * step, y + j * step);
    }
    GridByRows(img, x, y, n, m, step, f);
    GridByColumns(t, x, y, n, m, step, f);
    SumSwap(m, n, f);
  }

  lemma GridByRows(img: Grey, x: nat, y: nat, n: nat, m: nat, step: nat, f: (nat, nat) -> int)
    requires img.Valid() && forall j: nat, i: nat :: f(j, i) == SampleEnergy(img, x + i * step, y + j * step)
    ensures GridSum(img, x, y, n, m, step) == SumTo(m, (j: nat) => SumTo(n, (i: nat) => f(j, i)))
  {
    forall j: nat ensures RowSum(img, x, y + j * step, n, step) == SumTo(n, (i: nat) => f(j, i)) {
      SumEqual(n, (i: nat) => SampleEnergy(img, x + i * step, y + j * step), (i: nat) => f(j, i));
    }
    SumEqual(m, (j: nat) => RowSum(img, x, y + j * step, n, step), (j: nat) => SumTo(n, (i: nat) => f(j, i)));
  }

  lemma GridByColumns(t: Grey, x: nat, y: nat, n: nat, m: nat, step: nat, f: (nat, nat) -> int)
    requires t.Valid() && forall j: nat, i: nat :: f(j, i) == SampleEnergy(t, y + j * step, x + i * step)
    ensures GridSum(t, y, x, m, n, step) == SumTo(n, (i: nat) => SumTo(m, (j: nat) => f(j, i)))
  {
    forall i: nat ensures RowSum(t, y, x + i * step, m, step) == SumTo(m, (j: nat) => f(j, i)) {
      SumEqual(m, (j: nat) => SampleEnergy(t, y + j * step, x + i * step), (j: nat) => f(j, i));
    }
    SumEqual(n, (i: nat) => RowSum(t, y, x + i * step, m, step), (i: nat) => SumTo(m, (j: nat) => f(j, i)));
  }

  lemma SquareBound(a: int, m: int)
    requires 0 <= m && -m <= a <= m
    ensures a * a <= m * m
  {
    if a >= 0 {
      assert a * a <= m * a <= m * m;
    } else {
      assert (-a) * (-a) <= m * (-a) <= m * m;
    }
  }

  /** Two gradients that share corners cannot both be extreme. */
  lemma GradientBound(p: int, q: int)
    requires p >= 0 && q >= 0 && p <= 1020 && q <= 1020 && p + q <= 1530
    ensures p * p + q * q <= MAX_SAMPLE_ENERGY
  {
    var x, y := p - 510, q - 510;
    if x <= 0 {
      SquareBound(p, 510);
      SquareBound(q, 1020);
    } else if y <= 0 {
      SquareBound(q, 510);
      SquareBound(p, 1020);
    } else {
      assert x * y >= 0;
      SquareBound(x + y, 510);
      assert (x + y) * (x + y) == x * x + y * y + 2 * (x * y);
      assert p * p == x * x + 1020 * x + 510 * 510;
      assert q * q == y * y + 1020 * y + 510 * 510;
    }
  }

  function Abs(a: int): nat {
    if a < 0 then -a else a
  }

  lemma SobelBound(nw: byte, n: byte, ne: byte, w: byte, e: byte, sw: byte, so: byte, se: byte)
    ensures
      var gx := ne + 2 * e + se - nw - 2 * w - sw;
      var gy := sw + 2 * so + se - nw - 2 * n - ne;
      0 <= gx * gx + gy * gy <= MAX_SAMPLE_ENERGY
  {
    var gx := ne + 2 * e + se - nw - 2 * w - sw;
    var gy := sw + 2 * so + se - nw - 2 * n - ne;
    GradientBound(Abs(gx), Abs(gy));
    assert Abs(gx) * Abs(gx) == gx * gx && Abs(gy) * Abs(gy) == gy * gy;
  }

  /** No sample exceeds 1020^2 + 510^2, the energy of a straight black-white edge that ends at the sample. */
  lemma {:induction false} SampleEnergyBound(img: Grey, x: int, y: int)
    requires img.Valid()
    ensures 0 <= SampleEnergy(img, x, y) <= MAX_SAMPLE_ENERGY
  {
    SobelBound(img.Get(x - 1, y - 1), img.Get(x, y - 1), img.Get(x + 1, y - 1), img.Get(x - 1, y), img.Get(x + 1, y),
               img.Get(x - 1, y + 1), img.Get(x, y + 1), img.Get(x + 1, y + 1));
  }

  lemma {:induction false} RowEnergyBound(img: Grey, x: nat, end: nat, y: nat, step: nat)
    requires img.Valid() && step > 0 && x <= end
    ensures 0 <= RowEnergy(img, x, end, y, step) <= Samples(end - x, step) * MAX_SAMPLE_ENERGY
    decreases end - x
  {
    if x < end {
      SampleEnergyBound(img, x, y);
      if x + step <= end {
        RowEnergyBound(img, x + step, end, y, step);
      }
    }
  }

  lemma OneMore(k: nat, row: nat)
    ensures (1 + k) * row == row + k * row
  {}

  /** A window's energy is at most the number of its samples times the largest sample energy. */
  lemma {:induction false} EnergyBound(img: Grey, x: nat, xEnd: nat, y: nat, yEnd: nat, step: nat)
    requires img.Valid() && step > 0 && x <= xEnd && y <= yEnd
    ensures 0 <= Energy(img, x, xEnd, y, yEnd, step)
    ensures
      var row := Samples(xEnd - x, step) * MAX_SAMPLE_ENERGY;
      Energy(img, x, xEnd, y, yEnd, step) <= Samples(yEnd - y, step) * row
    decreases yEnd - y
  {
    var row := Samples(xEnd - x, step) * MAX_SAMPLE_ENERGY;
    if y < yEnd {
      RowEnergyBound(img, x, xEnd, y, step);
      if y + step <= yEnd {
        EnergyBound(img, x, xEnd, y + step, yEnd, step);
        OneMore(Samples(yEnd - y - step, step), row);
      }
    }
  }

  /** Sum of squared gradient magnitudes over a region, sampled every `step` pixels. */
  method RegionGradientEnergy(img: Grey, rx: nat, ry: nat, rw: nat, rh: nat, step: nat) returns (energy: int)
    requires img.Valid() && step > 0
    ensures energy == Energy(img, rx, rx + rw, ry, ry + rh, step)
    ensures 0 <= energy <= Samples(rh, step) * (Samples(rw, step) * MAX_SAMPLE_ENERGY)
  {
    energy := 0;
    var y := ry;
    while y < ry + rh
      invariant ry <= y
      invariant energy + Energy(img, rx, rx + rw, y, ry + rh, step) == Energy(img, rx, rx + rw, ry, ry + rh, step)
    {
      var x := rx;
      ghost var before := energy;
      while x < rx + rw
        invariant rx <= x
        invariant energy + RowEnergy(img, x, rx + rw, y, step) == before + RowEnergy(img, rx, rx + rw, y, step)
      {
        var gx, gy := Gx(img, x, y), Gy(img, x, y);
        energy := energy + (gx * gx + gy * gy);
        x := x + step;
      }
      y := y + step;
    }
    EnergyBound(img, rx, rx + rw, ry, ry + rh, step);
  }

  // ---------- The search ----------

  /** The energy of the cw by ch window at each position. */
  function WindowEnergies(img: Grey, cw: nat, ch: nat): (nat, nat) -> int
    requires img.Valid()
  {
    (x: nat, y: nat) => Energy(img, x, x + cw, y, y + ch, STEP)
  }

  /** The grid of positions: even, and at most (maxX, maxY). */
  predicate OnGrid(maxX: nat, maxY: nat, x: nat, y: nat) {
    x % STEP == 0 && y % STEP == 0 && x <= maxX && y <= maxY
  }

  /** Row-major order. */
  predicate Before(x: nat, y: nat, x': nat, y': nat) {
    y < y' || (y == y' && x < x')
  }

  /** A search result so far: the centre while no energy was seen. */
  datatype Best = Best(x: nat, y: nat, energy: int)

  /** b is the best of the grid positions before (x, y): none has more energy, and none before b as much. */
  ghost predicate BestBefore(e: (nat, nat) -> int, maxX: nat, maxY: nat, b: Best, x: nat, y: nat) {
    && 0 <= b.energy
    && (b.energy == 0 ==> b.x == maxX / 2 && b.y == maxY / 2)
    && (b.energy > 0 ==> OnGrid(maxX, maxY, b.x, b.y) && Before(b.x, b.y, x, y) && e(b.x, b.y) == b.energy)
    && (forall px: nat, py: nat :: OnGrid(maxX, maxY, px, py) && Before(px, py, x, y) ==> e(px, py) <= b.energy)
    && (b.energy > 0 ==>
          forall px: nat, py: nat :: OnGrid(maxX, maxY, px, py) && Before(px, py, b.x, b.y) ==> e(px, py) < b.energy)
  }

  lemma VisitNext(e: (nat, nat) -> int, maxX: nat, maxY: nat, b: Best, x: nat, y: nat)
    requires OnGrid(maxX, maxY, x, y) && BestBefore(e, maxX, maxY, b, x, y)
    ensures BestBefore(e, maxX, maxY, if e(x, y) > b.energy then Best(x, y, e(x, y)) else b, x + STEP, y)
  {
    forall px: nat, py: nat | OnGrid(maxX, maxY, px, py) && Before(px, py, x + STEP, y)
      ensures Before(px, py, x, y) || (px == x && py == y)
    {}
  }

  lemma RowVisited(e: (nat, nat) -> int, maxX: nat, maxY: nat, b: Best, x: nat, y: nat)
    requires x > maxX && y % STEP == 0 && BestBefore(e, maxX, maxY, b, x, y)
    ensures BestBefore(e, maxX, maxY, b, 0, y + STEP)
  {
    forall px: nat, py: nat | OnGrid(maxX, maxY, px, py) && Before(px, py, 0, y + STEP)
      ensures Before(px, py, x, y)
    {}
  }

  /** (x, y) has the most energy of the whole grid, is the first in row-major order on ties, the centre if all are 0. */
  ghost predicate IsChosen(e: (nat, nat) -> int, maxX: nat, maxY: nat, x: nat, y: nat) {
    if forall px: nat, py: nat :: OnGrid(maxX, maxY, px, py) ==> e(px, py) == 0 then
      x == maxX / 2 && y == maxY / 2
    else
      && OnGrid(maxX, maxY, x, y)
      && (forall px: nat, py: nat :: OnGrid(maxX, maxY, px, py) ==> e(px, py) <= e(x, y))
      && (forall px: nat, py: nat :: OnGrid(maxX, maxY, px, py) && Before(px, py, x, y) ==> e(px, py) < e(x, y))
  }

  lemma AllVisited(e: (nat, nat) -> int, maxX: nat, maxY: nat, b: Best, y: nat)
    requires y > maxY && BestBefore(e, maxX, maxY, b, 0, y)
    requires forall px: nat, py: nat :: 0 <= e(px, py)
    ensures IsChosen(e, maxX, maxY, b.x, b.y)
  {
    forall px: nat, py: nat | OnGrid(maxX, maxY, px, py) ensures 0 <= e(px, py) <= b.energy {
      assert Before(px, py, 0, y);
    }
  }

  lemma EnergiesNonNegative(img: Grey, cw: nat, ch: nat)
    requires img.Valid()
    ensures forall px: nat, py: nat :: 0 <= WindowEnergies(img, cw, ch)(px, py)
  {
    forall px: nat, py: nat ensures 0 <= WindowEnergies(img, cw, ch)(px, py) {
      EnergyBound(img, px, px + cw, py, py + ch, STEP);
    }
  }

  /** What is searched: the energies of all positions of a cw by ch window and the largest position. */
  ghost predicate Searches(img: Grey, cw: nat, ch: nat, e: (nat, nat) -> int, maxX: nat, maxY: nat) {
    img.Valid() && maxX + cw == img.w && maxY + ch == img.H() && e == WindowEnergies(img, cw, ch)
  }

  /** Keeps the window at (x, y) if it has more energy than the best so far. */
  method Visit(img: Grey, cw: nat, ch: nat, x: nat, y: nat, start: Best,
               ghost e: (nat, nat) -> int, ghost maxX: nat, ghost maxY: nat)
    returns (b: Best)
    requires Searches(img, cw, ch, e, maxX, maxY) && OnGrid(maxX, maxY, x, y) && BestBefore(e, maxX, maxY, start, x, y)
    ensures BestBefore(e, maxX, maxY, b, x + STEP, y)
  {
    b := start;
    var energy := RegionGradientEnergy(img, x, y, cw, ch, STEP);
    VisitNext(e, maxX, maxY, b, x, y);
    if energy > b.energy {
      b := Best(x, y, energy);
    }
  }

  /** Slides the window along one row of the grid. */
  method ScanRow(img: Grey, cw: nat, ch: nat, y: nat, start: Best,
                 ghost e: (nat, nat) -> int, ghost maxX: nat, ghost maxY: nat)
    returns (b: Best)
    requires Searches(img, cw, ch, e, maxX, maxY) && OnGrid(maxX, maxY, 0, y) && BestBefore(e, maxX, maxY, start, 0, y)
    ensures BestBefore(e, maxX, maxY, b, 0, y + STEP)
  {
    b := start;
    var x := 0;
    while true
      invariant OnGrid(maxX, maxY, x, y) && BestBefore(e, maxX, maxY, b, x, y)
      decreases maxX - x
    {
      b := Visit(img, cw, ch, x, y, b, e, maxX, maxY);
      var next := x + STEP;
      if next + cw > img.w {
        RowVisited(e, maxX, maxY, b, next, y);
        break;
      }
      x := next;
    }
  }

  /** Slides the window over the grid and keeps the position of highest energy. */
  method FindWindow(img: Grey, cw: nat, ch: nat) returns (bestX: nat, bestY: nat)
    requires img.Valid() && cw <= img.w && ch <= img.H()
    ensures bestX + cw <= img.w && bestY + ch <= img.H()
    ensures IsChosen(WindowEnergies(img, cw, ch), img.w - cw, img.H() - ch, bestX, bestY)
  {
    ghost var e, maxX, maxY := WindowEnergies(img, cw, ch), img.w - cw, img.H() - ch;
    EnergiesNonNegative(img, cw, ch);
    var b := Best((img.w - cw) / 2, (img.H() - ch) / 2, 0);
    var y := 0;
    while true
      invariant OnGrid(maxX, maxY, 0, y) && BestBefore(e, maxX, maxY, b, 0, y)
      decreases maxY - y
    {
      b := ScanRow(img, cw, ch, y, b, e, maxX, maxY);
      var next := y + STEP;
      if next + ch > img.H() {
        AllVisited(e, maxX, maxY, b, next);
        break;
      }
      y := next;
    }
    bestX, bestY := b.x, b.y;
  }

  function Min(a: nat, b: nat): nat { if a < b then a else b }

  /** The rounded crop side, at least 1 and at most the analysis picture. */
  function CropSide(scaledSide: nat, limit: nat): (side: nat)
    ensures side <= limit && (limit >= 1 ==> side >= 1)
    ensures 1 <= scaledSide <= limit ==> side == scaledSide
    ensures scaledSide > limit ==> side == limit
  {
    Min(if scaledSide < 1 then 1 else scaledSide, limit)
  }

  /** Subtraction that stops at 0. */
  function Less(a: nat, b: nat): nat { if a < b then 0 else a - b }

  /**
   * The crop of a srcW by srcH picture to the shape of the target. `small` is
   * the picture scaled down for analysis; fitW and fitH are the truncated
   * sides of the largest region of a shape that is not square, scaledW and
   * scaledH the rounded scaled crop sides, and upscale the rounded mapping of
   * an analysis coordinate back to the source.
   */
  method Crop(srcW: nat, srcH: nat, targetW: nat, targetH: nat, small: Grey, fitW: nat, fitH: nat,
              scaledW: nat, scaledH: nat, upscale: nat -> nat)
    returns (x: nat, y: nat, w: nat, h: nat, ghost ax: nat, ghost ay: nat)
    requires small.Valid()
    ensures x + w <= srcW && y + h <= srcH
    ensures srcW <= targetW && srcH <= targetH ==> x == 0 && y == 0 && w == srcW && h == srcH
    ensures srcW > targetW || srcH > targetH ==>
      && (targetW == targetH ==> w == h == Min(srcW, srcH))
      && (targetW != targetH ==> w == Min(fitW, srcW) && h == Min(fitH, srcH))
      && IsChosen(WindowEnergies(small, CropSide(scaledW, small.w), CropSide(scaledH, small.H())),
                  small.w - CropSide(scaledW, small.w), small.H() - CropSide(scaledH, small.H()), ax, ay)
      && x == Min(upscale(ax), srcW - w) && y == Min(upscale(ay), srcH - h)
  {
    ax, ay := 0, 0;
    if srcW <= targetW && srcH <= targetH {
      x, y, w, h := 0, 0, srcW, srcH;
    } else {
      var cropW, cropH := fitW, fitH;
      if targetW == targetH {
        cropW, cropH := Min(srcW, srcH), Min(srcW, srcH);
      }
      var bestX, bestY := FindWindow(small, CropSide(scaledW, small.w), CropSide(scaledH, small.H()));
      ax, ay := bestX, bestY;
      x, y := Min(upscale(bestX), Less(srcW, cropW)), Min(upscale(bestY), Less(srcH, cropH));
      w, h := Min(cropW, srcW - x), Min(cropH, srcH - y);
    }
  }
}
