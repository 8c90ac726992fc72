/**
 * The bit half of the perceptual hash: median threshold, MSB-first packing into
 * four 64-bit words, and the Hamming distance computed word by word. The 256
 * coefficients are arbitrary reals; a word is its unsigned value.
 */
module PHash {
  const HASH_BITS: nat := 256
  const WORD_LIMIT: nat := 0x1_0000_0000_0000_0000

  // ---------- Words ----------

  /** Bit b of w, bit 0 being the least significant. */
  predicate Bit(w: nat, b: nat) {
    if b == 0 then w % 2 == 1 else Bit(w / 2, b - 1)
  }

  /** Bit b is the digit of 2^b. */
  lemma {:induction false} BitMeaning(w: nat, b: nat)
    ensures Pow2(b) > 0 && (Bit(w, b) <==> w / Pow2(b) % 2 == 1)
  {
    Pow2Positive(b);
    if b > 0 {
      Pow2Positive(b - 1);
      BitMeaning(w / 2, b - 1);
      HalveFirst(w, Pow2(b - 1));
    }
  }

  lemma HalveFirst(w: nat, p: nat)
    requires p > 0
    ensures w / 2 / p == w / (2 * p)
  {
    var q := w / (2 * p);
    var r := w - 2 * p * q;
    assert 0 <= r < 2 * p && w / 2 == p * q + r / 2;
    QuotientIs(w / 2, p, q);
  }

  lemma QuotientIs(n: nat, p: nat, q: nat)
    requires p > 0 && 0 <= n - p * q < p
    ensures n / p == q
  {
    var k := n / p;
    assert p * k <= n < p * k + p;
    if k > q {
      TimesGrows(p, q + 1, k);
    } else if q > k {
      TimesGrows(p, k + 1, q);
    }
  }

  lemma TimesGrows(p: nat, a: nat, b: nat)
    requires a <= b
    ensures p * a <= p * b
  {
    assert p * (b - a) >= 0;
  }

  lemma {:induction false} Pow2Positive(n: nat)
    ensures Pow2(n) > 0
  {
    if n > 0 {
      Pow2Positive(n - 1);
    }
  }

  /** w OR (1 << b). */
  function SetBit(w: nat, b: nat): nat {
    if b == 0 then (if w % 2 == 1 then w else w + 1) else 2 * SetBit(w / 2, b - 1) + w % 2
  }

  function Pow2(n: nat): nat {
    if n == 0 then 1 else 2 * Pow2(n - 1)
  }

  lemma {:induction false} Pow2Add(m: nat, n: nat)
    ensures Pow2(m + n) == Pow2(m) * Pow2(n)
  {
    if m > 0 {
      Pow2Add(m - 1, n);
    }
  }

  lemma WordLimitIsPow2()
    ensures Pow2(64) == WORD_LIMIT
  {
    assert Pow2(8) == 256;
    Pow2Add(8, 8);
    Pow2Add(16, 16);
    Pow2Add(32, 32);
  }

  lemma {:induction false} SetBitBit(w: nat, b: nat, c: nat)
    ensures Bit(SetBit(w, b), c) == (b == c || Bit(w, c))
  {
    if b > 0 {
      Halves(SetBit(w / 2, b - 1), w % 2);
      if c > 0 {
        SetBitBit(w / 2, b - 1, c - 1);
      }
    } else {
      Halves(w / 2, 1);
      assert SetBit(w, 0) == 2 * (w / 2) + 1;
    }
  }

  lemma Halves(q: nat, r: nat)
    requires r < 2
    ensures (2 * q + r) / 2 == q && (2 * q + r) % 2 == r
  {}

  lemma {:induction false} SetBitBound(w: nat, b: nat, n: nat)
    requires w < Pow2(n) && b < n
    ensures SetBit(w, b) < Pow2(n)
  {
    var half := Pow2(n - 1);
    assert Pow2(n) == 2 * half;
    if b > 0 {
      HalfBelow(w, half);
      SetBitBound(w / 2, b - 1, n - 1);
      assert SetBit(w, b) == 2 * SetBit(w / 2, b - 1) + w % 2;
    }
  }

  lemma HalfBelow(w: nat, half: nat)
    requires w < 2 * half
    ensures w / 2 < half
  {}

  lemma {:induction false} WordExtensionality(v: nat, w: nat, n: nat)
    requires v < Pow2(n) && w < Pow2(n)
    requires forall b :: 0 <= b < n ==> Bit(v, b) == Bit(w, b)
    ensures v == w
  {
    if n > 0 {
      forall b | 0 <= b < n - 1 ensures Bit(v / 2, b) == Bit(w / 2, b) {
        assert Bit(v, b + 1) == Bit(w, b + 1);
      }
      WordExtensionality(v / 2, w / 2, n - 1);
      assert Bit(v, 0) == Bit(w, 0);
    }
  }

  /** bit_count(a XOR b) over the low n bits. */
  function XorCount(a: nat, b: nat, n: nat): nat {
    if n == 0 then 0 else (if a % 2 != b % 2 then 1 else 0) + XorCount(a / 2, b / 2, n - 1)
  }

  datatype Hash = Hash(w0: nat, w1: nat, w2: nat, w3: nat) {
    function Word(j: nat): nat
      requires j < 4
    {
      if j == 0 then w0 else if j == 1 then w1 else if j == 2 then w2 else w3
    }

    predicate Valid() {
      w0 < WORD_LIMIT && w1 < WORD_LIMIT && w2 < WORD_LIMIT && w3 < WORD_LIMIT
    }
  }

  /** The distance the duplicate query computes: four XOR popcounts added up. */
  function Hamming(g: Hash, h: Hash): nat {
    XorCount(g.w0, h.w0, 64) + XorCount(g.w1, h.w1, 64) + XorCount(g.w2, h.w2, 64) + XorCount(g.w3, h.w3, 64)
  }

  /** The bits of a word, most significant first. */
  function WordBits(w: nat, n: nat): seq<bool> {
    if n == 0 then [] else WordBits(w / 2, n - 1) + [w % 2 == 1]
  }

  lemma {:induction false} WordBitsAt(w: nat, n: nat, k: nat)
    requires k < n
    ensures |WordBits(w, n)| == n && WordBits(w, n)[k] == Bit(w, n - 1 - k)
  {
    if k < n - 1 {
      WordBitsAt(w / 2, n - 1, k);
    } else if n > 1 {
      WordBitsAt(w / 2, n - 1, 0);
    }
  }

  function Unpack(h: Hash): seq<bool> {
    WordBits(h.w0, 64) + WordBits(h.w1, 64) + WordBits(h.w2, 64) + WordBits(h.w3, 64)
  }

  lemma {:induction false} WordBitsLength(w: nat, n: nat)
    ensures |WordBits(w, n)| == n
  {
    if n > 0 {
      WordBitsLength(w / 2, n - 1);
    }
  }

  lemma FourAt(a: seq<bool>, b: seq<bool>, c: seq<bool>, d: seq<bool>, i: nat)
    requires |a| == |b| == |c| == |d| == 64 && i < HASH_BITS
    ensures |a + b + c + d| == HASH_BITS
    ensures
      var word := if i / 64 == 0 then a else if i / 64 == 1 then b else if i / 64 == 2 then c else d;
      (a + b + c + d)[i] == word[i % 64]
  {}

  lemma UnpackAt(h: Hash, i: nat)
    requires i < HASH_BITS
    ensures |Unpack(h)| == HASH_BITS && Unpack(h)[i] == Bit(h.Word(i / 64), 63 - i % 64)
  {
    WordBitsLength(h.w0, 64);
    WordBitsLength(h.w1, 64);
    WordBitsLength(h.w2, 64);
    WordBitsLength(h.w3, 64);
    WordBitsAt(h.Word(i / 64), 64, i % 64);
    FourAt(WordBits(h.w0, 64), WordBits(h.w1, 64), WordBits(h.w2, 64), WordBits(h.w3, 64), i);
  }

  /** Distinct hashes have distinct bits: packing loses nothing. */
  lemma UnpackInjective(g: Hash, h: Hash)
    requires g.Valid() && h.Valid() && Unpack(g) == Unpack(h)
    ensures g == h
  {
    WordLimitIsPow2();
    forall j: nat | j < 4 ensures g.Word(j) == h.Word(j) {
      forall b | 0 <= b < 64 ensures Bit(g.Word(j), b) == Bit(h.Word(j), b) {
        var i := 64 * j + (63 - b);
        UnpackAt(g, i);
        UnpackAt(h, i);
        assert i / 64 == j && i % 64 == 63 - b;
      }
      WordExtensionality(g.Word(j), h.Word(j), 64);
    }
    assert g.Word(0) == h.Word(0) && g.Word(1) == h.Word(1) && g.Word(2) == h.Word(2) && g.Word(3) == h.Word(3);
  }

  // ---------- Distance ----------

  function Ones(x: seq<bool>): nat {
    if x == [] then 0 else Ones(x[..|x| - 1]) + if x[|x| - 1] then 1 else 0
  }

  /** The number of positions where two bit strings differ. */
  function Differing(x: seq<bool>, y: seq<bool>): nat
    requires |x| == |y|
  {
    if x == [] then 0 else Differing(x[..|x| - 1], y[..|y| - 1]) + if x[|x| - 1] != y[|y| - 1] then 1 else 0
  }

  lemma {:induction false} DifferingConcat(x: seq<bool>, y: seq<bool>, u: seq<bool>, v: seq<bool>)
    requires |x| == |y| && |u| == |v|
    ensures Differing(x + u, y + v) == Differing(x, y) + Differing(u, v)
    decreases |u|
  {
    if u == [] {
      assert x + u == x && y + v == y;
    } else {
      var n := |u| - 1;
      DifferingConcat(x, y, u[..n], v[..n]);
      assert (x + u)[..|x + u| - 1] == x + u[..n] && (y + v)[..|y + v| - 1] == y + v[..n];
    }
  }

  lemma {:induction false} XorCountDiffering(a: nat, b: nat, n: nat)
    ensures |WordBits(a, n)| == |WordBits(b, n)| == n
    ensures XorCount(a, b, n) == Differing(WordBits(a, n), WordBits(b, n))
  {
    WordBitsLength(a, n);
    WordBitsLength(b, n);
    if n > 0 {
      XorCountDiffering(a / 2, b / 2, n - 1);
      DifferingSnoc(WordBits(a / 2, n - 1), WordBits(b / 2, n - 1), a % 2 == 1, b % 2 == 1);
      assert (a % 2 == 1) != (b % 2 == 1) <==> a % 2 != b % 2;
    }
  }

  lemma DifferingSnoc(x: seq<bool>, y: seq<bool>, a: bool, b: bool)
    requires |x| == |y|
    ensures Differing(x + [a], y + [b]) == Differing(x, y) + if a != b then 1 else 0
  {
    assert (x + [a])[..|x|] == x && (y + [b])[..|y|] == y;
  }

  lemma HammingCountsDifferingBits(g: Hash, h: Hash)
    ensures |Unpack(g)| == |Unpack(h)| == HASH_BITS
    ensures Hamming(g, h) == Differing(Unpack(g), Unpack(h))
  {
    XorCountDiffering(g.w0, h.w0, 64);
    XorCountDiffering(g.w1, h.w1, 64);
    XorCountDiffering(g.w2, h.w2, 64);
    XorCountDiffering(g.w3, h.w3, 64);
    var g0, g1, g2, g3 := WordBits(g.w0, 64), WordBits(g.w1, 64), WordBits(g.w2, 64), WordBits(g.w3, 64);
    var h0, h1, h2, h3 := WordBits(h.w0, 64), WordBits(h.w1, 64), WordBits(h.w2, 64), WordBits(h.w3, 64);
    DifferingConcat(g0, h0, g1, h1);
    DifferingConcat(g0 + g1, h0 + h1, g2, h2);
    DifferingConcat(g0 + g1 + g2, h0 + h1 + h2, g3, h3);
  }

  lemma {:induction false} DifferingPositions(x: seq<bool>, y: seq<bool>)
    requires |x| == |y|
    ensures Differing(x, y) == |set i: nat | i < |x| && x[i] != y[i]|
  {
    if x != [] {
      var n := |x| - 1;
      DifferingPositions(x[..n], y[..n]);
      var before := set i: nat | i < |x[..n]| && x[..n][i] != y[..n][i];
      assert (set i: nat | i < |x| && x[i] != y[i]) == before + if x[n] != y[n] then {n} else {};
    }
  }

  /** The distance is the number of bit positions in which the two hashes differ. */
  lemma HammingMeaning(g: Hash, h: Hash)
    ensures |Unpack(g)| == |Unpack(h)| == 256
    ensures Hamming(g, h) == |set i: nat | i < 256 && Unpack(g)[i] != Unpack(h)[i]|
  {
    HammingCountsDifferingBits(g, h);
    DifferingPositions(Unpack(g), Unpack(h));
    assert (set i: nat | i < 256 && Unpack(g)[i] != Unpack(h)[i])
           == set i: nat | i < |Unpack(g)| && Unpack(g)[i] != Unpack(h)[i];
  }

  lemma {:induction false} DifferingSymmetric(x: seq<bool>, y: seq<bool>)
    requires |x| == |y|
    ensures Differing(x, y) == Differing(y, x)
  {
    if x != [] { DifferingSymmetric(x[..|x| - 1], y[..|y| - 1]); }
  }

  lemma {:induction false} DifferingZero(x: seq<bool>, y: seq<bool>)
    requires |x| == |y|
    ensures Differing(x, y) == 0 <==> x == y
  {
    if x != [] {
      DifferingZero(x[..|x| - 1], y[..|y| - 1]);
      assert x == x[..|x| - 1] + [x[|x| - 1]] && y == y[..|y| - 1] + [y[|y| - 1]];
    }
  }

  lemma {:induction false} DifferingTriangle(x: seq<bool>, y: seq<bool>, z: seq<bool>)
    requires |x| == |y| == |z|
    ensures Differing(x, z) <= Differing(x, y) + Differing(y, z)
  {
    if x != [] { DifferingTriangle(x[..|x| - 1], y[..|y| - 1], z[..|z| - 1]); }
  }

  lemma {:induction false} DifferingParity(x: seq<bool>, y: seq<bool>)
    requires |x| == |y|
    ensures (Differing(x, y) + Ones(x) + Ones(y)) % 2 == 0
  {
    if x != [] { DifferingParity(x[..|x| - 1], y[..|y| - 1]); }
  }

  /** The distance is a metric on valid hashes, and even between hashes with equally many set bits. */
  lemma HammingIsMetric(f: Hash, g: Hash, h: Hash)
    requires f.Valid() && g.Valid() && h.Valid()
    ensures Hamming(f, g) == Hamming(g, f)
    ensures Hamming(f, g) == 0 <==> f == g
    ensures Hamming(f, h) <= Hamming(f, g) + Hamming(g, h)
    ensures Ones(Unpack(f)) == Ones(Unpack(g)) ==> Hamming(f, g) % 2 == 0
  {
    HammingCountsDifferingBits(f, g);
    HammingCountsDifferingBits(g, f);
    HammingCountsDifferingBits(g, h);
    HammingCountsDifferingBits(f, h);
    DifferingSymmetric(Unpack(f), Unpack(g));
    DifferingZero(Unpack(f), Unpack(g));
    DifferingTriangle(Unpack(f), Unpack(g), Unpack(h));
    DifferingParity(Unpack(f), Unpack(g));
    if Unpack(f) == Unpack(g) { UnpackInjective(f, g); }
  }

  // ---------- Threshold ----------

  ghost predicate Sorted(s: seq<real>) {
    forall i, j :: 0 <= i < j < |s| ==> s[i] <= s[j]
  }

  function Insert(x: real, s: seq<real>): (r: seq<real>)
    requires Sorted(s)
    ensures Sorted(r) && |r| == |s| + 1
    ensures r[0] == x || (s != [] && r[0] == s[0])
  {
    if s == [] || x <= s[0] then [x] + s else [s[0]] + Insert(x, s[1..])
  }

  /** The values in ascending order. */
  function Sort(xs: seq<real>): (r: seq<real>)
    ensures Sorted(r) && |r| == |xs|
  {
    if xs == [] then [] else Insert(xs[0], Sort(xs[1..]))
  }

  lemma {:induction false} InsertMultiset(x: real, s: seq<real>)
    requires Sorted(s)
    ensures multiset(Insert(x, s)) == multiset{x} + multiset(s)
  {
    if s != [] && x > s[0] {
      InsertMultiset(x, s[1..]);
      HeadFirst(s[0], s[1..]);
      HeadFirst(s[0], Insert(x, s[1..]));
      assert s == [s[0]] + s[1..];
    } else {
      HeadFirst(x, s);
    }
  }

  lemma HeadFirst(x: real, s: seq<real>)
    ensures multiset([x] + s) == multiset{x} + multiset(s)
  {}

  lemma {:induction false} SortPermutes(xs: seq<real>)
    ensures multiset(Sort(xs)) == multiset(xs)
  {
    if xs != [] {
      SortPermutes(xs[1..]);
      InsertMultiset(xs[0], Sort(xs[1..]));
      HeadFirst(xs[0], xs[1..]);
      assert xs == [xs[0]] + xs[1..];
    }
  }

  /** Half the sum of the two middle values. */
  function Median(coeffs: seq<real>): real
    requires |coeffs| == HASH_BITS
  {
    (Sort(coeffs)[127] + Sort(coeffs)[128]) / 2.0
  }

  function Threshold(coeffs: seq<real>, m: real): seq<bool> {
    if coeffs == [] then [] else [coeffs[0] > m] + Threshold(coeffs[1..], m)
  }

  /** How many values lie strictly above m. */
  function Above(xs: seq<real>, m: real): nat {
    if xs == [] then 0 else (if xs[0] > m then 1 else 0) + Above(xs[1..], m)
  }

  lemma {:induction false} InsertAbove(x: real, s: seq<real>, m: real)
    requires Sorted(s)
    ensures Above(Insert(x, s), m) == (if x > m then 1 else 0) + Above(s, m)
  {
    if s == [] || x <= s[0] {
      assert ([x] + s)[1..] == s;
    } else {
      InsertAbove(x, s[1..], m);
      var t := Insert(x, s[1..]);
      assert ([s[0]] + t)[1..] == t;
    }
  }

  lemma {:induction false} SortAbove(xs: seq<real>, m: real)
    ensures Above(Sort(xs), m) == Above(xs, m)
  {
    if xs != [] {
      SortAbove(xs[1..], m);
      InsertAbove(xs[0], Sort(xs[1..]), m);
    }
  }

  lemma {:induction false} AboveSorted(s: seq<real>, m: real, low: nat)
    requires Sorted(s) && low <= |s|
    requires forall i :: 0 <= i < low ==> s[i] <= m
    ensures Above(s, m) <= |s| - low
    ensures Above(s, m) == |s| - low <==> low == |s| || s[low] > m
  {
    if s != [] {
      if low > 0 {
        AboveSorted(s[1..], m, low - 1);
      } else {
        AboveSorted(s[1..], m, 0);
      }
    }
  }

  lemma {:induction false} OnesSnocCons(b: bool, x: seq<bool>)
    ensures Ones([b] + x) == (if b then 1 else 0) + Ones(x)
  {
    var y := [b] + x;
    if x == [] {
      assert y[..0] == [];
    } else {
      OnesSnocCons(b, x[..|x| - 1]);
      assert y[..|y| - 1] == [b] + x[..|x| - 1];
    }
  }

  lemma {:induction false} OnesThreshold(coeffs: seq<real>, m: real)
    ensures |Threshold(coeffs, m)| == |coeffs|
    ensures Ones(Threshold(coeffs, m)) == Above(coeffs, m)
  {
    if coeffs != [] {
      OnesThreshold(coeffs[1..], m);
      OnesSnocCons(coeffs[0] > m, Threshold(coeffs[1..], m));
    }
  }

  /** At most half of the bits are set, and exactly half when the two middle coefficients differ. */
  lemma {:induction false} HashBalance(coeffs: seq<real>)
    requires |coeffs| == HASH_BITS
    ensures
      var s, bits := Sort(coeffs), Threshold(coeffs, Median(coeffs));
      Ones(bits) <= 128 && (Ones(bits) == 128 <==> s[127] != s[128])
  {
    var s, m := Sort(coeffs), Median(coeffs);
    OnesThreshold(coeffs, m);
    SortAbove(coeffs, m);
    assert s[127] <= s[128];
    assert s[127] <= m <= s[128];
    AboveSorted(s, m, 128);
  }

  // ---------- Scaling ----------

  function Mapped(f: real -> real, xs: seq<real>): seq<real> {
    if xs == [] then [] else [f(xs[0])] + Mapped(f, xs[1..])
  }

  ghost predicate Increasing(f: real -> real) {
    forall x, y :: x <= y <==> f(x) <= f(y)
  }

  lemma {:induction false} MappedAt(f: real -> real, xs: seq<real>, i: nat)
    requires i < |xs|
    ensures |Mapped(f, xs)| == |xs| && Mapped(f, xs)[i] == f(xs[i])
  {
    if |xs| > 1 {
      MappedAt(f, xs[1..], if i == 0 then 0 else i - 1);
    }
  }

  lemma MappedSorted(f: real -> real, s: seq<real>)
    requires Sorted(s) && Increasing(f)
    ensures Sorted(Mapped(f, s))
  {
    if s != [] { MappedAt(f, s, 0); }
    forall i, j | 0 <= i < j < |Mapped(f, s)| ensures Mapped(f, s)[i] <= Mapped(f, s)[j] {
      MappedAt(f, s, i);
      MappedAt(f, s, j);
    }
  }

  lemma {:induction false} MappedInsert(f: real -> real, x: real, s: seq<real>)
    requires Sorted(s) && Increasing(f)
    ensures Sorted(Mapped(f, s)) && Insert(f(x), Mapped(f, s)) == Mapped(f, Insert(x, s))
  {
    MappedSorted(f, s);
    if s != [] {
      if x <= s[0] {
        assert ([x] + s)[1..] == s;
      } else {
        MappedInsert(f, x, s[1..]);
        var t := Insert(x, s[1..]);
        assert ([s[0]] + t)[1..] == t;
        assert Mapped(f, s)[1..] == Mapped(f, s[1..]);
      }
    }
  }

  lemma {:induction false} MappedSort(f: real -> real, xs: seq<real>)
    requires Increasing(f)
    ensures Sort(Mapped(f, xs)) == Mapped(f, Sort(xs))
  {
    if xs != [] {
      MappedSort(f, xs[1..]);
      MappedInsert(f, xs[0], Sort(xs[1..]));
      assert Mapped(f, xs)[1..] == Mapped(f, xs[1..]);
    }
  }

  lemma {:induction false} MappedThreshold(f: real -> real, xs: seq<real>, m: real)
    requires Increasing(f)
    ensures Threshold(Mapped(f, xs), f(m)) == Threshold(xs, m)
  {
    if xs != [] {
      MappedThreshold(f, xs[1..], m);
      assert Mapped(f, xs)[1..] == Mapped(f, xs[1..]);
    }
  }

  ghost predicate KeepsMidpoints(f: real -> real) {
    forall x, y :: f((x + y) / 2.0) == (f(x) + f(y)) / 2.0
  }

  lemma MappedMedian(f: real -> real, coeffs: seq<real>)
    requires |coeffs| == HASH_BITS && Increasing(f) && KeepsMidpoints(f)
    ensures |Mapped(f, coeffs)| == HASH_BITS && Median(Mapped(f, coeffs)) == f(Median(coeffs))
  {
    MappedSort(f, coeffs);
    MappedAt(f, coeffs, 0);
    var s := Sort(coeffs);
    MappedAt(f, s, 127);
    MappedAt(f, s, 128);
    assert f((s[127] + s[128]) / 2.0) == (f(s[127]) + f(s[128])) / 2.0;
  }

  lemma HashMapInvariant(f: real -> real, coeffs: seq<real>)
    requires |coeffs| == HASH_BITS && Increasing(f) && KeepsMidpoints(f)
    ensures |Mapped(f, coeffs)| == HASH_BITS
    ensures Threshold(Mapped(f, coeffs), Median(Mapped(f, coeffs))) == Threshold(coeffs, Median(coeffs))
  {
    MappedMedian(f, coeffs);
    MappedThreshold(f, coeffs, Median(coeffs));
  }

  /** Scaling by a positive factor and shifting the coefficients does not change the hash. */
  lemma HashScaleInvariant(coeffs: seq<real>, a: real, b: real)
    requires |coeffs| == HASH_BITS && a > 0.0
    ensures
      var scaled := Mapped(x => a * x + b, coeffs);
      |scaled| == HASH_BITS && Threshold(scaled, Median(scaled)) == Threshold(coeffs, Median(coeffs))
  {
    var f := x => a * x + b;
    AffineIncreases(f, a, b);
    AffineKeepsMidpoints(f, a, b);
    HashMapInvariant(f, coeffs);
  }

  lemma AffineIncreases(f: real -> real, a: real, b: real)
    requires a > 0.0 && f == (x => a * x + b)
    ensures Increasing(f)
  {
    forall x: real, y: real ensures x <= y <==> f(x) <= f(y) {
      AffineMonotone(a, b, x, y);
      assert f(x) == a * x + b && f(y) == a * y + b;
    }
  }

  lemma AffineKeepsMidpoints(f: real -> real, a: real, b: real)
    requires f == (x => a * x + b)
    ensures KeepsMidpoints(f)
  {
    forall x: real, y: real ensures f((x + y) / 2.0) == (f(x) + f(y)) / 2.0 {
      assert f((x + y) / 2.0) == a * ((x + y) / 2.0) + b && f(x) == a * x + b && f(y) == a * y + b;
      AffineMidpoint(a, b, x, y);
    }
  }

  lemma AffineMidpoint(a: real, b: real, x: real, y: real)
    ensures a * ((x + y) / 2.0) + b == (a * x + b + (a * y + b)) / 2.0
  {
    assert a * ((x + y) / 2.0) * 2.0 == a * (x + y) == a * x + a * y;
  }

  lemma AffineMonotone(a: real, b: real, x: real, y: real)
    requires a > 0.0
    ensures x <= y <==> a * x + b <= a * y + b
  {
    if x <= y {
      assert a * (y - x) >= 0.0;
    } else {
      assert a * (x - y) > 0.0;
    }
  }

  // ---------- The packing loop ----------

  lemma {:induction false} ThresholdAt(coeffs: seq<real>, m: real, i: nat)
    requires i < |coeffs|
    ensures |Threshold(coeffs, m)| == |coeffs| && Threshold(coeffs, m)[i] == (coeffs[i] > m)
  {
    OnesThreshold(coeffs, m);
    if i > 0 {
      ThresholdAt(coeffs[1..], m, i - 1);
    }
  }

  /** The words hold the threshold bits of the first n coefficients and nothing else. */
  ghost predicate PackedUpTo(words: seq<nat>, coeffs: seq<real>, m: real, n: nat)
    requires |coeffs| == HASH_BITS
  {
    && |words| == 4
    && (forall j :: 0 <= j < 4 ==> words[j] < Pow2(64))
    && forall i :: 0 <= i < HASH_BITS ==> Bit(words[i / 64], 63 - i % 64) == (i < n && coeffs[i] > m)
  }

  lemma ZeroBits(b: nat)
    ensures !Bit(0, b)
  {
    if b > 0 { ZeroBits(b - 1); }
  }

  lemma PackedNone(coeffs: seq<real>, m: real)
    requires |coeffs| == HASH_BITS
    ensures PackedUpTo([0, 0, 0, 0], coeffs, m, 0)
  {
    WordLimitIsPow2();
    forall i | 0 <= i < HASH_BITS ensures !Bit([0, 0, 0, 0][i / 64], 63 - i % 64) {
      ZeroBits(63 - i % 64);
    }
  }

  lemma PackedNext(words: seq<nat>, coeffs: seq<real>, m: real, n: nat)
    requires |coeffs| == HASH_BITS && n < HASH_BITS && PackedUpTo(words, coeffs, m, n)
    ensures coeffs[n] > m ==> PackedUpTo(words[n / 64 := SetBit(words[n / 64], 63 - n % 64)], coeffs, m, n + 1)
    ensures coeffs[n] <= m ==> PackedUpTo(words, coeffs, m, n + 1)
  {
    if coeffs[n] > m {
      var after := words[n / 64 := SetBit(words[n / 64], 63 - n % 64)];
      SetBitBound(words[n / 64], 63 - n % 64, 64);
      forall i | 0 <= i < HASH_BITS
        ensures Bit(after[i / 64], 63 - i % 64) == (i == n || Bit(words[i / 64], 63 - i % 64))
      {
        if i / 64 == n / 64 {
          SetBitBit(words[n / 64], 63 - n % 64, 63 - i % 64);
          SamePosition(i, n);
        }
      }
    }
  }

  lemma SamePosition(i: nat, n: nat)
    requires i / 64 == n / 64
    ensures 63 - i % 64 == 63 - n % 64 <==> i == n
  {}

  lemma PackedUnpacks(words: seq<nat>, coeffs: seq<real>, m: real)
    requires |coeffs| == HASH_BITS && PackedUpTo(words, coeffs, m, HASH_BITS)
    ensures var h := Hash(words[0], words[1], words[2], words[3]); h.Valid() && Unpack(h) == Threshold(coeffs, m)
  {
    WordLimitIsPow2();
    var h := Hash(words[0], words[1], words[2], words[3]);
    UnpackAt(h, 0);
    OnesThreshold(coeffs, m);
    forall i | 0 <= i < HASH_BITS ensures Unpack(h)[i] == Threshold(coeffs, m)[i] {
      UnpackAt(h, i);
      ThresholdAt(coeffs, m, i);
      assert words[i / 64] == h.Word(i / 64);
    }
  }

  /** Thresholds the coefficients at their median and packs the bits, first coefficient in the top bit of word 0. */
  method PackBits(coeffs: array<real>) returns (h: Hash)
    requires coeffs.Length == HASH_BITS
    ensures h.Valid()
    ensures Unpack(h) == Threshold(coeffs[..], Median(coeffs[..]))
    ensures forall i: nat :: i < 256 ==> (Bit(h.Word(i / 64), 63 - i % 64) <==> coeffs[i] > Median(coeffs[..]))
  {
    var median := Median(coeffs[..]);
    var result := new nat[4] [0, 0, 0, 0];
    PackedNone(coeffs[..], median);
    assert result[..] == [0, 0, 0, 0];
    for i := 0 to HASH_BITS
      invariant PackedUpTo(result[..], coeffs[..], median, i)
    {
      PackedNext(result[..], coeffs[..], median, i);
      if coeffs[i] > median {
        var arrayIdx, bitIdx := i / 64, 63 - i % 64;
        ghost var before := result[..];
        result[arrayIdx] := SetBit(result[arrayIdx], bitIdx);
        assert result[..] == before[arrayIdx := SetBit(before[arrayIdx], bitIdx)];
      }
    }
    PackedUnpacks(result[..], coeffs[..], median);
    h := Hash(result[0], result[1], result[2], result[3]);
    forall i: nat | i < 256 ensures Bit(h.Word(i / 64), 63 - i % 64) <==> coeffs[i] > median {
      UnpackAt(h, i);
      ThresholdAt(coeffs[..], median, i);
    }
  }
}
