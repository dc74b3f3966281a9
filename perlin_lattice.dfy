/**
 * The gradient lattice of one Perlin-noise octave, shared by both revisions
 * of the generator (src/grid.cpp PerlinNoise and grid.cpp perlin_noise):
 * lattice sizing, corner indexing, the per-cell offsets, the value of one
 * cell, and the sum of octaves at halving amplitude.
 */
module PerlinLattice {
  import opened NoiseMath

  /** A lattice gradient, kept as the cosine and sine of its angle. */
  datatype Gradient = Gradient(cos: real, sin: real)

  function Pow2(i: nat): (p: nat)
    ensures p >= 1
  {
    if i == 0 then 1 else 2 * Pow2(i - 1)
  }

  /** std::min on two sizes: the one that is at most both. */
  function Smaller(a: nat, b: nat): (r: nat)
    ensures r <= a && r <= b && (r == a || r == b)
  {
    if a <= b then a else b
  }

  /** Cell (a, b) is visited before cell (x, y) by a pass with x in the outer loop and y in the inner one. */
  predicate Before(a: nat, b: nat, x: nat, y: nat)
  {
    a < x || (a == x && b < y)
  }

  /** `v >> i` on unsigned operands: v divided by 2^i, rounded down. */
  function ShiftRight(v: nat, i: nat): (r: nat)
    ensures r * Pow2(i) <= v < (r + 1) * Pow2(i)
  {
    QuotientBounds(v, Pow2(i));
    v / Pow2(i)
  }

  /** Division of naturals rounds down: the quotient is the largest multiple of d not above a. */
  lemma QuotientBounds(a: nat, d: nat)
    requires d > 0
    ensures 0 <= a / d && (a / d) * d <= a < (a / d + 1) * d
  {
    assert a == (a / d) * d + a % d;
  }

  /** The generator's standing assumption: `detail` divides both dimensions. */
  predicate LatticeFits(w: nat, l: nat, detail: nat)
  {
    detail > 0 && w % detail == 0 && l % detail == 0
  }

  /** grid_nodes = (w / detail + 1) * (l / detail + 1) */
  function NodeCount(w: nat, l: nat, detail: nat): nat
    requires detail > 0
  {
    (w / detail + 1) * (l / detail + 1)
  }

  function Bit(b: bool): nat
  {
    if b then 1 else 0
  }

  /** major_y * major_width + major_x for the corner selected by highX and highY. */
  function CornerIndex(w: nat, detail: nat, x: nat, y: nat, highX: bool, highY: bool): nat
    requires detail > 0
  {
    var majorX: nat := x / detail + Bit(highX);
    var majorY: nat := y / detail + Bit(highY);
    var majorWidth: nat := w / detail + 1;
    majorY * majorWidth + majorX
  }

  // ---------------------------------------------------------------------------
  // Integer arithmetic used by the corner-index bounds.

  lemma MulLeMonotone(a: nat, b: nat, c: nat)
    requires a <= b
    ensures a * c <= b * c
  {
  }

  lemma MulLtCancel(a: nat, b: nat, c: nat)
    requires a * c < b * c
    ensures a < b
  {
    if a >= b {
      MulLeMonotone(b, a, c);
    }
  }

  /** Euclidean division is determined by a quotient and an in-range remainder. */
  lemma DivUnique(a: nat, d: nat, q: nat, r: nat)
    requires d > 0 && r < d && a == q * d + r
    ensures a / d == q
  {
    var k := a / d;
    assert a == k * d + a % d;
    if k > q {
      MulLeMonotone(q + 1, k, d);
    } else if k < q {
      MulLeMonotone(k + 1, q, d);
    }
  }

  /** Below a multiple of d, the quotient stays below that multiple's quotient. */
  lemma QuotientBelow(x: nat, w: nat, d: nat)
    requires d > 0 && w % d == 0 && x < w
    ensures x / d < w / d
  {
    var q := w / d;
    assert w == q * d;
    DivUnique(w, d, q, 0);
    assert (x / d) * d <= x;
    MulLtCancel(x / d, q, d);
  }

  /** One below a non-multiple of d has the same quotient. */
  lemma QuotientBelowNonMultiple(w: nat, d: nat)
    requires d > 0 && w > 0 && w % d != 0
    ensures (w - 1) / d == w / d
  {
    assert w == (w / d) * d + w % d;
    DivUnique(w - 1, d, w / d, w % d - 1);
  }

  /** One below any positive w, the quotient drops by at most one. */
  lemma QuotientBelowAny(w: nat, d: nat)
    requires d > 0 && w > 0
    ensures (w - 1) / d + 1 >= w / d
  {
    if w % d == 0 {
      assert w == (w / d) * d;
      DivUnique(w - 1, d, w / d - 1, d - 1);
    } else {
      QuotientBelowNonMultiple(w, d);
    }
  }

  // ---------------------------------------------------------------------------
  // Lattice bounds.

  /** When detail divides both dimensions every corner read stays inside the lattice. */
  lemma {:induction false} CornerInRange(w: nat, l: nat, detail: nat, x: nat, y: nat, highX: bool, highY: bool)
    requires LatticeFits(w, l, detail) && x < w && y < l
    ensures CornerIndex(w, detail, x, y, highX, highY) < NodeCount(w, l, detail)
  {
    var q, p := w / detail, l / detail;
    var mx, my := x / detail + Bit(highX), y / detail + Bit(highY);
    assert mx <= q by { QuotientBelow(x, w, detail); }
    assert my <= p by { QuotientBelow(y, l, detail); }
    CellWithinNodes(q, p, mx, my);
    assert CornerIndex(w, detail, x, y, highX, highY) == my * (q + 1) + mx;
  }

  /** A corner (mx, my) with mx <= q and my <= p is a node of the (q + 1) x (p + 1) lattice. */
  lemma CellWithinNodes(q: nat, p: nat, mx: nat, my: nat)
    requires mx <= q && my <= p
    ensures my * (q + 1) + mx < (q + 1) * (p + 1)
  {
    MulLeMonotone(my, p, q + 1);
    assert (q + 1) * (p + 1) == p * (q + 1) + q + 1;
  }

  /**
   * When detail fails to divide either dimension, the far corner of the last
   * cell lies at or beyond grid_nodes: the read runs off the lattice.
   */
  lemma {:induction false} CornerOverrun(w: nat, l: nat, detail: nat)
    requires detail > 0 && w > 0 && l > 0
    requires w % detail != 0 || l % detail != 0
    ensures CornerIndex(w, detail, w - 1, l - 1, true, true) >= NodeCount(w, l, detail)
  {
    var q, p := w / detail, l / detail;
    var mx, my := (w - 1) / detail + 1, (l - 1) / detail + 1;
    assert mx >= q by { QuotientBelowAny(w, detail); }
    assert my >= p by { QuotientBelowAny(l, detail); }
    if w % detail != 0 {
      assert mx == q + 1 by { QuotientBelowNonMultiple(w, detail); }
    } else {
      assert my == p + 1 by { QuotientBelowNonMultiple(l, detail); }
    }
    LastCellPastNodes(q, p, mx, my);
    assert CornerIndex(w, detail, w - 1, l - 1, true, true) == my * (q + 1) + mx;
  }

  /** The far corner's index my * (q + 1) + mx against (p + 1) * (q + 1), with one coordinate past the lattice. */
  lemma LastCellPastNodes(q: nat, p: nat, mx: nat, my: nat)
    requires mx >= q && my >= p
    requires mx == q + 1 || my == p + 1
    ensures my * (q + 1) + mx >= (q + 1) * (p + 1)
  {
    MulLeMonotone(p, my, q + 1);
    assert (q + 1) * (p + 1) == p * (q + 1) + q + 1;
    if my == p + 1 {
      assert my * (q + 1) == p * (q + 1) + q + 1;
    }
  }

  // ---------------------------------------------------------------------------
  // The value of one cell.

  /** x_offset = (0.5 + x % detail) / detail: strictly inside the lattice cell. */
  function Offset(coord: nat, detail: nat): (o: real)
    requires detail > 0
    ensures 0.0 < o < 1.0
  {
    var r := coord % detail;
    assert r + 1 <= detail;
    FractionInUnit(0.5 + r as real, detail as real);
    (0.5 + r as real) / detail as real
  }

  lemma FractionInUnit(n: real, d: real)
    requires 0.0 < n < d
    ensures 0.0 < n / d < 1.0
  {
    var o := n / d;
    assert o * d == n;
    if o >= 1.0 {
      MulRealMonotone(1.0, o, d);
    }
  }

  lemma MulRealMonotone(a: real, b: real, c: real)
    requires a <= b && c >= 0.0
    ensures a * c <= b * c
  {
  }

  /** cos * (x_offset - highX) + sin * (y_offset - highY): the dot_major lambda. */
  function CornerDot(g: Gradient, xOffset: real, yOffset: real, highX: bool, highY: bool): real
  {
    g.cos * (xOffset - Bit(highX) as real) + g.sin * (yOffset - Bit(highY) as real)
  }

  /** Gradients built from the cosine and sine of an angle: both parts lie in [-1, 1]. */
  predicate UnitBounded(lattice: seq<Gradient>)
  {
    forall g :: g in lattice ==> -1.0 <= g.cos <= 1.0 && -1.0 <= g.sin <= 1.0
  }

  /** A factor in [-1, 1] times one in (-1, 1) stays in (-1, 1). */
  lemma ProductInOpenUnit(c: real, t: real)
    requires -1.0 <= c <= 1.0 && -1.0 < t < 1.0
    ensures -1.0 < c * t < 1.0
  {
    if t >= 0.0 {
      if c >= 0.0 { MulRealMonotone(c, 1.0, t); } else { MulRealMonotone(-1.0, c, t); }
    } else {
      if c >= 0.0 { MulRealMonotone(c, 1.0, -t); } else { MulRealMonotone(-1.0, c, -t); }
    }
  }

  /** The gradient contribution of one corner of the lattice cell around (x, y). */
  function CornerValue(w: nat, l: nat, detail: nat, lattice: seq<Gradient>, x: nat, y: nat, highX: bool, highY: bool): (r: real)
    requires LatticeFits(w, l, detail) && |lattice| >= NodeCount(w, l, detail)
    requires x < w && y < l
    ensures UnitBounded(lattice) ==> -2.0 < r < 2.0
  {
    CornerInRange(w, l, detail, x, y, highX, highY);
    var g := lattice[CornerIndex(w, detail, x, y, highX, highY)];
    assert g in lattice;
    CornerDotBound(g, Offset(x, detail), Offset(y, detail), highX, highY);
    CornerDot(g, Offset(x, detail), Offset(y, detail), highX, highY)
  }

  /** With offsets inside the cell, a gradient from an angle contributes less than 2 in magnitude. */
  lemma CornerDotBound(g: Gradient, xOffset: real, yOffset: real, highX: bool, highY: bool)
    requires 0.0 < xOffset < 1.0 && 0.0 < yOffset < 1.0
    ensures -1.0 <= g.cos <= 1.0 && -1.0 <= g.sin <= 1.0 ==>
              -2.0 < CornerDot(g, xOffset, yOffset, highX, highY) < 2.0
  {
    if -1.0 <= g.cos <= 1.0 && -1.0 <= g.sin <= 1.0 {
      ProductInOpenUnit(g.cos, xOffset - Bit(highX) as real);
      ProductInOpenUnit(g.sin, yOffset - Bit(highY) as real);
    }
  }

  function Min4(a: real, b: real, c: real, d: real): real { Min(Min(a, b), Min(c, d)) }
  function Max4(a: real, b: real, c: real, d: real): real { Max(Max(a, b), Max(c, d)) }

  /**
   * The value stored at (x, y): the four corner contributions blended along y,
   * then along x, with the quintic ease curve. It never leaves the range of the
   * four contributions.
   */
  function CellNoise(w: nat, l: nat, detail: nat, lattice: seq<Gradient>, x: nat, y: nat): (v: real)
    requires LatticeFits(w, l, detail) && |lattice| >= NodeCount(w, l, detail)
    requires x < w && y < l
    ensures UnitBounded(lattice) ==> -2.0 < v < 2.0
  {
    var xOffset, yOffset := Offset(x, detail), Offset(y, detail);
    Interpolate(xOffset,
                Interpolate(yOffset, CornerValue(w, l, detail, lattice, x, y, false, false),
                                     CornerValue(w, l, detail, lattice, x, y, false, true)),
                Interpolate(yOffset, CornerValue(w, l, detail, lattice, x, y, true, false),
                                     CornerValue(w, l, detail, lattice, x, y, true, true)))
  }

  /** A cell's value never leaves the range of its four corner contributions. */
  lemma CellNoiseBetweenCorners(w: nat, l: nat, detail: nat, lattice: seq<Gradient>, x: nat, y: nat)
    requires LatticeFits(w, l, detail) && |lattice| >= NodeCount(w, l, detail)
    requires x < w && y < l
    ensures var c00, c01, c10, c11 :=
              CornerValue(w, l, detail, lattice, x, y, false, false), CornerValue(w, l, detail, lattice, x, y, false, true),
              CornerValue(w, l, detail, lattice, x, y, true, false), CornerValue(w, l, detail, lattice, x, y, true, true);
            Min4(c00, c01, c10, c11) <= CellNoise(w, l, detail, lattice, x, y) <= Max4(c00, c01, c10, c11)
  {
    var c00, c01 := CornerValue(w, l, detail, lattice, x, y, false, false), CornerValue(w, l, detail, lattice, x, y, false, true);
    var c10, c11 := CornerValue(w, l, detail, lattice, x, y, true, false), CornerValue(w, l, detail, lattice, x, y, true, true);
    var low := Interpolate(Offset(y, detail), c00, c01);
    var high := Interpolate(Offset(y, detail), c10, c11);
    assert CellNoise(w, l, detail, lattice, x, y) == Interpolate(Offset(x, detail), low, high);
  }

  /** The output is a function of the first grid_nodes gradients only. */
  lemma NoiseDependsOnLatticePrefix(w: nat, l: nat, detail: nat, a: seq<Gradient>, b: seq<Gradient>, x: nat, y: nat)
    requires LatticeFits(w, l, detail) && x < w && y < l
    requires |a| >= NodeCount(w, l, detail) && |b| >= NodeCount(w, l, detail)
    requires a[..NodeCount(w, l, detail)] == b[..NodeCount(w, l, detail)]
    ensures CellNoise(w, l, detail, a, x, y) == CellNoise(w, l, detail, b, x, y)
  {
    var n := NodeCount(w, l, detail);
    forall hx: bool, hy: bool
      ensures CornerValue(w, l, detail, a, x, y, hx, hy) == CornerValue(w, l, detail, b, x, y, hx, hy)
    {
      CornerInRange(w, l, detail, x, y, hx, hy);
      var k := CornerIndex(w, detail, x, y, hx, hy);
      assert a[k] == a[..n][k] == b[..n][k] == b[k];
    }
  }

  // ---------------------------------------------------------------------------
  // Octaves summed at halving amplitude.

  /** Octave i uses detail base >> i; every such detail must fit the grid and have its gradients. */
  predicate OctavesFit(w: nat, l: nat, base: nat, lattices: seq<seq<Gradient>>, n: nat)
  {
    n <= |lattices| &&
    forall i :: 0 <= i < n ==>
      LatticeFits(w, l, ShiftRight(base, i)) && |lattices[i]| >= NodeCount(w, l, ShiftRight(base, i))
  }

  /** Upper bound on |OctaveSum| after n octaves of unit gradients: 4 - 4 / 2^n. */
  function Amplitude(n: nat): real
  {
    4.0 - 4.0 / Pow2(n) as real
  }

  /** The weight 1 / 2^n of octave n. */
  function Weight(n: nat): (r: real)
    ensures 0.0 < r <= 1.0
  {
    1.0 / Pow2(n) as real
  }

  /** v at the weight of octave n. */
  function Scaled(v: real, n: nat): real
  {
    v * Weight(n)
  }

  /** Octave n at (x, y), scaled by 1 / 2^n. */
  function OctaveTerm(w: nat, l: nat, base: nat, lattices: seq<seq<Gradient>>, n: nat, x: nat, y: nat): real
    requires OctavesFit(w, l, base, lattices, n + 1) && x < w && y < l
  {
    Scaled(CellNoise(w, l, ShiftRight(base, n), lattices[n], x, y), n)
  }

  /** A cell of octave n's noise, divided by 1 << n, is that octave's term. */
  lemma WeightedCell(w: nat, l: nat, base: nat, lattices: seq<seq<Gradient>>, n: nat, x: nat, y: nat,
                     p: real, cell: real, weighted: real)
    requires OctavesFit(w, l, base, lattices, n + 1) && x < w && y < l
    requires p == Pow2(n) as real
    requires cell == CellNoise(w, l, ShiftRight(base, n), lattices[n], x, y)
    requires weighted == Mul(cell, 1.0 / p)
    ensures weighted == OctaveTerm(w, l, base, lattices, n, x, y)
  {
    DivisionIsScaled(n, p, cell, weighted);
  }

  /** Dividing by 1 << n is scaling by Weight(n). */
  lemma WeightIsReciprocal(n: nat, p: real)
    requires p == Pow2(n) as real
    ensures 1.0 / p == Weight(n)
  {
  }

  lemma DivisionIsScaled(n: nat, p: real, v: real, r: real)
    requires p == Pow2(n) as real && r == Mul(v, 1.0 / p)
    ensures r == Scaled(v, n)
  {
    WeightIsReciprocal(n, p);
  }

  /**
   * Height at (x, y) after adding octaves 0 .. n-1 in ascending order, octave i
   * scaled by 1 / 2^i. With gradients taken from angles the result stays within
   * Amplitude(n), hence strictly inside (-4, 4).
   */
  function OctaveSum(w: nat, l: nat, base: nat, lattices: seq<seq<Gradient>>, n: nat, x: nat, y: nat): (h: real)
    requires OctavesFit(w, l, base, lattices, n) && x < w && y < l
    ensures (forall i :: 0 <= i < n ==> UnitBounded(lattices[i])) ==> -Amplitude(n) <= h <= Amplitude(n)
    decreases n
  {
    if n == 0 then
      assert Amplitude(0) == 0.0;
      0.0
    else
      assert OctavesFit(w, l, base, lattices, n - 1);
      var d := ShiftRight(base, n - 1);
      assert LatticeFits(w, l, d) && |lattices[n - 1]| >= NodeCount(w, l, d);
      var previous := OctaveSum(w, l, base, lattices, n - 1, x, y);
      var octave := CellNoise(w, l, d, lattices[n - 1], x, y);
      var allUnit := forall i :: 0 <= i < n ==> UnitBounded(lattices[i]);
      assert allUnit ==> -2.0 < octave < 2.0 by {
        if allUnit { assert UnitBounded(lattices[n - 1]); }
      }
      assert allUnit ==> -Amplitude(n - 1) <= previous <= Amplitude(n - 1) by {
        if allUnit { assert forall i :: 0 <= i < n - 1 ==> UnitBounded(lattices[i]); }
      }
      OctaveStep(n, previous, octave);
      previous + Scaled(octave, n - 1)
  }

  /** One more octave adds that octave's noise at weight 1 / 2^n. */
  lemma OctaveSumStep(w: nat, l: nat, base: nat, lattices: seq<seq<Gradient>>, n: nat, x: nat, y: nat)
    requires OctavesFit(w, l, base, lattices, n + 1) && x < w && y < l
    ensures OctavesFit(w, l, base, lattices, n) && LatticeFits(w, l, ShiftRight(base, n))
    ensures OctaveSum(w, l, base, lattices, n + 1, x, y) ==
      OctaveSum(w, l, base, lattices, n, x, y) + OctaveTerm(w, l, base, lattices, n, x, y)
  {
  }

  /** Adding octave i at its weight to the sum of the first i octaves gives the sum of the first i + 1. */
  lemma CellAccumulates(w: nat, l: nat, base: nat, lattices: seq<seq<Gradient>>, i: nat, x: nat, y: nat,
                        before: real, added: real, after: real)
    requires OctavesFit(w, l, base, lattices, i + 1) && x < w && y < l
    requires before == OctaveSum(w, l, base, lattices, i, x, y)
    requires added == OctaveTerm(w, l, base, lattices, i, x, y)
    requires after == before + added
    ensures after == OctaveSum(w, l, base, lattices, i + 1, x, y)
  {
    OctaveSumStep(w, l, base, lattices, i, x, y);
  }

  /** One more octave of amplitude below 2, weighted 1 / 2^(n-1), keeps the running bound. */
  lemma OctaveStep(n: nat, previous: real, octave: real)
    requires n >= 1
    ensures -Amplitude(n - 1) <= previous <= Amplitude(n - 1) && -2.0 < octave < 2.0 ==>
              -Amplitude(n) <= previous + Scaled(octave, n - 1) <= Amplitude(n)
  {
    if !(-2.0 < octave < 2.0) {
      return;
    }
    var weight := Weight(n - 1);
    assert Scaled(octave, n - 1) == octave * weight;
    AmplitudeIsWeighted(n - 1);
    AmplitudeIsWeighted(n);
    WeightHalves(n - 1);
    MulRealMonotone(octave, 2.0, weight);
    MulRealMonotone(-2.0, octave, weight);
  }

  /** Amplitude(n) == 4 - 4 * Weight(n). */
  lemma AmplitudeIsWeighted(n: nat)
    ensures Amplitude(n) == 4.0 - 4.0 * Weight(n)
  {
    var p := Pow2(n) as real;
    WeightIsReciprocal(n, p);
    assert 4.0 / p == 4.0 * (1.0 / p);
  }

  /** Each octave weighs half the one before. */
  lemma WeightHalves(n: nat)
    ensures 2.0 * Weight(n + 1) == Weight(n)
  {
    var p := Pow2(n) as real;
    assert Pow2(n + 1) as real == 2.0 * p;
    WeightIsReciprocal(n, p);
    WeightIsReciprocal(n + 1, 2.0 * p);
    assert 2.0 * (1.0 / (2.0 * p)) == 1.0 / p;
  }
}
