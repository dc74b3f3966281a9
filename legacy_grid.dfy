/**
 * The height field of the first revision (grid.h, grid.cpp): a
 * width x length grid whose set() also keeps a running minimum and maximum,
 * cell-wise operators written as loops over get and set, and
 * perlin_noise(seed, detail).
 */
module LegacyGrid {
  import NoiseMath
  import opened PerlinLattice

  /** x + y * width: where cell (x, y) lives in data. */
  function Flat(width: nat, x: nat, y: nat): nat
  {
    x + y * width
  }

  /** Every cell of the grid has its place inside data. */
  lemma FlatInRange(width: nat, length: nat, x: nat, y: nat)
    requires x < width && y < length
    ensures Flat(width, x, y) < width * length
  {
    MulLeMonotone(y + 1, length, width);
  }

  /** Two cells of the same width never share a place. */
  lemma FlatInjective(width: nat, x0: nat, y0: nat, x1: nat, y1: nat)
    requires x0 < width && x1 < width
    ensures Flat(width, x0, y0) == Flat(width, x1, y1) ==> x0 == x1 && y0 == y1
  {
    if Flat(width, x0, y0) == Flat(width, x1, y1) {
      DivUnique(Flat(width, x0, y0), width, y0, x0);
      DivUnique(Flat(width, x1, y1), width, y1, x1);
    }
  }

  class Grid {
    const width: nat
    const length: nat
    /** data: width * length doubles. */
    const data: array<real>
    /** minimum and maximum: the lowest and highest value ever passed to set, starting from 0. */
    var minimum: real
    var maximum: real

    ghost predicate Shaped()
      reads this
    {
      data.Length == width * length
    }

    /**
     * The high-water mark: minimum and maximum bracket every cell, and since
     * they start at 0 and only ever widen, they bracket 0 as well.
     */
    ghost predicate Valid()
      reads this, data
    {
      Shaped() &&
      minimum <= 0.0 <= maximum &&
      forall i :: 0 <= i < data.Length ==> minimum <= data[i] <= maximum
    }

    /**
     * The mark m started at start, or is the value of cell (a, b), one of the
     * cells visited before (x, y).
     */
    ghost predicate ReachedAt(m: real, start: real, a: nat, b: nat, x: nat, y: nat)
      requires Shaped()
      reads this, data
    {
      m == start || (a < width && b < length && Before(a, b, x, y) && m == Get(a, b))
    }

    /**
     * The marks after set has been applied to every cell visited before (x, y),
     * starting from the marks lo and hi: minimum has not risen, maximum has not
     * fallen, and each is its starting value or the value of a cell visited
     * before (x, y): low for the minimum, high for the maximum.
     */
    ghost predicate Tracks(lo: real, hi: real, low: (nat, nat), high: (nat, nat), x: nat, y: nat)
      requires Shaped()
      reads this, data
    {
      minimum <= lo && hi <= maximum &&
      ReachedAt(minimum, lo, low.0, low.1, x, y) && ReachedAt(maximum, hi, high.0, high.1, x, y)
    }

    /** The marks after set has been applied to every cell, starting from lo and hi. */
    ghost predicate Widened(lo: real, hi: real)
      requires Shaped()
      reads this, data
    {
      exists low: (nat, nat), high: (nat, nat) :: Tracks(lo, hi, low, high, width, 0)
    }

    /** A new grid: every cell 0 (data {}), minimum and maximum 0. */
    constructor (width: nat, length: nat)
      ensures this.width == width && this.length == length
      ensures Valid() && fresh(data)
      ensures minimum == 0.0 && maximum == 0.0
      ensures forall a: nat, b: nat :: a < width && b < length ==> Get(a, b) == 0.0
    {
      this.width := width;
      this.length := length;
      data := new real[width * length](_ => 0.0);
      minimum := 0.0;
      maximum := 0.0;
      new;
      forall a: nat, b: nat | a < width && b < length
        ensures Get(a, b) == 0.0
      {
        FlatInRange(width, length, a, b);
      }
    }

    /** get(x, y) = data[x + y * width] */
    function Get(x: nat, y: nat): real
      requires Shaped() && x < width && y < length
      reads this, data
    {
      FlatInRange(width, length, x, y);
      data[Flat(width, x, y)]
    }

    /**
     * set(x, y, v): stores v at (x, y) only, and widens minimum and maximum
     * to take v in, so they keep bracketing every cell.
     */
    method Set(x: nat, y: nat, value: real)
      requires Valid() && x < width && y < length
      modifies this, data
      ensures Valid()
      ensures Get(x, y) == value
      ensures forall a: nat, b: nat :: a < width && b < length && (a != x || b != y) ==> Get(a, b) == old(Get(a, b))
      ensures minimum == NoiseMath.Min(old(minimum), value) && maximum == NoiseMath.Max(old(maximum), value)
    {
      FlatInRange(width, length, x, y);
      data[Flat(width, x, y)] := value;
      if value < minimum {
        minimum := value;
      }
      if value > maximum {
        maximum := value;
      }
      forall a: nat, b: nat | a < width && b < length && (a != x || b != y)
        ensures Get(a, b) == old(Get(a, b))
      {
        FlatInRange(width, length, a, b);
        FlatInjective(width, a, b, x, y);
      }
    }

    /** min(): a lower bound of every cell, and never above 0. */
    function Min(): (m: real)
      requires Valid()
      reads this, data
      ensures m <= 0.0
      ensures forall a: nat, b: nat :: a < width && b < length ==> m <= Get(a, b)
    {
      CellsBracketed(this);
      minimum
    }

    /** max(): an upper bound of every cell, and never below 0. */
    function Max(): (m: real)
      requires Valid()
      reads this, data
      ensures m >= 0.0
      ensures forall a: nat, b: nat :: a < width && b < length ==> Get(a, b) <= m
    {
      CellsBracketed(this);
      maximum
    }

    /** operator+: a fresh grid filled through set with the cell-wise sum. */
    method Plus(other: Grid) returns (result: Grid)
      requires Valid() && other.Valid() && other.width == width && other.length == length
      ensures fresh(result) && fresh(result.data) && result.Valid()
      ensures result.width == width && result.length == length
      ensures forall a: nat, b: nat :: a < width && b < length ==> result.Get(a, b) == Get(a, b) + other.Get(a, b)
      ensures result.Widened(0.0, 0.0)
    {
      result := new Grid(width, length);
      ghost var low: (nat, nat), high: (nat, nat) := (0, 0), (0, 0);
      for x := 0 to width
        invariant fresh(result) && fresh(result.data) && result.Valid() && result.Tracks(0.0, 0.0, low, high, x, 0)
        invariant result.width == width && result.length == length
        invariant forall a: nat, b: nat :: a < width && b < length ==>
          result.Get(a, b) == if a < x then Get(a, b) + other.Get(a, b) else 0.0
      {
        for y := 0 to length
          invariant fresh(result) && fresh(result.data) && result.Valid() && result.Tracks(0.0, 0.0, low, high, x, y)
          invariant result.width == width && result.length == length
          invariant forall a: nat, b: nat :: a < width && b < length ==>
            result.Get(a, b) == if Before(a, b, x, y) then Get(a, b) + other.Get(a, b) else 0.0
        {
          low, high := result.SetInPass(x, y, Get(x, y) + other.Get(x, y), 0.0, 0.0, low, high);
        }
      }
      assert result.Tracks(0.0, 0.0, low, high, width, 0);
    }

    /**
     * operator+=: every cell gains the matching cell of other, through set.
     * other may be this grid itself; each cell is read just before it is written.
     */
    method AddAssign(other: Grid)
      requires Valid() && other.Valid() && other.width == width && other.length == length
      modifies this, data
      ensures Valid()
      ensures forall a: nat, b: nat :: a < width && b < length ==> Get(a, b) == old(Get(a, b)) + old(other.Get(a, b))
      ensures Widened(old(minimum), old(maximum))
      ensures other.data != data ==> unchanged(other.data)
    {
      ghost var low: (nat, nat), high: (nat, nat) := (0, 0), (0, 0);
      for x := 0 to width
        invariant Valid() && other.Shaped()
        invariant Tracks(old(minimum), old(maximum), low, high, x, 0)
        invariant forall a: nat, b: nat :: a < width && b < length ==>
          Get(a, b) == if a < x then old(Get(a, b)) + old(other.Get(a, b)) else old(Get(a, b))
        invariant forall a: nat, b: nat :: a < width && b < length && x <= a ==> other.Get(a, b) == old(other.Get(a, b))
        invariant other.data != data ==> unchanged(other.data)
      {
        low, high := AddColumn(other, x, old(minimum), old(maximum), low, high);
      }
      assert Tracks(old(minimum), old(maximum), low, high, width, 0);
    }

    /** One pass of operator+='s outer loop: other's column x added onto column x. */
    method AddColumn(other: Grid, x: nat, ghost lo: real, ghost hi: real, ghost low: (nat, nat), ghost high: (nat, nat))
      returns (ghost low': (nat, nat), ghost high': (nat, nat))
      requires Valid() && other.Shaped() && other.width == width && other.length == length
      requires x < width && Tracks(lo, hi, low, high, x, 0)
      modifies this, data
      ensures Valid() && Tracks(lo, hi, low', high', x + 1, 0)
      ensures forall a: nat, b: nat :: a < width && b < length ==>
        Get(a, b) == if a == x then old(Get(a, b)) + old(other.Get(a, b)) else old(Get(a, b))
      ensures forall a: nat, b: nat :: a < width && b < length && a != x ==> other.Get(a, b) == old(other.Get(a, b))
      ensures other.data != data ==> unchanged(other.data)
    {
      low', high' := low, high;
      for y := 0 to length
        invariant Valid() && other.Shaped()
        invariant Tracks(lo, hi, low', high', x, y)
        invariant forall a: nat, b: nat :: a < width && b < length ==>
          Get(a, b) == if a == x && b < y then old(Get(a, b)) + old(other.Get(a, b)) else old(Get(a, b))
        invariant forall a: nat, b: nat :: a < width && b < length && (a != x || y <= b) ==>
          other.Get(a, b) == old(other.Get(a, b))
        invariant other.data != data ==> unchanged(other.data)
      {
        low', high' := SetInPass(x, y, Get(x, y) + other.Get(x, y), lo, hi, low', high');
      }
    }

    /**
     * set(x, y, value) as a pass over the cells makes it: the marks, tracked
     * over the cells before (x, y), now cover (x, y) too.
     */
    method SetInPass(x: nat, y: nat, value: real, ghost lo: real, ghost hi: real, ghost low: (nat, nat), ghost high: (nat, nat))
      returns (ghost low': (nat, nat), ghost high': (nat, nat))
      requires Valid() && x < width && y < length && Tracks(lo, hi, low, high, x, y)
      modifies this, data
      ensures Valid() && Tracks(lo, hi, low', high', x, y + 1)
      ensures Get(x, y) == value
      ensures minimum == NoiseMath.Min(old(minimum), value) && maximum == NoiseMath.Max(old(maximum), value)
      ensures forall a: nat, b: nat :: a < width && b < length && (a != x || b != y) ==> Get(a, b) == old(Get(a, b))
    {
      Set(x, y, value);
      low' := if minimum == value then (x, y) else low;
      high' := if maximum == value then (x, y) else high;
    }

    /** Unary operator-: a fresh grid holding every cell negated. */
    method Negated() returns (result: Grid)
      requires Valid()
      ensures fresh(result) && fresh(result.data) && result.Valid()
      ensures result.width == width && result.length == length
      ensures forall a: nat, b: nat :: a < width && b < length ==> result.Get(a, b) == -Get(a, b)
      ensures result.Widened(0.0, 0.0)
    {
      result := new Grid(width, length);
      ghost var low: (nat, nat), high: (nat, nat) := (0, 0), (0, 0);
      for x := 0 to width
        invariant fresh(result) && fresh(result.data) && result.Valid() && result.Tracks(0.0, 0.0, low, high, x, 0)
        invariant result.width == width && result.length == length
        invariant forall a: nat, b: nat :: a < width && b < length ==>
          result.Get(a, b) == if a < x then -Get(a, b) else 0.0
      {
        for y := 0 to length
          invariant fresh(result) && fresh(result.data) && result.Valid() && result.Tracks(0.0, 0.0, low, high, x, y)
          invariant result.width == width && result.length == length
          invariant forall a: nat, b: nat :: a < width && b < length ==>
            result.Get(a, b) == if Before(a, b, x, y) then -Get(a, b) else 0.0
        {
          low, high := result.SetInPass(x, y, -Get(x, y), 0.0, 0.0, low, high);
        }
      }
      assert result.Tracks(0.0, 0.0, low, high, width, 0);
    }

    /** operator-(other) = operator+(-other). */
    method Minus(other: Grid) returns (result: Grid)
      requires Valid() && other.Valid() && other.width == width && other.length == length
      ensures fresh(result) && fresh(result.data) && result.Valid()
      ensures result.width == width && result.length == length
      ensures forall a: nat, b: nat :: a < width && b < length ==> result.Get(a, b) == Get(a, b) - other.Get(a, b)
      ensures result.Widened(0.0, 0.0)
    {
      var negated := other.Negated();
      result := Plus(negated);
    }

    /** operator-=(other) = operator+=(-other). */
    method SubtractAssign(other: Grid)
      requires Valid() && other.Valid() && other.width == width && other.length == length
      modifies this, data
      ensures Valid()
      ensures forall a: nat, b: nat :: a < width && b < length ==> Get(a, b) == old(Get(a, b)) - old(other.Get(a, b))
      ensures Widened(old(minimum), old(maximum))
    {
      var negated := other.Negated();
      AddAssign(negated);
    }

    /** operator*: a fresh grid holding every cell scaled by val. */
    method Times(val: real) returns (result: Grid)
      requires Valid()
      ensures fresh(result) && fresh(result.data) && result.Valid()
      ensures result.width == width && result.length == length
      ensures forall a: nat, b: nat :: a < width && b < length ==> result.Get(a, b) == NoiseMath.Mul(Get(a, b), val)
      ensures result.Widened(0.0, 0.0)
    {
      result := new Grid(width, length);
      ghost var low: (nat, nat), high: (nat, nat) := (0, 0), (0, 0);
      for x := 0 to width
        invariant fresh(result) && fresh(result.data) && result.Valid() && result.Tracks(0.0, 0.0, low, high, x, 0)
        invariant result.width == width && result.length == length
        invariant forall a: nat, b: nat :: a < width && b < length ==>
          result.Get(a, b) == if a < x then NoiseMath.Mul(Get(a, b), val) else 0.0
      {
        for y := 0 to length
          invariant fresh(result) && fresh(result.data) && result.Valid() && result.Tracks(0.0, 0.0, low, high, x, y)
          invariant result.width == width && result.length == length
          invariant forall a: nat, b: nat :: a < width && b < length ==>
            result.Get(a, b) == if Before(a, b, x, y) then NoiseMath.Mul(Get(a, b), val) else 0.0
        {
          low, high := result.SetInPass(x, y, NoiseMath.Mul(Get(x, y), val), 0.0, 0.0, low, high);
        }
      }
      assert result.Tracks(0.0, 0.0, low, high, width, 0);
    }

    /** operator*=: every cell scaled by val in place, through set. */
    method MultiplyAssign(val: real)
      requires Valid()
      modifies this, data
      ensures Valid()
      ensures forall a: nat, b: nat :: a < width && b < length ==> Get(a, b) == NoiseMath.Mul(old(Get(a, b)), val)
      ensures Widened(old(minimum), old(maximum))
    {
      ghost var low: (nat, nat), high: (nat, nat) := (0, 0), (0, 0);
      for x := 0 to width
        invariant Valid()
        invariant Tracks(old(minimum), old(maximum), low, high, x, 0)
        invariant forall a: nat, b: nat :: a < width && b < length ==>
          Get(a, b) == if a < x then NoiseMath.Mul(old(Get(a, b)), val) else old(Get(a, b))
      {
        for y := 0 to length
          invariant Valid()
          invariant Tracks(old(minimum), old(maximum), low, high, x, y)
          invariant forall a: nat, b: nat :: a < width && b < length ==>
            Get(a, b) == if Before(a, b, x, y) then NoiseMath.Mul(old(Get(a, b)), val) else old(Get(a, b))
        {
          low, high := SetInPass(x, y, NoiseMath.Mul(Get(x, y), val), old(minimum), old(maximum), low, high);
        }
      }
      assert Tracks(old(minimum), old(maximum), low, high, width, 0);
    }

    /** operator/(val) = operator*(1 / val). */
    method DividedBy(val: real) returns (result: Grid)
      requires Valid() && val != 0.0
      ensures fresh(result) && fresh(result.data) && result.Valid()
      ensures result.width == width && result.length == length
      ensures forall a: nat, b: nat :: a < width && b < length ==> result.Get(a, b) == NoiseMath.Mul(Get(a, b), 1.0 / val)
      ensures result.Widened(0.0, 0.0)
    {
      result := Times(1.0 / val);
    }

    /** operator/=(val) = operator*=(1 / val). */
    method DivideAssign(val: real)
      requires Valid() && val != 0.0
      modifies this, data
      ensures Valid()
      ensures forall a: nat, b: nat :: a < width && b < length ==> Get(a, b) == NoiseMath.Mul(old(Get(a, b)), 1.0 / val)
      ensures Widened(old(minimum), old(maximum))
    {
      MultiplyAssign(1.0 / val);
    }
  }

  /** Under the high-water-mark invariant every cell lies between minimum and maximum. */
  lemma CellsBracketed(g: Grid)
    requires g.Valid()
    ensures forall a: nat, b: nat :: a < g.width && b < g.length ==> g.minimum <= g.Get(a, b) <= g.maximum
  {
    forall a: nat, b: nat | a < g.width && b < g.length
      ensures g.minimum <= g.Get(a, b) <= g.maximum
    {
      FlatInRange(g.width, g.length, a, b);
    }
  }

  /**
   * max() is a high-water mark, not the largest cell: after set(0, 0, 5)
   * and then set(0, 0, 1) on a 1 x 1 grid it still reports 5, which no cell holds.
   */
  method StaleMaximum() returns (g: Grid)
    ensures g.Valid() && g.width == 1 && g.length == 1
    ensures g.Max() == 5.0 && g.Get(0, 0) == 1.0
  {
    g := new Grid(1, 1);
    g.Set(0, 0, 5.0);
    g.Set(0, 0, 1.0);
  }

  /**
   * perlin_noise(seed, detail): grid_nodes gradients are drawn in order from
   * the engine seeded with seed (the stream given here), then every cell is
   * set to the blended corner contributions. The result is a function of the
   * first grid_nodes draws.
   */
  method PerlinNoise(width: nat, length: nat, detail: nat, stream: seq<Gradient>) returns (grid: Grid)
    requires LatticeFits(width, length, detail)
    requires |stream| >= NodeCount(width, length, detail)
    ensures fresh(grid) && fresh(grid.data) && grid.Valid()
    ensures grid.width == width && grid.length == length
    ensures forall a: nat, b: nat :: a < width && b < length ==>
      grid.Get(a, b) == CellNoise(width, length, detail, stream[..NodeCount(width, length, detail)], a, b)
    ensures forall a: nat, b: nat :: a < width && b < length ==>
      grid.Get(a, b) == CellNoise(width, length, detail, stream, a, b)
    ensures grid.Widened(0.0, 0.0)
  {
    var nodes := NodeCount(width, length, detail);
    // major_angles = {}: every angle 0, so every gradient (cos 0, sin 0).
    var majorAngles := new Gradient[nodes](_ => Gradient(1.0, 0.0));
    for i := 0 to nodes
      invariant majorAngles[..i] == stream[..i]
    {
      majorAngles[i] := stream[i];
    }
    assert majorAngles[..] == stream[..nodes];
    grid := new Grid(width, length);
    ghost var low: (nat, nat), high: (nat, nat) := (0, 0), (0, 0);
    for x := 0 to width
      invariant majorAngles[..] == stream[..nodes]
      invariant fresh(grid) && fresh(grid.data) && grid.Valid() && grid.Tracks(0.0, 0.0, low, high, x, 0)
      invariant grid.width == width && grid.length == length
      invariant forall a: nat, b: nat :: a < width && b < length ==>
        grid.Get(a, b) == if a < x then CellNoise(width, length, detail, stream[..nodes], a, b) else 0.0
    {
      low, high := FillNoiseColumn(grid, majorAngles, stream[..nodes], detail, x, low, high);
    }
    assert grid.Tracks(0.0, 0.0, low, high, width, 0);
    forall a: nat, b: nat | a < width && b < length
      ensures grid.Get(a, b) == CellNoise(width, length, detail, stream, a, b)
    {
      NoiseDependsOnLatticePrefix(width, length, detail, stream[..nodes], stream, a, b);
    }
  }

  /** The body of the cell loop in perlin_noise: blend the four corner contributions and set the cell. */
  /** The inner loop of perlin_noise: column x of the grid receives its noise values. */
  method FillNoiseColumn(grid: Grid, majorAngles: array<Gradient>, ghost lattice: seq<Gradient>, detail: nat, x: nat,
                         ghost low: (nat, nat), ghost high: (nat, nat)) returns (ghost low': (nat, nat), ghost high': (nat, nat))
    requires grid.Valid() && LatticeFits(grid.width, grid.length, detail)
    requires majorAngles.Length == NodeCount(grid.width, grid.length, detail) && majorAngles[..] == lattice
    requires x < grid.width && grid.Tracks(0.0, 0.0, low, high, x, 0)
    modifies grid, grid.data
    ensures grid.Valid() && grid.Tracks(0.0, 0.0, low', high', x + 1, 0)
    ensures forall a: nat, b: nat :: a < grid.width && b < grid.length ==>
      grid.Get(a, b) == if a == x then CellNoise(grid.width, grid.length, detail, lattice, a, b) else old(grid.Get(a, b))
  {
    low', high' := low, high;
    for y := 0 to grid.length
      invariant majorAngles[..] == lattice
      invariant grid.Valid() && grid.Tracks(0.0, 0.0, low', high', x, y)
      invariant forall a: nat, b: nat :: a < grid.width && b < grid.length ==>
        grid.Get(a, b) == if a == x && b < y then CellNoise(grid.width, grid.length, detail, lattice, a, b) else old(grid.Get(a, b))
    {
      low', high' := SetNoiseCell(grid, majorAngles, lattice, detail, x, y, low', high');
    }
  }

  method SetNoiseCell(grid: Grid, majorAngles: array<Gradient>, ghost lattice: seq<Gradient>, detail: nat, x: nat, y: nat,
                      ghost low: (nat, nat), ghost high: (nat, nat)) returns (ghost low': (nat, nat), ghost high': (nat, nat))
    requires grid.Valid() && LatticeFits(grid.width, grid.length, detail)
    requires majorAngles.Length == NodeCount(grid.width, grid.length, detail) && majorAngles[..] == lattice
    requires x < grid.width && y < grid.length && grid.Tracks(0.0, 0.0, low, high, x, y)
    modifies grid, grid.data
    ensures grid.Valid() && grid.Tracks(0.0, 0.0, low', high', x, y + 1)
    ensures grid.Get(x, y) == CellNoise(grid.width, grid.length, detail, lattice, x, y)
    ensures grid.minimum == NoiseMath.Min(old(grid.minimum), grid.Get(x, y))
    ensures grid.maximum == NoiseMath.Max(old(grid.maximum), grid.Get(x, y))
    ensures forall a: nat, b: nat :: a < grid.width && b < grid.length && (a != x || b != y) ==>
      grid.Get(a, b) == old(grid.Get(a, b))
  {
    var width, length := grid.width, grid.length;
    var xOffset, yOffset := Offset(x, detail), Offset(y, detail);
    var value := NoiseMath.Interpolate(xOffset,
      NoiseMath.Interpolate(yOffset, DotMajor(majorAngles, width, length, detail, x, y, false, false),
                                     DotMajor(majorAngles, width, length, detail, x, y, false, true)),
      NoiseMath.Interpolate(yOffset, DotMajor(majorAngles, width, length, detail, x, y, true, false),
                                     DotMajor(majorAngles, width, length, detail, x, y, true, true)));
    low', high' := grid.SetInPass(x, y, value, 0.0, 0.0, low, high);
  }

  /** The dot_major lambda: looks up the corner's angle in major_angles, always in range. */
  function DotMajor(majorAngles: array<Gradient>, width: nat, length: nat, detail: nat, x: nat, y: nat, highX: bool, highY: bool): (r: real)
    requires LatticeFits(width, length, detail) && majorAngles.Length == NodeCount(width, length, detail)
    requires x < width && y < length
    reads majorAngles
    ensures r == CornerValue(width, length, detail, majorAngles[..], x, y, highX, highY)
  {
    CornerInRange(width, length, detail, x, y, highX, highY);
    CornerDot(majorAngles[CornerIndex(width, detail, x, y, highX, highY)], Offset(x, detail), Offset(y, detail), highX, highY)
  }
}
