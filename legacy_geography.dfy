/**
 * The terrain of the first revision (geography.h, geography.cpp): five
 * octaves of Perlin noise summed into a LegacyGrid at halving weight, and
 * the placeholder erosion step that lowers one cell by 1.
 */
module LegacyGeography {
  import NoiseMath
  import opened PerlinLattice
  import LegacyGrid

  /** major_width, major_length and detail as geography.h declares them. */
  const HeaderMajorWidth: nat := 20
  const HeaderMajorLength: nat := 20
  const HeaderDetail: nat := 50
  /** width = (major_width - 1) * detail and length = (major_length - 1) * detail: 950 each. */
  const HeaderWidth: nat := (HeaderMajorWidth - 1) * HeaderDetail
  const HeaderLength: nat := (HeaderMajorLength - 1) * HeaderDetail

  /** The constructor's loop runs i = 0 .. 4. */
  const Octaves: nat := 5

  /** detail = min(width, length) >> 2: the lattice spacing of octave 0, at most a quarter of either dimension. */
  function BaseDetail(width: nat, length: nat): (r: nat)
    ensures 4 * r <= width && 4 * r <= length
  {
    assert Pow2(2) == 4;
    ShiftRight(Smaller(width, length), 2)
  }

  /** perlin_noise(detail >> i) / (1 << i): octave i drawn from streams[i], at its weight. */
  method WeightedOctave(width: nat, length: nat, streams: seq<seq<Gradient>>, i: nat) returns (scaled: LegacyGrid.Grid)
    requires OctavesFit(width, length, BaseDetail(width, length), streams, i + 1)
    ensures fresh(scaled) && fresh(scaled.data) && scaled.Valid()
    ensures scaled.width == width && scaled.length == length
    ensures forall x: nat, y: nat :: x < width && y < length ==>
      scaled.Get(x, y) == OctaveTerm(width, length, BaseDetail(width, length), streams, i, x, y)
  {
    var detail := ShiftRight(BaseDetail(width, length), i);
    assert LatticeFits(width, length, detail) && |streams[i]| >= NodeCount(width, length, detail);
    var octave := LegacyGrid.PerlinNoise(width, length, detail, streams[i]);
    var p := Pow2(i) as real;
    scaled := octave.DividedBy(p);
    assert forall x: nat, y: nat :: x < width && y < length ==>
      octave.Get(x, y) == CellNoise(width, length, ShiftRight(BaseDetail(width, length), i), streams[i], x, y);
    assert forall x: nat, y: nat :: x < width && y < length ==> scaled.Get(x, y) == NoiseMath.Mul(octave.Get(x, y), 1.0 / p);
    ScaledOctave(width, length, streams, i, p, octave, scaled);
  }

  /** Dividing octave i's noise by 1 << i, cell by cell, gives that octave's terms. */
  lemma ScaledOctave(width: nat, length: nat, streams: seq<seq<Gradient>>, i: nat, p: real,
                     octave: LegacyGrid.Grid, scaled: LegacyGrid.Grid)
    requires OctavesFit(width, length, BaseDetail(width, length), streams, i + 1)
    requires p == Pow2(i) as real
    requires octave.Shaped() && octave.width == width && octave.length == length
    requires scaled.Shaped() && scaled.width == width && scaled.length == length
    requires forall x: nat, y: nat :: x < width && y < length ==>
      octave.Get(x, y) == CellNoise(width, length, ShiftRight(BaseDetail(width, length), i), streams[i], x, y)
    requires forall x: nat, y: nat :: x < width && y < length ==> scaled.Get(x, y) == NoiseMath.Mul(octave.Get(x, y), 1.0 / p)
    ensures forall x: nat, y: nat :: x < width && y < length ==>
      scaled.Get(x, y) == OctaveTerm(width, length, BaseDetail(width, length), streams, i, x, y)
  {
    forall x: nat, y: nat | x < width && y < length
      ensures scaled.Get(x, y) == OctaveTerm(width, length, BaseDetail(width, length), streams, i, x, y)
    {
      WeightedCell(width, length, BaseDetail(width, length), streams, i, x, y, p, octave.Get(x, y), scaled.Get(x, y));
    }
  }

  class Geography {
    const width: nat
    const length: nat
    /** height: the terrain's height field. */
    var height: LegacyGrid.Grid

    ghost predicate Valid()
      reads this, height, height.data
    {
      height.Valid() && height.width == width && height.length == length
    }

    /** height_at(x, y): always within the grid's running minimum and maximum. */
    function HeightAt(x: nat, y: nat): (h: real)
      requires Valid() && x < width && y < length
      reads this, height, height.data
      ensures height.Min() <= h <= height.Max()
    {
      height.Get(x, y)
    }

    /**
     * Geography(): height += perlin_noise(detail >> i) / (1 << i) for
     * i = 0 .. 4. Octave i draws its gradients from streams[i]; every
     * octave's detail must divide both dimensions.
     */
    constructor (width: nat, length: nat, streams: seq<seq<Gradient>>)
      requires OctavesFit(width, length, BaseDetail(width, length), streams, Octaves)
      ensures this.width == width && this.length == length
      ensures Valid() && fresh(height) && fresh(height.data)
      ensures forall x: nat, y: nat :: x < width && y < length ==>
        HeightAt(x, y) == OctaveSum(width, length, BaseDetail(width, length), streams, Octaves, x, y)
    {
      this.width := width;
      this.length := length;
      height := new LegacyGrid.Grid(width, length);
      new;
      for i := 0 to Octaves
        invariant Valid() && fresh(height) && fresh(height.data)
        invariant OctavesFit(width, length, BaseDetail(width, length), streams, i)
        invariant forall x: nat, y: nat :: x < width && y < length ==>
          HeightAt(x, y) == OctaveSum(width, length, BaseDetail(width, length), streams, i, x, y)
      {
        AddOctave(streams, i);
      }
    }

    /** One pass of the constructor's loop. */
    method AddOctave(streams: seq<seq<Gradient>>, i: nat)
      requires Valid() && OctavesFit(width, length, BaseDetail(width, length), streams, i + 1)
      requires forall x: nat, y: nat :: x < width && y < length ==>
        HeightAt(x, y) == OctaveSum(width, length, BaseDetail(width, length), streams, i, x, y)
      modifies height, height.data
      ensures Valid()
      ensures forall x: nat, y: nat :: x < width && y < length ==>
        HeightAt(x, y) == OctaveSum(width, length, BaseDetail(width, length), streams, i + 1, x, y)
      ensures height.Widened(old(height.minimum), old(height.maximum))
    {
      var scaled := WeightedOctave(width, length, streams, i);
      height.AddAssign(scaled);
      forall x: nat, y: nat | x < width && y < length
        ensures HeightAt(x, y) == OctaveSum(width, length, BaseDetail(width, length), streams, i + 1, x, y)
      {
        CellAccumulates(width, length, BaseDetail(width, length), streams, i, x, y,
                        old(height.Get(x, y)), scaled.Get(x, y), height.Get(x, y));
      }
    }

    /** simulate_drop(x, y): the cell loses exactly 1, nothing else changes, and the maximum stays put. */
    method SimulateDrop(x: nat, y: nat)
      requires Valid() && x < width && y < length
      modifies height, height.data
      ensures Valid()
      ensures HeightAt(x, y) == old(HeightAt(x, y)) - 1.0
      ensures forall a: nat, b: nat :: a < width && b < length && (a != x || b != y) ==> HeightAt(a, b) == old(HeightAt(a, b))
      ensures height.minimum == NoiseMath.Min(old(height.minimum), HeightAt(x, y))
      ensures height.maximum == old(height.maximum)
    {
      LegacyGrid.CellsBracketed(height);
      height.Set(x, y, height.Get(x, y) - 1.0);
    }

    /** simulate_random_drop(): despite the name, always the centre cell. */
    method SimulateRandomDrop()
      requires Valid() && width > 0 && length > 0
      modifies height, height.data
      ensures Valid()
      ensures HeightAt(width / 2, length / 2) == old(HeightAt(width / 2, length / 2)) - 1.0
      ensures forall a: nat, b: nat :: a < width && b < length && (a != width / 2 || b != length / 2) ==>
        HeightAt(a, b) == old(HeightAt(a, b))
      ensures height.minimum == NoiseMath.Min(old(height.minimum), HeightAt(width / 2, length / 2))
      ensures height.maximum == old(height.maximum)
    {
      SimulateDrop(width / 2, length / 2);
    }
  }

  /**
   * With the dimensions geography.h declares, 950 x 950, the first octave's
   * detail is 237, which does not divide 950: the high corner of cell
   * (949, 949) is lattice node 30 of only 25, so the constructor's
   * precondition cannot be met, whatever the draws.
   */
  lemma HeaderDimensionsOverrun(streams: seq<seq<Gradient>>)
    ensures HeaderWidth == 950 && HeaderLength == 950
    ensures BaseDetail(HeaderWidth, HeaderLength) == 237 && HeaderWidth % 237 != 0
    ensures NodeCount(HeaderWidth, HeaderLength, 237) == 25
    ensures CornerIndex(HeaderWidth, 237, HeaderWidth - 1, HeaderLength - 1, true, true) == 30
    ensures !OctavesFit(HeaderWidth, HeaderLength, BaseDetail(HeaderWidth, HeaderLength), streams, Octaves)
  {
    assert ShiftRight(950, 1) == 475 && ShiftRight(950, 2) == 237;
    assert ShiftRight(BaseDetail(HeaderWidth, HeaderLength), 0) == 237;
    CornerOverrun(HeaderWidth, HeaderLength, 237);
  }

  /**
   * Power-of-two dimensions, as the generator's comment assumes and as the
   * later revision uses (512 x 512): all five details 128, 64, 32, 16, 8
   * divide both sides, so the constructor can be called once each stream
   * holds (512 / detail + 1)^2 draws.
   */
  lemma PowerOfTwoDimensionsFit(streams: seq<seq<Gradient>>)
    requires |streams| == Octaves
    requires |streams[0]| >= 25 && |streams[1]| >= 81 && |streams[2]| >= 289
    requires |streams[3]| >= 1089 && |streams[4]| >= 4225
    ensures BaseDetail(512, 512) == 128
    ensures OctavesFit(512, 512, BaseDetail(512, 512), streams, Octaves)
  {
    assert ShiftRight(512, 1) == 256 && ShiftRight(512, 2) == 128;
    var base := BaseDetail(512, 512);
    assert base == 128;
    assert ShiftRight(base, 0) == 128 && ShiftRight(base, 1) == 64 && ShiftRight(base, 2) == 32;
    assert ShiftRight(base, 3) == 16 && ShiftRight(base, 4) == 8;
    forall i | 0 <= i < Octaves
      ensures LatticeFits(512, 512, ShiftRight(base, i)) && |streams[i]| >= NodeCount(512, 512, ShiftRight(base, i))
    {
      if i == 0 {
        assert NodeCount(512, 512, 128) == 25;
      } else if i == 1 {
        assert NodeCount(512, 512, 64) == 81;
      } else if i == 2 {
        assert NodeCount(512, 512, 32) == 289;
      } else if i == 3 {
        assert NodeCount(512, 512, 16) == 1089;
      } else {
        assert NodeCount(512, 512, 8) == 4225;
      }
    }
  }
}
