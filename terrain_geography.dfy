/**
 * The terrain of the current revision (src/geography.cpp): the height field
 * is reset to zero, then octaves of Perlin noise are added with halving
 * weight while the lattice spacing stays above kMinDetail.
 */
module TerrainGeography {
  import opened Constants
  import opened PerlinLattice
  import opened TerrainGrid

  /** kDetail = min(W, L) >> 2: the lattice spacing of the first octave. */
  const Detail: nat := ShiftRight(Smaller(Short, Long), 2)
  /** kMinDetail = 1 << 3: octaves stop once the spacing reaches it. */
  const MinDetail: nat := Pow2(3)
  /** The number of octaves the schedule produces. */
  const Octaves: nat := 4

  /** kDetail >> i: the lattice spacing of octave i. */
  function OctaveDetail(i: nat): nat
  {
    ShiftRight(Detail, i)
  }

  /**
   * The schedule: spacings 128, 64, 32, 16, each above kMinDetail and
   * dividing both dimensions; the fifth spacing is kMinDetail itself, so
   * the loop stops after exactly four octaves.
   */
  lemma Schedule()
    ensures OctaveDetail(0) == 128 && OctaveDetail(1) == 64 && OctaveDetail(2) == 32 && OctaveDetail(3) == 16
    ensures OctaveDetail(Octaves) == MinDetail
    ensures forall i :: 0 <= i < Octaves ==> OctaveDetail(i) > MinDetail && LatticeFits(Short, Long, OctaveDetail(i))
  {
    assert Pow2(1) == 2 && Pow2(2) == 4 && Pow2(3) == 8 && Pow2(4) == 16;
    assert Detail == 128;
  }

  /** The gradient tables the seeded engine supplies: one per octave, grid_nodes gradients each. */
  predicate LatticesFor(lattices: seq<seq<Gradient>>)
  {
    |lattices| == Octaves &&
    forall i :: 0 <= i < Octaves ==> OctaveDetail(i) > 0 && |lattices[i]| == NodeCount(Short, Long, OctaveDetail(i))
  }

  /** Tables shaped for the schedule satisfy the lattice precondition of every octave. */
  lemma ScheduleFits(lattices: seq<seq<Gradient>>, n: nat)
    requires LatticesFor(lattices) && n <= Octaves
    ensures OctavesFit(Short, Long, Detail, lattices, n)
  {
    Schedule();
  }

  /**
   * The height the schedule gives cell (x, y): the sum of the four octaves.
   * With unit gradients it stays within the four-octave amplitude 3.75.
   */
  function TerrainHeight(lattices: seq<seq<Gradient>>, x: nat, y: nat): (h: real)
    requires LatticesFor(lattices) && x < Short && y < Long
    ensures (forall j :: 0 <= j < Octaves ==> UnitBounded(lattices[j])) ==> -3.75 <= h <= 3.75
  {
    ScheduleFits(lattices, Octaves);
    assert Pow2(Octaves) == 16 by {
      assert Pow2(1) == 2 && Pow2(2) == 4 && Pow2(3) == 8;
    }
    OctaveSum(Short, Long, Detail, lattices, Octaves, x, y)
  }

  /** The height of slot k once the first i octaves of the schedule have been added. */
  function HeightAfter(lattices: seq<seq<Gradient>>, i: nat, k: nat): real
    requires LatticesFor(lattices) && i <= Octaves && k < Cells
  {
    ScheduleFits(lattices, i);
    IndexOnto(k);
    OctaveSum(Short, Long, Detail, lattices, i, Column(k), Row(k))
  }

  /** Octave i's contribution to slot k: its noise at weight 1 / 2^i. */
  function OctaveAt(lattices: seq<seq<Gradient>>, i: nat, k: nat): real
    requires LatticesFor(lattices) && i < Octaves && k < Cells
  {
    ScheduleFits(lattices, i + 1);
    IndexOnto(k);
    OctaveTerm(Short, Long, Detail, lattices, i, Column(k), Row(k))
  }

  /** PerlinNoise(kDetail >> i) / (1 << i): octave i at its weight. */
  method WeightedOctave(lattices: seq<seq<Gradient>>, i: nat) returns (scaled: Grid)
    requires LatticesFor(lattices) && i < Octaves
    ensures fresh(scaled) && fresh(scaled.data) && scaled.Valid()
    ensures forall k :: 0 <= k < Cells ==> scaled.data[k] == OctaveAt(lattices, i, k)
  {
    ScheduleFits(lattices, i + 1);
    assert LatticeFits(Short, Long, OctaveDetail(i));
    var octave := PerlinNoise(OctaveDetail(i), lattices[i]);
    scaled := octave.DividedBy(Pow2(i) as real);
    forall k | 0 <= k < Cells
      ensures scaled.data[k] == OctaveAt(lattices, i, k)
    {
      IndexOnto(k);
      WeightedCell(Short, Long, Detail, lattices, i, Column(k), Row(k), Pow2(i) as real, octave.data[k], scaled.data[k]);
    }
  }

  /** Adding octave i at its weight to the height after i octaves gives the height after i + 1. */
  lemma HeightAccumulates(lattices: seq<seq<Gradient>>, i: nat, k: nat, before: real, added: real, after: real)
    requires LatticesFor(lattices) && i < Octaves && k < Cells
    requires before == HeightAfter(lattices, i, k) && added == OctaveAt(lattices, i, k)
    requires after == before + added
    ensures after == HeightAfter(lattices, i + 1, k)
  {
    ScheduleFits(lattices, i + 1);
    IndexOnto(k);
    CellAccumulates(Short, Long, Detail, lattices, i, Column(k), Row(k), before, added, after);
  }

  /** The same, for every slot of the array at once. */
  lemma OctaveAccumulates(lattices: seq<seq<Gradient>>, i: nat, before: seq<real>, added: seq<real>, after: seq<real>)
    requires LatticesFor(lattices) && i < Octaves
    requires |before| == |added| == |after| == Cells
    requires forall k :: 0 <= k < Cells ==> before[k] == HeightAfter(lattices, i, k)
    requires forall k :: 0 <= k < Cells ==> added[k] == OctaveAt(lattices, i, k)
    requires forall k :: 0 <= k < Cells ==> after[k] == before[k] + added[k]
    ensures forall k :: 0 <= k < Cells ==> after[k] == HeightAfter(lattices, i + 1, k)
  {
    forall k | 0 <= k < Cells
      ensures after[k] == HeightAfter(lattices, i + 1, k)
    {
      HeightAccumulates(lattices, i, k, before[k], added[k], after[k]);
    }
  }

  /** A zero grid is the sum of no octaves. */
  lemma NoOctaves(lattices: seq<seq<Gradient>>, cells: seq<real>)
    requires LatticesFor(lattices)
    requires |cells| == Cells && forall k :: 0 <= k < Cells ==> cells[k] == 0.0
    ensures forall k :: 0 <= k < Cells ==> cells[k] == HeightAfter(lattices, 0, k)
  {
  }

  /** After all the octaves of the schedule, every cell holds its terrain height. */
  lemma AllOctaves(lattices: seq<seq<Gradient>>, cells: seq<real>)
    requires LatticesFor(lattices) && |cells| == Cells
    requires forall k :: 0 <= k < Cells ==> cells[k] == HeightAfter(lattices, Octaves, k)
    ensures forall k :: 0 <= k < Cells ==> cells[k] == TerrainHeight(lattices, Column(k), Row(k))
  {
    forall k | 0 <= k < Cells
      ensures cells[k] == TerrainHeight(lattices, Column(k), Row(k))
    {
      IndexOnto(k);
    }
  }

  class Geography {
    /** height_ */
    var height: Grid

    ghost predicate Valid()
      reads this, height
    {
      height.Valid()
    }

    /**
     * Geography(): Seed() then Randomize(). The draws of the seeded engine
     * are the gradient tables given here.
     */
    constructor (lattices: seq<seq<Gradient>>)
      requires LatticesFor(lattices)
      ensures Valid() && fresh(height) && fresh(height.data)
      ensures forall k :: 0 <= k < Cells ==>
        height.data[k] == TerrainHeight(lattices, Column(k), Row(k))
    {
      height := new Grid();
      new;
      Randomize(lattices);
    }

    /**
     * Randomize(): height_ is replaced by a fresh zero grid, then octave i
     * divided by 2^i is added for as long as kDetail >> i exceeds
     * kMinDetail. Each cell ends as the octave sum; with unit gradients it
     * stays within the four-octave amplitude.
     */
    method Randomize(lattices: seq<seq<Gradient>>)
      requires LatticesFor(lattices)
      modifies this
      ensures Valid() && fresh(height) && fresh(height.data)
      ensures forall k :: 0 <= k < Cells ==>
        height.data[k] == TerrainHeight(lattices, Column(k), Row(k))
    {
      var grid := new Grid();
      var i: nat := 0;
      NoOctaves(lattices, grid.data[..]);
      while OctaveDetail(i) > MinDetail
        invariant i <= Octaves && grid.Valid() && fresh(grid.data)
        invariant forall k :: 0 <= k < Cells ==> grid.data[k] == HeightAfter(lattices, i, k)
        decreases Octaves - i
      {
        assert i < Octaves by {
          Schedule();
        }
        AddOctave(grid, lattices, i);
        i := i + 1;
      }
      assert i == Octaves by {
        Schedule();
      }
      AllOctaves(lattices, grid.data[..]);
      height := grid;
    }
  }

  /** One pass of the loop in Randomize(): height_ += PerlinNoise(kDetail >> i) / (1 << i). */
  method AddOctave(height: Grid, lattices: seq<seq<Gradient>>, i: nat)
    requires height.Valid() && LatticesFor(lattices) && i < Octaves
    requires forall k :: 0 <= k < Cells ==> height.data[k] == HeightAfter(lattices, i, k)
    modifies height.data
    ensures forall k :: 0 <= k < Cells ==> height.data[k] == HeightAfter(lattices, i + 1, k)
  {
    var scaled := WeightedOctave(lattices, i);
    ghost var before := height.data[..];
    ghost var added := scaled.data[..];
    height.AddAssign(scaled);
    OctaveAccumulates(lattices, i, before, added, height.data[..]);
  }
}
