/**
 * The height field of the current revision (src/grid.h, src/grid.cpp): a
 * kGeographyShort x kGeographyLong array of heights stored row-major, its
 * cell-wise arithmetic, the edge-clamped surface normal, one octave of
 * Perlin noise, and the element buffer of the terrain mesh.
 */
module TerrainGrid {
  import opened Constants
  import opened Vectors
  import opened NoiseMath
  import opened PerlinLattice

  function Column(i: nat): nat { i % Short }
  function Row(i: nat): nat { i / Short }

  /** index(x, y) = x + y * kGeographyShort: inside the array, and x, y can be read back from it. */
  function Index(x: nat, y: nat): (i: nat)
    requires x < Short && y < Long
    ensures i < Cells
    ensures Column(i) == x && Row(i) == y
  {
    x + y * Short
  }

  /** Every slot of the array is the index of a cell, so a pass over all cells covers it. */
  lemma IndexOnto(i: nat)
    requires i < Cells
    ensures Column(i) < Short && Row(i) < Long && Index(Column(i), Row(i)) == i
  {
  }

  /** Distinct cells never share a slot. */
  lemma IndexInjective(x0: nat, y0: nat, x1: nat, y1: nat)
    requires x0 < Short && y0 < Long && x1 < Short && y1 < Long
    requires Index(x0, y0) == Index(x1, y1)
    ensures x0 == x1 && y0 == y1
  {
  }

  /** low_x: the left neighbour, or the cell itself on the first column. */
  function ClampLow(i: nat): (lo: nat)
    ensures lo <= i
  {
    if i == 0 then 0 else i - 1
  }

  /** high_x: the right neighbour, or the cell itself on the last column. */
  function ClampHigh(i: nat, n: nat): (hi: nat)
    requires i < n
    ensures i <= hi < n
  {
    if i == n - 1 then i else i + 1
  }

  /** On an axis of at least two cells the clamped neighbours are one or two cells apart. */
  lemma NeighbourSpan(i: nat, n: nat)
    requires 2 <= n && i < n
    ensures 1 <= ClampHigh(i, n) - ClampLow(i) <= 2
  {
  }

  lemma ProductAtLeastOne(a: real, b: real)
    requires a >= 1.0 && b >= 1.0
    ensures a * b >= 1.0
  {
    MulRealMonotone(1.0, a, b);
  }

  class Grid {
    /** data_: the heights, row-major, kTotalVertices of them. */
    const data: array<real>

    ghost predicate Valid()
      reads this
    {
      data.Length == Cells
    }

    /** A fresh grid is value-initialised: every height is zero. */
    constructor ()
      ensures Valid() && fresh(data)
      ensures forall i :: 0 <= i < Cells ==> data[i] == 0.0
    {
      data := new real[Cells](_ => 0.0);
    }

    function Get(x: nat, y: nat): real
      requires Valid() && x < Short && y < Long
      reads this, data
    {
      data[Index(x, y)]
    }

    /** set(x, y, v): get(x, y) then yields v, and no other cell changes. */
    method Set(x: nat, y: nat, value: real)
      requires Valid() && x < Short && y < Long
      modifies data
      ensures Get(x, y) == value
      ensures forall i :: 0 <= i < Cells && i != Index(x, y) ==> data[i] == old(data[i])
    {
      data[Index(x, y)] := value;
    }

    /** operator+: a fresh grid holding the cell-wise sum. */
    method Plus(other: Grid) returns (result: Grid)
      requires Valid() && other.Valid()
      ensures fresh(result) && fresh(result.data) && result.Valid()
      ensures forall i :: 0 <= i < Cells ==> result.data[i] == data[i] + other.data[i]
    {
      result := new Grid();
      for i := 0 to Cells
        invariant forall j :: 0 <= j < i ==> result.data[j] == data[j] + other.data[j]
      {
        result.data[i] := data[i] + other.data[i];
      }
    }

    /** operator+=: adds other cell by cell in place; other's array is left alone unless it is this one. */
    method AddAssign(other: Grid)
      requires Valid() && other.Valid()
      modifies data
      ensures forall i :: 0 <= i < Cells ==> data[i] == old(data[i]) + old(other.data[i])
      ensures other.data != data ==> other.data[..] == old(other.data[..])
    {
      for i := 0 to Cells
        invariant forall j :: 0 <= j < i ==> data[j] == old(data[j]) + old(other.data[j])
        invariant forall j :: i <= j < Cells ==> data[j] == old(data[j])
        invariant other.data != data ==> other.data[..] == old(other.data[..])
      {
        data[i] := data[i] + other.data[i];
      }
    }

    /** operator*: a fresh grid with every cell scaled by val. */
    method Times(val: real) returns (result: Grid)
      requires Valid()
      ensures fresh(result) && fresh(result.data) && result.Valid()
      ensures forall i :: 0 <= i < Cells ==> result.data[i] == Mul(data[i], val)
    {
      result := new Grid();
      for i := 0 to Cells
        invariant forall j :: 0 <= j < i ==> result.data[j] == Mul(data[j], val)
      {
        result.data[i] := Mul(data[i], val);
      }
    }

    /** operator*=: scales every cell in place. */
    method MultiplyAssign(val: real)
      requires Valid()
      modifies data
      ensures forall i :: 0 <= i < Cells ==> data[i] == Mul(old(data[i]), val)
    {
      for i := 0 to Cells
        invariant forall j :: 0 <= j < i ==> data[j] == Mul(old(data[j]), val)
        invariant forall j :: i <= j < Cells ==> data[j] == old(data[j])
      {
        data[i] := Mul(data[i], val);
      }
    }

    /** Unary operator- is operator*(-1). */
    method Negated() returns (result: Grid)
      requires Valid()
      ensures fresh(result) && fresh(result.data) && result.Valid()
      ensures forall i :: 0 <= i < Cells ==> result.data[i] == -data[i]
    {
      result := Times(-1.0);
    }

    /** operator-(other) is operator+(-other). */
    method Minus(other: Grid) returns (result: Grid)
      requires Valid() && other.Valid()
      ensures fresh(result) && fresh(result.data) && result.Valid()
      ensures forall i :: 0 <= i < Cells ==> result.data[i] == data[i] - other.data[i]
    {
      var negated := other.Negated();
      result := Plus(negated);
    }

    /** operator-= is operator+=(-other); the negation is taken before any cell changes. */
    method SubtractAssign(other: Grid)
      requires Valid() && other.Valid()
      modifies data
      ensures forall i :: 0 <= i < Cells ==> data[i] == old(data[i]) - old(other.data[i])
    {
      var negated := other.Negated();
      AddAssign(negated);
    }

    /** operator/ is operator*(1 / val). */
    method DividedBy(val: real) returns (result: Grid)
      requires Valid() && val != 0.0
      ensures fresh(result) && fresh(result.data) && result.Valid()
      ensures forall i :: 0 <= i < Cells ==> result.data[i] == Mul(data[i], 1.0 / val)
    {
      result := Times(1.0 / val);
    }

    /** operator/= is operator*=(1 / val). */
    method DivideAssign(val: real)
      requires Valid() && val != 0.0
      modifies data
      ensures forall i :: 0 <= i < Cells ==> data[i] == Mul(old(data[i]), 1.0 / val)
    {
      MultiplyAssign(1.0 / val);
    }

    /** min(): the smallest height, found by scanning every cell. */
    method Min() returns (m: real)
      requires Valid()
      ensures forall i :: 0 <= i < Cells ==> m <= data[i]
      ensures exists i :: 0 <= i < Cells && data[i] == m
    {
      m := data[0];
      for i := 1 to Cells
        invariant forall j :: 0 <= j < i ==> m <= data[j]
        invariant exists j :: 0 <= j < i && data[j] == m
      {
        if data[i] < m {
          m := data[i];
        }
      }
    }

    /** max(): the largest height, found by scanning every cell. */
    method Max() returns (m: real)
      requires Valid()
      ensures forall i :: 0 <= i < Cells ==> data[i] <= m
      ensures exists i :: 0 <= i < Cells && data[i] == m
    {
      m := data[0];
      for i := 1 to Cells
        invariant forall j :: 0 <= j < i ==> data[j] <= m
        invariant exists j :: 0 <= j < i && data[j] == m
      {
        if data[i] > m {
          m := data[i];
        }
      }
    }

    /** x_diff in normal_at: the step between the clamped x-neighbours, heights amplified. */
    function XTangent(x: nat, y: nat, amplification: real): (r: Vec3)
      requires Valid() && x < Short && y < Long
      reads this, data
      ensures 1.0 <= r.x <= 2.0 && r.y == 0.0
    {
      NeighbourSpan(x, Short);
      var lo, hi := ClampLow(x), ClampHigh(x, Short);
      Vec3((hi - lo) as real, 0.0, amplification * (Get(hi, y) - Get(lo, y)))
    }

    /** y_diff in normal_at: the step between the clamped y-neighbours, heights amplified. */
    function YTangent(x: nat, y: nat, amplification: real): (r: Vec3)
      requires Valid() && x < Short && y < Long
      reads this, data
      ensures r.x == 0.0 && 1.0 <= r.y <= 2.0
    {
      NeighbourSpan(y, Long);
      var lo, hi := ClampLow(y), ClampHigh(y, Long);
      Vec3(0.0, (hi - lo) as real, amplification * (Get(x, hi) - Get(x, lo)))
    }

    /**
     * normal_at before normalisation: the cross product of the two tangents.
     * It is perpendicular to both and its z component is at least 1, so it
     * is never zero and always points up.
     */
    function NormalAt(x: nat, y: nat, amplification: real): (n: Vec3)
      requires Valid() && x < Short && y < Long
      reads this, data
      ensures Dot(XTangent(x, y, amplification), n) == 0.0
      ensures Dot(YTangent(x, y, amplification), n) == 0.0
      ensures n.z >= 1.0
    {
      NeighbourSpan(x, Short);
      NeighbourSpan(y, Long);
      ProductAtLeastOne((ClampHigh(x, Short) - ClampLow(x)) as real, (ClampHigh(y, Long) - ClampLow(y)) as real);
      Cross(XTangent(x, y, amplification), YTangent(x, y, amplification))
    }
  }

  /** The normal in closed form: (-a*dhx*dy, -a*dhy*dx, dx*dy) for the clamped spans dx, dy. */
  lemma NormalClosedForm(g: Grid, x: nat, y: nat, amplification: real)
    requires g.Valid() && x < Short && y < Long
    ensures var lx, hx, ly, hy := ClampLow(x), ClampHigh(x, Short), ClampLow(y), ClampHigh(y, Long);
            var dx, dy := (hx - lx) as real, (hy - ly) as real;
            g.NormalAt(x, y, amplification) ==
              Vec3(-(amplification * (g.Get(hx, y) - g.Get(lx, y))) * dy,
                   -(amplification * (g.Get(x, hy) - g.Get(x, ly))) * dx,
                   dx * dy)
  {
  }

  /**
   * Grid::PerlinNoise(detail): one octave of gradient noise. The gradients
   * (cos, sin of the random corner angles) are an input; every cell is
   * written once, with the value CellNoise gives it.
   */
  method PerlinNoise(detail: nat, gradients: seq<Gradient>) returns (grid: Grid)
    requires LatticeFits(Short, Long, detail)
    requires |gradients| == NodeCount(Short, Long, detail)
    ensures fresh(grid) && fresh(grid.data) && grid.Valid()
    ensures forall i :: 0 <= i < Cells ==> grid.data[i] == CellNoise(Short, Long, detail, gradients, Column(i), Row(i))
  {
    grid := new Grid();
    for x := 0 to Short
      invariant fresh(grid.data) && grid.Valid()
      invariant forall i :: 0 <= i < Cells ==>
        grid.data[i] == if Column(i) < x then CellNoise(Short, Long, detail, gradients, Column(i), Row(i)) else 0.0
    {
      var xOffset := Offset(x, detail);
      for y := 0 to Long
        invariant fresh(grid.data) && grid.Valid()
        invariant forall i :: 0 <= i < Cells ==>
          grid.data[i] == if Column(i) < x || (Column(i) == x && Row(i) < y)
                          then CellNoise(Short, Long, detail, gradients, Column(i), Row(i)) else 0.0
      {
        var yOffset := Offset(y, detail);
        var value := Interpolate(xOffset,
          Interpolate(yOffset, CornerValue(Short, Long, detail, gradients, x, y, false, false),
                               CornerValue(Short, Long, detail, gradients, x, y, false, true)),
          Interpolate(yOffset, CornerValue(Short, Long, detail, gradients, x, y, true, false),
                               CornerValue(Short, Long, detail, gradients, x, y, true, true)));
        grid.Set(x, y, value);
        forall i | 0 <= i < Cells && i != Index(x, y)
          ensures Column(i) != x || Row(i) != y
        {
          IndexOnto(i);
        }
      }
    }
  }

  function QuadX(k: nat): nat { (k / VerticesPerCell) % (Short - 1) }
  function QuadY(k: nat): nat { (k / VerticesPerCell) / (Short - 1) }
  function Corner(k: nat): nat { k % VerticesPerCell }

  /** indexInd + c: the six slots of quad (x, y) in the element buffer; each slot names its quad and corner. */
  function Slot(x: nat, y: nat, c: nat): (k: nat)
    requires x < Short - 1 && y < Long - 1 && c < VerticesPerCell
    ensures k < TotalIndices
    ensures QuadX(k) == x && QuadY(k) == y && Corner(k) == c
  {
    (x + y * (Short - 1)) * VerticesPerCell + c
  }

  /** Every slot of the element buffer belongs to some quad, so the slots cover the buffer. */
  lemma SlotsCover(k: nat)
    requires k < TotalIndices
    ensures QuadX(k) < Short - 1 && QuadY(k) < Long - 1 && Corner(k) < VerticesPerCell
    ensures Slot(QuadX(k), QuadY(k), Corner(k)) == k
  {
  }

  /** Slots of distinct quads, or of distinct corners, never coincide. */
  lemma SlotsDisjoint(x0: nat, y0: nat, c0: nat, x1: nat, y1: nat, c1: nat)
    requires x0 < Short - 1 && y0 < Long - 1 && c0 < VerticesPerCell
    requires x1 < Short - 1 && y1 < Long - 1 && c1 < VerticesPerCell
    requires Slot(x0, y0, c0) == Slot(x1, y1, c1)
    ensures x0 == x1 && y0 == y1 && c0 == c1
  {
  }

  /**
   * The vertex in corner c of quad (x, y): triangles (x,y),(x,y+1),(x+1,y)
   * and (x+1,y),(x,y+1),(x+1,y+1); always a vertex of the grid.
   */
  function CornerVertex(x: nat, y: nat, c: nat): (v: nat)
    requires x < Short - 1 && y < Long - 1 && c < VerticesPerCell
    ensures v < Cells
  {
    match c
    case 0 => Index(x, y)
    case 1 => Index(x, y + 1)
    case 2 => Index(x + 1, y)
    case 3 => Index(x + 1, y)
    case 4 => Index(x, y + 1)
    case _ => Index(x + 1, y + 1)
  }

  /** The slots of quad (x, y) are the six consecutive ones from Slot(x, y, 0). */
  lemma SlotRange(x: nat, y: nat, k: nat)
    requires x < Short - 1 && y < Long - 1 && k < TotalIndices
    ensures QuadX(k) == x && QuadY(k) == y <==> Slot(x, y, 0) <= k < Slot(x, y, 0) + VerticesPerCell
  {
    var first := Slot(x, y, 0);
    if first <= k < first + VerticesPerCell {
      assert Slot(x, y, k - first) == k;
    }
    SlotsCover(k);
    if QuadX(k) == x && QuadY(k) == y {
      assert Slot(x, y, Corner(k)) == first + Corner(k);
    }
  }

  /** The six writes of one quad: its slots get its corner vertices, no other slot changes. */
  method WriteQuad(indices: array<nat>, x: nat, y: nat)
    requires indices.Length == TotalIndices && x < Short - 1 && y < Long - 1
    modifies indices
    ensures forall c :: 0 <= c < VerticesPerCell ==> indices[Slot(x, y, c)] == CornerVertex(x, y, c)
    ensures forall k :: 0 <= k < TotalIndices && (QuadX(k) != x || QuadY(k) != y) ==> indices[k] == old(indices[k])
  {
    var base := (x + y * (Short - 1)) * VerticesPerCell;
    assert base == Slot(x, y, 0);
    ghost var before := indices[..];
    indices[base] := Index(x, y);
    indices[base + 1] := Index(x, y + 1);
    indices[base + 2] := Index(x + 1, y);
    indices[base + 3] := Index(x + 1, y);
    indices[base + 4] := Index(x, y + 1);
    indices[base + 5] := Index(x + 1, y + 1);
    assert forall k :: 0 <= k < TotalIndices && (k < base || base + VerticesPerCell <= k) ==> indices[k] == before[k];
    forall k | 0 <= k < TotalIndices && (QuadX(k) != x || QuadY(k) != y)
      ensures indices[k] == before[k]
    {
      SlotRange(x, y, k);
    }
  }

  /** What slot k holds once the quads before (x, y), in the loops' order, are written; 0 otherwise. */
  function Filled(k: nat, x: nat, y: nat): nat
    requires k < TotalIndices
  {
    SlotsCover(k);
    if Before(QuadX(k), QuadY(k), x, y) then CornerVertex(QuadX(k), QuadY(k), Corner(k)) else 0
  }

  /** Writing quad (x, y) into a buffer filled up to (x, y) fills it up to (x, y + 1). */
  lemma QuadStep(before: seq<nat>, after: seq<nat>, x: nat, y: nat)
    requires |before| == |after| == TotalIndices && x < Short - 1 && y < Long - 1
    requires forall k :: 0 <= k < TotalIndices ==> before[k] == Filled(k, x, y)
    requires forall c :: 0 <= c < VerticesPerCell ==> after[Slot(x, y, c)] == CornerVertex(x, y, c)
    requires forall k :: 0 <= k < TotalIndices && (QuadX(k) != x || QuadY(k) != y) ==> after[k] == before[k]
    ensures forall k :: 0 <= k < TotalIndices ==> after[k] == Filled(k, x, y + 1)
  {
    forall k | 0 <= k < TotalIndices
      ensures after[k] == Filled(k, x, y + 1)
    {
      SlotsCover(k);
      if QuadX(k) == x && QuadY(k) == y {
        assert after[Slot(x, y, Corner(k))] == CornerVertex(x, y, Corner(k));
      } else {
        assert after[k] == before[k];
      }
    }
  }

  /**
   * Grid::indices(): the element buffer of the mesh. Every slot holds the
   * corner vertex its quad and corner call for, and every value is a vertex.
   */
  method Indices() returns (indices: array<nat>)
    ensures fresh(indices) && indices.Length == TotalIndices
    ensures forall k :: 0 <= k < TotalIndices ==>
      QuadX(k) < Short - 1 && QuadY(k) < Long - 1 && indices[k] == CornerVertex(QuadX(k), QuadY(k), Corner(k))
    ensures forall k :: 0 <= k < TotalIndices ==> indices[k] < Cells
  {
    indices := new nat[TotalIndices](_ => 0);
    for x := 0 to Short - 1
      invariant forall k :: 0 <= k < TotalIndices ==> indices[k] == Filled(k, x, 0)
    {
      for y := 0 to Long - 1
        invariant forall k :: 0 <= k < TotalIndices ==> indices[k] == Filled(k, x, y)
      {
        ghost var before := indices[..];
        WriteQuad(indices, x, y);
        QuadStep(before, indices[..], x, y);
      }
      forall k | 0 <= k < TotalIndices
        ensures indices[k] == Filled(k, x + 1, 0)
      {
        SlotsCover(k);
      }
    }
    forall k | 0 <= k < TotalIndices
      ensures QuadX(k) < Short - 1 && QuadY(k) < Long - 1 && indices[k] == CornerVertex(QuadX(k), QuadY(k), Corner(k))
    {
      SlotsCover(k);
    }
  }
}
