/** Compile-time dimensions of one terrain tile (src/constants.h). */
module Constants {
  /** kGeographyShort = 1 << 9 */
  const Short: nat := 512
  /** kGeographyLong = kGeographyShort << 0 */
  const Long: nat := 512
  /** kTotalVertices: one vertex (and one height sample) per grid cell. */
  const Cells: nat := Short * Long
  /** kVerticesPerCell: two triangles of three vertices each. */
  const VerticesPerCell: nat := 6
  /** kTotalCells: quads between neighbouring samples. */
  const Quads: nat := (Short - 1) * (Long - 1)
  /** kTotalIndices: length of the element (index) buffer. */
  const TotalIndices: nat := Quads * VerticesPerCell
}
