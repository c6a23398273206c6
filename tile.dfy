/** The per-cell tile record of Tile.cs. It has no behaviour of its own; the
    chunk stores one per cell and the mesher looks ids up in a catalog of
    them. */
module Tiles {
  import opened UnityTypes
  import opened TileLights

  datatype Tile = Tile(id: int, emission: LightEmission, attenuation: int, color: Color32, isSolid: bool)

  /** The default struct value: id 0 (no tile), no emission, transparent. */
  const Empty := Tile(0, EmissionZero, 0, Color32(0, 0, 0, 0), false)
}
