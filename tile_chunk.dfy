/** One chunk of the world (TileChunk.cs): chunk-local tile and light
    arrays, row-major over `chunkSize`, and a `dirty` flag that every
    in-bounds write raises and a rebuild clears. */
module TileChunks {
  import opened TileUtil
  import opened Tiles
  import TileLights

  class TileChunk {
    const chunkPosition: Int2
    const chunkSize: Int2
    const tiles: array<Tile>
    const lights: array<TileLights.TileLight>
    var dirty: bool

    /** Both arrays hold one slot per tile of the chunk. */
    ghost predicate Valid()
    {
      tiles.Length == chunkSize.x * chunkSize.y && lights.Length == chunkSize.x * chunkSize.y
    }

    /** The allocation part of Init: chunk-sized arrays of default (empty,
        dark) entries, and a chunk that still has to be built. */
    constructor Init(position: Int2, size: Int2)
      requires size.x * size.y >= 0
      ensures chunkPosition == position && chunkSize == size && Valid()
      ensures fresh(tiles) && fresh(lights)
      ensures forall i :: 0 <= i < tiles.Length ==> tiles[i] == Empty
      ensures forall i :: 0 <= i < lights.Length ==> lights[i] == TileLights.Dark
      ensures dirty
    {
      chunkPosition := position;
      chunkSize := size;
      tiles := new Tile[size.x * size.y](_ => Empty);
      lights := new TileLights.TileLight[size.x * size.y](_ => TileLights.Dark);
      dirty := true;
    }

    /** Rebuilding the chunk leaves it clean. */
    method UpdateChunk()
      modifies this`dirty
      ensures !dirty
    {
      dirty := false;
    }

    /** The array slot of chunk tile `p`. */
    function Index(p: Int2): int {
      To1DIndex(p, chunkSize)
    }

    /** An in-bounds write sets the sun channel of that one cell (to the low
        four bits of `value`), keeps its torch channels and every other
        cell, and marks the chunk dirty; an out-of-bounds one changes nothing. */
    method SetSunLight(tilePosition: Int2, value: bv32)
      requires Valid()
      modifies lights, this`dirty
      ensures BoundaryCheck(tilePosition, chunkSize) ==>
        0 <= Index(tilePosition) < lights.Length &&
        lights[..] == old(lights[..])[Index(tilePosition) := TileLights.SetSunLight(old(lights[Index(tilePosition)]), value)] &&
        GetSunLight(tilePosition) == value & 0xF &&
        TileLights.GetEmission(lights[Index(tilePosition)]) == TileLights.GetEmission(old(lights[Index(tilePosition)])) &&
        dirty
      ensures !BoundaryCheck(tilePosition, chunkSize) ==> lights[..] == old(lights[..]) && dirty == old(dirty)
    {
      if !BoundaryCheck(tilePosition, chunkSize) {
        return;
      }
      BoundaryCheckIndexOfTo1DIndex(tilePosition, chunkSize);
      var i := To1DIndex(tilePosition, chunkSize);
      TileLights.SetSunLightChannels(lights[i], value);
      TileLights.EmissionIgnoresSun(lights[i], value);
      lights[i] := TileLights.SetSunLight(lights[i], value);
      dirty := true;
    }

    /** The sun light of chunk tile `p`, or 0 outside the chunk. */
    function GetSunLight(tilePosition: Int2): (r: bv32)
      requires Valid()
      reads this, lights
      ensures r <= TileLights.MaxSunLight
      ensures !BoundaryCheck(tilePosition, chunkSize) ==> r == 0
      ensures BoundaryCheck(tilePosition, chunkSize) ==>
        0 <= Index(tilePosition) < lights.Length && r == TileLights.GetSunLight(lights[Index(tilePosition)])
    {
      if !BoundaryCheck(tilePosition, chunkSize) then 0
      else
        BoundaryCheckIndexOfTo1DIndex(tilePosition, chunkSize);
        TileLights.GetSunLight(lights[To1DIndex(tilePosition, chunkSize)])
    }

    /** An in-bounds write stores `tileType` as the id of that one cell (its other
        attributes stay), marks the chunk dirty and is what GetTile then
        reads; an out-of-bounds one changes nothing. */
    method SetTile(tilePosition: Int2, tileType: int)
      requires Valid()
      modifies tiles, this`dirty
      ensures BoundaryCheck(tilePosition, chunkSize) ==>
        0 <= Index(tilePosition) < tiles.Length &&
        tiles[..] == old(tiles[..])[Index(tilePosition) := old(tiles[Index(tilePosition)]).(id := tileType)] &&
        GetTile(tilePosition) == (true, old(tiles[Index(tilePosition)]).(id := tileType)) &&
        dirty
      ensures !BoundaryCheck(tilePosition, chunkSize) ==> tiles[..] == old(tiles[..]) && dirty == old(dirty)
      ensures forall q :: q != tilePosition ==> GetTile(q) == old(GetTile(q))
    {
      if !BoundaryCheck(tilePosition, chunkSize) {
        return;
      }
      BoundaryCheckIndexOfTo1DIndex(tilePosition, chunkSize);
      var i := To1DIndex(tilePosition, chunkSize);
      tiles[i] := tiles[i].(id := tileType);
      dirty := true;
      forall q | q != tilePosition && BoundaryCheck(q, chunkSize) ensures Index(q) != i {
        if Index(q) == i {
          To1DIndexInjective(q, tilePosition, chunkSize);
        }
      }
    }

    /** Whether `p` is in the chunk, and the tile in its slot (the empty
        tile outside the chunk). */
    function GetTile(tilePosition: Int2): (r: (bool, Tile))
      requires Valid()
      reads this, tiles
      ensures r.0 <==> BoundaryCheck(tilePosition, chunkSize)
      ensures !r.0 ==> r.1 == Empty
      ensures r.0 ==> 0 <= Index(tilePosition) < tiles.Length && r.1 == tiles[Index(tilePosition)]
    {
      if !BoundaryCheck(tilePosition, chunkSize) then (false, Empty)
      else
        BoundaryCheckIndexOfTo1DIndex(tilePosition, chunkSize);
        (true, tiles[To1DIndex(tilePosition, chunkSize)])
    }
  }
}
