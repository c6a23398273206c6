/** Integer coordinate helpers shared by chunks, the mesher and the light
    texture (TileUtil.cs). World tiles, chunk-local tiles and chunk
    coordinates are all pairs of integers; flat arrays are row-major. */
module TileUtil {

  /** `int2` / `Vector2Int`: a pair of integers with componentwise arithmetic. */
  datatype Int2 = Int2(x: int, y: int) {
    function Plus(o: Int2): Int2 { Int2(x + o.x, y + o.y) }
    function Minus(o: Int2): Int2 { Int2(x - o.x, y - o.y) }
    function Times(o: Int2): Int2 { Int2(x * o.x, y * o.y) }
    function Scale(k: int): Int2 { Int2(x * k, y * k) }
  }

  const Up := Int2(0, 1)
  const Down := Int2(0, -1)
  const Left := Int2(-1, 0)
  const Right := Int2(1, 0)

  /** Row-major index of a 2D position in a grid `size.x` wide. */
  function To1DIndex(index: Int2, size: Int2): int {
    index.x + index.y * size.x
  }

  /** Inverse of To1DIndex. C# `%` and `/` truncate toward zero; for a
      non-negative index and a positive width they agree with Dafny's. */
  function To2DIndex(index: int, size: Int2): (p: Int2)
    requires index >= 0 && size.x > 0
    ensures 0 <= p.x < size.x && 0 <= p.y
    ensures To1DIndex(p, size) == index
  {
    Int2(index % size.x, index / size.x)
  }

  /** World position of a chunk's lower-left tile. */
  function ChunkToWorld(chunkPosition: Int2, size: Int2): (w: Int2)
    ensures w == TileToWorldTile(Int2(0, 0), chunkPosition, size)
  {
    Int2(chunkPosition.x * size.x, chunkPosition.y * size.y)
  }

  /** The chunk holding a world tile: floor division per component. */
  function WorldTileToChunk(worldTilePosition: Int2, size: Int2): (c: Int2)
    requires size.x > 0 && size.y > 0
    ensures c.x * size.x <= worldTilePosition.x < c.x * size.x + size.x
    ensures c.y * size.y <= worldTilePosition.y < c.y * size.y + size.y
  {
    Int2(FloorDiv(worldTilePosition.x, size.x), FloorDiv(worldTilePosition.y, size.y))
  }

  /** Floor division (Mathf.FloorToInt of the float quotient). */
  function FloorDiv(a: int, b: int): (q: int)
    requires b > 0
    ensures q * b <= a < q * b + b
  {
    a / b
  }

  function WorldTileToTile(worldTilePosition: Int2, chunkPosition: Int2, size: Int2): Int2 {
    worldTilePosition.Minus(chunkPosition.Times(size))
  }

  function TileToWorldTile(tilePosition: Int2, chunkPosition: Int2, size: Int2): Int2 {
    tilePosition.Plus(chunkPosition.Times(size))
  }

  /** A 2D position inside a `size` grid. */
  predicate BoundaryCheck(tilePosition: Int2, size: Int2) {
    !(tilePosition.x < 0 || tilePosition.y < 0 || tilePosition.x >= size.x || tilePosition.y >= size.y)
  }

  /** A flat index inside a `size` grid (the `int` overload). */
  predicate BoundaryCheckIndex(tileIndex: int, size: Int2) {
    !(tileIndex < 0 || tileIndex >= size.x * size.y)
  }

  /** A world tile inside the chunk at `chunkPosition` (the three-argument overload). */
  predicate BoundaryCheckInChunk(worldTilePosition: Int2, chunkPosition: Int2, size: Int2) {
    BoundaryCheck(WorldTileToTile(worldTilePosition, chunkPosition, size), size)
  }

  function Abs(n: int): nat { if n < 0 then -n else n }

  /** One step along an axis: the offsets of the 4-neighbourhood. */
  predicate IsUnitOffset(o: Int2) { Abs(o.x) + Abs(o.y) == 1 }

  /** A non-zero offset with both components in {-1, 0, 1}: the 8-neighbourhood. */
  predicate IsNeighbourOffset(o: Int2) {
    -1 <= o.x <= 1 && -1 <= o.y <= 1 && o != Int2(0, 0)
  }

  function Direction4(): (d: seq<Int2>)
    ensures |d| == 4
    ensures forall i :: 0 <= i < |d| ==> IsUnitOffset(d[i])
    ensures forall i, j :: 0 <= i < j < |d| ==> d[i] != d[j]
    ensures forall o :: IsUnitOffset(o) ==> o in d
  {
    [Down, Up, Right, Left]
  }

  function Direction8(): (d: seq<Int2>)
    ensures |d| == 8
    ensures forall i :: 0 <= i < |d| ==> IsNeighbourOffset(d[i])
    ensures forall i, j :: 0 <= i < j < |d| ==> d[i] != d[j]
    ensures forall o :: IsNeighbourOffset(o) ==> o in d
  {
    [Int2(1, 0), Int2(-1, 0), Int2(0, 1), Int2(0, -1),
     Int2(1, 1), Int2(-1, -1), Int2(-1, 1), Int2(1, -1)]
  }

  /** Euclidean division has a unique quotient and remainder. */
  lemma DivModUnique(n: int, d: int, q: int, r: int)
    requires d > 0 && 0 <= r < d && n == q * d + r
    ensures n / d == q && n % d == r
  {
    var q', r' := n / d, n % d;
    assert (q - q') * d == r' - r by {
      assert n == q' * d + r';
    }
    if q' < q {
      MulAtLeast(q - q', d);
    } else if q < q' {
      MulAtLeast(q' - q, d);
    }
  }

  lemma MulAtLeast(a: int, d: int)
    requires a >= 1 && d > 0
    ensures a * d >= d
  {
    assert a * d == (a - 1) * d + d;
    assert (a - 1) * d >= 0;
  }

  /** Converting an in-bounds position to a flat index and back is the identity. */
  lemma To2DIndexOfTo1DIndex(p: Int2, size: Int2)
    requires BoundaryCheck(p, size)
    ensures To1DIndex(p, size) >= 0
    ensures To2DIndex(To1DIndex(p, size), size) == p
  {
    assert p.y * size.x >= 0;
    DivModUnique(To1DIndex(p, size), size.x, p.y, p.x);
  }

  /** Converting a flat index to a position and back is the identity. */
  lemma To1DIndexOfTo2DIndex(i: int, size: Int2)
    requires i >= 0 && size.x > 0
    ensures To1DIndex(To2DIndex(i, size), size) == i
  {
  }

  /** An in-bounds position has an in-bounds flat index. */
  lemma BoundaryCheckIndexOfTo1DIndex(p: Int2, size: Int2)
    requires BoundaryCheck(p, size)
    ensures BoundaryCheckIndex(To1DIndex(p, size), size)
  {
    assert p.y * size.x >= 0;
    assert p.y * size.x <= (size.y - 1) * size.x by {
      assert (size.y - 1 - p.y) * size.x >= 0;
    }
  }

  /** Different in-bounds positions have different flat indices. */
  lemma To1DIndexInjective(p: Int2, q: Int2, size: Int2)
    requires BoundaryCheck(p, size) && BoundaryCheck(q, size)
    requires To1DIndex(p, size) == To1DIndex(q, size)
    ensures p == q
  {
    To2DIndexOfTo1DIndex(p, size);
    To2DIndexOfTo1DIndex(q, size);
  }

  /** For a fixed chunk, local-to-world and world-to-local are mutual inverses. */
  lemma WorldTileToTileInverse(t: Int2, w: Int2, c: Int2, size: Int2)
    ensures WorldTileToTile(TileToWorldTile(t, c, size), c, size) == t
    ensures TileToWorldTile(WorldTileToTile(w, c, size), c, size) == w
  {
  }

  /** A world tile lies in chunk `c` iff it lies in the chunk's world rectangle. */
  lemma BoundaryCheckInChunkRange(w: Int2, c: Int2, size: Int2)
    ensures BoundaryCheckInChunk(w, c, size) <==>
      c.x * size.x <= w.x < c.x * size.x + size.x && c.y * size.y <= w.y < c.y * size.y + size.y
  {
  }

  /** Every world tile is inside the chunk WorldTileToChunk names, at an in-bounds local tile. */
  lemma WorldTileInOwnChunk(w: Int2, size: Int2)
    requires size.x > 0 && size.y > 0
    ensures BoundaryCheckInChunk(w, WorldTileToChunk(w, size), size)
    ensures BoundaryCheck(WorldTileToTile(w, WorldTileToChunk(w, size), size), size)
  {
  }

  /** A world tile belongs to exactly one chunk. */
  lemma WorldTileToChunkUnique(w: Int2, c: Int2, size: Int2)
    requires size.x > 0 && size.y > 0
    requires BoundaryCheckInChunk(w, c, size)
    ensures c == WorldTileToChunk(w, size)
  {
    var t := WorldTileToTile(w, c, size);
    DivModUnique(w.x, size.x, c.x, t.x);
    DivModUnique(w.y, size.y, c.y, t.y);
  }
}
