/** The greedy chunk mesher of TileMesh.cs. For one chunk of a world-sized,
    row-major tile array it merges runs of equal non-zero tiles into
    rectangles (tallest run first, then as many whole matching columns to the
    right as fit) and emits one quad per rectangle into five output buffers.

    The buffers hold Unity vectors of floats; every value the mesher puts in
    them is an integer, so positions and uvs are Int2 here, with z (and the
    uv's z and w) zero. Rectangles are kept in world tile coordinates, as the
    `visited` set is. */
module TileMeshes {
  import opened UnityTypes
  import opened TileUtil
  import opened Tiles

  /** One emitted rectangle: its lower-left world tile, its size in tiles, the
      tile id every cell of it holds and the colour its quad is painted. */
  datatype Quad = Quad(origin: Int2, width: int, height: int, tile: int, color: Color32)

  /** The two triangles of a quad, as offsets into its four vertices. */
  const TileIndices: seq<int> := [0, 1, 3, 0, 3, 2]

  /** The unit quad's corners in vertex order. */
  const TileVertices: seq<Int2> := [Int2(0, 0), Int2(0, 1), Int2(1, 0), Int2(1, 1)]

  /** The unit quad's corners in collider-path order (around the boundary). */
  const ColliderPoints: seq<Int2> := [Int2(0, 0), Int2(0, 1), Int2(1, 1), Int2(1, 0)]

  /** `p` lies in the `width` x `height` block whose lower-left cell is `o`. */
  predicate InRect(p: Int2, o: Int2, width: int, height: int) {
    o.x <= p.x < o.x + width && o.y <= p.y < o.y + height
  }

  predicate Covers(q: Quad, p: Int2) {
    InRect(p, q.origin, q.width, q.height)
  }

  /** Some quad of `qs` covers `p`. */
  predicate CoveredBy(qs: seq<Quad>, p: Int2)
    decreases |qs|
  {
    |qs| > 0 && (CoveredBy(qs[..|qs| - 1], p) || Covers(qs[|qs| - 1], p))
  }

  /** Two quads share no cell. */
  predicate Disjoint(a: Quad, b: Quad) {
    a.origin.x + a.width <= b.origin.x || b.origin.x + b.width <= a.origin.x ||
    a.origin.y + a.height <= b.origin.y || b.origin.y + b.height <= a.origin.y
  }

  predicate PairwiseDisjoint(qs: seq<Quad>) {
    forall k, l :: 0 <= k < l < |qs| ==> Disjoint(qs[k], qs[l])
  }

  /** A unit-quad corner stretched to the quad's size (its uv). */
  function Scaled(v: Int2, q: Quad): Int2 {
    Int2(v.x * q.width, v.y * q.height)
  }

  /** A unit-quad corner stretched and moved to the quad's place. */
  function Corner(v: Int2, q: Quad): Int2 {
    Scaled(v, q).Plus(q.origin)
  }

  function QuadVertices(q: Quad): seq<Int2> {
    seq(4, i requires 0 <= i < 4 => Corner(TileVertices[i], q))
  }

  function QuadUVs(q: Quad): seq<Int2> {
    seq(4, i requires 0 <= i < 4 => Scaled(TileVertices[i], q))
  }

  function QuadColors(q: Quad): seq<Color32> {
    [q.color, q.color, q.color, q.color]
  }

  function QuadPath(q: Quad): seq<Int2> {
    seq(4, i requires 0 <= i < 4 => Corner(ColliderPoints[i], q))
  }

  /** The six indices of the n-th quad: its triangles over its own vertices. */
  function QuadIndices(n: int): seq<int> {
    seq(6, i requires 0 <= i < 6 => TileIndices[i] + n * 4)
  }

  // The buffer contents after emitting the quads `qs` in order.

  function Vertices(qs: seq<Quad>): seq<Int2>
    decreases |qs|
  {
    if qs == [] then [] else Vertices(qs[..|qs| - 1]) + QuadVertices(qs[|qs| - 1])
  }

  function UVs(qs: seq<Quad>): seq<Int2>
    decreases |qs|
  {
    if qs == [] then [] else UVs(qs[..|qs| - 1]) + QuadUVs(qs[|qs| - 1])
  }

  function Colors(qs: seq<Quad>): seq<Color32>
    decreases |qs|
  {
    if qs == [] then [] else Colors(qs[..|qs| - 1]) + QuadColors(qs[|qs| - 1])
  }

  function Paths(qs: seq<Quad>): seq<seq<Int2>>
    decreases |qs|
  {
    if qs == [] then [] else Paths(qs[..|qs| - 1]) + [QuadPath(qs[|qs| - 1])]
  }

  function Indices(n: nat): seq<int> {
    if n == 0 then [] else Indices(n - 1) + QuadIndices(n - 1)
  }

  /** `(byte)(byte.MaxValue * Mathf.Clamp(density, 0.3f, 1.0f))`, in exact
      arithmetic: water never drops below alpha 76 and full water is opaque. */
  function FluidAlpha(density: real): (a: byte)
    ensures 76 <= a
    ensures density >= 1.0 ==> a == 255
    ensures density <= 0.3 ==> a == 76
  {
    var d := if density < 0.3 then 0.3 else if density > 1.0 then 1.0 else density;
    (255.0 * d).Floor as byte
  }

  /** The vertex colour of a quad of tile `info` whose origin has water
      density `density`: the tile colour, with the alpha replaced by the
      density for a non-solid tile. */
  function QuadColor(info: Tile, density: real): (c: Color32)
    ensures info.isSolid ==> c == info.color
    ensures c.r == info.color.r && c.g == info.color.g && c.b == info.color.b
    ensures !info.isSolid ==> c.a == FluidAlpha(density)
  {
    if info.isSolid then info.color else info.color.(a := FluidAlpha(density))
  }

  /** Emitting one more quad appends its geometry to every buffer and its
      cells to the covered ones. */
  lemma AppendQuad(qs: seq<Quad>, q: Quad)
    ensures Vertices(qs + [q]) == Vertices(qs) + QuadVertices(q)
    ensures UVs(qs + [q]) == UVs(qs) + QuadUVs(q)
    ensures Colors(qs + [q]) == Colors(qs) + QuadColors(q)
    ensures Paths(qs + [q]) == Paths(qs) + [QuadPath(q)]
    ensures Indices(|qs + [q]|) == Indices(|qs|) + QuadIndices(|qs|)
    ensures forall p :: CoveredBy(qs + [q], p) <==> CoveredBy(qs, p) || Covers(q, p)
  {
    assert (qs + [q])[..|qs|] == qs;
  }

  /** CoveredBy is "some quad of the list covers p", with the quad named. */
  lemma {:induction false} CoveredByIndex(qs: seq<Quad>, p: Int2)
    ensures CoveredBy(qs, p) <==> exists k :: 0 <= k < |qs| && Covers(qs[k], p)
  {
    if qs != [] {
      var init := qs[..|qs| - 1];
      CoveredByIndex(init, p);
      if CoveredBy(init, p) {
        var k :| 0 <= k < |init| && Covers(init[k], p);
        assert qs[k] == init[k];
      }
      if k :| 0 <= k < |qs| && Covers(qs[k], p) {
        if k < |init| {
          assert init[k] == qs[k];
        }
      }
    }
  }

  /** In a pairwise-disjoint list, a covered cell is covered by exactly one quad. */
  lemma CoveredOnce(qs: seq<Quad>, p: Int2)
    requires PairwiseDisjoint(qs) && CoveredBy(qs, p)
    ensures exists k :: 0 <= k < |qs| && Covers(qs[k], p) && (forall l :: 0 <= l < |qs| && Covers(qs[l], p) ==> l == k)
  {
    CoveredByIndex(qs, p);
    var k :| 0 <= k < |qs| && Covers(qs[k], p);
    forall l | 0 <= l < |qs| && Covers(qs[l], p) ensures l == k {
      SharedCell(qs[l], qs[k], p);
    }
  }

  lemma SharedCell(a: Quad, b: Quad, p: Int2)
    requires Covers(a, p) && Covers(b, p)
    ensures !Disjoint(a, b)
  {
  }

  /** Two quads that are not disjoint share their upper-right-most lower-left cell. */
  lemma OverlapWitness(a: Quad, b: Quad)
    requires a.width >= 1 && a.height >= 1 && b.width >= 1 && b.height >= 1
    requires !Disjoint(a, b)
    ensures var p := Int2(if a.origin.x < b.origin.x then b.origin.x else a.origin.x,
                          if a.origin.y < b.origin.y then b.origin.y else a.origin.y);
      Covers(a, p) && Covers(b, p)
  {
  }

  /** After n quads the buffers hold 4n vertices, uvs and colours, 6n indices
      and n collider paths of four points each. */
  lemma {:induction false} MeshSizes(qs: seq<Quad>)
    ensures |Vertices(qs)| == 4 * |qs| && |UVs(qs)| == 4 * |qs| && |Colors(qs)| == 4 * |qs|
    ensures |Indices(|qs|)| == 6 * |qs|
    ensures |Paths(qs)| == |qs|
    ensures forall k :: 0 <= k < |Paths(qs)| ==> |Paths(qs)[k]| == 4
  {
    if qs != [] {
      MeshSizes(qs[..|qs| - 1]);
    }
  }

  /** Index j of the mesh belongs to triangle j / 3 of quad j / 6 and points
      at one of that quad's own four vertices. */
  lemma {:induction false} IndexInOwnQuad(n: nat, j: int)
    requires 0 <= j < 6 * n
    ensures |Indices(n)| == 6 * n
    ensures Indices(n)[j] / 4 == j / 6
    ensures 0 <= Indices(n)[j] < 4 * n
  {
    if j < 6 * (n - 1) {
      IndexInOwnQuad(n - 1, j);
    } else {
      if n > 1 {
        IndexInOwnQuad(n - 1, 0);
      }
      var i := j - 6 * (n - 1);
      assert Indices(n)[j] == TileIndices[i] + (n - 1) * 4;
      DivModUnique(j, 6, n - 1, i);
      DivModUnique(Indices(n)[j], 4, n - 1, TileIndices[i]);
    }
  }

  /** Vertex 4k + i of the mesh is corner i of quad k. */
  lemma {:induction false} VertexOfQuad(qs: seq<Quad>, k: int, i: int)
    requires 0 <= k < |qs| && 0 <= i < 4
    ensures 4 * k + i < |Vertices(qs)|
    ensures Vertices(qs)[4 * k + i] == Corner(TileVertices[i], qs[k])
  {
    var init := qs[..|qs| - 1];
    MeshSizes(init);
    if k < |qs| - 1 {
      VertexOfQuad(init, k, i);
    }
  }

  /** Twice the signed area of triangle (a, b, c). */
  function Cross(a: Int2, b: Int2, c: Int2): int {
    (b.x - a.x) * (c.y - a.y) - (b.y - a.y) * (c.x - a.x)
  }

  /** The two triangles TileIndices cuts a quad into wind the same way and
      each covers half of it, so together they cover the width x height cells. */
  lemma QuadTriangles(q: Quad)
    requires q.width >= 1 && q.height >= 1
    ensures var v := QuadVertices(q);
      Cross(v[TileIndices[0]], v[TileIndices[1]], v[TileIndices[2]]) == -(q.width * q.height) &&
      Cross(v[TileIndices[3]], v[TileIndices[4]], v[TileIndices[5]]) == -(q.width * q.height)
  {
  }

  /** The collider path walks the quad's boundary: each step, including the
      closing one, moves along exactly one axis. */
  lemma ColliderPathAxisAligned(q: Quad, i: int)
    requires q.width >= 1 && q.height >= 1 && 0 <= i < 4
    ensures var a, b := QuadPath(q)[i], QuadPath(q)[(i + 1) % 4];
      (a.x == b.x) != (a.y == b.y)
  {
  }

  class TileMesh {
    const chunkPosition: Int2
    const chunkSize: Int2
    const mapSize: Int2

    var paths: seq<seq<Int2>>
    var vertices: seq<Int2>
    var indices: seq<int>
    var uvs: seq<Int2>
    var colors: seq<Color32>
    var visited: set<Int2>

    /** The rectangles emitted by the last GenerateMesh, in emission order. */
    ghost var quads: seq<Quad>

    /** The sizes and position Init stores; the buffers start empty. */
    constructor (chunkSize: Int2, mapSize: Int2, chunkPosition: Int2)
      ensures this.chunkSize == chunkSize && this.mapSize == mapSize && this.chunkPosition == chunkPosition
      ensures paths == [] && vertices == [] && indices == [] && uvs == [] && colors == []
      ensures visited == {} && quads == []
    {
      this.chunkSize := chunkSize;
      this.mapSize := mapSize;
      this.chunkPosition := chunkPosition;
      paths, vertices, indices, uvs, colors := [], [], [], [], [];
      visited, quads := {}, [];
    }

    predicate InChunk(p: Int2) {
      BoundaryCheckInChunk(p, chunkPosition, chunkSize)
    }

    /** Where world tile `p` sits in the world-sized arrays. */
    function MapIndex(p: Int2): int {
      To1DIndex(p, mapSize)
    }

    /** Every tile of the chunk has a slot in `tiles`. */
    ghost predicate Fits(tiles: seq<int>) {
      forall p :: InChunk(p) ==> 0 <= MapIndex(p) < |tiles|
    }

    /** What GenerateMesh needs of its inputs: the chunk's tiles exist, every
        non-zero id is in the catalog, and every non-solid one has a density. */
    ghost predicate Inputs(tiles: seq<int>, densities: seq<real>, catalog: seq<Tile>) {
      Fits(tiles) &&
      (forall p :: InChunk(p) && tiles[MapIndex(p)] != 0 ==>
        0 <= tiles[MapIndex(p)] < |catalog| &&
        (!catalog[tiles[MapIndex(p)]].isSolid ==> MapIndex(p) < |densities|))
    }

    /** A quad of at least one cell, inside the chunk, of one non-zero tile,
        painted the colour of that tile (and of the water at its origin). */
    ghost predicate QuadOk(tiles: seq<int>, densities: seq<real>, catalog: seq<Tile>, q: Quad) {
      q.width >= 1 && q.height >= 1 && q.tile != 0 && 0 <= q.tile < |catalog| &&
      InChunk(q.origin) && InChunk(Int2(q.origin.x + q.width - 1, q.origin.y + q.height - 1)) &&
      (forall p :: Covers(q, p) ==> InChunk(p) && 0 <= MapIndex(p) < |tiles| && tiles[MapIndex(p)] == q.tile) &&
      (catalog[q.tile].isSolid ==> q.color == catalog[q.tile].color) &&
      (!catalog[q.tile].isSolid ==>
        (0 <= MapIndex(q.origin) < |densities| &&
         q.color == QuadColor(catalog[q.tile], densities[MapIndex(q.origin)])))
    }

    /** Quads of the kind QuadOk describes, no two sharing a cell. */
    ghost predicate ValidQuads(tiles: seq<int>, densities: seq<real>, catalog: seq<Tile>, qs: seq<Quad>)
    {
      (forall k :: 0 <= k < |qs| ==> QuadOk(tiles, densities, catalog, qs[k])) &&
      PairwiseDisjoint(qs)
    }

    /** The mesher's state mirrors `quads`: valid quads, a visited set that
        is exactly their cells, and buffers that are their geometry. */
    ghost predicate MeshOf(tiles: seq<int>, densities: seq<real>, catalog: seq<Tile>)
      reads this
    {
      MeshState(tiles, densities, catalog, quads, visited, vertices, uvs, colors, paths, indices)
    }

    ghost predicate MeshState(tiles: seq<int>, densities: seq<real>, catalog: seq<Tile>, qs: seq<Quad>,
                              vis: set<Int2>, vs: seq<Int2>, us: seq<Int2>, cs: seq<Color32>,
                              ps: seq<seq<Int2>>, ns: seq<int>)
    {
      ValidQuads(tiles, densities, catalog, qs) &&
      (forall p :: p in vis <==> CoveredBy(qs, p)) &&
      vs == Vertices(qs) && us == UVs(qs) && cs == Colors(qs) && ps == Paths(qs) && ns == Indices(|qs|)
    }

    /** Recording one more valid quad over unvisited cells, with its cells
        marked and its geometry emitted, keeps the state in step. */
    lemma ExtendMesh(tiles: seq<int>, densities: seq<real>, catalog: seq<Tile>, qs: seq<Quad>, q: Quad,
                     vis: set<Int2>, vs: seq<Int2>, us: seq<Int2>, cs: seq<Color32>, ps: seq<seq<Int2>>, ns: seq<int>,
                     vis': set<Int2>)
      requires MeshState(tiles, densities, catalog, qs, vis, vs, us, cs, ps, ns)
      requires QuadOk(tiles, densities, catalog, q)
      requires forall p :: Covers(q, p) ==> p !in vis
      requires forall p :: p in vis' <==> (p in vis || Covers(q, p))
      ensures MeshState(tiles, densities, catalog, qs + [q], vis', vs + QuadVertices(q), us + QuadUVs(q),
        cs + QuadColors(q), ps + [QuadPath(q)], ns + QuadIndices(|qs|))
      ensures forall p :: CoveredBy(qs + [q], p) <==> CoveredBy(qs, p) || Covers(q, p)
    {
      ExtendQuads(tiles, densities, catalog, qs, q, vis, vis');
    }

    /** A covered cell is in the chunk and holds a non-zero tile. */
    lemma {:induction false} CoveredTile(tiles: seq<int>, densities: seq<real>, catalog: seq<Tile>, qs: seq<Quad>, p: Int2)
      requires forall k :: 0 <= k < |qs| ==> QuadOk(tiles, densities, catalog, qs[k])
      requires CoveredBy(qs, p)
      ensures InChunk(p) && 0 <= MapIndex(p) < |tiles| && tiles[MapIndex(p)] != 0
    {
      var last := qs[|qs| - 1];
      assert QuadOk(tiles, densities, catalog, last);
      if !Covers(last, p) {
        var init := qs[..|qs| - 1];
        assert forall k :: 0 <= k < |init| ==> init[k] == qs[k];
        CoveredTile(tiles, densities, catalog, init, p);
      }
    }

    /** A valid quad none of whose cells is covered yet keeps the list valid. */
    lemma ExtendQuads(tiles: seq<int>, densities: seq<real>, catalog: seq<Tile>, qs: seq<Quad>, q: Quad,
                      vis: set<Int2>, vis': set<Int2>)
      requires ValidQuads(tiles, densities, catalog, qs) && QuadOk(tiles, densities, catalog, q)
      requires forall p :: p in vis <==> CoveredBy(qs, p)
      requires forall p :: Covers(q, p) ==> p !in vis
      requires forall p :: p in vis' <==> (p in vis || Covers(q, p))
      ensures ValidQuads(tiles, densities, catalog, qs + [q])
      ensures forall p :: p in vis' <==> CoveredBy(qs + [q], p)
    {
      AppendQuad(qs, q);
      forall k | 0 <= k < |qs| ensures Disjoint(qs[k], q) {
        if !Disjoint(qs[k], q) {
          OverlapWitness(qs[k], q);
          var p := Int2(if qs[k].origin.x < q.origin.x then q.origin.x else qs[k].origin.x,
                        if qs[k].origin.y < q.origin.y then q.origin.y else qs[k].origin.y);
          CoveredByIndex(qs, p);
          assert false;
        }
      }
      var qs' := qs + [q];
      assert forall k :: 0 <= k < |qs| ==> qs'[k] == qs[k];
    }

    /** Rebuilds the buffers from scratch for the current tiles. Afterwards
        the quads cover every non-zero tile of the chunk exactly once and no
        other cell, each quad holds a single tile id, and the buffers are the
        quads' geometry; nothing of the previous contents survives. */
    method GenerateMesh(tiles: seq<int>, waterDensities: seq<real>, catalog: seq<Tile>)
      requires Inputs(tiles, waterDensities, catalog)
      modifies this`paths, this`vertices, this`indices, this`uvs, this`colors, this`visited, this`quads
      ensures MeshOf(tiles, waterDensities, catalog)
      ensures forall p :: InChunk(p) ==> (CoveredBy(quads, p) <==> tiles[MapIndex(p)] != 0)
    {
      vertices := [];
      indices := [];
      uvs := [];
      colors := [];
      paths := [];
      visited := {};
      quads := [];

      var numQuads := 0;
      var x := 0;
      ghost var left := chunkPosition.x * chunkSize.x;
      while x < chunkSize.x
        invariant 0 <= x && (x <= chunkSize.x || x == 0)
        invariant MeshOf(tiles, waterDensities, catalog) && numQuads == |quads|
        invariant forall p :: (InChunk(p) && p.x < left + x && tiles[MapIndex(p)] != 0) ==> CoveredBy(quads, p)
      {
        ghost var prev := quads;
        numQuads := MeshColumn(tiles, waterDensities, catalog, x, numQuads);
        forall p | InChunk(p) && p.x < left + x + 1 && tiles[MapIndex(p)] != 0 ensures CoveredBy(quads, p) {
          if p.x < left + x {
            assert CoveredBy(prev, p);
          }
        }
        x := x + 1;
      }
      forall p | InChunk(p) && CoveredBy(quads, p) ensures tiles[MapIndex(p)] != 0 {
        CoveredTile(tiles, waterDensities, catalog, quads, p);
      }
    }

    /** The inner loop over column x: every non-zero tile of the column ends
        up covered, and what was covered stays covered. */
    method MeshColumn(tiles: seq<int>, waterDensities: seq<real>, catalog: seq<Tile>, x: int, numQuads: int)
      returns (numQuads': int)
      requires Inputs(tiles, waterDensities, catalog)
      requires 0 <= x < chunkSize.x
      requires MeshOf(tiles, waterDensities, catalog) && numQuads == |quads|
      modifies this`paths, this`vertices, this`indices, this`uvs, this`colors, this`visited, this`quads
      ensures MeshOf(tiles, waterDensities, catalog) && numQuads' == |quads|
      ensures forall p :: CoveredBy(old(quads), p) ==> CoveredBy(quads, p)
      ensures forall p :: (InChunk(p) && p.x == TileToWorldTile(Int2(x, 0), chunkPosition, chunkSize).x &&
        tiles[MapIndex(p)] != 0) ==> CoveredBy(quads, p)
    {
      numQuads' := numQuads;
      ghost var column := TileToWorldTile(Int2(x, 0), chunkPosition, chunkSize);
      var y := 0;
      while y < chunkSize.y
        invariant 0 <= y && (y <= chunkSize.y || y == 0)
        invariant MeshOf(tiles, waterDensities, catalog) && numQuads' == |quads|
        invariant forall p :: CoveredBy(old(quads), p) ==> CoveredBy(quads, p)
        invariant forall p :: InChunk(p) && InRect(p, column, 1, y) && tiles[MapIndex(p)] != 0 ==> CoveredBy(quads, p)
      {
        var tilePosition := TileToWorldTile(Int2(x, y), chunkPosition, chunkSize);
        var index := To1DIndex(tilePosition, mapSize);
        assert InChunk(tilePosition);
        var tile := tiles[index];

        if tile == 0 || tilePosition in visited {
          forall p | InChunk(p) && InRect(p, column, 1, y + 1) && tiles[MapIndex(p)] != 0
            ensures CoveredBy(quads, p)
          {
            if !InRect(p, column, 1, y) {
              assert p == tilePosition;
            }
          }
        }

        if tile == 0 {
          y := y + 1;
          continue;
        }

        if tilePosition in visited {
          y := y + 1;
          continue;
        }
        var height := AddQuad(tiles, waterDensities, catalog, x, y, numQuads');
        forall p | InChunk(p) && InRect(p, column, 1, y + height) && tiles[MapIndex(p)] != 0
          ensures CoveredBy(quads, p)
        {
          if !InRect(p, column, 1, y) {
            assert InRect(p, tilePosition, 1, height);
          }
        }
        y := y + height;
        numQuads' := numQuads' + 1;
      }
    }

    /** One rectangle, from an unvisited non-zero tile at chunk tile (x, y):
        grows it, emits its quad and records it. */
    method AddQuad(tiles: seq<int>, waterDensities: seq<real>, catalog: seq<Tile>, x: int, y: int, numQuads: int)
      returns (height: int)
      requires Inputs(tiles, waterDensities, catalog)
      requires 0 <= x < chunkSize.x && 0 <= y < chunkSize.y
      requires MeshOf(tiles, waterDensities, catalog) && numQuads == |quads|
      requires tiles[MapIndex(TileToWorldTile(Int2(x, y), chunkPosition, chunkSize))] != 0
      requires TileToWorldTile(Int2(x, y), chunkPosition, chunkSize) !in visited
      modifies this`paths, this`vertices, this`indices, this`uvs, this`colors, this`visited, this`quads
      ensures MeshOf(tiles, waterDensities, catalog)
      ensures 1 <= height && y + height <= chunkSize.y
      ensures |quads| == |old(quads)| + 1 && quads[..|old(quads)|] == old(quads)
      ensures forall p :: CoveredBy(old(quads), p) ==> CoveredBy(quads, p)
      ensures forall p :: InRect(p, TileToWorldTile(Int2(x, y), chunkPosition, chunkSize), 1, height) ==> CoveredBy(quads, p)
      ensures var q := quads[|old(quads)|];
        q.origin == TileToWorldTile(Int2(x, y), chunkPosition, chunkSize) && q.height == height &&
        (y + q.height == chunkSize.y ||
         tiles[MapIndex(TileToWorldTile(Int2(x, y + q.height), chunkPosition, chunkSize))] != q.tile ||
         TileToWorldTile(Int2(x, y + q.height), chunkPosition, chunkSize) in old(visited)) &&
        (x + q.width == chunkSize.x || !forall p ::
          InRect(p, TileToWorldTile(Int2(x + q.width, y), chunkPosition, chunkSize), 1, q.height) ==>
            InChunk(p) && tiles[MapIndex(p)] == q.tile && p !in old(visited))
    {
      ghost var before := visited;
      var q := GrowQuad(tiles, waterDensities, catalog, x, y);
      height := q.height;
      ghost var qs := quads;
      ExtendMesh(tiles, waterDensities, catalog, qs, q, before, vertices, uvs, colors, paths, indices, visited);
      EmitQuad(q, numQuads);
      quads := qs + [q];
      assert quads[..|qs|] == qs;
    }

    /** Grows the rectangle at chunk tile (x, y) (tallest run first, then
        whole columns to the right), marking its cells visited, and paints it. */
    method GrowQuad(tiles: seq<int>, waterDensities: seq<real>, catalog: seq<Tile>, x: int, y: int)
      returns (q: Quad)
      requires Inputs(tiles, waterDensities, catalog)
      requires 0 <= x < chunkSize.x && 0 <= y < chunkSize.y
      requires tiles[MapIndex(TileToWorldTile(Int2(x, y), chunkPosition, chunkSize))] != 0
      requires TileToWorldTile(Int2(x, y), chunkPosition, chunkSize) !in visited
      modifies this`visited
      ensures QuadOk(tiles, waterDensities, catalog, q)
      ensures q.origin == TileToWorldTile(Int2(x, y), chunkPosition, chunkSize) && y + q.height <= chunkSize.y
      ensures forall p :: Covers(q, p) ==> p !in old(visited)
      ensures forall p :: p in visited <==> (p in old(visited) || Covers(q, p))
      ensures y + q.height == chunkSize.y ||
        tiles[MapIndex(TileToWorldTile(Int2(x, y + q.height), chunkPosition, chunkSize))] != q.tile ||
        TileToWorldTile(Int2(x, y + q.height), chunkPosition, chunkSize) in old(visited)
      ensures x + q.width == chunkSize.x || !forall p ::
        InRect(p, TileToWorldTile(Int2(x + q.width, y), chunkPosition, chunkSize), 1, q.height) ==>
          InChunk(p) && tiles[MapIndex(p)] == q.tile && p !in old(visited)
    {
      var tilePosition := TileToWorldTile(Int2(x, y), chunkPosition, chunkSize);
      var index := To1DIndex(tilePosition, mapSize);
      var tile := tiles[index];

      visited := visited + {tilePosition};
      ghost var v1 := visited;
      var height := GrowHeight(tiles, x, y, tile);
      ghost var v2 := visited;
      var width := GrowWidth(tiles, x, y, tile, height);

      var info := catalog[tile];
      var color := info.color;
      if !info.isSolid {
        color := color.(a := FluidAlpha(waterDensities[index]));
      }
      q := Quad(tilePosition, width, height, tile, color);
      RunsMakeQuad(tiles, q, TileToWorldTile(Int2(x, y + 1), chunkPosition, chunkSize),
        TileToWorldTile(Int2(x + 1, y), chunkPosition, chunkSize), old(visited), v1, v2, visited);
    }

    /** The origin, the run above it and the columns to its right make up
        exactly the quad's cells; all of them were unvisited and hold its tile. */
    lemma RunsMakeQuad(tiles: seq<int>, q: Quad, above: Int2, right: Int2,
                       before: set<Int2>, v1: set<Int2>, v2: set<Int2>, v3: set<Int2>)
      requires Fits(tiles)
      requires above == Int2(q.origin.x, q.origin.y + 1) && right == Int2(q.origin.x + 1, q.origin.y)
      requires q.width >= 1 && q.height >= 1
      requires InChunk(q.origin) && tiles[MapIndex(q.origin)] == q.tile && q.origin !in before
      requires v1 == before + {q.origin}
      requires forall p :: p in v2 <==> (p in v1 || InRect(p, above, 1, q.height - 1))
      requires forall p :: InRect(p, above, 1, q.height - 1) ==>
        InChunk(p) && tiles[MapIndex(p)] == q.tile && p !in v1
      requires forall p :: p in v3 <==> (p in v2 || InRect(p, right, q.width - 1, q.height))
      requires forall p :: InRect(p, right, q.width - 1, q.height) ==>
        InChunk(p) && tiles[MapIndex(p)] == q.tile && p !in v2
      ensures forall p :: p in v3 <==> (p in before || Covers(q, p))
      ensures forall p :: Covers(q, p) ==> p !in before && InChunk(p) && tiles[MapIndex(p)] == q.tile
    {
      forall p | Covers(q, p) ensures p !in before && InChunk(p) && tiles[MapIndex(p)] == q.tile {
        if p != q.origin && !InRect(p, above, 1, q.height - 1) {
          assert InRect(p, right, q.width - 1, q.height);
        }
      }
    }

    /** The vertical run above the origin (which the caller has marked):
        equal, unvisited tiles, each marked as it is taken. */
    method GrowHeight(tiles: seq<int>, x: int, y: int, tile: int) returns (height: int)
      requires Fits(tiles)
      requires 0 <= x < chunkSize.x && 0 <= y < chunkSize.y
      modifies this`visited
      ensures 1 <= height && y + height <= chunkSize.y
      ensures forall p :: p in visited <==> (p in old(visited) ||
        InRect(p, TileToWorldTile(Int2(x, y + 1), chunkPosition, chunkSize), 1, height - 1))
      ensures forall p :: InRect(p, TileToWorldTile(Int2(x, y + 1), chunkPosition, chunkSize), 1, height - 1) ==>
        InChunk(p) && tiles[MapIndex(p)] == tile && p !in old(visited)
      ensures y + height == chunkSize.y ||
        tiles[MapIndex(TileToWorldTile(Int2(x, y + height), chunkPosition, chunkSize))] != tile ||
        TileToWorldTile(Int2(x, y + height), chunkPosition, chunkSize) in old(visited)
    {
      var tilePosition := TileToWorldTile(Int2(x, y), chunkPosition, chunkSize);
      ghost var above := TileToWorldTile(Int2(x, y + 1), chunkPosition, chunkSize);
      height := 1;
      while height + y < chunkSize.y
        invariant 1 <= height && y + height <= chunkSize.y
        invariant forall p :: p in visited <==> p in old(visited) || InRect(p, above, 1, height - 1)
        invariant forall p :: InRect(p, above, 1, height - 1) ==>
          InChunk(p) && tiles[MapIndex(p)] == tile && p !in old(visited)
      {
        var nextPosition := tilePosition.Plus(Up.Scale(height));
        assert nextPosition == TileToWorldTile(Int2(x, y + height), chunkPosition, chunkSize);

        if !BoundaryCheckInChunk(nextPosition, chunkPosition, chunkSize) {
          break;
        }

        assert InChunk(nextPosition);
        var nextIndex := To1DIndex(nextPosition, mapSize);
        var nextTile := tiles[nextIndex];

        if nextTile != tile {
          break;
        }

        if nextPosition in visited {
          break;
        }

        visited := visited + {nextPosition};
        height := height + 1;
      }
    }

    /** Whether the `height` tiles of the column starting at `bottom` are all
        in the chunk, equal to `tile` and unvisited. */
    method ColumnFits(tiles: seq<int>, bottom: Int2, height: int, tile: int) returns (fits: bool)
      requires Fits(tiles)
      ensures fits <==> forall p :: InRect(p, bottom, 1, height) ==>
        InChunk(p) && tiles[MapIndex(p)] == tile && p !in visited
    {
      var dy := 0;
      while dy < height
        invariant 0 <= dy && (dy <= height || dy == 0)
        invariant forall p :: InRect(p, bottom, 1, dy) ==>
          InChunk(p) && tiles[MapIndex(p)] == tile && p !in visited
      {
        var nextPosition := bottom.Plus(Up.Scale(dy));
        assert InRect(nextPosition, bottom, 1, height);

        if !BoundaryCheckInChunk(nextPosition, chunkPosition, chunkSize) {
          assert !InChunk(nextPosition);
          return false;
        }

        assert InChunk(nextPosition);
        var nextIndex := To1DIndex(nextPosition, mapSize);
        var nextTile := tiles[nextIndex];

        if nextTile != tile || nextPosition in visited {
          return false;
        }
        dy := dy + 1;
      }
      return true;
    }

    /** Marks the `height` tiles of the column starting at `bottom` visited. */
    method MarkColumn(bottom: Int2, height: int)
      modifies this`visited
      ensures forall p :: p in visited <==> p in old(visited) || InRect(p, bottom, 1, height)
    {
      var dy := 0;
      while dy < height
        invariant 0 <= dy && (dy <= height || dy == 0)
        invariant forall p :: p in visited <==> p in old(visited) || InRect(p, bottom, 1, dy)
      {
        visited := visited + {bottom.Plus(Up.Scale(dy))};
        dy := dy + 1;
      }
    }

    /** Takes whole columns to the right of the run while every tile of the
        next column fits; a column that does not fit is left untouched. */
    method GrowWidth(tiles: seq<int>, x: int, y: int, tile: int, height: int) returns (width: int)
      requires Fits(tiles)
      requires 0 <= x < chunkSize.x
      modifies this`visited
      ensures 1 <= width && x + width <= chunkSize.x
      ensures forall p :: p in visited <==> (p in old(visited) ||
        InRect(p, TileToWorldTile(Int2(x + 1, y), chunkPosition, chunkSize), width - 1, height))
      ensures forall p :: InRect(p, TileToWorldTile(Int2(x + 1, y), chunkPosition, chunkSize), width - 1, height) ==>
        InChunk(p) && tiles[MapIndex(p)] == tile && p !in old(visited)
      ensures x + width == chunkSize.x || !forall p ::
        InRect(p, TileToWorldTile(Int2(x + width, y), chunkPosition, chunkSize), 1, height) ==>
          InChunk(p) && tiles[MapIndex(p)] == tile && p !in old(visited)
    {
      var tilePosition := TileToWorldTile(Int2(x, y), chunkPosition, chunkSize);
      ghost var right := TileToWorldTile(Int2(x + 1, y), chunkPosition, chunkSize);
      width := 1;
      while width + x < chunkSize.x
        invariant 1 <= width && x + width <= chunkSize.x
        invariant forall p :: p in visited <==> p in old(visited) || InRect(p, right, width - 1, height)
        invariant forall p :: InRect(p, right, width - 1, height) ==>
          InChunk(p) && tiles[MapIndex(p)] == tile && p !in old(visited)
      {
        var bottom := tilePosition.Plus(Right.Scale(width));
        assert bottom == TileToWorldTile(Int2(x + width, y), chunkPosition, chunkSize);
        var fits := ColumnFits(tiles, bottom, height, tile);
        if !fits {
          break;
        }
        MarkColumn(bottom, height);
        width := width + 1;
      }
    }

    /** Appends one quad's four vertices, uvs, colours and collider points and
        its six indices, the latter offset by four per quad already emitted. */
    method EmitQuad(q: Quad, numQuads: int)
      modifies this`paths, this`vertices, this`indices, this`uvs, this`colors
      ensures vertices == old(vertices) + QuadVertices(q)
      ensures uvs == old(uvs) + QuadUVs(q)
      ensures colors == old(colors) + QuadColors(q)
      ensures paths == old(paths) + [QuadPath(q)]
      ensures indices == old(indices) + QuadIndices(numQuads)
    {
      var points: seq<Int2> := [];
      for i := 0 to 4
        invariant vertices == old(vertices) + QuadVertices(q)[..i]
        invariant uvs == old(uvs) + QuadUVs(q)[..i]
        invariant colors == old(colors) + QuadColors(q)[..i]
        invariant points == QuadPath(q)[..i]
        invariant paths == old(paths) && indices == old(indices)
      {
        vertices := vertices + [Corner(TileVertices[i], q)];
        uvs := uvs + [Scaled(TileVertices[i], q)];
        colors := colors + [q.color];
        points := points + [Corner(ColliderPoints[i], q)];
      }
      assert QuadVertices(q)[..4] == QuadVertices(q) && QuadUVs(q)[..4] == QuadUVs(q);
      assert QuadColors(q)[..4] == QuadColors(q) && QuadPath(q)[..4] == QuadPath(q);
      paths := paths + [points];

      for i := 0 to 6
        invariant indices == old(indices) + QuadIndices(numQuads)[..i]
        invariant vertices == old(vertices) + QuadVertices(q) && uvs == old(uvs) + QuadUVs(q)
        invariant colors == old(colors) + QuadColors(q) && paths == old(paths) + [QuadPath(q)]
      {
        indices := indices + [TileIndices[i] + numQuads * 4];
      }
      assert QuadIndices(numQuads)[..6] == QuadIndices(numQuads);
    }
  }
}
