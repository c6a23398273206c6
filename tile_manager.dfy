/** The chunk registry of TileManager.cs: chunks are created on first use,
    world tiles are routed to the chunk holding them, and each frame
    rebuilds a bounded number of dirty chunks.

    The C# dictionary is a map plus `keys`, the order its enumeration visits
    the entries in; a chunk added later is visited later. */
module TileManagers {
  import opened TileUtil
  import opened Tiles
  import opened TileChunks

  function Min(a: int, b: int): int { if a <= b then a else b }
  function Max(a: int, b: int): int { if a <= b then b else a }

  /** How many entries of `s` are true. */
  function CountTrue(s: seq<bool>): (n: nat)
    ensures n <= |s|
    decreases |s|
  {
    if s == [] then 0 else CountTrue(s[..|s| - 1]) + (if s[|s| - 1] then 1 else 0)
  }

  lemma CountTruePrefixStep(s: seq<bool>, i: int)
    requires 0 <= i < |s|
    ensures CountTrue(s[..i + 1]) == CountTrue(s[..i]) + (if s[i] then 1 else 0)
  {
    assert s[..i + 1][..i] == s[..i];
  }

  /** A longer prefix holds at least as many true entries. */
  lemma {:induction false} CountTrueMonotone(s: seq<bool>, i: int, j: int)
    requires 0 <= i <= j <= |s|
    ensures CountTrue(s[..i]) <= CountTrue(s[..j])
    decreases j - i
  {
    if i < j {
      CountTruePrefixStep(s, j - 1);
      CountTrueMonotone(s, i, j - 1);
    }
  }

  /** Which chunks one frame rebuilds, given their dirty flags in
      enumeration order: chunk j is rebuilt iff it is dirty and fewer than
      `budget` dirty chunks come before it. */
  function Rebuilt(dirty: seq<bool>, budget: int): (r: seq<bool>)
    ensures |r| == |dirty|
  {
    seq(|dirty|, j requires 0 <= j < |dirty| => dirty[j] && CountTrue(dirty[..j]) < budget)
  }

  /** A frame rebuilds only dirty chunks, none without a positive budget,
      and exactly min(budget, number of dirty chunks) of them. */
  lemma {:induction false} RebuiltCount(dirty: seq<bool>, budget: int)
    ensures CountTrue(Rebuilt(dirty, budget)) == Min(CountTrue(dirty), Max(budget, 0))
    ensures forall j :: 0 <= j < |dirty| && Rebuilt(dirty, budget)[j] ==> dirty[j]
    ensures budget <= 0 ==> forall j :: 0 <= j < |dirty| ==> !Rebuilt(dirty, budget)[j]
    decreases |dirty|
  {
    if dirty != [] {
      var n := |dirty|;
      var init := dirty[..n - 1];
      RebuiltCount(init, budget);
      assert Rebuilt(dirty, budget)[..n - 1] == Rebuilt(init, budget) by {
        forall j | 0 <= j < n - 1 ensures dirty[..j] == init[..j] {
        }
      }
      assert init == dirty[..n - 1];
    }
  }

  /** With no more dirty chunks than the budget, every dirty chunk is rebuilt. */
  lemma RebuiltAllWithinBudget(dirty: seq<bool>, budget: int)
    requires CountTrue(dirty) <= budget
    ensures Rebuilt(dirty, budget) == dirty
  {
    forall j | 0 <= j < |dirty| && dirty[j] ensures CountTrue(dirty[..j]) < budget {
      CountTruePrefixStep(dirty, j);
      CountTrueMonotone(dirty, j + 1, |dirty|);
      assert dirty[..|dirty|] == dirty;
    }
  }

  class TileManager {
    const chunkSize: Int2
    const numUpdateChunkInFrame: int

    var chunks: map<Int2, TileChunk>
    /** The enumeration order of `chunks`. */
    var keys: seq<Int2>

    /** Every key is listed once, each chunk sits under its own position with
        the manager's size, and no two chunks share a tile array. */
    ghost predicate Valid()
      reads this
    {
      chunkSize.x > 0 && chunkSize.y > 0 &&
      (forall i, j :: 0 <= i < j < |keys| ==> keys[i] != keys[j]) &&
      (forall k :: k in chunks <==> k in keys) &&
      (forall k :: k in chunks ==>
        chunks[k].chunkPosition == k && chunks[k].chunkSize == chunkSize && chunks[k].Valid()) &&
      (forall k, k' :: k in chunks && k' in chunks && k != k' ==> chunks[k].tiles != chunks[k'].tiles)
    }

    constructor (chunkSize: Int2, numUpdateChunkInFrame: int)
      requires chunkSize.x > 0 && chunkSize.y > 0
      ensures this.chunkSize == chunkSize && this.numUpdateChunkInFrame == numUpdateChunkInFrame
      ensures Valid() && chunks == map[] && keys == []
    {
      this.chunkSize := chunkSize;
      this.numUpdateChunkInFrame := numUpdateChunkInFrame;
      chunks := map[];
      keys := [];
    }

    /** The chunks' dirty flags in enumeration order. */
    ghost function DirtyFlags(): (f: seq<bool>)
      requires Valid()
      reads this, chunks.Values
      ensures |f| == |keys|
      ensures forall j :: 0 <= j < |keys| ==> f[j] == chunks[keys[j]].dirty
    {
      seq(|keys|, j reads this, chunks.Values requires 0 <= j < |keys| && keys[j] in chunks => chunks[keys[j]].dirty)
    }

    /** One frame: walks the chunks in enumeration order and rebuilds dirty
        ones until `numUpdateChunkInFrame` have been rebuilt. The rebuilt
        chunks are those Rebuilt names, and they end clean; every other
        chunk keeps its flag. */
    method UpdateChunks()
      requires Valid()
      modifies chunks.Values
      ensures Valid()
      ensures forall j :: 0 <= j < |keys| ==>
        chunks[keys[j]].dirty == (old(DirtyFlags())[j] && !Rebuilt(old(DirtyFlags()), numUpdateChunkInFrame)[j])
    {
      ghost var flags := DirtyFlags();
      ghost var rebuilt := Rebuilt(flags, numUpdateChunkInFrame);
      var numChunk := 0;
      var i := 0;
      while i < |keys|
        invariant 0 <= i <= |keys|
        invariant numChunk == CountTrue(flags[..i]) && numChunk <= Max(numUpdateChunkInFrame, 0)
        invariant forall j :: 0 <= j < |keys| ==> chunks[keys[j]].dirty == (flags[j] && !(j < i && rebuilt[j]))
      {
        if numChunk >= numUpdateChunkInFrame {
          forall j | i <= j < |keys| ensures !rebuilt[j] {
            CountTrueMonotone(flags, i, j);
          }
          break;
        }
        CountTruePrefixStep(flags, i);
        var chunk := chunks[keys[i]];
        if chunk.dirty {
          RebuildChunk(i);
          numChunk := numChunk + 1;
        }
        i := i + 1;
      }
    }

    /** Rebuilds the i-th chunk of the enumeration; no other chunk's flag changes. */
    method RebuildChunk(i: int)
      requires Valid() && 0 <= i < |keys|
      modifies chunks[keys[i]]
      ensures !chunks[keys[i]].dirty
      ensures forall j :: 0 <= j < |keys| && j != i ==> chunks[keys[j]].dirty == old(chunks[keys[j]].dirty)
    {
      var chunk := chunks[keys[i]];
      forall j | 0 <= j < |keys| && j != i ensures chunks[keys[j]] != chunk {
        assert chunks[keys[j]].chunkPosition == keys[j] != keys[i];
      }
      chunk.UpdateChunk();
    }

    /** The chunk at `chunkPosition`, created (empty, dark and dirty) and
        registered last if there was none. Either way no world tile changes. */
    method GenerateChunk(chunkPosition: Int2) returns (chunk: TileChunk)
      requires Valid()
      modifies this`chunks, this`keys
      ensures Valid()
      ensures chunkPosition in chunks && chunks[chunkPosition] == chunk
      ensures chunkPosition in old(chunks) ==> chunks == old(chunks) && keys == old(keys)
      ensures chunkPosition !in old(chunks) ==>
        chunks == old(chunks)[chunkPosition := chunk] && keys == old(keys) + [chunkPosition] &&
        fresh(chunk) && fresh(chunk.tiles) && fresh(chunk.lights) && chunk.dirty &&
        (forall q :: chunk.GetTile(q) == (BoundaryCheck(q, chunkSize), Empty))
      ensures forall w :: WorldTile(w) == old(WorldTile(w))
    {
      if chunkPosition in chunks {
        return chunks[chunkPosition];
      }
      assert chunkSize.x * chunkSize.y >= 0;
      chunk := new TileChunk.Init(chunkPosition, chunkSize);
      forall q ensures chunk.GetTile(q) == (BoundaryCheck(q, chunkSize), Empty) {
        if BoundaryCheck(q, chunkSize) {
          BoundaryCheckIndexOfTo1DIndex(q, chunkSize);
        }
      }
      chunks := chunks[chunkPosition := chunk];
      keys := keys + [chunkPosition];
      forall w ensures WorldTile(w) == old(WorldTile(w)) {
        var cw := WorldTileToChunk(w, chunkSize);
        if cw != chunkPosition && cw in chunks {
          assert cw in old(chunks);
        }
      }
    }

    /** The tile arrays of the registered chunks. */
    ghost function TileArrays(): set<array<Tile>>
      reads this
    {
      set k | k in chunks :: chunks[k].tiles
    }

    /** The tile the world holds at world tile `w`: the tile of the chunk
        holding it, the empty tile where that chunk has not been created. */
    ghost function WorldTile(w: Int2): Tile
      requires Valid()
      reads this, chunks.Values, TileArrays()
    {
      var cp := WorldTileToChunk(w, chunkSize);
      if cp in chunks then chunks[cp].GetTile(WorldTileToTile(w, cp, chunkSize)).1 else Empty
    }

    /** Routes a world tile to the chunk holding it, creating that chunk
        (registered last) if needed, and stores `tileType` as its id: the
        world changes at `w` only, and only that chunk becomes dirty. */
    method SetTile(worldTilePosition: Int2, tileType: int)
      requires Valid()
      modifies this`chunks, this`keys, chunks.Values, TileArrays()
      ensures Valid()
      ensures WorldTile(worldTilePosition) == old(WorldTile(worldTilePosition)).(id := tileType)
      ensures forall w :: w != worldTilePosition ==> WorldTile(w) == old(WorldTile(w))
      ensures var cp := WorldTileToChunk(worldTilePosition, chunkSize);
        cp in chunks && chunks[cp].dirty &&
        (cp in old(chunks) ==> chunks == old(chunks) && keys == old(keys)) &&
        (cp !in old(chunks) ==> chunks == old(chunks)[cp := chunks[cp]] && keys == old(keys) + [cp] && fresh(chunks[cp])) &&
        (forall k :: k in old(chunks) && k != cp ==> chunks[k].dirty == old(chunks[k].dirty))
    {
      var chunkPosition := WorldTileToChunk(worldTilePosition, chunkSize);
      var tilePosition := WorldTileToTile(worldTilePosition, chunkPosition, chunkSize);

      if chunkPosition in chunks {
        StoreInChunk(worldTilePosition, chunkPosition, tilePosition, tileType);
      } else {
        var newChunk := GenerateChunk(chunkPosition);
        StoreInChunk(worldTilePosition, chunkPosition, tilePosition, tileType);
      }
    }

    /** `chunks[chunkPosition].SetTile(tilePosition, tileType)` for the chunk
        holding world tile `w`, and what it does to the world. */
    method StoreInChunk(w: Int2, chunkPosition: Int2, tilePosition: Int2, tileType: int)
      requires Valid() && chunkPosition in chunks
      requires chunkPosition == WorldTileToChunk(w, chunkSize)
      requires tilePosition == WorldTileToTile(w, chunkPosition, chunkSize)
      modifies chunks[chunkPosition], chunks[chunkPosition].tiles
      ensures WorldTile(w) == old(WorldTile(w)).(id := tileType)
      ensures forall v :: v != w ==> WorldTile(v) == old(WorldTile(v))
      ensures chunks[chunkPosition].dirty
      ensures forall k :: k in chunks && k != chunkPosition ==> chunks[k].dirty == old(chunks[k].dirty)
    {
      WorldTileInOwnChunk(w, chunkSize);
      var chunk := chunks[chunkPosition];
      chunk.SetTile(tilePosition, tileType);
      forall v | v != w ensures WorldTile(v) == old(WorldTile(v)) {
        var cv := WorldTileToChunk(v, chunkSize);
        if cv == chunkPosition {
          WorldTileToTileInverse(tilePosition, v, cv, chunkSize);
        } else if cv in chunks {
          assert chunks[cv].tiles != chunk.tiles && chunks[cv].chunkPosition != chunkPosition;
        }
      }
    }
  }
}
