/** The light overlay of one chunk (TileLightTexture.cs): one texture pixel
    per chunk tile, coloured from the light of that tile in the world-sized,
    row-major light array. */
module TileLightTextures {
  import opened UnityTypes
  import opened TileUtil
  import opened TileLights

  /** `(byte) Mathf.Max(torch, sun)`: the brighter of the two, which fits a
      byte because both are four-bit channel values. */
  function Intensity(torch: bv32, sun: bv32): (b: byte)
    requires torch <= 15 && sun <= 15
    ensures b as bv32 >= torch && b as bv32 >= sun
    ensures b as bv32 == torch || b as bv32 == sun
    ensures b <= 15
  {
    if torch < sun then sun as byte else torch as byte
  }

  /** The overlay colour of a light: each of r, g and b is the brighter of
      the torch channel and the sun, and the pixel is opaque. */
  function PixelColor(l: TileLight): (c: Color32)
    ensures c.a == 255
    ensures c.r as bv32 >= GetSunLight(l) && c.r as bv32 >= GetRedLight(l)
    ensures c.g as bv32 >= GetSunLight(l) && c.g as bv32 >= GetGreenLight(l)
    ensures c.b as bv32 >= GetSunLight(l) && c.b as bv32 >= GetBlueLight(l)
    ensures c.r as bv32 == GetSunLight(l) || c.r as bv32 == GetRedLight(l)
    ensures c.g as bv32 == GetSunLight(l) || c.g as bv32 == GetGreenLight(l)
    ensures c.b as bv32 == GetSunLight(l) || c.b as bv32 == GetBlueLight(l)
    ensures c.r <= 15 && c.g <= 15 && c.b <= 15
  {
    var sunLight := GetSunLight(l);
    Color32(Intensity(GetRedLight(l), sunLight),
            Intensity(GetGreenLight(l), sunLight),
            Intensity(GetBlueLight(l), sunLight),
            255)
  }

  /** Without sun a pixel shows the colour the cell's torches emit; with the
      sun at least as bright as every torch channel it is a grey of the sun's
      level. */
  lemma PixelColorCases(l: TileLight)
    ensures GetSunLight(l) == 0 ==>
      var e := GetEmission(l);
      PixelColor(l) == Color32(e.r, e.g, e.b, 255)
    ensures GetSunLight(l) >= GetRedLight(l) && GetSunLight(l) >= GetGreenLight(l) && GetSunLight(l) >= GetBlueLight(l) ==>
      var s := GetSunLight(l) as byte;
      PixelColor(l) == Color32(s, s, s, 255)
  {
  }

  /** Raising the sun never darkens a pixel. */
  lemma PixelColorMonotoneInSun(l: TileLight, v: bv32)
    requires GetSunLight(l) <= v <= MaxSunLight
    ensures var c, d := PixelColor(l), PixelColor(SetSunLight(l, v));
      c.r <= d.r && c.g <= d.g && c.b <= d.b
  {
    SetSunLightChannels(l, v);
  }

  class TileLightTexture {
    const chunkPosition: Int2
    const chunkSize: Int2
    const mapSize: Int2
    /** The texture's pixel buffer, `chunkSize.x` by `chunkSize.y`. */
    const texture: array2<Color32>

    /** The part of Init that UpdateTexture depends on: the sizes, the
        chunk's position and a chunk-sized texture. */
    constructor (chunkSize: Int2, mapSize: Int2, chunkPosition: Int2)
      requires chunkSize.x >= 0 && chunkSize.y >= 0
      ensures this.chunkSize == chunkSize && this.mapSize == mapSize && this.chunkPosition == chunkPosition
      ensures fresh(texture) && texture.Length0 == chunkSize.x && texture.Length1 == chunkSize.y
    {
      this.chunkSize := chunkSize;
      this.mapSize := mapSize;
      this.chunkPosition := chunkPosition;
      texture := new Color32[chunkSize.x, chunkSize.y]((x, y) => Color32(0, 0, 0, 0));
    }

    /** Where the light of pixel (x, y) sits in the world-sized light array. */
    function LightIndex(x: int, y: int): int {
      To1DIndex(TileToWorldTile(Int2(x, y), chunkPosition, chunkSize), mapSize)
    }

    /** Every pixel of the chunk gets the colour of its tile's light; the
        light array is only read. */
    method UpdateTexture(lights: array<TileLight>)
      requires texture.Length0 == chunkSize.x && texture.Length1 == chunkSize.y
      requires forall x, y :: 0 <= x < chunkSize.x && 0 <= y < chunkSize.y ==> 0 <= LightIndex(x, y) < lights.Length
      modifies texture
      ensures forall x, y :: 0 <= x < chunkSize.x && 0 <= y < chunkSize.y ==>
        texture[x, y] == PixelColor(lights[LightIndex(x, y)])
      ensures lights[..] == old(lights[..])
    {
      for x := 0 to chunkSize.x
        invariant forall x', y :: 0 <= x' < x && 0 <= y < chunkSize.y ==>
          texture[x', y] == PixelColor(lights[LightIndex(x', y)])
      {
        for y := 0 to chunkSize.y
          invariant forall x', y' :: 0 <= x' < x && 0 <= y' < chunkSize.y ==>
            texture[x', y'] == PixelColor(lights[LightIndex(x', y')])
          invariant forall y' :: 0 <= y' < y ==> texture[x, y'] == PixelColor(lights[LightIndex(x, y')])
        {
          var lightPosition := TileToWorldTile(Int2(x, y), chunkPosition, chunkSize);
          var index := To1DIndex(lightPosition, mapSize);
          assert index == LightIndex(x, y);
          texture[x, y] := PixelColor(lights[index]);
        }
      }
    }
  }
}
