/** The packed per-cell light value of TileLight.cs: one 16-bit field laid
    out as SSSS RRRR GGGG BBBB (sun, then the red, green and blue torch
    channels).

    `TileLight` is a C# struct, so a setter that overwrites its field is a
    function from the old value to the new one; the caller stores the result
    back into its array slot. The channel values the getters return and the
    setters take are C# `int`s, which are 32-bit two's complement: they are
    `bv32` here, so `v <= 15` on a `bv32` means exactly the ints 0 to 15. */
module TileLights {
  import opened UnityTypes

  datatype LightType = S | R | G | B

  /** The torch colour a cell emits, one byte per channel. */
  datatype LightEmission = LightEmission(r: byte, g: byte, b: byte)

  const EmissionZero := LightEmission(0, 0, 0)

  const MaxSunLight: bv32 := 15
  const MaxTorchLight: bv32 := 15

  datatype TileLight = TileLight(light: bv16)

  /** The default struct value: every channel dark. */
  const Dark := TileLight(0)

  /** The short field read as an int. C# sign-extends; every use below masks
      with a constant whose bits above 15 are clear (or keeps only bits that
      started below 16), so zero-extension gives the same results. */
  function Widen(light: bv16): bv32 {
    light as bv32
  }

  /** `(short)`: keep the low 16 bits of an int. */
  function Low16(v: bv32): bv16 {
    (v & 0xFFFF) as bv16
  }

  function GetSunLight(l: TileLight): (r: bv32)
    ensures r <= MaxSunLight
  {
    (Widen(l.light) >> 12) & 0xF
  }

  function GetRedLight(l: TileLight): (r: bv32)
    ensures r <= MaxTorchLight
  {
    (Widen(l.light) >> 8) & 0xF
  }

  function GetGreenLight(l: TileLight): (r: bv32)
    ensures r <= MaxTorchLight
  {
    (Widen(l.light) >> 4) & 0xF
  }

  function GetBlueLight(l: TileLight): (r: bv32)
    ensures r <= MaxTorchLight
  {
    Widen(l.light) & 0xF
  }

  // The setters do not mask `value`: they overwrite the channel's bits with
  // the low 16 bits of `value` shifted into place. The Set*LightChannels
  // lemmas below state what that does to each channel.

  function SetSunLight(l: TileLight, value: bv32): TileLight {
    TileLight(Low16((Widen(l.light) & 0x0FFF) | (value << 12)))
  }

  function SetRedLight(l: TileLight, value: bv32): TileLight {
    TileLight(Low16((Widen(l.light) & 0xF0FF) | (value << 8)))
  }

  function SetGreenLight(l: TileLight, value: bv32): TileLight {
    TileLight(Low16((Widen(l.light) & 0xFF0F) | (value << 4)))
  }

  function SetBlueLight(l: TileLight, value: bv32): TileLight {
    TileLight(Low16((Widen(l.light) & 0xFFF0) | value))
  }

  /** Whatever `value` is, the sun channel reads back its low four bits and
      the torch channels below it keep their values. */
  lemma SetSunLightChannels(l: TileLight, value: bv32)
    ensures GetSunLight(SetSunLight(l, value)) == value & 0xF
    ensures value <= 15 ==> GetSunLight(SetSunLight(l, value)) == value
    ensures GetRedLight(SetSunLight(l, value)) == GetRedLight(l)
    ensures GetGreenLight(SetSunLight(l, value)) == GetGreenLight(l)
    ensures GetBlueLight(SetSunLight(l, value)) == GetBlueLight(l)
  {
  }

  /** The red channel reads back the low four bits of `value`; green and blue
      keep their values, and so does the sun channel when 0 <= value <= 15. */
  lemma SetRedLightChannels(l: TileLight, value: bv32)
    ensures GetRedLight(SetRedLight(l, value)) == value & 0xF
    ensures value <= 15 ==> GetRedLight(SetRedLight(l, value)) == value
    ensures value <= 15 ==> GetSunLight(SetRedLight(l, value)) == GetSunLight(l)
    ensures GetGreenLight(SetRedLight(l, value)) == GetGreenLight(l)
    ensures GetBlueLight(SetRedLight(l, value)) == GetBlueLight(l)
  {
  }

  /** The green channel reads back the low four bits of `value`; blue keeps
      its value, and sun and red keep theirs when 0 <= value <= 15. */
  lemma SetGreenLightChannels(l: TileLight, value: bv32)
    ensures GetGreenLight(SetGreenLight(l, value)) == value & 0xF
    ensures value <= 15 ==> GetGreenLight(SetGreenLight(l, value)) == value
    ensures value <= 15 ==> GetSunLight(SetGreenLight(l, value)) == GetSunLight(l)
    ensures value <= 15 ==> GetRedLight(SetGreenLight(l, value)) == GetRedLight(l)
    ensures GetBlueLight(SetGreenLight(l, value)) == GetBlueLight(l)
  {
  }

  /** The blue channel reads back the low four bits of `value`; the other
      three keep their values when 0 <= value <= 15. */
  lemma SetBlueLightChannels(l: TileLight, value: bv32)
    ensures GetBlueLight(SetBlueLight(l, value)) == value & 0xF
    ensures value <= 15 ==> GetBlueLight(SetBlueLight(l, value)) == value
    ensures value <= 15 ==> GetSunLight(SetBlueLight(l, value)) == GetSunLight(l)
    ensures value <= 15 ==> GetRedLight(SetBlueLight(l, value)) == GetRedLight(l)
    ensures value <= 15 ==> GetGreenLight(SetBlueLight(l, value)) == GetGreenLight(l)
  {
  }

  /** The channel named by `t`; the C# fall-through `return 0` is unreachable
      for the four enum values. */
  function GetLight(l: TileLight, t: LightType): (r: bv32)
    ensures r <= 15
  {
    match t
    case S => GetSunLight(l)
    case R => GetRedLight(l)
    case G => GetGreenLight(l)
    case B => GetBlueLight(l)
  }

  /** Writing the channel named by `t`: it reads back the low four bits of
      the value, and for a value in [0, 15] no other channel changes. */
  function SetLight(l: TileLight, value: bv32, t: LightType): (r: TileLight)
    ensures GetLight(r, t) == value & 0xF
    ensures value <= 15 ==> forall u :: u != t ==> GetLight(r, u) == GetLight(l, u)
  {
    match t
    case S => SetSunLightChannels(l, value); SetSunLight(l, value)
    case R => SetRedLightChannels(l, value); SetRedLight(l, value)
    case G => SetGreenLightChannels(l, value); SetGreenLight(l, value)
    case B => SetBlueLightChannels(l, value); SetBlueLight(l, value)
  }

  /** The torch channels, as the colour a light source emits. */
  function GetEmission(l: TileLight): (e: LightEmission)
    ensures e.r as bv32 == GetLight(l, R) && e.g as bv32 == GetLight(l, G) && e.b as bv32 == GetLight(l, B)
    ensures e == EmissionZero <==> GetRedLight(l) == 0 && GetGreenLight(l) == 0 && GetBlueLight(l) == 0
  {
    LightEmission(GetRedLight(l) as byte, GetGreenLight(l) as byte, GetBlueLight(l) as byte)
  }

  /** A light value is determined by its four channels. */
  lemma ChannelsDetermineLight(l: TileLight, m: TileLight)
    requires forall t :: GetLight(l, t) == GetLight(m, t)
    ensures l == m
  {
    assert GetLight(l, S) == GetLight(m, S) && GetLight(l, R) == GetLight(m, R);
    assert GetLight(l, G) == GetLight(m, G) && GetLight(l, B) == GetLight(m, B);
  }

  /** Setting a channel to the value it already holds changes nothing. */
  lemma SetLightOwnValue(l: TileLight, t: LightType)
    ensures SetLight(l, GetLight(l, t), t) == l
  {
    var a := SetLight(l, GetLight(l, t), t);
    assert forall u :: GetLight(a, u) == GetLight(l, u);
    ChannelsDetermineLight(a, l);
  }

  /** Writing a channel twice keeps only the second value. */
  lemma SetLightTwice(l: TileLight, v: bv32, w: bv32, t: LightType)
    requires v <= 15 && w <= 15
    ensures SetLight(SetLight(l, v, t), w, t) == SetLight(l, w, t)
  {
    match t
    case S => SunTwice(l, v, w);
    case R => RedTwice(l, v, w);
    case G => GreenTwice(l, v, w);
    case B => BlueTwice(l, v, w);
  }

  /** Writes of in-range values to two different channels commute. */
  lemma SetLightCommutes(l: TileLight, v: bv32, w: bv32, t: LightType, u: LightType)
    requires v <= 15 && w <= 15 && t != u
    ensures SetLight(SetLight(l, v, t), w, u) == SetLight(SetLight(l, w, u), v, t)
  {
    match (t, u)
    case (S, R) => SunRedCommute(l, v, w);
    case (S, G) => SunGreenCommute(l, v, w);
    case (S, B) => SunBlueCommute(l, v, w);
    case (R, S) => SunRedCommute(l, w, v);
    case (R, G) => RedGreenCommute(l, v, w);
    case (R, B) => RedBlueCommute(l, v, w);
    case (G, S) => SunGreenCommute(l, w, v);
    case (G, R) => RedGreenCommute(l, w, v);
    case (G, B) => GreenBlueCommute(l, v, w);
    case (B, S) => SunBlueCommute(l, w, v);
    case (B, R) => RedBlueCommute(l, w, v);
    case (B, G) => GreenBlueCommute(l, w, v);
  }

  // Single-channel identities behind the two lemmas above. A second sun
  // write replaces every bit the first one set, whatever the values (both
  // land in the top four bits); for the torch channels, and for writes to two
  // different channels, the first value must not spill out of its four bits.

  lemma SunTwice(l: TileLight, v: bv32, w: bv32)
    ensures SetSunLight(SetSunLight(l, v), w) == SetSunLight(l, w)
  {
  }

  lemma RedTwice(l: TileLight, v: bv32, w: bv32)
    requires v <= 15
    ensures SetRedLight(SetRedLight(l, v), w) == SetRedLight(l, w)
  {
  }

  lemma GreenTwice(l: TileLight, v: bv32, w: bv32)
    requires v <= 15
    ensures SetGreenLight(SetGreenLight(l, v), w) == SetGreenLight(l, w)
  {
  }

  lemma BlueTwice(l: TileLight, v: bv32, w: bv32)
    requires v <= 15
    ensures SetBlueLight(SetBlueLight(l, v), w) == SetBlueLight(l, w)
  {
  }

  lemma SunRedCommute(l: TileLight, v: bv32, w: bv32)
    requires v <= 15 && w <= 15
    ensures SetRedLight(SetSunLight(l, v), w) == SetSunLight(SetRedLight(l, w), v)
  {
  }

  lemma SunGreenCommute(l: TileLight, v: bv32, w: bv32)
    requires v <= 15 && w <= 15
    ensures SetGreenLight(SetSunLight(l, v), w) == SetSunLight(SetGreenLight(l, w), v)
  {
  }

  lemma SunBlueCommute(l: TileLight, v: bv32, w: bv32)
    requires v <= 15 && w <= 15
    ensures SetBlueLight(SetSunLight(l, v), w) == SetSunLight(SetBlueLight(l, w), v)
  {
  }

  lemma RedGreenCommute(l: TileLight, v: bv32, w: bv32)
    requires v <= 15 && w <= 15
    ensures SetGreenLight(SetRedLight(l, v), w) == SetRedLight(SetGreenLight(l, w), v)
  {
  }

  lemma RedBlueCommute(l: TileLight, v: bv32, w: bv32)
    requires v <= 15 && w <= 15
    ensures SetBlueLight(SetRedLight(l, v), w) == SetRedLight(SetBlueLight(l, w), v)
  {
  }

  lemma GreenBlueCommute(l: TileLight, v: bv32, w: bv32)
    requires v <= 15 && w <= 15
    ensures SetBlueLight(SetGreenLight(l, v), w) == SetGreenLight(SetBlueLight(l, w), v)
  {
  }

  /** Changing the sun channel never changes the emission. */
  lemma EmissionIgnoresSun(l: TileLight, v: bv32)
    ensures GetEmission(SetSunLight(l, v)) == GetEmission(l)
  {
    SetSunLightChannels(l, v);
  }

  /** The channel maxima are the largest value a four-bit field holds, and
      the all-ones field reaches them on every channel. */
  lemma MaxLightIsNibbleMax()
    ensures MaxSunLight == MaxTorchLight == 0xF
    ensures GetSunLight(TileLight(0xFFFF)) == MaxSunLight
    ensures GetRedLight(TileLight(0xFFFF)) == MaxTorchLight
    ensures GetGreenLight(TileLight(0xFFFF)) == MaxTorchLight
    ensures GetBlueLight(TileLight(0xFFFF)) == MaxTorchLight
  {
  }

  /** The setters do not mask: 16 written to the red channel of a dark cell
      leaves red at 0 and turns the sun channel on. */
  lemma SetRedLightUnmasked()
    ensures GetRedLight(SetRedLight(Dark, 16)) == 0
    ensures GetSunLight(SetRedLight(Dark, 16)) == 1
  {
  }
}
