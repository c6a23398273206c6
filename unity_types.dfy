/** The engine value types the core passes around: an unsigned byte and
    Unity's `Color32` (four byte channels). */
module UnityTypes {

  type byte = bv8

  datatype Color32 = Color32(r: byte, g: byte, b: byte, a: byte)
}
