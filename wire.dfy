/** Values shared by the paddle firmware and the desktop client: the paddles, and the bytes on the serial link. */
module Wire {

  /** One byte on the serial link (`u8` in the client, a `char` of a C string in the firmware). */
  type Byte = b: int | 0 <= b < 256

  datatype Option<T> = None | Some(value: T)

  /** A paddle: the client's `Side`, and the firmware's two input pins. */
  datatype Side = Left | Right

  /** The byte a character literal such as `b'{'` stands for. */
  function Ascii(c: char): Byte
    requires c as int < 256
  {
    c as int
  }

  /** The bytes a C string literal such as `"\n\nREADY\n\n"` puts on the link, without the terminating NUL. */
  function AsciiString(s: string): (r: seq<Byte>)
    requires forall i :: 0 <= i < |s| ==> s[i] as int < 256
    ensures |r| == |s|
    ensures forall i :: 0 <= i < |s| ==> r[i] == s[i] as int
  {
    if s == [] then [] else [Ascii(s[0])] + AsciiString(s[1..])
  }

  /** `'.'`, the heartbeat the firmware sends on every pass of `loop`. */
  const HeartbeatByte: Byte := 0x2E
  /** The edge bytes, a press and a release for each paddle: `'{'`, `'['`, `'}'` and `']'`. */
  const LeftPressByte: Byte := 0x7B
  const LeftReleaseByte: Byte := 0x5B
  const RightPressByte: Byte := 0x7D
  const RightReleaseByte: Byte := 0x5D

  /** The constants are the ASCII codes of the characters the firmware writes. */
  lemma ByteLiterals()
    ensures HeartbeatByte == Ascii('.')
    ensures LeftPressByte == Ascii('{') && LeftReleaseByte == Ascii('[')
    ensures RightPressByte == Ascii('}') && RightReleaseByte == Ascii(']')
  {
  }
}
