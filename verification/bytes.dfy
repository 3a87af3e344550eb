/** Go strings: finite sequences of bytes. */
module Bytes {

  type byte = b: int | 0 <= b < 256

  type Text = seq<byte>

  /** The bytes of a Go string literal (all the literals modelled are ASCII). */
  function Ascii(s: string): (t: Text)
    ensures |t| == |s|
  {
    seq(|s|, i requires 0 <= i < |s| => s[i] as int % 256)
  }
}
