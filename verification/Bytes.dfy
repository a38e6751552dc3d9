/** Bytes and their sequences. */
module Bytes {
  newtype Byte = x: int | 0 <= x < 256

  type Content = seq<Byte>

  const NEWLINE: Byte := 10

  /** The pieces one after another. */
  function Concat(pieces: seq<Content>): Content
    decreases |pieces|
  {
    if pieces == [] then [] else pieces[0] + Concat(pieces[1..])
  }
}
