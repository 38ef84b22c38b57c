/** Bytes, optional values and the clock shared by the other modules. */
module Bytes {

  /** One byte of a pane's output stream. */
  type byte = b: int | 0 <= b < 256

  /** Wall-clock time in nanoseconds. */
  type Time = int

  datatype Option<+T> = None | Some(value: T) {
    function GetOr(default: T): T { if Some? then value else default }
  }

  lemma Assoc<T>(a: seq<T>, b: seq<T>, c: seq<T>)
    ensures a + (b + c) == (a + b) + c
  {
  }

  const LF: byte := 0x0A
  const CR: byte := 0x0D
  const ESC: byte := 0x1B
  const BEL: byte := 0x07
}
