/** Values shared by several models. */
module Types {

  datatype Option<+T> = None | Some(value: T)

  type Byte = b: int | 0 <= b < 256

  /** A write of one fp16 word into the word-addressed SRAM. */
  datatype Write = Write(addr: nat, data: nat)

  /** The writes of a write port's valid slots, in slot order. */
  function Driven(port: seq<Option<Write>>): seq<Write> {
    if port == [] then []
    else (if port[0].Some? then [port[0].value] else []) + Driven(port[1..])
  }
}
