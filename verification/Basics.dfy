/** Values that several parts of the model share. */
module Basics {

  type Byte = x: int | 0 <= x < 0x100

  datatype Option<T> = None | Some(value: T)

  /** d with src laid over it at a position. */
  function Overlay(d: seq<Byte>, at: nat, src: seq<Byte>): seq<Byte>
    requires at + |src| <= |d|
  {
    d[..at] + src + d[at + |src|..]
  }
}
