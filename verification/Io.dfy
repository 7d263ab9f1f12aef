// What a poll returns, and the buffer a reader polls with.

module Io {
  import opened Common

  datatype Poll = Ready(n: nat) | Pending | Failed

  /** A reader's buffer: `capacity` bytes of which a prefix is filled. */
  class ReadBuf {
    const capacity: nat
    var filled: seq<u8>

    ghost predicate Valid()
      reads this
    {
      |filled| <= capacity
    }

    function Remaining(): nat
      requires Valid()
      reads this
    {
      capacity - |filled|
    }

    method PutSlice(bytes: seq<u8>)
      requires Valid() && |bytes| <= Remaining()
      modifies this
      ensures Valid() && filled == old(filled) + bytes
    {
      filled := filled + bytes;
    }
  }
}
