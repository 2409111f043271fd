/** The buffers bytes are received into and parsed from. */
module Buffers {
  import opened Bytes

  const DEFAULT_BUF_SIZE: nat := 16384

  /** A link of a buffer chain: `start[pos..last]` waits to be parsed, `start[last..]` is free. */
  class Buffer {
    const start: array<Byte>
    var pos: nat
    var last: nat
    var next: Buffer?

    ghost predicate Valid()
      reads this
    {
      pos <= last <= start.Length
    }

    /** The bytes received so far. */
    ghost function Seen(): Bytes
      reads this, start
      requires last <= start.Length
    {
      start[..last]
    }

    /** What is read from the array is what has been received. */
    lemma SeenSlice(lo: nat, hi: nat)
      requires lo <= hi <= last <= start.Length
      ensures start[lo..hi] == Seen()[lo..hi]
    {
      var seen := Seen();
      forall i | lo <= i < hi
        ensures start[i] == seen[i]
      {
      }
    }

    /** lt_new_buffer: an empty buffer that ends the chain. */
    constructor ()
      ensures Valid() && fresh(start) && start.Length == DEFAULT_BUF_SIZE
      ensures pos == 0 && last == 0 && next == null
    {
      start := new Byte[DEFAULT_BUF_SIZE](_ => 0);
      pos, last, next := 0, 0, null;
    }
  }
}
