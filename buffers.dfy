/** An abstract record buffer: a fixed-capacity byte region with a limit
    marking how much of it holds data, and a count of release calls. */
module Buffers {

  newtype byte = b: int | 0 <= b < 256

  class Buffer {
    const data: array<byte>
    var limit: nat
    ghost var releaseCount: nat

    ghost predicate Valid()
      reads this
    {
      limit <= data.Length
    }

    function Capacity(): nat
    {
      data.Length
    }

    /** The bytes before the limit. */
    ghost function Contents(): seq<byte>
      reads this, data
      requires Valid()
    {
      data[..limit]
    }

    /** `Buffer.allocate(capacity)`. */
    constructor Allocate(capacity: nat)
      ensures Valid() && fresh(data)
      ensures data.Length == capacity && limit == capacity && releaseCount == 0
    {
      data := new byte[capacity](_ => 0);
      limit := capacity;
      releaseCount := 0;
    }

    /** `setBytes(offset, src, 0, |src|)`: copies `src` to `offset`, or fails
        (the source's bounds error) when the copy would pass the capacity. */
    method SetBytes(offset: int, src: seq<byte>) returns (ok: bool)
      modifies data
      ensures ok <==> 0 <= offset && offset + |src| <= data.Length
      ensures ok ==> data[..] == old(data[..offset]) + src + old(data[offset + |src|..])
      ensures !ok ==> data[..] == old(data[..])
    {
      ok := 0 <= offset && offset + |src| <= data.Length;
      if !ok {
        return;
      }
      for j := 0 to |src|
        invariant forall m :: 0 <= m < offset ==> data[m] == old(data[m])
        invariant forall m :: 0 <= m < j ==> data[offset + m] == src[m]
        invariant forall m :: offset + j <= m < data.Length ==> data[m] == old(data[m])
      {
        data[offset + j] := src[j];
      }
      assert data[..] == old(data[..offset]) + src + old(data[offset + |src|..]);
    }

    /** `limit(newLimit)`. */
    method SetLimit(newLimit: nat)
      requires newLimit <= data.Length
      modifies this`limit
      ensures limit == newLimit && Valid()
    {
      limit := newLimit;
    }

    /** `release()`: gives back the backing memory; modelled by the count. */
    method Release()
      modifies this`releaseCount
      ensures releaseCount == old(releaseCount) + 1
    {
      releaseCount := releaseCount + 1;
    }
  }
}
