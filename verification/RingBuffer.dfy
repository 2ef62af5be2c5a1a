/** The kernel's byte ring buffer, by contract: a bounded queue whose front can be claimed in place and freed later. */
module RingBuffer {
  import opened Bytes

  class RingBuf {
    const capacity: nat
    var contents: seq<Byte>
    // How much of the front is claimed but not yet freed.
    var claimed: nat

    // History: everything ever stored, and everything ever freed.
    ghost var accepted: seq<Byte>
    ghost var freed: seq<Byte>

    ghost predicate Valid()
      reads this
    {
      claimed <= |contents| <= capacity && accepted == freed + contents
    }

    constructor (capacity: nat)
      ensures Valid() && contents == [] && claimed == 0 && accepted == [] && this.capacity == capacity
    {
      this.capacity, contents, claimed, accepted, freed := capacity, [], 0, [], [];
    }

    /** Stores as much of `data` as there is room for. */
    method Put(data: seq<Byte>) returns (written: nat)
      requires Valid()
      modifies this
      ensures Valid() && claimed == old(claimed) && freed == old(freed)
      ensures written == if |data| <= capacity - |old(contents)| then |data| else capacity - |old(contents)|
      ensures contents == old(contents) + data[..written]
      ensures accepted == old(accepted) + data[..written]
    {
      written := if |data| <= capacity - |contents| then |data| else capacity - |contents|;
      contents, accepted := contents + data[..written], accepted + data[..written];
    }

    /** Claims up to `max` octets; fewer than are there when they wrap around the end of the storage. */
    method GetClaim(max: nat) returns (block: seq<Byte>)
      requires Valid()
      modifies this`claimed
      ensures Valid() && |block| <= max && claimed == old(claimed) + |block|
      ensures block == contents[old(claimed)..claimed]
      ensures block == [] <==> max == 0 || old(claimed) == |contents|
    {
      block := [];
      if max != 0 && claimed < |contents| {
        var n :| 1 <= n <= max && claimed + n <= |contents|;
        block, claimed := contents[claimed..claimed + n], claimed + n;
      }
    }

    /** Frees the first `size` octets and gives up all claims; fails when there are not that many. */
    method GetFinish(size: nat) returns (failed: bool)
      requires Valid()
      modifies this
      ensures Valid() && accepted == old(accepted)
      ensures failed <==> |old(contents)| < size
      ensures failed ==> contents == old(contents) && claimed == old(claimed) && freed == old(freed)
      ensures !failed ==>
        contents == old(contents)[size..] && claimed == 0 && freed == old(freed) + old(contents)[..size]
    {
      failed := |contents| < size;
      if !failed {
        freed, contents, claimed := freed + contents[..size], contents[size..], 0;
      }
    }
  }
}
