/** Streams whose reads may return less than they were asked for. */
module ShortReads {
  type Bytes = seq<bv8>

  /** An open file or archive member; `cuts` decides how short each read is. */
  class ShortStream<T> {
    const content: seq<T>
    const cuts: nat -> nat
    var offset: nat
    var calls: nat

    constructor (content: seq<T>, cuts: nat -> nat)
      ensures Valid() && Rest() == content
    {
      this.content, this.cuts := content, cuts;
      offset, calls := 0, 0;
    }

    ghost predicate Valid()
      reads this
    {
      offset <= |content|
    }

    ghost function Rest(): seq<T>
      requires Valid()
      reads this
    {
      content[offset..]
    }

    /** At most `limit` bytes, and none only at the end. */
    method Read(limit: nat) returns (chunk: seq<T>)
      requires Valid() && limit > 0
      modifies this
      ensures Valid() && |chunk| <= limit && old(Rest()) == chunk + Rest()
      ensures chunk == [] <==> old(Rest()) == []
    {
      var left := |content| - offset;
      var wanted := if limit < left then limit else left;
      var cut := cuts(calls);
      var count := if 0 < cut < wanted then cut else wanted;
      calls := calls + 1;
      chunk := content[offset..offset + count];
      offset := offset + count;
    }
  }
}
