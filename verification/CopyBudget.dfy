/** The shared budget of a tree installation, and the loops that spend it. */
module CopyBudget {
  import opened ShortReads
  import opened StageCalls
  import opened Wrappers

  const COPY_CHUNK_SIZE := 1048576

  function Min(a: int, b: int): int {
    if a <= b then a else b
  }

  function Max(a: int, b: int): int {
    if a >= b then a else b
  }

  /** The counters, for contracts that compare states. */
  datatype Spent = Spent(entries: nat, bytesRead: nat, bytesWritten: nat, ioEntries: nat, ioBytes: nat)

  class Budget {
    const entryLimit: nat
    const byteLimit: nat
    const ioEntryLimit: nat
    const ioByteLimit: nat
    var entries: nat
    var bytesRead: nat
    var bytesWritten: nat
    var ioEntries: nat
    var ioBytes: nat

    constructor (entryLimit: nat, byteLimit: nat, ioEntryLimit: nat, ioByteLimit: nat)
      ensures Valid() && Now() == Spent(0, 0, 0, 0, 0)
      ensures this.entryLimit == entryLimit && this.byteLimit == byteLimit
      ensures this.ioEntryLimit == ioEntryLimit && this.ioByteLimit == ioByteLimit
    {
      this.entryLimit, this.byteLimit, this.ioEntryLimit, this.ioByteLimit := entryLimit, byteLimit, ioEntryLimit, ioByteLimit;
      entries, bytesRead, bytesWritten, ioEntries, ioBytes := 0, 0, 0, 0, 0;
    }

    /** No counter ever passes its limit. */
    predicate Valid()
      reads this
    {
      entries <= entryLimit && bytesRead <= byteLimit && bytesWritten <= byteLimit && ioEntries <= ioEntryLimit && ioBytes <= ioByteLimit
    }

    function Now(): Spent
      reads this
    {
      Spent(entries, bytesRead, bytesWritten, ioEntries, ioBytes)
    }

    method ConsumeEntry(copy: bool) returns (ok: bool)
      requires Valid()
      modifies this
      ensures Valid()
      ensures ok <==> old(ioEntries) < ioEntryLimit && (copy ==> old(entries) < entryLimit)
      ensures ok ==> Now() == old(Now()).(ioEntries := old(ioEntries) + 1, entries := old(entries) + if copy then 1 else 0)
      ensures !ok ==> Now() == old(Now())
    {
      if copy && entries >= entryLimit {
        return false;
      }
      if ioEntries >= ioEntryLimit {
        return false;
      }
      ioEntries := ioEntries + 1;
      if copy {
        entries := entries + 1;
      }
      ok := true;
    }

    /** How much to ask for: at least one byte, and at most one byte past each remaining
        allowance, so that an oversized source shows itself without being read to its end. */
    function ReadSize(perFileRemaining: Option<int>, copy: bool): (size: nat)
      requires Valid() && (perFileRemaining.Some? ==> perFileRemaining.value >= 0)
      reads this
      ensures 1 <= size <= COPY_CHUNK_SIZE
      ensures perFileRemaining.Some? ==> size <= perFileRemaining.value + 1
      ensures size <= ioByteLimit - ioBytes + 1
      ensures copy ==> size <= byteLimit - bytesRead + 1 && 2 * size <= ioByteLimit - ioBytes + 2
    {
      var perFileProbe := if perFileRemaining.None? then COPY_CHUNK_SIZE else Max(1, perFileRemaining.value + 1);
      var ioRemaining := ioByteLimit - ioBytes;
      var sharedProbe := if copy then Max(1, ioRemaining / 2 + 1) else Max(1, ioRemaining + 1);
      var copyProbe := if copy then Max(1, byteLimit - bytesRead + 1) else COPY_CHUNK_SIZE;
      Min(Min(COPY_CHUNK_SIZE, perFileProbe), Min(sharedProbe, copyProbe))
    }

    method ConsumeRead(amount: nat, copy: bool) returns (ok: bool)
      requires Valid()
      modifies this
      ensures Valid()
      ensures ok <==> old(ioBytes) + amount <= ioByteLimit && (copy ==> old(bytesRead) + amount <= byteLimit)
      ensures ok ==> Now() == old(Now()).(ioBytes := old(ioBytes) + amount, bytesRead := old(bytesRead) + if copy then amount else 0)
      ensures !ok ==> Now() == old(Now())
    {
      if ioBytes + amount > ioByteLimit || (copy && bytesRead + amount > byteLimit) {
        return false;
      }
      ioBytes := ioBytes + amount;
      if copy {
        bytesRead := bytesRead + amount;
      }
      ok := true;
    }

    method ConsumeWrite(amount: nat) returns (ok: bool)
      requires Valid()
      modifies this
      ensures Valid()
      ensures ok <==> old(ioBytes) + amount <= ioByteLimit && old(bytesWritten) + amount <= byteLimit
      ensures ok ==> Now() == old(Now()).(ioBytes := old(ioBytes) + amount, bytesWritten := old(bytesWritten) + amount)
      ensures !ok ==> Now() == old(Now())
    {
      if ioBytes + amount > ioByteLimit || bytesWritten + amount > byteLimit {
        return false;
      }
      ioBytes := ioBytes + amount;
      bytesWritten := bytesWritten + amount;
      ok := true;
    }

    /** `_hash_file` and `_hash_open_file`: however the reads are cut, the whole content is
        hashed unless it exceeds the file's or the shared allowance. */
    method HashFile(stream: ShortStream<bv8>, maxBytes: nat, hash: Bytes -> string) returns (r: Option<string>)
      requires Valid() && stream.Valid()
      modifies this, stream
      ensures Valid()
      ensures r.Some? <==> |old(stream.Rest())| <= maxBytes && old(ioBytes) + |old(stream.Rest())| <= ioByteLimit
      ensures r.Some? ==> r.value == hash(old(stream.Rest()))
      ensures r.Some? ==> Now() == old(Now()).(ioBytes := old(ioBytes) + |old(stream.Rest())|)
    {
      ghost var whole := stream.Rest();
      var hashed: Bytes := [];
      while true
        invariant Valid() && stream.Valid() && hashed + stream.Rest() == whole && |hashed| <= maxBytes
        invariant Now() == old(Now()).(ioBytes := old(ioBytes) + |hashed|)
        decreases |stream.Rest()|
      {
        var readSize := ReadSize(Some(maxBytes - |hashed|), false);
        var chunk := stream.Read(readSize);
        if chunk == [] {
          break;
        }
        if |hashed| + |chunk| > maxBytes {
          return None;
        }
        var ok := ConsumeRead(|chunk|, false);
        if !ok {
          return None;
        }
        hashed := hashed + chunk;
      }
      assert hashed == whole;
      r := Some(hash(hashed));
    }

    /** Pays for a chunk and writes it. */
    method PassOn(chunk: Bytes, calls: Calls) returns (ok: bool, kept: Bytes)
      requires Valid()
      modifies this, calls
      ensures Valid() && calls.made >= old(calls.made)
      ensures ok <==>
                && old(ioBytes) + 2 * |chunk| <= ioByteLimit && old(bytesRead) + |chunk| <= byteLimit
                && old(bytesWritten) + |chunk| <= byteLimit && calls.Clean(old(calls.made), calls.made)
      ensures ok && calls.Faithful() ==> kept == chunk
      ensures ok ==> Now() == old(Now()).(ioBytes := old(ioBytes) + 2 * |chunk|, bytesRead := old(bytesRead) + |chunk|,
                                          bytesWritten := old(bytesWritten) + |chunk|)
    {
      kept := [];
      ok := ConsumeRead(|chunk|, true);
      if ok {
        ok := ConsumeWrite(|chunk|);
      }
      if ok {
        ok, kept := calls.Write(chunk);
      }
    }

    /** The copy loop of `_copy_file_atomically_from_checked_source`: each chunk is paid for
        twice, once read and once written.  `stored` is what the output then holds. */
    method CopyFile(stream: ShortStream<bv8>, maxBytes: nat, calls: Calls) returns (r: Option<Bytes>, stored: Bytes)
      requires Valid() && stream.Valid()
      modifies this, stream, calls
      ensures Valid() && calls.made >= old(calls.made)
      ensures r.Some? <==>
                var size := |old(stream.Rest())|;
                && size <= maxBytes && old(ioBytes) + 2 * size <= ioByteLimit
                && old(bytesRead) + size <= byteLimit && old(bytesWritten) + size <= byteLimit
                && calls.Clean(old(calls.made), calls.made)
      ensures r.Some? ==> r.value == old(stream.Rest()) && (calls.Faithful() ==> stored == r.value)
      ensures r.Some? ==>
                var size := |old(stream.Rest())|;
                Now() == old(Now()).(ioBytes := old(ioBytes) + 2 * size, bytesRead := old(bytesRead) + size,
                                     bytesWritten := old(bytesWritten) + size)
    {
      ghost var whole := stream.Rest();
      var copied: Bytes := [];
      stored := [];
      while true
        invariant Valid() && stream.Valid() && copied + stream.Rest() == whole && |copied| <= maxBytes
        invariant calls.made >= old(calls.made) && calls.Clean(old(calls.made), calls.made)
        invariant calls.Faithful() ==> stored == copied
        invariant Now() == old(Now()).(ioBytes := old(ioBytes) + 2 * |copied|, bytesRead := old(bytesRead) + |copied|,
                                       bytesWritten := old(bytesWritten) + |copied|)
        decreases |stream.Rest()|
      {
        var readSize := ReadSize(Some(maxBytes - |copied|), true);
        var ok := calls.Look();
        if !ok {
          return None, stored;
        }
        var chunk := stream.Read(readSize);
        if chunk == [] {
          break;
        }
        if |copied| + |chunk| > maxBytes {
          return None, stored;
        }
        var kept;
        ok, kept := PassOn(chunk, calls);
        stored := stored + kept;
        if !ok {
          return None, stored;
        }
        copied := copied + chunk;
      }
      assert copied == whole;
      r := Some(copied);
    }
  }
}
