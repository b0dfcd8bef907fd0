/** One directory under a lock, where any call may fail.

    Entries bind names to inodes; an inode has its bytes, a link count and a change
    time that every link, rename and unlink advances.  `faults` decides for each call, by its
    number and the directory it meets, whether it fails and, when it does, whether its effect
    had already happened (an interrupted process cannot tell).  `history` records the directory after every
    call, so that a contract can speak about every instant a crash could expose. */
module FaultyDirectory {
  /** Names made by appending a random token never collide with the names they protect. */
  datatype Name =
    | File(path: string)
    | Temp(of: Name, token: nat)
    | Backup(of: Name, token: nat)
    | Cleanup(of: Name, token: nat)
    | Merged(of: Name, token: nat)

  type Ino = nat

  datatype Content =
    | Plain(text: string)
    | Gzip(text: string)          // decompresses to `text`
    | Keys(keys: seq<string>)     // a passphrase history document
    | Wiped                       // bytes overwritten by a secure deletion

  datatype Inode = Inode(data: Content, nlink: nat, ctime: nat)

  datatype Stat = Stat(ino: Ino, nlink: nat, ctime: nat)

  datatype FS = FS(names: map<Name, Ino>, inodes: map<Ino, Inode>, tick: nat)

  /** How many cleanup names are tried for one entry. */
  const CLAIM_ATTEMPTS := 100

  datatype Error = Exists | Missing | OsFailure | CheckFailed | Interrupt

  datatype Result<T> = Ok(value: T) | Err(error: Error)

  /** A call, the directory that it meets, and the name that it is about. */
  datatype Step = Step(call: nat, fs: FS, name: Name)

  datatype Fault = NoFault | Fails(afterEffect: bool, interrupt: bool)

  ghost predicate WellFormed(fs: FS) {
    forall n | n in fs.names :: fs.names[n] in fs.inodes
  }

  predicate Bound(fs: FS, n: Name, ino: Ino) {
    n in fs.names && fs.names[n] == ino
  }

  function StatOf(fs: FS, n: Name): Stat
    requires n in fs.names && fs.names[n] in fs.inodes
  {
    var ino := fs.names[n];
    Stat(ino, fs.inodes[ino].nlink, fs.inodes[ino].ctime)
  }

  /** The identity a claim must still have; the change time moves with every rename. */
  predicate Matches(s: Stat, expected: Stat, checkLinks: bool) {
    s.ino == expected.ino && (!checkLinks || s.nlink == expected.nlink)
  }

  /** The inode after its links changed by one call. */
  function Touch(fs: FS, ino: Ino, nlink: nat): map<Ino, Inode>
    requires ino in fs.inodes
  {
    fs.inodes[ino := fs.inodes[ino].(nlink := nlink, ctime := fs.tick)]
  }

  function Linked(fs: FS, a: Name, b: Name): FS
    requires a in fs.names && fs.names[a] in fs.inodes
  {
    var ino := fs.names[a];
    FS(fs.names[b := ino], Touch(fs, ino, fs.inodes[ino].nlink + 1), fs.tick + 1)
  }

  function Renamed(fs: FS, a: Name, b: Name): FS
    requires a in fs.names && fs.names[a] in fs.inodes
  {
    var ino := fs.names[a];
    FS((fs.names - {a})[b := ino], Touch(fs, ino, fs.inodes[ino].nlink), fs.tick + 1)
  }

  function Unlinked(fs: FS, a: Name): FS
    requires a in fs.names && fs.names[a] in fs.inodes
  {
    var ino := fs.names[a];
    var nlink := fs.inodes[ino].nlink;
    FS(fs.names - {a}, Touch(fs, ino, if nlink > 0 then nlink - 1 else 0), fs.tick + 1)
  }

  function Created(fs: FS, n: Name, ino: Ino, data: Content): FS {
    FS(fs.names[n := ino], fs.inodes[ino := Inode(data, 1, fs.tick)], fs.tick + 1)
  }

  function Wrote(fs: FS, ino: Ino, data: Content): FS
    requires ino in fs.inodes
  {
    fs.(inodes := fs.inodes[ino := fs.inodes[ino].(data := data)])
  }

  /** An atomic write: the whole new file appears under the name, or nothing changes. */
  function Replaced(fs: FS, n: Name, ino: Ino, data: Content): FS
    requires ino !in fs.inodes && (n in fs.names ==> fs.names[n] in fs.inodes)
  {
    var kept := if n in fs.names then Touch(fs, fs.names[n], Less(fs.inodes[fs.names[n]].nlink)) else fs.inodes;
    FS(fs.names[n := ino], kept[ino := Inode(data, 1, fs.tick)], fs.tick + 1)
  }

  /** Bytes are never rewritten by link, rename or unlink. */
  ghost predicate SameData(fs: FS, gs: FS) {
    forall i | i in fs.inodes :: i in gs.inodes && gs.inodes[i].data == fs.inodes[i].data
  }

  /** Only the entry `n` was claimed or removed on the way from `fs` to `gs`. */
  ghost predicate OnlyAffects(fs: FS, gs: FS, n: Name) {
    && SameData(fs, gs)
    && (forall i | i in fs.inodes && (n in fs.names ==> i != fs.names[n]) :: gs.inodes[i] == fs.inodes[i])
    && (forall m | m in fs.names && m != n :: Bound(gs, m, fs.names[m]))
    && (forall m | m in gs.names ::
          || (m in fs.names && fs.names[m] == gs.names[m])
          || (n in fs.names && gs.names[m] == fs.names[n] && m.Cleanup? && m.of == n))
  }

  /** No earlier cleanup of this entry was left behind. */
  ghost predicate Unclaimed(fs: FS, n: Name) {
    forall token: nat :: Cleanup(n, token) !in fs.names
  }

  /** How a call that may fail can leave the directory. */
  predicate Outcome<T>(fs: FS, gs: FS, r: Result<T>, effect: FS) {
    match r
    case Ok(_) => gs == effect
    case Err(OsFailure) => gs == fs || gs == effect
    case Err(Interrupt) => gs == fs || gs == effect
    case Err(_) => gs == fs
  }

  class Directory {
    const faults: (nat, FS) -> Fault
    const tokens: nat -> nat
    var calls: nat
    var fs: FS
    ghost var history: seq<FS>

    constructor (fs: FS, faults: (nat, FS) -> Fault, tokens: nat -> nat)
      requires WellFormed(fs)
      ensures Valid() && this.fs == fs && this.faults == faults && this.tokens == tokens && calls == 0
    {
      this.fs, this.faults, this.tokens := fs, faults, tokens;
      calls, history := 0, [fs];
    }

    ghost predicate Valid()
      reads this`fs, this`history
    {
      WellFormed(fs) && |history| > 0 && history[|history| - 1] == fs
    }

    ghost predicate FaultFree()
    {
      forall k: nat, fs :: Works(k, fs)
    }

    /** The call works on the directory it meets. */
    ghost predicate Works(call: nat, fs: FS) {
      faults(call, fs) == NoFault
    }

    /** The call has its effect, whatever it reports. */
    ghost predicate Takes(call: nat, fs: FS) {
      faults(call, fs).Fails? ==> faults(call, fs).afterEffect
    }

    /** The name that the token drawn by a call makes for claiming an entry. */
    ghost function ClaimName(n: Name, call: nat): Name {
      Cleanup(n, tokens(call))
    }

    /** No call fails that meets this directory. */
    ghost predicate CalmAt(fs: FS) {
      forall k: nat :: Works(k, fs)
    }

    /** Every call that meets this directory fails, and changes nothing. */
    ghost predicate StuckAt(fs: FS) {
      forall k: nat :: !Works(k, fs) && !Takes(k, fs)
    }

    /** Draws the next fault; a failing call reports an I/O error or an interrupt. */
    method Draw() returns (fault: Fault)
      modifies this`calls
      ensures calls == old(calls) + 1 && (fault == NoFault <==> Works(old(calls), fs))
      ensures fault == NoFault || fault.afterEffect <==> Takes(old(calls), fs)
    {
      fault := faults(calls, fs);
      calls := calls + 1;
    }

    function FaultError(fault: Fault): Error {
      if fault.Fails? && fault.interrupt then Interrupt else OsFailure
    }

    /** What a call that met `before` did to the directory and answered. */
    ghost predicate Drawn(call: nat, before: FS, effect: FS, ok: bool)
      reads this`calls, this`fs
    {
      calls == call + 1 && (ok <==> Works(call, before)) && fs == if Takes(call, before) then effect else before
    }

    method Token() returns (token: nat)
      modifies this`calls
      ensures token == tokens(old(calls)) && calls == old(calls) + 1
    {
      token := tokens(calls);
      calls := calls + 1;
    }

    method Lstat(n: Name) returns (r: Result<Stat>)
      requires Valid()
      modifies this`calls
      ensures r.Ok? ==> n in fs.names && r.value == StatOf(fs, n)
      ensures r == Err(Missing) ==> n !in fs.names
      ensures r.Err? ==> r.error == Missing || r.error == OsFailure || r.error == Interrupt
      ensures calls == old(calls) + 1 && (r.Ok? || r == Err(Missing) <==> Works(old(calls), fs))
    {
      var fault := Draw();
      if fault != NoFault {
        r := Err(FaultError(fault));
      } else if n !in fs.names {
        r := Err(Missing);
      } else {
        r := Ok(StatOf(fs, n));
      }
    }

    /** Reads a whole file through a descriptor. */
    method Read(n: Name) returns (r: Result<Content>)
      requires Valid()
      modifies this`calls
      ensures r.Ok? ==> n in fs.names && r.value == fs.inodes[fs.names[n]].data
      ensures r == Err(Missing) ==> n !in fs.names
      ensures calls == old(calls) + 1 && (r.Ok? || r == Err(Missing) <==> Works(old(calls), fs))
    {
      var fault := Draw();
      if fault != NoFault {
        r := Err(FaultError(fault));
      } else if n !in fs.names {
        r := Err(Missing);
      } else {
        r := Ok(fs.inodes[fs.names[n]].data);
      }
    }

    method Fsync() returns (r: Result<()>)
      requires Valid()
      modifies this`calls
      ensures r.Err? ==> r.error == OsFailure || r.error == Interrupt
      ensures calls == old(calls) + 1 && (r.Ok? <==> Works(old(calls), fs))
    {
      var fault := Draw();
      r := if fault == NoFault then Ok(()) else Err(FaultError(fault));
    }

    /** Performs `effect`, or fails before or after it. */
    method Perform(effect: FS) returns (r: Result<()>)
      requires Valid() && WellFormed(effect)
      modifies this
      ensures Valid() && history == old(history) + [fs] && Outcome(old(fs), fs, r, effect)
      ensures r.Err? ==> r.error == OsFailure || r.error == Interrupt
      ensures Drawn(old(calls), old(fs), effect, r.Ok?)
    {
      var fault := Draw();
      if fault == NoFault || fault.afterEffect {
        fs := effect;
      }
      history := history + [fs];
      r := if fault == NoFault then Ok(()) else Err(FaultError(fault));
    }

    method Link(a: Name, b: Name) returns (r: Result<()>)
      requires Valid()
      modifies this
      ensures Valid() && history == old(history) + [fs]
      ensures a !in old(fs).names || b in old(fs).names ==> r.Err? && fs == old(fs)
      ensures r == Err(Exists) ==> b in old(fs).names
      ensures r == Err(Missing) ==> a !in old(fs).names
      ensures a in old(fs).names && b !in old(fs).names ==> Outcome(old(fs), fs, r, Linked(old(fs), a, b))
      ensures a in old(fs).names && b !in old(fs).names ==> Drawn(old(calls), old(fs), Linked(old(fs), a, b), r.Ok?)
      ensures a !in old(fs).names || b in old(fs).names ==> calls == old(calls) && (r == Err(Exists) <==> b in fs.names)
    {
      if a !in fs.names || b in fs.names {
        history := history + [fs];
        return Err(if b in fs.names then Exists else Missing);
      }
      r := Perform(Linked(fs, a, b));
    }

    /** Renames without ever replacing an existing entry. */
    method RenameWithoutReplacing(a: Name, b: Name) returns (r: Result<()>)
      requires Valid()
      modifies this
      ensures Valid() && history == old(history) + [fs]
      ensures a !in old(fs).names || b in old(fs).names ==> r.Err? && fs == old(fs)
      ensures r == Err(Exists) ==> b in old(fs).names
      ensures r == Err(Missing) ==> a !in old(fs).names
      ensures a in old(fs).names && b !in old(fs).names ==> Outcome(old(fs), fs, r, Renamed(old(fs), a, b))
      ensures a in old(fs).names && b !in old(fs).names ==> Drawn(old(calls), old(fs), Renamed(old(fs), a, b), r.Ok?)
      ensures a !in old(fs).names || b in old(fs).names ==> calls == old(calls) && (r == Err(Exists) <==> b in fs.names)
    {
      if a !in fs.names || b in fs.names {
        history := history + [fs];
        return Err(if b in fs.names then Exists else Missing);
      }
      r := Perform(Renamed(fs, a, b));
    }

    method Unlink(a: Name) returns (r: Result<()>)
      requires Valid()
      modifies this
      ensures Valid() && history == old(history) + [fs]
      ensures a !in old(fs).names ==> r == Err(Missing) && fs == old(fs)
      ensures a in old(fs).names ==> r != Err(Missing) && Outcome(old(fs), fs, r, Unlinked(old(fs), a))
      ensures a in old(fs).names ==> Drawn(old(calls), old(fs), Unlinked(old(fs), a), r.Ok?)
    {
      if a !in fs.names {
        history := history + [fs];
        return Err(Missing);
      }
      r := Perform(Unlinked(fs, a));
    }

    method Create(n: Name, ino: Ino, data: Content) returns (r: Result<()>)
      requires Valid() && ino !in fs.inodes
      modifies this
      ensures Valid() && history == old(history) + [fs]
      ensures n in old(fs).names ==> r == Err(Exists) && fs == old(fs)
      ensures n !in old(fs).names ==> r != Err(Exists) && Outcome(old(fs), fs, r, Created(old(fs), n, ino, data))
      ensures n !in old(fs).names ==> Drawn(old(calls), old(fs), Created(old(fs), n, ino, data), r.Ok?)
    {
      if n in fs.names {
        history := history + [fs];
        return Err(Exists);
      }
      r := Perform(Created(fs, n, ino, data));
    }

    /** Writes a whole file through its descriptor. */
    method Write(ino: Ino, data: Content) returns (r: Result<()>)
      requires Valid() && ino in fs.inodes
      modifies this
      ensures Valid() && history == old(history) + [fs] && Outcome(old(fs), fs, r, Wrote(old(fs), ino, data))
      ensures r.Err? ==> r.error == OsFailure || r.error == Interrupt
      ensures Drawn(old(calls), old(fs), Wrote(old(fs), ino, data), r.Ok?)
    {
      r := Perform(Wrote(fs, ino, data));
    }

    /** Writes a whole new file and renames it over the entry, all or nothing. */
    method WriteAtomically(n: Name, data: Content) returns (r: Result<()>, ghost ino: Ino)
      requires Valid()
      modifies this
      ensures Valid() && history == old(history) + [fs] && ino !in old(fs).inodes
      ensures Outcome(old(fs), fs, r, Replaced(old(fs), n, ino, data))
      ensures r.Err? ==> r.error == OsFailure || r.error == Interrupt
      ensures Drawn(old(calls), old(fs), Replaced(old(fs), n, ino, data), r.Ok?)
    {
      FreshInoExists(fs.inodes.Keys);
      var unused: Ino :| unused !in fs.inodes;
      ino := unused;
      r := Perform(Replaced(fs, n, unused, data));
    }

    /* ---------- Claim, check, unlink ---------- */

    /** Every directory since a point in the history affected only the entry `n` of `start`. */
    ghost predicate Since(from: nat, start: FS, n: Name)
      reads this`history
    {
      from <= |history| && forall k | from <= k < |history| :: OnlyAffects(start, history[k], n)
    }

    /** The first `tries` tokens drawn from `call` on name cleanup entries that exist. */
    ghost predicate AllTaken(fs: FS, n: Name, call: nat, tries: nat) {
      forall k: nat | call <= k < call + tries :: ClaimName(n, k) in fs.names
    }

    /** The next `k` tokens name cleanup entries that exist, and the one after them does not. */
    ghost predicate FreeAfter(fs: FS, n: Name, call: nat, k: nat) {
      k <= CLAIM_ATTEMPTS && AllTaken(fs, n, call, k) && (k < CLAIM_ATTEMPTS ==> ClaimName(n, call + k) !in fs.names)
    }

    /** How many claims of the entry meet a cleanup name that exists. */
    ghost function ClaimTries(fs: FS, n: Name, call: nat): nat {
      if k: nat :| FreeAfter(fs, n, call, k) then k else 0
    }

    lemma ClaimTriesAre(fs: FS, n: Name, call: nat, tries: nat)
      requires FreeAfter(fs, n, call, tries)
      ensures ClaimTries(fs, n, call) == tries
    {
      var k := ClaimTries(fs, n, call);
      var next, nextTried := ClaimName(n, call + k), ClaimName(n, call + tries);
      assert FreeAfter(fs, n, call, k);
    }

    /** Renames an entry to a fresh cleanup name; a taken name is retried. */
    method Claim(n: Name) returns (r: Result<Name>, ghost tries: nat)
      requires Valid() && n in fs.names
      modifies this
      ensures Valid() && |history| >= |old(history)| && Since(|old(history)|, old(fs), n)
      ensures history[..|old(history)|] == old(history)
      ensures r.Ok? ==> r.value.Cleanup? && r.value.of == n && r.value !in old(fs).names
      ensures r.Ok? ==> fs == Renamed(old(fs), n, r.value)
      ensures r.Err? ==> r.error != Missing && r.error != Exists
      ensures r.Err? ==> fs == old(fs) || (tries < CLAIM_ATTEMPTS && fs == Renamed(old(fs), n, ClaimName(n, old(calls) + tries)))
      ensures CalmAt(old(fs)) && Unclaimed(old(fs), n) ==> r.Ok?
      ensures tries <= CLAIM_ATTEMPTS && AllTaken(old(fs), n, old(calls), tries)
      ensures tries == CLAIM_ATTEMPTS ==> r.Err? && fs == old(fs)
      ensures tries < CLAIM_ATTEMPTS ==> ClaimName(n, old(calls) + tries) !in old(fs).names && calls == old(calls) + tries + 2
      ensures tries < CLAIM_ATTEMPTS ==> (r.Ok? <==> Works(old(calls) + tries + 1, old(fs)))
      ensures tries < CLAIM_ATTEMPTS ==> (n in fs.names <==> !Takes(old(calls) + tries + 1, old(fs)))
      ensures r.Ok? ==> r.value == ClaimName(n, old(calls) + tries)
      ensures tries < CLAIM_ATTEMPTS ==>
                fs == if Takes(old(calls) + tries + 1, old(fs)) then Renamed(old(fs), n, ClaimName(n, old(calls) + tries)) else old(fs)
    {
      r, tries := TryClaims(n);
    }

    /** Tries one cleanup name after another. */
    method TryClaims(n: Name) returns (r: Result<Name>, ghost tries: nat)
      requires Valid() && n in fs.names
      modifies this
      ensures Valid() && |history| >= |old(history)| && Since(|old(history)|, old(fs), n)
      ensures history[..|old(history)|] == old(history)
      ensures tries <= CLAIM_ATTEMPTS && AllTaken(old(fs), n, old(calls), tries) && (Unclaimed(old(fs), n) ==> tries == 0)
      ensures if tries == CLAIM_ATTEMPTS then r == Err(CheckFailed) && fs == old(fs)
              else Claimed(old(calls) + tries + 1, old(fs), n, r) && r != Err(Missing) && r != Err(Exists)
    {
      tries := 0;
      for attempt := 0 to CLAIM_ATTEMPTS
        invariant Valid() && fs == old(fs) && |history| >= |old(history)| && Since(|old(history)|, old(fs), n)
        invariant history[..|old(history)|] == old(history)
        invariant Unclaimed(old(fs), n) ==> attempt == 0
        invariant tries == attempt && calls == old(calls) + tries && AllTaken(old(fs), n, old(calls), tries)
      {
        r := TryClaim(n);
        if r != Err(Exists) {
          return;
        }
        tries := tries + 1;
      }
      r := Err(CheckFailed);
    }

    /** What claiming an entry by a call comes to, when its cleanup name is free. */
    ghost predicate Claimed(call: nat, before: FS, n: Name, r: Result<Name>)
      requires n in before.names && before.names[n] in before.inodes
      reads this`calls, this`fs
    {
      && call > 0 && ClaimName(n, call - 1) !in before.names
      && Drawn(call, before, Renamed(before, n, ClaimName(n, call - 1)), r.Ok?)
      && (r.Ok? ==> r.value == ClaimName(n, call - 1))
    }

    /** One attempt to claim an entry. */
    method TryClaim(n: Name) returns (r: Result<Name>)
      requires Valid() && n in fs.names
      modifies this
      ensures Valid() && history == old(history) + [fs] && OnlyAffects(old(fs), fs, n)
      ensures r == Err(Exists) <==> ClaimName(n, old(calls)) in old(fs).names
      ensures r == Err(Exists) ==> fs == old(fs) && calls == old(calls) + 1
      ensures r != Err(Exists) ==> Claimed(old(calls) + 1, old(fs), n, r) && r != Err(Missing)
    {
      var token := Token();
      var c := Cleanup(n, token);
      var moved := RenameWithoutReplacing(n, c);
      r := if moved.Ok? then Ok(c) else Err(moved.error);
    }

    /** Unlinks a claimed entry if it still is the expected inode; any failure tries to put it back. */
    method UnlinkClaimed(n: Name, c: Name, expected: Stat, checkLinks: bool) returns (r: Result<()>)
      requires Valid() && n !in fs.names && c in fs.names && c != n
      modifies this
      ensures Valid() && |history| >= |old(history)| && history[..|old(history)|] == old(history)
      ensures forall k | |old(history)| <= k < |history| :: MovesBack(old(fs), history[k], n, c)
      ensures MovesBack(old(fs), fs, n, c)
      ensures r.Ok? ==> Bound(old(fs), c, expected.ino) && fs == Unlinked(old(fs), c)
      ensures FaultFree() && Matches(StatOf(old(fs), c), expected, checkLinks) ==> r.Ok?
      ensures StuckAt(old(fs)) ==> r.Err? && fs == old(fs)
    {
      var stat := Lstat(c);
      if stat.Err? {
        r := Err(stat.error);
      } else if !Matches(stat.value, expected, checkLinks) {
        r := Err(CheckFailed);
      } else {
        r := Unlink(c);
        if r.Ok? {
          r := Fsync();
          if r.Ok? {
            return;
          }
        }
      }
      var restored := RenameWithoutReplacing(c, n);
      if restored.Ok? {
        var _ := Fsync();
      }
    }

    /** The entry can be claimed, but then no call works any more. */
    ghost predicate StuckOnceClaimed(before: FS, n: Name)
      requires n in before.names ==> before.names[n] in before.inodes
    {
      n in before.names ==>
        CalmAt(before) && Unclaimed(before, n) && forall token: nat :: StuckAt(Renamed(before, n, Cleanup(n, token)))
    }

    /** Removes an entry through a claim.  A failure may leave the entry in place, leave it
        under the claimed name, or have removed it. */
    method ClaimAndUnlink(n: Name, expected: Stat, checkLinks: bool) returns (r: Result<()>)
      requires Valid() && n in fs.names
      modifies this
      ensures Valid() && |history| >= |old(history)| && history[..|old(history)|] == old(history)
      ensures Since(|old(history)|, old(fs), n) && OnlyAffects(old(fs), fs, n)
      ensures r.Ok? ==> Bound(old(fs), n, expected.ino) && fs.names == old(fs).names - {n}
      ensures r.Ok? ==> fs.inodes[expected.ino].nlink == Less(old(fs).inodes[expected.ino].nlink)
      ensures FaultFree() && Unclaimed(old(fs), n) && Matches(StatOf(old(fs), n), expected, checkLinks) ==> r.Ok?
      ensures StuckOnceClaimed(old(fs), n) ==> r.Err? && n !in fs.names
    {
      var claim, _ := Claim(n);
      if claim.Err? {
        return Err(claim.error);
      }
      var c := claim.value;
      ghost var claimed := fs;
      r := UnlinkClaimed(n, c, expected, checkLinks);
      forall k | 0 <= k < |history| && MovesBack(claimed, history[k], n, c)
        ensures OnlyAffects(old(fs), history[k], n)
      {
        MovedBackAffectsOnly(old(fs), history[k], n, c);
      }
      MovedBackAffectsOnly(old(fs), fs, n, c);
    }

    /** `_unlink_log_file_with_parent_fsync`: refuses an entry whose identity changed;
        false when there is no such entry. */
    method UnlinkWithParentFsync(n: Name, expected: Stat) returns (r: Result<bool>)
      requires Valid()
      modifies this
      ensures Valid() && |history| >= |old(history)| && history[..|old(history)|] == old(history)
      ensures Since(|old(history)|, old(fs), n) && OnlyAffects(old(fs), fs, n)
      ensures r == Ok(false) ==> n !in old(fs).names && fs == old(fs)
      ensures r == Ok(true) ==> n in old(fs).names && StatOf(old(fs), n) == expected && fs.names == old(fs).names - {n}
      ensures r == Ok(true) ==> fs.inodes[expected.ino].nlink == Less(expected.nlink)
      ensures n !in old(fs).names ==> fs == old(fs)
      ensures FaultFree() && n in old(fs).names && Unclaimed(old(fs), n) && StatOf(old(fs), n) == expected ==> r == Ok(true)
      ensures StuckOnceClaimed(old(fs), n) && n in old(fs).names && StatOf(old(fs), n) == expected ==> r.Err? && n !in fs.names
    {
      var stat := Lstat(n);
      if stat == Err(Missing) {
        return Ok(false);
      }
      if stat.Err? {
        return Err(stat.error);
      }
      if stat.value != expected {
        return Err(CheckFailed);
      }
      var removed := ClaimAndUnlink(n, stat.value, true);
      r := if removed.Ok? then Ok(true) else Err(removed.error);
    }
  }

  function Less(n: nat): nat {
    if n > 0 then n - 1 else 0
  }

  /** A finite set of inode numbers has an upper bound. */
  lemma {:induction false} FreshInoExists(s: set<Ino>)
    ensures exists bound: Ino :: (forall i | i in s :: i < bound) && bound !in s
  {
    if s == {} {
      assert forall i | i in s :: i < 0;
      assert 0 !in s;
    } else {
      var x :| x in s;
      FreshInoExists(s - {x});
      var bound: Ino :| (forall i | i in s - {x} :: i < bound) && bound !in s - {x};
      var b: Ino := if x < bound then bound else x + 1;
      assert forall i | i in s :: i in s - {x} || i == x;
      assert forall i | i in s :: i < b;
      assert b !in s;
    }
  }

  /** A claimed entry is untouched, removed, or back under its own name. */
  ghost predicate MovesBack(fs: FS, gs: FS, n: Name, c: Name)
    requires c in fs.names && fs.names[c] in fs.inodes
  {
    || gs == fs
    || gs == Unlinked(fs, c)
    || gs == Renamed(fs, c, n)
  }

  lemma MovedBackAffectsOnly(fs: FS, gs: FS, n: Name, c: Name)
    requires n in fs.names && fs.names[n] in fs.inodes && c !in fs.names
    requires c.Cleanup? && c.of == n && MovesBack(Renamed(fs, n, c), gs, n, c)
    ensures OnlyAffects(fs, gs, n)
    ensures gs == Unlinked(Renamed(fs, n, c), c) ==> gs.names == fs.names - {n}
  {
    var claimed := Renamed(fs, n, c);
    if gs == Unlinked(claimed, c) {
      assert gs.names.Keys == (fs.names - {n}).Keys;
      assert gs.names == fs.names - {n};
    }
  }
}
