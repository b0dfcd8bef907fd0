/** Copying a tree into the private stage, through calls that may fail.

    A copy reads every file twice, once to hash it and once to copy it, and leaves in the stage
    whatever its calls leave there. */
module TreeCopy {
  import opened Wrappers
  import opened ShortReads
  import opened StageCalls
  import opened CopyBudget
  import opened TreePasses

  const PRIVATE_DIR := 0x1C0
  const PRIVATE_FILE := 0x180

  /** The same entries, but for the bytes of files and perhaps for modes. */
  predicate SameEntries(f: Forest, g: Forest, modes: bool) {
    match f
    case Nil => g.Nil?
    case Cons(name, node, rest) => g.Cons? && g.name == name && SameKind(node, g.node, modes) && SameEntries(rest, g.rest, modes)
  }

  predicate SameKind(a: Node, b: Node, modes: bool) {
    match a
    case File(_, mode, nlink) => b.File? && b.nlink == nlink && (modes ==> b.mode == mode)
    case Dir(mode, children) => b.Dir? && (modes ==> b.mode == mode) && SameEntries(children, b.children, modes)
    case Special => b.Special?
  }

  lemma {:induction false} SameEntriesAlike(f: Forest, g: Forest, modes: bool)
    requires SameEntries(f, g, modes)
    ensures Count(f) == Count(g) && (Ordinary(f) <==> Ordinary(g)) && (Unlinked(f) <==> Unlinked(g))
    ensures (DistinctNames(f) <==> DistinctNames(g)) && forall name :: HasName(f, name) <==> HasName(g, name)
  {
    if f.Cons? {
      SameEntriesAlike(f.rest, g.rest, modes);
      if f.node.Dir? {
        SameEntriesAlike(f.node.children, g.node.children, modes);
      }
    }
  }

  /** Both readings of every file have one digest. */
  predicate SameDigests(f: Forest, again: Forest, hash: Bytes -> string) {
    f.Cons? && again.Cons? ==>
      && (f.node.File? && again.node.File? ==> hash(f.node.data) == hash(again.node.data))
      && (f.node.Dir? && again.node.Dir? ==> SameDigests(f.node.children, again.node.children, hash))
      && SameDigests(f.rest, again.rest, hash)
  }

  /** No file alone exceeds the limit. */
  predicate SmallFiles(f: Forest) {
    f.Cons? ==>
      && (f.node.File? ==> |f.node.data| <= MAX_TREE_FILE_BYTES)
      && (f.node.Dir? ==> SmallFiles(f.node.children)) && SmallFiles(f.rest)
  }

  lemma {:induction false} BoundedHasSmallFiles(f: Forest)
    requires Size(f) <= MAX_TREE_FILE_BYTES
    ensures SmallFiles(f)
  {
    if f.Cons? {
      if f.node.Dir? {
        BoundedHasSmallFiles(f.node.children);
      }
      BoundedHasSmallFiles(f.rest);
    }
  }

  /** What a copy asks of the source, whose second reading may differ from its first. */
  predicate Copyable(f: Forest, again: Forest, hash: Bytes -> string) {
    Ordinary(f) && Unlinked(f) && SmallFiles(f) && SmallFiles(again) && SameDigests(f, again, hash)
  }

  /** The scratch name under which a file is written. */
  function TempName(name: string): string {
    "." + name + ".tmp"
  }

  function Entry(name: string, node: Node): Forest {
    Cons(name, node, Nil)
  }

  /** `_cleanup_temporary_file`: the scratch file may survive its removal. */
  method DiscardTemp(temp: Forest, calls: Calls) returns (left: Forest)
    modifies calls
    ensures calls.made >= old(calls.made)
    ensures left == temp || left == Nil
  {
    var ok, done := calls.Do();
    left := if done then Nil else temp;
  }

  /** Creates the scratch file, fills it from the second reading and sets its mode. */
  method WriteTemp(name: string, again: Bytes, mode: nat, budget: Budget, cuts: nat -> nat, calls: Calls)
    returns (r: Option<Bytes>, temp: Forest)
    requires budget.Valid()
    modifies budget, calls
    ensures budget.Valid() && calls.made >= old(calls.made)
    ensures r.Some? <==>
              && |again| <= MAX_TREE_FILE_BYTES && old(budget.ioBytes) + 2 * |again| <= budget.ioByteLimit
              && old(budget.bytesRead) + |again| <= budget.byteLimit && old(budget.bytesWritten) + |again| <= budget.byteLimit
              && calls.Clean(old(calls.made), calls.made)
    ensures r.Some? ==>
              && r.value == again && temp.Cons? && temp.node.File? && temp.node.nlink == 1
              && (calls.Faithful() ==> temp.node == File(again, mode, 1))
    ensures r.Some? ==>
              budget.Now() == old(budget.Now()).(bytesRead := old(budget.bytesRead) + |again|,
                                                 bytesWritten := old(budget.bytesWritten) + |again|,
                                                 ioBytes := old(budget.ioBytes) + 2 * |again|)
  {
    temp := Nil;
    var ok, done := calls.Do();
    if done {
      temp := Entry(TempName(name), File([], PRIVATE_FILE, 1));
    }
    if !ok {
      return None, temp;
    }
    ok := calls.Look();
    if !ok {
      return None, temp;
    }
    var stream := new ShortStream(again, cuts);
    var copied, stored := budget.CopyFile(stream, MAX_TREE_FILE_BYTES, calls);
    temp := Entry(TempName(name), File(stored, PRIVATE_FILE, 1));
    if copied.None? {
      temp := DiscardTemp(temp, calls);
      return None, temp;
    }
    var after;
    ok, after := calls.SetMode(PRIVATE_FILE, mode);
    temp := Entry(TempName(name), File(stored, after, 1));
    if ok {
      ok := calls.Look();
    }
    if !ok {
      temp := DiscardTemp(temp, calls);
      return None, temp;
    }
    r := copied;
  }

  /** `_copy_file_atomically_from_checked_source`, after hashing the first reading: the file gets
      its name by a rename once all checks have passed. */
  method CopyOneFile(name: string, file: Node, again: Bytes, budget: Budget, cuts: nat -> nat, calls: Calls, hash: Bytes -> string)
    returns (ok: bool, left: Forest)
    requires budget.Valid() && file.File?
    modifies budget, calls
    ensures budget.Valid() && calls.made >= old(calls.made)
    ensures ok <==>
              && file.nlink == 1 && |file.data| <= MAX_TREE_FILE_BYTES && |again| <= MAX_TREE_FILE_BYTES
              && hash(file.data) == hash(again)
              && old(budget.ioBytes) + |file.data| + 2 * |again| <= budget.ioByteLimit
              && old(budget.bytesRead) + |again| <= budget.byteLimit && old(budget.bytesWritten) + |again| <= budget.byteLimit
              && calls.Clean(old(calls.made), calls.made)
    ensures ok ==>
              && left.Cons? && left.name == name && left.rest.Nil? && left.node.File? && left.node.nlink == 1
              && (calls.Faithful() ==> left.node == File(again, file.mode, 1))
    ensures ok ==>
              budget.Now() == old(budget.Now()).(bytesRead := old(budget.bytesRead) + |again|,
                                                 bytesWritten := old(budget.bytesWritten) + |again|,
                                                 ioBytes := old(budget.ioBytes) + |file.data| + 2 * |again|)
  {
    if file.nlink != 1 {
      return false, Nil;
    }
    ok := calls.Look();
    if !ok {
      return false, Nil;
    }
    var stream := new ShortStream(file.data, cuts);
    var digest := budget.HashFile(stream, MAX_TREE_FILE_BYTES, hash);
    if digest.None? {
      return false, Nil;
    }
    var copied;
    copied, left := WriteTemp(name, again, file.mode, budget, cuts, calls);
    if copied.None? {
      return false, left;
    }
    ok := calls.Look();
    if !ok || hash(copied.value) != digest.value {
      left := DiscardTemp(left, calls);
      return false, left;
    }
    var temp := left;
    var done;
    ok, done := calls.Do();
    if done {
      left := Entry(name, temp.node);
    }
    if !ok {
      if !done {
        left := DiscardTemp(left, calls);
      }
      return false, left;
    }
    ok := calls.Look();
  }

  /** The budget that a copy takes: each entry once, each byte once at the first reading and twice
      at the second. */
  predicate Affordable(f: Forest, again: Forest, now: Spent, budget: Budget) {
    && now.entries + Count(f) <= budget.entryLimit && now.ioEntries + Count(f) <= budget.ioEntryLimit
    && now.ioBytes + Size(f) + 2 * Size(again) <= budget.ioByteLimit
    && now.bytesRead + Size(again) <= budget.byteLimit && now.bytesWritten + Size(again) <= budget.byteLimit
  }

  function Paid(f: Forest, again: Forest, now: Spent): Spent {
    Spent(now.entries + Count(f), now.bytesRead + Size(again), now.bytesWritten + Size(again), now.ioEntries + Count(f),
          now.ioBytes + Size(f) + 2 * Size(again))
  }

  /** What a finished copy left. */
  ghost predicate IsCopy(again: Forest, staged: Forest, calls: Calls) {
    SameEntries(again, staged, false) && (calls.Faithful() ==> staged == again)
  }

  /** One subdirectory: created, opened, filled, and only then given its mode. */
  method CopySubdirectory(name: string, dir: Node, again: Node, budget: Budget, cuts: nat -> nat, calls: Calls, hash: Bytes -> string)
    returns (ok: bool, left: Forest)
    requires budget.Valid() && dir.Dir? && SameKind(dir, again, true)
    modifies budget, calls
    ensures budget.Valid() && calls.made >= old(calls.made)
    ensures ok <==>
              && Copyable(dir.children, again.children, hash) && Affordable(dir.children, again.children, old(budget.Now()), budget)
              && calls.Clean(old(calls.made), calls.made)
    ensures ok ==>
              && left.Cons? && left.name == name && left.rest.Nil? && left.node.Dir?
              && IsCopy(again.children, left.node.children, calls) && (calls.Faithful() ==> left.node == again)
    ensures ok ==> budget.Now() == Paid(dir.children, again.children, old(budget.Now()))
    decreases dir, 2
  {
    left := Nil;
    var done;
    ok, done := calls.Do();
    if done {
      left := Entry(name, Dir(PRIVATE_DIR, Nil));
    }
    if !ok {
      return;
    }
    ok := calls.Look();
    if !ok {
      return;
    }
    var below;
    ok, below := CopyDirectory(dir.children, again.children, budget, cuts, calls, hash);
    left := Entry(name, Dir(PRIVATE_DIR, below));
    if !ok {
      return;
    }
    var mode;
    ok, mode := calls.SetMode(PRIVATE_DIR, dir.mode);
    left := Entry(name, Dir(mode, below));
    if !ok {
      return;
    }
    ok := calls.Look();
  }

  /** The first entry alone. */
  function First(f: Forest): Forest
    requires f.Cons?
  {
    Entry(f.name, f.node)
  }

  lemma FirstAndRest(f: Forest, again: Forest, now: Spent, budget: Budget, hash: Bytes -> string)
    requires f.Cons? && SameEntries(f, again, true)
    ensures Copyable(f, again, hash) <==> Copyable(First(f), First(again), hash) && Copyable(f.rest, again.rest, hash)
    ensures Affordable(f, again, now, budget) <==>
              Affordable(First(f), First(again), now, budget) && Affordable(f.rest, again.rest, Paid(First(f), First(again), now), budget)
    ensures Paid(f, again, now) == Paid(f.rest, again.rest, Paid(First(f), First(again), now))
  {
    assert First(f).rest == Nil && First(again).rest == Nil;
    assert Count(f) == Count(First(f)) + Count(f.rest) && Size(f) == Size(First(f)) + Size(f.rest);
    assert Size(again) == Size(First(again)) + Size(again.rest);
  }

  lemma FirstAlone(f: Forest, again: Forest, hash: Bytes -> string)
    requires f.Cons? && again.Cons? && SameKind(f.node, again.node, true)
    ensures Count(First(f)) == 1 + if f.node.Dir? then Count(f.node.children) else 0
    ensures f.node.File? ==> Size(First(f)) == |f.node.data| && Size(First(again)) == |again.node.data|
    ensures f.node.Dir? ==> Size(First(f)) == Size(f.node.children) && Size(First(again)) == Size(again.node.children)
    ensures f.node.Dir? ==> (Copyable(First(f), First(again), hash) <==> Copyable(f.node.children, again.node.children, hash))
    ensures f.node.File? ==>
              (Copyable(First(f), First(again), hash) <==>
                && f.node.nlink == 1 && |f.node.data| <= MAX_TREE_FILE_BYTES && |again.node.data| <= MAX_TREE_FILE_BYTES
                && hash(f.node.data) == hash(again.node.data))
    ensures f.node.Special? ==> !Copyable(First(f), First(again), hash)
  {
    assert First(f).rest == Nil && First(again).rest == Nil;
    assert SmallFiles(Nil) && Ordinary(Nil) && Unlinked(Nil) && SameDigests(Nil, Nil, hash);
    if f.node.Dir? {
      assert SameDigests(First(f), First(again), hash) <==> SameDigests(f.node.children, again.node.children, hash);
      assert SmallFiles(First(f)) <==> SmallFiles(f.node.children);
      assert SmallFiles(First(again)) <==> SmallFiles(again.node.children);
      assert Ordinary(First(f)) <==> Ordinary(f.node.children);
      assert Unlinked(First(f)) <==> Unlinked(f.node.children);
    }
  }

  /** One entry, paid for before it is looked at. */
  method CopyEntry(f: Forest, again: Forest, budget: Budget, cuts: nat -> nat, calls: Calls, hash: Bytes -> string)
    returns (ok: bool, left: Forest)
    requires budget.Valid() && f.Cons? && SameEntries(f, again, true)
    modifies budget, calls
    ensures budget.Valid() && calls.made >= old(calls.made)
    ensures ok <==>
              && Copyable(First(f), First(again), hash) && Affordable(First(f), First(again), old(budget.Now()), budget)
              && calls.Clean(old(calls.made), calls.made)
    ensures ok ==> left.Cons? && left.rest.Nil? && IsCopy(First(again), left, calls)
    ensures ok ==> budget.Now() == Paid(First(f), First(again), old(budget.Now()))
    decreases f, 0
  {
    left := Nil;
    FirstAlone(f, again, hash);
    ok := budget.ConsumeEntry(true);
    if ok {
      ok := calls.Look();
    }
    if !ok {
      return;
    }
    match f.node {
      case Special =>
        ok := false;
      case Dir(_, _) =>
        ok, left := CopySubdirectory(f.name, f.node, again.node, budget, cuts, calls, hash);
      case File(_, _, _) =>
        ok, left := CopyOneFile(f.name, f.node, again.node.data, budget, cuts, calls, hash);
    }
  }

  /** `copy_directory`: `staged` is what the destination directory holds afterwards, also when
      the copy gives up. */
  method CopyDirectory(f: Forest, again: Forest, budget: Budget, cuts: nat -> nat, calls: Calls, hash: Bytes -> string)
    returns (ok: bool, staged: Forest)
    requires budget.Valid() && SameEntries(f, again, true)
    modifies budget, calls
    ensures budget.Valid() && calls.made >= old(calls.made)
    ensures ok <==>
              && Copyable(f, again, hash) && Affordable(f, again, old(budget.Now()), budget)
              && calls.Clean(old(calls.made), calls.made)
    ensures ok ==> IsCopy(again, staged, calls) && budget.Now() == Paid(f, again, old(budget.Now()))
    decreases f, 1
  {
    if f.Nil? {
      return true, Nil;
    }
    FirstAndRest(f, again, budget.Now(), budget, hash);
    ok, staged := CopyEntry(f, again, budget, cuts, calls, hash);
    if !ok {
      return;
    }
    var rest;
    ok, rest := CopyDirectory(f.rest, again.rest, budget, cuts, calls, hash);
    staged := Cons(staged.name, staged.node, rest);
  }
}
