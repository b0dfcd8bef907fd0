/** Installing a directory tree: seven bounded passes, then one rename that never replaces, with
    every call failing as it likes.

    The stage is private: nothing but the installation's own calls changes it. */
module TreeInstall {
  import opened Wrappers
  import opened ShortReads
  import opened StageCalls
  import opened CopyBudget
  import opened TreePasses
  import opened TreeCopy

  const TREE_IO_PASSES := 7
  const TREE_IO_ENTRY_PASSES := 7

  /** What the source shows to each pass; the copy reads every file a second time. */
  datatype Run = Run(checked: Tree, signed: Tree, signedAgain: Tree, copied: Tree, reread: Tree, signedLast: Tree)

  /** Names are distinct within a directory, and the second reading is one of the same entries. */
  ghost predicate ProperRun(run: Run) {
    && DistinctNames(run.signed.children) && DistinctNames(run.signedAgain.children) && DistinctNames(run.copied.children)
    && DistinctNames(run.signedLast.children)
    && SameEntries(run.copied.children, run.reread.children, true) && run.reread.mode == run.copied.mode
  }

  /** A source that nobody changes during the installation. */
  predicate Steady(run: Run) {
    run.checked == run.signed == run.signedAgain == run.copied == run.reread == run.signedLast
  }

  predicate Checked(run: Run) {
    Bounded(run.checked) && Unlinked(run.checked.children) && Bounded(run.signed)
  }

  /** All bytes that the passes pay for. */
  function BytesPaid(run: Run, staged: Tree): nat {
    Size(run.signed.children) + Size(run.signedAgain.children) + Size(run.copied.children) + 2 * Size(run.reread.children)
    + Size(run.signedLast.children) + Size(staged.children)
  }

  function EntriesPaid(run: Run, staged: Tree): nat {
    Count(run.checked.children) + Count(run.signed.children) + Count(run.signedAgain.children) + Count(run.copied.children)
    + Count(run.signedLast.children) + 2 * Count(staged.children)
  }

  /** Everything an installation asks of what the source shows and of what the stage holds. */
  ghost predicate Installable(run: Run, staged: Tree, hash: Bytes -> string) {
    && Checked(run) && Bounded(run.signedAgain) && Alike(run.signed, run.signedAgain, hash)
    && Copyable(run.copied.children, run.reread.children, hash)
    && Count(run.copied.children) <= MAX_TREE_ENTRIES && Size(run.reread.children) <= MAX_TREE_FILE_BYTES
    && Bounded(run.signedLast) && Alike(run.signed, run.signedLast, hash)
    && Bounded(staged) && Alike(run.signed, staged, hash)
    && BytesPaid(run, staged) <= TREE_IO_PASSES * MAX_TREE_FILE_BYTES
  }

  /** The last clause matters only if the first reading of a copied tree is itself too large. */
  lemma SharedAllowanceSuffices(run: Run, staged: Tree)
    requires Bounded(run.signed) && Bounded(run.signedAgain) && Bounded(run.signedLast) && Bounded(staged)
    requires Size(run.copied.children) <= MAX_TREE_FILE_BYTES && Size(run.reread.children) <= MAX_TREE_FILE_BYTES
    ensures BytesPaid(run, staged) <= TREE_IO_PASSES * MAX_TREE_FILE_BYTES
  {
  }

  /** A steady source of acceptable size asks for nothing more, and costs exactly seven passes. */
  lemma SteadyIsInstallable(run: Run, hash: Bytes -> string)
    requires Steady(run)
    ensures EntriesPaid(run, run.reread) == TREE_IO_ENTRY_PASSES * Count(run.checked.children)
    ensures BytesPaid(run, run.reread) == TREE_IO_PASSES * Size(run.checked.children)
    ensures Installable(run, run.reread, hash) <==> Bounded(run.checked) && Unlinked(run.checked.children)
  {
    if Bounded(run.checked) {
      BoundedHasSmallFiles(run.checked.children);
    }
    SameAsItself(run.checked.children, hash);
  }

  lemma {:induction false} SameAsItself(f: Forest, hash: Bytes -> string)
    ensures SameDigests(f, f, hash)
  {
    if f.Cons? {
      SameAsItself(f.rest, hash);
      if f.node.Dir? {
        SameAsItself(f.node.children, hash);
      }
    }
  }

  /** The private directory next to the target. */
  datatype Stage = NoStage | EmptyStage | Holds(tree: Tree)

  predicate Standard(budget: Budget) {
    && budget.entryLimit == MAX_TREE_ENTRIES && budget.byteLimit == MAX_TREE_FILE_BYTES
    && budget.ioEntryLimit == MAX_TREE_ENTRIES * TREE_IO_ENTRY_PASSES && budget.ioByteLimit == MAX_TREE_FILE_BYTES * TREE_IO_PASSES
  }

  class InstallTarget {
    const calls: Calls
    var target: Option<Tree>
    var stage: Stage

    constructor (calls: Calls, target: Option<Tree>)
      ensures this.calls == calls && this.target == target && stage == NoStage
    {
      this.calls, this.target, stage := calls, target, NoStage;
    }

    /** The two passes before anything is created. */
    method CheckSource(run: Run, budget: Budget, cuts: nat -> nat, hash: Bytes -> string) returns (r: Option<Signature>)
      requires ProperRun(run) && budget.Valid() && Standard(budget) && budget.Now() == Spent(0, 0, 0, 0, 0)
      modifies budget, calls
      ensures budget.Valid() && calls.made >= old(calls.made)
      ensures r.Some? <==> Checked(run) && calls.Clean(old(calls.made), calls.made)
      ensures r.Some? ==> Describes(r.value, run.signed, hash)
      ensures r.Some? ==>
                budget.Now() == Spent(0, 0, 0, Count(run.checked.children) + Count(run.signed.children), Size(run.signed.children))
    {
      var ok := calls.Look();
      if !ok {
        return None;
      }
      ok := RejectUnsafeTree(run.checked, budget);
      if !ok {
        return None;
      }
      ok := calls.Look();
      if !ok {
        return None;
      }
      r := TreeSignature(run.signed, budget, cuts, hash);
      if r.Some? {
        ok := calls.Look();
        r := if ok then r else None;
      }
    }

    /** Creates the private directory; `known` tells whether it was seen, and so will be removed. */
    method MakeStage() returns (ok: bool, known: bool)
      requires stage == NoStage
      modifies this`stage, calls
      ensures calls.made >= old(calls.made) && (ok <==> calls.Clean(old(calls.made), calls.made))
      ensures stage == NoStage || stage == EmptyStage
      ensures known ==> stage == EmptyStage
      ensures ok ==> known
    {
      known := false;
      var done;
      ok, done := calls.Do();
      if done {
        stage := EmptyStage;
      }
      if ok {
        ok := calls.Look();
        known := ok;
      }
      if ok {
        ok := calls.Look();
      }
    }

    /** Opens the source, and creates and opens the directory to fill. */
    method OpenDestination() returns (ok: bool)
      modifies this`stage, calls
      ensures calls.made >= old(calls.made) && (ok <==> calls.Clean(old(calls.made), calls.made))
    {
      ok := calls.Look();
      if ok {
        var done;
        ok, done := calls.Do();
        if done {
          stage := Holds(Tree(PRIVATE_DIR, Nil));
        }
      }
      if ok {
        ok := calls.Look();
      }
    }

    /** `_copy_tree_fd`. */
    method FillStage(copied: Tree, reread: Tree, budget: Budget, cuts: nat -> nat, hash: Bytes -> string) returns (ok: bool)
      requires budget.Valid() && stage == EmptyStage && SameEntries(copied.children, reread.children, true) && reread.mode == copied.mode
      modifies this`stage, budget, calls
      ensures budget.Valid() && calls.made >= old(calls.made)
      ensures ok <==>
                && Copyable(copied.children, reread.children, hash)
                && Affordable(copied.children, reread.children, old(budget.Now()), budget)
                && calls.Clean(old(calls.made), calls.made)
      ensures ok ==> stage.Holds? && IsCopy(reread.children, stage.tree.children, calls) && (calls.Faithful() ==> stage.tree == reread)
      ensures ok ==> budget.Now() == Paid(copied.children, reread.children, old(budget.Now()))
    {
      ok := OpenDestination();
      if !ok {
        return;
      }
      var staged;
      ok, staged := CopyDirectory(copied.children, reread.children, budget, cuts, calls, hash);
      stage := Holds(Tree(PRIVATE_DIR, staged));
      if !ok {
        return;
      }
      var mode;
      ok, mode := calls.SetMode(PRIVATE_DIR, copied.mode);
      stage := Holds(Tree(mode, staged));
      if !ok {
        return;
      }
      ok := calls.Look();
    }

    /** One more pass over the source or the stage. */
    method Rescan(tree: Tree, signature: Signature, ghost base: Tree, budget: Budget, cuts: nat -> nat, hash: Bytes -> string)
      returns (ok: bool)
      requires budget.Valid() && DistinctNames(tree.children) && Describes(signature, base, hash)
      modifies budget, calls
      ensures budget.Valid() && calls.made >= old(calls.made)
      ensures ok <==>
                && Bounded(tree) && old(budget.ioEntries) + Count(tree.children) <= budget.ioEntryLimit
                && old(budget.ioBytes) + Size(tree.children) <= budget.ioByteLimit && Alike(base, tree, hash)
                && calls.Clean(old(calls.made), calls.made)
      ensures ok ==> budget.Now() == old(budget.Now()).(ioEntries := old(budget.ioEntries) + Count(tree.children),
                                                        ioBytes := old(budget.ioBytes) + Size(tree.children))
    {
      ok := calls.Look();
      if ok {
        ok := StillMatches(tree, signature, base, budget, cuts, hash);
      }
    }

    /** The two passes over the staged tree. */
    method CheckStaged(tree: Tree, signature: Signature, ghost base: Tree, budget: Budget, cuts: nat -> nat, hash: Bytes -> string)
      returns (ok: bool)
      requires budget.Valid() && DistinctNames(tree.children) && Describes(signature, base, hash)
      modifies budget, calls
      ensures budget.Valid() && calls.made >= old(calls.made)
      ensures ok <==>
                && Bounded(tree) && Unlinked(tree.children) && old(budget.ioEntries) + 2 * Count(tree.children) <= budget.ioEntryLimit
                && old(budget.ioBytes) + Size(tree.children) <= budget.ioByteLimit && Alike(base, tree, hash)
                && calls.Clean(old(calls.made), calls.made)
      ensures ok ==> budget.Now() == old(budget.Now()).(ioEntries := old(budget.ioEntries) + 2 * Count(tree.children),
                                                        ioBytes := old(budget.ioBytes) + Size(tree.children))
    {
      ok := Rescan(tree, signature, base, budget, cuts, hash);
      if ok {
        ok := calls.Look();
      }
      if ok {
        ok := RejectUnsafeTree(tree, budget);
      }
    }

    /** The passes after the stage is made.  Whatever the calls left in the stage, it passes only
        if it has the signature that was taken of the source at the start. */
    method StageTree(run: Run, signature: Signature, budget: Budget, cuts: nat -> nat, hash: Bytes -> string)
      returns (ok: bool, ghost staged: Tree)
      requires ProperRun(run) && Checked(run) && Describes(signature, run.signed, hash) && stage == EmptyStage
      requires budget.Valid() && Standard(budget)
      requires budget.Now() == Spent(0, 0, 0, Count(run.checked.children) + Count(run.signed.children), Size(run.signed.children))
      modifies this`stage, budget, calls
      ensures budget.Valid() && calls.made >= old(calls.made)
      ensures ok <==> Installable(run, staged, hash) && calls.Clean(old(calls.made), calls.made)
      ensures calls.Faithful() && calls.Clean(old(calls.made), calls.made) ==> (ok <==> Installable(run, run.reread, hash))
      ensures ok ==> stage == Holds(staged) && Describes(signature, staged, hash) && (calls.Faithful() ==> staged == run.reread)
      ensures ok ==> budget.ioEntries == EntriesPaid(run, staged) && budget.ioBytes == BytesPaid(run, staged)
    {
      staged := Tree(0, Nil);
      ok := Rescan(run.signedAgain, signature, run.signed, budget, cuts, hash);
      if !ok {
        return;
      }
      SameEntriesAlike(run.copied.children, run.reread.children, true);
      ok := FillStage(run.copied, run.reread, budget, cuts, hash);
      if !ok {
        return;
      }
      staged := stage.tree;
      SameEntriesAlike(run.reread.children, staged.children, false);
      ok := Rescan(run.signedLast, signature, run.signed, budget, cuts, hash);
      if !ok {
        return;
      }
      ok := CheckStaged(stage.tree, signature, run.signed, budget, cuts, hash);
      if ok {
        AlikeIsDescribed(signature, run.signed, staged, hash);
      }
    }

    /** The rename and the checks around it.  `at` is the number of the rename's call, if it is
        made at all. */
    method Activate() returns (ok: bool, ghost at: nat)
      requires stage.Holds?
      modifies this, calls
      ensures calls.made >= old(calls.made)
      ensures ok <==> old(target) == None && calls.Clean(old(calls.made), calls.made)
      ensures ok ==> target == Some(old(stage.tree))
      ensures target == if old(target) == None && calls.Clean(old(calls.made), at) && calls.TakesEffect(at) then Some(old(stage.tree))
                        else old(target)
    {
      ok := calls.Look();
      at := calls.made;
      if !ok {
        return;
      }
      if target.Some? {
        return false, at;
      }
      var done;
      ok, done := calls.Do();
      if done {
        target, stage := Some(stage.tree), EmptyStage;
      }
      if !ok {
        return;
      }
      ok := calls.Look();
      if ok {
        ok := calls.Look();
      }
    }

    /** Empties and removes the stage, as far as the calls allow. */
    method RemoveStage() returns (ok: bool)
      modifies this`stage, calls
      ensures calls.made >= old(calls.made) && (ok <==> calls.Clean(old(calls.made), calls.made))
      ensures ok ==> stage == NoStage
    {
      var done;
      ok, done := calls.Do();
      if done && stage != NoStage {
        stage := EmptyStage;
      }
      if ok {
        ok, done := calls.Do();
        if done {
          stage := NoStage;
        }
      }
    }

    /** `cmd_install_tree`.  The target is bound exactly when the no-clobber rename takes effect,
        and then to a tree with the signature taken at the start, whatever the calls before it
        did; a target that existed is never altered.  If the disk holds what it is told to and
        no call raises, the outcome depends on the source alone. */
    method InstallTree(run: Run, cuts: nat -> nat, hash: Bytes -> string)
      returns (ok: bool, signature: Option<Signature>, spent: Spent, ghost staged: Tree, ghost at: nat)
      requires ProperRun(run) && stage == NoStage
      modifies this, calls
      ensures ok <==>
                && Installable(run, staged, hash) && old(target) == None && calls.Clean(old(calls.made), calls.made)
      ensures target == if && Installable(run, staged, hash) && old(target) == None
                           && calls.Clean(old(calls.made), at) && calls.TakesEffect(at) then Some(staged)
                        else old(target)
      ensures target != old(target) ==>
                signature.Some? && Describes(signature.value, run.signed, hash) && Describes(signature.value, staged, hash)
      ensures target != old(target) && calls.Faithful() ==> staged == run.reread
      ensures target != old(target) ==> spent.ioEntries == EntriesPaid(run, staged) && spent.ioBytes == BytesPaid(run, staged)
      ensures calls.Faithful() && calls.Clean(old(calls.made), calls.made) ==>
                (ok <==> Installable(run, run.reread, hash) && old(target) == None)
      ensures ok ==> target == Some(staged) && stage == NoStage
    {
      staged := Tree(0, Nil);
      var budget := new Budget(MAX_TREE_ENTRIES, MAX_TREE_FILE_BYTES, MAX_TREE_ENTRIES * TREE_IO_ENTRY_PASSES,
                               MAX_TREE_FILE_BYTES * TREE_IO_PASSES);
      signature := CheckSource(run, budget, cuts, hash);
      if signature.None? {
        return false, None, budget.Now(), staged, calls.made;
      }
      var known;
      ok, known, staged, at := StageAndActivate(run, signature.value, budget, cuts, hash);
      spent := budget.Now();
      var closed := Close(known);
      ok := ok && closed;
    }

    /** Everything between the look at the source and the clean-up; `known` tells whether there is a
        stage to remove. */
    method StageAndActivate(run: Run, signature: Signature, budget: Budget, cuts: nat -> nat, hash: Bytes -> string)
      returns (ok: bool, known: bool, ghost staged: Tree, ghost at: nat)
      requires ProperRun(run) && Checked(run) && Describes(signature, run.signed, hash) && stage == NoStage
      requires budget.Valid() && Standard(budget)
      requires budget.Now() == Spent(0, 0, 0, Count(run.checked.children) + Count(run.signed.children), Size(run.signed.children))
      modifies this, budget, calls
      ensures calls.made >= old(calls.made) && (ok ==> known && target == Some(staged))
      ensures ok <==> Installable(run, staged, hash) && old(target) == None && calls.Clean(old(calls.made), calls.made)
      ensures target == if && Installable(run, staged, hash) && old(target) == None
                           && calls.Clean(old(calls.made), at) && calls.TakesEffect(at) then Some(staged)
                        else old(target)
      ensures target != old(target) ==> Describes(signature, staged, hash) && (calls.Faithful() ==> staged == run.reread)
      ensures target != old(target) ==> budget.ioEntries == EntriesPaid(run, staged) && budget.ioBytes == BytesPaid(run, staged)
      ensures calls.Faithful() && calls.Clean(old(calls.made), calls.made) ==>
                (ok <==> Installable(run, run.reread, hash) && old(target) == None)
    {
      staged := Tree(0, Nil);
      ok, known := MakeStage();
      at := calls.made;
      if ok {
        ok, staged := StageTree(run, signature, budget, cuts, hash);
        at := calls.made;
      }
      if ok {
        ok, at := Activate();
      }
    }

    /** Removes a stage that is known, and closes the descriptors. */
    method Close(known: bool) returns (ok: bool)
      modifies this`stage, calls
      ensures calls.made >= old(calls.made) && (ok <==> calls.Clean(old(calls.made), calls.made))
      ensures ok && known ==> stage == NoStage
    {
      ok := true;
      if known {
        ok := RemoveStage();
      }
      var closed := calls.Look();
      ok := ok && closed;
    }
  }
}
