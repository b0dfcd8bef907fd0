/** Directory trees, and the bounded passes that check and sign them.

    A tree is given without the entries that the installation excludes. */
module TreePasses {
  import opened Wrappers
  import opened ShortReads
  import opened CopyBudget

  const MAX_TREE_ENTRIES := 100_000
  const MAX_TREE_FILE_BYTES := 536_870_912

  datatype Node =
    | File(data: Bytes, mode: nat, nlink: nat)
    | Dir(mode: nat, children: Forest)
    | Special     // a symbolic link, or another kind of file

  datatype Forest = Nil | Cons(name: string, node: Node, rest: Forest)

  datatype Tree = Tree(mode: nat, children: Forest)

  type Path = seq<string>

  datatype Sig = DirSig(mode: nat) | FileSig(mode: nat, size: nat, digest: string)

  /* ---------- Sizes ---------- */

  function Count(f: Forest): nat {
    match f
    case Nil => 0
    case Cons(_, node, rest) => 1 + (if node.Dir? then Count(node.children) else 0) + Count(rest)
  }

  function Size(f: Forest): nat {
    match f
    case Nil => 0
    case Cons(_, node, rest) => (match node case File(data, _, _) => |data| case Dir(_, children) => Size(children) case Special => 0) + Size(rest)
  }

  /** Nothing but directories and files. */
  predicate Ordinary(f: Forest) {
    f.Cons? ==> !f.node.Special? && (f.node.Dir? ==> Ordinary(f.node.children)) && Ordinary(f.rest)
  }

  /** No hard links. */
  predicate Unlinked(f: Forest) {
    f.Cons? ==> (f.node.File? ==> f.node.nlink == 1) && (f.node.Dir? ==> Unlinked(f.node.children)) && Unlinked(f.rest)
  }

  predicate HasName(f: Forest, name: string) {
    f.Cons? && (f.name == name || HasName(f.rest, name))
  }

  predicate DistinctNames(f: Forest) {
    f.Cons? ==> !HasName(f.rest, f.name) && DistinctNames(f.rest) && (f.node.Dir? ==> DistinctNames(f.node.children))
  }

  /* ---------- One directory ---------- */

  function Len(f: Forest): nat {
    if f.Nil? then 0 else 1 + Len(f.rest)
  }

  function SizeHere(f: Forest): nat {
    if f.Nil? then 0 else (if f.node.File? then |f.node.data| else 0) + SizeHere(f.rest)
  }

  predicate OrdinaryHere(f: Forest) {
    f.Cons? ==> !f.node.Special? && OrdinaryHere(f.rest)
  }

  predicate UnlinkedHere(f: Forest) {
    f.Cons? ==> (f.node.File? ==> f.node.nlink == 1) && UnlinkedHere(f.rest)
  }

  /** A directory waiting to be read. */
  datatype Pending = Pending(path: Path, children: Forest)

  function SubDirs(path: Path, f: Forest): seq<Pending> {
    if f.Nil? then []
    else (if f.node.Dir? then [Pending(path + [f.name], f.node.children)] else []) + SubDirs(path, f.rest)
  }

  function CountAll(pending: seq<Pending>): nat {
    if pending == [] then 0 else Count(pending[|pending| - 1].children) + CountAll(pending[..|pending| - 1])
  }

  function SizeAll(pending: seq<Pending>): nat {
    if pending == [] then 0 else Size(pending[|pending| - 1].children) + SizeAll(pending[..|pending| - 1])
  }

  predicate OrdinaryAll(pending: seq<Pending>) {
    pending != [] ==> Ordinary(pending[|pending| - 1].children) && OrdinaryAll(pending[..|pending| - 1])
  }

  predicate UnlinkedAll(pending: seq<Pending>) {
    pending != [] ==> Unlinked(pending[|pending| - 1].children) && UnlinkedAll(pending[..|pending| - 1])
  }

  lemma {:induction false} AppendAll(a: seq<Pending>, b: seq<Pending>)
    ensures CountAll(a + b) == CountAll(a) + CountAll(b) && SizeAll(a + b) == SizeAll(a) + SizeAll(b)
    ensures OrdinaryAll(a + b) <==> OrdinaryAll(a) && OrdinaryAll(b)
    ensures UnlinkedAll(a + b) <==> UnlinkedAll(a) && UnlinkedAll(b)
    decreases |b|
  {
    if b == [] {
      assert a + b == a;
    } else {
      assert (a + b)[..|a + b| - 1] == a + b[..|b| - 1];
      AppendAll(a, b[..|b| - 1]);
    }
  }

  /** A directory's totals are its own plus those of its subdirectories. */
  lemma {:induction false} Unfolded(path: Path, f: Forest)
    ensures Count(f) == Len(f) + CountAll(SubDirs(path, f)) && Size(f) == SizeHere(f) + SizeAll(SubDirs(path, f))
    ensures Ordinary(f) <==> OrdinaryHere(f) && OrdinaryAll(SubDirs(path, f))
    ensures Unlinked(f) <==> UnlinkedHere(f) && UnlinkedAll(SubDirs(path, f))
  {
    if f.Nil? {
    } else {
      Unfolded(path, f.rest);
      if f.node.Dir? {
        var first := [Pending(path + [f.name], f.node.children)];
        assert first[..0] == [];
        AppendAll(first, SubDirs(path, f.rest));
      } else {
        assert SubDirs(path, f) == SubDirs(path, f.rest);
      }
    }
  }

  /** The part of `_bounded_tree_walk` that reads one directory. */
  method ScanDirectory(dir: Pending, inspectedEntries: nat, inspectedBytes: nat, budget: Budget)
    returns (ok: bool, entries: nat, bytes: nat, subDirs: seq<Pending>)
    requires budget.Valid() && inspectedEntries <= MAX_TREE_ENTRIES && inspectedBytes <= MAX_TREE_FILE_BYTES
    modifies budget
    ensures budget.Valid()
    ensures ok <==>
              && OrdinaryHere(dir.children) && inspectedEntries + Len(dir.children) <= MAX_TREE_ENTRIES
              && inspectedBytes + SizeHere(dir.children) <= MAX_TREE_FILE_BYTES
              && old(budget.ioEntries) + Len(dir.children) <= budget.ioEntryLimit
    ensures ok ==> entries == inspectedEntries + Len(dir.children) && bytes == inspectedBytes + SizeHere(dir.children)
    ensures ok ==> subDirs == SubDirs(dir.path, dir.children)
    ensures ok ==> budget.Now() == old(budget.Now()).(ioEntries := old(budget.ioEntries) + Len(dir.children))
  {
    var left := dir.children;
    entries, bytes, subDirs := inspectedEntries, inspectedBytes, [];
    while left.Cons?
      invariant budget.Valid()
      invariant entries + Len(left) == inspectedEntries + Len(dir.children)
      invariant bytes + SizeHere(left) == inspectedBytes + SizeHere(dir.children)
      invariant subDirs + SubDirs(dir.path, left) == SubDirs(dir.path, dir.children)
      invariant OrdinaryHere(dir.children) <==> OrdinaryHere(left)
      invariant inspectedEntries <= entries <= MAX_TREE_ENTRIES && inspectedBytes <= bytes <= MAX_TREE_FILE_BYTES
      invariant budget.Now() == old(budget.Now()).(ioEntries := old(budget.ioEntries) + (entries - inspectedEntries))
      decreases left
    {
      entries := entries + 1;
      if entries > MAX_TREE_ENTRIES {
        return false, entries, bytes, subDirs;
      }
      var consumed := budget.ConsumeEntry(false);
      if !consumed {
        return false, entries, bytes, subDirs;
      }
      match left.node {
        case Special => return false, entries, bytes, subDirs;
        case Dir(_, children) => subDirs := subDirs + [Pending(dir.path + [left.name], children)];
        case File(data, _, _) =>
          bytes := bytes + |data|;
          if bytes > MAX_TREE_FILE_BYTES {
            return false, entries, bytes, subDirs;
          }
      }
      left := left.rest;
    }
    ok := true;
  }

  /* ---------- Walking a tree ---------- */

  /** What one pass over a tree accepts by itself. */
  predicate Bounded(t: Tree) {
    Ordinary(t.children) && Count(t.children) <= MAX_TREE_ENTRIES && Size(t.children) <= MAX_TREE_FILE_BYTES
  }

  method CheckLinks(f: Forest) returns (ok: bool)
    ensures ok <==> UnlinkedHere(f)
  {
    var left := f;
    while left.Cons?
      invariant UnlinkedHere(f) <==> UnlinkedHere(left)
      decreases left
    {
      if left.node.File? && left.node.nlink != 1 {
        return false;
      }
      left := left.rest;
    }
    ok := true;
  }

  /** Taking the last pending directory and adding its subdirectories keeps the totals. */
  lemma Popped(pending: seq<Pending>)
    requires pending != []
    ensures var dir := pending[|pending| - 1];
            var next := pending[..|pending| - 1] + SubDirs(dir.path, dir.children);
            && CountAll(pending) == Len(dir.children) + CountAll(next) && SizeAll(pending) == SizeHere(dir.children) + SizeAll(next)
            && (OrdinaryAll(pending) <==> OrdinaryHere(dir.children) && OrdinaryAll(next))
            && (UnlinkedAll(pending) <==> UnlinkedHere(dir.children) && UnlinkedAll(next))
            && (Len(dir.children) == 0 ==> |next| < |pending|)
  {
    var dir := pending[|pending| - 1];
    Unfolded(dir.path, dir.children);
    AppendAll(pending[..|pending| - 1], SubDirs(dir.path, dir.children));
  }

  /** `_reject_unsafe_tree`: one entry pass. */
  method RejectUnsafeTree(tree: Tree, budget: Budget) returns (ok: bool)
    requires budget.Valid()
    modifies budget
    ensures budget.Valid()
    ensures ok <==> Bounded(tree) && Unlinked(tree.children) && old(budget.ioEntries) + Count(tree.children) <= budget.ioEntryLimit
    ensures ok ==> budget.Now() == old(budget.Now()).(ioEntries := old(budget.ioEntries) + Count(tree.children))
  {
    var pending := [Pending([], tree.children)];
    var entries: nat, bytes: nat := 0, 0;
    assert pending[..0] == [];
    while pending != []
      invariant budget.Valid() && entries <= MAX_TREE_ENTRIES && bytes <= MAX_TREE_FILE_BYTES
      invariant entries + CountAll(pending) == Count(tree.children) && bytes + SizeAll(pending) == Size(tree.children)
      invariant OrdinaryAll(pending) <==> Ordinary(tree.children)
      invariant UnlinkedAll(pending) <==> Unlinked(tree.children)
      invariant budget.Now() == old(budget.Now()).(ioEntries := old(budget.ioEntries) + entries)
      decreases CountAll(pending), |pending|
    {
      Popped(pending);
      var dir := pending[|pending| - 1];
      pending := pending[..|pending| - 1];
      var subDirs;
      ok, entries, bytes, subDirs := ScanDirectory(dir, entries, bytes, budget);
      if !ok {
        return;
      }
      ok := CheckLinks(dir.children);
      if !ok {
        return;
      }
      pending := pending + subDirs;
    }
    ok := true;
  }

  /* ---------- Signatures ---------- */

  function NodeSig(node: Node, hash: Bytes -> string): Sig
    requires !node.Special?
  {
    match node
    case File(data, mode, _) => FileSig(mode, |data|, hash(data))
    case Dir(mode, _) => DirSig(mode)
  }

  /** The signature of one of the directory's own entries. */
  ghost predicate SignedHere(path: Path, f: Forest, hash: Bytes -> string, p: Path, s: Sig) {
    f.Cons? && ((p == path + [f.name] && !f.node.Special? && s == NodeSig(f.node, hash)) || SignedHere(path, f.rest, hash, p, s))
  }

  /** The signature of an entry anywhere below the directory. */
  ghost predicate Signed(path: Path, f: Forest, hash: Bytes -> string, p: Path, s: Sig)
    decreases f
  {
    f.Cons? &&
      (|| (p == path + [f.name] && !f.node.Special? && s == NodeSig(f.node, hash))
       || (f.node.Dir? && Signed(path + [f.name], f.node.children, hash, p, s))
       || Signed(path, f.rest, hash, p, s))
  }

  ghost predicate SignedAll(pending: seq<Pending>, hash: Bytes -> string, p: Path, s: Sig) {
    pending != [] &&
      (|| Signed(pending[|pending| - 1].path, pending[|pending| - 1].children, hash, p, s)
       || SignedAll(pending[..|pending| - 1], hash, p, s))
  }

  lemma {:induction false} AppendSigned(a: seq<Pending>, b: seq<Pending>, hash: Bytes -> string, p: Path, s: Sig)
    ensures SignedAll(a + b, hash, p, s) <==> SignedAll(a, hash, p, s) || SignedAll(b, hash, p, s)
    decreases |b|
  {
    if b == [] {
      assert a + b == a;
    } else {
      assert (a + b)[..|a + b| - 1] == a + b[..|b| - 1];
      AppendSigned(a, b[..|b| - 1], hash, p, s);
    }
  }

  /** Below a directory lie its own entries and what lies below its subdirectories. */
  lemma {:induction false} UnfoldedSigned(path: Path, f: Forest, hash: Bytes -> string, p: Path, s: Sig)
    ensures Signed(path, f, hash, p, s) <==> SignedHere(path, f, hash, p, s) || SignedAll(SubDirs(path, f), hash, p, s)
  {
    if f.Nil? {
    } else {
      UnfoldedSigned(path, f.rest, hash, p, s);
      if f.node.Dir? {
        var first := [Pending(path + [f.name], f.node.children)];
        assert first[..0] == [];
        AppendSigned(first, SubDirs(path, f.rest), hash, p, s);
      } else {
        assert SubDirs(path, f) == SubDirs(path, f.rest);
      }
    }
  }

  lemma PoppedSigned(pending: seq<Pending>, hash: Bytes -> string)
    requires pending != []
    ensures var dir := pending[|pending| - 1];
            var next := pending[..|pending| - 1] + SubDirs(dir.path, dir.children);
            forall p, s :: SignedAll(pending, hash, p, s) <==> SignedHere(dir.path, dir.children, hash, p, s) || SignedAll(next, hash, p, s)
  {
    var dir := pending[|pending| - 1];
    var next := pending[..|pending| - 1] + SubDirs(dir.path, dir.children);
    forall p, s
      ensures SignedAll(pending, hash, p, s) <==> SignedHere(dir.path, dir.children, hash, p, s) || SignedAll(next, hash, p, s)
    {
      UnfoldedSigned(dir.path, dir.children, hash, p, s);
      AppendSigned(pending[..|pending| - 1], SubDirs(dir.path, dir.children), hash, p, s);
    }
  }

  /** Signed paths start with the directory's path and one of its names. */
  lemma {:induction false} SignedIsBelow(path: Path, f: Forest, hash: Bytes -> string, p: Path, s: Sig)
    requires Signed(path, f, hash, p, s)
    ensures |p| > |path| && p[..|path|] == path && HasName(f, p[|path|])
    decreases f
  {
    if p == path + [f.name] && !f.node.Special? && s == NodeSig(f.node, hash) {
    } else if f.node.Dir? && Signed(path + [f.name], f.node.children, hash, p, s) {
      SignedIsBelow(path + [f.name], f.node.children, hash, p, s);
      assert p[..|path|] == p[..|path| + 1][..|path|];
      assert p[|path|] == p[..|path| + 1][|path|];
    } else {
      SignedIsBelow(path, f.rest, hash, p, s);
    }
  }

  /** With distinct names a path has one signature. */
  lemma {:induction false} SignedOnce(path: Path, f: Forest, hash: Bytes -> string, p: Path, s: Sig, t: Sig)
    requires DistinctNames(f) && Signed(path, f, hash, p, s) && Signed(path, f, hash, p, t)
    ensures s == t
    decreases f
  {
    SignedIsBelow(path, f, hash, p, s);
    if p[|path|] != f.name {
      OtherEntry(path, f, hash, p, s);
      OtherEntry(path, f, hash, p, t);
      SignedOnce(path, f.rest, hash, p, s, t);
    } else {
      ThisEntry(path, f, hash, p, s);
      ThisEntry(path, f, hash, p, t);
      if |p| > |path| + 1 {
        SignedOnce(path + [f.name], f.node.children, hash, p, s, t);
      }
    }
  }

  lemma OtherEntry(path: Path, f: Forest, hash: Bytes -> string, p: Path, s: Sig)
    requires Signed(path, f, hash, p, s) && |p| > |path| && p[|path|] != f.name
    ensures Signed(path, f.rest, hash, p, s)
  {
    if f.node.Dir? && Signed(path + [f.name], f.node.children, hash, p, s) {
      SignedIsBelow(path + [f.name], f.node.children, hash, p, s);
      assert p[|path|] == p[..|path| + 1][|path|];
    }
  }

  lemma ThisEntry(path: Path, f: Forest, hash: Bytes -> string, p: Path, s: Sig)
    requires DistinctNames(f) && Signed(path, f, hash, p, s) && |p| > |path| && p[|path|] == f.name
    ensures |p| == |path| + 1 ==> !f.node.Special? && s == NodeSig(f.node, hash)
    ensures |p| > |path| + 1 ==> f.node.Dir? && Signed(path + [f.name], f.node.children, hash, p, s)
  {
    if Signed(path, f.rest, hash, p, s) {
      SignedIsBelow(path, f.rest, hash, p, s);
    }
    if f.node.Dir? && Signed(path + [f.name], f.node.children, hash, p, s) {
      SignedIsBelow(path + [f.name], f.node.children, hash, p, s);
    }
  }

  type Signature = map<Path, Sig>

  /** The signature describes exactly this tree. */
  ghost predicate Describes(signature: Signature, t: Tree, hash: Bytes -> string) {
    && [] in signature && signature[[]] == DirSig(t.mode)
    && (forall p | p in signature && p != [] :: Signed([], t.children, hash, p, signature[p]))
    && (forall p, s | Signed([], t.children, hash, p, s) :: p in signature && signature[p] == s)
  }

  /** Two signatures of one tree are equal. */
  lemma SameTreeSameSignature(a: Signature, b: Signature, t: Tree, hash: Bytes -> string)
    requires Describes(a, t, hash) && Describes(b, t, hash)
    ensures a == b
  {
    forall p ensures p in a <==> p in b {
      if p != [] && p in a {
        assert Signed([], t.children, hash, p, a[p]);
      }
      if p != [] && p in b {
        assert Signed([], t.children, hash, p, b[p]);
      }
    }
    forall p | p in a ensures a[p] == b[p] {
      if p != [] {
        assert Signed([], t.children, hash, p, a[p]);
      }
    }
  }

  /** The signature gained exactly the directory's own entries that `wanted` picks. */
  ghost predicate Extended(before: Signature, after: Signature, path: Path, f: Forest, hash: Bytes -> string) {
    && (forall p | p in before :: p in after)
    && (forall p | p in after :: (p in before && after[p] == before[p]) || SignedHere(path, f, hash, p, after[p]))
  }

  lemma ExtendedTwice(a: Signature, b: Signature, c: Signature, path: Path, f: Forest, hash: Bytes -> string)
    requires Extended(a, b, path, f, hash) && Extended(b, c, path, f, hash)
    ensures Extended(a, c, path, f, hash)
  {
  }

  /** The entries of the rest of a directory are entries of the directory. */
  ghost predicate Covers(path: Path, f: Forest, left: Forest, hash: Bytes -> string) {
    forall p, s | SignedHere(path, left, hash, p, s) :: SignedHere(path, f, hash, p, s)
  }

  /** The directory's own entries of one kind are signed, but for those still left. */
  ghost predicate DoneBut(path: Path, f: Forest, left: Forest, hash: Bytes -> string, signature: Signature, dirs: bool) {
    forall p, s | SignedHere(path, f, hash, p, s) && s.DirSig? == dirs :: p in signature || SignedHere(path, left, hash, p, s)
  }

  method SignDirs(dir: Pending, signature: Signature, hash: Bytes -> string) returns (r: Signature)
    ensures Extended(signature, r, dir.path, dir.children, hash) && DoneBut(dir.path, dir.children, Nil, hash, r, true)
  {
    r := signature;
    var left := dir.children;
    while left.Cons?
      invariant Extended(signature, r, dir.path, dir.children, hash) && Covers(dir.path, dir.children, left, hash)
      invariant DoneBut(dir.path, dir.children, left, hash, r, true)
      decreases left
    {
      if left.node.Dir? {
        assert SignedHere(dir.path, left, hash, dir.path + [left.name], DirSig(left.node.mode));
        r := r[dir.path + [left.name] := DirSig(left.node.mode)];
      }
      left := left.rest;
    }
  }

  /** Hashes and signs the directory's files. */
  method SignFiles(dir: Pending, signature: Signature, hashedBytes: nat, budget: Budget, cuts: nat -> nat, hash: Bytes -> string)
    returns (ok: bool, r: Signature, hashed: nat)
    requires budget.Valid() && hashedBytes <= MAX_TREE_FILE_BYTES && OrdinaryHere(dir.children)
    modifies budget
    ensures budget.Valid()
    ensures ok <==>
              && hashedBytes + SizeHere(dir.children) <= MAX_TREE_FILE_BYTES
              && old(budget.ioBytes) + SizeHere(dir.children) <= budget.ioByteLimit
    ensures ok ==> hashed == hashedBytes + SizeHere(dir.children)
    ensures ok ==> Extended(signature, r, dir.path, dir.children, hash) && DoneBut(dir.path, dir.children, Nil, hash, r, false)
    ensures ok ==> budget.Now() == old(budget.Now()).(ioBytes := old(budget.ioBytes) + SizeHere(dir.children))
  {
    r, hashed := signature, hashedBytes;
    var left := dir.children;
    while left.Cons?
      invariant budget.Valid() && OrdinaryHere(left) && hashedBytes <= hashed <= MAX_TREE_FILE_BYTES
      invariant hashed + SizeHere(left) == hashedBytes + SizeHere(dir.children)
      invariant Extended(signature, r, dir.path, dir.children, hash) && Covers(dir.path, dir.children, left, hash)
      invariant DoneBut(dir.path, dir.children, left, hash, r, false)
      invariant budget.Now() == old(budget.Now()).(ioBytes := old(budget.ioBytes) + (hashed - hashedBytes))
      decreases left
    {
      if left.node.File? {
        var stream := new ShortStream(left.node.data, cuts);
        var digest := budget.HashFile(stream, MAX_TREE_FILE_BYTES - hashed, hash);
        if digest.None? {
          return false, r, hashed;
        }
        hashed := hashed + |left.node.data|;
        assert SignedHere(dir.path, left, hash, dir.path + [left.name], NodeSig(left.node, hash));
        r := r[dir.path + [left.name] := FileSig(left.node.mode, |left.node.data|, digest.value)];
      }
      left := left.rest;
    }
    ok := true;
  }

  /** Reads, hashes and signs one directory. */
  method SignDirectory(dir: Pending, signature: Signature, entries: nat, bytes: nat, budget: Budget, cuts: nat -> nat,
                       hash: Bytes -> string)
    returns (ok: bool, r: Signature, newEntries: nat, newBytes: nat, subDirs: seq<Pending>)
    requires budget.Valid() && entries <= MAX_TREE_ENTRIES && bytes <= MAX_TREE_FILE_BYTES
    modifies budget
    ensures budget.Valid()
    ensures ok <==>
              && OrdinaryHere(dir.children) && entries + Len(dir.children) <= MAX_TREE_ENTRIES
              && bytes + SizeHere(dir.children) <= MAX_TREE_FILE_BYTES
              && old(budget.ioEntries) + Len(dir.children) <= budget.ioEntryLimit
              && old(budget.ioBytes) + SizeHere(dir.children) <= budget.ioByteLimit
    ensures ok ==> newEntries == entries + Len(dir.children) && newBytes == bytes + SizeHere(dir.children)
    ensures ok ==> subDirs == SubDirs(dir.path, dir.children)
    ensures ok ==> Extended(signature, r, dir.path, dir.children, hash)
    ensures ok ==> forall p, s | SignedHere(dir.path, dir.children, hash, p, s) :: p in r
    ensures ok ==> budget.Now() == old(budget.Now()).(ioEntries := old(budget.ioEntries) + Len(dir.children),
                                                      ioBytes := old(budget.ioBytes) + SizeHere(dir.children))
  {
    r := signature;
    ok, newEntries, newBytes, subDirs := ScanDirectory(dir, entries, bytes, budget);
    if !ok {
      return;
    }
    var withDirs := SignDirs(dir, signature, hash);
    var hashed;
    ok, r, hashed := SignFiles(dir, withDirs, bytes, budget, cuts, hash);
    if ok {
      ExtendedTwice(signature, withDirs, r, dir.path, dir.children, hash);
    }
  }

  /** Everything still pending belongs to the tree, and everything of the tree is signed or pending. */
  ghost predicate Signing(signature: Signature, pending: seq<Pending>, t: Tree, hash: Bytes -> string) {
    && [] in signature && signature[[]] == DirSig(t.mode)
    && (forall p | p in signature && p != [] :: Signed([], t.children, hash, p, signature[p]))
    && (forall p, s | SignedAll(pending, hash, p, s) :: Signed([], t.children, hash, p, s))
    && (forall p, s | Signed([], t.children, hash, p, s) :: p in signature || SignedAll(pending, hash, p, s))
  }

  lemma SigningNext(a: Signature, b: Signature, pending: seq<Pending>, t: Tree, hash: Bytes -> string)
    requires pending != [] && Signing(a, pending, t, hash)
    requires var dir := pending[|pending| - 1];
             && Extended(a, b, dir.path, dir.children, hash)
             && forall p, s | SignedHere(dir.path, dir.children, hash, p, s) :: p in b
    ensures var dir := pending[|pending| - 1];
            Signing(b, pending[..|pending| - 1] + SubDirs(dir.path, dir.children), t, hash)
  {
    PoppedSigned(pending, hash);
    forall p, s | Signed([], t.children, hash, p, s) ensures p != [] {
      SignedIsBelow([], t.children, hash, p, s);
    }
    var dir := pending[|pending| - 1];
    forall p | p in b && p != [] ensures Signed([], t.children, hash, p, b[p]) {
      if !(p in a && b[p] == a[p]) {
        assert SignedHere(dir.path, dir.children, hash, p, b[p]);
      }
    }
    assert !SignedHere(dir.path, dir.children, hash, [], b[[]]);
  }

  lemma SigningDone(signature: Signature, t: Tree, hash: Bytes -> string)
    requires DistinctNames(t.children) && Signing(signature, [], t, hash)
    ensures Describes(signature, t, hash)
  {
    forall p, s | Signed([], t.children, hash, p, s) ensures p in signature && signature[p] == s {
      SignedIsBelow([], t.children, hash, p, s);
      SignedOnce([], t.children, hash, p, s, signature[p]);
    }
  }

  /** `_tree_signature`: one entry pass and one byte pass. */
  method TreeSignature(tree: Tree, budget: Budget, cuts: nat -> nat, hash: Bytes -> string) returns (r: Option<Signature>)
    requires budget.Valid() && DistinctNames(tree.children)
    modifies budget
    ensures budget.Valid()
    ensures r.Some? <==>
              && Bounded(tree) && old(budget.ioEntries) + Count(tree.children) <= budget.ioEntryLimit
              && old(budget.ioBytes) + Size(tree.children) <= budget.ioByteLimit
    ensures r.Some? ==> Describes(r.value, tree, hash)
    ensures r.Some? ==> budget.Now() == old(budget.Now()).(ioEntries := old(budget.ioEntries) + Count(tree.children),
                                                           ioBytes := old(budget.ioBytes) + Size(tree.children))
  {
    var signature: Signature := map[[] := DirSig(tree.mode)];
    var pending := [Pending([], tree.children)];
    var entries: nat, bytes: nat := 0, 0;
    assert pending[..0] == [];
    while pending != []
      invariant budget.Valid() && entries <= MAX_TREE_ENTRIES && bytes <= MAX_TREE_FILE_BYTES
      invariant entries + CountAll(pending) == Count(tree.children) && bytes + SizeAll(pending) == Size(tree.children)
      invariant OrdinaryAll(pending) <==> Ordinary(tree.children)
      invariant Signing(signature, pending, tree, hash)
      invariant budget.Now() == old(budget.Now()).(ioEntries := old(budget.ioEntries) + entries, ioBytes := old(budget.ioBytes) + bytes)
      decreases CountAll(pending), |pending|
    {
      Popped(pending);
      var dir := pending[|pending| - 1];
      var ok, next, subDirs;
      ok, next, entries, bytes, subDirs := SignDirectory(dir, signature, entries, bytes, budget, cuts, hash);
      if !ok {
        return None;
      }
      SigningNext(signature, next, pending, tree, hash);
      signature := next;
      pending := pending[..|pending| - 1] + subDirs;
    }
    SigningDone(signature, tree, hash);
    r := Some(signature);
  }

  /* ---------- Comparing signatures ---------- */

  /** One signature describes both trees. */
  ghost predicate Alike(a: Tree, b: Tree, hash: Bytes -> string) {
    a.mode == b.mode && forall p, s :: Signed([], a.children, hash, p, s) <==> Signed([], b.children, hash, p, s)
  }

  lemma EqualSignaturesMeanAlike(x: Signature, y: Signature, a: Tree, b: Tree, hash: Bytes -> string)
    requires Describes(x, a, hash) && Describes(y, b, hash)
    ensures x == y <==> Alike(a, b, hash)
  {
    if Alike(a, b, hash) {
      assert Describes(x, b, hash);
      SameTreeSameSignature(x, y, b, hash);
    } else if x == y && a.mode == b.mode {
      forall p, s ensures Signed([], a.children, hash, p, s) <==> Signed([], b.children, hash, p, s) {
        if Signed([], a.children, hash, p, s) {
          SignedIsBelow([], a.children, hash, p, s);
        }
        if Signed([], b.children, hash, p, s) {
          SignedIsBelow([], b.children, hash, p, s);
        }
      }
    }
  }

  lemma AlikeIsDescribed(signature: Signature, a: Tree, b: Tree, hash: Bytes -> string)
    requires Describes(signature, a, hash) && Alike(a, b, hash)
    ensures Describes(signature, b, hash)
  {
  }

  /** Signs a tree and compares with the signature of `base`. */
  method StillMatches(tree: Tree, signature: Signature, ghost base: Tree, budget: Budget, cuts: nat -> nat, hash: Bytes -> string)
    returns (ok: bool)
    requires budget.Valid() && DistinctNames(tree.children) && Describes(signature, base, hash)
    modifies budget
    ensures budget.Valid()
    ensures ok <==>
              && Bounded(tree) && old(budget.ioEntries) + Count(tree.children) <= budget.ioEntryLimit
              && old(budget.ioBytes) + Size(tree.children) <= budget.ioByteLimit && Alike(base, tree, hash)
    ensures ok ==> budget.Now() == old(budget.Now()).(ioEntries := old(budget.ioEntries) + Count(tree.children),
                                                      ioBytes := old(budget.ioBytes) + Size(tree.children))
  {
    var again := TreeSignature(tree, budget, cuts, hash);
    if again.None? {
      return false;
    }
    EqualSignaturesMeanAlike(signature, again.value, base, tree, hash);
    ok := again.value == signature;
  }
}
