/** What goes into a monthly archive: the sources in the order of their names, each followed
    by a line end. */
module MonthlySources {
  import opened FaultyDirectory
  import Retention = LogRetention
  import opened ShortReads
  import opened Sorting
  import opened Wrappers

  const COPY_BYTES := 65536

  /* ---------- Order ---------- */

  function NameText(n: Name): string {
    if n.File? then n.path else ""
  }

  const BY_NAME: (Name, Name) -> bool := (a: Name, b: Name) => Leq(NameText(a), NameText(b))

  function SortByName(names: seq<Name>): seq<Name> {
    Sort(names, BY_NAME)
  }

  ghost predicate OrderedByName(names: seq<Name>) {
    forall i, j | 0 <= i < j < |names| :: Leq(NameText(names[i]), NameText(names[j]))
  }

  /** The sorted names are ordered, and no name is lost or added. */
  lemma SortByNameSorts(names: seq<Name>)
    ensures OrderedByName(SortByName(names)) && multiset(SortByName(names)) == multiset(names)
  {
    forall a: Name, b: Name ensures BY_NAME(a, b) || BY_NAME(b, a) {
      LeqTotal(NameText(a), NameText(b));
    }
    forall a: Name, b: Name, c: Name | BY_NAME(a, b) && BY_NAME(b, c) ensures BY_NAME(a, c) {
      LeqTransitive(NameText(a), NameText(b), NameText(c));
    }
    SortSorts(names, BY_NAME);
    var sorted := SortByName(names);
    assert forall i, j | 0 <= i < j < |sorted| :: BY_NAME(sorted[i], sorted[j]);
  }

  lemma SortedMembers(names: seq<Name>)
    ensures forall n :: n in SortByName(names) <==> n in names
  {
    SortByNameSorts(names);
    assert forall n :: n in SortByName(names) <==> n in multiset(SortByName(names));
    assert forall n :: n in names <==> n in multiset(names);
  }

  /* ---------- Contents ---------- */

  predicate IsGz(n: Name) {
    var text := NameText(n);
    |text| >= 3 && text[|text| - 3..] == ".gz"
  }

  /** The text a source contributes; none for a malformed compressed file. */
  function TextOf(n: Name, data: Content): Option<string> {
    match data
    case Plain(text) => if IsGz(n) then None else Some(text)
    case Gzip(text) => Some(text)
    case _ => None
  }

  /** The text of the named files, each followed by a line end. */
  function MergedText(fs: FS, order: seq<Name>): string {
    if order == [] then ""
    else
      var last := order[|order| - 1];
      MergedText(fs, order[..|order| - 1])
      + (if last in fs.names && fs.names[last] in fs.inodes && TextOf(last, fs.inodes[fs.names[last]].data).Some?
         then TextOf(last, fs.inodes[fs.names[last]].data).value + "\n"
         else "")
  }

  /** `_copy_stream_capped`: the whole stream, unless it is longer than the cap, however the
      reads are cut. */
  method CopyStreamCapped(source: ShortStream<char>) returns (copied: Option<string>)
    requires source.Valid()
    modifies source
    ensures copied == if |old(source.Rest())| <= Retention.MAX_TOTAL_LOG_BYTES then Some(old(source.Rest())) else None
  {
    ghost var whole := source.Rest();
    var output := "";
    while true
      invariant source.Valid() && output + source.Rest() == whole && |output| <= Retention.MAX_TOTAL_LOG_BYTES
      decreases |source.Rest()|
    {
      var room := Retention.MAX_TOTAL_LOG_BYTES - |output| + 1;
      var chunk := source.Read(if room < COPY_BYTES then room else COPY_BYTES);
      if chunk == [] {
        assert output == whole;
        return Some(output);
      }
      if |output| + |chunk| > Retention.MAX_TOTAL_LOG_BYTES {
        return None;
      }
      output := output + chunk;
    }
  }
}
