/** The names that archives are published under. */
module BackupNames {
  const SHORT_ID := 16

  /** The text without one of its characters. */
  function Without(s: string, c: char): string {
    if s == "" then "" else (if s[0] == c then "" else [s[0]]) + Without(s[1..], c)
  }

  lemma {:induction false} WithoutMembers(s: string, c: char)
    ensures forall x :: x in Without(s, c) <==> x in s && x != c
  {
    if s != "" {
      WithoutMembers(s[1..], c);
      assert s == [s[0]] + s[1..];
    }
  }

  /** Neither a hyphen nor a colon is left, and so no `+00:00` to take away. */
  function Timestamp(created: string): string {
    Without(Without(created, '-'), ':')
  }

  function Short(id: string): string {
    if |id| > SHORT_ID then id[..SHORT_ID] else id
  }

  function Suffix(encrypted: bool): string {
    if encrypted then ".socbackup.socenc" else ".socbackup"
  }

  const PREFIX := "soc-backup-"

  /** `_archive_name`. */
  function ArchiveName(id: string, created: string, encrypted: bool): string {
    PREFIX + Timestamp(created) + "-" + Short(id) + Suffix(encrypted)
  }

  predicate FirstHyphen(s: string, k: nat) {
    k < |s| && s[k] == '-' && forall i | 0 <= i < k :: s[i] != '-'
  }

  /** What is before the first hyphen, and so what is after it, is determined by the text. */
  lemma SplitAtHyphen(a: string, x: string, b: string, y: string)
    requires '-' !in a && '-' !in b && a + "-" + x == b + "-" + y
    ensures a == b && x == y
  {
    var s, t := a + "-" + x, b + "-" + y;
    assert FirstHyphen(s, |a|) && FirstHyphen(t, |b|);
    assert s == t && |a| == |b|;
    assert a == s[..|a|] && b == t[..|b|];
    assert x == s[|a| + 1..] && y == t[|b| + 1..];
  }

  lemma SuffixesDiffer(x: string, e: bool, y: string, f: bool)
    ensures x + Suffix(e) == y + Suffix(f) <==> x == y && e == f
  {
    var s, t := x + Suffix(e), y + Suffix(f);
    if s == t {
      assert s[|s| - 1] == Suffix(e)[|Suffix(e)| - 1] && t[|t| - 1] == Suffix(f)[|Suffix(f)| - 1];
      assert e == f;
      assert x == s[..|s| - |Suffix(e)|] && y == t[..|t| - |Suffix(f)|];
    }
  }

  lemma Regrouped(p: string, s: string, x: string, suffix: string)
    ensures p + s + "-" + x + suffix == p + (s + "-" + (x + suffix))
  {
  }

  lemma AfterPrefix(p: string, s: string, t: string)
    ensures p + s == p + t <==> s == t
  {
    assert (p + s)[|p|..] == s && (p + t)[|p|..] == t;
  }

  /** Two names of this form are one exactly when their parts are. */
  lemma PartsMeet(s: string, x: string, e: bool, t: string, y: string, f: bool)
    requires '-' !in s && '-' !in t
    ensures PREFIX + s + "-" + x + Suffix(e) == PREFIX + t + "-" + y + Suffix(f) <==> s == t && x == y && e == f
  {
    var v, w := x + Suffix(e), y + Suffix(f);
    Regrouped(PREFIX, s, x, Suffix(e));
    Regrouped(PREFIX, t, y, Suffix(f));
    AfterPrefix(PREFIX, s + "-" + v, t + "-" + w);
    SuffixesDiffer(x, e, y, f);
    if s + "-" + v == t + "-" + w {
      SplitAtHyphen(s, v, t, w);
    }
  }

  /** Two archive names are one exactly when the times, the first sixteen characters of the ids
      and the encryption agree. */
  lemma NamesMeet(a: string, createdA: string, encryptedA: bool, b: string, createdB: string, encryptedB: bool)
    ensures ArchiveName(a, createdA, encryptedA) == ArchiveName(b, createdB, encryptedB)
            <==> Timestamp(createdA) == Timestamp(createdB) && Short(a) == Short(b) && encryptedA == encryptedB
  {
    WithoutMembers(createdA, '-');
    WithoutMembers(Without(createdA, '-'), ':');
    WithoutMembers(createdB, '-');
    WithoutMembers(Without(createdB, '-'), ':');
    PartsMeet(Timestamp(createdA), Short(a), encryptedA, Timestamp(createdB), Short(b), encryptedB);
  }

  /** A name of one plain component. */
  predicate PlainName(name: string) {
    name != "" && name != "." && name != ".." && '/' !in name && '\\' !in name
  }

  /** A character that the fixed parts lack comes from the time or from the id. */
  lemma NameMembers(c: char, s: string, x: string, e: bool)
    requires c == '/' || c == '\\'
    ensures c in PREFIX + s + "-" + x + Suffix(e) <==> c in s || c in x
  {
    assert c !in PREFIX;
    assert c !in Suffix(e);
  }

  lemma PlainExactly(id: string, created: string, encrypted: bool)
    ensures PlainName(ArchiveName(id, created, encrypted)) <==>
              '/' !in created && '\\' !in created && '/' !in Short(id) && '\\' !in Short(id)
  {
    WithoutMembers(created, '-');
    WithoutMembers(Without(created, '-'), ':');
    NameMembers('/', Timestamp(created), Short(id), encrypted);
    NameMembers('\\', Timestamp(created), Short(id), encrypted);
    assert ArchiveName(id, created, encrypted)[0] == 's';
  }

  /** What a name keeps of an id. */
  const HEAD := "0123456789abcdef"

  lemma HeadsMeet(s: string, t: string, created: string, encrypted: bool)
    requires s != t && '/' !in created && '\\' !in created
    ensures HEAD + s != HEAD + t && ArchiveName(HEAD + s, created, encrypted) == ArchiveName(HEAD + t, created, encrypted)
    ensures PlainName(ArchiveName(HEAD + s, created, encrypted))
  {
    assert |HEAD| == SHORT_ID;
    assert (HEAD + s)[SHORT_ID..] == s && (HEAD + t)[SHORT_ID..] == t;
    assert Short(HEAD + s) == HEAD && Short(HEAD + t) == HEAD;
    PlainExactly(HEAD + s, created, encrypted);
  }
}
