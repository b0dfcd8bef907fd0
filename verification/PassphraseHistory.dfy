/** The passphrases that still open old artifacts.

    A rotation pushes the replaced passphrase to the front of a history of at most
    eight; decryption tries the current passphrase first and then the history. */
module PassphraseHistory {
  import opened Wrappers

  const MAX_PASSPHRASE_CHARS := 4096
  const MAX_PASSPHRASE_FILE_BYTES := 16384
  const MAX_PASSPHRASE_HISTORY_ENTRIES := 8
  const MAX_PASSPHRASE_HISTORY_BYTES := 8192

  /* ---------- Passphrases ---------- */

  function Utf8Length(s: string): nat {
    if s == "" then 0
    else
      var c := s[0] as int;
      (if c < 0x80 then 1 else if c < 0x800 then 2 else if c < 0x1_0000 then 3 else 4) + Utf8Length(s[1..])
  }

  predicate IsControl(c: char) {
    (c as int) < 0x20 || c as int == 0x7F || 0x80 <= c as int <= 0x9F
  }

  function Lower(s: string): string {
    seq(|s|, i requires 0 <= i < |s| => if 'A' <= s[i] <= 'Z' then s[i] - 'A' + 'a' else s[i])
  }

  predicate Contains(s: string, part: string) {
    part <= s || (s != "" && Contains(s[1..], part))
  }

  predicate ContainsForbiddenSecretChars(s: string) {
    || Contains(Lower(s), "\\x00")
    || Contains(Lower(s), "\\u0000")
    || exists i | 0 <= i < |s| :: IsControl(s[i])
  }

  /** Drops trailing carriage returns and line feeds. */
  function RStrip(s: string): string {
    if s != "" && (s[|s| - 1] == '\r' || s[|s| - 1] == '\n') then RStrip(s[..|s| - 1]) else s
  }

  /** A passphrase that can be kept in the history. */
  predicate Acceptable(p: string) {
    p != "" && !ContainsForbiddenSecretChars(p) && Utf8Length(p) <= MAX_PASSPHRASE_CHARS
  }

  /** Writing a passphrase with its line end and reading it back loses nothing. */
  lemma StrippedLineIsPassphrase(p: string)
    requires Acceptable(p)
    ensures RStrip(p + "\n") == p
  {
    assert (p + "\n")[..|p|] == p;
    assert !IsControl(p[|p| - 1]);
  }

  /* ---------- The history document ---------- */

  predicate Distinct(keys: seq<string>) {
    forall i, j | 0 <= i < j < |keys| :: keys[i] != keys[j]
  }

  /** What the reader accepts, and so what the writer must produce. */
  predicate ValidKeys(keys: seq<string>) {
    && |keys| <= MAX_PASSPHRASE_HISTORY_ENTRIES
    && RenderedLength(keys) <= MAX_PASSPHRASE_HISTORY_BYTES
    && (forall i | 0 <= i < |keys| :: Acceptable(keys[i]))
    && Distinct(keys)
  }

  /** Bytes of `{"keys":[...],"version":1}` and its line end, each key in padded base64. */
  function RenderedLength(keys: seq<string>): nat {
    24 + KeysLength(keys) + (if keys == [] then 0 else |keys| - 1)
  }

  function KeysLength(keys: seq<string>): nat {
    if keys == [] then 0 else 2 + (Utf8Length(keys[0]) + 2) / 3 * 4 + KeysLength(keys[1..])
  }

  function Without(keys: seq<string>, p: string): seq<string> {
    if keys == [] then []
    else if keys[0] == p then Without(keys[1..], p)
    else [keys[0]] + Without(keys[1..], p)
  }

  lemma {:induction false} WithoutKeeps(keys: seq<string>, p: string)
    ensures |Without(keys, p)| <= |keys|
    ensures forall k :: k in Without(keys, p) <==> k in keys && k != p
  {
    if keys == [] {
    } else {
      WithoutKeeps(keys[1..], p);
      assert keys == [keys[0]] + keys[1..];
    }
  }

  lemma {:induction false} WithoutDistinct(keys: seq<string>, p: string)
    requires Distinct(keys)
    ensures Distinct(Without(keys, p))
  {
    if keys == [] {
    } else {
      WithoutDistinct(keys[1..], p);
      WithoutKeeps(keys[1..], p);
      assert keys[0] !in keys[1..];
    }
  }

  /** The replaced passphrase first, then the others in their order. */
  function HistoryEntries(previous: string, existing: seq<string>): seq<string> {
    [previous] + Without(existing, previous)
  }

  /** The new history holds the replaced passphrase and everything the old one held, and
      the reader accepts it whenever the writer's size checks pass. */
  lemma HistoryGrows(previous: string, existing: seq<string>)
    requires Acceptable(previous) && ValidKeys(existing)
    ensures forall k :: k in HistoryEntries(previous, existing) <==> k == previous || k in existing
    ensures Distinct(HistoryEntries(previous, existing))
    ensures ValidKeys(HistoryEntries(previous, existing)) <==>
              && |HistoryEntries(previous, existing)| <= MAX_PASSPHRASE_HISTORY_ENTRIES
              && RenderedLength(HistoryEntries(previous, existing)) <= MAX_PASSPHRASE_HISTORY_BYTES
  {
    WithoutKeeps(existing, previous);
    WithoutDistinct(existing, previous);
    var entries := HistoryEntries(previous, existing);
    forall i | 0 <= i < |entries| ensures Acceptable(entries[i]) {
      assert entries[i] in entries;
    }
    assert forall i | 1 <= i < |entries| :: entries[i] in entries[1..];
    assert entries[1..] == Without(existing, previous);
  }

  /* ---------- Decryption ---------- */

  /** An ideal authenticated encryption: only the sealing passphrase opens it. */
  datatype Sealed = Sealed(passphrase: string, plaintext: string)

  function Open(passphrase: string, artifact: Sealed): Option<string> {
    if passphrase == artifact.passphrase then Some(artifact.plaintext) else None
  }

  /** The trial loop of `decrypt_bytes`: the current passphrase, then the history. */
  method DecryptBytes(current: string, history: seq<string>, artifact: Sealed) returns (r: Option<string>)
    ensures r == if artifact.passphrase == current || artifact.passphrase in history then Some(artifact.plaintext) else None
  {
    r := Open(current, artifact);
    if r.Some? {
      return;
    }
    var previous := Without(history, current);
    WithoutKeeps(history, current);
    for i := 0 to |previous|
      invariant artifact.passphrase !in previous[..i]
    {
      r := Open(previous[i], artifact);
      if r.Some? {
        assert previous[i] in previous;
        return;
      }
    }
    assert previous[..|previous|] == previous;
    r := None;
  }
}
