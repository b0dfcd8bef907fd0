/** Paths that every manifest takes. */
module SafePaths {
  import opened Numerals
  import opened BackupManifest

  predicate Plain(s: string) {
    s != "" && forall i | 0 <= i < |s| :: IsAlphanumeric(s[i])
  }

  lemma {:induction false} OneComponent(s: string)
    requires '/' !in s
    ensures Components(s) == [s]
  {
    if s != "" {
      OneComponent(s[1..]);
      assert [s[0]] + s[1..] == s;
    }
  }

  lemma {:induction false} FirstComponent(a: string, rest: string)
    requires '/' !in a
    ensures Components(a + "/" + rest) == [a] + Components(rest)
  {
    var path := a + "/" + rest;
    if a == "" {
      assert path[1..] == rest;
    } else {
      FirstComponent(a[1..], rest);
      assert path[1..] == a[1..] + "/" + rest;
      assert [a[0]] + a[1..] == a;
    }
  }

  /** A path of letters, digits and slashes with no empty component. */
  predicate Simple(path: string) {
    && (forall i | 0 <= i < |path| :: IsAlphanumeric(path[i]) || path[i] == '/')
    && forall i | 0 <= i < |Components(path)| :: Plain(Components(path)[i])
  }

  lemma PlainIsSimple(s: string)
    requires Plain(s)
    ensures Simple(s)
  {
    OneComponent(s);
  }

  lemma JoinedIsSimple(a: string, rest: string)
    requires Plain(a) && Simple(rest)
    ensures Simple(a + "/" + rest)
  {
    FirstComponent(a, rest);
  }

  lemma SimpleIsSafe(a: string, rest: string)
    requires Plain(a) && |a| >= 2 && Simple(rest) && |a| + |rest| < 4096
    ensures SafePath(a + "/" + rest)
  {
    JoinedIsSimple(a, rest);
    var path := a + "/" + rest;
    assert forall i | 0 <= i < |a| :: path[i] == a[i];
    forall i | 0 <= i < |Components(path)| ensures Components(path)[i] !in {"", ".", ".."} {
      assert Plain(Components(path)[i]) && IsAlphanumeric(Components(path)[i][0]);
    }
  }

  lemma {:induction false} DecimalIsPlain(n: nat)
    ensures Plain(Decimal(n))
  {
    if n >= 10 {
      DecimalIsPlain(n / 10);
    }
  }

  /** Two leaves of one directory do not clash. */
  lemma LeavesAreApart(directory: string, a: string, b: string)
    requires Plain(a) && Plain(b) && a != b
    ensures !Clash(directory + "/" + a, directory + "/" + b)
  {
    NotBelow(directory, a, b);
    NotBelow(directory, b, a);
    assert (directory + "/" + a)[|directory| + 1..] == a && (directory + "/" + b)[|directory| + 1..] == b;
  }

  lemma NotBelow(directory: string, a: string, b: string)
    requires Plain(a) && Plain(b)
    ensures !Below(directory + "/" + a, directory + "/" + b)
  {
    var outer, inner := directory + "/" + a + "/", directory + "/" + b;
    assert outer[|outer| - 1] == '/';
    if |a| < |b| {
      assert inner[|outer| - 1] == b[|a|] && IsAlphanumeric(b[|a|]);
    }
  }
}
