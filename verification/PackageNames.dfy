/** The three name classes that share the one flat package directory. */
module PackageNames {

  const META := ".meta.json"
  const TAR := ".tar"
  const TAR_ZST := ".tar.zst"
  const INCOMING := ".incoming-"

  predicate HasSuffix(s: string, suffix: string) {
    |suffix| <= |s| && s[|s| - |suffix|..] == suffix
  }

  predicate HasPrefix(s: string, prefix: string) {
    |prefix| <= |s| && s[..|prefix|] == prefix
  }

  predicate AlphaNum(ch: char) {
    'a' <= ch <= 'z' || 'A' <= ch <= 'Z' || '0' <= ch <= '9'
  }

  predicate NameChar(ch: char) {
    AlphaNum(ch) || ch == '.' || ch == '_' || ch == '-'
  }

  /** Matches the part of the id pattern before the archive extension. */
  predicate Stem(s: string) {
    |s| > 0 && AlphaNum(s[0]) && forall i | 0 <= i < |s| :: NameChar(s[i])
  }

  /** `^[a-zA-Z0-9][a-zA-Z0-9._-]*\.tar(\.zst)?$` */
  predicate ValidId(s: string) {
    || (HasSuffix(s, TAR) && Stem(s[..|s| - |TAR|]))
    || (HasSuffix(s, TAR_ZST) && Stem(s[..|s| - |TAR_ZST|]))
  }

  function MetaName(id: string): string { id + META }

  /** The names `os.CreateTemp(dir, ".incoming-*.tar.zst")` can pick. */
  predicate TempName(s: string) {
    HasPrefix(s, INCOMING) && HasSuffix(s, TAR_ZST) && |s| >= |INCOMING| + |TAR_ZST|
  }

  predicate SidecarName(s: string) { HasSuffix(s, META) }

  lemma LastChar(s: string, suffix: string)
    requires HasSuffix(s, suffix) && suffix != ""
    ensures s != "" && s[|s| - 1] == suffix[|suffix| - 1]
  {
    var tail := s[|s| - |suffix|..];
    assert tail[|suffix| - 1] == s[|s| - 1];
  }

  lemma FirstChar(s: string, prefix: string)
    requires HasPrefix(s, prefix) && prefix != ""
    ensures s != "" && s[0] == prefix[0]
  {
    assert s[..|prefix|][0] == s[0];
  }

  /** The ids are the good stems followed by ".tar" or ".tar.zst", and nothing else. */
  lemma ValidIdIff(s: string)
    ensures ValidId(s) <==> exists stem :: Stem(stem) && (s == stem + ".tar" || s == stem + ".tar.zst")
  {
    if HasSuffix(s, TAR) && Stem(s[..|s| - |TAR|]) {
      assert s == s[..|s| - |TAR|] + ".tar";
    }
    if HasSuffix(s, TAR_ZST) && Stem(s[..|s| - |TAR_ZST|]) {
      assert s == s[..|s| - |TAR_ZST|] + ".tar.zst";
    }
    if stem :| Stem(stem) && s == stem + ".tar" {
      assert s[..|s| - |TAR|] == stem && s[|stem|..] == ".tar";
    }
    if stem :| Stem(stem) && s == stem + ".tar.zst" {
      assert s[..|s| - |TAR_ZST|] == stem && s[|stem|..] == ".tar.zst";
    }
  }

  /** Temp names are whatever random part between the fixed ends. */
  lemma TempNameIff(s: string)
    ensures TempName(s) <==> exists random :: s == ".incoming-" + random + ".tar.zst"
  {
    if TempName(s) {
      var random := s[|INCOMING|..|s| - |TAR_ZST|];
      assert s == s[..|INCOMING|] + random + s[|s| - |TAR_ZST|..];
      assert s == ".incoming-" + random + ".tar.zst";
    }
    if random :| s == ".incoming-" + random + ".tar.zst" {
      assert s[..|INCOMING|] == ".incoming-" && s[|s| - |TAR_ZST|..] == ".tar.zst";
    }
  }

  /** No name is in two classes, whatever the id, the sidecar's stem or the random part is. */
  lemma NameClassesDisjoint(s: string)
    ensures !(ValidId(s) && SidecarName(s))
    ensures !(ValidId(s) && TempName(s))
    ensures !(TempName(s) && SidecarName(s))
  {
    if SidecarName(s) { LastChar(s, META); }
    if HasSuffix(s, TAR) { LastChar(s, TAR); }
    if HasSuffix(s, TAR_ZST) { LastChar(s, TAR_ZST); }
    if TempName(s) { FirstChar(s, INCOMING); }
    if HasSuffix(s, TAR) && Stem(s[..|s| - |TAR|]) { assert s[0] == s[..|s| - |TAR|][0]; }
    if HasSuffix(s, TAR_ZST) && Stem(s[..|s| - |TAR_ZST|]) { assert s[0] == s[..|s| - |TAR_ZST|][0]; }
  }

  /** `metaPath` lands in the sidecar class and never merges two ids. */
  lemma MetaNameInjective(a: string, b: string)
    ensures MetaName(a) == a + ".meta.json" && SidecarName(MetaName(a))
    ensures MetaName(a) == MetaName(b) ==> a == b
  {
    assert MetaName(a)[..|a|] == a && MetaName(a)[|a|..] == META;
    assert MetaName(b)[..|b|] == b;
    if MetaName(a) == MetaName(b) {
      assert |a| == |b|;
    }
  }
}
