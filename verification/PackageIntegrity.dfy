/** What makes a package intact for a loader, and exactly when the injection keeps it so. */
module PackageIntegrity {
  import opened Common
  import opened Archives
  import opened ChecksumLines
  import opened AddSchema

  /** The name a loader, or a reader of a root file, knows an entry by. */
  function Seen(e: Entry): string { TrimDotSlash(e.name) }

  /** What a loader finds under a name: the last entry of that name wins, and only files have content. */
  function Loaded(entries: seq<Entry>, name: string): Option<Bytes> {
    if entries == [] then None
    else
      var e := entries[|entries| - 1];
      if Seen(e) != name then Loaded(entries[..|entries| - 1], name)
      else if e.regular then Some(e.data)
      else None
  }

  predicate Has(entries: seq<Entry>, name: string) {
    exists i :: 0 <= i < |entries| && Seen(entries[i]) == name
  }

  /** The files that get a checksum line: all but the checksum file and the manifest. */
  predicate Covered(e: Entry) { e.regular && Seen(e) != CHECKSUMS && Seen(e) != MANIFEST }

  /** A covered file's digest is listed under its name. */
  function ListedOf(tools: Tools, e: Entry): multiset<Option<Listed>> {
    if Covered(e) then multiset{Some(Listed(tools.sha(e.data), Seen(e)))} else multiset{}
  }

  /** Every covered file that no later entry shadows, once. */
  function Listing(tools: Tools, entries: seq<Entry>): multiset<Option<Listed>> {
    if entries == [] then multiset{}
    else
      (if Has(entries[1..], Seen(entries[0])) then multiset{} else ListedOf(tools, entries[0]))
      + Listing(tools, entries[1..])
  }

  predicate Carries(tools: Tools, manifest: Bytes, text: Bytes) {
    HasMetadata(tools, manifest) && tools.parse(manifest).value.aggregate == tools.sha(text)
  }

  /** checksums.txt says the digest of exactly the files a loader sees, and zarf.yaml carries the digest
      of checksums.txt. */
  ghost predicate Integrity(tools: Tools, entries: seq<Entry>) {
    var text, manifest := Loaded(entries, CHECKSUMS), Loaded(entries, MANIFEST);
    && text.Some? && manifest.Some?
    && Carries(tools, manifest.value, text.value)
    && Says(text.value) == Listing(tools, entries)
  }

  /** `i` is the entry a loader goes by for its name. */
  ghost predicate IsLast(entries: seq<Entry>, i: int) {
    0 <= i < |entries| && forall j | i < j < |entries| :: Seen(entries[j]) != Seen(entries[i])
  }

  lemma {:induction false} LoadedAt(entries: seq<Entry>, i: nat)
    requires IsLast(entries, i)
    ensures Loaded(entries, Seen(entries[i])) == if entries[i].regular then Some(entries[i].data) else None
  {
    var n := |entries| - 1;
    if i < n {
      assert Seen(entries[n]) != Seen(entries[i]);
      LoadedAt(entries[..n], i);
    }
  }

  lemma {:induction false} LastNamed(entries: seq<Entry>, name: string) returns (i: nat)
    requires Has(entries, name)
    ensures IsLast(entries, i) && Seen(entries[i]) == name
  {
    var n := |entries| - 1;
    if Seen(entries[n]) == name {
      i := n;
    } else {
      var k :| 0 <= k < |entries| && Seen(entries[k]) == name;
      assert Seen(entries[..n][k]) == name;
      i := LastNamed(entries[..n], name);
    }
  }

  lemma {:induction false} LoadedIsNamed(entries: seq<Entry>, name: string)
    requires Loaded(entries, name).Some?
    ensures Has(entries, name)
  {
    var n := |entries| - 1;
    if Seen(entries[n]) != name {
      LoadedIsNamed(entries[..n], name);
      var k :| 0 <= k < n && Seen(entries[..n][k]) == name;
      assert Seen(entries[k]) == name;
    }
  }

  /** The entry a loader goes by for this name is spelled without a leading "./". */
  ghost predicate Plain(entries: seq<Entry>, name: string) {
    forall i | IsLast(entries, i) && Seen(entries[i]) == name :: entries[i].name == name
  }

  lemma PlainAt(entries: seq<Entry>, name: string, i: nat)
    requires IsLast(entries, i) && Seen(entries[i]) == name
    ensures Plain(entries, name) <==> entries[i].name == name
  {
  }

  lemma PlainPrefix(entries: seq<Entry>, name: string)
    requires entries != [] && Plain(entries, name) && Seen(entries[|entries| - 1]) != name
    ensures Plain(entries[..|entries| - 1], name)
  {
    var init := entries[..|entries| - 1];
    forall i | IsLast(init, i) && Seen(init[i]) == name ensures init[i].name == name {
      assert IsLast(entries, i);
    }
  }

  /** The tool reads the text the loader goes by when that entry is spelled plainly. */
  lemma {:induction false} ChecksumTextIsLoaded(entries: seq<Entry>)
    requires Loaded(entries, CHECKSUMS).Some? && Plain(entries, CHECKSUMS)
    ensures ChecksumText(entries) == Loaded(entries, CHECKSUMS).value
  {
    PlainNames();
    var n := |entries| - 1;
    if Seen(entries[n]) == CHECKSUMS {
      assert IsLast(entries, n);
    } else {
      PlainPrefix(entries, CHECKSUMS);
      ChecksumTextIsLoaded(entries[..n]);
    }
  }

  /** What a loader finds when one more entry comes first: that entry only under its own, unused name. */
  lemma {:induction false} LoadedBehind(e: Entry, rest: seq<Entry>, name: string)
    ensures Loaded([e] + rest, name)
            == if Has(rest, name) then Loaded(rest, name)
               else if Seen(e) == name && e.regular then Some(e.data)
               else None
  {
    if rest == [] {
      assert [e] + rest == [e];
    } else {
      var n := |rest| - 1;
      assert ([e] + rest)[..n + 1] == [e] + rest[..n];
      LoadedBehind(e, rest[..n], name);
      HasSnoc(rest, name);
    }
  }

  lemma HasSnoc(entries: seq<Entry>, name: string)
    requires entries != []
    ensures Has(entries, name) <==> Has(entries[..|entries| - 1], name) || Seen(entries[|entries| - 1]) == name
  {
    var init := entries[..|entries| - 1];
    if Has(init, name) {
      var i :| 0 <= i < |init| && Seen(init[i]) == name;
      assert Seen(entries[i]) == name;
    }
    if Has(entries, name) && Seen(entries[|entries| - 1]) != name {
      var i :| 0 <= i < |entries| && Seen(entries[i]) == name;
      assert Seen(init[i]) == name;
    }
  }

  /** The name is covered and loads as data of this digest. */
  predicate LoadsAs(tools: Tools, entries: seq<Entry>, l: Listed) {
    && l.name != CHECKSUMS && l.name != MANIFEST
    && Loaded(entries, l.name).Some? && l.digest == tools.sha(Loaded(entries, l.name).value)
  }

  /** The listing is about the loader's files: it has a digest and name once if the covered name loads as
      data of that digest, not at all otherwise, and nothing unreadable. */
  lemma {:induction false} ListingIsLoaded(tools: Tools, entries: seq<Entry>, l: Listed)
    ensures Listing(tools, entries)[Some(l)] == if LoadsAs(tools, entries, l) then 1 else 0
    ensures Listing(tools, entries)[None] == 0
  {
    if entries != [] {
      var e, rest := entries[0], entries[1..];
      assert entries == [e] + rest;
      ListingIsLoaded(tools, rest, l);
      LoadedBehind(e, rest, l.name);
      if !Has(rest, l.name) && Loaded(rest, l.name).Some? {
        LoadedIsNamed(rest, l.name);
      }
    }
  }

  // ---------- the injection keeps it ----------

  lemma SameNamesHas(a: seq<Entry>, b: seq<Entry>, name: string)
    requires |a| == |b| && forall i | 0 <= i < |a| :: Seen(a[i]) == Seen(b[i])
    ensures Has(a, name) <==> Has(b, name)
  {
    if Has(a, name) {
      var i :| 0 <= i < |a| && Seen(a[i]) == name;
      assert Seen(b[i]) == name;
    }
    if Has(b, name) {
      var i :| 0 <= i < |b| && Seen(b[i]) == name;
      assert Seen(a[i]) == name;
    }
  }

  lemma {:induction false} ListingSame(tools: Tools, a: seq<Entry>, b: seq<Entry>)
    requires |a| == |b|
    requires forall i | 0 <= i < |a| :: Seen(a[i]) == Seen(b[i]) && ListedOf(tools, a[i]) == ListedOf(tools, b[i])
    ensures Listing(tools, a) == Listing(tools, b)
  {
    if a != [] {
      ListingSame(tools, a[1..], b[1..]);
      SameNamesHas(a[1..], b[1..], Seen(a[0]));
      assert ListedOf(tools, a[0]) == ListedOf(tools, b[0]);
    }
  }

  lemma PatchedLine(tools: Tools, e: Entry, text: Bytes)
    requires Patchable(tools, e)
    ensures Seen(Patched(tools, e, text)) == Seen(e)
    ensures ListedOf(tools, Patched(tools, e, text)) == ListedOf(tools, e)
  {
    PlainNames();
    PatchedKeepsHeader(tools, e, text);
  }

  lemma SchemaListed(tools: Tools, schema: Bytes)
    ensures ListedOf(tools, Entry(SCHEMA, true, schema)) == multiset{Some(Listed(tools.sha(schema), SCHEMA))}
  {
    PlainNames();
  }

  /** The injected schema is listed unless an entry of the package shadows it. */
  lemma InjectedListing(tools: Tools, entries: seq<Entry>, schema: Bytes, text: Bytes, out: seq<Entry>)
    requires AllPatchable(tools, entries) && IsInjection(tools, entries, schema, text, out)
    ensures Listing(tools, out)
            == Listing(tools, entries)
               + if Has(entries, SCHEMA) then multiset{} else multiset{Some(Listed(tools.sha(schema), SCHEMA))}
  {
    var rest := out[1..];
    PlainNames();
    SchemaListed(tools, schema);
    forall i | 0 <= i < |rest|
      ensures Seen(rest[i]) == Seen(entries[i]) && ListedOf(tools, rest[i]) == ListedOf(tools, entries[i])
    {
      assert Patchable(tools, entries[i]);
      assert rest[i] == out[i + 1];
      PatchedLine(tools, entries[i], text);
    }
    SameNamesHas(rest, entries, SCHEMA);
    ListingSame(tools, rest, entries);
  }

  /** Where a loader looks in the output: at the patched form of the entry it looked at before. */
  lemma InjectedLoaded(tools: Tools, entries: seq<Entry>, schema: Bytes, text: Bytes, out: seq<Entry>, i: nat)
    requires AllPatchable(tools, entries) && IsInjection(tools, entries, schema, text, out)
    requires IsLast(entries, i)
    ensures Patchable(tools, entries[i])
    ensures Loaded(out, Seen(entries[i]))
            == if entries[i].regular then Some(Patched(tools, entries[i], text).data) else None
  {
    forall j | i <= j < |entries| ensures Seen(out[j + 1]) == Seen(entries[j]) {
      assert Patchable(tools, entries[j]);
      PatchedLine(tools, entries[j], text);
    }
    forall j | i + 1 < j < |out| ensures Seen(out[j]) != Seen(out[i + 1]) {
      assert Seen(out[(j - 1) + 1]) == Seen(entries[j - 1]);
    }
    PatchedKeepsHeader(tools, entries[i], text);
    LoadedAt(out, i + 1);
  }

  /** checksums.txt as a loader of the output sees it: rewritten if it was spelled plainly. */
  lemma InjectedChecksums(tools: Tools, entries: seq<Entry>, schema: Bytes, text: Bytes, out: seq<Entry>)
    requires AllPatchable(tools, entries) && IsInjection(tools, entries, schema, text, out)
    requires Loaded(entries, CHECKSUMS).Some?
    ensures Loaded(out, CHECKSUMS) == if Plain(entries, CHECKSUMS) then Some(text) else Loaded(entries, CHECKSUMS)
  {
    PlainNames();
    LoadedIsNamed(entries, CHECKSUMS);
    var c := LastNamed(entries, CHECKSUMS);
    LoadedAt(entries, c);
    PlainAt(entries, CHECKSUMS, c);
    InjectedLoaded(tools, entries, schema, text, out, c);
    PatchedKeepsHeader(tools, entries[c], text);
    NotManifest(entries[c]);
  }

  lemma NotManifest(e: Entry)
    ensures Seen(e) == CHECKSUMS ==> e.name != MANIFEST
    ensures Seen(e) == MANIFEST ==> e.name != CHECKSUMS
  {
    PlainNames();
  }

  /** The manifest, with another aggregate checksum and nothing else changed. */
  predicate Resealed(tools: Tools, was: Bytes, now: Bytes, text: Bytes) {
    && tools.parse(was).Some?
    && tools.parse(now) == Some(tools.parse(was).value.(aggregate := tools.sha(text)))
  }

  /** zarf.yaml as a loader of the output sees it: with the digest of the new text and otherwise
      unchanged if it was spelled plainly, else as it was. */
  lemma InjectedManifest(tools: Tools, entries: seq<Entry>, schema: Bytes, text: Bytes, out: seq<Entry>)
    requires AllPatchable(tools, entries) && IsInjection(tools, entries, schema, text, out)
    requires Sound(tools) && Loaded(entries, MANIFEST).Some?
    ensures Loaded(out, MANIFEST).Some?
    ensures Plain(entries, MANIFEST) ==> Carries(tools, Loaded(out, MANIFEST).value, text)
    ensures Plain(entries, MANIFEST) ==>
              Resealed(tools, Loaded(entries, MANIFEST).value, Loaded(out, MANIFEST).value, text)
    ensures !Plain(entries, MANIFEST) ==> Loaded(out, MANIFEST) == Loaded(entries, MANIFEST)
  {
    PlainNames();
    LoadedIsNamed(entries, MANIFEST);
    var m := LastNamed(entries, MANIFEST);
    LoadedAt(entries, m);
    PlainAt(entries, MANIFEST, m);
    InjectedLoaded(tools, entries, schema, text, out, m);
    PatchedKeepsHeader(tools, entries[m], text);
    NotManifest(entries[m]);
    if Plain(entries, MANIFEST) {
      PatchedCarries(tools, entries[m], text);
    }
  }

  lemma PatchedCarries(tools: Tools, e: Entry, text: Bytes)
    requires Sound(tools) && Patchable(tools, e) && e.name == MANIFEST
    ensures Carries(tools, Patched(tools, e, text).data, text)
    ensures Resealed(tools, e.data, Patched(tools, e, text).data, text)
  {
    PlainNames();
    var m := tools.parse(e.data).value.(aggregate := tools.sha(text));
    assert tools.parse(tools.marshal(m)) == Some(m);
  }

  lemma CarriesIsDigest(tools: Tools, manifest: Bytes, a: Bytes, b: Bytes)
    requires Carries(tools, manifest, a)
    ensures Carries(tools, manifest, b) <==> tools.sha(a) == tools.sha(b)
  {
  }

  lemma NewTextLists(tools: Tools, entries: seq<Entry>, schema: Bytes)
    requires Sound(tools) && Integrity(tools, entries) && Plain(entries, CHECKSUMS)
    ensures Says(NewText(tools, entries, schema))
            == Listing(tools, entries) + multiset{Some(Listed(tools.sha(schema), SCHEMA))}
  {
    ChecksumTextIsLoaded(entries);
    NewTextSays(tools, entries, schema);
  }

  /** The output's checksum text lists its files exactly when both the text and the files gained the
      schema, or neither did. */
  lemma ListsIff(tools: Tools, entries: seq<Entry>, schema: Bytes, out: seq<Entry>)
    requires Sound(tools) && Integrity(tools, entries) && AllPatchable(tools, entries)
    requires IsInjection(tools, entries, schema, NewText(tools, entries, schema), out)
    ensures Loaded(out, CHECKSUMS).Some?
    ensures Says(Loaded(out, CHECKSUMS).value) == Listing(tools, out)
            <==> (Plain(entries, CHECKSUMS) <==> !Has(entries, SCHEMA))
  {
    var text, line := NewText(tools, entries, schema), Some(Listed(tools.sha(schema), SCHEMA));
    InjectedChecksums(tools, entries, schema, text, out);
    InjectedListing(tools, entries, schema, text, out);
    var listing := Listing(tools, entries);
    assert listing + multiset{line} != listing by {
      assert (listing + multiset{line})[line] == listing[line] + 1;
    }
    if Plain(entries, CHECKSUMS) {
      NewTextLists(tools, entries, schema);
    }
  }

  /** The output's zarf.yaml carries the digest of its checksum text exactly when the tool found both
      of them or neither, or the digests agree by chance. */
  lemma CarriesIff(tools: Tools, entries: seq<Entry>, schema: Bytes, out: seq<Entry>)
    requires Sound(tools) && Integrity(tools, entries) && AllPatchable(tools, entries)
    requires IsInjection(tools, entries, schema, NewText(tools, entries, schema), out)
    ensures Loaded(out, CHECKSUMS).Some? && Loaded(out, MANIFEST).Some?
    ensures Carries(tools, Loaded(out, MANIFEST).value, Loaded(out, CHECKSUMS).value)
            <==> (Plain(entries, CHECKSUMS) <==> Plain(entries, MANIFEST)) || SameDigest(tools, entries, schema)
  {
    var text, was := NewText(tools, entries, schema), Loaded(entries, CHECKSUMS).value;
    InjectedChecksums(tools, entries, schema, text, out);
    InjectedManifest(tools, entries, schema, text, out);
    var manifest := Loaded(out, MANIFEST).value;
    if Plain(entries, MANIFEST) {
      CarriesIsDigest(tools, manifest, text, Loaded(out, CHECKSUMS).value);
    } else {
      CarriesIsDigest(tools, manifest, was, Loaded(out, CHECKSUMS).value);
    }
  }

  /** The tool's new checksum text has the digest of the text the loader went by. */
  ghost predicate SameDigest(tools: Tools, entries: seq<Entry>, schema: Bytes)
    requires Loaded(entries, CHECKSUMS).Some?
  {
    tools.sha(NewText(tools, entries, schema)) == tools.sha(Loaded(entries, CHECKSUMS).value)
  }

  /** Of a package that passes the integrity check, however its names are spelled, the output passes it
      too exactly when it gained the file and its line together, and the tool found both special entries
      or neither (or their digests agree by chance). */
  lemma IntegrityKeptIff(tools: Tools, entries: seq<Entry>, schema: Bytes, out: seq<Entry>)
    requires Sound(tools) && Integrity(tools, entries) && AllPatchable(tools, entries)
    requires IsInjection(tools, entries, schema, NewText(tools, entries, schema), out)
    ensures Integrity(tools, out) <==>
            && (Plain(entries, CHECKSUMS) <==> !Has(entries, SCHEMA))
            && ((Plain(entries, CHECKSUMS) <==> Plain(entries, MANIFEST)) || SameDigest(tools, entries, schema))
  {
    ListsIff(tools, entries, schema, out);
    CarriesIff(tools, entries, schema, out);
  }

  /** Where the two special entries are spelled plainly, as zarf spells them, the output passes the check
      exactly when the package had no entry named config.schema.json: such an entry comes later and
      shadows the injected one, whose new checksum line then stands for no file. */
  lemma IntegrityKeptIffNew(tools: Tools, entries: seq<Entry>, schema: Bytes, out: seq<Entry>)
    requires Sound(tools) && Integrity(tools, entries) && AllPatchable(tools, entries)
    requires Plain(entries, CHECKSUMS) && Plain(entries, MANIFEST)
    requires IsInjection(tools, entries, schema, NewText(tools, entries, schema), out)
    ensures Integrity(tools, out) <==> !Has(entries, SCHEMA)
  {
    IntegrityKeptIff(tools, entries, schema, out);
  }

  /** The tool goes through on a package that passes the check exactly when no shadowed zarf.yaml or
      checksums.txt stops it. */
  lemma IntactRunsIff(tools: Tools, entries: seq<Entry>)
    requires Integrity(tools, entries)
    ensures AllPatchable(tools, entries) <==>
            forall i | 0 <= i < |entries| && !IsLast(entries, i) :: Patchable(tools, entries[i])
  {
    PlainNames();
    forall i | 0 <= i < |entries| && IsLast(entries, i) ensures Patchable(tools, entries[i]) {
      LoadedAt(entries, i);
    }
  }

  ghost predicate DistinctNames(entries: seq<Entry>) {
    forall i, j | 0 <= i < j < |entries| :: Seen(entries[i]) != Seen(entries[j])
  }

  /** A package without repeated names that passes the check is never refused. */
  lemma IntactDistinctRuns(tools: Tools, entries: seq<Entry>)
    requires Integrity(tools, entries) && DistinctNames(entries)
    ensures AllPatchable(tools, entries)
  {
    IntactRunsIff(tools, entries);
    forall i | 0 <= i < |entries| ensures IsLast(entries, i) {
    }
  }
}
