/** The tool that injects config.schema.json into a package and keeps its checksums right. */
module AddSchema {
  import opened Common
  import opened Archives
  import opened ChecksumLines

  /** zarf.yaml as far as the tool looks into it. */
  datatype Manifest = Manifest(hasMetadata: bool, aggregate: string, rest: string)

  /** The hash and the YAML library, as arbitrary functions. */
  datatype Tools = Tools(sha: Bytes -> string, parse: Bytes -> Option<Manifest>, marshal: Manifest -> Bytes)

  /** Digests are one word of text, and a marshalled manifest parses back. */
  ghost predicate Sound(tools: Tools) {
    && (forall d :: ' ' !in tools.sha(d) && '\n' !in tools.sha(d))
    && (forall m: Manifest | m.hasMetadata :: tools.parse(tools.marshal(m)) == Some(m))
  }

  const CHECKSUMS := "checksums.txt"
  const MANIFEST := "zarf.yaml"
  const SCHEMA := "config.schema.json"

  function Line(tools: Tools, data: Bytes, name: string): string { tools.sha(data) + " " + name }

  /** The text of the last checksums.txt, or nothing. */
  function ChecksumText(entries: seq<Entry>): Bytes {
    if entries == [] then ""
    else if entries[|entries| - 1].name == CHECKSUMS then entries[|entries| - 1].data
    else ChecksumText(entries[..|entries| - 1])
  }

  predicate HasMetadata(tools: Tools, data: Bytes) {
    tools.parse(data).Some? && tools.parse(data).value.hasMetadata
  }

  predicate Parsable(tools: Tools, e: Entry) {
    e.name == MANIFEST ==> HasMetadata(tools, e.data)
  }

  ghost predicate AllParsable(tools: Tools, entries: seq<Entry>) {
    forall i | 0 <= i < |entries| :: Parsable(tools, entries[i])
  }

  /** The two entries that get new data. */
  predicate Rewritten(e: Entry) { e.name == CHECKSUMS || e.name == MANIFEST }

  /** A zarf.yaml that does not parse or has no metadata stops the tool, and so does a rewritten entry
      that is not a file: the archive writer takes no data for it, and the new data is never empty. */
  predicate Patchable(tools: Tools, e: Entry) {
    Parsable(tools, e) && (Rewritten(e) ==> e.regular)
  }

  ghost predicate AllPatchable(tools: Tools, entries: seq<Entry>) {
    forall i | 0 <= i < |entries| :: Patchable(tools, entries[i])
  }

  function PatchedManifest(tools: Tools, e: Entry, text: Bytes): Entry
    requires Parsable(tools, e)
  {
    if e.name == MANIFEST then
      e.(data := tools.marshal(tools.parse(e.data).value.(aggregate := tools.sha(text))))
    else e
  }

  /** What one entry becomes when `text` is the new checksum text. */
  function Patched(tools: Tools, e: Entry, text: Bytes): Entry
    requires Patchable(tools, e)
  {
    if e.name == CHECKSUMS then e.(data := text) else PatchedManifest(tools, e, text)
  }

  function NewText(tools: Tools, entries: seq<Entry>, schema: Bytes): Bytes {
    Rewrite(ChecksumText(entries), Line(tools, schema, SCHEMA))
  }

  /** `out` is the schema followed by the patched entries, in order. */
  ghost predicate IsInjection(tools: Tools, entries: seq<Entry>, schema: Bytes, text: Bytes, out: seq<Entry>)
    requires AllPatchable(tools, entries)
  {
    && |out| == |entries| + 1 && out[0] == Entry(SCHEMA, true, schema)
    && forall i | 0 <= i < |entries| :: out[i + 1] == Patched(tools, entries[i], text)
  }

  method LastChecksums(entries: seq<Entry>) returns (checksums: Bytes)
    ensures checksums == ChecksumText(entries)
  {
    checksums := "";
    for i := 0 to |entries|
      invariant checksums == ChecksumText(entries[..i])
    {
      assert entries[..i + 1][..i] == entries[..i];
      if entries[i].name == CHECKSUMS {
        checksums := entries[i].data;
      }
    }
    assert entries[..|entries|] == entries;
  }

  ghost predicate ManifestsPatched(tools: Tools, input: seq<Entry>, entries: seq<Entry>, text: Bytes, n: nat)
    requires n <= |input|
  {
    && |entries| == |input|
    && AllParsable(tools, input[..n])
    && (forall k | 0 <= k < n :: Parsable(tools, input[k]) && entries[k] == PatchedManifest(tools, input[k], text))
    && entries[n..] == input[n..]
  }

  /** Step two: every zarf.yaml gets the new aggregate checksum, in place. */
  method PatchManifests(tools: Tools, input: seq<Entry>, text: Bytes) returns (out: Option<seq<Entry>>)
    ensures out.Some? <==> AllParsable(tools, input)
    ensures out.Some? ==> ManifestsPatched(tools, input, out.value, text, |input|)
  {
    var entries := input;
    var agg := tools.sha(text);
    for i := 0 to |entries|
      invariant ManifestsPatched(tools, input, entries, text, i)
    {
      assert entries[i] == entries[i..][0] && input[i] == input[i..][0];
      if entries[i].name == MANIFEST {
        var doc := tools.parse(entries[i].data);
        if doc.None? || !doc.value.hasMetadata {
          assert !Parsable(tools, input[i]);
          return None;
        }
        entries := entries[i := entries[i].(data := tools.marshal(doc.value.(aggregate := agg)))];
      }
    }
    out := Some(entries);
  }

  /** Step three: the schema first, then every entry, checksums.txt with its new text. */
  method WriteOut(tools: Tools, input: seq<Entry>, entries: seq<Entry>, schema: Bytes, text: Bytes)
    returns (out: Option<seq<Entry>>)
    requires AllParsable(tools, input) && ManifestsPatched(tools, input, entries, text, |input|)
    ensures out.Some? <==> AllPatchable(tools, input)
    ensures out.Some? ==> IsInjection(tools, input, schema, text, out.value)
  {
    var written := [Entry(SCHEMA, true, schema)];
    for i := 0 to |entries|
      invariant AllPatchable(tools, input[..i])
      invariant |written| == i + 1 && written[0] == Entry(SCHEMA, true, schema)
      invariant forall k | 0 <= k < i :: Patchable(tools, input[k]) && written[k + 1] == Patched(tools, input[k], text)
    {
      var e := entries[i];
      assert e.name == input[i].name && e.regular == input[i].regular;
      if e.name == CHECKSUMS {
        e := e.(data := text);
      }
      if Rewritten(e) && !e.regular {
        assert !Patchable(tools, input[i]);
        return None;
      }
      written := written + [e];
    }
    assert input[..|input|] == input;
    out := Some(written);
  }

  /** What the text says, for a reader of it. */
  function Says(text: Bytes): multiset<Option<Listed>> { ReadAll(Lines(text)) }

  lemma SchemaLine(tools: Tools, schema: Bytes)
    requires Sound(tools)
    ensures Line(tools, schema, SCHEMA) != "" && '\n' !in Line(tools, schema, SCHEMA)
    ensures ReadLine(Line(tools, schema, SCHEMA)) == Some(Listed(tools.sha(schema), SCHEMA))
  {
    assert '\n' !in " " && '\n' !in SCHEMA;
    ReadMade(tools.sha(schema), SCHEMA);
  }

  /** The new text says what the old one said, and that config.schema.json has the schema's digest. */
  lemma NewTextSays(tools: Tools, entries: seq<Entry>, schema: Bytes)
    requires Sound(tools)
    ensures Says(NewText(tools, entries, schema))
            == Says(ChecksumText(entries)) + multiset{Some(Listed(tools.sha(schema), SCHEMA))}
  {
    SchemaLine(tools, schema);
    RewriteParsesBack(ChecksumText(entries), Line(tools, schema, SCHEMA));
  }

  /** A manifest that cannot be sealed, or one of the two rewritten names on something not a file. */
  predicate Stops(tools: Tools, e: Entry) {
    var manifest := tools.parse(e.data);
    || (e.name == "zarf.yaml" && (manifest.None? || !manifest.value.hasMetadata || !e.regular))
    || (e.name == "checksums.txt" && !e.regular)
  }

  /** The tool itself; None stands for its panics. */
  method Run(tools: Tools, input: seq<Entry>, schema: Bytes) returns (out: Option<seq<Entry>>)
    ensures out.Some? <==> AllPatchable(tools, input)
    ensures out.None? <==> exists i :: 0 <= i < |input| && Stops(tools, input[i])
    ensures out.Some? ==> IsInjection(tools, input, schema, NewText(tools, input, schema), out.value)
  {
    assert forall i | 0 <= i < |input| :: Stops(tools, input[i]) <==> !Patchable(tools, input[i]);
    var checksums := LastChecksums(input);
    var text := RewriteText(checksums, Line(tools, schema, SCHEMA));
    var entries := PatchManifests(tools, input, text);
    if entries.None? {
      return None;
    }
    out := WriteOut(tools, input, entries.value, schema, text);
  }

  lemma PatchedKeepsHeader(tools: Tools, e: Entry, text: Bytes)
    requires Patchable(tools, e)
    ensures Patched(tools, e, text).name == e.name && Patched(tools, e, text).regular == e.regular
    ensures !Rewritten(e) ==> Patched(tools, e, text) == e
  {
  }

  /** No special name starts with "./", so an entry so named is a root file of exactly that name. */
  lemma PlainNames()
    ensures TrimDotSlash(CHECKSUMS) == CHECKSUMS && TrimDotSlash(MANIFEST) == MANIFEST
    ensures TrimDotSlash(SCHEMA) == SCHEMA
    ensures SCHEMA != CHECKSUMS && SCHEMA != MANIFEST && CHECKSUMS != MANIFEST
  {
    assert CHECKSUMS[0] != "./"[0] && MANIFEST[0] != "./"[0] && SCHEMA[0] != "./"[0];
    assert |SCHEMA| != |CHECKSUMS| && |SCHEMA| != |MANIFEST| && |CHECKSUMS| != |MANIFEST|;
  }

  // ---------- reading back ----------

  lemma {:induction false} FindSame(a: seq<Entry>, b: seq<Entry>, name: string)
    requires |a| == |b|
    requires forall i | 0 <= i < |a| ::
      IsRootFile(a[i], name) == IsRootFile(b[i], name) && (IsRootFile(a[i], name) ==> a[i].data == b[i].data)
    ensures FindRoot(a, name) == FindRoot(b, name)
  {
    if a != [] {
      assert forall i | 0 <= i < |a[1..]| :: a[1..][i] == a[i + 1] && b[1..][i] == b[i + 1];
      FindSame(a[1..], b[1..], name);
      assert IsRootFile(a[0], name) == IsRootFile(b[0], name);
    }
  }

  lemma PatchedRoot(tools: Tools, e: Entry, text: Bytes, name: string)
    requires Patchable(tools, e) && name != CHECKSUMS && name != MANIFEST
    ensures IsRootFile(Patched(tools, e, text), name) == IsRootFile(e, name)
    ensures IsRootFile(e, name) ==> Patched(tools, e, text) == e
  {
    PlainNames();
    PatchedKeepsHeader(tools, e, text);
  }

  lemma OthersRead(tools: Tools, entries: seq<Entry>, schema: Bytes, text: Bytes, out: seq<Entry>, name: string)
    requires AllPatchable(tools, entries) && IsInjection(tools, entries, schema, text, out)
    requires name != SCHEMA && name != CHECKSUMS && name != MANIFEST
    ensures FindRoot(out, name) == FindRoot(entries, name)
  {
    var rest := out[1..];
    forall i | 0 <= i < |rest|
      ensures IsRootFile(rest[i], name) == IsRootFile(entries[i], name)
      ensures IsRootFile(rest[i], name) ==> rest[i].data == entries[i].data
    {
      assert Patchable(tools, entries[i]);
      assert rest[i] == out[i + 1];
      PatchedRoot(tools, entries[i], text, name);
    }
    FindSame(rest, entries, name);
    PlainNames();
  }

  /** The injected bytes are what a reader gets for config.schema.json; every other root file
      except the two rewritten ones reads as before. */
  lemma ReadBack(tools: Tools, entries: seq<Entry>, schema: Bytes, text: Bytes, out: seq<Entry>, name: string)
    requires AllPatchable(tools, entries) && IsInjection(tools, entries, schema, text, out)
    ensures FindRoot(out, SCHEMA) == Some(schema)
    ensures name != SCHEMA && name != CHECKSUMS && name != MANIFEST ==> FindRoot(out, name) == FindRoot(entries, name)
  {
    PlainNames();
    if name != SCHEMA && name != CHECKSUMS && name != MANIFEST {
      OthersRead(tools, entries, schema, text, out, name);
    }
  }

  /** The config-schema endpoint serves the injected schema unless the package has a native one. */
  lemma EndpointServesInjected(tools: Tools, entries: seq<Entry>, schema: Bytes, text: Bytes, out: seq<Entry>)
    requires AllPatchable(tools, entries) && IsInjection(tools, entries, schema, text, out)
    ensures ConfigSchema(Unpacked(out, true))
            == match FindRoot(entries, "values.schema.json")
               case Some(native) => Ok((Values, native))
               case None => Ok((Overrides, schema))
  {
    var native := "values.schema.json";
    assert native[0] != SCHEMA[0] && native[0] != CHECKSUMS[0] && native[0] != MANIFEST[0];
    ReadBack(tools, entries, schema, text, out, native);
  }
}
