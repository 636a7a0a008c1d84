/** Package archives as lists of entries, and how a single root file is found in one. */
module Archives {
  import opened Common
  import opened PackageNames

  datatype Entry = Entry(name: string, regular: bool, data: Bytes)

  /** What a reader gets out of an archive: the readable entries, then a clean end or an error. */
  datatype Unpacked = Unpacked(entries: seq<Entry>, clean: bool)

  /** `strings.TrimPrefix(name, "./")` */
  function TrimDotSlash(name: string): string {
    if HasPrefix(name, "./") then name[2..] else name
  }

  predicate IsRootFile(e: Entry, name: string) {
    e.regular && TrimDotSlash(e.name) == name
  }

  /** A plain base name; anything else is refused before the archive is opened. */
  predicate RootName(name: string) {
    name != "" && '/' !in name && '\\' !in name
  }

  /** The first regular entry of that name at the root. */
  function FindRoot(entries: seq<Entry>, name: string): (r: Option<Bytes>)
    ensures r.None? <==> forall i | 0 <= i < |entries| :: !IsRootFile(entries[i], name)
    ensures r.Some? ==> exists i ::
      0 <= i < |entries| && IsRootFile(entries[i], name) && entries[i].data == r.value
      && forall j | 0 <= j < i :: !IsRootFile(entries[j], name)
  {
    if entries == [] then None
    else if IsRootFile(entries[0], name) then
      assert IsRootFile(entries[0], name) && entries[0].data == entries[0].data;
      Some(entries[0].data)
    else
      var rest := FindRoot(entries[1..], name);
      assert rest.None? ==> forall i | 0 < i < |entries| :: entries[i] == entries[1..][i - 1];
      assert rest.Some? ==> exists i ::
        0 <= i < |entries| && IsRootFile(entries[i], name) && entries[i].data == rest.value
        && forall j | 0 <= j < i :: !IsRootFile(entries[j], name) by {
        if rest.Some? {
          var k :| 0 <= k < |entries[1..]| && IsRootFile(entries[1..][k], name) && entries[1..][k].data == rest.value
            && forall j | 0 <= j < k :: !IsRootFile(entries[1..][j], name);
          assert entries[k + 1] == entries[1..][k];
          forall j | 0 <= j < k + 1 ensures !IsRootFile(entries[j], name) {
            if j > 0 { assert entries[j] == entries[1..][j - 1]; }
          }
        }
      }
      rest
  }

  datatype RootFailure = BadName | NoPackage | NotInPackage | ArchiveBroken

  /** The scan stops at the first match; only a scan that finds nothing reaches the end or the error. */
  function ReadRoot(u: Unpacked, name: string): Result<Bytes, RootFailure> {
    match FindRoot(u.entries, name)
    case Some(data) => Ok(data)
    case None => if u.clean then Err(NotInPackage) else Err(ArchiveBroken)
  }

  datatype Target = Values | Overrides

  /** The config-schema endpoint: the native file first, the injected one only if the first is absent. */
  function ConfigSchema(u: Unpacked): Result<(Target, Bytes), RootFailure> {
    match ReadRoot(u, "values.schema.json")
    case Ok(data) => Ok((Values, data))
    case Err(e) =>
      if e != NotInPackage then Err(e)
      else match ReadRoot(u, "config.schema.json")
        case Ok(data) => Ok((Overrides, data))
        case Err(e2) => Err(e2)
  }

  // ---------- what a reader gets, by the names as packed ----------

  /** A file at the root, whether packed as "name" or as "./name". */
  predicate AtRoot(e: Entry, name: string) {
    e.regular && (e.name == name || e.name == "./" + name)
  }

  ghost predicate FirstAt(entries: seq<Entry>, name: string, i: int) {
    0 <= i < |entries| && AtRoot(entries[i], name) && forall j | 0 <= j < i :: !AtRoot(entries[j], name)
  }

  ghost predicate NoneAt(entries: seq<Entry>, name: string) {
    forall i | 0 <= i < |entries| :: !AtRoot(entries[i], name)
  }

  /** The file the reader gets: the first at the root, or none for a reason. */
  ghost predicate Serves(u: Unpacked, name: string, r: Result<Bytes, RootFailure>) {
    match r
    case Ok(data) => exists i :: FirstAt(u.entries, name, i) && u.entries[i].data == data
    case Err(e) => NoneAt(u.entries, name) && e == if u.clean then NotInPackage else ArchiveBroken
  }

  lemma RootFileIff(e: Entry, name: string)
    requires RootName(name)
    ensures IsRootFile(e, name) <==> AtRoot(e, name)
  {
    assert ("./" + name)[2..] == name && ("./" + name)[..2] == "./";
    if HasPrefix(e.name, "./") {
      assert e.name == "./" + e.name[2..];
      assert e.name[1] == "./"[1];
    }
  }

  /** Reading has that verdict, and no other would do. */
  lemma ReadRootIff(u: Unpacked, name: string, r: Result<Bytes, RootFailure>)
    requires RootName(name)
    ensures ReadRoot(u, name) == r <==> Serves(u, name, r)
  {
    forall i | 0 <= i < |u.entries| ensures IsRootFile(u.entries[i], name) <==> AtRoot(u.entries[i], name) {
      RootFileIff(u.entries[i], name);
    }
    var found := FindRoot(u.entries, name);
    if found.Some? {
      var i :| 0 <= i < |u.entries| && IsRootFile(u.entries[i], name) && u.entries[i].data == found.value
        && forall j | 0 <= j < i :: !IsRootFile(u.entries[j], name);
      assert FirstAt(u.entries, name, i);
      if r.Ok? && Serves(u, name, r) {
        var k :| FirstAt(u.entries, name, k) && u.entries[k].data == r.value;
        assert k == i;
      }
    }
  }

  /** The endpoint's answer: the native schema, else the injected one from an archive read to its end,
      else the reason. */
  lemma ConfigSchemaVerdict(u: Unpacked)
    ensures forall i | FirstAt(u.entries, "values.schema.json", i) ::
              ConfigSchema(u) == Ok((Values, u.entries[i].data))
    ensures NoneAt(u.entries, "values.schema.json") && !u.clean ==> ConfigSchema(u) == Err(ArchiveBroken)
    ensures NoneAt(u.entries, "values.schema.json") && u.clean ==>
              forall i | FirstAt(u.entries, "config.schema.json", i) ::
                ConfigSchema(u) == Ok((Overrides, u.entries[i].data))
    ensures NoneAt(u.entries, "values.schema.json") && u.clean && NoneAt(u.entries, "config.schema.json") ==>
              ConfigSchema(u) == Err(NotInPackage)
  {
    SchemaNames();
    ReadRootIff(u, "values.schema.json", ReadRoot(u, "values.schema.json"));
    ReadRootIff(u, "config.schema.json", ReadRoot(u, "config.schema.json"));
    forall i | FirstAt(u.entries, "values.schema.json", i)
      ensures ReadRoot(u, "values.schema.json") == Ok(u.entries[i].data) {
      ReadRootIff(u, "values.schema.json", Ok(u.entries[i].data));
    }
    forall i | FirstAt(u.entries, "config.schema.json", i)
      ensures ReadRoot(u, "config.schema.json") == Ok(u.entries[i].data) {
      ReadRootIff(u, "config.schema.json", Ok(u.entries[i].data));
    }
  }

  lemma SchemaNames()
    ensures RootName("values.schema.json") && RootName("config.schema.json")
  {
  }
}
