/** The store as a server object: packages and upload sessions on disk, one call at a time. */
module PackageStore {
  import opened Common
  import opened Sorting
  import opened PackageNames
  import opened PackageTable
  import opened PackageDir
  import opened PackageSteps
  import Srv = UploadServer
  import Runs = UploadRuns
  import Archives

  datatype Upload = Upload(id: string, fileNameHint: string, shasum: string, createdAt: int, chunks: Srv.Record)

  /** uploads/<id>: session.json and chunks/<index>. */
  datatype Session = Session(upload: Upload, files: map<nat, Bytes>)

  datatype Failure =
    | NoSuchUpload
    | NegativeIndex
    | BodyBroken
    | NoChunks
    | MissingChunk(index: nat)
    | ImportFailed(error: ImportError)

  predicate HexLower(ch: char) { 'a' <= ch <= 'f' || '0' <= ch <= '9' }

  /** `^[a-f0-9]{16}$` */
  predicate UploadId(id: string) { |id| == 16 && forall i | 0 <= i < |id| :: HexLower(id[i]) }

  const HEX := "0123456789abcdef"

  /** `hex.EncodeToString` */
  function HexOf(bytes: seq<nat>): (s: string)
    requires forall i | 0 <= i < |bytes| :: bytes[i] < 256
  {
    if bytes == [] then ""
    else [HEX[bytes[0] / 16], HEX[bytes[0] % 16]] + HexOf(bytes[1..])
  }

  /** `newUploadID` turns eight random bytes into an upload id. */
  lemma {:induction false} NewIdIsUploadId(bytes: seq<nat>)
    requires forall i | 0 <= i < |bytes| :: bytes[i] < 256
    ensures |HexOf(bytes)| == 2 * |bytes| && forall i | 0 <= i < |HexOf(bytes)| :: HexLower(HexOf(bytes)[i])
    ensures |bytes| == 8 ==> UploadId(HexOf(bytes))
  {
    HexDigits();
    if bytes != [] {
      NewIdIsUploadId(bytes[1..]);
    }
  }

  lemma HexDigits()
    ensures |HEX| == 16 && forall i | 0 <= i < 16 :: HexLower(HEX[i])
  {
  }

  /** Between calls, session.json lists exactly the chunk files, with their sizes. */
  ghost predicate ValidSession(id: string, s: Session) {
    UploadId(id) && s.upload.id == id && s.upload.chunks == Runs.FileSizes(s.files)
  }

  /** `PutChunk` on one session. */
  function PutInto(s: Session, index: nat, body: Bytes): Session {
    Session(s.upload.(chunks := s.upload.chunks[index := |body|]), s.files[index := body])
  }

  predicate ByIndex(a: nat, b: nat) { a <= b }

  predicate ById(a: Package, b: Package) { StrLe(a.id, b.id) }

  lemma SortedSetIsStrict(keys: set<nat>, s: seq<nat>)
    requires multiset(s) == multiset(keys) && Sorted(s, ByIndex)
    ensures |s| == |keys|
    ensures forall i, j | 0 <= i < j < |s| :: s[i] < s[j]
    ensures forall x: nat :: x in keys <==> x in s
  {
    assert |multiset(s)| == |s| && |multiset(keys)| == |keys|;
    forall i, j | 0 <= i < j < |s| ensures s[i] < s[j] {
      assert ByIndex(s[i], s[j]);
      assert multiset(keys)[s[i]] <= 1;
      if s[i] == s[j] {
        Repeated(s, i, j);
      }
    }
    forall x: nat ensures x in keys <==> x in s {
      assert x in keys <==> x in multiset(s);
    }
  }

  /** `slices.Sort` of a map's keys, gathered in whatever order the iteration yields them. */
  method SortedKeys(keys: set<nat>) returns (indexes: seq<nat>)
    ensures |indexes| == |keys|
    ensures forall i, j | 0 <= i < j < |indexes| :: indexes[i] < indexes[j]
    ensures forall x: nat :: x in keys <==> x in indexes
  {
    indexes := [];
    var todo := keys;
    while todo != {}
      invariant todo <= keys
      invariant multiset(indexes) == multiset(keys - todo)
    {
      var idx :| idx in todo;
      assert keys - (todo - {idx}) == (keys - todo) + {idx};
      todo := todo - {idx};
      indexes := indexes + [idx];
    }
    assert keys - todo == keys;
    SortSorted(indexes, ByIndex);
    SortedSetIsStrict(keys, Sort(indexes, ByIndex));
    indexes := Sort(indexes, ByIndex);
  }

  /** In a strictly increasing list, the first position that differs from its index is a value left out. */
  lemma GapIsLeast(s: seq<nat>, i: nat)
    requires forall j, k | 0 <= j < k < |s| :: s[j] < s[k]
    requires i < |s| && s[i] != i && forall j: nat | j < i :: s[j] == j
    ensures i !in s && forall j: nat | j < i :: j in s
  {
    assert i > 0 ==> s[i - 1] < s[i];
    forall j: nat | j < i ensures j in s {
      assert s[j] == j;
    }
  }

  /** The contiguity loop of `CompleteUpload`: it passes iff the indexes are exactly 0..n-1,
      and otherwise names the least index that is missing. */
  method FirstMissing(keys: set<nat>) returns (indexes: seq<nat>, missing: Option<nat>)
    ensures missing.None? ==> keys == Runs.Below(|keys|) && indexes == seq(|keys|, i => i)
    ensures missing.Some? ==>
      missing.value < |keys| && missing.value !in keys && forall j: nat | j < missing.value :: j in keys
  {
    indexes := SortedKeys(keys);
    for want := 0 to |indexes|
      invariant forall j: nat | j < want :: indexes[j] == j
    {
      if want != indexes[want] {
        GapIsLeast(indexes, want);
        return indexes, Some(want);
      }
    }
    forall x: nat ensures x in keys <==> x < |indexes| {
      assert x < |indexes| ==> indexes[x] in keys;
    }
    missing := None;
  }

  class Store {
    const env: Env
    var packages: Dir
    var sessions: map<string, Session>

    ghost predicate Valid()
      reads this
    {
      WellFormed(packages) && forall id | id in sessions :: ValidSession(id, sessions[id])
    }

    /** `Open` on empty directories. */
    constructor (env: Env)
      ensures Valid() && packages == map[] && sessions == map[] && this.env == env
      ensures Settled(env, packages)
    {
      this.env := env;
      packages, sessions := map[], map[];
    }

    // ---------- packages ----------

    /** Checks a complete temp file and moves it into place with its sidecar. */
    method FinalizeImport(tmp: string, req: ImportRequest) returns (r: Result<Package, ImportError>)
      requires TempName(tmp) && tmp in packages && packages[tmp].Tarball?
      modifies this`packages
      ensures r == Accept(env, req, old(packages)[tmp].data, old(packages).Keys - {tmp})
      ensures r.Ok? ==>
        Approved(env, req, old(packages)[tmp].data, r.value) && r.value.id !in old(packages).Keys - {tmp}
      ensures r.Err? ==> RefusedFor(env, req, old(packages)[tmp].data, old(packages).Keys - {tmp}, r.error)
      ensures packages == match r
        case Err(_) => old(packages)
        case Ok(pkg) => (old(packages) - {tmp})[pkg.id := old(packages)[tmp]][MetaName(pkg.id) := Sidecar(pkg)]
    {
      var data := packages[tmp].data;
      AcceptIff(env, req, data, packages.Keys - {tmp});
      var sum := env.sha256(data);
      if req.shasum != "" && !EqualFold(req.shasum, sum) {
        return Err(ChecksumMismatch);
      }
      var definition, fileName := NO_DEFINITION, req.fileNameHint;
      if req.validate {
        match env.load(data, req.verify) {
          case LoadFailed => return Err(ValidationFailed);
          case Loaded(_, None) => return Err(FileNameFailed);
          case Loaded(loaded, Some(name)) => definition, fileName := loaded, name;
        }
      }
      if fileName == "" {
        return Err(NoFileName);
      }
      if !ValidId(fileName) {
        return Err(InvalidFileName);
      }
      NameClassesDisjoint(fileName);
      if fileName in packages {
        return Err(Exists(fileName));
      }
      packages := (packages - {tmp})[fileName := packages[tmp]];
      var pkg := Package(fileName, definition, |data|, sum, req.now);
      packages := packages[MetaName(fileName) := Sidecar(pkg)];
      r := Ok(pkg);
    }

    /** A fresh temp file, then one write per piece. */
    method ReceiveStream(pieces: seq<Bytes>, tmp: string)
      modifies this`packages
      ensures packages == old(packages)[tmp := Tarball(Concat(pieces))]
    {
      ghost var before := packages;
      packages := packages[tmp := Tarball([])];
      for i := 0 to |pieces|
        invariant packages == before[tmp := Tarball(Concat(pieces[..i]))]
      {
        packages := packages[tmp := Tarball(packages[tmp].data + pieces[i])];
        PieceMore(pieces, i);
      }
      assert pieces[..|pieces|] == pieces;
    }

    /** Streams a tarball into the store: the file operations are exactly those of `ImportOps`,
        and on a settled directory the whole call is one step of the abstract table. */
    method ImportReader(pieces: seq<Bytes>, broken: bool, req: ImportRequest, tmp: string)
      returns (r: Result<Package, ImportError>)
      requires Valid() && Fresh(packages, tmp)
      modifies this`packages
      ensures Valid()
      ensures r == ImportResult(env, old(packages).Keys, req, pieces, broken)
      ensures packages == ApplyAll(old(packages), ImportOps(tmp, pieces, r))
      ensures Settled(env, old(packages)) ==>
        && Settled(env, packages)
        && Abs(packages) == TableImport(Abs(old(packages)), Concat(pieces), r)
        && r == ImportResult(env, Abs(old(packages)).Keys, req, pieces, broken)
    {
      ghost var before := packages;
      ReceiveStream(pieces, tmp);
      assert packages.Keys - {tmp} == before.Keys && packages - {tmp} == before;
      if broken {
        r := Err(ReadFailed);
      } else {
        r := FinalizeImport(tmp, req);
      }
      packages := packages - {tmp};
      ImportEffect(env, before, req, tmp, pieces, broken, packages);
    }

    /** `Delete`: the tarball first, then the sidecar, whose absence is no error. */
    method Delete(id: string) returns (ok: bool)
      requires Valid()
      modifies this`packages
      ensures Valid()
      ensures ok <==> ValidId(id) && id in old(packages)
      ensures packages == ApplyAll(old(packages), DeleteOps(old(packages), id))
      ensures Settled(env, old(packages)) ==>
        && Settled(env, packages)
        && Abs(packages) == Abs(old(packages)) - {id}
        && (ok <==> id in Abs(old(packages)))
    {
      ghost var before := packages;
      if !ValidId(id) || id !in packages {
        ok := false;
      } else {
        packages := packages - {id};
        packages := packages - {MetaName(id)};
        ok := true;
      }
      DeleteEffect(env, before, id, packages);
    }

    method Get(id: string) returns (r: Result<Package, StoreError>)
      requires Valid()
      ensures r == GetPackage(packages, id)
      ensures ValidId(id) && MetaName(id) in packages ==>
                packages[MetaName(id)].Sidecar? && r == Ok(packages[MetaName(id)].pkg)
      ensures !(ValidId(id) && MetaName(id) in packages) ==> r == Err(NotFound)
      ensures Settled(env, packages) ==>
        r == if id in Abs(packages) then Ok(Abs(packages)[id].pkg) else Err(NotFound)
    {
      NameClassesDisjoint(MetaName(id));
      MetaNameInjective(id, id);
      if !ValidId(id) || MetaName(id) !in packages {
        r := Err(NotFound);
      } else {
        match packages[MetaName(id)] {
          case Sidecar(pkg) => r := Ok(pkg);
          case Tarball(_) => r := Err(Unreadable);
        }
      }
      if ValidId(id) { IdIsTarball(packages, id); }
    }

    method Path(id: string) returns (r: Result<string, StoreError>)
      requires Valid()
      ensures r == PackagePath(packages, id)
      ensures r.Ok? <==> ValidId(id) && id in packages
      ensures r.Ok? ==> r.value == id && packages[id].Tarball?
      ensures r.Err? ==> r.error == NotFound
      ensures Settled(env, packages) ==> (r.Ok? <==> id in Abs(packages))
    {
      if !ValidId(id) || id !in packages {
        r := Err(NotFound);
      } else {
        r := Ok(id);
      }
      if ValidId(id) { IdIsTarball(packages, id); }
    }

    /** `List`: every readable sidecar once, sorted by id, whatever order the directory is read in. */
    method List() returns (out: seq<Package>)
      requires Valid()
      ensures StrictlyById(out)
      ensures forall p :: p in out <==> p in Listed(packages)
      ensures Settled(env, packages) ==>
        && (forall id | id in Abs(packages) :: Abs(packages)[id].pkg in out)
        && (forall p | p in out :: p.id in Abs(packages) && Abs(packages)[p.id].pkg == p)
    {
      var entries := packages.Keys;
      out := [];
      while entries != {}
        invariant entries <= packages.Keys
        invariant DistinctIds(out)
        invariant forall p :: p in out <==> p in ListedIn(packages, packages.Keys - entries)
      {
        var e :| e in entries;
        ListedMore(packages, packages.Keys - entries, e);
        assert packages.Keys - (entries - {e}) == (packages.Keys - entries) + {e};
        entries := entries - {e};
        if HasSuffix(e, META) && packages[e].Sidecar? {
          AppendDistinct(packages, packages.Keys - entries - {e}, out, e);
          out := out + [packages[e].pkg];
        }
      }
      assert packages.Keys - entries == packages.Keys;
      ListedAll(packages);
      SortDistinct(out);
      SortKeepsMembers(out);
      out := Sort(out, ById);
      ListedIsTable(env, packages);
    }

    /** Reads one root file out of a stored package. */
    method ReadPackageRootFile(id: string, name: string) returns (r: Result<Bytes, Archives.RootFailure>)
      requires Valid()
      ensures r == RootFileOf(env, packages, id, name)
      ensures r == Err(Archives.BadName) <==> name == "" || '/' in name || '\\' in name
      ensures r == Err(Archives.NoPackage) <==>
        !(name == "" || '/' in name || '\\' in name) && (!ValidId(id) || id !in packages)
    {
      if name == "" || '/' in name || '\\' in name {
        return Err(Archives.BadName);
      }
      var p := Path(id);
      if p.Err? {
        return Err(Archives.NoPackage);
      }
      IdIsTarball(packages, id);
      var u := env.unpack(packages[id].data, HasSuffix(id, ".zst"));
      for i := 0 to |u.entries|
        invariant Archives.FindRoot(u.entries, name) == Archives.FindRoot(u.entries[i..], name)
      {
        var entry := Archives.TrimDotSlash(u.entries[i].name);
        if u.entries[i].regular && entry == name {
          return Ok(u.entries[i].data);
        }
        assert u.entries[i..][1..] == u.entries[i + 1..];
      }
      r := if u.clean then Err(Archives.NotInPackage) else Err(Archives.ArchiveBroken);
    }

    // ---------- upload sessions ----------

    /** Starts a session under a fresh random id. */
    method CreateUpload(id: string, fileNameHint: string, shasum: string, now: int) returns (u: Upload)
      requires Valid() && UploadId(id) && id !in sessions
      modifies this`sessions
      ensures Valid()
      ensures u == Upload(id, fileNameHint, shasum, now, map[])
      ensures sessions == old(sessions)[id := Session(u, map[])]
    {
      u := Upload(id, fileNameHint, shasum, now, map[]);
      sessions := sessions[id := Session(u, map[])];
    }

    method GetUpload(id: string) returns (r: Option<Upload>)
      requires Valid()
      ensures r == if id in sessions then Some(sessions[id].upload) else None
    {
      r := if UploadId(id) && id in sessions then Some(sessions[id].upload) else None;
    }

    /** Stores one chunk; a refused or broken request changes nothing, the last write of an index wins. */
    method PutChunk(id: string, index: int, body: Bytes, broken: bool) returns (r: Result<Upload, Failure>)
      requires Valid()
      modifies this`sessions
      ensures Valid()
      ensures r.Ok? <==> index >= 0 && id in old(sessions) && !broken
      ensures r.Err? ==> sessions == old(sessions)
      ensures r.Ok? ==>
        && sessions == old(sessions)[id := PutInto(old(sessions)[id], index, body)]
        && r.value == sessions[id].upload
    {
      if index < 0 {
        return Err(NegativeIndex);
      }
      if !UploadId(id) || id !in sessions {
        return Err(NoSuchUpload);
      }
      if broken {
        return Err(BodyBroken);
      }
      PutStaysValid(id, sessions[id], index, body);
      sessions := sessions[id := sessions[id].(files := sessions[id].files[index := body])];
      var u := sessions[id].upload;
      u := u.(chunks := u.chunks[index := |body|]);
      sessions := sessions[id := sessions[id].(upload := u)];
      r := Ok(u);
    }

    method AbortUpload(id: string) returns (ok: bool)
      requires Valid()
      modifies this`sessions
      ensures Valid()
      ensures ok <==> id in old(sessions)
      ensures sessions == old(sessions) - {id}
    {
      ok := UploadId(id) && id in sessions;
      sessions := sessions - {id};
    }

    /** Copies the chunk files, in index order, into a fresh temp file. */
    method AssembleTemp(files: map<nat, Bytes>, indexes: seq<nat>, tmp: string)
      requires forall i: nat | i < |indexes| :: indexes[i] == i && i in files
      modifies this`packages
      ensures packages == old(packages)[tmp := Tarball(Concat(Runs.FirstChunks(files, |indexes|)))]
    {
      ghost var before := packages;
      ghost var pieces := Runs.FirstChunks(files, |indexes|);
      packages := packages[tmp := Tarball([])];
      for i := 0 to |indexes|
        invariant packages == before[tmp := Tarball(Concat(pieces[..i]))]
      {
        packages := packages[tmp := Tarball(packages[tmp].data + files[indexes[i]])];
        PieceMore(pieces, i);
      }
      assert pieces[..|indexes|] == pieces;
    }

    /** The second half of `CompleteUpload`: assembles the chunks and imports the result. */
    method ImportChunks(files: map<nat, Bytes>, indexes: seq<nat>, req: ImportRequest, tmp: string)
      returns (r: Result<Package, ImportError>)
      requires Valid() && Fresh(packages, tmp)
      requires forall i: nat | i < |indexes| :: indexes[i] == i && i in files
      modifies this`packages
      ensures Valid()
      ensures var pieces := Runs.FirstChunks(files, |indexes|);
              && r == ImportResult(env, old(packages).Keys, req, pieces, false)
              && packages == ApplyAll(old(packages), ImportOps(tmp, pieces, r))
              && (r.Ok? ==> r.value.size == |Concat(pieces)| && Holds(packages, r.value.id, Concat(pieces)))
      ensures r.Err? ==> packages == old(packages)
      ensures Settled(env, old(packages)) ==> Settled(env, packages)
    {
      ghost var before := packages;
      AssembleTemp(files, indexes, tmp);
      assert packages.Keys - {tmp} == before.Keys && packages - {tmp} == before;
      r := FinalizeImport(tmp, req);
      packages := packages - {tmp};
      ImportEffect(env, before, req, tmp, Runs.FirstChunks(files, |indexes|), false, packages);
    }

    /** The rest of `CompleteUpload` once the indexes are known to be 0..n-1. */
    method CompleteGapFree(id: string, indexes: seq<nat>, validate: bool, verify: Verify, now: int, tmp: string)
      returns (r: Result<Package, Failure>)
      requires Valid() && Fresh(packages, tmp) && id in sessions
      requires sessions[id].upload.chunks.Keys == Runs.Below(|indexes|) && indexes == seq(|indexes|, i => i)
      modifies this
      ensures Valid()
      ensures var s := old(sessions)[id];
              var req := ImportRequest(s.upload.fileNameHint, s.upload.shasum, validate, verify, now);
              var imported := ImportResult(env, old(packages).Keys, req, Pieces(s), false);
              && r == Outcome(imported)
              && packages == ApplyAll(old(packages), ImportOps(tmp, Pieces(s), imported))
      ensures r.Err? ==> sessions == old(sessions) && packages == old(packages)
      ensures r.Ok? ==>
        && sessions == old(sessions) - {id}
        && r.value.size == MapSum(old(sessions)[id].upload.chunks)
        && Holds(packages, r.value.id, Concat(Pieces(old(sessions)[id])))
      ensures Settled(env, old(packages)) ==> Settled(env, packages)
    {
      var u, files := sessions[id].upload, sessions[id].files;
      GapFreePieces(sessions[id], |indexes|);
      var req := ImportRequest(u.fileNameHint, u.shasum, validate, verify, now);
      var imported := ImportChunks(files, indexes, req, tmp);
      if imported.Err? {
        return Err(ImportFailed(imported.error));
      }
      sessions := sessions - {id};
      r := Ok(imported.value);
    }

    /** Assembles the chunks in index order and imports the result. Any refusal leaves sessions
        and the package directory as they were; success removes exactly this session. */
    method CompleteUpload(id: string, validate: bool, verify: Verify, now: int, tmp: string)
      returns (r: Result<Package, Failure>)
      requires Valid() && Fresh(packages, tmp)
      modifies this
      ensures Valid()
      ensures id !in old(sessions) ==> r == Err(NoSuchUpload)
      ensures id in old(sessions) ==> SessionVerdict(old(sessions)[id].upload.chunks.Keys, r)
      ensures id in old(sessions) && Srv.Contiguous(old(sessions)[id].upload.chunks.Keys) ==>
        var s := old(sessions)[id];
        var req := ImportRequest(s.upload.fileNameHint, s.upload.shasum, validate, verify, now);
        var imported := ImportResult(env, old(packages).Keys, req, Pieces(s), false);
        && r == Outcome(imported)
        && packages == ApplyAll(old(packages), ImportOps(tmp, Pieces(s), imported))
      ensures r.Err? ==> sessions == old(sessions) && packages == old(packages)
      ensures r.Ok? ==>
        && id in old(sessions) && sessions == old(sessions) - {id}
        && r.value.size == MapSum(old(sessions)[id].upload.chunks)
        && Holds(packages, r.value.id, Concat(Pieces(old(sessions)[id])))
      ensures Settled(env, old(packages)) ==> Settled(env, packages)
    {
      if !UploadId(id) || id !in sessions {
        return Err(NoSuchUpload);
      }
      var u := sessions[id].upload;
      if u.chunks == map[] {
        return Err(NoChunks);
      }
      var indexes, missing := FirstMissing(u.chunks.Keys);
      if missing.Some? {
        assert !Srv.Contiguous(u.chunks.Keys);
        return Err(MissingChunk(missing.value));
      }
      Runs.ContiguousKeys(u.chunks.Keys, |indexes|);
      r := CompleteGapFree(id, indexes, validate, verify, now, tmp);
    }

    method CountUploads() returns (n: nat)
      ensures n == |sessions|
    {
      n := |sessions.Keys|;
    }
  }

  /** `ReceivedBytes` adds the recorded sizes in whatever order the map yields them. */
  method ReceivedBytes(u: Upload) returns (n: nat)
    ensures n == MapSum(u.chunks)
  {
    n := 0;
    var left := u.chunks;
    while left != map[]
      decreases |left.Keys|
      invariant n + MapSum(left) == MapSum(u.chunks)
    {
      var k :| k in left;
      MapSumAnyKey(left, k);
      n := n + left[k];
      assert (left - {k}).Keys == left.Keys - {k};
      left := left - {k};
    }
  }

  /** The verdict on the recorded indexes: none at all, a gap at the least missing index, or no complaint. */
  ghost predicate SessionVerdict(keys: set<nat>, r: Result<Package, Failure>) {
    if keys == {} then r == Err(NoChunks)
    else if Srv.Contiguous(keys) then r.Ok? || r.error.ImportFailed?
    else r.Err? && r.error.MissingChunk? && r.error.index !in keys && forall j: nat | j < r.error.index :: j in keys
  }

  predicate Holds(d: Dir, id: string, data: Bytes) { id in d && d[id] == Tarball(data) }

  function Outcome(imported: Result<Package, ImportError>): Result<Package, Failure> {
    match imported
    case Ok(pkg) => Ok(pkg)
    case Err(e) => Err(ImportFailed(e))
  }

  /** The chunk files of a gap-free session, in index order. */
  ghost function Pieces(s: Session): seq<Bytes> {
    if s.files.Keys == Runs.Below(|s.files.Keys|) then Runs.FirstChunks(s.files, |s.files.Keys|) else []
  }

  /** The chunk files of a gap-free session are 0..n-1, and together as long as the record says. */
  lemma GapFreePieces(s: Session, n: nat)
    requires s.upload.chunks == Runs.FileSizes(s.files) && s.upload.chunks.Keys == Runs.Below(n)
    ensures forall i: nat :: i in s.files <==> i < n
    ensures Pieces(s) == Runs.FirstChunks(s.files, n)
    ensures |Concat(Pieces(s))| == MapSum(s.upload.chunks)
  {
    assert s.files.Keys == s.upload.chunks.Keys;
    Runs.AssembledLength(s.files, n);
  }

  function RootFileOf(env: Env, d: Dir, id: string, name: string): Result<Bytes, Archives.RootFailure>
  {
    if !Archives.RootName(name) then Err(Archives.BadName)
    else if !ValidId(id) || id !in d || !d[id].Tarball? then Err(Archives.NoPackage)
    else Archives.ReadRoot(env.unpack(d[id].data, HasSuffix(id, ".zst")), name)
  }

  /** Unpacking undoes packing, compressed or not, when it is told which. */
  ghost predicate PacksBack(env: Env, pack: (seq<Archives.Entry>, bool) -> Bytes) {
    forall entries, compressed ::
      env.unpack(pack(entries, compressed), compressed) == Archives.Unpacked(entries, true)
  }

  /** A stored package named as it was packed serves the first file of that name at its root, packed as
      "name" or "./name", and none exactly when it has none. */
  lemma StoredServesRootFile(env: Env, pack: (seq<Archives.Entry>, bool) -> Bytes, d: Dir, stem: string,
                             compressed: bool, entries: seq<Archives.Entry>, name: string)
    requires PacksBack(env, pack) && Archives.RootName(name)
    requires var id := stem + if compressed then ".tar.zst" else ".tar";
             ValidId(id) && Holds(d, id, pack(entries, compressed))
    ensures var r := RootFileOf(env, d, stem + (if compressed then ".tar.zst" else ".tar"), name);
            Archives.Serves(Archives.Unpacked(entries, true), name, r)
  {
    var id := stem + if compressed then ".tar.zst" else ".tar";
    EndsInZst(stem);
    var u := env.unpack(pack(entries, compressed), compressed);
    Archives.ReadRootIff(u, name, Archives.ReadRoot(u, name));
  }

  lemma EndsInZst(stem: string)
    ensures HasSuffix(stem + ".tar.zst", ".zst") && !HasSuffix(stem + ".tar", ".zst")
  {
    var packed, plain := stem + ".tar.zst", stem + ".tar";
    assert packed[|packed| - 4..] == ".zst";
    assert plain[|plain| - 1] == 'r' && ".zst"[3] == 't';
    if HasSuffix(plain, ".zst") { LastChar(plain, ".zst"); }
  }

  lemma ImportStores(env: Env, d: Dir, req: ImportRequest, tmp: string, pieces: seq<Bytes>)
    requires WellFormed(d) && Fresh(d, tmp)
    requires ImportResult(env, d.Keys, req, pieces, false).Ok?
    ensures var r := ImportResult(env, d.Keys, req, pieces, false);
            ValidId(r.value.id) && Holds(ApplyAll(d, ImportOps(tmp, pieces, r)), r.value.id, Concat(pieces))
  {
    var r := ImportResult(env, d.Keys, req, pieces, false);
    var d' := d[r.value.id := Tarball(Concat(pieces))][MetaName(r.value.id) := Sidecar(r.value)] - {tmp};
    ImportPublishable(env, d, req, pieces, false);
    ImportEffect(env, d, req, tmp, pieces, false, d');
  }

  /** A package that was imported under a name that says how it was packed serves its root files. */
  lemma ImportedServesRootFile(env: Env, pack: (seq<Archives.Entry>, bool) -> Bytes, d: Dir, req: ImportRequest,
                               tmp: string, pieces: seq<Bytes>, stem: string, compressed: bool,
                               entries: seq<Archives.Entry>, name: string)
    requires WellFormed(d) && Fresh(d, tmp)
    requires PacksBack(env, pack) && Archives.RootName(name) && Concat(pieces) == pack(entries, compressed)
    requires var r := ImportResult(env, d.Keys, req, pieces, false);
             r.Ok? && r.value.id == stem + if compressed then ".tar.zst" else ".tar"
    ensures var r := ImportResult(env, d.Keys, req, pieces, false);
            Archives.Serves(Archives.Unpacked(entries, true), name,
                            RootFileOf(env, ApplyAll(d, ImportOps(tmp, pieces, r)), r.value.id, name))
  {
    var r := ImportResult(env, d.Keys, req, pieces, false);
    ImportStores(env, d, req, tmp, pieces);
    StoredServesRootFile(env, pack, ApplyAll(d, ImportOps(tmp, pieces, r)), stem, compressed, entries, name);
  }

  /** The three writes of an import, seen from outside the call. */
  lemma ImportEffect(env: Env, d: Dir, req: ImportRequest, tmp: string, pieces: seq<Bytes>, broken: bool, d': Dir)
    requires WellFormed(d) && Fresh(d, tmp)
    requires var r := ImportResult(env, d.Keys, req, pieces, broken);
             d' == (match r
                    case Err(_) => d
                    case Ok(pkg) => d[pkg.id := Tarball(Concat(pieces))][MetaName(pkg.id) := Sidecar(pkg)]) - {tmp}
    ensures var r := ImportResult(env, d.Keys, req, pieces, broken);
            && d' == ApplyAll(d, ImportOps(tmp, pieces, r))
            && WellFormed(d')
            && (r.Err? ==> d' == d)
            && (r.Ok? ==> r.value.size == |Concat(pieces)| && Holds(d', r.value.id, Concat(pieces)))
            && (Settled(env, d) ==>
                  && Settled(env, d')
                  && Abs(d') == TableImport(Abs(d), Concat(pieces), r)
                  && r == ImportResult(env, Abs(d).Keys, req, pieces, broken))
  {
    var r := ImportResult(env, d.Keys, req, pieces, broken);
    var ops := ImportOps(tmp, pieces, r);
    ImportPublishable(env, d, req, pieces, broken);
    if r.Ok? { TempApart(tmp, r.value.id); }
    ImportStages(d, tmp, pieces, r, |ops|);
    assert ops[..|ops|] == ops;
    ImportStageKeeps(env, d, tmp, pieces, r, |ops|);
    var stage := ImportStage(d, tmp, pieces, r, |ops|);
    assert stage - {tmp} == stage;
    if Settled(env, d) {
      ImportRefines(env, d, tmp, pieces, r);
      SameVerdict(env, d, req, pieces, broken);
    }
  }

  lemma DeleteEffect(env: Env, d: Dir, id: string, d': Dir)
    requires WellFormed(d)
    requires d' == if ValidId(id) && id in d then d - {id} - {MetaName(id)} else d
    ensures d' == ApplyAll(d, DeleteOps(d, id)) && WellFormed(d')
    ensures Settled(env, d) ==>
      Settled(env, d') && Abs(d') == Abs(d) - {id} && (ValidId(id) && id in d <==> id in Abs(d))
  {
    var ops := DeleteOps(d, id);
    DeleteStages(d, id, |ops|);
    assert ops[..|ops|] == ops;
    if Settled(env, d) {
      DeleteRefines(env, d, id);
    }
  }

  lemma PutStaysValid(id: string, s: Session, index: nat, body: Bytes)
    requires ValidSession(id, s)
    ensures ValidSession(id, PutInto(s, index, body))
  {
  }

  /** A put that runs without interruption is exactly `PutChunk`. */
  lemma PutChunkIsThePutRun(s: Session, server: Srv.State, t: nat, index: nat, body: Bytes)
    requires server.disk == Srv.Dir(Some(s.upload.chunks), s.files, map[]) && server.mu.None? && t !in server.puts
    ensures var end := Srv.Exec(server, Runs.PutSteps(t, index, body));
            var s' := PutInto(s, index, body);
            end.Some? && end.value.disk == Srv.Dir(Some(s'.upload.chunks), s'.files, map[])
  {
    Runs.PutAlone(server, t, index, body);
    var none: map<nat, Bytes> := map[];
    assert none - {t} == none;
  }

  // ---------- listing ----------

  ghost function ListedIn(d: Dir, names: set<string>): set<Package> {
    set n | n in names && n in d && SidecarName(n) && d[n].Sidecar? :: d[n].pkg
  }

  ghost predicate DistinctIds(s: seq<Package>) {
    forall i, j | 0 <= i < j < |s| :: s[i].id != s[j].id
  }

  predicate StrictlyById(s: seq<Package>) {
    forall i, j | 0 <= i < j < |s| :: StrLe(s[i].id, s[j].id) && s[i].id != s[j].id
  }

  lemma ListedMore(d: Dir, names: set<string>, e: string)
    requires e in d
    ensures ListedIn(d, names + {e})
            == ListedIn(d, names) + if SidecarName(e) && d[e].Sidecar? then {d[e].pkg} else {}
  {
    var a := ListedIn(d, names + {e});
    var b := ListedIn(d, names) + if SidecarName(e) && d[e].Sidecar? then {d[e].pkg} else {};
    forall p | p in b ensures p in a {
      if SidecarName(e) && d[e].Sidecar? && p == d[e].pkg {
        assert e in names + {e};
      } else {
        var n :| n in names && n in d && SidecarName(n) && d[n].Sidecar? && d[n].pkg == p;
        assert n in names + {e};
      }
    }
  }

  lemma ListedAll(d: Dir)
    ensures ListedIn(d, d.Keys) == Listed(d)
  {
  }

  /** Two sidecars never carry the same id, so the id of a new entry is new. */
  lemma AppendDistinct(d: Dir, names: set<string>, out: seq<Package>, e: string)
    requires WellFormed(d) && e in d && d[e].Sidecar? && e !in names
    requires DistinctIds(out) && forall p :: p in out <==> p in ListedIn(d, names)
    ensures DistinctIds(out + [d[e].pkg])
  {
    forall i | 0 <= i < |out| ensures out[i].id != d[e].pkg.id {
      assert out[i] in out;
      var n :| n in names && n in d && SidecarName(n) && d[n].Sidecar? && d[n].pkg == out[i];
      assert n == MetaName(out[i].id) && e == MetaName(d[e].pkg.id);
    }
  }

  lemma ByIdOrder(s: seq<Package>)
    ensures TotalOn(s, ById) && TransitiveOn(s, ById)
  {
    forall x, y | x in s && y in s ensures ById(x, y) || ById(y, x) {
      StrLeTotal(x.id, y.id);
    }
    forall x, y, z | x in s && y in s && z in s && ById(x, y) && ById(y, z) ensures ById(x, z) {
      StrLeTransitive(x.id, y.id, z.id);
    }
  }

  lemma SortKeepsMembers(s: seq<Package>)
    ensures forall p :: p in Sort(s, ById) <==> p in s
  {
    SameElements(Sort(s, ById), s);
  }

  /** Sorting packages with distinct ids sorts them strictly. */
  lemma SortDistinct(s: seq<Package>)
    requires DistinctIds(s)
    ensures StrictlyById(Sort(s, ById))
  {
    var r := Sort(s, ById);
    ByIdOrder(s);
    SortSorted(s, ById);
    SortKeepsMembers(s);
    assert Distinct(s);
    ReorderedDistinct(s, r);
    forall i, j | 0 <= i < j < |r| ensures StrLe(r[i].id, r[j].id) && r[i].id != r[j].id {
      assert ById(r[i], r[j]);
      assert r[i] in s && r[j] in s by { assert r[i] in r && r[j] in r; }
    }
  }

  /** On a settled directory the listed sidecars are exactly the table's packages. */
  lemma ListedIsTable(env: Env, d: Dir)
    requires WellFormed(d)
    ensures Settled(env, d) ==>
      && (forall id | id in Abs(d) :: Abs(d)[id].pkg in Listed(d))
      && (forall p | p in Listed(d) :: p.id in Abs(d) && Abs(d)[p.id].pkg == p)
  {
    if Settled(env, d) {
      forall id | id in Abs(d) ensures Abs(d)[id].pkg in Listed(d) {
        MetaNameInjective(id, id);
        assert MetaName(id) in d;
      }
      forall p | p in Listed(d) ensures p.id in Abs(d) && Abs(d)[p.id].pkg == p {
        var n :| n in d && SidecarName(n) && d[n].Sidecar? && d[n].pkg == p;
        assert n == MetaName(p.id) && ValidId(p.id);
        assert InStep(env, d, p.id);
        IdIsTarball(d, p.id);
      }
    }
  }
}
