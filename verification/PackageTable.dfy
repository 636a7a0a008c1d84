/** The package inventory as callers see it: a table from package id to bytes and metadata. */
module PackageTable {
  import opened Common
  import opened PackageNames
  import Archives

  datatype Verify = IfPossible | Never | Always

  /** What zarf reports about a package it managed to load. */
  datatype Definition = Definition(name: string, version: string, architecture: string, kind: string,
                                   description: string, yolo: bool, components: seq<string>)

  const NO_DEFINITION := Definition("", "", "", "", "", false, [])

  datatype Package = Package(id: string, definition: Definition, size: nat, sha256: string, importedAt: int)

  /** `LoadFromTar` fails, or loads; `FileName()` may still fail. */
  datatype LoadResult = LoadFailed | Loaded(definition: Definition, fileName: Option<string>)

  /** Code outside the repository, as arbitrary functions of the bytes: the hash, zarf's loader,
      and the archive reader (the flag says whether the stream is zstd-compressed). */
  datatype Env = Env(sha256: Bytes -> string, load: (Bytes, Verify) -> LoadResult,
                     unpack: (Bytes, bool) -> Archives.Unpacked)

  datatype ImportRequest = ImportRequest(fileNameHint: string, shasum: string, validate: bool,
                                         verify: Verify, now: int)

  datatype ImportError =
    | ReadFailed
    | ChecksumMismatch
    | ValidationFailed
    | FileNameFailed
    | NoFileName
    | InvalidFileName
    | Exists(id: string)

  function Fold(ch: char): char {
    if 'A' <= ch <= 'Z' then ch - 'A' + 'a' else ch
  }

  /** `strings.EqualFold` on hexadecimal digests. */
  predicate EqualFold(a: string, b: string) {
    |a| == |b| && forall i | 0 <= i < |a| :: Fold(a[i]) == Fold(b[i])
  }

  /** The checks of `finalizeImport`, in order; `taken` are the names already in use. */
  function Accept(env: Env, req: ImportRequest, data: Bytes, taken: set<string>): Result<Package, ImportError> {
    if req.shasum != "" && !EqualFold(req.shasum, env.sha256(data)) then Err(ChecksumMismatch)
    else
      match (if req.validate then env.load(data, req.verify) else Loaded(NO_DEFINITION, Some(req.fileNameHint)))
      case LoadFailed => Err(ValidationFailed)
      case Loaded(_, None) => Err(FileNameFailed)
      case Loaded(definition, Some(name)) =>
        if name == "" then Err(NoFileName)
        else if !ValidId(name) then Err(InvalidFileName)
        else if name in taken then Err(Exists(name))
        else Ok(Package(name, definition, |data|, env.sha256(data), req.now))
  }

  function HexDigit(ch: char): int {
    if '0' <= ch <= '9' then ch as int - '0' as int
    else if 'a' <= ch <= 'f' then ch as int - 'a' as int + 10
    else if 'A' <= ch <= 'F' then ch as int - 'A' as int + 10
    else -1
  }

  /** Two hexadecimal strings pass as equal exactly when they have the same digits, in either case. */
  lemma EqualFoldIsSameDigits(a: string, b: string)
    requires forall i | 0 <= i < |a| :: HexDigit(a[i]) >= 0
    requires forall i | 0 <= i < |b| :: HexDigit(b[i]) >= 0
    ensures EqualFold(a, b) <==> |a| == |b| && forall i | 0 <= i < |a| :: HexDigit(a[i]) == HexDigit(b[i])
  {
    if |a| == |b| {
      forall i | 0 <= i < |a| ensures Fold(a[i]) == Fold(b[i]) <==> HexDigit(a[i]) == HexDigit(b[i]) {
      }
    }
  }

  // ---------- what the checks decide ----------

  predicate DigestFits(env: Env, req: ImportRequest, data: Bytes) {
    req.shasum == "" || EqualFold(req.shasum, env.sha256(data))
  }

  /** The package says of the data what it should: zarf loaded it under this name with this definition,
      or, without validation, it goes by the hint and has no definition. */
  predicate Approved(env: Env, req: ImportRequest, data: Bytes, pkg: Package) {
    && DigestFits(env, req, data) && ValidId(pkg.id)
    && (if req.validate then env.load(data, req.verify) == Loaded(pkg.definition, Some(pkg.id))
        else pkg.id == req.fileNameHint && pkg.definition == NO_DEFINITION)
    && pkg.size == |data| && pkg.sha256 == env.sha256(data) && pkg.importedAt == req.now
  }

  /** The data would be stored under this name. */
  predicate GoesBy(env: Env, req: ImportRequest, data: Bytes, name: string) {
    if req.validate then env.load(data, req.verify).Loaded? && env.load(data, req.verify).fileName == Some(name)
    else req.fileNameHint == name
  }

  /** What each refusal means. */
  ghost predicate RefusedFor(env: Env, req: ImportRequest, data: Bytes, taken: set<string>, e: ImportError) {
    match e
    case ReadFailed => false
    case ChecksumMismatch => req.shasum != "" && !EqualFold(req.shasum, env.sha256(data))
    case ValidationFailed => DigestFits(env, req, data) && req.validate && env.load(data, req.verify) == LoadFailed
    case FileNameFailed =>
      DigestFits(env, req, data) && req.validate
      && exists definition :: env.load(data, req.verify) == Loaded(definition, None)
    case NoFileName => DigestFits(env, req, data) && GoesBy(env, req, data, "")
    case InvalidFileName =>
      DigestFits(env, req, data) && exists name :: GoesBy(env, req, data, name) && name != "" && !ValidId(name)
    case Exists(id) => DigestFits(env, req, data) && GoesBy(env, req, data, id) && ValidId(id) && id in taken
  }

  /** The checks accept a package exactly when it is approved and its id unused, and refuse with an error
      exactly for that error's reason. */
  lemma AcceptIff(env: Env, req: ImportRequest, data: Bytes, taken: set<string>)
    ensures forall pkg :: Accept(env, req, data, taken) == Ok(pkg) <==>
                          Approved(env, req, data, pkg) && pkg.id !in taken
    ensures forall e :: Accept(env, req, data, taken) == Err(e) <==> RefusedFor(env, req, data, taken, e)
  {
    assert !ValidId("");
    var r := Accept(env, req, data, taken);
    if req.validate && env.load(data, req.verify).Loaded? {
      assert env.load(data, req.verify)
          == Loaded(env.load(data, req.verify).definition, env.load(data, req.verify).fileName);
    }
    forall e ensures r == Err(e) <==> RefusedFor(env, req, data, taken, e) {
      RefusalIff(env, req, data, taken, e);
    }
  }

  lemma RefusalIff(env: Env, req: ImportRequest, data: Bytes, taken: set<string>, e: ImportError)
    ensures Accept(env, req, data, taken) == Err(e) <==> RefusedFor(env, req, data, taken, e)
  {
    assert !ValidId("");
    var r := Accept(env, req, data, taken);
    if req.validate && env.load(data, req.verify).Loaded? {
      var l := env.load(data, req.verify);
      assert l == Loaded(l.definition, l.fileName);
      if l.fileName.Some? { assert GoesBy(env, req, data, l.fileName.value); }
    } else if !req.validate {
      assert GoesBy(env, req, data, req.fileNameHint);
    }
  }

  datatype Entry = Entry(data: Bytes, pkg: Package)

  type Table = map<string, Entry>

  function TableImport(t: Table, data: Bytes, r: Result<Package, ImportError>): Table {
    match r
    case Ok(pkg) => t[pkg.id := Entry(data, pkg)]
    case Err(_) => t
  }
}

/** The directory that stores the table, and the file operations that change it. */
module PackageDir {
  import opened Common
  import opened PackageNames
  import opened PackageTable

  datatype File = Tarball(data: Bytes) | Sidecar(pkg: Package)

  type Dir = map<string, File>

  datatype FileOp =
    | Create(name: string)
    | Append(name: string, data: Bytes)
    | Rename(from: string, to: string)
    | WriteSidecar(name: string, pkg: Package)
    | Remove(name: string)

  /** One file operation; each is atomic. */
  function Apply(d: Dir, op: FileOp): Dir {
    match op
    case Create(n) => d[n := Tarball([])]
    case Append(n, data) => if n in d && d[n].Tarball? then d[n := Tarball(d[n].data + data)] else d
    case Rename(a, b) => if a in d then (d - {a})[b := d[a]] else d
    case WriteSidecar(n, pkg) => d[n := Sidecar(pkg)]
    case Remove(n) => d - {n}
  }

  function ApplyAll(d: Dir, ops: seq<FileOp>): Dir {
    if ops == [] then d else Apply(ApplyAll(d, ops[..|ops| - 1]), ops[|ops| - 1])
  }

  lemma ApplyAllSnoc(d: Dir, ops: seq<FileOp>, op: FileOp)
    ensures ApplyAll(d, ops + [op]) == Apply(ApplyAll(d, ops), op)
  {
    assert (ops + [op])[..|ops|] == ops;
  }

  function Appends(tmp: string, pieces: seq<Bytes>): (ops: seq<FileOp>)
    ensures |ops| == |pieces|
  {
    seq(|pieces|, i requires 0 <= i < |pieces| => Append(tmp, pieces[i]))
  }

  /** Receiving a stream: a fresh temp file, then one write per piece. */
  function ReceiveOps(tmp: string, pieces: seq<Bytes>): seq<FileOp> {
    [Create(tmp)] + Appends(tmp, pieces)
  }

  /** The outcome of an import of the given stream into a directory using the names `taken`. */
  function ImportResult(env: Env, taken: set<string>, req: ImportRequest, pieces: seq<Bytes>, broken: bool)
    : Result<Package, ImportError>
  {
    if broken then Err(ReadFailed) else Accept(env, req, Concat(pieces), taken)
  }

  /** Moving an accepted temp file into place. */
  function PublishOps(tmp: string, r: Result<Package, ImportError>): seq<FileOp> {
    match r
    case Ok(pkg) => [Rename(tmp, pkg.id), WriteSidecar(MetaName(pkg.id), pkg)]
    case Err(_) => []
  }

  /** The operations of one import; a broken stream or a refusal only removes the temp file. */
  function ImportOps(tmp: string, pieces: seq<Bytes>, r: Result<Package, ImportError>): (ops: seq<FileOp>)
    ensures |ops| == |pieces| + if r.Ok? then 4 else 2
  {
    ReceiveOps(tmp, pieces) + PublishOps(tmp, r) + [Remove(tmp)]
  }

  function DeleteOps(d: Dir, id: string): seq<FileOp> {
    if ValidId(id) && id in d then [Remove(id), Remove(MetaName(id))] else []
  }

  /** Holds even after a crash: every name is in one of the three classes, with the content its class calls for. */
  ghost predicate WellFormed(d: Dir) {
    forall n | n in d ::
      if d[n].Sidecar? then ValidId(d[n].pkg.id) && n == MetaName(d[n].pkg.id)
      else ValidId(n) || TempName(n)
  }

  ghost predicate Matches(env: Env, data: Bytes, pkg: Package) {
    pkg.size == |data| && pkg.sha256 == env.sha256(data)
  }

  /** Tarball and sidecar are both there or both missing, and agree on size and digest. */
  ghost predicate InStep(env: Env, d: Dir, id: string) {
    (id in d <==> MetaName(id) in d) &&
    (id in d && d[id].Tarball? && MetaName(id) in d && d[MetaName(id)].Sidecar? ==>
       Matches(env, d[id].data, d[MetaName(id)].pkg))
  }

  ghost predicate Settled(env: Env, d: Dir) {
    WellFormed(d) && forall id | ValidId(id) :: InStep(env, d, id)
  }

  /** The table a directory stands for. */
  ghost function Abs(d: Dir): Table {
    map id | id in d && ValidId(id) && d[id].Tarball? && MetaName(id) in d && d[MetaName(id)].Sidecar?
      :: Entry(d[id].data, d[MetaName(id)].pkg)
  }

  datatype StoreError = NotFound | Unreadable

  /** `Get`: the sidecar alone decides. */
  function GetPackage(d: Dir, id: string): Result<Package, StoreError> {
    if !ValidId(id) || MetaName(id) !in d then Err(NotFound)
    else match d[MetaName(id)]
      case Sidecar(pkg) => Ok(pkg)
      case Tarball(_) => Err(Unreadable)
  }

  /** `Path`: the tarball alone decides. */
  function PackagePath(d: Dir, id: string): Result<string, StoreError> {
    if ValidId(id) && id in d then Ok(id) else Err(NotFound)
  }

  /** The packages `List` reports: every readable sidecar. */
  ghost function Listed(d: Dir): set<Package> {
    set n | n in d && SidecarName(n) && d[n].Sidecar? :: d[n].pkg
  }
}
