/** One undisturbed run of the browser's `_uploadSingle` against the store, new or resumed. */
module UploadClient {
  import opened Common
  import opened ChunkPlan
  import opened PackageTable
  import opened PackageDir
  import opened PackageSteps
  import opened PackageStore
  import SessionCap
  import Srv = UploadServer
  import Runs = UploadRuns

  /** So far the session holds nothing but planned slices of this file. */
  ghost predicate PartOf(s: Session, file: Bytes, c: nat)
    requires c > 0
  {
    forall i | i in s.files :: i < TotalChunks(|file|, c) && s.files[i] == Slice(file, c, i)
  }

  /** An earlier record of this session: what it shows as received is there. */
  ghost predicate Snapshot(have: Srv.Record, s: Session, file: Bytes, c: nat)
    requires c > 0
  {
    forall i: nat | i < TotalChunks(|file|, c) && Received(have, |file|, c, i) :: i in s.files
  }

  lemma AllThere(s: Session, file: Bytes, c: nat)
    requires c > 0 && PartOf(s, file, c) && s.upload.chunks == Runs.FileSizes(s.files)
    requires forall i: nat | i < TotalChunks(|file|, c) :: i in s.files
    ensures Srv.Contiguous(s.upload.chunks.Keys)
    ensures Concat(Pieces(s)) == file && MapSum(s.upload.chunks) == |file|
  {
    var n := TotalChunks(|file|, c);
    assert s.files.Keys == Runs.Below(n);
    assert s.upload.chunks.Keys == s.files.Keys;
    Runs.ContiguousKeys(s.upload.chunks.Keys, n);
    assert Pieces(s) == Slices(file, c, n);
    SlicesCoverFile(file, c);
    Runs.AssembledLength(s.files, n);
  }

  /** What the session asks of the import is what it was created with. */
  predicate SameRequest(s: Session, t: Session) {
    s.upload.fileNameHint == t.upload.fileNameHint && s.upload.shasum == t.upload.shasum
  }

  /** The verdict of importing the whole file in one piece, as the session's creator asked for it. */
  function WholeVerdict(env: Env, taken: set<string>, u: Upload, file: Bytes, validate: bool, verify: Verify, now: int)
    : Result<Package, ImportError>
  {
    ImportResult(env, taken, ImportRequest(u.fileNameHint, u.shasum, validate, verify, now), [file], false)
  }

  /** How a file was cut does not matter to its verdict. */
  lemma VerdictOfPieces(env: Env, taken: set<string>, req: ImportRequest, a: seq<Bytes>, b: seq<Bytes>)
    requires Concat(a) == Concat(b)
    ensures ImportResult(env, taken, req, a, false) == ImportResult(env, taken, req, b, false)
  {
  }

  lemma OnePiece(file: Bytes)
    ensures Concat([file]) == file
  {
    assert [file][..0] == [];
    assert Concat([]) + file == file;
  }

  /** A file that passes every check under an unused name is accepted as exactly that package, and
      nothing else is. */
  lemma PassingIffAccepted(env: Env, taken: set<string>, u: Upload, file: Bytes, validate: bool, verify: Verify,
                           now: int, pkg: Package)
    ensures WholeVerdict(env, taken, u, file, validate, verify, now) == Ok(pkg) <==>
            && Approved(env, ImportRequest(u.fileNameHint, u.shasum, validate, verify, now), file, pkg)
            && pkg.id !in taken
  {
    OnePiece(file);
    AcceptIff(env, ImportRequest(u.fileNameHint, u.shasum, validate, verify, now), file, taken);
  }

  /** The sending loop, from the first chunk not skipped. */
  method SendChunks(st: Store, id: string, file: Bytes, c: nat, startIndex: nat, skipped: nat)
    returns (uploaded: nat)
    requires c > 0 && st.Valid() && id in st.sessions && PartOf(st.sessions[id], file, c)
    requires startIndex <= TotalChunks(|file|, c) && skipped == Min(startIndex * c, |file|)
    requires forall j: nat | j < startIndex :: j in st.sessions[id].files
    modifies st`sessions
    ensures st.Valid() && id in st.sessions && PartOf(st.sessions[id], file, c)
    ensures st.sessions - {id} == old(st.sessions) - {id}
    ensures SameRequest(st.sessions[id], old(st.sessions)[id])
    ensures forall j: nat | j < TotalChunks(|file|, c) :: j in st.sessions[id].files
    ensures uploaded == |file|
  {
    uploaded := skipped;
    var totalChunks := TotalChunks(|file|, c);
    for i := startIndex to totalChunks
      invariant st.Valid() && id in st.sessions && PartOf(st.sessions[id], file, c)
      invariant st.sessions - {id} == old(st.sessions) - {id}
      invariant SameRequest(st.sessions[id], old(st.sessions)[id])
      invariant forall j: nat | j < i :: j in st.sessions[id].files
      invariant uploaded == Min(i * c, |file|)
    {
      var blob := Slice(file, c, i);
      var ack := st.PutChunk(id, i, blob, false);
      SliceLength(file, c, i);
      AdvanceProgress(|file|, c, i);
      uploaded := uploaded + |blob|;
    }
    TotalChunksBounds(|file|, c);
  }

  /** A new upload first deletes every session the server lists, in whatever order. */
  method WipeSessions(st: Store)
    requires st.Valid()
    modifies st`sessions
    ensures st.Valid() && st.sessions == map[]
  {
    var list := st.sessions.Keys;
    while list != {}
      invariant st.Valid() && st.sessions.Keys == list
    {
      var id :| id in list;
      var gone := st.AbortUpload(id);
      list := list - {id};
    }
  }

  /** The session is there, holds slices of this file only, and the snapshot is an earlier record of it. */
  ghost predicate Resumable(st: Store, id: string, have: Srv.Record, file: Bytes, c: nat)
    requires c > 0
    reads st
  {
    id in st.sessions && PartOf(st.sessions[id], file, c) && Snapshot(have, st.sessions[id], file, c)
  }

  datatype UploadError = TooManySessions | Rejected(failure: Failure)

  /** What the page makes of the verdict. */
  function Reported(verdict: Result<Package, ImportError>): Result<Package, UploadError> {
    match verdict
    case Ok(pkg) => Ok(pkg)
    case Err(e) => Err(Rejected(ImportFailed(e)))
  }

  /** A resume skips what its snapshot shows; a new upload clears the table of sessions and asks for
      one of its own. */
  method OpenSession(st: Store, resume: Option<(string, Srv.Record)>, newId: string, fileName: string, cap: int,
                     file: Bytes, c: nat, now: int)
    returns (id: Option<string>, startIndex: nat, skipped: nat)
    requires c > 0 && st.Valid()
    requires resume.None? ==> UploadId(newId)
    requires resume.Some? ==> Resumable(st, resume.value.0, resume.value.1, file, c)
    modifies st`sessions
    ensures st.Valid()
    ensures id.None? <==> resume.None? && cap <= 0
    ensures id.None? ==> st.sessions == map[]
    ensures id.Some? ==>
      && id.value in st.sessions && PartOf(st.sessions[id.value], file, c)
      && startIndex <= TotalChunks(|file|, c) && skipped == Min(startIndex * c, |file|)
      && forall j: nat | j < startIndex :: j in st.sessions[id.value].files
    ensures resume.None? && id.Some? ==>
      && id.value == newId && st.sessions.Keys == {newId}
      && st.sessions[newId].upload == Upload(newId, fileName, "", now, map[])
    ensures resume.Some? ==> st.sessions == old(st.sessions) && id == Some(resume.value.0)
    ensures startIndex == if resume.Some? then ResumeIndex(resume.value.1, |file|, c, 0) else 0
  {
    startIndex, skipped := 0, 0;
    if resume.Some? {
      id := Some(resume.value.0);
      startIndex, skipped := SkipReceived(resume.value.1, |file|, c);
    } else {
      WipeSessions(st);
      var u := SessionCap.UploadCreate(st, cap, newId, fileName, "", now);
      id := if u.Some? then Some(u.value.id) else None;
    }
  }

  /** The loop and the completion, once there is a session. */
  method SendAndComplete(st: Store, id: string, file: Bytes, c: nat, startIndex: nat, skipped: nat,
                         validate: bool, verify: Verify, now: int, tmp: string)
    returns (r: Result<Package, Failure>, uploaded: nat)
    requires c > 0 && st.Valid() && Fresh(st.packages, tmp)
    requires id in st.sessions && PartOf(st.sessions[id], file, c)
    requires startIndex <= TotalChunks(|file|, c) && skipped == Min(startIndex * c, |file|)
    requires forall j: nat | j < startIndex :: j in st.sessions[id].files
    modifies st
    ensures st.Valid() && uploaded == |file|
    ensures r.Err? ==> r.error.ImportFailed? && id in st.sessions && st.packages == old(st.packages)
    ensures r.Ok? ==>
      id !in st.sessions && r.value.size == |file| && Holds(st.packages, r.value.id, file)
    ensures st.sessions - {id} == old(st.sessions) - {id}
    ensures r == Outcome(WholeVerdict(st.env, old(st.packages).Keys, old(st.sessions)[id].upload, file,
                                      validate, verify, now))
  {
    uploaded := SendChunks(st, id, file, c, startIndex, skipped);
    AllThere(st.sessions[id], file, c);
    ghost var others, s := st.sessions - {id}, st.sessions[id];
    OnePiece(file);
    VerdictOfPieces(st.env, st.packages.Keys,
                    ImportRequest(s.upload.fileNameHint, s.upload.shasum, validate, verify, now), Pieces(s), [file]);
    r := st.CompleteUpload(id, validate, verify, now, tmp);
    assert st.sessions - {id} == others;
  }

  /** Open or resume, send the rest in order, complete. Only an import check or the cap can refuse it,
      the progress ends at the file size, and success stores the file and removes the session. */
  method UploadSingle(st: Store, resume: Option<(string, Srv.Record)>, newId: string, fileName: string, cap: int,
                      file: Bytes, c: nat, validate: bool, verify: Verify, now: int, tmp: string)
    returns (r: Result<Package, UploadError>, uploaded: nat)
    requires c > 0 && st.Valid() && Fresh(st.packages, tmp)
    requires resume.None? ==> UploadId(newId)
    requires resume.Some? ==> Resumable(st, resume.value.0, resume.value.1, file, c)
    modifies st
    ensures st.Valid()
    ensures r == Err(TooManySessions) <==> resume.None? && cap <= 0
    ensures r != Err(TooManySessions) ==> uploaded == |file|
    ensures r.Err? ==> st.packages == old(st.packages) && (r.error.Rejected? ==> r.error.failure.ImportFailed?)
    ensures r.Ok? ==> r.value.size == |file| && Holds(st.packages, r.value.id, file)
    ensures var id := if resume.Some? then resume.value.0 else newId;
            var others := if resume.Some? then old(st.sessions) - {id} else map[];
            && st.sessions - {id} == others
            && (id in st.sessions <==> r.Err? && r.error.Rejected?)
    ensures r != Err(TooManySessions) ==>
      var u := if resume.Some? then old(st.sessions)[resume.value.0].upload
               else Upload(newId, fileName, "", now, map[]);
      r == Reported(WholeVerdict(st.env, old(st.packages).Keys, u, file, validate, verify, now))
  {
    var id, startIndex, skipped := OpenSession(st, resume, newId, fileName, cap, file, c, now);
    if id.None? {
      return Err(TooManySessions), 0;
    }
    assert resume.None? ==> st.sessions - {newId} == map[];
    var completed;
    completed, uploaded := SendAndComplete(st, id.value, file, c, startIndex, skipped, validate, verify, now, tmp);
    r := match completed case Ok(pkg) => Ok(pkg) case Err(e) => Err(Rejected(e));
  }

  datatype Resumed = SessionGone | WrongFile | Tried(result: Result<Package, UploadError>)

  /** What the page remembers of an interrupted upload. */
  datatype Remembered = Remembered(sessionId: string, fileName: string, size: nat)

  /** Coming back to an interrupted upload: the session is fetched, the re-picked file is compared by name
      and size only, and the upload goes on from the record just fetched. */
  method ResumeUpload(st: Store, state: Remembered, fileName: string, file: Bytes, c: nat,
                      validate: bool, verify: Verify, now: int, tmp: string)
    returns (r: Resumed)
    requires c > 0 && st.Valid() && Fresh(st.packages, tmp)
    requires state.sessionId in st.sessions ==> PartOf(st.sessions[state.sessionId], file, c)
    modifies st
    ensures st.Valid()
    ensures r.SessionGone? <==> state.sessionId !in old(st.sessions)
    ensures r.WrongFile? <==>
      state.sessionId in old(st.sessions) && (fileName != state.fileName || |file| != state.size)
    ensures !r.Tried? ==> st.sessions == old(st.sessions) && st.packages == old(st.packages)
    ensures r.Tried? ==>
      && st.sessions - {state.sessionId} == old(st.sessions) - {state.sessionId}
      && (r.result.Ok? ==> Holds(st.packages, r.result.value.id, file) && state.sessionId !in st.sessions)
      && (r.result.Err? ==> r.result.error.Rejected? && r.result.error.failure.ImportFailed?
                            && st.packages == old(st.packages) && state.sessionId in st.sessions)
      && r.result == Reported(WholeVerdict(st.env, old(st.packages).Keys, old(st.sessions)[state.sessionId].upload,
                                           file, validate, verify, now))
  {
    var session := st.GetUpload(state.sessionId);
    if session.None? {
      return SessionGone;
    }
    if fileName != state.fileName || |file| != state.size {
      return WrongFile;
    }
    var chunks := session.value.chunks;
    RecordIsSnapshot(st.sessions[state.sessionId], file, c);
    var result, uploaded := UploadSingle(st, Some((state.sessionId, chunks)), "", fileName, 0, file, c,
                                         validate, verify, now, tmp);
    r := Tried(result);
  }

  lemma RecordIsSnapshot(s: Session, file: Bytes, c: nat)
    requires c > 0 && s.upload.chunks == Runs.FileSizes(s.files)
    ensures Snapshot(s.upload.chunks, s, file, c)
  {
  }
}
