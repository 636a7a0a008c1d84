/** Imports and deletes as sequences of file operations: what each one does, whole or cut short. */
module PackageSteps {
  import opened Common
  import opened PackageNames
  import opened PackageTable
  import opened PackageDir

  /** What a directory looks like after the first k operations of an import. */
  ghost function ImportStage(d: Dir, tmp: string, pieces: seq<Bytes>, r: Result<Package, ImportError>, k: nat): Dir {
    if k == 0 then d
    else if k <= |pieces| + 1 then d[tmp := Tarball(Concat(pieces[..k - 1]))]
    else
      match r
      case Err(_) => d
      case Ok(pkg) =>
        var moved := d[pkg.id := Tarball(Concat(pieces))];
        if k == |pieces| + 2 then moved else moved[MetaName(pkg.id) := Sidecar(pkg)]
  }

  /** A successful import publishes under a valid unused id with the stream's own size and digest. */
  ghost predicate Publishable(env: Env, d: Dir, pieces: seq<Bytes>, r: Result<Package, ImportError>) {
    r.Ok? ==> ValidId(r.value.id) && r.value.id !in d && Matches(env, Concat(pieces), r.value)
  }

  lemma ImportPublishable(env: Env, d: Dir, req: ImportRequest, pieces: seq<Bytes>, broken: bool)
    ensures Publishable(env, d, pieces, ImportResult(env, d.Keys, req, pieces, broken))
  {
  }

  ghost predicate Fresh(d: Dir, tmp: string) {
    TempName(tmp) && tmp !in d
  }

  /** A temp name is not the name a package or its sidecar is published under. */
  lemma TempApart(tmp: string, id: string)
    requires TempName(tmp) && ValidId(id)
    ensures tmp != id && tmp != MetaName(id) && id != MetaName(id)
  {
    NameClassesDisjoint(tmp);
    NameClassesDisjoint(id);
    MetaNameInjective(id, id);
  }

  lemma IdsApart(a: string, b: string)
    requires ValidId(a) && ValidId(b)
    ensures a != MetaName(b)
    ensures a != b ==> MetaName(a) != MetaName(b)
  {
    NameClassesDisjoint(a);
    MetaNameInjective(b, b);
    MetaNameInjective(a, b);
  }

  /** The operation list unfolds to exactly these stages. */
  lemma {:induction false} ImportStages(d: Dir, tmp: string, pieces: seq<Bytes>,
                                        r: Result<Package, ImportError>, k: nat)
    requires tmp !in d
    requires r.Ok? ==> tmp != r.value.id && tmp != MetaName(r.value.id)
    requires k <= |ImportOps(tmp, pieces, r)|
    ensures ApplyAll(d, ImportOps(tmp, pieces, r)[..k]) == ImportStage(d, tmp, pieces, r, k)
  {
    if k > 0 {
      var ops := ImportOps(tmp, pieces, r);
      ImportStages(d, tmp, pieces, r, k - 1);
      assert ops[..k] == ops[..k - 1] + [ops[k - 1]];
      ApplyAllSnoc(d, ops[..k - 1], ops[k - 1]);
      if k <= |pieces| + 1 {
        ReceiveStep(d, tmp, pieces, r, k);
      } else {
        PublishStep(d, tmp, pieces, r, k);
      }
    }
  }

  lemma AppendAt(tmp: string, pieces: seq<Bytes>, r: Result<Package, ImportError>, k: nat)
    requires 0 < k <= |pieces| + 1
    ensures ImportOps(tmp, pieces, r)[k - 1] == if k == 1 then Create(tmp) else Append(tmp, pieces[k - 2])
  {
  }

  lemma PieceMore(pieces: seq<Bytes>, j: nat)
    requires j < |pieces|
    ensures Concat(pieces[..j + 1]) == Concat(pieces[..j]) + pieces[j]
  {
    assert pieces[..j + 1] == pieces[..j] + [pieces[j]];
    ConcatSnoc(pieces[..j], pieces[j]);
  }

  lemma ReceiveStep(d: Dir, tmp: string, pieces: seq<Bytes>, r: Result<Package, ImportError>, k: nat)
    requires 0 < k <= |pieces| + 1
    ensures Apply(ImportStage(d, tmp, pieces, r, k - 1), ImportOps(tmp, pieces, r)[k - 1])
            == ImportStage(d, tmp, pieces, r, k)
  {
    AppendAt(tmp, pieces, r, k);
    if k > 1 {
      PieceMore(pieces, k - 2);
    }
  }

  lemma PublishStep(d: Dir, tmp: string, pieces: seq<Bytes>, r: Result<Package, ImportError>, k: nat)
    requires tmp !in d
    requires r.Ok? ==> tmp != r.value.id && tmp != MetaName(r.value.id)
    requires |pieces| + 1 < k <= |ImportOps(tmp, pieces, r)|
    ensures Apply(ImportStage(d, tmp, pieces, r, k - 1), ImportOps(tmp, pieces, r)[k - 1])
            == ImportStage(d, tmp, pieces, r, k)
  {
    var n := |pieces|;
    assert pieces[..n] == pieces;
    var op := ImportOps(tmp, pieces, r)[k - 1];
    var before := ImportStage(d, tmp, pieces, r, k - 1);
    if k == n + 2 {
      assert before == d[tmp := Tarball(Concat(pieces))];
      assert before - {tmp} == d;
      assert op == if r.Ok? then Rename(tmp, r.value.id) else Remove(tmp);
    } else if k == n + 3 {
      assert op == WriteSidecar(MetaName(r.value.id), r.value);
    } else {
      assert op == Remove(tmp);
      assert before - {tmp} == before;
    }
  }

  /** The three stages of a delete. */
  lemma DeleteStages(d: Dir, id: string, k: nat)
    requires k <= |DeleteOps(d, id)|
    ensures ApplyAll(d, DeleteOps(d, id)[..k])
            == if k == 0 then d else if k == 1 then d - {id} else d - {id} - {MetaName(id)}
  {
    var ops := DeleteOps(d, id);
    if k > 0 {
      assert ops[..1] == [] + [Remove(id)];
      ApplyAllSnoc(d, [], Remove(id));
      if k > 1 {
        assert ops[..2] == ops[..1] + [Remove(MetaName(id))];
        ApplyAllSnoc(d, ops[..1], Remove(MetaName(id)));
      }
    }
  }

  lemma IdIsTarball(d: Dir, id: string)
    requires WellFormed(d) && ValidId(id)
    ensures id in d ==> d[id].Tarball?
    ensures MetaName(id) in d ==> d[MetaName(id)].Sidecar? && d[MetaName(id)].pkg.id == id
  {
    if id in d && d[id].Sidecar? {
      IdsApart(id, d[id].pkg.id);
    }
    if MetaName(id) in d {
      MetaNameInjective(id, id);
      NameClassesDisjoint(MetaName(id));
      if d[MetaName(id)].Sidecar? {
        MetaNameInjective(d[MetaName(id)].pkg.id, id);
      }
    }
  }

  /** Cut anywhere, an import leaves a well-formed directory and changes no name but its own three. */
  lemma ImportStageKeeps(env: Env, d: Dir, tmp: string, pieces: seq<Bytes>, r: Result<Package, ImportError>, k: nat)
    requires WellFormed(d) && Fresh(d, tmp) && Publishable(env, d, pieces, r)
    ensures var d' := ImportStage(d, tmp, pieces, r, k);
            && WellFormed(d')
            && (forall n | n in d && !(r.Ok? && n == MetaName(r.value.id)) :: n in d' && d'[n] == d[n])
            && (forall n | n in d' && n !in d :: n == tmp || (r.Ok? && (n == r.value.id || n == MetaName(r.value.id))))
  {
    if r.Ok? {
      IdsApart(r.value.id, r.value.id);
    }
  }

  /** Publishing puts the new id in step and leaves every other id as it was. */
  lemma PublishedInStep(env: Env, d: Dir, data: Bytes, pkg: Package, id: string)
    requires WellFormed(d) && ValidId(pkg.id) && ValidId(id) && Matches(env, data, pkg)
    requires id != pkg.id ==> InStep(env, d, id)
    ensures InStep(env, d[pkg.id := Tarball(data)][MetaName(pkg.id) := Sidecar(pkg)], id)
  {
    IdsApart(id, pkg.id);
    IdsApart(pkg.id, id);
    IdsApart(pkg.id, pkg.id);
  }

  lemma PublishedAbsAt(d: Dir, data: Bytes, pkg: Package, id: string)
    requires ValidId(pkg.id) && ValidId(id)
    ensures var a := Abs(d[pkg.id := Tarball(data)][MetaName(pkg.id) := Sidecar(pkg)]);
            var b := Abs(d)[pkg.id := Entry(data, pkg)];
            (id in a <==> id in b) && (id in a ==> a[id] == b[id])
  {
    IdsApart(id, pkg.id);
    IdsApart(pkg.id, id);
    IdsApart(pkg.id, pkg.id);
  }

  lemma PublishedAbs(d: Dir, data: Bytes, pkg: Package)
    requires ValidId(pkg.id)
    ensures Abs(d[pkg.id := Tarball(data)][MetaName(pkg.id) := Sidecar(pkg)]) == Abs(d)[pkg.id := Entry(data, pkg)]
  {
    var a, b := Abs(d[pkg.id := Tarball(data)][MetaName(pkg.id) := Sidecar(pkg)]), Abs(d)[pkg.id := Entry(data, pkg)];
    forall id | id in a || id in b ensures id in a && id in b && a[id] == b[id] {
      PublishedAbsAt(d, data, pkg, id);
    }
    assert a.Keys == b.Keys;
  }

  lemma SettledKeys(env: Env, d: Dir, id: string)
    requires Settled(env, d) && ValidId(id)
    ensures id in d <==> id in Abs(d)
  {
    IdIsTarball(d, id);
    assert InStep(env, d, id);
  }

  /** Of the names in use only valid ids matter to an import. */
  lemma AcceptTaken(env: Env, req: ImportRequest, data: Bytes, a: set<string>, b: set<string>)
    requires forall id | ValidId(id) :: id in a <==> id in b
    ensures Accept(env, req, data, a) == Accept(env, req, data, b)
  {
  }

  /** The directory and the table accept and refuse the same imports, with the same result. */
  lemma SameVerdict(env: Env, d: Dir, req: ImportRequest, pieces: seq<Bytes>, broken: bool)
    requires Settled(env, d)
    ensures ImportResult(env, d.Keys, req, pieces, broken) == ImportResult(env, Abs(d).Keys, req, pieces, broken)
  {
    var ids := Abs(d).Keys;
    forall id | ValidId(id) ensures id in d.Keys <==> id in ids {
      SettledKeys(env, d, id);
    }
    AcceptTaken(env, req, Concat(pieces), d.Keys, ids);
  }

  /** One complete import is one step of the table, and leaves no temp file. */
  lemma ImportRefines(env: Env, d: Dir, tmp: string, pieces: seq<Bytes>, r: Result<Package, ImportError>)
    requires Settled(env, d) && Fresh(d, tmp) && Publishable(env, d, pieces, r)
    ensures var d' := ApplyAll(d, ImportOps(tmp, pieces, r));
            && Settled(env, d')
            && Abs(d') == TableImport(Abs(d), Concat(pieces), r)
            && tmp !in d'
  {
    var ops := ImportOps(tmp, pieces, r);
    assert ops[..|ops|] == ops;
    if r.Ok? {
      var pkg := r.value;
      TempApart(tmp, pkg.id);
      ImportStages(d, tmp, pieces, r, |ops|);
      ImportStageKeeps(env, d, tmp, pieces, r, |ops|);
      forall id | ValidId(id) ensures InStep(env, ApplyAll(d, ops), id) {
        assert InStep(env, d, id);
        PublishedInStep(env, d, Concat(pieces), pkg, id);
      }
      PublishedAbs(d, Concat(pieces), pkg);
    } else {
      ImportStages(d, tmp, pieces, r, |ops|);
    }
  }

  lemma RemovedInStep(env: Env, d: Dir, id: string, other: string)
    requires ValidId(id) && ValidId(other) && InStep(env, d, other)
    ensures InStep(env, d - {id} - {MetaName(id)}, other)
  {
    IdsApart(id, other);
    IdsApart(other, id);
    IdsApart(id, id);
  }

  lemma RemovedAbs(d: Dir, id: string)
    requires ValidId(id)
    ensures Abs(d - {id} - {MetaName(id)}) == Abs(d) - {id}
  {
    var d' := d - {id} - {MetaName(id)};
    forall other | ValidId(other)
      ensures other in Abs(d') <==> other in Abs(d) - {id}
    {
      IdsApart(id, other);
      IdsApart(other, id);
      IdsApart(id, id);
    }
    assert Abs(d').Keys == (Abs(d) - {id}).Keys;
  }

  /** One complete delete is one step of the table. */
  lemma DeleteRefines(env: Env, d: Dir, id: string)
    requires Settled(env, d)
    ensures var d' := ApplyAll(d, DeleteOps(d, id));
            && Settled(env, d')
            && Abs(d') == Abs(d) - {id}
            && (ValidId(id) && id in d <==> id in Abs(d))
  {
    var ops := DeleteOps(d, id);
    assert ops[..|ops|] == ops;
    if ValidId(id) {
      SettledKeys(env, d, id);
    }
    DeleteStages(d, id, |ops|);
    if |ops| == 2 {
      var d' := d - {id} - {MetaName(id)};
      forall other | ValidId(other) ensures InStep(env, d', other) {
        assert InStep(env, d, other);
        RemovedInStep(env, d, id, other);
      }
      RemovedAbs(d, id);
    } else {
      assert Abs(d) - {id} == Abs(d);
    }
  }

  /** An import that stops after k operations leaves tarball and sidecar out of step
      iff it stopped between the rename and the sidecar write. */
  lemma ImportCutSettled(env: Env, d: Dir, tmp: string, pieces: seq<Bytes>, r: Result<Package, ImportError>, k: nat)
    requires Settled(env, d) && Fresh(d, tmp) && Publishable(env, d, pieces, r)
    requires k <= |ImportOps(tmp, pieces, r)|
    ensures Settled(env, ApplyAll(d, ImportOps(tmp, pieces, r)[..k])) <==> !(r.Ok? && k == |pieces| + 2)
  {
    var ops := ImportOps(tmp, pieces, r);
    if r.Ok? { TempApart(tmp, r.value.id); }
    ImportStages(d, tmp, pieces, r, k);
    ImportStageKeeps(env, d, tmp, pieces, r, k);
    var d' := ImportStage(d, tmp, pieces, r, k);
    if r.Ok? && k == |pieces| + 2 {
      TempApart(tmp, r.value.id);
      assert InStep(env, d, r.value.id);
      assert !InStep(env, d', r.value.id);
    } else if r.Ok? && k > |pieces| + 2 {
      ImportRefines(env, d, tmp, pieces, r);
      ImportStages(d, tmp, pieces, r, |ops|);
      assert ops[..|ops|] == ops;
    } else {
      forall id | ValidId(id) ensures InStep(env, d', id) {
        assert InStep(env, d, id);
        TempApart(tmp, id);
      }
    }
  }

  /** A delete that stops after k operations leaves a sidecar without tarball iff k is 1. */
  lemma DeleteCutSettled(env: Env, d: Dir, id: string, k: nat)
    requires Settled(env, d) && k <= |DeleteOps(d, id)|
    ensures Settled(env, ApplyAll(d, DeleteOps(d, id)[..k])) <==> k != 1
  {
    DeleteStages(d, id, k);
    var ops := DeleteOps(d, id);
    if k == 1 {
      IdsApart(id, id);
      assert InStep(env, d, id);
      assert !InStep(env, d - {id}, id);
    } else if k == 2 {
      assert ops[..2] == ops;
      DeleteRefines(env, d, id);
    }
  }
}

/** Whole histories of imports and deletes, each of which may be cut off by a crash. */
module PackageCrash {
  import opened Common
  import opened PackageNames
  import opened PackageTable
  import opened PackageDir
  import opened PackageSteps

  /** `cut` is the number of file operations performed before the process died;
      a cut beyond the last operation means it did not die. */
  datatype Event =
    | Import(req: ImportRequest, tmp: string, pieces: seq<Bytes>, broken: bool, cut: nat)
    | Delete(id: string, cut: nat)

  function EventOps(env: Env, d: Dir, e: Event): seq<FileOp> {
    match e
    case Import(req, tmp, pieces, broken, _) => ImportOps(tmp, pieces, ImportResult(env, d.Keys, req, pieces, broken))
    case Delete(id, _) => DeleteOps(d, id)
  }

  function After(env: Env, d: Dir, e: Event): Dir {
    var ops := EventOps(env, d, e);
    ApplyAll(d, ops[..Min(e.cut, |ops|)])
  }

  function RunDir(env: Env, run: seq<Event>): Dir {
    if run == [] then map[] else After(env, RunDir(env, run[..|run| - 1]), run[|run| - 1])
  }

  /** The operating system hands out temp names that are not in use. */
  ghost predicate ValidRun(env: Env, run: seq<Event>) {
    forall i | 0 <= i < |run| :: run[i].Import? ==> Fresh(RunDir(env, run[..i]), run[i].tmp)
  }

  /** The event received a complete stream with these bytes, and they passed every check for this package. */
  ghost predicate Genuine(env: Env, e: Event, data: Bytes, pkg: Package) {
    e.Import? && !e.broken && Concat(e.pieces) == data && Approved(env, e.req, data, pkg)
  }

  /** The bytes under this id came whole and checked from one of the run's imports. */
  ghost predicate Vouched(env: Env, run: seq<Event>, id: string, data: Bytes) {
    exists i: int, pkg: Package :: 0 <= i < |run| && pkg.id == id && Genuine(env, run[i], data, pkg)
  }

  ghost predicate VouchedSidecar(env: Env, run: seq<Event>, pkg: Package) {
    exists i: int, data: Bytes :: 0 <= i < |run| && Genuine(env, run[i], data, pkg)
  }

  ghost predicate CrashSafe(env: Env, run: seq<Event>, d: Dir) {
    && WellFormed(d)
    && (forall id | id in d && ValidId(id) && d[id].Tarball? :: Vouched(env, run, id, d[id].data))
    && (forall n | n in d && d[n].Sidecar? :: VouchedSidecar(env, run, d[n].pkg))
  }

  lemma LongerRunVouches(env: Env, run: seq<Event>, e: Event, d: Dir)
    requires CrashSafe(env, run, d)
    ensures CrashSafe(env, run + [e], d)
  {
    var longer := run + [e];
    forall id | id in d && ValidId(id) && d[id].Tarball? ensures Vouched(env, longer, id, d[id].data) {
      var i: int, pkg: Package :| 0 <= i < |run| && pkg.id == id && Genuine(env, run[i], d[id].data, pkg);
      assert longer[i] == run[i];
    }
    forall n | n in d && d[n].Sidecar? ensures VouchedSidecar(env, longer, d[n].pkg) {
      var i: int, data: Bytes :| 0 <= i < |run| && Genuine(env, run[i], data, d[n].pkg);
      assert longer[i] == run[i];
    }
  }

  lemma AcceptedIsGenuine(env: Env, d: Dir, e: Event)
    requires e.Import?
    ensures var r := ImportResult(env, d.Keys, e.req, e.pieces, e.broken);
            r.Ok? ==> Genuine(env, e, Concat(e.pieces), r.value)
  {
    AcceptIff(env, e.req, Concat(e.pieces), d.Keys);
  }

  lemma ImportCrashSafe(env: Env, run: seq<Event>, d: Dir, e: Event)
    requires CrashSafe(env, run, d) && e.Import? && Fresh(d, e.tmp)
    ensures CrashSafe(env, run + [e], After(env, d, e))
  {
    var r := ImportResult(env, d.Keys, e.req, e.pieces, e.broken);
    var ops := ImportOps(e.tmp, e.pieces, r);
    var k := Min(e.cut, |ops|);
    ImportPublishable(env, d, e.req, e.pieces, e.broken);
    if r.Ok? { TempApart(e.tmp, r.value.id); }
    ImportStages(d, e.tmp, e.pieces, r, k);
    ImportStageKeeps(env, d, e.tmp, e.pieces, r, k);
    LongerRunVouches(env, run, e, d);
    AcceptedIsGenuine(env, d, e);
    var d' := ImportStage(d, e.tmp, e.pieces, r, k);
    forall id | id in d' && ValidId(id) && d'[id].Tarball? ensures Vouched(env, run + [e], id, d'[id].data) {
      TarballVouched(env, run, d, e, r, k, id);
    }
    forall n | n in d' && d'[n].Sidecar? ensures VouchedSidecar(env, run + [e], d'[n].pkg) {
      SidecarVouched(env, run, d, e, r, k, n);
    }
  }

  lemma TarballVouched(env: Env, run: seq<Event>, d: Dir, e: Event, r: Result<Package, ImportError>, k: nat, id: string)
    requires CrashSafe(env, run + [e], d) && e.Import? && Fresh(d, e.tmp)
    requires r.Ok? ==> Genuine(env, e, Concat(e.pieces), r.value)
    requires Publishable(env, d, e.pieces, r)
    requires var d' := ImportStage(d, e.tmp, e.pieces, r, k); id in d' && ValidId(id) && d'[id].Tarball?
    ensures Vouched(env, run + [e], id, ImportStage(d, e.tmp, e.pieces, r, k)[id].data)
  {
    var d' := ImportStage(d, e.tmp, e.pieces, r, k);
    var longer := run + [e];
    TempApart(e.tmp, id);
    if r.Ok? { TempApart(e.tmp, r.value.id); }
    if !(id in d && d[id] == d'[id]) {
      assert longer[|run|] == e;
      assert r.value.id == id && Genuine(env, longer[|run|], d'[id].data, r.value);
    }
  }

  lemma SidecarVouched(env: Env, run: seq<Event>, d: Dir, e: Event, r: Result<Package, ImportError>, k: nat, n: string)
    requires CrashSafe(env, run + [e], d) && e.Import?
    requires r.Ok? ==> Genuine(env, e, Concat(e.pieces), r.value)
    requires var d' := ImportStage(d, e.tmp, e.pieces, r, k); n in d' && d'[n].Sidecar?
    ensures VouchedSidecar(env, run + [e], ImportStage(d, e.tmp, e.pieces, r, k)[n].pkg)
  {
    var longer := run + [e];
    if !(n in d && d[n] == ImportStage(d, e.tmp, e.pieces, r, k)[n]) {
      assert longer[|run|] == e;
      assert Genuine(env, longer[|run|], Concat(e.pieces), r.value);
    }
  }

  lemma DeleteCrashSafe(env: Env, run: seq<Event>, d: Dir, e: Event)
    requires CrashSafe(env, run, d) && e.Delete?
    ensures CrashSafe(env, run + [e], After(env, d, e))
  {
    DeleteStages(d, e.id, Min(e.cut, |DeleteOps(d, e.id)|));
    LongerRunVouches(env, run, e, d);
  }

  lemma ValidRunPrefix(env: Env, run: seq<Event>, n: nat)
    requires ValidRun(env, run) && n < |run|
    ensures ValidRun(env, run[..n])
    ensures run[n].Import? ==> Fresh(RunDir(env, run[..n]), run[n].tmp)
  {
    var before := run[..n];
    forall i | 0 <= i < |before| && before[i].Import? ensures Fresh(RunDir(env, before[..i]), before[i].tmp) {
      assert before[..i] == run[..i];
    }
  }

  lemma EventCrashSafe(env: Env, run: seq<Event>, d: Dir, e: Event)
    requires CrashSafe(env, run, d) && (e.Import? ==> Fresh(d, e.tmp))
    ensures CrashSafe(env, run + [e], After(env, d, e))
  {
    if e.Import? {
      ImportCrashSafe(env, run, d, e);
    } else {
      DeleteCrashSafe(env, run, d, e);
    }
  }

  /** After any history of imports and deletes, with crashes anywhere, whatever can be
      reached through a valid id is a complete upload that passed its checks under that id. */
  lemma {:induction false} ReachableFilesAreWholeAndChecked(env: Env, run: seq<Event>)
    requires ValidRun(env, run)
    ensures CrashSafe(env, run, RunDir(env, run))
  {
    if run != [] {
      var n := |run| - 1;
      ValidRunPrefix(env, run, n);
      ReachableFilesAreWholeAndChecked(env, run[..n]);
      EventCrashSafe(env, run[..n], RunDir(env, run[..n]), run[n]);
      InitAndLast(run);
    }
  }

  /** Only a delete of that very id removes or changes a stored tarball; imports, cut or whole, never do. */
  lemma NeverOverwritten(env: Env, d: Dir, e: Event, id: string)
    requires WellFormed(d) && ValidId(id) && id in d
    requires e.Import? ==> Fresh(d, e.tmp)
    requires e.Delete? ==> e.id != id
    ensures id in After(env, d, e) && After(env, d, e)[id] == d[id]
  {
    match e
    case Import(req, tmp, pieces, broken, cut) =>
      var r := ImportResult(env, d.Keys, req, pieces, broken);
      var k := Min(cut, |ImportOps(tmp, pieces, r)|);
      ImportPublishable(env, d, req, pieces, broken);
      if r.Ok? {
        TempApart(tmp, r.value.id);
        IdsApart(id, r.value.id);
      }
      ImportStages(d, tmp, pieces, r, k);
      ImportStageKeeps(env, d, tmp, pieces, r, k);
    case Delete(other, cut) =>
      DeleteStages(d, other, Min(cut, |DeleteOps(d, other)|));
      if ValidId(other) { IdsApart(id, other); }
  }

  /** One event as one step of the abstract table. */
  function TableStep(env: Env, t: Table, e: Event): Table {
    match e
    case Import(req, _, pieces, broken, _) =>
      TableImport(t, Concat(pieces), ImportResult(env, t.Keys, req, pieces, broken))
    case Delete(id, _) => t - {id}
  }

  function RunTable(env: Env, run: seq<Event>): Table {
    if run == [] then map[] else TableStep(env, RunTable(env, run[..|run| - 1]), run[|run| - 1])
  }

  lemma WholeEventRefines(env: Env, d: Dir, e: Event)
    requires Settled(env, d) && (e.Import? ==> Fresh(d, e.tmp))
    requires e.cut >= |EventOps(env, d, e)|
    ensures Settled(env, After(env, d, e))
    ensures Abs(After(env, d, e)) == TableStep(env, Abs(d), e)
  {
    var ops := EventOps(env, d, e);
    assert ops[..|ops|] == ops;
    match e
    case Import(req, tmp, pieces, broken, _) =>
      SameVerdict(env, d, req, pieces, broken);
      ImportPublishable(env, d, req, pieces, broken);
      ImportRefines(env, d, tmp, pieces, ImportResult(env, d.Keys, req, pieces, broken));
    case Delete(id, _) =>
      DeleteRefines(env, d, id);
  }

  /** The run never stops in the middle of an event. */
  ghost predicate NoCrash(env: Env, run: seq<Event>) {
    forall i | 0 <= i < |run| :: run[i].cut >= |EventOps(env, RunDir(env, run[..i]), run[i])|
  }

  lemma NoCrashPrefix(env: Env, run: seq<Event>)
    requires NoCrash(env, run) && run != []
    ensures NoCrash(env, run[..|run| - 1])
  {
    var before := run[..|run| - 1];
    forall i | 0 <= i < |before| ensures before[i].cut >= |EventOps(env, RunDir(env, before[..i]), before[i])| {
      assert before[..i] == run[..i] && before[i] == run[i];
    }
  }

  /** A run without crashes keeps tarballs and sidecars in step and plays the same history on the table. */
  lemma {:induction false} WholeRunsRefineTable(env: Env, run: seq<Event>)
    requires ValidRun(env, run) && NoCrash(env, run)
    ensures Settled(env, RunDir(env, run))
    ensures Abs(RunDir(env, run)) == RunTable(env, run)
  {
    if run != [] {
      var n := |run| - 1;
      ValidRunPrefix(env, run, n);
      NoCrashPrefix(env, run);
      WholeRunsRefineTable(env, run[..n]);
      WholeEventRefines(env, RunDir(env, run[..n]), run[n]);
    }
  }

  ghost function WithoutTemps(d: Dir): Dir {
    map n | n in d && !TempName(n) :: d[n]
  }

  /** Leftover temp files change no answer of `Get`, `Path` or `List`. */
  lemma TempsInvisible(d: Dir, id: string)
    ensures GetPackage(d, id) == GetPackage(WithoutTemps(d), id)
    ensures PackagePath(d, id) == PackagePath(WithoutTemps(d), id)
    ensures Listed(d) == Listed(WithoutTemps(d))
  {
    if ValidId(id) {
      NameClassesDisjoint(id);
      MetaNameInjective(id, id);
      NameClassesDisjoint(MetaName(id));
    }
    forall n | n in d && SidecarName(n) ensures n in WithoutTemps(d) {
      NameClassesDisjoint(n);
    }
    var w := WithoutTemps(d);
    forall p | p in Listed(d) ensures p in Listed(w) {
      var n :| n in d && SidecarName(n) && d[n].Sidecar? && d[n].pkg == p;
      assert n in w && w[n] == d[n];
    }
  }
}
