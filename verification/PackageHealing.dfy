/** Which packages a history with crashes leaves out of step, and what brings them back. */
module PackageHealing {
  import opened Common
  import opened PackageNames
  import opened PackageTable
  import opened PackageDir
  import opened PackageSteps
  import opened PackageCrash

  /** The event gets as far as changing this id: an accepted import its rename, a delete its first removal. */
  predicate Touches(env: Env, d: Dir, e: Event, id: string) {
    match e
    case Import(req, _, pieces, broken, cut) =>
      var r := ImportResult(env, d.Keys, req, pieces, broken);
      r.Ok? && r.value.id == id && cut >= |pieces| + 2
    case Delete(other, cut) => other == id && ValidId(id) && id in d && cut >= 1
  }

  /** A touching event leaves its id in step: it was not cut in its gap, or what was beside the gap fits. */
  ghost predicate Settles(env: Env, d: Dir, e: Event, id: string) {
    match e
    case Import(_, _, pieces, _, cut) =>
      cut >= |pieces| + 3
      || (MetaName(id) in d && d[MetaName(id)].Sidecar? && Matches(env, Concat(pieces), d[MetaName(id)].pkg))
    case Delete(_, cut) => cut >= 2 || MetaName(id) !in d
  }

  ghost predicate Ready(d: Dir, e: Event) {
    WellFormed(d) && (e.Import? ==> Fresh(d, e.tmp))
  }

  /** The two files of one id are as they were. */
  ghost predicate SameFiles(d: Dir, d': Dir, id: string) {
    && (id in d <==> id in d') && (id in d ==> d[id] == d'[id])
    && (MetaName(id) in d <==> MetaName(id) in d') && (MetaName(id) in d ==> d[MetaName(id)] == d'[MetaName(id)])
  }

  /** The files an import leaves, by the number of operations it got through. */
  lemma ImportLeaves(env: Env, d: Dir, e: Event)
    requires Ready(d, e) && e.Import?
    ensures var r := ImportResult(env, d.Keys, e.req, e.pieces, e.broken);
            var k := Min(e.cut, |ImportOps(e.tmp, e.pieces, r)|);
            && Publishable(env, d, e.pieces, r)
            && After(env, d, e) == ImportStage(d, e.tmp, e.pieces, r, k)
  {
    var r := ImportResult(env, d.Keys, e.req, e.pieces, e.broken);
    ImportPublishable(env, d, e.req, e.pieces, e.broken);
    if r.Ok? { TempApart(e.tmp, r.value.id); }
    ImportStages(d, e.tmp, e.pieces, r, Min(e.cut, |ImportOps(e.tmp, e.pieces, r)|));
  }

  lemma UntouchedByImport(env: Env, d: Dir, e: Event, id: string)
    requires Ready(d, e) && ValidId(id) && e.Import? && !Touches(env, d, e, id)
    ensures SameFiles(d, After(env, d, e), id)
  {
    var r := ImportResult(env, d.Keys, e.req, e.pieces, e.broken);
    ImportLeaves(env, d, e);
    TempApart(e.tmp, id);
    if r.Ok? {
      IdsApart(id, r.value.id);
      IdsApart(r.value.id, id);
    }
  }

  lemma UntouchedByDelete(env: Env, d: Dir, e: Event, id: string)
    requires Ready(d, e) && ValidId(id) && e.Delete? && !Touches(env, d, e, id)
    ensures SameFiles(d, After(env, d, e), id)
  {
    DeleteStages(d, e.id, Min(e.cut, |DeleteOps(d, e.id)|));
    if ValidId(e.id) {
      IdsApart(id, e.id);
      IdsApart(e.id, id);
    }
  }

  lemma SameFilesSameStep(env: Env, d: Dir, d': Dir, id: string)
    requires SameFiles(d, d', id)
    ensures InStep(env, d, id) <==> InStep(env, d', id)
  {
  }

  /** An event that does not touch an id leaves it in step or out of step as it was. */
  lemma UntouchedSame(env: Env, d: Dir, e: Event, id: string)
    requires Ready(d, e) && ValidId(id) && !Touches(env, d, e, id)
    ensures SameFiles(d, After(env, d, e), id)
    ensures InStep(env, After(env, d, e), id) <==> InStep(env, d, id)
  {
    if e.Import? {
      UntouchedByImport(env, d, e, id);
    } else {
      UntouchedByDelete(env, d, e, id);
    }
    SameFilesSameStep(env, d, After(env, d, e), id);
  }

  /** After an event that touches an id, the id is in step exactly when the event settles it, whatever
      it was before. */
  lemma TouchedIff(env: Env, d: Dir, e: Event, id: string)
    requires Ready(d, e) && ValidId(id) && Touches(env, d, e, id)
    ensures InStep(env, After(env, d, e), id) <==> Settles(env, d, e, id)
  {
    IdsApart(id, id);
    IdIsTarball(d, id);
    if e.Import? {
      ImportLeaves(env, d, e);
      TempApart(e.tmp, id);
    } else {
      DeleteStages(d, id, Min(e.cut, 2));
    }
  }

  lemma EventDecides(env: Env, d: Dir, e: Event, id: string)
    requires Ready(d, e) && ValidId(id)
    ensures InStep(env, After(env, d, e), id) <==>
            if Touches(env, d, e, id) then Settles(env, d, e, id) else InStep(env, d, id)
  {
    if Touches(env, d, e, id) {
      TouchedIff(env, d, e, id);
    } else {
      UntouchedSame(env, d, e, id);
    }
  }

  // ---------- whole histories ----------

  predicate TouchesAt(env: Env, run: seq<Event>, i: int, id: string) {
    0 <= i < |run| && Touches(env, RunDir(env, run[..i]), run[i], id)
  }

  ghost predicate LastTouch(env: Env, run: seq<Event>, i: int, id: string) {
    TouchesAt(env, run, i, id) && forall j | i < j < |run| :: !TouchesAt(env, run, j, id)
  }

  lemma RunDirSnoc(env: Env, run: seq<Event>, n: nat)
    requires n < |run|
    ensures RunDir(env, run[..n + 1]) == After(env, RunDir(env, run[..n]), run[n])
  {
    assert run[..n + 1][..n] == run[..n];
  }

  lemma RunReady(env: Env, run: seq<Event>, n: nat)
    requires ValidRun(env, run) && n < |run|
    ensures Ready(RunDir(env, run[..n]), run[n])
  {
    ValidRunPrefix(env, run, n);
    ReachableFilesAreWholeAndChecked(env, run[..n]);
  }

  ghost predicate SettlesAt(env: Env, run: seq<Event>, i: int, id: string) {
    0 <= i < |run| && Settles(env, RunDir(env, run[..i]), run[i], id)
  }

  /** Whether an id is in step after the first n events. */
  ghost predicate InStepAfter(env: Env, run: seq<Event>, n: nat, id: string)
    requires n <= |run|
  {
    InStep(env, RunDir(env, run[..n]), id)
  }

  lemma NextInStep(env: Env, run: seq<Event>, n: nat, id: string)
    requires ValidRun(env, run) && ValidId(id) && n < |run|
    ensures TouchesAt(env, run, n, id) ==> (InStepAfter(env, run, n + 1, id) <==> SettlesAt(env, run, n, id))
    ensures !TouchesAt(env, run, n, id) ==> (InStepAfter(env, run, n + 1, id) <==> InStepAfter(env, run, n, id))
  {
    RunReady(env, run, n);
    EventDecides(env, RunDir(env, run[..n]), run[n], id);
    RunDirSnoc(env, run, n);
  }

  predicate LastTrue(touched: seq<bool>, i: int) {
    0 <= i < |touched| && touched[i] && forall j | i < j < |touched| :: !touched[j]
  }

  /** A state that only touching events change, each to what it settles, is decided by the last of them. */
  lemma {:induction false} LastDecides(touched: seq<bool>, settled: seq<bool>, inStep: seq<bool>)
    requires |settled| == |touched| && |inStep| == |touched| + 1 && inStep[0]
    requires forall i | 0 <= i < |touched| :: inStep[i + 1] == if touched[i] then settled[i] else inStep[i]
    ensures !inStep[|touched|] <==> exists i :: LastTrue(touched, i) && !settled[i]
  {
    if touched != [] {
      var n := |touched| - 1;
      LastDecides(touched[..n], settled[..n], inStep[..n + 1]);
      if touched[n] {
        assert LastTrue(touched, n);
      } else {
        forall i ensures LastTrue(touched, i) <==> LastTrue(touched[..n], i) {
        }
      }
    }
  }

  /** After any history of imports and deletes with crashes anywhere, an id is out of step exactly when the
      last event that touched it was cut in its gap and what was beside the gap does not fit. */
  lemma OutOfStepIff(env: Env, run: seq<Event>, id: string)
    requires ValidRun(env, run) && ValidId(id)
    ensures !InStep(env, RunDir(env, run), id) <==>
            exists i :: LastTouch(env, run, i, id) && !SettlesAt(env, run, i, id)
  {
    var n := |run|;
    ghost var touched := seq(n, i => TouchesAt(env, run, i, id));
    ghost var settled := seq(n, i => SettlesAt(env, run, i, id));
    ghost var inStep := seq(n + 1, i requires 0 <= i <= n => InStepAfter(env, run, i, id));
    forall i | 0 <= i < n ensures inStep[i + 1] == if touched[i] then settled[i] else inStep[i] {
      NextInStep(env, run, i, id);
    }
    LastDecides(touched, settled, inStep);
    assert run[..n] == run;
    forall i ensures LastTrue(touched, i) <==> LastTouch(env, run, i, id) {
      LastTouchIsLastTrue(env, run, id, touched, i);
    }
  }

  lemma LastTouchIsLastTrue(env: Env, run: seq<Event>, id: string, touched: seq<bool>, i: int)
    requires |touched| == |run| && forall j | 0 <= j < |run| :: touched[j] == TouchesAt(env, run, j, id)
    ensures LastTrue(touched, i) <==> LastTouch(env, run, i, id)
  {
  }

  // ---------- healing ----------

  /** While its tarball is there no import touches an id; a delete that is not cut heals it. */
  lemma OnlyDeleteHealsTarball(env: Env, d: Dir, e: Event, id: string)
    requires Ready(d, e) && ValidId(id) && id in d
    ensures e.Import? ==> SameFiles(d, After(env, d, e), id)
    ensures e == Delete(id, e.cut) && e.cut >= 2 ==>
      InStep(env, After(env, d, e), id) && id !in After(env, d, e)
  {
    if e.Import? {
      UntouchedByImport(env, d, e, id);
    } else if e == Delete(id, e.cut) && e.cut >= 2 {
      TouchedIff(env, d, e, id);
      DeleteStages(d, id, 2);
    }
  }

  /** While its tarball is missing no delete touches an id; an accepted import that is not cut heals it. */
  lemma OnlyImportHealsSidecar(env: Env, d: Dir, e: Event, id: string)
    requires Ready(d, e) && ValidId(id) && id !in d
    ensures e.Delete? ==> SameFiles(d, After(env, d, e), id)
    ensures e.Import? && Touches(env, d, e, id) && e.cut >= |e.pieces| + 3 ==>
      InStep(env, After(env, d, e), id) && id in After(env, d, e)
  {
    if e.Delete? {
      UntouchedByDelete(env, d, e, id);
    } else if Touches(env, d, e, id) && e.cut >= |e.pieces| + 3 {
      TouchedIff(env, d, e, id);
      ImportLeaves(env, d, e);
      TempApart(e.tmp, id);
    }
  }
}
