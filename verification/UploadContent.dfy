/** Why a resume needs the same content: name and size are not enough. */
module UploadContent {
  import opened Common
  import opened ChunkPlan
  import opened UploadProtocol
  import Srv = UploadServer
  import Runs = UploadRuns

  /** Every successful upload, in every run over these picks, stores the file its attempt picked. */
  ghost predicate AlwaysFaithful(cfg: Config)
    requires cfg.c > 0
  {
    forall steps, a | Exec(cfg, INIT, steps).Some? && a in Exec(cfg, INIT, steps).value.attempts ::
      Faithful(Exec(cfg, INIT, steps).value.attempts[a])
  }

  predicate Faithful(x: Attempt) { x.pc.Stored? ==> x.pc.data == x.file }

  lemma {:induction false} ExecAppend(cfg: Config, p: State, a: seq<Step>, b: seq<Step>)
    requires cfg.c > 0 && Exec(cfg, p, a).Some?
    ensures Exec(cfg, p, a + b) == Exec(cfg, Exec(cfg, p, a).value, b)
  {
    if b == [] {
      assert a + b == a;
    } else {
      var n := |b| - 1;
      ExecAppend(cfg, p, a, b[..n]);
      assert (a + b)[..|a + b| - 1] == a + b[..n];
    }
  }

  lemma ExecNext(cfg: Config, p: State, steps: seq<Step>, m: State, step: Step)
    requires cfg.c > 0 && Exec(cfg, p, steps) == Some(m)
    ensures Exec(cfg, p, steps + [step]) == Next(cfg, m, step)
  {
    assert (steps + [step])[..|steps|] == steps;
  }

  /** A run of the server on its own is a run of the protocol. */
  lemma {:induction false} LiftServer(cfg: Config, p: State, steps: seq<Srv.Step>) returns (lifted: seq<Step>, q: State)
    requires cfg.c > 0 && Srv.Exec(p.server, steps).Some?
    requires forall i | 0 <= i < |steps| :: Internal(steps[i])
    ensures Exec(cfg, p, lifted) == Some(q)
    ensures q.server == Srv.Exec(p.server, steps).value && q.attempts == p.attempts
    ensures steps != [] && Srv.HasRecord(q.server) ==> q.server.disk.record.value in q.seen
  {
    if steps == [] {
      lifted, q := [], p;
    } else {
      var n := |steps| - 1;
      var before, m := LiftServer(cfg, p, steps[..n]);
      ExecNext(cfg, p, before, m, Server(steps[n]));
      lifted, q := before + [Server(steps[n])], Next(cfg, m, Server(steps[n])).value;
    }
  }

  /** Attempt 0 has uploaded the first k chunks of f, and nothing else is going on. */
  ghost predicate Filled(cfg: Config, f: Bytes, p: State, k: nat)
    requires cfg.c > 0
  {
    && Srv.HasRecord(p.server) && p.server.mu.None? && p.server.completes == map[]
    && (forall t | t in p.server.puts :: t < k)
    && (forall i: nat :: i in p.server.disk.record.value <==> i < k)
    && (forall i: nat | i < k :: i in p.server.disk.chunks && p.server.disk.chunks[i] == Slice(f, cfg.c, i))
    && (forall i: nat | i < k :: p.server.disk.record.value[i] == ChunkSize(cfg.size, cfg.c, i))
    && p.server.disk.record.value in p.seen
    && p.attempts.Keys == {0} && p.attempts[0].file == f && p.attempts[0].next == k && p.attempts[0].pc.Ready?
  }

  lemma Begin(cfg: Config, f: Bytes) returns (steps: seq<Step>, q: State)
    requires ValidConfig(cfg) && f in cfg.picks
    ensures Exec(cfg, INIT, steps) == Some(q) && Filled(cfg, f, q, 0)
  {
    steps := [] + [Start(0, f, map[])];
    ExecNext(cfg, INIT, [], INIT, Start(0, f, map[]));
    q := Next(cfg, INIT, Start(0, f, map[])).value;
    var none: Srv.Record := map[];
    assert !Received(none, cfg.size, cfg.c, 0);
    assert q.attempts.Keys == {0};
  }

  /** After its arrival a put runs through on its own. */
  lemma RunPut(s: Srv.State, t: nat, i: nat, body: Bytes) returns (rest: seq<Srv.Step>)
    requires Srv.HasRecord(s) && s.mu.None? && t !in s.puts
    ensures Srv.Next(s, Srv.PutArrive(t, i, body)).Some?
    ensures Srv.Exec(Srv.Next(s, Srv.PutArrive(t, i, body)).value, rest) == Some(Runs.PutDone(s, t, i, body))
    ensures rest != [] && forall j | 0 <= j < |rest| :: Internal(rest[j])
  {
    Runs.PutAlone(s, t, i, body);
    var arrive := Srv.PutArrive(t, i, body);
    rest := Runs.PutSteps(t, i, body)[1..];
    assert Runs.PutSteps(t, i, body) == [arrive] + rest;
    assert [] + [arrive] == [arrive];
    Runs.ExecNext(s, [], s, arrive);
    Runs.ExecAppend(s, [arrive], rest);
  }

  lemma SendOne(cfg: Config, f: Bytes, p: State, k: nat) returns (steps: seq<Step>, q: State)
    requires ValidConfig(cfg) && f in cfg.picks && k < Total(cfg) && Filled(cfg, f, p, k)
    ensures Exec(cfg, p, steps) == Some(q)
    ensures q.server == Runs.PutDone(p.server, k, k, Slice(f, cfg.c, k))
    ensures q.attempts == p.attempts[0 := p.attempts[0].(pc := Sending(k))]
    ensures Srv.HasRecord(q.server) && q.server.disk.record.value in q.seen
  {
    var rest := RunPut(p.server, k, k, Slice(f, cfg.c, k));
    ExecNext(cfg, p, [], p, Send(0, k));
    var p1 := Next(cfg, p, Send(0, k)).value;
    var lifted, q1 := LiftServer(cfg, p1, rest);
    ExecAppend(cfg, p, [] + [Send(0, k)], lifted);
    steps, q := [] + [Send(0, k)] + lifted, q1;
  }

  /** What one more uninterrupted put does to the disk and the requests. */
  lemma PutDoneDisk(s: Srv.State, k: nat, body: Bytes, s': Srv.State)
    requires Srv.HasRecord(s) && s' == Runs.PutDone(s, k, k, body)
    ensures Srv.HasRecord(s') && s'.mu == s.mu && s'.completes == s.completes
    ensures s'.disk.record.value == s.disk.record.value[k := |body|]
    ensures s'.disk.chunks == s.disk.chunks[k := body]
    ensures s'.puts.Keys == s.puts.Keys + {k}
  {
  }

  /** The state after chunk k is acknowledged is again one of the same shape. */
  lemma FilledNext(cfg: Config, f: Bytes, p: State, k: nat, s': Srv.State, q: State)
    requires ValidConfig(cfg) && Filled(cfg, f, p, k)
    requires |Slice(f, cfg.c, k)| == ChunkSize(cfg.size, cfg.c, k)
    requires s' == Runs.PutDone(p.server, k, k, Slice(f, cfg.c, k)) && q.server == s'
    requires s'.disk.record.value in q.seen
    requires q.attempts.Keys == {0} && q.attempts[0].file == f && q.attempts[0].next == k + 1 && q.attempts[0].pc.Ready?
    ensures Filled(cfg, f, q, k + 1)
  {
    PutDoneDisk(p.server, k, Slice(f, cfg.c, k), s');
    forall t | t in s'.puts ensures t < k + 1 {
      assert t in p.server.puts.Keys + {k};
    }
  }

  lemma UploadOne(cfg: Config, f: Bytes, p: State, k: nat) returns (steps: seq<Step>, q: State)
    requires ValidConfig(cfg) && f in cfg.picks && k < Total(cfg) && Filled(cfg, f, p, k)
    ensures Exec(cfg, p, steps) == Some(q) && Filled(cfg, f, q, k + 1)
  {
    var sent, m := SendOne(cfg, f, p, k);
    ExecNext(cfg, p, sent, m, Acknowledge(0));
    steps, q := sent + [Acknowledge(0)], Next(cfg, m, Acknowledge(0)).value;
    SliceLength(f, cfg.c, k);
    assert q.attempts.Keys == {0};
    FilledNext(cfg, f, p, k, m.server, q);
  }

  lemma {:induction false} UploadMany(cfg: Config, f: Bytes, k: nat) returns (steps: seq<Step>, q: State)
    requires ValidConfig(cfg) && f in cfg.picks && k <= Total(cfg)
    ensures Exec(cfg, INIT, steps) == Some(q) && Filled(cfg, f, q, k)
  {
    if k == 0 {
      steps, q := Begin(cfg, f);
    } else {
      var before, m := UploadMany(cfg, f, k - 1);
      var more, q1 := UploadOne(cfg, f, m, k - 1);
      ExecAppend(cfg, INIT, before, more);
      steps, q := before + more, q1;
    }
  }

  /** Attempt 1 resumes with g; the server is assembling, with the first k chunks copied. */
  ghost predicate Assembling(cfg: Config, f: Bytes, g: Bytes, p: State, k: nat)
    requires cfg.c > 0
  {
    && p.server.disk.Dir?
    && (forall i: nat | i < Total(cfg) :: i in p.server.disk.chunks && p.server.disk.chunks[i] == Slice(f, cfg.c, i))
    && 0 in p.server.completes && p.server.completes[0] == Srv.Copying(Total(cfg), Slices(f, cfg.c, k))
    && 1 in p.attempts && p.attempts[1].file == g && p.attempts[1].pc == Finishing(0)
  }

  lemma ResumeSkipsAll(cfg: Config, have: Srv.Record)
    requires ValidConfig(cfg)
    requires forall i: nat | i < Total(cfg) :: Received(have, cfg.size, cfg.c, i)
    ensures ResumeIndex(have, cfg.size, cfg.c, 0) == Total(cfg)
  {
  }

  lemma RecordIsContiguous(cfg: Config, r: Srv.Record)
    requires ValidConfig(cfg) && forall i: nat :: i in r <==> i < Total(cfg)
    ensures Srv.CompleteReadPc(r) == Srv.Copying(Total(cfg), [])
  {
    assert r.Keys == Runs.Below(Total(cfg));
    Runs.ContiguousKeys(r.Keys, Total(cfg));
  }

  /** The second attempt starts at the end, asks for completion, and the server reads the record. */
  lemma ResumeSteps(cfg: Config, f: Bytes, g: Bytes, p: State, p1: State, p2: State, q: State)
    requires ValidConfig(cfg) && g in cfg.picks && Filled(cfg, f, p, Total(cfg))
    requires p1 == SetAttempt(p, 1, Attempt(g, Total(cfg), Min(Total(cfg) * cfg.c, cfg.size), Ready))
    requires p2 == SetAttempt(p1, 1, p1.attempts[1].(pc := Finishing(0)))
                   .(server := p.server.(completes := map[0 := Srv.Asked]))
    requires q == p2.(server := p.server.(completes := map[0 := Srv.Copying(Total(cfg), [])]))
    ensures Next(cfg, p, Start(1, g, p.server.disk.record.value)) == Some(p1)
    ensures Next(cfg, p1, Finish(1, 0)) == Some(p2)
    ensures Next(cfg, p2, Server(Srv.CompleteRead(0))) == Some(q)
  {
    var have := p.server.disk.record.value;
    ResumeSkipsAll(cfg, have);
    RecordIsContiguous(cfg, have);
    assert p.seen + {have} == p.seen;
    assert map[0 := Srv.Asked][0 := Srv.Copying(Total(cfg), [])] == map[0 := Srv.Copying(Total(cfg), [])];
  }

  lemma ExecThree(cfg: Config, p: State, a: Step, b: Step, c: Step, p1: State, p2: State, q: State)
    requires cfg.c > 0
    requires Next(cfg, p, a) == Some(p1) && Next(cfg, p1, b) == Some(p2) && Next(cfg, p2, c) == Some(q)
    ensures Exec(cfg, p, [] + [a] + [b] + [c]) == Some(q)
  {
    ExecNext(cfg, p, [], p, a);
    ExecNext(cfg, p, [] + [a], p1, b);
    ExecNext(cfg, p, [] + [a] + [b], p2, c);
  }

  lemma ResumeWithOther(cfg: Config, f: Bytes, g: Bytes, p: State) returns (steps: seq<Step>, q: State)
    requires ValidConfig(cfg) && g in cfg.picks && Filled(cfg, f, p, Total(cfg))
    ensures Exec(cfg, p, steps) == Some(q) && Assembling(cfg, f, g, q, 0)
  {
    var start, finish, read := Start(1, g, p.server.disk.record.value), Finish(1, 0), Server(Srv.CompleteRead(0));
    var p1 := SetAttempt(p, 1, Attempt(g, Total(cfg), Min(Total(cfg) * cfg.c, cfg.size), Ready));
    var p2 := SetAttempt(p1, 1, p1.attempts[1].(pc := Finishing(0)))
      .(server := p.server.(completes := map[0 := Srv.Asked]));
    q := p2.(server := p.server.(completes := map[0 := Srv.Copying(Total(cfg), [])]));
    ResumeSteps(cfg, f, g, p, p1, p2, q);
    ExecThree(cfg, p, start, finish, read, p1, p2, q);
    steps := [] + [start] + [finish] + [read];
    assert Slices(f, cfg.c, 0) == [];
  }

  lemma CopyOne(cfg: Config, f: Bytes, g: Bytes, p: State, k: nat)
    requires ValidConfig(cfg) && Assembling(cfg, f, g, p, k) && k < Total(cfg)
    ensures var q := Next(cfg, p, Server(Srv.CompleteCopy(0)));
            q.Some? && Assembling(cfg, f, g, q.value, k + 1)
  {
    assert Slices(f, cfg.c, k + 1) == Slices(f, cfg.c, k) + [Slice(f, cfg.c, k)];
  }

  lemma {:induction false} CopyMany(cfg: Config, f: Bytes, g: Bytes, p: State, k: nat)
    returns (steps: seq<Step>, q: State)
    requires ValidConfig(cfg) && Assembling(cfg, f, g, p, 0) && k <= Total(cfg)
    ensures Exec(cfg, p, steps) == Some(q) && Assembling(cfg, f, g, q, k)
  {
    if k == 0 {
      steps, q := [], p;
    } else {
      var before, m := CopyMany(cfg, f, g, p, k - 1);
      var copy := Server(Srv.CompleteCopy(0));
      CopyOne(cfg, f, g, m, k - 1);
      ExecNext(cfg, p, before, m, copy);
      steps, q := before + [copy], Next(cfg, m, copy).value;
    }
  }

  lemma ImportAssembled(cfg: Config, f: Bytes, g: Bytes, p: State) returns (steps: seq<Step>, q: State)
    requires ValidConfig(cfg) && |f| == cfg.size && Assembling(cfg, f, g, p, Total(cfg))
    ensures Exec(cfg, p, steps) == Some(q)
    ensures 1 in q.attempts && q.attempts[1].file == g && q.attempts[1].pc == Stored(f)
  {
    var finish := Server(Srv.CompleteImport(0));
    ExecNext(cfg, p, [], p, finish);
    var m := Next(cfg, p, finish).value;
    ExecNext(cfg, p, [] + [finish], m, Conclude(1));
    steps, q := [] + [finish] + [Conclude(1)], Next(cfg, m, Conclude(1)).value;
    SlicesCoverFile(f, cfg.c);
  }

  /** Upload f, stop before completing, re-pick g: everything is skipped and f is stored. */
  lemma ResumeStoresFirstPick(cfg: Config, f: Bytes, g: Bytes) returns (steps: seq<Step>)
    requires ValidConfig(cfg) && f in cfg.picks && g in cfg.picks
    ensures Exec(cfg, INIT, steps).Some?
    ensures var p := Exec(cfg, INIT, steps).value;
            1 in p.attempts && p.attempts[1].file == g && p.attempts[1].pc == Stored(f)
  {
    var a, p := UploadMany(cfg, f, Total(cfg));
    var b, p1 := ResumeWithOther(cfg, f, g, p);
    var c, p2 := CopyMany(cfg, f, g, p1, Total(cfg));
    var d, p3 := ImportAssembled(cfg, f, g, p2);
    ExecAppend(cfg, INIT, a, b);
    ExecAppend(cfg, INIT, a + b, c);
    ExecAppend(cfg, INIT, a + b + c, d);
    steps := a + b + c + d;
  }

  lemma OnePickFaithful(cfg: Config, f: Bytes)
    requires ValidConfig(cfg) && cfg.picks == {f}
    ensures AlwaysFaithful(cfg)
  {
    forall steps, a | Exec(cfg, INIT, steps).Some? && a in Exec(cfg, INIT, steps).value.attempts
      ensures Faithful(Exec(cfg, INIT, steps).value.attempts[a])
    {
      PickedFile(cfg, steps, a);
      if Exec(cfg, INIT, steps).value.attempts[a].pc.Stored? {
        StoresExactlyTheFile(cfg, f, steps, a);
      }
    }
  }

  lemma TwoPicksUnfaithful(cfg: Config, f: Bytes, g: Bytes)
    requires ValidConfig(cfg) && f in cfg.picks && g in cfg.picks && f != g
    ensures !AlwaysFaithful(cfg)
  {
    var steps := ResumeStoresFirstPick(cfg, f, g);
    assert !Faithful(Exec(cfg, INIT, steps).value.attempts[1]);
  }

  /** The client checks only name and size. Among files that pass this check, uploads always
      store the file their attempt picked exactly when all the picks are the same bytes. */
  lemma FaithfulIffSameContent(cfg: Config)
    requires ValidConfig(cfg)
    ensures AlwaysFaithful(cfg) <==> forall f, g | f in cfg.picks && g in cfg.picks :: f == g
  {
    if f, g :| f in cfg.picks && g in cfg.picks && f != g {
      TwoPicksUnfaithful(cfg, f, g);
    } else if f :| f in cfg.picks {
      assert cfg.picks == {f};
      OnePickFaithful(cfg, f);
    } else {
      NoPicksFaithful(cfg);
    }
  }

  lemma NoPicksNoAttempts(cfg: Config, steps: seq<Step>)
    requires ValidConfig(cfg) && cfg.picks == {} && Exec(cfg, INIT, steps).Some?
    ensures Exec(cfg, INIT, steps).value.attempts == map[]
  {
    if a :| a in Exec(cfg, INIT, steps).value.attempts {
      PickedFile(cfg, steps, a);
      assert false;
    }
  }

  lemma NoPicksFaithful(cfg: Config)
    requires ValidConfig(cfg) && cfg.picks == {}
    ensures AlwaysFaithful(cfg)
  {
    forall steps | Exec(cfg, INIT, steps).Some? ensures Exec(cfg, INIT, steps).value.attempts == map[] {
      NoPicksNoAttempts(cfg, steps);
    }
  }

  lemma PickedFile(cfg: Config, steps: seq<Step>, a: nat)
    requires ValidConfig(cfg) && Exec(cfg, INIT, steps).Some? && a in Exec(cfg, INIT, steps).value.attempts
    ensures Exec(cfg, INIT, steps).value.attempts[a].file in cfg.picks
  {
    RunKeepsInv(cfg, steps);
    var p := Exec(cfg, INIT, steps).value;
    assert AttemptOk(cfg, p.server, p.attempts[a]);
  }
}
