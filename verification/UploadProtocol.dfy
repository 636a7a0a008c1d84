/** The browser's upload attempts against one session, interleaved with the server's handlers. */
module UploadProtocol {
  import opened Common
  import opened ChunkPlan
  import Srv = UploadServer
  import Runs = UploadRuns

  /** CHUNK_SIZE, the file size the client remembers, and the contents the user may pick. */
  datatype Config = Config(c: nat, size: nat, picks: set<Bytes>)

  ghost predicate ValidConfig(cfg: Config) {
    cfg.c > 0 && forall f | f in cfg.picks :: |f| == cfg.size
  }

  /** Where one run of `_uploadSingle` stands. A cut attempt just stays Stopped. */
  datatype AttemptPc =
    | Ready               // about to send chunk `next`, or to ask for completion
    | Sending(t: nat)     // waiting for the put handled by t
    | Finishing(t: nat)   // waiting for the complete handled by t
    | Stored(data: Bytes) // the server answered with the imported package
    | Stopped

  datatype Attempt = Attempt(file: Bytes, next: nat, uploaded: nat, pc: AttemptPc)

  /** `seen` are all the session records ever on disk: any of them may be a resume's snapshot. */
  datatype State = State(server: Srv.State, attempts: map<nat, Attempt>, seen: set<Srv.Record>)

  const INIT := State(Srv.INIT, map[], {map[]})

  datatype Step =
    | Server(step: Srv.Step)
    | Start(a: nat, file: Bytes, snapshot: Srv.Record)
    | Send(a: nat, t: nat)
    | Acknowledge(a: nat)
    | Finish(a: nat, t: nat)
    | Conclude(a: nat)
    | Stop(a: nat)

  function Total(cfg: Config): nat
    requires cfg.c > 0
  {
    TotalChunks(cfg.size, cfg.c)
  }

  function Observe(seen: set<Srv.Record>, s: Srv.State): set<Srv.Record> {
    if Srv.HasRecord(s) then seen + {s.disk.record.value} else seen
  }

  /** New requests only come from attempts; everything else the server does on its own. */
  predicate Internal(step: Srv.Step) { !step.PutArrive? && !step.CompleteArrive? }

  function SetAttempt(p: State, a: nat, x: Attempt): State {
    p.(attempts := p.attempts[a := x])
  }

  /** The server moved (or could not); whatever its disk shows now has been seen. */
  function WithServer(p: State, s': Option<Srv.State>): Option<State> {
    if s'.None? then None else Some(p.(server := s'.value, seen := Observe(p.seen, s'.value)))
  }

  function Next(cfg: Config, p: State, step: Step): Option<State>
    requires cfg.c > 0
  {
    match step
    case Server(st) =>
      if Internal(st) then WithServer(p, Srv.Next(p.server, st)) else None
    case Start(a, file, snapshot) =>
      if a in p.attempts || file !in cfg.picks || snapshot !in p.seen then None else
        var next := ResumeIndex(snapshot, cfg.size, cfg.c, 0);
        Some(SetAttempt(p, a, Attempt(file, next, Min(next * cfg.c, cfg.size), Ready)))
    case Send(a, t) =>
      if a !in p.attempts || !p.attempts[a].pc.Ready? || p.attempts[a].next >= Total(cfg) then None else
        var x := p.attempts[a];
        WithServer(SetAttempt(p, a, x.(pc := Sending(t))),
                   Srv.Next(p.server, Srv.PutArrive(t, x.next, Slice(x.file, cfg.c, x.next))))
    case Acknowledge(a) =>
      if a !in p.attempts || !p.attempts[a].pc.Sending? then None else
        var x := p.attempts[a];
        if x.pc.t in p.server.puts && p.server.puts[x.pc.t].pc.Acked?
        then Some(SetAttempt(p, a, Attempt(x.file, x.next + 1, x.uploaded + |Slice(x.file, cfg.c, x.next)|, Ready)))
        else None
    case Finish(a, t) =>
      if a !in p.attempts || !p.attempts[a].pc.Ready? || p.attempts[a].next < Total(cfg) then None else
        WithServer(SetAttempt(p, a, p.attempts[a].(pc := Finishing(t))),
                   Srv.Next(p.server, Srv.CompleteArrive(t)))
    case Conclude(a) =>
      if a !in p.attempts || !p.attempts[a].pc.Finishing? then None else
        var x := p.attempts[a];
        if x.pc.t in p.server.completes && p.server.completes[x.pc.t].Imported?
        then Some(SetAttempt(p, a, x.(pc := Stored(Concat(p.server.completes[x.pc.t].pieces)))))
        else None
    case Stop(a) =>
      if a !in p.attempts || p.attempts[a].pc.Stored? then None
      else Some(SetAttempt(p, a, p.attempts[a].(pc := Stopped)))
  }

  function Exec(cfg: Config, p: State, steps: seq<Step>): Option<State>
    requires cfg.c > 0
  {
    if steps == [] then Some(p) else
      match Exec(cfg, p, steps[..|steps| - 1])
      case None => None
      case Some(m) => Next(cfg, m, steps[|steps| - 1])
  }

  // ---------- invariants ----------

  /** Every put carries a planned slice of some picked file. */
  ghost predicate PutsPlanned(cfg: Config, s: Srv.State)
    requires cfg.c > 0
  {
    forall t | t in s.puts :: s.puts[t].index < Total(cfg) && FromPick(cfg, s.puts[t].index, s.puts[t].body)
  }

  ghost predicate FromPick(cfg: Config, i: nat, body: Bytes) {
    exists f :: f in cfg.picks && body == Slice(f, cfg.c, i)
  }

  ghost predicate AckedIndex(s: Srv.State, i: nat) {
    exists t :: t in s.puts && s.puts[t].index == i && s.puts[t].pc.Acked?
  }

  /** A snapshot only shows acknowledged chunks. */
  ghost predicate SeenAcked(p: State) {
    forall r, i | r in p.seen && i in r :: AckedIndex(p.server, i)
  }

  ghost predicate AllAcked(s: Srv.State, n: nat) {
    forall i: nat | i < n :: AckedIndex(s, i)
  }

  /** What an attempt has behind it is acknowledged; what it is sending is the slice it should be;
      its progress counter is exact and never beyond the file. */
  ghost predicate AttemptOk(cfg: Config, s: Srv.State, x: Attempt)
    requires cfg.c > 0
  {
    && x.file in cfg.picks
    && x.next <= Total(cfg)
    && x.uploaded == Min(x.next * cfg.c, cfg.size)
    && AllAcked(s, x.next)
    && (x.pc.Sending? ==> x.next < Total(cfg) && x.pc.t in s.puts && s.puts[x.pc.t].index == x.next)
    && (x.pc.Finishing? ==> x.next == Total(cfg) && x.pc.t in s.completes)
    && (x.pc.Stored? ==> x.next == Total(cfg) && FromPicks(cfg, x.pc.data))
  }

  ghost predicate AttemptsOk(cfg: Config, p: State)
    requires cfg.c > 0
  {
    forall a | a in p.attempts :: AttemptOk(cfg, p.server, p.attempts[a])
  }

  /** Chunk by chunk, the pieces are the planned slices of picked files. */
  ghost predicate PiecesPlanned(cfg: Config, pieces: seq<Bytes>) {
    forall i | 0 <= i < |pieces| :: FromPick(cfg, i, pieces[i])
  }

  ghost predicate FromPicks(cfg: Config, data: Bytes)
    requires cfg.c > 0
  {
    exists pieces: seq<Bytes> :: |pieces| == Total(cfg) && PiecesPlanned(cfg, pieces) && data == Concat(pieces)
  }

  /** The complete handler is not refused for a missing chunk, and assembles exactly the planned chunks. */
  ghost predicate CompleteOk(cfg: Config, s: Srv.State, pc: Srv.CompletePc)
    requires cfg.c > 0
  {
    match pc
    case Asked => AllAcked(s, Total(cfg))
    case Refused => false
    case Copying(n, pieces) => n == Total(cfg) && PiecesPlanned(cfg, pieces)
    case Imported(pieces) => |pieces| == Total(cfg) && PiecesPlanned(cfg, pieces)
    case NotImported => true
  }

  ghost predicate CompletesOk(cfg: Config, s: Srv.State)
    requires cfg.c > 0
  {
    forall t | t in s.completes :: CompleteOk(cfg, s, s.completes[t])
  }

  ghost predicate Inv(cfg: Config, p: State)
    requires cfg.c > 0
  {
    && Srv.Inv(p.server)
    && PutsPlanned(cfg, p.server)
    && SeenAcked(p)
    && AttemptsOk(cfg, p)
    && CompletesOk(cfg, p.server)
  }

  lemma AckedStays(s: Srv.State, s': Srv.State, i: nat)
    requires Srv.Grows(s, s') && AckedIndex(s, i)
    ensures AckedIndex(s', i)
  {
    var t :| t in s.puts && s.puts[t].index == i && s.puts[t].pc.Acked?;
    assert t in s'.puts;
  }

  lemma AllAckedStays(s: Srv.State, s': Srv.State, n: nat)
    requires Srv.Grows(s, s') && AllAcked(s, n)
    ensures AllAcked(s', n)
  {
    forall i: nat | i < n ensures AckedIndex(s', i) {
      AckedStays(s, s', i);
    }
  }

  /** A record holding every acknowledged index, and only planned ones, is complete when all are acknowledged. */
  lemma CompleteRecord(cfg: Config, s: Srv.State)
    requires cfg.c > 0 && Srv.Inv(s) && PutsPlanned(cfg, s) && Srv.HasRecord(s)
    requires AllAcked(s, Total(cfg))
    ensures Srv.CompleteReadPc(s.disk.record.value) == Srv.Copying(Total(cfg), [])
  {
    var r := s.disk.record.value;
    assert Srv.RecordOk(s, r);
    forall i: nat ensures i in r <==> i < Total(cfg) {
      if i < Total(cfg) {
        assert AckedIndex(s, i);
        var t :| t in s.puts && s.puts[t].index == i && s.puts[t].pc.Acked?;
      }
    }
    assert r.Keys == Runs.Below(Total(cfg));
    Runs.ContiguousKeys(r.Keys, Total(cfg));
  }

  /** Whatever the disk shows after a server step was acknowledged. */
  lemma ObservedAcked(cfg: Config, p: State, s': Srv.State)
    requires cfg.c > 0 && Inv(cfg, p) && Srv.Grows(p.server, s') && Srv.Inv(s')
    ensures SeenAcked(p.(server := s', seen := Observe(p.seen, s')))
  {
    var p' := p.(server := s', seen := Observe(p.seen, s'));
    forall r, i | r in p'.seen && i in r ensures AckedIndex(s', i) {
      if r in p.seen {
        AckedStays(p.server, s', i);
      } else {
        assert Srv.RecordOk(s', r);
        assert s'.lastRecorded[i] in s'.puts;
      }
    }
  }

  lemma AttemptStaysOk(cfg: Config, s: Srv.State, s': Srv.State, x: Attempt)
    requires cfg.c > 0 && Srv.Grows(s, s') && AttemptOk(cfg, s, x)
    requires s.completes.Keys <= s'.completes.Keys
    ensures AttemptOk(cfg, s', x)
  {
    AllAckedStays(s, s', x.next);
  }

  lemma CompleteStaysOk(cfg: Config, s: Srv.State, s': Srv.State, pc: Srv.CompletePc)
    requires cfg.c > 0 && Srv.Grows(s, s') && CompleteOk(cfg, s, pc)
    ensures CompleteOk(cfg, s', pc)
  {
    if pc.Asked? {
      AllAckedStays(s, s', Total(cfg));
    }
  }

  lemma CopiedChunkPlanned(cfg: Config, s: Srv.State, t: nat, s': Srv.State)
    requires cfg.c > 0 && Srv.Inv(s) && PutsPlanned(cfg, s) && CompletesOk(cfg, s)
    requires Srv.Next(s, Srv.CompleteCopy(t)) == Some(s')
    ensures CompleteOk(cfg, s, s'.completes[t])
  {
    var pieces := s.completes[t].pieces;
    var i := |pieces|;
    assert CompleteOk(cfg, s, s.completes[t]);
    assert FromPick(cfg, i, s.disk.chunks[i]);
    assert s'.completes[t].pieces == pieces + [s.disk.chunks[i]];
  }

  lemma ServerKeepsCompletes(cfg: Config, p: State, step: Srv.Step, s': Srv.State)
    requires ValidConfig(cfg) && Inv(cfg, p) && Internal(step) && Srv.Next(p.server, step) == Some(s')
    requires Srv.Grows(p.server, s')
    ensures CompletesOk(cfg, s')
    ensures p.server.completes.Keys == s'.completes.Keys
  {
    var s := p.server;
    SameCompletes(s, step, s');
    forall t | t in s'.completes ensures CompleteOk(cfg, s', s'.completes[t]) {
      ServerKeepsComplete(cfg, s, step, s', t);
    }
  }

  lemma SameCompletes(s: Srv.State, step: Srv.Step, s': Srv.State)
    requires Internal(step) && Srv.Next(s, step) == Some(s')
    ensures s'.completes.Keys == s.completes.Keys
  {
  }

  lemma ServerKeepsComplete(cfg: Config, s: Srv.State, step: Srv.Step, s': Srv.State, t: nat)
    requires cfg.c > 0 && Srv.Inv(s) && PutsPlanned(cfg, s) && CompletesOk(cfg, s)
    requires Internal(step) && Srv.Next(s, step) == Some(s') && Srv.Grows(s, s')
    requires t in s.completes && t in s'.completes
    ensures CompleteOk(cfg, s', s'.completes[t])
  {
    Srv.CompleteChange(s, step, s', t);
    assert CompleteOk(cfg, s, s.completes[t]);
    if step == Srv.CompleteRead(t) {
      CompleteRecord(cfg, s);
    } else if step == Srv.CompleteCopy(t) {
      CopiedChunkPlanned(cfg, s, t, s');
      CompleteStaysOk(cfg, s, s', s'.completes[t]);
    } else {
      CompleteStaysOk(cfg, s, s', s.completes[t]);
    }
  }

  lemma SamePuts(s: Srv.State, step: Srv.Step, s': Srv.State)
    requires Internal(step) && Srv.Next(s, step) == Some(s')
    ensures s'.puts.Keys == s.puts.Keys
  {
  }

  /** When the server moves on and its handlers are still in order, so is everything seen and attempted. */
  lemma ServerMoves(cfg: Config, p: State, s': Srv.State)
    requires ValidConfig(cfg) && Inv(cfg, p) && Srv.Grows(p.server, s') && Srv.Inv(s')
    requires PutsPlanned(cfg, s') && CompletesOk(cfg, s') && p.server.completes.Keys <= s'.completes.Keys
    ensures Inv(cfg, p.(server := s', seen := Observe(p.seen, s')))
  {
    ObservedAcked(cfg, p, s');
    forall a | a in p.attempts ensures AttemptOk(cfg, s', p.attempts[a]) {
      AttemptStaysOk(cfg, p.server, s', p.attempts[a]);
    }
  }

  lemma ServerStepKeeps(cfg: Config, p: State, step: Srv.Step, s': Srv.State)
    requires ValidConfig(cfg) && Inv(cfg, p) && Internal(step) && Srv.Next(p.server, step) == Some(s')
    ensures Inv(cfg, p.(server := s', seen := Observe(p.seen, s')))
  {
    Srv.StepKeepsInv(p.server, step, s');
    Srv.StepGrows(p.server, step, s');
    SamePuts(p.server, step, s');
    ServerKeepsCompletes(cfg, p, step, s');
    ServerMoves(cfg, p, s');
  }

  lemma AttemptChangeKeeps(cfg: Config, p: State, a: nat, x: Attempt)
    requires cfg.c > 0 && Inv(cfg, p) && AttemptOk(cfg, p.server, x)
    ensures Inv(cfg, SetAttempt(p, a, x))
  {
  }

  /** A resume from any snapshot only skips chunks that are acknowledged. */
  lemma StartKeeps(cfg: Config, p: State, step: Step, p': State)
    requires ValidConfig(cfg) && Inv(cfg, p) && step.Start? && Next(cfg, p, step) == Some(p')
    ensures Inv(cfg, p')
  {
    var next := ResumeIndex(step.snapshot, cfg.size, cfg.c, 0);
    forall i: nat | i < next ensures AckedIndex(p.server, i) {
      assert Received(step.snapshot, cfg.size, cfg.c, i);
    }
    AttemptChangeKeeps(cfg, p, step.a, p'.attempts[step.a]);
  }

  lemma SentIsPlanned(cfg: Config, s: Srv.State, t: nat, i: nat, file: Bytes, s': Srv.State)
    requires cfg.c > 0 && PutsPlanned(cfg, s) && file in cfg.picks && i < Total(cfg)
    requires Srv.Next(s, Srv.PutArrive(t, i, Slice(file, cfg.c, i))) == Some(s')
    ensures PutsPlanned(cfg, s') && s'.completes == s.completes
  {
    assert FromPick(cfg, i, Slice(file, cfg.c, i));
  }

  /** A planned put arrives: the server and all its handlers are still in order. */
  lemma ArrivalKeepsServer(cfg: Config, p: State, t: nat, i: nat, file: Bytes, s': Srv.State)
    requires ValidConfig(cfg) && Inv(cfg, p) && file in cfg.picks && i < Total(cfg)
    requires Srv.Next(p.server, Srv.PutArrive(t, i, Slice(file, cfg.c, i))) == Some(s')
    ensures Inv(cfg, p.(server := s', seen := Observe(p.seen, s'))) && Srv.Grows(p.server, s')
    ensures t in s'.puts && s'.puts[t].index == i && s'.completes == p.server.completes
  {
    var s, arrive := p.server, Srv.PutArrive(t, i, Slice(file, cfg.c, i));
    Srv.StepKeepsInv(s, arrive, s');
    Srv.StepGrows(s, arrive, s');
    SentIsPlanned(cfg, s, t, i, file, s');
    forall u | u in s'.completes ensures CompleteOk(cfg, s', s'.completes[u]) {
      CompleteStaysOk(cfg, s, s', s.completes[u]);
    }
    ServerMoves(cfg, p, s');
  }

  lemma SendKeeps(cfg: Config, p: State, step: Step, p': State)
    requires ValidConfig(cfg) && Inv(cfg, p) && step.Send? && Next(cfg, p, step) == Some(p')
    ensures Inv(cfg, p')
  {
    var s' := p'.server;
    var x := p.attempts[step.a];
    assert AttemptOk(cfg, p.server, x);
    ArrivalKeepsServer(cfg, p, step.t, x.next, x.file, s');
    AttemptStaysOk(cfg, p.server, s', x);
    AttemptChangeKeeps(cfg, p.(server := s', seen := Observe(p.seen, s')), step.a, x.(pc := Sending(step.t)));
  }

  lemma FinishKeeps(cfg: Config, p: State, step: Step, p': State)
    requires ValidConfig(cfg) && Inv(cfg, p) && step.Finish? && Next(cfg, p, step) == Some(p')
    ensures Inv(cfg, p')
  {
    var s, s' := p.server, p'.server;
    var x := p.attempts[step.a];
    var arrive := Srv.CompleteArrive(step.t);
    assert AttemptOk(cfg, s, x);
    Srv.StepKeepsInv(s, arrive, s');
    Srv.StepGrows(s, arrive, s');
    AllAckedStays(s, s', Total(cfg));
    forall t | t in s'.completes ensures CompleteOk(cfg, s', s'.completes[t]) {
      if t != step.t {
        CompleteStaysOk(cfg, s, s', s.completes[t]);
      }
    }
    ServerMoves(cfg, p, s');
    AttemptStaysOk(cfg, s, s', x);
    AttemptChangeKeeps(cfg, p.(server := s', seen := Observe(p.seen, s')), step.a, x.(pc := Finishing(step.t)));
  }

  lemma AcknowledgeKeeps(cfg: Config, p: State, a: nat, p': State)
    requires ValidConfig(cfg) && Inv(cfg, p) && Next(cfg, p, Acknowledge(a)) == Some(p')
    ensures Inv(cfg, p')
  {
    var x := p.attempts[a];
    assert AttemptOk(cfg, p.server, x);
    assert AckedIndex(p.server, x.next);
    SliceLength(x.file, cfg.c, x.next);
    AdvanceProgress(cfg.size, cfg.c, x.next);
    AttemptChangeKeeps(cfg, p, a, p'.attempts[a]);
  }

  lemma ConcludeKeeps(cfg: Config, p: State, a: nat, p': State)
    requires ValidConfig(cfg) && Inv(cfg, p) && Next(cfg, p, Conclude(a)) == Some(p')
    ensures Inv(cfg, p')
  {
    var x := p.attempts[a];
    assert AttemptOk(cfg, p.server, x);
    assert CompleteOk(cfg, p.server, p.server.completes[x.pc.t]);
    var pieces := p.server.completes[x.pc.t].pieces;
    assert PiecesPlanned(cfg, pieces);
    assert FromPicks(cfg, Concat(pieces));
    AttemptChangeKeeps(cfg, p, a, x.(pc := Stored(Concat(pieces))));
  }

  lemma StepKeepsInv(cfg: Config, p: State, step: Step, p': State)
    requires ValidConfig(cfg) && Inv(cfg, p) && Next(cfg, p, step) == Some(p')
    ensures Inv(cfg, p')
  {
    match step
    case Server(st) => ServerStepKeeps(cfg, p, st, p'.server);
    case Start(_, _, _) => StartKeeps(cfg, p, step, p');
    case Send(_, _) => SendKeeps(cfg, p, step, p');
    case Acknowledge(a) => AcknowledgeKeeps(cfg, p, a, p');
    case Finish(_, _) => FinishKeeps(cfg, p, step, p');
    case Conclude(a) => ConcludeKeeps(cfg, p, a, p');
    case Stop(a) =>
      assert AttemptOk(cfg, p.server, p.attempts[a]);
      AttemptChangeKeeps(cfg, p, a, p'.attempts[a]);
  }

  lemma {:induction false} RunKeepsInv(cfg: Config, steps: seq<Step>)
    requires ValidConfig(cfg) && Exec(cfg, INIT, steps).Some?
    ensures Inv(cfg, Exec(cfg, INIT, steps).value)
  {
    if steps == [] {
      Runs.InitInv();
    } else {
      var n := |steps| - 1;
      RunKeepsInv(cfg, steps[..n]);
      StepKeepsInv(cfg, Exec(cfg, INIT, steps[..n]).value, steps[n], Exec(cfg, INIT, steps).value);
    }
  }

  // ---------- what every run guarantees ----------

  /** However attempts are cut, resumed from stale snapshots and overlapped, no completion an
      attempt asks for is ever refused for a missing chunk. */
  lemma NeverMissingChunk(cfg: Config, steps: seq<Step>, t: nat)
    requires ValidConfig(cfg) && Exec(cfg, INIT, steps).Some?
    requires t in Exec(cfg, INIT, steps).value.server.completes
    ensures !Exec(cfg, INIT, steps).value.server.completes[t].Refused?
  {
    RunKeepsInv(cfg, steps);
    var s := Exec(cfg, INIT, steps).value.server;
    assert CompleteOk(cfg, s, s.completes[t]);
  }

  /** The progress counter is exact: never beyond the file, and the whole file once all chunks are out. */
  lemma ProgressExact(cfg: Config, steps: seq<Step>, a: nat)
    requires ValidConfig(cfg) && Exec(cfg, INIT, steps).Some?
    requires a in Exec(cfg, INIT, steps).value.attempts
    ensures var x := Exec(cfg, INIT, steps).value.attempts[a];
            && x.uploaded <= cfg.size
            && (x.next == Total(cfg) ==> x.uploaded == cfg.size)
            && (x.pc.Stored? ==> x.uploaded == cfg.size)
  {
    RunKeepsInv(cfg, steps);
    var p := Exec(cfg, INIT, steps).value;
    assert AttemptOk(cfg, p.server, p.attempts[a]);
    TotalChunksBounds(cfg.size, cfg.c);
  }

  /** What a successful upload stores is made, chunk by chunk, of the files the user picked. */
  lemma StoredFromPicks(cfg: Config, steps: seq<Step>, a: nat)
    requires ValidConfig(cfg) && Exec(cfg, INIT, steps).Some?
    requires a in Exec(cfg, INIT, steps).value.attempts && Exec(cfg, INIT, steps).value.attempts[a].pc.Stored?
    ensures FromPicks(cfg, Exec(cfg, INIT, steps).value.attempts[a].pc.data)
  {
    RunKeepsInv(cfg, steps);
    var p := Exec(cfg, INIT, steps).value;
    assert AttemptOk(cfg, p.server, p.attempts[a]);
  }

  lemma OnePickPieces(cfg: Config, file: Bytes, data: Bytes)
    requires cfg.c > 0 && cfg.picks == {file} && |file| == cfg.size && FromPicks(cfg, data)
    ensures data == file
  {
    var pieces: seq<Bytes> :| |pieces| == Total(cfg) && PiecesPlanned(cfg, pieces) && data == Concat(pieces);
    forall i | 0 <= i < |pieces| ensures pieces[i] == Slice(file, cfg.c, i) {
      assert FromPick(cfg, i, pieces[i]);
    }
    assert pieces == Slices(file, cfg.c, Total(cfg));
    SlicesCoverFile(file, cfg.c);
  }

  /** When every attempt picks the same content, every successful upload stores exactly the file. */
  lemma StoresExactlyTheFile(cfg: Config, file: Bytes, steps: seq<Step>, a: nat)
    requires ValidConfig(cfg) && cfg.picks == {file} && Exec(cfg, INIT, steps).Some?
    requires a in Exec(cfg, INIT, steps).value.attempts && Exec(cfg, INIT, steps).value.attempts[a].pc.Stored?
    ensures Exec(cfg, INIT, steps).value.attempts[a].pc.data == file
  {
    StoredFromPicks(cfg, steps, a);
    OnePickPieces(cfg, file, Exec(cfg, INIT, steps).value.attempts[a].pc.data);
  }
}
