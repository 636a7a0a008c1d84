/** One upload session on the server, with every request handler interleaved file operation by file operation. */
module UploadServer {
  import opened Common

  /** The `chunks` object of session.json: chunk index to recorded size. */
  type Record = map<nat, nat>

  /** The session directory: session.json, chunks/<index>, and chunks/.chunk-* (one temp per handler). */
  datatype Disk = Gone | Dir(record: Option<Record>, chunks: map<nat, Bytes>, temps: map<nat, Bytes>)

  /** Where a `PutChunk` handler stands. */
  datatype PutPc =
    | Entered
    | Admitted              // the first, unlocked read of the session succeeded
    | Receiving(got: nat)   // the temp file holds the first `got` bytes of the body
    | Placed                // renamed to chunks/<index>, mutex not yet held
    | Locked(read: Record)  // mutex held, session read again
    | Acked                 // session written, mutex released, 200 sent
    | Failed

  datatype Put = Put(index: nat, body: Bytes, pc: PutPc)

  /** Where a `CompleteUpload` handler stands. */
  datatype CompletePc =
    | Asked
    | Refused                               // no chunks, or a missing chunk
    | Copying(n: nat, pieces: seq<Bytes>)   // assembling chunks 0..n-1
    | Imported(pieces: seq<Bytes>)          // the package is in the store
    | NotImported

  /** `lastPlaced` and `lastRecorded` name, per index, the handler that renamed or recorded last. */
  datatype State = State(disk: Disk,
                         mu: Option<nat>,
                         puts: map<nat, Put>,
                         completes: map<nat, CompletePc>,
                         removers: set<nat>,
                         removalStarted: bool,
                         lastPlaced: map<nat, nat>,
                         lastRecorded: map<nat, nat>)

  const INIT := State(Dir(Some(map[]), map[], map[]), None, map[], map[], {}, false, map[], map[])

  datatype Step =
    | PutArrive(t: nat, index: nat, body: Bytes)
    | PutAdmit(t: nat)
    | PutCreateTemp(t: nat)
    | PutReceive(t: nat, n: nat)
    | PutRename(t: nat)
    | PutLock(t: nat)
    | PutWrite(t: nat)
    | PutFail(t: nat, keepTemp: bool)
    | CompleteArrive(t: nat)
    | CompleteRead(t: nat)
    | CompleteCopy(t: nat)
    | CompleteImport(t: nat)
    | CompleteFail(t: nat)
    | RemoveBegin(t: nat)
    | UnlinkRecord(t: nat)
    | UnlinkChunk(t: nat, index: nat)
    | UnlinkTemp(t: nat, owner: nat)
    | Rmdir(t: nat)
    | RemoveEnd(t: nat)
    | Restart

  predicate HasRecord(s: State) { s.disk.Dir? && s.disk.record.Some? }

  /** The loop over the sorted indexes passes: there are chunks, numbered from 0 without a gap. */
  predicate Contiguous(keys: set<nat>) {
    keys != {} && forall i: nat | i < |keys| :: i in keys
  }

  predicate Terminal(pc: PutPc) { pc.Acked? || pc.Failed? }

  function WithPc(s: State, t: nat, pc: PutPc): State
    requires t in s.puts
  {
    s.(puts := s.puts[t := s.puts[t].(pc := pc)])
  }

  function CompleteReadPc(record: Record): CompletePc {
    if Contiguous(record.Keys) then Copying(|record.Keys|, []) else Refused
  }

  /** An error return of `PutChunk`: a deferred unlock if the mutex is held, the temp perhaps removed. */
  function FailPut(s: State, t: nat, keepTemp: bool): State
    requires t in s.puts
  {
    var s' := WithPc(s, t, Failed);
    var disk := if s.disk.Dir? && !keepTemp then s.disk.(temps := s.disk.temps - {t}) else s.disk;
    s'.(disk := disk, mu := if s.mu == Some(t) then None else s.mu)
  }

  function KillPut(p: Put): Put { if Terminal(p.pc) then p else p.(pc := Failed) }

  function KillComplete(pc: CompletePc): CompletePc {
    if pc.Asked? || pc.Copying? then NotImported else pc
  }

  /** The process dies and comes back: the disk stays, every running handler is gone. */
  function Restarted(s: State): State {
    s.(mu := None,
       puts := map t | t in s.puts :: KillPut(s.puts[t]),
       completes := map t | t in s.completes :: KillComplete(s.completes[t]),
       removers := {})
  }

  predicate PutIn(s: State, t: nat, pc: PutPc) { t in s.puts && s.puts[t].pc == pc }

  /** The effect of one step, or None when the step cannot happen in this state. */
  function Next(s: State, step: Step): Option<State> {
    match step
    case PutArrive(t, index, body) =>
      if t in s.puts then None else Some(s.(puts := s.puts[t := Put(index, body, Entered)]))
    case PutAdmit(t) =>
      if PutIn(s, t, Entered) && HasRecord(s) then Some(WithPc(s, t, Admitted)) else None
    case PutCreateTemp(t) =>
      if PutIn(s, t, Admitted) && s.disk.Dir?
      then Some(WithPc(s, t, Receiving(0)).(disk := s.disk.(temps := s.disk.temps[t := []])))
      else None
    case PutReceive(t, n) =>
      if t in s.puts && s.puts[t].pc.Receiving? && s.puts[t].pc.got + n <= |s.puts[t].body| then
        var got := s.puts[t].pc.got + n;
        var disk := if s.disk.Dir? && t in s.disk.temps
                    then s.disk.(temps := s.disk.temps[t := s.puts[t].body[..got]]) else s.disk;
        Some(WithPc(s, t, Receiving(got)).(disk := disk))
      else None
    case PutRename(t) =>
      if t in s.puts && s.puts[t].pc == Receiving(|s.puts[t].body|) && s.disk.Dir? && t in s.disk.temps then
        var i := s.puts[t].index;
        Some(WithPc(s, t, Placed).(disk := s.disk.(chunks := s.disk.chunks[i := s.disk.temps[t]],
                                                   temps := s.disk.temps - {t}),
                                   lastPlaced := s.lastPlaced[i := t]))
      else None
    case PutLock(t) =>
      if PutIn(s, t, Placed) && s.mu.None? && HasRecord(s)
      then Some(WithPc(s, t, Locked(s.disk.record.value)).(mu := Some(t)))
      else None
    case PutWrite(t) =>
      if t in s.puts && s.puts[t].pc.Locked? && s.disk.Dir? then
        var i := s.puts[t].index;
        var record := s.puts[t].pc.read[i := |s.puts[t].body|];
        Some(WithPc(s, t, Acked).(disk := s.disk.(record := Some(record)), mu := None,
                                  lastRecorded := s.lastRecorded[i := t]))
      else None
    case PutFail(t, keepTemp) =>
      if t in s.puts && !Terminal(s.puts[t].pc) then Some(FailPut(s, t, keepTemp)) else None
    case CompleteArrive(t) =>
      if t in s.completes then None else Some(s.(completes := s.completes[t := Asked]))
    case CompleteRead(t) =>
      if t in s.completes && s.completes[t].Asked? && HasRecord(s)
      then Some(s.(completes := s.completes[t := CompleteReadPc(s.disk.record.value)]))
      else None
    case CompleteCopy(t) =>
      if t in s.completes && s.completes[t].Copying? && |s.completes[t].pieces| < s.completes[t].n
         && s.disk.Dir? && |s.completes[t].pieces| in s.disk.chunks then
        var c := s.completes[t];
        Some(s.(completes := s.completes[t := Copying(c.n, c.pieces + [s.disk.chunks[|c.pieces|]])]))
      else None
    case CompleteImport(t) =>
      if t in s.completes && s.completes[t].Copying? && |s.completes[t].pieces| == s.completes[t].n
      then Some(s.(completes := s.completes[t := Imported(s.completes[t].pieces)],
                   removers := s.removers + {t}, removalStarted := true))
      else None
    case CompleteFail(t) =>
      if t in s.completes && (s.completes[t].Asked? || s.completes[t].Copying?)
      then Some(s.(completes := s.completes[t := NotImported]))
      else None
    case RemoveBegin(t) =>
      if t !in s.removers && HasRecord(s)
      then Some(s.(removers := s.removers + {t}, removalStarted := true))
      else None
    case UnlinkRecord(t) =>
      if t in s.removers && s.disk.Dir? then Some(s.(disk := s.disk.(record := None))) else None
    case UnlinkChunk(t, i) =>
      if t in s.removers && s.disk.Dir?
      then Some(s.(disk := s.disk.(chunks := s.disk.chunks - {i}))) else None
    case UnlinkTemp(t, owner) =>
      if t in s.removers && s.disk.Dir?
      then Some(s.(disk := s.disk.(temps := s.disk.temps - {owner}))) else None
    case Rmdir(t) =>
      if t in s.removers && s.disk == Dir(None, map[], map[])
      then Some(s.(disk := Gone, removers := s.removers - {t})) else None
    case RemoveEnd(t) =>
      if t in s.removers && s.disk != Dir(None, map[], map[])
      then Some(s.(removers := s.removers - {t})) else None
    case Restart => Some(Restarted(s))
  }

  /** The state after a sequence of steps, when every one of them was possible. */
  function Exec(s: State, steps: seq<Step>): Option<State> {
    if steps == [] then Some(s) else
      match Exec(s, steps[..|steps| - 1])
      case None => None
      case Some(m) => Next(m, steps[|steps| - 1])
  }

  // ---------- invariants ----------

  /** The mutex is held by exactly the one handler between its locked read and write. */
  ghost predicate MutexInv(s: State) {
    && (s.mu.Some? ==> s.mu.value in s.puts && s.puts[s.mu.value].pc.Locked?)
    && (forall t | t in s.puts && s.puts[t].pc.Locked? :: s.mu == Some(t))
  }

  ghost predicate TempInv(s: State) {
    && (forall t | t in s.puts && s.puts[t].pc.Receiving? :: s.puts[t].pc.got <= |s.puts[t].body|)
    && (s.disk.Dir? ==> forall t | t in s.puts && s.puts[t].pc.Receiving? && t in s.disk.temps ::
          s.disk.temps[t] == s.puts[t].body[..s.puts[t].pc.got])
  }

  /** Every chunk file is the whole body of the put that renamed last at that index. */
  ghost predicate ChunkInv(s: State) {
    s.disk.Dir? ==> forall i | i in s.disk.chunks ::
      && i in s.lastPlaced && s.lastPlaced[i] in s.puts
      && s.puts[s.lastPlaced[i]].index == i
      && s.disk.chunks[i] == s.puts[s.lastPlaced[i]].body
  }

  /** Each entry of a record was written by an acknowledged put; no acknowledged index is left out. */
  ghost predicate RecordOk(s: State, r: Record) {
    && (forall i | i in r ::
          && i in s.lastRecorded && s.lastRecorded[i] in s.puts
          && s.puts[s.lastRecorded[i]].index == i && s.puts[s.lastRecorded[i]].pc.Acked?
          && r[i] == |s.puts[s.lastRecorded[i]].body|)
    && (forall t | t in s.puts && s.puts[t].pc.Acked? :: s.puts[t].index in r)
  }

  ghost predicate RecordInv(s: State) {
    && (HasRecord(s) ==> RecordOk(s, s.disk.record.value))
    && (forall t | t in s.puts && s.puts[t].pc.Locked? :: RecordOk(s, s.puts[t].pc.read))
  }

  predicate HasPlaced(pc: PutPc) { pc.Placed? || pc.Locked? || pc.Acked? }

  /** Until a removal starts, the session is there and every placed or recorded index has its file. */
  ghost predicate IntactInv(s: State) {
    && (s.removers != {} ==> s.removalStarted)
    && (!s.removalStarted ==>
          && HasRecord(s)
          && s.disk.record.value.Keys <= s.disk.chunks.Keys
          && (forall t | t in s.puts && HasPlaced(s.puts[t].pc) :: s.puts[t].index in s.disk.chunks)
          && (forall t | t in s.puts && s.puts[t].pc.Locked? :: s.puts[t].pc.read == s.disk.record.value))
  }

  /** b is the body of some put at index i. */
  ghost predicate SentAs(s: State, i: nat, b: Bytes) {
    exists t :: t in s.puts && s.puts[t].index == i && s.puts[t].body == b
  }

  ghost predicate PiecesSent(s: State, pieces: seq<Bytes>) {
    forall i | 0 <= i < |pieces| :: SentAs(s, i, pieces[i])
  }

  ghost predicate CompletePcOk(s: State, pc: CompletePc) {
    match pc
    case Copying(n, pieces) => 0 < n && |pieces| <= n && PiecesSent(s, pieces)
    case Imported(pieces) => 0 < |pieces| && PiecesSent(s, pieces)
    case _ => true
  }

  ghost predicate CompleteInv(s: State) {
    forall t | t in s.completes :: CompletePcOk(s, s.completes[t])
  }

  ghost predicate Inv(s: State) {
    MutexInv(s) && TempInv(s) && ChunkInv(s) && RecordInv(s) && IntactInv(s) && CompleteInv(s)
  }

  /** No handler ever loses its request or leaves a final state. */
  ghost predicate Grows(s: State, s': State) {
    && (forall t | t in s.puts :: t in s'.puts
          && s'.puts[t].index == s.puts[t].index && s'.puts[t].body == s.puts[t].body
          && (Terminal(s.puts[t].pc) ==> s'.puts[t].pc == s.puts[t].pc))
    && (s.disk.Gone? ==> s'.disk.Gone?)
    && (s.removalStarted ==> s'.removalStarted)
  }

  /** Up to the rename, a put only changes its own temp file. */
  predicate IsReceiveStep(step: Step) {
    step.PutArrive? || step.PutAdmit? || step.PutCreateTemp? || step.PutReceive?
  }

  predicate IsPublishStep(step: Step) {
    step.PutRename? || step.PutLock? || step.PutWrite? || step.PutFail?
  }

  predicate IsPutStep(step: Step) { IsReceiveStep(step) || IsPublishStep(step) }

  lemma PutStepGrows(s: State, step: Step, s': State)
    requires Next(s, step) == Some(s') && IsPutStep(step)
    ensures Grows(s, s')
  {
  }

  lemma StepGrows(s: State, step: Step, s': State)
    requires Next(s, step) == Some(s')
    ensures Grows(s, s')
  {
    if IsPutStep(step) {
      PutStepGrows(s, step, s');
    }
  }

  lemma ReceiveStepKeepsTemps(s: State, step: Step, s': State)
    requires Inv(s) && Next(s, step) == Some(s') && IsReceiveStep(step)
    ensures TempInv(s')
  {
  }

  /** A put that is still receiving has no part in what is placed, locked or recorded. */
  lemma ReceiveStepChanges(s: State, step: Step, s': State)
    requires Next(s, step) == Some(s') && IsReceiveStep(step)
    ensures s'.mu == s.mu && s'.lastPlaced == s.lastPlaced && s'.lastRecorded == s.lastRecorded
    ensures s'.removers == s.removers && s'.removalStarted == s.removalStarted
    ensures s'.disk.Dir? <==> s.disk.Dir?
    ensures s.disk.Dir? ==> s'.disk.record == s.disk.record && s'.disk.chunks == s.disk.chunks
    ensures forall t | t in s.puts ::
      t in s'.puts && s'.puts[t].index == s.puts[t].index && s'.puts[t].body == s.puts[t].body
    ensures forall t | t in s'.puts && HasPlaced(s'.puts[t].pc) :: t in s.puts && s.puts[t] == s'.puts[t]
    ensures forall t | t in s.puts && HasPlaced(s.puts[t].pc) :: s'.puts[t] == s.puts[t]
  {
  }

  lemma ReceiveStepKeepsRecord(s: State, step: Step, s': State)
    requires Inv(s) && Next(s, step) == Some(s') && IsReceiveStep(step)
    ensures RecordInv(s')
  {
    ReceiveStepChanges(s, step, s');
    forall r | RecordOk(s, r) ensures RecordOk(s', r) {
    }
  }

  lemma ReceiveStepKeeps(s: State, step: Step, s': State)
    requires Inv(s) && Next(s, step) == Some(s') && IsReceiveStep(step)
    ensures MutexInv(s') && ChunkInv(s') && IntactInv(s')
  {
    ReceiveStepChanges(s, step, s');
  }

  lemma PublishStepKeepsMutex(s: State, step: Step, s': State)
    requires Inv(s) && Next(s, step) == Some(s') && IsPublishStep(step)
    ensures MutexInv(s')
  {
  }

  /** From the rename on, no temp file of a receiving put is touched. */
  lemma PublishStepChanges(s: State, step: Step, s': State)
    requires Next(s, step) == Some(s') && IsPublishStep(step)
    ensures s'.disk.Dir? <==> s.disk.Dir?
    ensures s.disk.Dir? ==> s'.disk.temps == s.disk.temps || s'.disk.temps == s.disk.temps - {step.t}
    ensures forall t | t in s'.puts && s'.puts[t].pc.Receiving? :: t in s.puts && s.puts[t] == s'.puts[t]
  {
  }

  lemma PublishStepKeepsTemps(s: State, step: Step, s': State)
    requires Inv(s) && Next(s, step) == Some(s') && IsPublishStep(step)
    ensures TempInv(s')
  {
    PublishStepChanges(s, step, s');
  }

  lemma PublishStepKeepsChunks(s: State, step: Step, s': State)
    requires Inv(s) && Next(s, step) == Some(s') && IsPublishStep(step)
    ensures ChunkInv(s')
  {
  }

  /** The locked write loses nobody: the record read under the lock still has every acknowledged index. */
  lemma WriteKeepsRecord(s: State, t: nat, s': State)
    requires Inv(s) && Next(s, PutWrite(t)) == Some(s')
    ensures RecordInv(s')
  {
    var record := s'.disk.record.value;
    assert RecordOk(s, s.puts[t].pc.read);
    assert forall u | u in s.puts && u != t :: !s.puts[u].pc.Locked?;
    assert RecordOk(s', record);
  }

  lemma PublishStepKeepsRecord(s: State, step: Step, s': State)
    requires Inv(s) && Next(s, step) == Some(s') && IsPublishStep(step)
    ensures RecordInv(s')
  {
    if step.PutWrite? {
      WriteKeepsRecord(s, step.t, s');
    } else {
      forall r | RecordOk(s, r) ensures RecordOk(s', r) {
      }
    }
  }

  lemma PublishStepKeepsIntact(s: State, step: Step, s': State)
    requires Inv(s) && Next(s, step) == Some(s') && IsPublishStep(step)
    ensures IntactInv(s')
  {
  }

  lemma SentStaysSent(s: State, s': State, pieces: seq<Bytes>)
    requires Grows(s, s') && PiecesSent(s, pieces)
    ensures PiecesSent(s', pieces)
  {
    forall i | 0 <= i < |pieces| ensures SentAs(s', i, pieces[i]) {
      assert SentAs(s, i, pieces[i]);
      var t :| t in s.puts && s.puts[t].index == i && s.puts[t].body == pieces[i];
      assert t in s'.puts;
    }
  }

  lemma CopiedChunkSent(s: State, t: nat, s': State)
    requires ChunkInv(s) && CompleteInv(s) && Next(s, CompleteCopy(t)) == Some(s')
    ensures CompletePcOk(s, s'.completes[t])
  {
    assert CompletePcOk(s, s.completes[t]);
    var i := |s.completes[t].pieces|;
    var u := s.lastPlaced[i];
    assert u in s.puts && s.puts[u].index == i && s.puts[u].body == s.disk.chunks[i];
    assert SentAs(s, i, s.disk.chunks[i]);
  }

  /** Which complete handlers a step touches. */
  lemma CompleteChange(s: State, step: Step, s': State, t: nat)
    requires Next(s, step) == Some(s') && t in s'.completes
    ensures t in s.completes || step == CompleteArrive(t)
    ensures t in s.completes ==>
      || s'.completes[t] == s.completes[t] || s'.completes[t].NotImported?
      || step == CompleteRead(t) || step == CompleteCopy(t) || step == CompleteImport(t)
  {
  }

  lemma StepKeepsCompletes(s: State, step: Step, s': State)
    requires Inv(s) && Next(s, step) == Some(s')
    ensures CompleteInv(s')
  {
    StepGrows(s, step, s');
    forall t | t in s'.completes ensures CompletePcOk(s', s'.completes[t]) {
      CompleteChange(s, step, s', t);
      if t in s.completes {
        assert CompletePcOk(s, s.completes[t]);
        if step == CompleteCopy(t) {
          CopiedChunkSent(s, t, s');
          SentStaysSent(s, s', s'.completes[t].pieces);
        } else if s.completes[t].Copying? || s.completes[t].Imported? {
          SentStaysSent(s, s', s.completes[t].pieces);
        }
      }
    }
  }

  lemma OtherStepKeepsPuts(s: State, step: Step, s': State)
    requires Inv(s) && Next(s, step) == Some(s') && !IsPutStep(step) && step != Restart
    ensures s'.puts == s.puts && s'.mu == s.mu
    ensures s'.lastPlaced == s.lastPlaced && s'.lastRecorded == s.lastRecorded
    ensures var d, d' := s.disk, s'.disk;
            d' == d || (d'.Gone? && step.Rmdir?)
            || (d.Dir? && d'.Dir? && s'.removalStarted && (d'.record == d.record || d'.record.None?)
                && d'.chunks.Keys <= d.chunks.Keys && (forall i | i in d'.chunks :: d'.chunks[i] == d.chunks[i])
                && d'.temps.Keys <= d.temps.Keys && (forall i | i in d'.temps :: d'.temps[i] == d.temps[i]))
  {
  }

  lemma OtherStepKeeps(s: State, step: Step, s': State)
    requires Inv(s) && Next(s, step) == Some(s') && !IsPutStep(step) && step != Restart
    ensures MutexInv(s') && TempInv(s') && ChunkInv(s') && RecordInv(s') && IntactInv(s')
  {
    OtherStepKeepsPuts(s, step, s');
    forall r | RecordOk(s, r) ensures RecordOk(s', r) {
    }
  }

  lemma RestartChanges(s: State, s': State)
    requires s' == Restarted(s)
    ensures s'.disk == s.disk && s'.mu.None? && s'.puts.Keys == s.puts.Keys
    ensures s'.lastPlaced == s.lastPlaced && s'.lastRecorded == s.lastRecorded
    ensures s'.removers == {} && s'.removalStarted == s.removalStarted
    ensures forall t | t in s.puts ::
      s'.puts[t].index == s.puts[t].index && s'.puts[t].body == s.puts[t].body && Terminal(s'.puts[t].pc)
      && (s'.puts[t].pc.Acked? <==> s.puts[t].pc.Acked?)
  {
  }

  lemma RestartKeepsRecord(s: State, s': State)
    requires Inv(s) && s' == Restarted(s)
    ensures RecordInv(s')
  {
    RestartChanges(s, s');
    if HasRecord(s) {
      assert RecordOk(s', s.disk.record.value);
    }
  }

  lemma RestartKeepsIntact(s: State, s': State)
    requires Inv(s) && s' == Restarted(s)
    ensures MutexInv(s') && TempInv(s') && ChunkInv(s') && IntactInv(s')
  {
    RestartChanges(s, s');
  }

  lemma RestartKeeps(s: State)
    requires Inv(s)
    ensures Inv(Restarted(s))
  {
    RestartKeepsRecord(s, Restarted(s));
    RestartKeepsIntact(s, Restarted(s));
    StepKeepsCompletes(s, Restart, Restarted(s));
  }

  lemma StepKeepsInv(s: State, step: Step, s': State)
    requires Inv(s) && Next(s, step) == Some(s')
    ensures Inv(s')
  {
    if IsReceiveStep(step) {
      ReceiveStepKeepsTemps(s, step, s');
      ReceiveStepKeeps(s, step, s');
      ReceiveStepKeepsRecord(s, step, s');
      StepKeepsCompletes(s, step, s');
    } else if IsPublishStep(step) {
      PublishStepKeepsMutex(s, step, s');
      PublishStepKeepsTemps(s, step, s');
      PublishStepKeepsChunks(s, step, s');
      PublishStepKeepsRecord(s, step, s');
      PublishStepKeepsIntact(s, step, s');
      StepKeepsCompletes(s, step, s');
    } else if step == Restart {
      RestartKeeps(s);
    } else {
      OtherStepKeeps(s, step, s');
      StepKeepsCompletes(s, step, s');
    }
  }
}
