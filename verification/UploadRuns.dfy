/** What every interleaving of upload handlers guarantees, and the two races that limit it. */
module UploadRuns {
  import opened Common
  import opened UploadServer

  lemma {:induction false} RunKeepsInv(s: State, steps: seq<Step>)
    requires Inv(s) && Exec(s, steps).Some?
    ensures Inv(Exec(s, steps).value)
    ensures Grows(s, Exec(s, steps).value)
  {
    if steps != [] {
      var n := |steps| - 1;
      RunKeepsInv(s, steps[..n]);
      var m, s' := Exec(s, steps[..n]).value, Exec(s, steps).value;
      StepKeepsInv(m, steps[n], s');
      StepGrows(m, steps[n], s');
    }
  }

  lemma {:induction false} ExecAppend(s: State, a: seq<Step>, b: seq<Step>)
    requires Exec(s, a).Some?
    ensures Exec(s, a + b) == Exec(Exec(s, a).value, b)
  {
    if b == [] {
      assert a + b == a;
    } else {
      var n := |b| - 1;
      ExecAppend(s, a, b[..n]);
      assert (a + b)[..|a + b| - 1] == a + b[..n];
    }
  }

  lemma ExecNext(s: State, steps: seq<Step>, m: State, step: Step)
    requires Exec(s, steps) == Some(m)
    ensures Exec(s, steps + [step]) == Next(m, step)
  {
    assert (steps + [step])[..|steps|] == steps;
  }

  lemma InitInv()
    ensures Inv(INIT)
  {
  }

  /** Once a put is acknowledged its index is in session.json for as long as that file exists,
      whatever puts, completes, removals and restarts follow. */
  lemma AcknowledgedStaysRecorded(steps: seq<Step>, more: seq<Step>, t: nat)
    requires Exec(INIT, steps).Some? && Exec(Exec(INIT, steps).value, more).Some?
    requires t in Exec(INIT, steps).value.puts && Exec(INIT, steps).value.puts[t].pc.Acked?
    ensures var s, s' := Exec(INIT, steps).value, Exec(Exec(INIT, steps).value, more).value;
            HasRecord(s') ==> s.puts[t].index in s'.disk.record.value
  {
    InitInv();
    RunKeepsInv(INIT, steps);
    RunKeepsInv(Exec(INIT, steps).value, more);
  }

  /** No chunk file is ever partial: each is the whole body of a put at that index. */
  lemma ChunkFilesAreWhole(steps: seq<Step>, i: nat)
    requires Exec(INIT, steps).Some?
    requires var s := Exec(INIT, steps).value; s.disk.Dir? && i in s.disk.chunks
    ensures var s := Exec(INIT, steps).value; SentAs(s, i, s.disk.chunks[i])
  {
    InitInv();
    RunKeepsInv(INIT, steps);
  }

  /** Until somebody starts removing the session it is readable, and every recorded index has its file. */
  lemma RecordedChunksExist(steps: seq<Step>)
    requires Exec(INIT, steps).Some? && !Exec(INIT, steps).value.removalStarted
    ensures var s := Exec(INIT, steps).value;
            HasRecord(s) && forall i :: i in s.disk.record.value ==> i in s.disk.chunks
  {
    InitInv();
    RunKeepsInv(INIT, steps);
  }

  /** A session whose directory was removed never comes back. */
  lemma RemovedStaysRemoved(steps: seq<Step>, more: seq<Step>)
    requires Exec(INIT, steps).Some? && Exec(Exec(INIT, steps).value, more).Some?
    requires Exec(INIT, steps).value.disk.Gone?
    ensures Exec(Exec(INIT, steps).value, more).value.disk.Gone?
  {
    InitInv();
    RunKeepsInv(INIT, steps);
    RunKeepsInv(Exec(INIT, steps).value, more);
  }

  /** The recorded size is the size of the file exactly when the put that recorded last
      sent as many bytes as the put that renamed last. */
  lemma RecordedSizeExact(steps: seq<Step>, i: nat)
    requires Exec(INIT, steps).Some?
    requires var s := Exec(INIT, steps).value;
             HasRecord(s) && i in s.disk.record.value && i in s.disk.chunks
    ensures var s := Exec(INIT, steps).value;
            && i in s.lastPlaced && s.lastPlaced[i] in s.puts && s.puts[s.lastPlaced[i]].index == i
            && i in s.lastRecorded && s.lastRecorded[i] in s.puts && s.puts[s.lastRecorded[i]].index == i
            && (s.disk.record.value[i] == |s.disk.chunks[i]| <==>
                |s.puts[s.lastRecorded[i]].body| == |s.puts[s.lastPlaced[i]].body|)
  {
    InitInv();
    RunKeepsInv(INIT, steps);
  }

  /** Between its rename and its record a put is in flight at its index. */
  predicate InFlight(pc: PutPc) { pc.Placed? || pc.Locked? }

  predicate Quiet(s: State) { forall t | t in s.puts :: !InFlight(s.puts[t].pc) }

  /** The step does not let two puts of one index overlap, nor kill a put between rename and record. */
  predicate Orderly(s: State, step: Step) {
    match step
    case PutRename(t) =>
      t in s.puts ==> forall u | u in s.puts && s.puts[u].index == s.puts[t].index :: !InFlight(s.puts[u].pc)
    case PutFail(t, _) => t in s.puts ==> !InFlight(s.puts[t].pc)
    case Restart => Quiet(s)
    case _ => true
  }

  predicate OrderlyRun(s: State, steps: seq<Step>) {
    steps == [] ||
    (OrderlyRun(s, steps[..|steps| - 1]) &&
     (Exec(s, steps[..|steps| - 1]).Some? ==> Orderly(Exec(s, steps[..|steps| - 1]).value, steps[|steps| - 1])))
  }

  /** The put that renamed last at an index is still in flight, or it also recorded last. */
  ghost predicate InStepInv(s: State) {
    && (forall i | i in s.lastPlaced ::
          && s.lastPlaced[i] in s.puts && s.puts[s.lastPlaced[i]].index == i
          && (InFlight(s.puts[s.lastPlaced[i]].pc)
              || (s.puts[s.lastPlaced[i]].pc.Acked? && i in s.lastRecorded && s.lastRecorded[i] == s.lastPlaced[i])))
    && (forall t | t in s.puts && InFlight(s.puts[t].pc) ::
          s.puts[t].index in s.lastPlaced && s.lastPlaced[s.puts[t].index] == t)
  }

  lemma OrderlyReceiveStep(s: State, step: Step, s': State)
    requires Next(s, step) == Some(s') && InStepInv(s) && IsReceiveStep(step)
    ensures InStepInv(s')
  {
    ReceiveStepChanges(s, step, s');
  }

  lemma OrderlyRename(s: State, t: nat, s': State)
    requires Next(s, PutRename(t)) == Some(s') && Orderly(s, PutRename(t)) && InStepInv(s)
    ensures InStepInv(s')
  {
  }

  lemma OrderlyWrite(s: State, t: nat, s': State)
    requires Next(s, PutWrite(t)) == Some(s') && InStepInv(s)
    ensures InStepInv(s')
  {
  }

  lemma OrderlyLockOrFail(s: State, step: Step, s': State)
    requires Next(s, step) == Some(s') && Orderly(s, step) && InStepInv(s) && (step.PutLock? || step.PutFail?)
    ensures InStepInv(s')
  {
  }

  lemma OrderlyStep(s: State, step: Step, s': State)
    requires Next(s, step) == Some(s') && Orderly(s, step) && InStepInv(s)
    ensures InStepInv(s')
  {
    if IsReceiveStep(step) {
      OrderlyReceiveStep(s, step, s');
    } else if step.PutRename? {
      OrderlyRename(s, step.t, s');
    } else if step.PutWrite? {
      OrderlyWrite(s, step.t, s');
    } else if IsPublishStep(step) {
      OrderlyLockOrFail(s, step, s');
    }
  }

  lemma {:induction false} OrderlyRunInStep(steps: seq<Step>)
    requires Exec(INIT, steps).Some? && OrderlyRun(INIT, steps)
    ensures InStepInv(Exec(INIT, steps).value)
  {
    if steps != [] {
      var n := |steps| - 1;
      OrderlyRunInStep(steps[..n]);
      OrderlyStep(Exec(INIT, steps[..n]).value, steps[n], Exec(INIT, steps).value);
    }
  }

  ghost function FileSizes(chunks: map<nat, Bytes>): map<nat, nat> {
    map i | i in chunks :: |chunks[i]|
  }

  /** When puts of one index do not overlap, then between puts session.json lists exactly
      the chunk files with their sizes, however often and at whatever size they were re-sent. */
  lemma OrderlyRecordIsInventory(steps: seq<Step>)
    requires Exec(INIT, steps).Some? && OrderlyRun(INIT, steps)
    requires Quiet(Exec(INIT, steps).value) && !Exec(INIT, steps).value.removalStarted
    ensures var s := Exec(INIT, steps).value;
            HasRecord(s) && s.disk.record.value == FileSizes(s.disk.chunks)
  {
    InitInv();
    RunKeepsInv(INIT, steps);
    OrderlyRunInStep(steps);
    var s := Exec(INIT, steps).value;
    var r := s.disk.record.value;
    assert RecordOk(s, r);
    forall i | i in s.disk.chunks ensures i in r && r[i] == |s.disk.chunks[i]| {
      assert i in s.lastPlaced && s.lastPlaced[i] in s.puts;
    }
  }

  ghost function FirstChunks(chunks: map<nat, Bytes>, n: nat): (pieces: seq<Bytes>)
    requires forall i: nat | i < n :: i in chunks
    ensures |pieces| == n
  {
    seq(n, i requires 0 <= i < n => chunks[i])
  }

  lemma LastChunk(chunks: map<nat, Bytes>, m: nat)
    requires forall i: nat :: i in chunks <==> i < m + 1
    ensures Concat(FirstChunks(chunks, m + 1)) == Concat(FirstChunks(chunks - {m}, m)) + chunks[m]
  {
    assert FirstChunks(chunks, m + 1) == FirstChunks(chunks - {m}, m) + [chunks[m]];
    ConcatSnoc(FirstChunks(chunks - {m}, m), chunks[m]);
  }

  lemma LastSize(chunks: map<nat, Bytes>, m: nat)
    requires m in chunks
    ensures MapSum(FileSizes(chunks)) == |chunks[m]| + MapSum(FileSizes(chunks - {m}))
  {
    var sizes := FileSizes(chunks);
    MapSumAnyKey(sizes, m);
    assert sizes - {m} == FileSizes(chunks - {m});
  }

  lemma NoChunks(chunks: map<nat, Bytes>)
    requires forall i: nat :: i !in chunks
    ensures MapSum(FileSizes(chunks)) == 0
  {
    assert FileSizes(chunks) == map[];
  }

  /** The bytes received are the bytes of the assembled file. */
  lemma {:induction false} AssembledLength(chunks: map<nat, Bytes>, n: nat)
    requires forall i: nat :: i in chunks <==> i < n
    ensures |Concat(FirstChunks(chunks, n))| == MapSum(FileSizes(chunks))
  {
    if n == 0 {
      NoChunks(chunks);
    } else {
      var rest := chunks - {n - 1};
      assert forall i: nat :: i in rest <==> i < n - 1;
      AssembledLength(rest, n - 1);
      LastChunk(chunks, n - 1);
      LastSize(chunks, n - 1);
    }
  }

  /** Bytes are conserved: the recorded sizes add up to the length of the assembled package. */
  lemma BytesConserved(steps: seq<Step>)
    requires Exec(INIT, steps).Some? && OrderlyRun(INIT, steps)
    requires Quiet(Exec(INIT, steps).value) && !Exec(INIT, steps).value.removalStarted
    ensures var s := Exec(INIT, steps).value;
            && HasRecord(s)
            && (Contiguous(s.disk.record.value.Keys) ==>
                  var n := |s.disk.record.value.Keys|;
                  && (forall i: nat :: i in s.disk.chunks <==> i < n)
                  && |Concat(FirstChunks(s.disk.chunks, n))| == MapSum(s.disk.record.value))
  {
    OrderlyRecordIsInventory(steps);
    var s := Exec(INIT, steps).value;
    var r := s.disk.record.value;
    if Contiguous(r.Keys) {
      ContiguousIsBelow(r.Keys);
      assert FileSizes(s.disk.chunks).Keys == s.disk.chunks.Keys;
      AssembledLength(s.disk.chunks, |r.Keys|);
    }
  }

  predicate CopiedFrom(chunks: map<nat, Bytes>, pieces: seq<Bytes>) {
    forall i: nat | i < |pieces| :: i in chunks && pieces[i] == chunks[i]
  }

  /** A completion of n chunks is under way that has only copied these files, and any of them still
      on disk is unchanged. */
  ghost predicate Copies(s: State, t: nat, chunks: map<nat, Bytes>, n: nat) {
    && (s.disk.Dir? ==> forall i | i in s.disk.chunks :: i in chunks && s.disk.chunks[i] == chunks[i])
    && t in s.completes && !s.completes[t].Asked?
    && (s.completes[t].Copying? ==> s.completes[t].n == n && CopiedFrom(chunks, s.completes[t].pieces))
    && (s.completes[t].Imported? ==> |s.completes[t].pieces| == n && CopiedFrom(chunks, s.completes[t].pieces))
  }

  lemma CopiesStep(s: State, step: Step, s': State, t: nat, chunks: map<nat, Bytes>, n: nat)
    requires Copies(s, t, chunks, n) && Next(s, step) == Some(s') && !step.PutRename?
    ensures Copies(s', t, chunks, n)
  {
    CompleteChange(s, step, s', t);
  }

  lemma {:induction false} CopiesRun(s: State, steps: seq<Step>, t: nat, chunks: map<nat, Bytes>, n: nat)
    requires Copies(s, t, chunks, n) && Exec(s, steps).Some?
    requires forall k | 0 <= k < |steps| :: !steps[k].PutRename?
    ensures Copies(Exec(s, steps).value, t, chunks, n)
  {
    if steps != [] {
      var m := |steps| - 1;
      CopiesRun(s, steps[..m], t, chunks, n);
      CopiesStep(Exec(s, steps[..m]).value, steps[m], Exec(s, steps).value, t, chunks, n);
    }
  }

  lemma CopiedAll(chunks: map<nat, Bytes>, pieces: seq<Bytes>, n: nat)
    requires CopiedFrom(chunks, pieces) && |pieces| == n && forall i: nat :: i in chunks <==> i < n
    ensures |Concat(pieces)| == MapSum(FileSizes(chunks))
  {
    assert pieces == FirstChunks(chunks, n);
    AssembledLength(chunks, n);
  }

  lemma ReadEffect(s: State, t: nat, m: State)
    requires Next(s, CompleteRead(t)) == Some(m)
    ensures HasRecord(s) && m.disk == s.disk && t in m.completes
    ensures m.completes[t] == CompleteReadPc(s.disk.record.value)
  {
  }

  lemma RefusedStep(s: State, step: Step, s': State, t: nat)
    requires t in s.completes && s.completes[t].Refused? && Next(s, step) == Some(s')
    ensures t in s'.completes && s'.completes[t].Refused?
  {
  }

  lemma {:induction false} RefusedStays(s: State, steps: seq<Step>, t: nat)
    requires t in s.completes && s.completes[t].Refused? && Exec(s, steps).Some?
    ensures t in Exec(s, steps).value.completes && Exec(s, steps).value.completes[t].Refused?
  {
    if steps != [] {
      var n := |steps| - 1;
      RefusedStays(s, steps[..n], t);
      RefusedStep(Exec(s, steps[..n]).value, steps[n], Exec(s, steps).value, t);
    }
  }

  /** From the read on: what is imported is the chunk files there were at that moment. */
  lemma ImportsWhatWasThere(m: State, during: seq<Step>, t: nat, record: Record, s': State)
    requires m.disk.Dir? && record == FileSizes(m.disk.chunks)
    requires t in m.completes && m.completes[t] == CompleteReadPc(record)
    requires Exec(m, during) == Some(s') && forall k | 0 <= k < |during| :: !during[k].PutRename?
    requires t in s'.completes && s'.completes[t].Imported?
    ensures |Concat(s'.completes[t].pieces)| == MapSum(record)
  {
    var n := |record.Keys|;
    if Contiguous(record.Keys) {
      ContiguousIsBelow(record.Keys);
      assert record.Keys == m.disk.chunks.Keys;
      CopiesRun(m, during, t, m.disk.chunks, n);
      CopiedAll(m.disk.chunks, s'.completes[t].pieces, n);
    } else {
      RefusedStays(m, during, t);
    }
  }

  /** Conservation through a completion: it read the record between puts, and until it had copied
      everything no put renamed. Then whatever locks, writes, failures, removals and other completions
      ran in between, what it imports is as long as the record it read adds up to. */
  lemma ImportedIsWhatWasRecorded(before: seq<Step>, t: nat, during: seq<Step>, s: State, m: State, s': State)
    requires Exec(INIT, before) == Some(s) && OrderlyRun(INIT, before) && Quiet(s) && !s.removalStarted
    requires Next(s, CompleteRead(t)) == Some(m)
    requires Exec(m, during) == Some(s') && forall k | 0 <= k < |during| :: !during[k].PutRename?
    requires t in s'.completes && s'.completes[t].Imported?
    ensures HasRecord(s) && |Concat(s'.completes[t].pieces)| == MapSum(s.disk.record.value)
  {
    OrderlyRecordIsInventory(before);
    ReadEffect(s, t, m);
    ImportsWhatWasThere(m, during, t, s.disk.record.value, s');
  }

  function Below(n: nat): (s: set<nat>)
    ensures forall i: nat :: i in s <==> i < n
    ensures |s| == n
  {
    if n == 0 then {} else Below(n - 1) + {n - 1}
  }

  lemma ContiguousIsBelow(keys: set<nat>)
    requires Contiguous(keys)
    ensures keys == Below(|keys|)
  {
    SubsetSameSize(Below(|keys|), keys);
  }

  /** The contiguity loop passes iff the indexes are 0..n-1 for some n > 0. */
  lemma ContiguousKeys(keys: set<nat>, n: nat)
    requires keys == Below(n)
    ensures Contiguous(keys) <==> n > 0
  {
  }

  lemma {:induction false} SubsetSameSize(a: set<nat>, b: set<nat>)
    requires a <= b && |a| == |b|
    ensures a == b
  {
    if a != b {
      var x :| x in b && x !in a;
      SubsetSize(a, b - {x});
    }
  }

  lemma {:induction false} SubsetSize(a: set<nat>, b: set<nat>)
    requires a <= b
    ensures |a| <= |b|
  {
    if a != {} {
      var x :| x in a;
      SubsetSize(a - {x}, b - {x});
    }
  }

  // ---------- one put alone ----------

  function PutSteps(t: nat, i: nat, body: Bytes): seq<Step> {
    [PutArrive(t, i, body), PutAdmit(t), PutCreateTemp(t), PutReceive(t, |body|), PutRename(t), PutLock(t), PutWrite(t)]
  }

  function PutDone(s: State, t: nat, i: nat, body: Bytes): State
    requires HasRecord(s)
  {
    s.(puts := s.puts[t := Put(i, body, Acked)],
       disk := Dir(Some(s.disk.record.value[i := |body|]), s.disk.chunks[i := body], s.disk.temps - {t}),
       lastPlaced := s.lastPlaced[i := t], lastRecorded := s.lastRecorded[i := t])
  }

  function PutAt(s: State, t: nat, i: nat, body: Bytes, pc: PutPc): State {
    s.(puts := s.puts[t := Put(i, body, pc)])
  }

  lemma PutMoves(s: State, t: nat, i: nat, body: Bytes, pc: PutPc, pc': PutPc)
    ensures WithPc(PutAt(s, t, i, body, pc), t, pc') == PutAt(s, t, i, body, pc')
  {
    assert WithPc(PutAt(s, t, i, body, pc), t, pc').puts == PutAt(s, t, i, body, pc').puts;
  }

  lemma ThreeSteps(a: Step, b: Step, c: Step)
    ensures [a, b, c] == [] + [a] + [b] + [c]
  {
  }

  lemma ExecThree(s: State, a: Step, b: Step, c: Step, s1: State, s2: State, s3: State)
    requires Next(s, a) == Some(s1) && Next(s1, b) == Some(s2) && Next(s2, c) == Some(s3)
    ensures Exec(s, [a, b, c]) == Some(s3)
  {
    ThreeSteps(a, b, c);
    ExecNext(s, [], s, a);
    ExecNext(s, [] + [a], s1, b);
    ExecNext(s, [] + [a] + [b], s2, c);
  }

  lemma PutOpened(s: State, t: nat, i: nat, body: Bytes)
    requires HasRecord(s) && t !in s.puts
    ensures Exec(s, [PutArrive(t, i, body), PutAdmit(t), PutCreateTemp(t)])
            == Some(PutAt(s, t, i, body, Receiving(0)).(disk := s.disk.(temps := s.disk.temps[t := []])))
  {
    var s1, s2 := PutAt(s, t, i, body, Entered), PutAt(s, t, i, body, Admitted);
    PutMoves(s, t, i, body, Entered, Admitted);
    PutMoves(s, t, i, body, Admitted, Receiving(0));
    ExecThree(s, PutArrive(t, i, body), PutAdmit(t), PutCreateTemp(t), s1, s2,
              PutAt(s, t, i, body, Receiving(0)).(disk := s.disk.(temps := s.disk.temps[t := []])));
  }

  /** The first half of a put: the body sits complete in the temp file. */
  lemma PutReceived(s: State, t: nat, i: nat, body: Bytes)
    requires HasRecord(s) && t !in s.puts
    ensures Exec(s, PutSteps(t, i, body)[..4])
            == Some(PutAt(s, t, i, body, Receiving(|body|)).(disk := s.disk.(temps := s.disk.temps[t := body])))
  {
    var opening := [PutArrive(t, i, body), PutAdmit(t), PutCreateTemp(t)];
    PutOpened(s, t, i, body);
    var s3 := Exec(s, opening).value;
    var step := PutReceive(t, |body|);
    ExecNext(s, opening, s3, step);
    assert PutSteps(t, i, body)[..4] == opening + [step];
    BodyReceived(s, t, i, body, s3);
  }

  lemma BodyReceived(s: State, t: nat, i: nat, body: Bytes, s3: State)
    requires s.disk.Dir?
    requires s3 == PutAt(s, t, i, body, Receiving(0)).(disk := s.disk.(temps := s.disk.temps[t := []]))
    ensures Next(s3, PutReceive(t, |body|))
            == Some(PutAt(s, t, i, body, Receiving(|body|)).(disk := s.disk.(temps := s.disk.temps[t := body])))
  {
    assert body[..|body|] == body;
    var s4 := Next(s3, PutReceive(t, |body|)).value;
    PutMoves(s, t, i, body, Receiving(0), Receiving(|body|));
    assert s4.disk.temps == s.disk.temps[t := body];
  }

  /** The second half: rename, lock, record. */
  lemma PutPublished(s: State, t: nat, i: nat, body: Bytes)
    requires HasRecord(s) && s.mu.None? && t !in s.puts
    ensures Exec(PutAt(s, t, i, body, Receiving(|body|)).(disk := s.disk.(temps := s.disk.temps[t := body])),
                 [PutRename(t), PutLock(t), PutWrite(t)]) == Some(PutDone(s, t, i, body))
  {
    var d := s.disk;
    var placed := s.(disk := d.(chunks := d.chunks[i := body], temps := d.temps - {t}),
                     lastPlaced := s.lastPlaced[i := t]);
    var held := Locked(d.record.value);
    assert d.temps[t := body] - {t} == d.temps - {t};
    PutMoves(s, t, i, body, Receiving(|body|), Placed);
    PutMoves(s, t, i, body, Placed, held);
    PutMoves(s, t, i, body, held, Acked);
    ExecThree(PutAt(s, t, i, body, Receiving(|body|)).(disk := d.(temps := d.temps[t := body])),
              PutRename(t), PutLock(t), PutWrite(t),
              PutAt(placed, t, i, body, Placed), PutAt(placed, t, i, body, held).(mu := Some(t)),
              PutDone(s, t, i, body));
  }

  /** A put that nothing interrupts stores the whole body, records its size and touches nothing else. */
  lemma PutAlone(s: State, t: nat, i: nat, body: Bytes)
    requires HasRecord(s) && s.mu.None? && t !in s.puts
    ensures Exec(s, PutSteps(t, i, body)) == Some(PutDone(s, t, i, body))
  {
    var all := PutSteps(t, i, body);
    PutReceived(s, t, i, body);
    PutPublished(s, t, i, body);
    ExecAppend(s, all[..4], [PutRename(t), PutLock(t), PutWrite(t)]);
    assert all == all[..4] + [PutRename(t), PutLock(t), PutWrite(t)];
  }

  // ---------- the two races ----------

  function TwoPuts(i: nat, a: Bytes, b: Bytes, pa: PutPc, pb: PutPc): map<nat, Put> {
    map[0 := Put(i, a, pa), 1 := Put(i, b, pb)]
  }

  /** Both puts have received their body; neither has renamed yet. */
  function BothReceived(i: nat, a: Bytes, b: Bytes): State {
    INIT.(puts := TwoPuts(i, a, b, Receiving(|a|), Receiving(|b|)),
          disk := Dir(Some(map[]), map[], map[0 := a, 1 := b]))
  }

  /** Both have renamed, the second one last. */
  function BothPlaced(i: nat, a: Bytes, b: Bytes): State {
    INIT.(puts := TwoPuts(i, a, b, Placed, Placed), disk := Dir(Some(map[]), map[i := b], map[]),
          lastPlaced := map[i := 1])
  }

  function ReceiveBoth(i: nat, a: Bytes, b: Bytes): seq<Step> {
    PutSteps(0, i, a)[..4] + PutSteps(1, i, b)[..4]
  }

  lemma ReceiveBothRuns(i: nat, a: Bytes, b: Bytes)
    ensures Exec(INIT, ReceiveBoth(i, a, b)) == Some(BothReceived(i, a, b))
  {
    var first := PutSteps(0, i, a)[..4];
    PutReceived(INIT, 0, i, a);
    var m := Exec(INIT, first).value;
    PutReceived(m, 1, i, b);
    ExecAppend(INIT, first, PutSteps(1, i, b)[..4]);
    var s := Exec(INIT, ReceiveBoth(i, a, b)).value;
    assert s.puts == TwoPuts(i, a, b, Receiving(|a|), Receiving(|b|));
    assert s.disk.temps == map[0 := a, 1 := b];
  }

  lemma PlaceBothRuns(i: nat, a: Bytes, b: Bytes)
    ensures Exec(BothReceived(i, a, b), [PutRename(0)] + [PutRename(1)]) == Some(BothPlaced(i, a, b))
  {
    var s := BothReceived(i, a, b);
    var s1 := Next(s, PutRename(0)).value;
    ExecNext(s, [], s, PutRename(0));
    assert [] + [PutRename(0)] == [PutRename(0)];
    ExecNext(s, [PutRename(0)], s1, PutRename(1));
    var s2 := Next(s1, PutRename(1)).value;
    assert s2.puts == TwoPuts(i, a, b, Placed, Placed);
    assert s2.disk.chunks == map[i := b] && s2.disk.temps == map[];
    assert s2.lastPlaced == map[i := 1];
  }

  /** Lock and write by one put, from a state in which it has renamed. */
  lemma RecordRuns(s: State, t: nat)
    requires PutIn(s, t, Placed) && s.mu.None? && HasRecord(s)
    ensures Exec(s, [PutLock(t)] + [PutWrite(t)])
            == Some(s.(puts := s.puts[t := s.puts[t].(pc := Acked)],
                       disk := s.disk.(record := Some(s.disk.record.value[s.puts[t].index := |s.puts[t].body|])),
                       lastRecorded := s.lastRecorded[s.puts[t].index := t]))
  {
    var s1 := Next(s, PutLock(t)).value;
    ExecNext(s, [], s, PutLock(t));
    assert [] + [PutLock(t)] == [PutLock(t)];
    ExecNext(s, [PutLock(t)], s1, PutWrite(t));
    assert Next(s1, PutWrite(t)).value.puts == s.puts[t := s.puts[t].(pc := Acked)];
  }

  /** The file was renamed by the second put and the size recorded by the first. */
  function BothRecorded(i: nat, a: Bytes, b: Bytes): State {
    INIT.(puts := TwoPuts(i, a, b, Acked, Acked), disk := Dir(Some(map[i := |a|]), map[i := b], map[]),
          lastPlaced := map[i := 1], lastRecorded := map[i := 0])
  }

  lemma RecordBothRuns(i: nat, a: Bytes, b: Bytes)
    ensures Exec(BothPlaced(i, a, b), [PutLock(1)] + [PutWrite(1)] + ([PutLock(0)] + [PutWrite(0)]))
            == Some(BothRecorded(i, a, b))
  {
    var s := BothPlaced(i, a, b);
    var u, v := [PutLock(1)] + [PutWrite(1)], [PutLock(0)] + [PutWrite(0)];
    RecordRuns(s, 1);
    var s1 := Exec(s, u).value;
    RecordRuns(s1, 0);
    ExecAppend(s, u, v);
    var s2 := Exec(s1, v).value;
    assert s2.puts == TwoPuts(i, a, b, Acked, Acked);
    assert s2.disk.record.value == map[i := |a|];
    assert s2.lastRecorded == map[i := 0];
  }

  /** Renaming outside the lock: of any two bodies sent to one index at the same time, the size
      of the first can end up recorded beside the file of the second, for good. */
  lemma OverlapRecordsWrongSize(i: nat, a: Bytes, b: Bytes) returns (steps: seq<Step>)
    ensures Exec(INIT, steps) == Some(BothRecorded(i, a, b))
  {
    var x, y := ReceiveBoth(i, a, b), [PutRename(0)] + [PutRename(1)];
    var v := [PutLock(1)] + [PutWrite(1)] + ([PutLock(0)] + [PutWrite(0)]);
    ReceiveBothRuns(i, a, b);
    PlaceBothRuns(i, a, b);
    ExecAppend(INIT, x, y);
    RecordBothRuns(i, a, b);
    ExecAppend(INIT, x + y, v);
    steps := x + y + v;
  }

  /** Every request at this index carried one of these bodies. */
  ghost predicate SentFrom(s: State, i: nat, bodies: set<Bytes>) {
    forall t | t in s.puts && s.puts[t].index == i :: s.puts[t].body in bodies
  }

  predicate SizeExact(s: State, i: nat) {
    HasRecord(s) && i in s.disk.record.value && i in s.disk.chunks ==>
      s.disk.record.value[i] == |s.disk.chunks[i]|
  }

  /** Whatever runs, and at any moment of it, the recorded size is the size of the file. */
  ghost predicate AlwaysExact(i: nat, bodies: set<Bytes>) {
    forall steps | Exec(INIT, steps).Some? && SentFrom(Exec(INIT, steps).value, i, bodies) ::
      SizeExact(Exec(INIT, steps).value, i)
  }

  /** The same, asked only when no put is in flight and nobody is removing the session. */
  ghost predicate ExactAtRest(i: nat, bodies: set<Bytes>) {
    forall steps | Exec(INIT, steps).Some? && SentFrom(Exec(INIT, steps).value, i, bodies)
      && Quiet(Exec(INIT, steps).value) && !Exec(INIT, steps).value.removalStarted ::
      SizeExact(Exec(INIT, steps).value, i)
  }

  ghost predicate OneLength(bodies: set<Bytes>) {
    forall a, b | a in bodies && b in bodies :: |a| == |b|
  }

  /** The recorded size of an index can be trusted exactly when everything that is ever sent to it
      has one length; with two lengths it can stay wrong even after all puts are done. */
  lemma SizesExactIffOneLength(i: nat, bodies: set<Bytes>)
    ensures AlwaysExact(i, bodies) <==> OneLength(bodies)
    ensures ExactAtRest(i, bodies) <==> OneLength(bodies)
  {
    if OneLength(bodies) {
      forall steps | Exec(INIT, steps).Some? && SentFrom(Exec(INIT, steps).value, i, bodies)
        ensures SizeExact(Exec(INIT, steps).value, i)
      {
        OneLengthExact(steps, i, bodies);
      }
    } else {
      var a, b :| a in bodies && b in bodies && |a| != |b|;
      var steps := OverlapRecordsWrongSize(i, a, b);
      assert SentFrom(BothRecorded(i, a, b), i, bodies) && !SizeExact(BothRecorded(i, a, b), i);
      assert Quiet(BothRecorded(i, a, b));
    }
  }

  lemma OneLengthExact(steps: seq<Step>, i: nat, bodies: set<Bytes>)
    requires OneLength(bodies) && Exec(INIT, steps).Some? && SentFrom(Exec(INIT, steps).value, i, bodies)
    ensures SizeExact(Exec(INIT, steps).value, i)
  {
    var s := Exec(INIT, steps).value;
    if HasRecord(s) && i in s.disk.record.value && i in s.disk.chunks {
      RecordedSizeExact(steps, i);
    }
  }

  ghost predicate ReturnsAfterRemoval(steps: seq<Step>) {
    Exec(INIT, steps).Some? &&
    var s := Exec(INIT, steps).value;
    && Quiet(s) && s.removalStarted && s.removers == {} && HasRecord(s)
    && exists i :: i in s.disk.record.value && i !in s.disk.chunks
  }

  /** One put in its critical section, with its chunk file in place. */
  function OneLocked(a: Bytes): State {
    INIT.(puts := map[0 := Put(0, a, Locked(map[]))], mu := Some(0),
          disk := Dir(Some(map[]), map[0 := a], map[]), lastPlaced := map[0 := 0])
  }

  lemma OneLockedRuns(a: Bytes)
    ensures Exec(INIT, PutSteps(0, 0, a)[..4] + ([PutRename(0)] + [PutLock(0)])) == Some(OneLocked(a))
  {
    var ready := PutSteps(0, 0, a)[..4];
    PutReceived(INIT, 0, 0, a);
    var s := Exec(INIT, ready).value;
    LockRuns(s, a);
    ExecAppend(INIT, ready, [PutRename(0)] + [PutLock(0)]);
  }

  lemma LockRuns(s: State, a: Bytes)
    requires s == INIT.(puts := map[0 := Put(0, a, Receiving(|a|))], disk := Dir(Some(map[]), map[], map[0 := a]))
    ensures Exec(s, [PutRename(0)] + [PutLock(0)]) == Some(OneLocked(a))
  {
    var s1 := Next(s, PutRename(0)).value;
    ExecNext(s, [], s, PutRename(0));
    assert [] + [PutRename(0)] == [PutRename(0)];
    ExecNext(s, [PutRename(0)], s1, PutLock(0));
    var s2 := Next(s1, PutLock(0)).value;
    assert s2.puts == map[0 := Put(0, a, Locked(map[]))];
    assert s2.disk.temps == map[];
  }

  /** The removal empties the directory around it. */
  function Emptied(a: Bytes): State {
    OneLocked(a).(disk := Dir(None, map[], map[]), removers := {9}, removalStarted := true)
  }

  lemma EmptiedRuns(a: Bytes)
    ensures Exec(OneLocked(a), [RemoveBegin(9)] + [UnlinkRecord(9)] + [UnlinkChunk(9, 0)]) == Some(Emptied(a))
  {
    var s := OneLocked(a);
    var s1 := Next(s, RemoveBegin(9)).value;
    assert s1.removers == {9};
    var s2 := Next(s1, UnlinkRecord(9)).value;
    ExecNext(s, [], s, RemoveBegin(9));
    assert [] + [RemoveBegin(9)] == [RemoveBegin(9)];
    ExecNext(s, [RemoveBegin(9)], s1, UnlinkRecord(9));
    ExecNext(s, [RemoveBegin(9)] + [UnlinkRecord(9)], s2, UnlinkChunk(9, 0));
    assert Next(s2, UnlinkChunk(9, 0)).value.disk.chunks == map[];
  }

  /** The put writes after all; the removal finds the directory not empty and stops. */
  function Returned(a: Bytes): State {
    INIT.(puts := map[0 := Put(0, a, Acked)], disk := Dir(Some(map[0 := |a|]), map[], map[]),
          lastPlaced := map[0 := 0], lastRecorded := map[0 := 0], removalStarted := true)
  }

  lemma ReturnedRuns(a: Bytes)
    ensures Exec(Emptied(a), [PutWrite(0)] + [RemoveEnd(9)]) == Some(Returned(a))
  {
    var s := Emptied(a);
    var s1 := Next(s, PutWrite(0)).value;
    ExecNext(s, [], s, PutWrite(0));
    assert [] + [PutWrite(0)] == [PutWrite(0)];
    ExecNext(s, [PutWrite(0)], s1, RemoveEnd(9));
    assert s1.puts == map[0 := Put(0, a, Acked)];
    assert {9} - {9} == {};
  }

  /** Removal takes no lock: a put that already holds the mutex writes session.json back into
      a directory being emptied, the final rmdir then fails, and the session is listed again
      with a recorded chunk that has no file. */
  lemma RemovedSessionCanReturn()
    ensures exists steps :: ReturnsAfterRemoval(steps)
  {
    var a: Bytes := "x";
    var x := PutSteps(0, 0, a)[..4] + ([PutRename(0)] + [PutLock(0)]);
    var y := [RemoveBegin(9)] + [UnlinkRecord(9)] + [UnlinkChunk(9, 0)];
    var z := [PutWrite(0)] + [RemoveEnd(9)];
    OneLockedRuns(a);
    EmptiedRuns(a);
    ReturnedRuns(a);
    ExecAppend(INIT, x, y);
    ExecAppend(INIT, x + y, z);
    assert 0 in Returned(a).disk.record.value && 0 !in Returned(a).disk.chunks;
    assert ReturnsAfterRemoval(x + y + z);
  }

  // ---------- when a session can return ----------

  /** session.json is gone and no put can write it back. */
  ghost predicate Lost(s: State) {
    !HasRecord(s) && (s.disk.Dir? ==> forall t | t in s.puts :: !s.puts[t].pc.Locked?)
  }

  lemma LostStep(s: State, step: Step, s': State)
    requires Lost(s) && Next(s, step) == Some(s')
    ensures Lost(s')
  {
  }

  lemma {:induction false} LostStaysLost(s: State, steps: seq<Step>)
    requires Lost(s) && Exec(s, steps).Some?
    ensures Lost(Exec(s, steps).value)
  {
    if steps != [] {
      var n := |steps| - 1;
      LostStaysLost(s, steps[..n]);
      LostStep(Exec(s, steps[..n]).value, steps[n], Exec(s, steps).value);
    }
  }

  ghost predicate CanReturn(s: State) {
    exists steps :: Exec(s, steps).Some? && HasRecord(Exec(s, steps).value)
  }

  /** Once session.json is gone the session can come back exactly when its directory is still there
      and some put is between its locked read and its locked write. */
  lemma ReturnsIffPutLocked(s: State)
    requires !HasRecord(s)
    ensures CanReturn(s) <==> s.disk.Dir? && exists t :: t in s.puts && s.puts[t].pc.Locked?
  {
    if Lost(s) {
      forall steps | Exec(s, steps).Some? ensures !HasRecord(Exec(s, steps).value) {
        LostStaysLost(s, steps);
      }
    } else {
      var t :| t in s.puts && s.puts[t].pc.Locked?;
      ExecNext(s, [], s, PutWrite(t));
      assert HasRecord(Exec(s, [] + [PutWrite(t)]).value);
    }
  }

  // ---------- directories nobody can remove ----------

  /** The session cannot be read again, and no handler is left that removes or imports it. */
  ghost predicate Orphan(s: State) {
    Lost(s) && s.disk.Dir? && s.removers == {} && forall t | t in s.completes :: !s.completes[t].Copying?
  }

  lemma OrphanStep(s: State, step: Step, s': State)
    requires Orphan(s) && Next(s, step) == Some(s')
    ensures Orphan(s')
  {
    LostStep(s, step, s');
    forall t | t in s'.completes ensures !s'.completes[t].Copying? {
      CompleteChange(s, step, s', t);
    }
  }

  /** Such a directory stays for good: every abort and completion reads session.json first, and the
      session cap goes on counting the directory. */
  lemma {:induction false} OrphanStaysForever(s: State, steps: seq<Step>)
    requires Orphan(s) && Exec(s, steps).Some?
    ensures Orphan(Exec(s, steps).value) && Exec(s, steps).value.disk.Dir?
  {
    if steps != [] {
      var n := |steps| - 1;
      OrphanStaysForever(s, steps[..n]);
      OrphanStep(Exec(s, steps[..n]).value, steps[n], Exec(s, steps).value);
    }
  }

  /** A crash in the middle of an abort is enough to leave one behind. */
  lemma CutAbortOrphans()
    ensures exists steps :: Exec(INIT, steps).Some? && Orphan(Exec(INIT, steps).value)
  {
    var s1 := Next(INIT, RemoveBegin(0)).value;
    var s2 := Next(s1, UnlinkRecord(0)).value;
    var s3 := Next(s2, Restart).value;
    ExecThree(INIT, RemoveBegin(0), UnlinkRecord(0), Restart, s1, s2, s3);
    assert Orphan(s3);
  }
}
