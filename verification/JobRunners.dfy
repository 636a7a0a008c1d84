/** The runner goroutines: one per job, serialised by the cluster mutex, interleaved step by step. */
module JobRunners {
  import opened Common
  import opened Jobs

  /** Where the runner of one job stands. */
  datatype Pc =
    | Spawned               // created, waiting for the cluster mutex
    | Holding               // mutex taken, Start not yet called
    | Calling               // inside zarf's deploy or remove
    | Returned(ok: bool)    // the call came back
    | Cleaned               // after the optional package cleanup of a deploy
    | Finished              // Succeed or Fail called, mutex still held
    | Exited                // mutex released

  /** `closes` counts the calls of close(done). */
  datatype JobState = JobState(kind: Kind, cleanup: bool, pc: Pc, status: Status, closes: nat)

  /** A request waiting for a job, and the status code it was answered with. */
  datatype Waiter = Waiter(job: nat, answer: Option<int>)

  /** Jobs in creation order, the first `dropped` of them evicted from the manager. */
  datatype State = State(maxJobs: nat, jobs: seq<JobState>, dropped: nat, mutex: Option<nat>, waiters: map<nat, Waiter>)

  datatype Step =
    | Create(kind: Kind, cleanup: bool)
    | Acquire(i: nat)
    | Start(i: nat)
    | Return(i: nat, ok: bool)
    | Cleanup(i: nat)
    | Finish(i: nat)
    | Release(i: nat)
    | Wait(w: nat, i: nat)
    | Wake(w: nat)

  function StatusSeq(jobs: seq<JobState>): (s: seq<Status>)
    ensures |s| == |jobs| && forall i | 0 <= i < |jobs| :: s[i] == jobs[i].status
  {
    seq(|jobs|, i requires 0 <= i < |jobs| => jobs[i].status)
  }

  predicate At(s: State, i: nat, pc: Pc) { i < |s.jobs| && s.jobs[i].pc == pc }

  function SetJob(s: State, i: nat, j: JobState): State
    requires i < |s.jobs|
  {
    s.(jobs := s.jobs[i := j])
  }

  /** Start, Succeed and Fail of one job. */
  function Started(j: JobState): JobState { j.(pc := Calling, status := Running) }

  function Ended(j: JobState, status: Status): JobState {
    j.(pc := Finished, status := status, closes := j.closes + 1)
  }

  /** `respondJob` once the done channel is closed. */
  function Answer(status: Status): int { if status == Failed then 500 else 200 }

  function Next(s: State, step: Step): Option<State> {
    match step
    case Create(kind, cleanup) =>
      var jobs := s.jobs + [JobState(kind, cleanup, Spawned, Pending, 0)];
      if s.dropped > |s.jobs| then None
      else Some(s.(jobs := jobs, dropped := s.dropped + Evicted(StatusSeq(jobs[s.dropped..]), s.maxJobs)))
    case Acquire(i) =>
      if At(s, i, Spawned) && s.mutex.None?
      then Some(SetJob(s, i, s.jobs[i].(pc := Holding)).(mutex := Some(i))) else None
    case Start(i) =>
      if At(s, i, Holding) then Some(SetJob(s, i, Started(s.jobs[i]))) else None
    case Return(i, ok) =>
      if At(s, i, Calling) then Some(SetJob(s, i, s.jobs[i].(pc := Returned(ok)))) else None
    case Cleanup(i) =>
      if At(s, i, Returned(true)) && s.jobs[i].kind == Deploy && s.jobs[i].cleanup
      then Some(SetJob(s, i, s.jobs[i].(pc := Cleaned))) else None
    case Finish(i) =>
      if At(s, i, Returned(false)) then Some(SetJob(s, i, Ended(s.jobs[i], Failed)))
      else if At(s, i, Cleaned) || (At(s, i, Returned(true)) && !(s.jobs[i].kind == Deploy && s.jobs[i].cleanup))
      then Some(SetJob(s, i, Ended(s.jobs[i], Succeeded))) else None
    case Release(i) =>
      if At(s, i, Finished) then Some(SetJob(s, i, s.jobs[i].(pc := Exited)).(mutex := None)) else None
    case Wait(w, i) =>
      if w !in s.waiters && i < |s.jobs| then Some(s.(waiters := s.waiters[w := Waiter(i, None)])) else None
    case Wake(w) =>
      if w in s.waiters && s.waiters[w].answer.None?
         && s.waiters[w].job < |s.jobs| && s.jobs[s.waiters[w].job].closes > 0
      then Some(s.(waiters := s.waiters[w := s.waiters[w].(answer := Some(Answer(s.jobs[s.waiters[w].job].status)))]))
      else None
  }

  function Exec(s: State, steps: seq<Step>): Option<State> {
    if steps == [] then Some(s) else
      match Exec(s, steps[..|steps| - 1])
      case None => None
      case Some(m) => Next(m, steps[|steps| - 1])
  }

  predicate RunnerStep(step: Step) {
    step.Acquire? || step.Start? || step.Return? || step.Cleanup? || step.Finish? || step.Release?
  }

  function Init(maxJobs: nat): State { State(maxJobs, [], 0, None, map[]) }

  // ---------- safety ----------

  predicate Holds(pc: Pc) { !pc.Spawned? && !pc.Exited? }

  /** The status and the done channel follow the runner's position. */
  predicate JobOk(j: JobState) {
    match j.pc
    case Spawned => j.status == Pending && j.closes == 0
    case Holding => j.status == Pending && j.closes == 0
    case Calling => j.status == Running && j.closes == 0
    case Returned(_) => j.status == Running && j.closes == 0
    case Cleaned => j.status == Running && j.closes == 0
    case Finished => Terminal(j.status) && j.closes == 1
    case Exited => Terminal(j.status) && j.closes == 1
  }

  ghost predicate JobsInv(s: State) {
    && (forall i | 0 <= i < |s.jobs| :: JobOk(s.jobs[i]))
    && (forall i | 0 <= i < |s.jobs| && Holds(s.jobs[i].pc) :: s.mutex == Some(i))
    && (s.mutex.Some? ==> s.mutex.value < |s.jobs| && Holds(s.jobs[s.mutex.value].pc))
  }

  /** Only final jobs have been dropped. */
  ghost predicate DroppedInv(s: State) {
    s.dropped <= |s.jobs| && forall i | 0 <= i < s.dropped :: Terminal(s.jobs[i].status)
  }

  /** An answered waiter was told how its job ended. */
  predicate WaiterOk(jobs: seq<JobState>, w: Waiter) {
    && w.job < |jobs|
    && (w.answer.Some? ==> Terminal(jobs[w.job].status) && w.answer.value == Answer(jobs[w.job].status))
  }

  ghost predicate WaitersInv(s: State) {
    forall w | w in s.waiters :: WaiterOk(s.jobs, s.waiters[w])
  }

  ghost predicate Inv(s: State) { JobsInv(s) && DroppedInv(s) && WaitersInv(s) }

  predicate StatusMoves(a: Status, b: Status) {
    a == b || (a.Pending? && b.Running?) || (a.Running? && Terminal(b))
  }

  /** One step: jobs keep their place, statuses move one stage forward at most, nothing is undropped. */
  ghost predicate Forward(s: State, s': State) {
    && |s.jobs| <= |s'.jobs| && s.dropped <= s'.dropped
    && forall i | 0 <= i < |s.jobs| ::
         StatusMoves(s.jobs[i].status, s'.jobs[i].status) && s.jobs[i].closes <= s'.jobs[i].closes
  }

  lemma StepForward(s: State, step: Step, s': State)
    requires JobsInv(s) && Next(s, step) == Some(s')
    ensures Forward(s, s')
  {
  }

  /** The runner that holds the mutex, or takes a free one, moves on. */
  lemma UpdateKeepsJobs(s: State, i: nat, j: JobState, mutex: Option<nat>)
    requires JobsInv(s) && i < |s.jobs| && JobOk(j)
    requires s.mutex == Some(i) || s.mutex.None?
    requires mutex == if Holds(j.pc) then Some(i) else None
    ensures JobsInv(SetJob(s, i, j).(mutex := mutex))
  {
  }

  lemma StepKeepsJobs(s: State, step: Step, s': State)
    requires JobsInv(s) && Next(s, step) == Some(s')
    ensures JobsInv(s')
  {
    if RunnerStep(step) {
      var i := step.i;
      assert JobOk(s.jobs[i]);
      UpdateKeepsJobs(s, i, s'.jobs[i], s'.mutex);
      assert s' == SetJob(s, i, s'.jobs[i]).(mutex := s'.mutex);
    }
  }

  /** What a create drops is final. */
  lemma CreateDropsFinal(s: State, step: Step, s': State)
    requires Inv(s) && step.Create? && Next(s, step) == Some(s')
    ensures DroppedInv(s')
  {
    var retained := StatusSeq(s'.jobs[s.dropped..]);
    forall i | 0 <= i < s'.dropped ensures Terminal(s'.jobs[i].status) {
      if i >= s.dropped {
        assert retained[i - s.dropped] == s'.jobs[i].status;
      }
    }
  }

  lemma StepKeepsDropped(s: State, step: Step, s': State)
    requires Inv(s) && Next(s, step) == Some(s')
    ensures DroppedInv(s')
  {
    StepForward(s, step, s');
    if step.Create? {
      CreateDropsFinal(s, step, s');
    }
  }

  lemma ForwardKeepsWaiter(s: State, s': State, w: Waiter)
    requires Forward(s, s') && WaiterOk(s.jobs, w)
    ensures WaiterOk(s'.jobs, w)
  {
  }

  lemma StepKeepsWaiters(s: State, step: Step, s': State)
    requires Inv(s) && Next(s, step) == Some(s')
    ensures WaitersInv(s')
  {
    StepForward(s, step, s');
    forall w | w in s'.waiters ensures WaiterOk(s'.jobs, s'.waiters[w]) {
      if step == Wake(w) {
        assert JobOk(s.jobs[s.waiters[w].job]);
      } else if step.Wait? && step.w == w {
      } else {
        assert s'.waiters[w] == s.waiters[w];
        ForwardKeepsWaiter(s, s', s.waiters[w]);
      }
    }
  }

  lemma StepKeepsInv(s: State, step: Step, s': State)
    requires Inv(s) && Next(s, step) == Some(s')
    ensures Inv(s')
  {
    StepKeepsJobs(s, step, s');
    StepKeepsDropped(s, step, s');
    StepKeepsWaiters(s, step, s');
  }

  lemma {:induction false} RunKeepsInv(s: State, steps: seq<Step>)
    requires Inv(s) && Exec(s, steps).Some?
    ensures Inv(Exec(s, steps).value)
  {
    if steps != [] {
      var n := |steps| - 1;
      RunKeepsInv(s, steps[..n]);
      StepKeepsInv(Exec(s, steps[..n]).value, steps[n], Exec(s, steps).value);
    }
  }

  predicate IsRunning(s: State, i: nat) { i < |s.jobs| && s.jobs[i].status == Running }

  /** In every reachable state of every interleaving at most one job is running. */
  lemma AtMostOneRunning(maxJobs: nat, steps: seq<Step>, i: nat, j: nat)
    requires Exec(Init(maxJobs), steps).Some?
    requires IsRunning(Exec(Init(maxJobs), steps).value, i) && IsRunning(Exec(Init(maxJobs), steps).value, j)
    ensures i == j
  {
    RunKeepsInv(Init(maxJobs), steps);
    var s := Exec(Init(maxJobs), steps).value;
    assert JobOk(s.jobs[i]) && JobOk(s.jobs[j]);
  }

  /** The done channel is closed never or once, and once exactly when the status is final. */
  lemma ClosedOnceIffTerminal(maxJobs: nat, steps: seq<Step>, i: nat)
    requires Exec(Init(maxJobs), steps).Some? && i < |Exec(Init(maxJobs), steps).value.jobs|
    ensures var j := Exec(Init(maxJobs), steps).value.jobs[i];
            j.closes <= 1 && (j.closes == 1 <==> Terminal(j.status))
  {
    RunKeepsInv(Init(maxJobs), steps);
    assert JobOk(Exec(Init(maxJobs), steps).value.jobs[i]);
  }

  predicate Later(a: Status, b: Status) {
    a == b || a.Pending? || (a.Running? && Terminal(b))
  }

  /** Over any run statuses only move on: pending, running, one final status for good;
      the retained part of the history only shrinks at its old end. */
  lemma {:induction false} RunsMoveForward(s: State, steps: seq<Step>)
    requires Inv(s) && Exec(s, steps).Some?
    ensures var s' := Exec(s, steps).value;
            && |s.jobs| <= |s'.jobs| && s.dropped <= s'.dropped
            && forall i | 0 <= i < |s.jobs| :: Later(s.jobs[i].status, s'.jobs[i].status)
  {
    if steps != [] {
      var n := |steps| - 1;
      RunsMoveForward(s, steps[..n]);
      RunKeepsInv(s, steps[..n]);
      StepForward(Exec(s, steps[..n]).value, steps[n], Exec(s, steps).value);
    }
  }

  /** A waiter is answered 200 exactly when its job has succeeded and 500 exactly when it has failed,
      and later steps do not change that. */
  lemma WaiterToldTheOutcome(maxJobs: nat, steps: seq<Step>, more: seq<Step>, w: nat)
    requires Exec(Init(maxJobs), steps).Some? && Exec(Exec(Init(maxJobs), steps).value, more).Some?
    requires var s := Exec(Init(maxJobs), steps).value; w in s.waiters && s.waiters[w].answer.Some?
    ensures var s, s' := Exec(Init(maxJobs), steps).value, Exec(Exec(Init(maxJobs), steps).value, more).value;
            var i := s.waiters[w].job;
            && i < |s'.jobs|
            && (s.waiters[w].answer == Some(200) <==> s'.jobs[i].status == Succeeded)
            && (s.waiters[w].answer == Some(500) <==> s'.jobs[i].status == Failed)
  {
    RunKeepsInv(Init(maxJobs), steps);
    RunsMoveForward(Exec(Init(maxJobs), steps).value, more);
  }

  /** A job that is not final is still retained, whatever was created after it. */
  lemma LiveJobRetained(maxJobs: nat, steps: seq<Step>, i: nat)
    requires Exec(Init(maxJobs), steps).Some?
    requires i < |Exec(Init(maxJobs), steps).value.jobs| && !Terminal(Exec(Init(maxJobs), steps).value.jobs[i].status)
    ensures i >= Exec(Init(maxJobs), steps).value.dropped
  {
    RunKeepsInv(Init(maxJobs), steps);
  }

  // ---------- progress ----------

  /** The step the mutex holder can take. */
  function HolderStep(s: State, i: nat): Step
    requires i < |s.jobs|
  {
    match s.jobs[i].pc
    case Holding => Start(i)
    case Calling => Return(i, true)
    case Returned(ok) => if ok && s.jobs[i].kind == Deploy && s.jobs[i].cleanup then Cleanup(i) else Finish(i)
    case Cleaned => Finish(i)
    case Finished => Release(i)
    case _ => Acquire(i)
  }

  /** While some runner has not exited, some runner can move. */
  lemma NoDeadlock(s: State, i: nat)
    requires JobsInv(s) && i < |s.jobs| && !s.jobs[i].pc.Exited?
    ensures exists step :: RunnerStep(step) && Next(s, step).Some?
  {
    var k := if s.mutex.Some? then s.mutex.value else i;
    var step := HolderStep(s, k);
    assert RunnerStep(step) && Next(s, step).Some?;
  }

  function Remaining(pc: Pc): nat {
    match pc
    case Spawned => 6
    case Holding => 5
    case Calling => 4
    case Returned(_) => 3
    case Cleaned => 2
    case Finished => 1
    case Exited => 0
  }

  function Measure(jobs: seq<JobState>): nat {
    if jobs == [] then 0 else Measure(jobs[..|jobs| - 1]) + Remaining(jobs[|jobs| - 1].pc)
  }

  lemma {:induction false} MeasureUpdate(jobs: seq<JobState>, i: nat, j: JobState)
    requires i < |jobs|
    ensures Measure(jobs[i := j]) == Measure(jobs) - Remaining(jobs[i].pc) + Remaining(j.pc)
  {
    var n := |jobs| - 1;
    if i < n {
      MeasureUpdate(jobs[..n], i, j);
      assert jobs[i := j][..n] == jobs[..n][i := j];
    } else {
      assert jobs[i := j][..n] == jobs[..n];
    }
  }

  lemma RunnerStepDecreases(s: State, step: Step, s': State)
    requires RunnerStep(step) && Next(s, step) == Some(s')
    ensures Measure(s'.jobs) < Measure(s.jobs) && |s'.jobs| == |s.jobs|
  {
    MeasureUpdate(s.jobs, step.i, s'.jobs[step.i]);
  }

  ghost predicate Stuck(s: State) {
    forall step | RunnerStep(step) :: Next(s, step).None?
  }

  /** Where no runner can move, all have exited. */
  lemma StuckIsDone(s: State)
    requires JobsInv(s) && Stuck(s)
    ensures s.mutex.None? && forall i | 0 <= i < |s.jobs| :: Terminal(s.jobs[i].status)
  {
    forall i | 0 <= i < |s.jobs| ensures s.jobs[i].pc.Exited? && JobOk(s.jobs[i]) {
      if !s.jobs[i].pc.Exited? { NoDeadlock(s, i); }
    }
  }

  /** Given that the calls return, every run of the runners of a fixed set of jobs is bounded by the
      measure, and where no runner can move any more all jobs are final and the mutex is free. */
  lemma {:induction false} RunnersTerminate(s: State, steps: seq<Step>)
    requires Inv(s) && Exec(s, steps).Some?
    requires forall k | 0 <= k < |steps| :: RunnerStep(steps[k])
    ensures var s' := Exec(s, steps).value;
            && Inv(s') && |s'.jobs| == |s.jobs|
            && |steps| + Measure(s'.jobs) <= Measure(s.jobs)
            && (Stuck(s') ==> s'.mutex.None? && forall i | 0 <= i < |s'.jobs| :: Terminal(s'.jobs[i].status))
  {
    RunKeepsInv(s, steps);
    var s' := Exec(s, steps).value;
    if steps != [] {
      var n := |steps| - 1;
      RunnersTerminate(s, steps[..n]);
      RunnerStepDecreases(Exec(s, steps[..n]).value, steps[n], s');
    }
    if Stuck(s') {
      StuckIsDone(s');
    }
  }
}
