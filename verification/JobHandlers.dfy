/** The job objects and the step system are the same thing: each call on the objects is one of its steps. */
module JobHandlers {
  import opened Common
  import opened Jobs
  import opened JobRunners

  /** The creation history, oldest first. */
  ghost function History(m: Manager): seq<Job>
    reads m
  {
    m.gone + m.retained
  }

  ghost predicate Shows(job: Job, x: JobState)
    reads job
  {
    job.kind == x.kind && job.status == x.status && (job.doneClosed <==> x.closes > 0)
  }

  /** The manager's history is the jobs of the step system, and what it no longer holds is what was dropped there. */
  ghost predicate Represents(m: Manager, s: State)
    reads m, m.gone, m.retained
  {
    && s.maxJobs == m.maxJobs && s.dropped == |m.gone| && |s.jobs| == |History(m)|
    && (forall i, j | 0 <= i < j < |History(m)| :: History(m)[i] != History(m)[j])
    && forall i | 0 <= i < |History(m)| :: Shows(History(m)[i], s.jobs[i])
  }

  /** A new manager is the start of the step system. */
  method NewManager(maxJobs: int, maxLogLines: int) returns (m: Manager, ghost s: State)
    ensures fresh(m) && m.Valid() && s == Init(m.maxJobs) && Represents(m, s)
  {
    m := new Manager(maxJobs, maxLogLines);
    s := Init(m.maxJobs);
  }

  /** Steps without a call on a job object leave the objects as the picture of the next state. */
  lemma QuietStepsRepresented(m: Manager, s: State, step: Step, s': State)
    requires Represents(m, s) && Next(s, step) == Some(s')
    requires !step.Create? && !step.Start? && !step.Finish?
    ensures Represents(m, s')
  {
  }

  lemma RetainedStatuses(m: Manager, s: State)
    requires Represents(m, s)
    ensures StatusSeq(s.jobs[s.dropped..]) == StatusesOf(m.retained)
  {
    var a, b := StatusSeq(s.jobs[s.dropped..]), StatusesOf(m.retained);
    forall i | 0 <= i < |a| ensures a[i] == b[i] {
      assert History(m)[s.dropped + i] == m.retained[i];
      assert Shows(History(m)[s.dropped + i], s.jobs[s.dropped + i]);
    }
  }

  lemma StatusSeqSnoc(jobs: seq<JobState>, x: JobState, from: nat)
    requires from <= |jobs|
    ensures StatusSeq((jobs + [x])[from..]) == StatusSeq(jobs[from..]) + [x.status]
  {
    assert (jobs + [x])[from..] == jobs[from..] + [x];
  }

  lemma OneMore(m: Manager, s: State, before: seq<Job>, job: Job, x: JobState, s': State)
    requires History(m) == before + [job] && |before| == |s.jobs| && job !in before && Shows(job, x)
    requires forall i, j | 0 <= i < j < |before| :: before[i] != before[j]
    requires forall i | 0 <= i < |before| :: Shows(before[i], s.jobs[i])
    requires s'.jobs == s.jobs + [x] && s'.maxJobs == m.maxJobs && s'.dropped == |m.gone|
    ensures Represents(m, s')
  {
  }

  /** Creating a job and spawning its runner. */
  method CreateJob(m: Manager, kind: Kind, pkg: string, id: string, cleanup: bool, ghost s: State)
    returns (job: Job, ghost s': State)
    requires m.Valid() && id !in m.jobs && Represents(m, s)
    modifies m
    ensures m.Valid() && fresh(job) && job.Valid() && job.pkg == pkg
    ensures Next(s, Create(kind, cleanup)) == Some(s') && Represents(m, s')
    ensures History(m) == old(History(m)) + [job]
  {
    ghost var before, x := History(m), JobState(kind, cleanup, Spawned, Pending, 0);
    RetainedStatuses(m, s);
    StatusSeqSnoc(s.jobs, x, s.dropped);
    s' := Next(s, Create(kind, cleanup)).value;
    job := m.Create(kind, pkg, id);
    OneMore(m, s, before, job, x, s');
  }

  /** One job of the history changes; the rest of the picture stays. */
  lemma OneChanged(m: Manager, s: State, i: nat, x: JobState)
    requires |s.jobs| == |History(m)| && i < |s.jobs|
    requires s.maxJobs == m.maxJobs && s.dropped == |m.gone|
    requires forall i, j | 0 <= i < j < |History(m)| :: History(m)[i] != History(m)[j]
    requires forall k | 0 <= k < |s.jobs| && k != i :: Shows(History(m)[k], s.jobs[k])
    requires Shows(History(m)[i], x)
    ensures Represents(m, SetJob(s, i, x))
  {
  }

  /** `Start` by the runner that has just taken the mutex. */
  method StartJob(job: Job, ghost m: Manager, ghost i: nat, ghost s: State) returns (ghost s': State)
    requires Represents(m, s) && At(s, i, Holding) && History(m)[i] == job
    modifies job
    ensures Next(s, Start(i)) == Some(s') && Represents(m, s')
  {
    assert Shows(job, s.jobs[i]);
    s' := Next(s, Start(i)).value;
    job.Start();
    OneChanged(m, s, i, s'.jobs[i]);
  }

  /** `Fail` after a call that returned an error. */
  method FailJob(job: Job, error: string, ghost m: Manager, ghost i: nat, ghost s: State) returns (ghost s': State)
    requires Represents(m, s) && At(s, i, Returned(false)) && History(m)[i] == job
    requires job.Valid() && !job.doneClosed
    modifies job
    ensures job.Valid() && job.error == error
    ensures Next(s, Finish(i)) == Some(s') && Represents(m, s')
  {
    s' := Next(s, Finish(i)).value;
    job.Fail(error);
    OneChanged(m, s, i, s'.jobs[i]);
  }

  /** `Succeed` after a call that went well, and after the cleanup if one was asked for. */
  method SucceedJob(job: Job, result: Payload, ghost m: Manager, ghost i: nat, ghost s: State)
    returns (ghost s': State)
    requires Represents(m, s) && i < |s.jobs| && History(m)[i] == job
    requires At(s, i, Cleaned) || (At(s, i, Returned(true)) && !(s.jobs[i].kind == Deploy && s.jobs[i].cleanup))
    requires job.Valid() && !job.doneClosed
    modifies job
    ensures job.Valid() && job.result == Some(result)
    ensures Next(s, Finish(i)) == Some(s') && Represents(m, s')
  {
    s' := Next(s, Finish(i)).value;
    job.Succeed(result);
    OneChanged(m, s, i, s'.jobs[i]);
  }

  /** `Succeed` and `Fail` find the done channel open in every reachable state: closing it cannot panic. */
  lemma DoneIsOpen(m: Manager, s: State, i: nat)
    requires Represents(m, s) && JobsInv(s) && Next(s, Finish(i)).Some?
    ensures i < |History(m)| && !History(m)[i].doneClosed && History(m)[i].status == Running
  {
    assert JobOk(s.jobs[i]);
    assert Shows(History(m)[i], s.jobs[i]);
  }
}
