/** Jobs and the manager that retains them. */
module Jobs {
  import opened Common

  datatype Kind = Deploy | Remove

  datatype Status = Pending | Running | Succeeded | Failed

  predicate Terminal(s: Status) { s.Succeeded? || s.Failed? }

  datatype LogEntry = LogEntry(time: int, level: string, message: string)

  /** The last n entries, or all when there are fewer. */
  function LastN<T>(s: seq<T>, n: nat): seq<T> {
    if |s| <= n then s else s[|s| - n..]
  }

  /** One append to a bounded buffer. */
  function AppendBounded<T>(buffer: seq<T>, e: T, max: nat): seq<T> {
    var longer := buffer + [e];
    if |longer| > max then longer[|longer| - max..] else longer
  }

  lemma AppendKeepsLast<T>(history: seq<T>, e: T, max: nat)
    requires max >= 1
    ensures AppendBounded(LastN(history, max), e, max) == LastN(history + [e], max)
  {
  }

  /** The operation-specific result of a finished job. */
  datatype Payload =
    | Deployed(components: seq<(string, string)>, connectStrings: map<string, string>, packageDeleted: bool)
    | Removed(name: string)

  class Job {
    const id: string
    const kind: Kind
    const pkg: string
    const maxLogLines: nat
    var status: Status
    var error: string
    var result: Option<Payload>
    var logs: seq<LogEntry>
    var doneClosed: bool
    ghost var history: seq<LogEntry>

    /** The buffer is the tail of everything ever logged; done is closed exactly in a final status. */
    ghost predicate Valid()
      reads this
    {
      && maxLogLines >= 1
      && logs == LastN(history, maxLogLines)
      && (doneClosed <==> Terminal(status))
    }

    constructor (id: string, kind: Kind, pkg: string, maxLogLines: nat)
      requires maxLogLines >= 1
      ensures Valid() && status == Pending && history == [] && error == "" && result == None
      ensures this.id == id && this.kind == kind && this.pkg == pkg && this.maxLogLines == maxLogLines
    {
      this.id, this.kind, this.pkg, this.maxLogLines := id, kind, pkg, maxLogLines;
      status, error, result := Pending, "", None;
      logs, doneClosed, history := [], false, [];
    }

    /** Unconditional in the source: started on a finished job it would put the status back to running. */
    method Start()
      modifies this`status
      ensures status == Running
      ensures old(Valid()) && !old(doneClosed) ==> Valid()
    {
      status := Running;
    }

    /** Closing done a second time would panic, so the channel must still be open. */
    method Succeed(result: Payload)
      requires Valid() && !doneClosed
      modifies this`status, this`result, this`doneClosed
      ensures Valid() && doneClosed && status == Succeeded && this.result == Some(result)
    {
      status := Succeeded;
      this.result := Some(result);
      doneClosed := true;
    }

    method Fail(error: string)
      requires Valid() && !doneClosed
      modifies this`status, this`error, this`doneClosed
      ensures Valid() && doneClosed && status == Failed && this.error == error
    {
      status := Failed;
      this.error := error;
      doneClosed := true;
    }

    method Append(e: LogEntry)
      requires Valid()
      modifies this`logs, this`history
      ensures Valid() && history == old(history) + [e]
    {
      AppendKeepsLast(history, e, maxLogLines);
      logs := logs + [e];
      var overflow := |logs| - maxLogLines;
      if overflow > 0 {
        logs := [] + logs[overflow..];
      }
      history := history + [e];
    }

    /** The last `tail` captured entries of the whole history, or all captured ones for tail <= 0. */
    method Logs(tail: int) returns (out: seq<LogEntry>)
      requires Valid()
      ensures out == LastN(history, if tail > 0 then Min(tail, maxLogLines) else maxLogLines)
      ensures |out| == Min(|history|, if tail > 0 then Min(tail, maxLogLines) else maxLogLines)
      ensures forall k | 0 <= k < |out| :: out[k] == history[|history| - |out| + k]
    {
      out := logs;
      if tail > 0 && |logs| > tail {
        out := logs[|logs| - tail..];
      }
    }
  }

  /** How many leading statuses are final. */
  function FinishedPrefix(s: seq<Status>): (n: nat)
    ensures n <= |s|
    ensures forall i | 0 <= i < n :: Terminal(s[i])
    ensures n < |s| ==> !Terminal(s[n])
  {
    if s == [] || !Terminal(s[0]) then 0 else 1 + FinishedPrefix(s[1..])
  }

  /** The eviction of one `Create`: as many of the oldest as are over the cap, but only a finished prefix. */
  function Evicted(s: seq<Status>, maxJobs: nat): nat {
    Min(Max(0, |s| - maxJobs), FinishedPrefix(s))
  }

  /** The prefix is unique: it is the only length whose entries are final and that stops at one that is not. */
  lemma FinishedPrefixIs(s: seq<Status>, n: nat)
    requires n <= |s| && forall i | 0 <= i < n :: Terminal(s[i])
    ensures n <= FinishedPrefix(s)
    ensures n < |s| && !Terminal(s[n]) ==> n == FinishedPrefix(s)
  {
  }

  /** An eviction loop that stops at the cap or at the first live job has evicted exactly that many. */
  lemma EvictedIs(s: seq<Status>, maxJobs: nat, n: nat)
    requires n <= Max(0, |s| - maxJobs) && forall i | 0 <= i < n :: Terminal(s[i])
    requires n < |s| - maxJobs ==> !Terminal(s[n])
    ensures n == Evicted(s, maxJobs)
  {
    FinishedPrefixIs(s, n);
  }

  ghost function StatusesOf(js: seq<Job>): (s: seq<Status>)
    reads js
    ensures |s| == |js| && forall i | 0 <= i < |js| :: s[i] == js[i].status
  {
    seq(|js|, i requires 0 <= i < |js| reads js => js[i].status)
  }

  /** The first `n` retained jobs have moved to the end of `gone`. */
  ghost predicate Moved(gone0: seq<Job>, retained0: seq<Job>, gone: seq<Job>, retained: seq<Job>, n: nat) {
    n <= |retained0| && gone == gone0 + retained0[..n] && retained == retained0[n..]
  }

  lemma MoveOne(gone0: seq<Job>, retained0: seq<Job>, gone: seq<Job>, retained: seq<Job>, n: nat)
    requires Moved(gone0, retained0, gone, retained, n) && retained != []
    ensures n < |retained0| && retained[0] == retained0[n]
    ensures Moved(gone0, retained0, gone + [retained[0]], retained[1..], n + 1)
  {
    assert retained0[..n + 1] == retained0[..n] + [retained0[n]];
  }

  /** Moving jobs keeps the history, and moving an evicted number of them moves final ones only. */
  lemma EvictionMoves(gone0: seq<Job>, retained0: seq<Job>, gone: seq<Job>, retained: seq<Job>, maxJobs: nat)
    requires Moved(gone0, retained0, gone, retained, Evicted(StatusesOf(retained0), maxJobs))
    ensures gone + retained == gone0 + retained0
    ensures |gone| > |gone0| ==> |retained| >= maxJobs
    ensures |retained| > maxJobs ==> !Terminal(retained[0].status)
    ensures |gone| == |gone0| + Evicted(StatusesOf(retained0), maxJobs)
    ensures forall i | |gone0| <= i < |gone| :: Terminal(gone[i].status)
  {
    var statuses := StatusesOf(retained0);
    var n := Evicted(statuses, maxJobs);
    assert retained0 == retained0[..n] + retained0[n..];
    forall i | |gone0| <= i < |gone| ensures Terminal(gone[i].status) {
      assert gone[i] == retained0[i - |gone0|];
      assert statuses[i - |gone0|] == gone[i].status;
    }
  }

  /** `order` lists the retained jobs' ids, and the map holds exactly those jobs. */
  ghost predicate Consistent(jobs: map<string, Job>, order: seq<string>, retained: seq<Job>) {
    && |order| == |retained|
    && (forall i | 0 <= i < |order| :: order[i] == retained[i].id)
    && (forall i, j | 0 <= i < j < |order| :: order[i] != order[j])
    && (forall i | 0 <= i < |order| :: order[i] in jobs && jobs[order[i]] == retained[i])
    && (forall id | id in jobs :: id in order)
  }

  lemma OldestDropped(jobs: map<string, Job>, order: seq<string>, retained: seq<Job>)
    requires Consistent(jobs, order, retained) && order != []
    ensures Consistent(jobs - {order[0]}, order[1..], retained[1..])
  {
    forall id | id in jobs - {order[0]} ensures id in order[1..] {
      assert order == [order[0]] + order[1..];
    }
  }

  class Manager {
    var jobs: map<string, Job>
    var order: seq<string>
    const maxJobs: nat
    const maxLogLines: nat

    /** The creation history is `gone + retained`: what was dropped, then what is still there. */
    ghost var gone: seq<Job>
    ghost var retained: seq<Job>

    ghost predicate Valid()
      reads this
    {
      && maxJobs >= 1 && maxLogLines >= 1
      && Consistent(jobs, order, retained)
    }

    /** Out-of-range limits fall back to 100 jobs and 2000 log lines. */
    constructor (maxJobs: int, maxLogLines: int)
      ensures Valid() && gone == [] && retained == []
      ensures this.maxJobs == (if maxJobs < 1 then 100 else maxJobs)
      ensures this.maxLogLines == (if maxLogLines < 1 then 2000 else maxLogLines)
    {
      this.maxJobs := if maxJobs < 1 then 100 else maxJobs;
      this.maxLogLines := if maxLogLines < 1 then 2000 else maxLogLines;
      jobs, order := map[], [];
      gone, retained := [], [];
    }

    /** Removes the oldest retained job from the map and the order list. */
    method DropOldest()
      requires Valid() && order != []
      modifies this`jobs, this`order, this`gone, this`retained
      ensures Valid()
      ensures gone == old(gone) + [old(retained)[0]] && retained == old(retained)[1..]
    {
      OldestDropped(jobs, order, retained);
      jobs := jobs - {order[0]};
      order := order[1..];
      gone := gone + [retained[0]];
      retained := retained[1..];
    }

    /** One round of the eviction loop: the oldest job goes unless it is still live. */
    method DropIfFinished() returns (dropped: bool)
      requires Valid() && order != []
      modifies this`jobs, this`order, this`gone, this`retained
      ensures Valid() && (dropped <==> Terminal(old(retained)[0].status))
      ensures dropped ==> gone == old(gone) + [old(retained)[0]] && retained == old(retained)[1..]
      ensures !dropped ==> gone == old(gone) && retained == old(retained)
    {
      var oldest := jobs[order[0]];
      if oldest.status == Pending || oldest.status == Running {
        return false;
      }
      DropOldest();
      dropped := true;
    }

    /** The eviction loop. */
    method EvictLoop(ghost all: seq<Status>)
      requires Valid() && all == StatusesOf(retained)
      modifies this`jobs, this`order, this`gone, this`retained
      ensures Valid()
      ensures Moved(old(gone), old(retained), gone, retained, Evicted(all, maxJobs))
    {
      ghost var n, gone0, retained0 := 0, gone, retained;
      while |order| > maxJobs
        invariant Valid()
        invariant Moved(gone0, retained0, gone, retained, n)
        invariant |all| == |retained0| && forall i | 0 <= i < |all| :: all[i] == retained0[i].status
        invariant n <= Max(0, |all| - maxJobs)
        invariant forall i | 0 <= i < n :: Terminal(all[i])
      {
        MoveOne(gone0, retained0, gone, retained, n);
        var dropped := DropIfFinished();
        if !dropped {
          break;
        }
        n := n + 1;
      }
      EvictedIs(all, maxJobs, n);
    }

    /** Exactly min(excess, finished prefix) of the oldest jobs go, all of them final. */
    method Evict()
      requires Valid()
      modifies this`jobs, this`order, this`gone, this`retained
      ensures Valid() && gone + retained == old(gone) + old(retained)
      ensures |gone| == |old(gone)| + Evicted(old(StatusesOf(retained)), maxJobs)
      ensures |gone| > |old(gone)| ==> |retained| >= maxJobs
      ensures |retained| > maxJobs ==> !Terminal(retained[0].status)
      ensures forall i | |old(gone)| <= i < |gone| :: Terminal(gone[i].status)
    {
      ghost var gone0, retained0 := gone, retained;
      EvictLoop(StatusesOf(retained));
      EvictionMoves(gone0, retained0, gone, retained, maxJobs);
    }

    /** Registers a new pending job under a fresh id, then drops finished jobs from the old end of the
        history while it is over the cap; no status changes and nothing else leaves map or order. */
    method Create(kind: Kind, pkg: string, id: string) returns (j: Job)
      requires Valid() && id !in jobs
      modifies this
      ensures Valid() && fresh(j) && j.Valid()
      ensures j.id == id && j.kind == kind && j.pkg == pkg && j.status == Pending
      ensures gone + retained == old(gone) + old(retained) + [j]
      ensures |gone| == |old(gone)| + Evicted(old(StatusesOf(retained)) + [Pending], maxJobs)
      ensures |gone| > |old(gone)| ==> |retained| >= maxJobs
      ensures |retained| > maxJobs ==> !Terminal(retained[0].status)
      ensures forall i | |old(gone)| <= i < |gone| :: Terminal(gone[i].status)
    {
      j := new Job(id, kind, pkg, maxLogLines);
      Register(j);
      assert gone + retained == old(gone) + old(retained) + [j];
      Evict();
    }

    method Register(j: Job)
      requires Valid() && j.id !in jobs
      modifies this`jobs, this`order, this`retained
      ensures Valid() && retained == old(retained) + [j]
      ensures StatusesOf(retained) == StatusesOf(old(retained)) + [j.status]
    {
      jobs := jobs[j.id := j];
      order := order + [j.id];
      retained := retained + [j];
    }

    /** Found exactly when created and not dropped. */
    method Get(id: string) returns (r: Option<Job>)
      requires Valid()
      ensures r.Some? ==> r.value in retained && r.value.id == id
      ensures r.None? ==> forall j | j in retained :: j.id != id
    {
      r := if id in jobs then Some(jobs[id]) else None;
      if id in jobs {
        ghost var i :| 0 <= i < |order| && order[i] == id;
        assert retained[i] == jobs[id];
      } else {
        forall j | j in retained ensures j.id != id {
          ghost var i :| 0 <= i < |retained| && retained[i] == j;
          assert order[i] in jobs;
        }
      }
    }

    /** All retained jobs, oldest first. */
    method List() returns (out: seq<Job>)
      requires Valid()
      ensures out == retained
    {
      out := [];
      for i := 0 to |order|
        invariant out == retained[..i]
      {
        if order[i] in jobs {
          out := out + [jobs[order[i]]];
        }
      }
    }
  }
}
