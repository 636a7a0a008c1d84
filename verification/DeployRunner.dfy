/** The body of one runner goroutine, while it has the cluster mutex to itself. */
module DeployRunner {
  import opened Common
  import opened Jobs
  import opened PackageNames
  import opened PackageDir
  import opened PackageStore

  /** What zarf reports for a deploy: components, each with its charts' connect strings. */
  datatype Component = Component(name: string, status: string, charts: seq<map<string, string>>)

  datatype DeployOutcome = DeployError(message: string) | DeployDone(components: seq<Component>)

  predicate InChart(components: seq<Component>, k: string, i: int, j: int) {
    0 <= i < |components| && 0 <= j < |components[i].charts| && k in components[i].charts[j]
  }

  /** The last chart of the last component that has the key. */
  ghost predicate LastChart(components: seq<Component>, k: string, i: int, j: int) {
    && InChart(components, k, i, j)
    && forall i', j' | InChart(components, k, i', j') :: i' < i || (i' == i && j' <= j)
  }

  /** m collects every key of the charts, each with the value of the last chart that has it. */
  ghost predicate LastWins(components: seq<Component>, m: map<string, string>) {
    && (forall k | k in m :: exists i, j :: LastChart(components, k, i, j) && components[i].charts[j][k] == m[k])
    && (forall i, j, k | InChart(components, k, i, j) :: k in m)
  }

  lemma LastWinsNewComponent(components: seq<Component>, m: map<string, string>, c: Component)
    requires LastWins(components, m) && c.charts == []
    ensures LastWins(components + [c], m)
  {
    var longer := components + [c];
    forall k, i, j ensures InChart(longer, k, i, j) <==> InChart(components, k, i, j) {
    }
    forall k | k in m ensures exists i, j :: LastChart(longer, k, i, j) && longer[i].charts[j][k] == m[k] {
      var i, j :| LastChart(components, k, i, j) && components[i].charts[j][k] == m[k];
      assert LastChart(longer, k, i, j) && longer[i] == components[i];
    }
  }

  lemma LastWinsNewChart(components: seq<Component>, c: Component, m: map<string, string>, chart: map<string, string>)
    requires LastWins(components + [c], m)
    ensures LastWins(components + [c.(charts := c.charts + [chart])], m + chart)
  {
    var was, now := components + [c], components + [c.(charts := c.charts + [chart])];
    var last, n := |components|, |c.charts|;
    forall k, i, j ensures InChart(now, k, i, j) <==> InChart(was, k, i, j) || (i == last && j == n && k in chart) {
    }
    forall k | k in m + chart ensures exists i, j :: LastChart(now, k, i, j) && now[i].charts[j][k] == (m + chart)[k] {
      if k in chart {
        assert LastChart(now, k, last, n) && now[last].charts[n][k] == chart[k];
      } else {
        var i, j :| LastChart(was, k, i, j) && was[i].charts[j][k] == m[k];
        assert LastChart(now, k, i, j) && now[i].charts[j] == was[i].charts[j];
      }
    }
  }

  /** Copies one chart's strings over the collected ones, key by key in any order. */
  method CopyStrings(into: map<string, string>, chart: map<string, string>) returns (out: map<string, string>)
    ensures out == into + chart
  {
    out := into;
    var todo := chart.Keys;
    while todo != {}
      invariant todo <= chart.Keys
      invariant out == into + (chart - todo)
    {
      var k :| k in todo;
      assert chart - (todo - {k}) == (chart - todo)[k := chart[k]];
      out := out[k := chart[k]];
      todo := todo - {k};
    }
    assert chart - todo == chart;
  }

  /** The result summary: one entry per component, and the connect strings with the last chart winning. */
  method Summarize(components: seq<Component>) returns (summaries: seq<(string, string)>, strings: map<string, string>)
    ensures |summaries| == |components|
    ensures forall i | 0 <= i < |components| ::
              summaries[i].0 == components[i].name && summaries[i].1 == components[i].status
    ensures LastWins(components, strings)
  {
    summaries, strings := [], map[];
    for i := 0 to |components|
      invariant |summaries| == i
      invariant forall k | 0 <= k < i ::
                  summaries[k].0 == components[k].name && summaries[k].1 == components[k].status
      invariant LastWins(components[..i], strings)
    {
      var c := components[i];
      summaries := summaries + [(c.name, c.status)];
      strings := CopyCharts(components[..i], c, strings);
      assert components[..i] + [c] == components[..i + 1];
    }
    assert components[..|components|] == components;
  }

  /** The inner loop of the summary: one component's charts over what was collected before it. */
  method CopyCharts(before: seq<Component>, c: Component, collected: map<string, string>)
    returns (strings: map<string, string>)
    requires LastWins(before, collected)
    ensures LastWins(before + [c], strings)
  {
    strings := collected;
    LastWinsNewComponent(before, strings, c.(charts := []));
    for j := 0 to |c.charts|
      invariant LastWins(before + [c.(charts := c.charts[..j])], strings)
    {
      LastWinsNewChart(before, c.(charts := c.charts[..j]), strings, c.charts[j]);
      assert c.charts[..j] + [c.charts[j]] == c.charts[..j + 1];
      strings := CopyStrings(strings, c.charts[j]);
    }
    assert c.(charts := c.charts[..|c.charts|]) == c;
  }

  /** `runDeploy`: the job ends succeeded exactly when the deploy did; a cleanup is attempted only then,
      and its failure is reported in the result but does not fail the job. */
  method RunDeploy(job: Job, st: Store, outcome: DeployOutcome, cleanup: bool)
    requires job.Valid() && job.status == Pending && st.Valid()
    modifies job, st`packages
    ensures job.Valid() && st.Valid()
    ensures job.status == Succeeded <==> outcome.DeployDone?
    ensures outcome.DeployError? ==>
      job.status == Failed && job.error == outcome.message && st.packages == old(st.packages)
    ensures outcome.DeployDone? ==>
      && job.result.Some? && job.result.value.Deployed?
      && |job.result.value.components| == |outcome.components|
      && (forall i | 0 <= i < |outcome.components| ::
            && job.result.value.components[i].0 == outcome.components[i].name
            && job.result.value.components[i].1 == outcome.components[i].status)
      && LastWins(outcome.components, job.result.value.connectStrings)
      && (job.result.value.packageDeleted <==> cleanup && ValidId(job.pkg) && job.pkg in old(st.packages))
      && st.packages == if cleanup then ApplyAll(old(st.packages), DeleteOps(old(st.packages), job.pkg))
                        else old(st.packages)
  {
    job.Start();
    match outcome {
      case DeployError(message) =>
        job.Fail(message);
      case DeployDone(components) =>
        var summaries, strings := Summarize(components);
        var deleted := false;
        if cleanup {
          deleted := st.Delete(job.pkg);
        }
        job.Succeed(Deployed(summaries, strings, deleted));
    }
  }

  /** `runRemove` */
  method RunRemove(job: Job, name: string, error: Option<string>)
    requires job.Valid() && job.status == Pending
    modifies job
    ensures job.Valid()
    ensures error.None? ==> job.status == Succeeded && job.result == Some(Removed(name))
    ensures error.Some? ==> job.status == Failed && job.error == error.value
  {
    job.Start();
    if error.Some? {
      job.Fail(error.value);
    } else {
      job.Succeed(Removed(name));
    }
  }
}
