/** The cap on upload sessions: the handler counts first and creates later. */
module SessionCap {
  import opened Common
  import opened PackageStore

  /** Sessions on disk, and requests that passed the count but have not created yet. */
  datatype State = State(sessions: nat, passed: nat)

  datatype Step = Count | Create | Remove

  const INIT := State(0, 0)

  /** `cap` is MaxUploadSessions; at most `c` requests are ever between count and create. */
  function Next(cap: int, c: nat, s: State, step: Step): Option<State> {
    match step
    case Count =>
      if s.passed >= c then None
      else if s.sessions >= cap then Some(s)   // 429
      else Some(s.(passed := s.passed + 1))
    case Create =>
      if s.passed > 0 then Some(State(s.sessions + 1, s.passed - 1)) else None
    case Remove =>
      if s.sessions > 0 then Some(s.(sessions := s.sessions - 1)) else None
  }

  function Exec(cap: int, c: nat, s: State, steps: seq<Step>): Option<State> {
    if steps == [] then Some(s) else
      match Exec(cap, c, s, steps[..|steps| - 1])
      case None => None
      case Some(m) => Next(cap, c, m, steps[|steps| - 1])
  }

  /** In every interleaving of creates, aborts and completes, sessions and passed requests
      together stay within the cap plus the c - 1 requests that may have counted too early. */
  lemma {:induction false} CapBound(cap: int, c: nat, steps: seq<Step>)
    requires Exec(cap, c, INIT, steps).Some?
    ensures var s := Exec(cap, c, INIT, steps).value;
            s.sessions + s.passed <= Max(0, cap - 1 + c) && s.passed <= c
  {
    if steps != [] {
      CapBound(cap, c, steps[..|steps| - 1]);
    }
  }

  function Times(step: seq<Step>, n: nat): seq<Step> {
    if n == 0 then [] else Times(step, n - 1) + step
  }

  lemma {:induction false} ExecAppend(cap: int, c: nat, s: State, a: seq<Step>, b: seq<Step>)
    requires Exec(cap, c, s, a).Some?
    ensures Exec(cap, c, s, a + b) == Exec(cap, c, Exec(cap, c, s, a).value, b)
  {
    if b == [] {
      assert a + b == a;
    } else {
      var n := |b| - 1;
      ExecAppend(cap, c, s, a, b[..n]);
      assert (a + b)[..|a + b| - 1] == a + b[..n];
    }
  }

  lemma ExecOne(cap: int, c: nat, s: State, step: Step)
    ensures Exec(cap, c, s, [step]) == Next(cap, c, s, step)
  {
    assert [step][..0] == [];
  }

  lemma {:induction false} Counts(cap: int, c: nat, s: State, n: nat)
    requires s.sessions < cap && s.passed + n <= c
    ensures Exec(cap, c, s, Times([Count], n)) == Some(s.(passed := s.passed + n))
  {
    if n > 0 {
      Counts(cap, c, s, n - 1);
      ExecAppend(cap, c, s, Times([Count], n - 1), [Count]);
      ExecOne(cap, c, s.(passed := s.passed + n - 1), Count);
    }
  }

  lemma {:induction false} Creates(cap: int, c: nat, s: State, n: nat)
    requires n <= s.passed
    ensures Exec(cap, c, s, Times([Create], n)) == Some(State(s.sessions + n, s.passed - n))
  {
    if n > 0 {
      Creates(cap, c, s, n - 1);
      ExecAppend(cap, c, s, Times([Create], n - 1), [Create]);
      ExecOne(cap, c, State(s.sessions + n - 1, s.passed - (n - 1)), Create);
    }
  }

  lemma {:induction false} Fill(cap: int, c: nat, n: nat)
    requires n <= cap && c >= 1
    ensures Exec(cap, c, INIT, Times([Count, Create], n)) == Some(State(n, 0))
  {
    if n > 0 {
      Fill(cap, c, n - 1);
      ExecAppend(cap, c, INIT, Times([Count, Create], n - 1), [Count, Create]);
      assert [Count, Create] == [Count] + [Create];
      ExecOne(cap, c, State(n - 1, 0), Count);
      ExecAppend(cap, c, State(n - 1, 0), [Count], [Create]);
      ExecOne(cap, c, State(n - 1, 1), Create);
    }
  }

  /** The bound is reached: c requests that all count at cap - 1 sessions all create. */
  function Overshoot(cap: int, c: nat): seq<Step>
    requires cap >= 1
  {
    Times([Count, Create], cap - 1) + Times([Count], c) + Times([Create], c)
  }

  lemma BoundReached(cap: int, c: nat)
    requires cap >= 1 && c >= 1
    ensures Exec(cap, c, INIT, Overshoot(cap, c)) == Some(State(cap - 1 + c, 0))
  {
    AllCounted(cap, c);
    var ab := Times([Count, Create], cap - 1) + Times([Count], c);
    Creates(cap, c, State(cap - 1, c), c);
    ExecAppend(cap, c, INIT, ab, Times([Create], c));
  }

  lemma AllCounted(cap: int, c: nat)
    requires cap >= 1 && c >= 1
    ensures Exec(cap, c, INIT, Times([Count, Create], cap - 1) + Times([Count], c)) == Some(State(cap - 1, c))
  {
    Fill(cap, c, cap - 1);
    Counts(cap, c, State(cap - 1, 0), c);
    ExecAppend(cap, c, INIT, Times([Count, Create], cap - 1), Times([Count], c));
  }

  ghost predicate CapHolds(cap: int, c: nat) {
    forall steps | Exec(cap, c, INIT, steps).Some? :: Exec(cap, c, INIT, steps).value.sessions <= cap
  }

  /** MaxUploadSessions is a real cap exactly when create requests never overlap. */
  lemma CapHoldsIffSerial(cap: int, c: nat)
    requires cap >= 1
    ensures CapHolds(cap, c) <==> c <= 1
  {
    if c <= 1 {
      forall steps | Exec(cap, c, INIT, steps).Some? ensures Exec(cap, c, INIT, steps).value.sessions <= cap {
        CapBound(cap, c, steps);
      }
    } else {
      BoundReached(cap, c);
      assert Exec(cap, c, INIT, Overshoot(cap, c)).value.sessions > cap;
    }
  }

  /** The handler, undisturbed: refuses at the cap, otherwise creates, and so keeps within the cap. */
  method UploadCreate(st: Store, cap: int, id: string, fileNameHint: string, shasum: string, now: int)
    returns (r: Option<Upload>)
    requires st.Valid() && UploadId(id) && id !in st.sessions
    modifies st`sessions
    ensures st.Valid()
    ensures r.None? <==> |old(st.sessions)| >= cap
    ensures r.None? ==> st.sessions == old(st.sessions)
    ensures r.Some? ==>
      && r.value == PackageStore.Upload(id, fileNameHint, shasum, now, map[])
      && st.sessions == old(st.sessions)[id := Session(r.value, map[])]
      && |st.sessions| <= cap
  {
    var count := st.CountUploads();
    if count >= cap {
      return None;
    }
    var u := st.CreateUpload(id, fileNameHint, shasum, now);
    assert st.sessions.Keys == old(st.sessions).Keys + {id};
    r := Some(u);
  }
}
