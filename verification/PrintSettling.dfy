/** Whether a settled print job keeps its status, and what a flush settles while other
    steps go on around it (desktop/src/main/offlineStore.ts:149-177). */
module PrintSettling {
  import opened Wrappers
  import opened LocalStore
  import opened DesktopShell
  import opened PrintQueue

  // ---- whether a settled job keeps its status ------------------------------------------------

  /** The job at the printer and those still to hand over. */
  function Tasks(f: Flush): seq<string> {
    (if f.printing.Some? then [f.printing.value] else []) + f.rest
  }

  predicate Distinct(ids: seq<string>) {
    forall i, j | 0 <= i < j < |ids| :: ids[i] != ids[j]
  }

  ghost predicate FlushSound(s: System, f: Flush) {
    Distinct(Tasks(f)) && forall id | id in Tasks(f) :: id in JobIds(s.jobs)
  }

  /** In every run job ids are unique, and a flush holds jobs of the table, each once. */
  ghost predicate Sound(s: System) {
    UniqueJobs(s) && forall f | 0 <= f < |s.flushes| :: FlushSound(s, s.flushes[f])
  }

  lemma SelectedIsSound(s: System)
    requires UniqueJobs(s)
    ensures FlushSound(s, Flush(None, Selected(s)))
  {
    PendingJobsUnique(s.jobs);
    assert Tasks(Flush(None, Selected(s))) == Selected(s);
    forall k | 0 <= k < |Selected(s)|
      ensures Selected(s)[k] in JobIds(s.jobs)
    {
      assert PendingJobs(s.jobs)[k] in s.jobs;
      var i :| 0 <= i < |s.jobs| && s.jobs[i] == PendingJobs(s.jobs)[k];
      assert JobIds(s.jobs)[i] == Selected(s)[k];
    }
  }

  lemma JobIdsGrow(s: System, a: Action)
    ensures |s.jobs| <= |Step(s, a).jobs| && JobIds(s.jobs) == JobIds(Step(s, a).jobs)[..|s.jobs|]
  {
  }

  /** What a step leaves to a flush is part of what it had. */
  lemma TasksAfterStep(s: System, a: Action, f: nat)
    requires !a.StartFlush? && !a.Restart? && f < |s.flushes|
    ensures f < |Step(s, a).flushes|
    ensures var was, now := Tasks(s.flushes[f]), Tasks(Step(s, a).flushes[f]);
            now == was || (was != [] && now == was[1..] && a.Done? && a.flush == f && s.flushes[f].printing == Some(was[0]))
  {
    if a.Hand? && a.flush == f && s.flushes[f].printing.None? && s.flushes[f].rest != [] {
      assert s.flushes[f].rest == [s.flushes[f].rest[0]] + s.flushes[f].rest[1..];
    }
  }

  lemma TasksShrink(s: System, a: Action, f: nat, id: string)
    requires !a.StartFlush? && !a.Restart? && f < |s.flushes|
    ensures f < |Step(s, a).flushes|
    ensures id in Tasks(Step(s, a).flushes[f]) ==> id in Tasks(s.flushes[f])
  {
    TasksAfterStep(s, a, f);
  }

  lemma FlushStaysSound(s: System, a: Action, f: nat)
    requires Sound(s) && !a.Restart? && f < |s.flushes|
    ensures f < |Step(s, a).flushes| && FlushSound(Step(s, a), Step(s, a).flushes[f])
  {
    JobIdsGrow(s, a);
    assert FlushSound(s, s.flushes[f]);
    if !a.StartFlush? { TasksAfterStep(s, a, f); }
    assert forall id | id in JobIds(s.jobs) :: id in JobIds(Step(s, a).jobs);
  }

  lemma StepKeepsSound(s: System, a: Action)
    requires Sound(s)
    ensures Sound(Step(s, a))
  {
    var s' := Step(s, a);
    UniqueAfterStep(s, a);
    forall f: nat | f < |s'.flushes|
      ensures FlushSound(s', s'.flushes[f])
    {
      if f < |s.flushes| {
        FlushStaysSound(s, a, f);
      } else {
        SelectedIsSound(s);
      }
    }
  }

  lemma UniqueAfterStep(s: System, a: Action)
    requires UniqueJobs(s)
    ensures UniqueJobs(Step(s, a))
  {
    if a.Queue? {
      assert forall i | 0 <= i < |s.jobs| :: s.jobs[i].id == JobIds(s.jobs)[i];
    }
  }

  lemma {:induction false} SoundHolds(actions: seq<Action>)
    ensures Sound(Exec(START, actions))
    decreases |actions|
  {
    if actions != [] {
      SoundHolds(actions[..|actions| - 1]);
      StepKeepsSound(Exec(START, actions[..|actions| - 1]), actions[|actions| - 1]);
    }
  }

  ghost predicate HeldOnce(s: System, f: nat, g: nat)
    requires f < |s.flushes| && g < |s.flushes|
  {
    forall id | id in Tasks(s.flushes[f]) :: id !in Tasks(s.flushes[g])
  }

  ghost predicate HoldsPending(s: System, f: nat, i: nat)
    requires f < |s.flushes| && i < |s.jobs|
  {
    s.jobs[i].id in Tasks(s.flushes[f]) ==> s.jobs[i].status == JobPending
  }

  /** No two flushes hold the same job, and what a flush holds is not settled. */
  ghost predicate Exclusive(s: System) {
    && (forall f: nat, g: nat | f < |s.flushes| && g < |s.flushes| && f != g :: HeldOnce(s, f, g))
    && (forall f: nat, i: nat | f < |s.flushes| && i < |s.jobs| :: HoldsPending(s, f, i))
  }

  ghost predicate NoStart(actions: seq<Action>) {
    forall a | a in actions :: !a.StartFlush?
  }

  /** However the flushes under way go on, a job that is settled keeps its status. */
  ghost predicate SettledIsStable(s: System) {
    forall first, second, i: nat | NoStart(first) && NoStart(second) :: KeepsStatus(s, first, second, i)
  }

  predicate KeepsStatus(s: System, first: seq<Action>, second: seq<Action>, i: nat) {
    var between, end := Exec(s, first), Exec(Exec(s, first), second);
    i < |between.jobs| && i < |end.jobs| && between.jobs[i].status != JobPending ==>
      end.jobs[i].status == between.jobs[i].status
  }

  lemma PrintingIsTask(s: System, f: nat)
    requires f < |s.flushes| && s.flushes[f].printing.Some?
    ensures s.flushes[f].printing.value in Tasks(s.flushes[f])
  {
    assert Tasks(s.flushes[f])[0] == s.flushes[f].printing.value;
  }

  lemma StepKeepsSettled(s: System, a: Action, i: nat)
    requires Exclusive(s) && i < |s.jobs| && s.jobs[i].status != JobPending
    ensures i < |Step(s, a).jobs| && Step(s, a).jobs[i] == s.jobs[i]
  {
    if a.Done? && a.flush < |s.flushes| && s.flushes[a.flush].printing.Some? {
      PrintingIsTask(s, a.flush);
      assert HoldsPending(s, a.flush, i);
    }
  }

  /** After its print a job is with no flush any more. */
  lemma DoneLeaves(s: System, f: nat, ok: bool, g: nat)
    requires Sound(s) && Exclusive(s) && f < |s.flushes| && g < |s.flushes| && s.flushes[f].printing.Some?
    ensures s.flushes[f].printing.value !in Tasks(Step(s, Done(f, ok)).flushes[g])
  {
    var id := s.flushes[f].printing.value;
    PrintingIsTask(s, f);
    assert FlushSound(s, s.flushes[f]);
    TasksAfterStep(s, Done(f, ok), g);
    if g == f {
      var was := Tasks(s.flushes[f]);
      assert was[0] == id;
      assert forall k | 0 <= k < |was| - 1 :: was[1..][k] == was[k + 1];
      assert Tasks(Step(s, Done(f, ok)).flushes[f]) == was[1..];
    } else {
      assert HeldOnce(s, f, g);
    }
  }

  lemma NewJobIsFree(s: System, job: PrintJob, f: nat)
    requires Sound(s) && f < |s.flushes| && job.id !in JobIds(s.jobs)
    ensures job.id !in Tasks(s.flushes[f])
  {
    assert FlushSound(s, s.flushes[f]);
  }

  lemma DoneSparesHeld(s: System, f: nat, ok: bool, g: nat, i: nat)
    requires Sound(s) && Exclusive(s) && g < |s.flushes| && i < |s.jobs|
    requires s.jobs[i].id in Tasks(Step(s, Done(f, ok)).flushes[g])
    ensures Step(s, Done(f, ok)).jobs[i] == s.jobs[i]
  {
    if f < |s.flushes| && s.flushes[f].printing.Some? {
      DoneLeaves(s, f, ok, g);
    }
  }

  lemma StaysPending(s: System, a: Action, f: nat, i: nat)
    requires Sound(s) && Exclusive(s) && !a.StartFlush? && !a.Restart? && f < |s.flushes| && i < |s.jobs|
    ensures f < |Step(s, a).flushes| && HoldsPending(Step(s, a), f, i)
  {
    TasksShrink(s, a, f, s.jobs[i].id);
    if s.jobs[i].id in Tasks(Step(s, a).flushes[f]) {
      assert HoldsPending(s, f, i);
      if a.Done? {
        DoneSparesHeld(s, a.flush, a.ok, f, i);
      }
    }
  }

  lemma QueuedIsFree(s: System, a: Action, f: nat, i: nat)
    requires Sound(s) && !a.StartFlush? && !a.Restart? && f < |s.flushes| && |s.jobs| <= i < |Step(s, a).jobs|
    ensures f < |Step(s, a).flushes| && HoldsPending(Step(s, a), f, i)
  {
    TasksShrink(s, a, f, a.job.id);
    NewJobIsFree(s, a.job, f);
  }

  lemma StepKeepsExclusive(s: System, a: Action)
    requires Sound(s) && Exclusive(s) && !a.StartFlush?
    ensures Exclusive(Step(s, a))
  {
    var s' := Step(s, a);
    if !a.Restart? {
      forall f: nat, g: nat | f < |s'.flushes| && g < |s'.flushes| && f != g
        ensures HeldOnce(s', f, g)
      {
        assert HeldOnce(s, f, g);
        TasksAfterStep(s, a, f);
        TasksAfterStep(s, a, g);
      }
      forall f: nat, i: nat | f < |s'.flushes| && i < |s'.jobs|
        ensures HoldsPending(s', f, i)
      {
        if i < |s.jobs| {
          StaysPending(s, a, f, i);
        } else {
          QueuedIsFree(s, a, f, i);
        }
      }
    }
  }

  lemma {:induction false} ExclusiveRun(s: System, actions: seq<Action>, i: nat)
    requires Sound(s) && Exclusive(s) && NoStart(actions)
    ensures Sound(Exec(s, actions)) && Exclusive(Exec(s, actions))
    ensures i < |s.jobs| && s.jobs[i].status != JobPending ==>
              i < |Exec(s, actions).jobs| && Exec(s, actions).jobs[i] == s.jobs[i]
    decreases |actions|
  {
    if actions != [] {
      var n := |actions| - 1;
      assert actions[n] in actions && forall a | a in actions[..n] :: a in actions;
      ExclusiveRun(s, actions[..n], i);
      var before := Exec(s, actions[..n]);
      StepKeepsSound(before, actions[n]);
      StepKeepsExclusive(before, actions[n]);
      if i < |s.jobs| && s.jobs[i].status != JobPending {
        StepKeepsSettled(before, actions[n], i);
      }
    }
  }

  // ---- and when it does not -------------------------------------------------------------------

  /** Flush `f` takes its next step. */
  function NextOf(s: System, f: nat, ok: bool): Action
    requires f < |s.flushes|
  {
    if s.flushes[f].printing.Some? then Done(f, ok) else Hand(f)
  }

  lemma NextSparesOthers(s: System, f: nat, ok: bool, g: nat)
    requires f < |s.flushes|
    ensures var s' := Step(s, NextOf(s, f, ok));
            && |s'.flushes| == |s.flushes| && JobIds(s'.jobs) == JobIds(s.jobs)
            && (g < |s.flushes| && g != f ==> s'.flushes[g] == s.flushes[g])
  {
    assert JobIds(Step(s, NextOf(s, f, ok)).jobs) == JobIds(s.jobs);
  }

  /** Let flush `f` go on until it has printed the job, with the outcome `ok`. */
  lemma {:induction false} BringTo(s: System, f: nat, id: string, ok: bool, g: nat, i: nat) returns (actions: seq<Action>)
    requires f < |s.flushes| && id in Tasks(s.flushes[f])
    requires i < |s.jobs| && s.jobs[i].id == id
    ensures NoStart(actions)
    ensures var s' := Exec(s, actions);
            && i < |s'.jobs| && s'.jobs[i].id == id && s'.jobs[i].status == JobOutcome(ok)
            && (g < |s.flushes| && g != f ==> g < |s'.flushes| && s'.flushes[g] == s.flushes[g])
    decreases 2 * |s.flushes[f].rest| + if s.flushes[f].printing.Some? then 1 else 0
  {
    var a := NextOf(s, f, ok);
    var s' := Step(s, a);
    NextSparesOthers(s, f, ok, g);
    assert JobIds(s'.jobs)[i] == JobIds(s.jobs)[i];
    if s.flushes[f].printing == Some(id) {
      actions := [a] + [];
      ExecCons(s, a, []);
    } else {
      assert id in Tasks(s'.flushes[f]);
      var rest := BringTo(s', f, id, ok, g, i);
      actions := [a] + rest;
      ExecCons(s, a, rest);
    }
  }

  lemma HeldSettledUnstable(s: System, f: nat, i: nat)
    requires f < |s.flushes| && i < |s.jobs| && !HoldsPending(s, f, i)
    ensures !SettledIsStable(s)
  {
    var actions := BringTo(s, f, s.jobs[i].id, s.jobs[i].status == PrintFailed, f, i);
    assert NoStart([]) && Exec(s, []) == s;
    assert !KeepsStatus(s, [], actions, i);
  }

  lemma HeldTwiceUnstable(s: System, f: nat, g: nat)
    requires Sound(s) && f < |s.flushes| && g < |s.flushes| && f != g && !HeldOnce(s, f, g)
    ensures !SettledIsStable(s)
  {
    var id :| id in Tasks(s.flushes[f]) && id in Tasks(s.flushes[g]);
    assert FlushSound(s, s.flushes[f]);
    var i: nat :| i < |s.jobs| && JobIds(s.jobs)[i] == id;
    var first := BringTo(s, f, id, true, g, i);
    var second := BringTo(Exec(s, first), g, id, false, g, i);
    assert !KeepsStatus(s, first, second, i);
  }

  lemma ExclusiveIsStable(s: System)
    requires Sound(s) && Exclusive(s)
    ensures SettledIsStable(s)
  {
    forall first, second, i: nat | NoStart(first) && NoStart(second)
      ensures KeepsStatus(s, first, second, i)
    {
      ExclusiveRun(s, first, i);
      ExclusiveRun(Exec(s, first), second, i);
    }
  }

  /** From any point of any run: whatever the flushes under way do next, no settled job
      changes its status, if and only if no two of them hold the same job and none holds a
      settled one. With two flushes over one job, one can write printed and the other
      failed afterwards. */
  lemma SettledIsStableIff(actions: seq<Action>)
    ensures SettledIsStable(Exec(START, actions)) <==> Exclusive(Exec(START, actions))
  {
    SoundHolds(actions);
    var s := Exec(START, actions);
    if Exclusive(s) {
      ExclusiveIsStable(s);
    } else if f: nat, g: nat :| f < |s.flushes| && g < |s.flushes| && f != g && !HeldOnce(s, f, g) {
      HeldTwiceUnstable(s, f, g);
    } else {
      var f: nat, i: nat :| f < |s.flushes| && i < |s.jobs| && !HoldsPending(s, f, i);
      HeldSettledUnstable(s, f, i);
    }
  }

  lemma ExecTwo(s: System, a: Action, b: Action, rest: seq<Action>)
    ensures Exec(s, [a, b] + rest) == Exec(Step(Step(s, a), b), rest)
  {
    assert [a, b] + rest == [a] + ([b] + rest);
    ExecCons(s, a, [b] + rest);
    ExecCons(Step(s, a), b, rest);
  }

  /** Two flushes that start one after the other; the first gets its job printed. */
  const BOTH := [StartFlush, StartFlush, Hand(0), Hand(1), Done(0, true)]

  lemma RunBoth(s: System)
    ensures Exec(s, BOTH) == Step(Step(Step(Step(Step(s, StartFlush), StartFlush), Hand(0)), Hand(1)), Done(0, true))
  {
    var s2 := Step(Step(s, StartFlush), StartFlush);
    ExecTwo(s, StartFlush, StartFlush, [Hand(0), Hand(1), Done(0, true)]);
    ExecTwo(s2, Hand(0), Hand(1), [Done(0, true)]);
    assert [Done(0, true)][..0] == [];
    assert BOTH == [StartFlush, StartFlush] + [Hand(0), Hand(1), Done(0, true)];
    assert [Hand(0), Hand(1), Done(0, true)] == [Hand(0), Hand(1)] + [Done(0, true)];
  }

  /** Two flushes read the one queued job and both hand it to the printer; the first ends
      well and the second fails, so a ticket that was printed ends as failed. */
  lemma OverlapUnsettles(job: PrintJob)
    ensures Exec(START, [Queue(job)] + BOTH).jobs == [job.(status := Printed)]
    ensures Exec(START, [Queue(job)] + BOTH + [Done(1, false)]).jobs == [job.(status := PrintFailed)]
  {
    var s1 := System([job.(status := JobPending)], [], []);
    assert Step(START, Queue(job)) == s1;
    assert Selected(s1) == [job.id] by {
      assert PendingJobs(s1.jobs) == s1.jobs;
    }
    var one := Flush(None, [job.id]);
    var s2 := Step(Step(s1, StartFlush), StartFlush);
    assert s2 == System(s1.jobs, [one, one], []);
    var held := Flush(Some(job.id), []);
    assert one.rest[1..] == [];
    var s3 := Step(Step(s2, Hand(0)), Hand(1));
    assert Step(s2, Hand(0)) == System(s1.jobs, [held, one], [job.id]);
    assert s3 == System(s1.jobs, [held, held], [job.id, job.id]);
    var s4 := Step(s3, Done(0, true));
    assert s4.jobs == [job.(status := Printed)];
    assert s4.flushes[1] == held;
    RunBoth(s1);
    ExecCons(START, Queue(job), BOTH);
    var all := [Queue(job)] + BOTH + [Done(1, false)];
    assert all[..|all| - 1] == [Queue(job)] + BOTH;
  }

  // ---- flushes that do not overlap --------------------------------------------------------------

  lemma EndedHoldsNothing(s: System, f: nat)
    requires f < |s.flushes| && forall flush | flush in s.flushes :: Ended(flush)
    ensures Tasks(s.flushes[f]) == []
  {
    assert s.flushes[f] in s.flushes;
  }

  lemma SelectedIsPending(s: System, i: nat)
    requires UniqueJobs(s) && i < |s.jobs| && s.jobs[i].id in Selected(s)
    ensures s.jobs[i].status == JobPending
  {
    PendingJobsUnique(s.jobs);
    var k :| 0 <= k < |Selected(s)| && Selected(s)[k] == s.jobs[i].id;
    assert PendingJobs(s.jobs)[k] in s.jobs;
    var j :| 0 <= j < |s.jobs| && s.jobs[j] == PendingJobs(s.jobs)[k];
    assert !(i < j) && !(j < i);
  }

  lemma StartKeepsExclusive(s: System)
    requires Sound(s) && forall flush | flush in s.flushes :: Ended(flush)
    ensures Exclusive(Step(s, StartFlush))
  {
    var s', n := Step(s, StartFlush), |s.flushes|;
    assert Tasks(s'.flushes[n]) == Selected(s);
    forall f: nat | f < n ensures Tasks(s'.flushes[f]) == [] {
      EndedHoldsNothing(s, f);
    }
    forall f: nat, g: nat | f < |s'.flushes| && g < |s'.flushes| && f != g
      ensures HeldOnce(s', f, g)
    {
      assert Tasks(s'.flushes[f]) == [] || Tasks(s'.flushes[g]) == [];
    }
    forall f: nat, i: nat | f < |s'.flushes| && i < |s'.jobs|
      ensures HoldsPending(s', f, i)
    {
      if f == n && s.jobs[i].id in Selected(s) { SelectedIsPending(s, i); }
    }
  }

  /** The states of a run, one more than its actions. */
  ghost predicate Next(states: seq<System>, actions: seq<Action>, k: nat)
    requires k + 1 < |states| && k < |actions|
  {
    states[k + 1] == Step(states[k], actions[k])
  }

  ghost predicate Trace(states: seq<System>, actions: seq<Action>) {
    |states| == |actions| + 1 && forall k: nat | k < |actions| :: Next(states, actions, k)
  }

  function States(actions: seq<Action>): (states: seq<System>)
    ensures |states| == |actions| + 1
  {
    seq(|actions| + 1, n requires 0 <= n <= |actions| => Exec(START, actions[..n]))
  }

  lemma StatesAreTrace(actions: seq<Action>)
    ensures Trace(States(actions), actions)
    ensures States(actions)[|actions|] == Exec(START, actions)
  {
    forall k: nat | k < |actions| ensures Next(States(actions), actions, k) {
      var next := k + 1;
      assert actions[..next][..k] == actions[..k];
      assert Exec(START, actions[..next]) == Step(Exec(START, actions[..k]), actions[k]);
    }
    assert actions[..|actions|] == actions;
  }

  lemma SerializedPrefix(actions: seq<Action>, n: nat)
    requires Serialized(actions) && n <= |actions|
    ensures Serialized(actions[..n])
  {
    assert forall m | 0 <= m < n :: actions[..n][..m] == actions[..m] && actions[..n][m] == actions[m];
  }

  lemma {:induction false} SerializedIsExclusive(actions: seq<Action>)
    requires Serialized(actions)
    ensures Exclusive(Exec(START, actions))
    decreases |actions|
  {
    if actions != [] {
      var n := |actions| - 1;
      var before := Exec(START, actions[..n]);
      SerializedPrefix(actions, n);
      SerializedIsExclusive(actions[..n]);
      SoundHolds(actions[..n]);
      if actions[n].StartFlush? {
        StartKeepsExclusive(before);
      } else {
        StepKeepsExclusive(before, actions[n]);
      }
    }
  }

  lemma ExclusiveAt(actions: seq<Action>, n: nat)
    requires Serialized(actions) && n <= |actions|
    ensures Exclusive(Exec(START, actions[..n]))
  {
    SerializedPrefix(actions, n);
    SerializedIsExclusive(actions[..n]);
  }

  lemma {:induction false} SettledInTrace(states: seq<System>, actions: seq<Action>, n: nat, m: nat, i: nat)
    requires Trace(states, actions) && n <= m <= |actions|
    requires forall k: nat | k <= |actions| :: Exclusive(states[k])
    requires i < |states[n].jobs| && states[n].jobs[i].status != JobPending
    ensures i < |states[m].jobs| && states[m].jobs[i] == states[n].jobs[i]
    decreases m
  {
    if n < m {
      SettledInTrace(states, actions, n, m - 1, i);
      assert Next(states, actions, m - 1);
      StepKeepsSettled(states[m - 1], actions[m - 1], i);
    }
  }

  /** With serialized flushes a status moves only out of pending: a settled job stays as it
      is to the end of the run. */
  lemma SettledIsFinal(actions: seq<Action>, n: nat, i: nat)
    requires Serialized(actions) && n <= |actions| && i < |Exec(START, actions[..n]).jobs|
    requires Exec(START, actions[..n]).jobs[i].status != JobPending
    ensures i < |Exec(START, actions).jobs| && Exec(START, actions).jobs[i] == Exec(START, actions[..n]).jobs[i]
  {
    StatesAreTrace(actions);
    forall k: nat | k <= |actions| ensures Exclusive(States(actions)[k]) {
      ExclusiveAt(actions, k);
    }
    SettledInTrace(States(actions), actions, n, |actions|, i);
  }

  /** A job that a flush has read is still with it, or has been settled. */
  ghost predicate WithOrSettled(s: System, f: nat, i: nat) {
    && f < |s.flushes| && i < |s.jobs|
    && (s.jobs[i].id in Tasks(s.flushes[f]) || s.jobs[i].status != JobPending)
  }

  lemma StepKeepsWith(s: System, a: Action, f: nat, i: nat)
    requires WithOrSettled(s, f, i) && !a.Restart?
    ensures WithOrSettled(Step(s, a), f, i)
  {
    if !a.StartFlush? {
      TasksAfterStep(s, a, f);
      var was := Tasks(s.flushes[f]);
      assert was == [] || was == [was[0]] + was[1..];
    }
  }

  lemma {:induction false} ReadIsSettled(states: seq<System>, actions: seq<Action>, n: nat, m: nat, f: nat, i: nat)
    requires Trace(states, actions) && n <= m <= |actions| && WithOrSettled(states[n], f, i)
    requires forall k | n <= k < |actions| :: !actions[k].Restart?
    ensures WithOrSettled(states[m], f, i)
    decreases m
  {
    if n < m {
      ReadIsSettled(states, actions, n, m - 1, f, i);
      assert Next(states, actions, m - 1);
      StepKeepsWith(states[m - 1], actions[m - 1], f, i);
    }
  }

  lemma StartReads(s: System, i: nat)
    requires UniqueJobs(s) && i < |s.jobs| && s.jobs[i].status == JobPending
    ensures WithOrSettled(Step(s, StartFlush), |s.flushes|, i)
  {
    PendingJobsUnique(s.jobs);
    assert s.jobs[i] in PendingJobs(s.jobs);
    var k :| 0 <= k < |PendingJobs(s.jobs)| && PendingJobs(s.jobs)[k] == s.jobs[i];
    assert Selected(s)[k] == s.jobs[i].id && Tasks(Flush(None, Selected(s))) == Selected(s);
  }

  /** In every run in which the shell keeps running, overlapping or not: once a flush has
      ended, each job that was pending when it started has been settled. */
  lemma {:induction false} FlushSettlesWhatItRead(actions: seq<Action>, n: nat, i: nat)
    requires n < |actions| && actions[n] == StartFlush && forall k | n < k < |actions| :: !actions[k].Restart?
    requires var s := Exec(START, actions[..n]); i < |s.jobs| && s.jobs[i].status == JobPending
    ensures var f, s := |Exec(START, actions[..n]).flushes|, Exec(START, actions);
            && f < |s.flushes| && i < |s.jobs|
            && (Ended(s.flushes[f]) ==> s.jobs[i].status != JobPending)
  {
    SoundHolds(actions[..n]);
    StatesAreTrace(actions);
    assert Next(States(actions), actions, n);
    StartReads(Exec(START, actions[..n]), i);
    ReadIsSettled(States(actions), actions, n + 1, |actions|, |Exec(START, actions[..n]).flushes|, i);
  }

  /** With serialized flushes, and steps of any other kind in between but restarts since
      then: the flush started at step `n`, once it has ended, has settled exactly the jobs that were pending then;
      the settled ones are untouched, and those queued meanwhile are still pending. */
  lemma {:induction false} FlushSettlesExactly(actions: seq<Action>, n: nat, i: nat)
    requires Serialized(actions) && LastStart(actions, n)
    requires var f := |Exec(START, actions[..n]).flushes|;
             f < |Exec(START, actions).flushes| && Ended(Exec(START, actions).flushes[f])
    requires i < |Exec(START, actions).jobs|
    ensures var s0, s := Exec(START, actions[..n]), Exec(START, actions);
            && (i < |s0.jobs| && s0.jobs[i].status == JobPending ==> s.jobs[i].status != JobPending)
            && (i < |s0.jobs| && s0.jobs[i].status != JobPending ==> s.jobs[i] == s0.jobs[i])
            && (i >= |s0.jobs| ==> s.jobs[i].status == JobPending)
  {
    if i >= |Exec(START, actions[..n]).jobs| {
      QueuedStaysPending(actions, n, i);
    } else if Exec(START, actions[..n]).jobs[i].status == JobPending {
      FlushSettlesWhatItRead(actions, n, i);
    } else {
      SettledIsFinal(actions, n, i);
    }
  }

  /** The job is pending, and with no flush. */
  ghost predicate Free(s: System, i: nat) {
    && i < |s.jobs| && s.jobs[i].status == JobPending
    && forall f: nat | f < |s.flushes| :: s.jobs[i].id !in Tasks(s.flushes[f])
  }

  ghost predicate LastStart(actions: seq<Action>, n: nat) {
    && n < |actions| && actions[n] == StartFlush
    && forall k | n < k < |actions| :: !actions[k].StartFlush? && !actions[k].Restart?
  }

  lemma {:induction false} FreeInTrace(states: seq<System>, actions: seq<Action>, n: nat, m: nat, i: nat)
    requires Trace(states, actions) && LastStart(actions, n) && n < m <= |actions|
    requires forall k: nat | k <= |actions| :: Sound(states[k])
    requires |states[n].jobs| <= i < |states[m].jobs|
    ensures Free(states[m], i)
    decreases m
  {
    assert Next(states, actions, m - 1);
    if m - 1 > n {
      if i < |states[m - 1].jobs| {
        FreeInTrace(states, actions, n, m - 1, i);
      }
      FreeNext(states[m - 1], actions[m - 1], i);
    }
  }

  lemma QueuedStaysPending(actions: seq<Action>, n: nat, i: nat)
    requires LastStart(actions, n)
    requires |Exec(START, actions[..n]).jobs| <= i < |Exec(START, actions).jobs|
    ensures Free(Exec(START, actions), i)
  {
    StatesAreTrace(actions);
    forall k: nat | k <= |actions| ensures Sound(States(actions)[k]) {
      SoundHolds(actions[..k]);
    }
    FreeInTrace(States(actions), actions, n, |actions|, i);
  }

  lemma FreeNext(s: System, a: Action, i: nat)
    requires Sound(s) && i < |Step(s, a).jobs| && (i < |s.jobs| ==> Free(s, i)) && !a.StartFlush? && !a.Restart?
    ensures Free(Step(s, a), i)
  {
    if i < |s.jobs| {
      FreeStaysFree(s, a, i);
    } else {
      NewIsFree(s, a, i);
    }
  }

  lemma NewIsFree(s: System, a: Action, i: nat)
    requires Sound(s) && |s.jobs| <= i < |Step(s, a).jobs|
    ensures Free(Step(s, a), i)
  {
    forall f: nat | f < |s.flushes| ensures a.job.id !in Tasks(s.flushes[f]) {
      NewJobIsFree(s, a.job, f);
    }
  }

  lemma FreeStaysFree(s: System, a: Action, i: nat)
    requires Free(s, i) && !a.StartFlush? && !a.Restart?
    ensures Free(Step(s, a), i) && Step(s, a).jobs[i] == s.jobs[i]
  {
    if a.Done? && a.flush < |s.flushes| && s.flushes[a.flush].printing.Some? {
      PrintingIsTask(s, a.flush);
    }
    forall f: nat | f < |Step(s, a).flushes|
      ensures s.jobs[i].id !in Tasks(Step(s, a).flushes[f])
    {
      TasksShrink(s, a, f, s.jobs[i].id);
    }
  }

  // ---- restarts ---------------------------------------------------------------------------------

  lemma PrintingIsPending(s: System, f: nat) returns (i: nat)
    requires Sound(s) && Exclusive(s) && f < |s.flushes| && s.flushes[f].printing.Some?
    ensures i < |s.jobs| && s.jobs[i].id == s.flushes[f].printing.value && s.jobs[i].status == JobPending
  {
    PrintingIsTask(s, f);
    assert FlushSound(s, s.flushes[f]);
    i :| 0 <= i < |s.jobs| && JobIds(s.jobs)[i] == s.flushes[f].printing.value;
    assert HoldsPending(s, f, i);
  }

  /** The guard on restarts is exact: from any point of a serialized run, the flush after a
      restart can print a job again if and only if a job was at the printer. */
  lemma RestartIsSafeIff(actions: seq<Action>)
    requires Serialized(actions) && QuietRestarts(actions)
    ensures var s := Exec(START, actions);
            !AtPrinter(s) <==> forall id :: !CanReprint(Step(Step(s, Restart), StartFlush), id)
  {
    var s := Exec(START, actions);
    var s1 := Step(s, Restart);
    SerializedIsAccounted(actions);
    JobsStayUnique(actions);
    StepExposure(s, Restart);
    StartIsSafeIff(s1);
    if AtPrinter(s) {
      var f :| 0 <= f < |s.flushes| && s.flushes[f].printing.Some?;
      SoundHolds(actions);
      SerializedIsExclusive(actions);
      SettledStaysHanded(actions);
      var i := PrintingIsPending(s, f);
      StartReads(s1, i);
      assert s1.jobs[i].id in Selected(s1) && s1.jobs[i].id in Exposure(s1);
    } else {
      RestartKeepsAccounted(s);
      SerializedStartIsQuiet(s1);
    }
  }

  function AcrossRestart(job: PrintJob): seq<Action> {
    [Queue(job), StartFlush, Hand(0), Restart, StartFlush, Hand(0)]
  }

  lemma ReadAndHanded(s: System, job: PrintJob)
    requires s.jobs == [job.(status := JobPending)] && s.flushes == []
    ensures var s' := Step(Step(s, StartFlush), Hand(0));
            s' == System(s.jobs, [Flush(Some(job.id), [])], s.handed + [job.id])
  {
    assert PendingJobs(s.jobs) == s.jobs;
    assert Selected(s) == [job.id];
    assert Step(s, StartFlush) == System(s.jobs, [Flush(None, [job.id])], s.handed);
    assert [job.id][1..] == [];
  }

  lemma ExecThree(s: System, a: Action, b: Action, c: Action, rest: seq<Action>)
    ensures Exec(s, [a, b, c] + rest) == Exec(Step(Step(Step(s, a), b), c), rest)
  {
    assert [a, b, c] + rest == [a, b] + ([c] + rest);
    ExecTwo(s, a, b, [c] + rest);
    ExecCons(Step(Step(s, a), b), c, rest);
  }

  lemma AcrossRestartIsExec(job: PrintJob)
    ensures var s2 := Step(Step(Step(START, Queue(job)), StartFlush), Hand(0));
            Exec(START, AcrossRestart(job)) == Step(Step(Step(s2, Restart), StartFlush), Hand(0))
  {
    var first, second := [Queue(job), StartFlush, Hand(0)], [Restart, StartFlush, Hand(0)];
    assert AcrossRestart(job) == first + second;
    ExecThree(START, Queue(job), StartFlush, Hand(0), second);
    assert second + [] == second;
    ExecThree(Exec(START, first), Restart, StartFlush, Hand(0), []);
    assert first + [] == first;
    ExecThree(START, Queue(job), StartFlush, Hand(0), []);
  }

  lemma AcrossRestartSerialized(job: PrintJob)
    ensures Serialized(AcrossRestart(job))
  {
    var actions := AcrossRestart(job);
    assert actions[..1][..0] == [] && actions[..1][0] == Queue(job);
    assert actions[..4][3] == Restart;
  }

  /** The shell restarts while the one job is at the printer, and the next flush hands it
      over again; no two flushes overlap. */
  lemma RestartReprints(job: PrintJob)
    ensures Serialized(AcrossRestart(job))
    ensures Exec(START, AcrossRestart(job)).handed == [job.id, job.id]
  {
    var s1 := Step(START, Queue(job));
    ReadAndHanded(s1, job);
    ReadAndHanded(Step(Step(Step(s1, StartFlush), Hand(0)), Restart), job);
    AcrossRestartIsExec(job);
    AcrossRestartSerialized(job);
  }

  // ---- the method is a run --------------------------------------------------------------------------

  lemma {:induction false} SettleJobsCons(jobs: seq<PrintJob>, done: seq<PrintJob>, oks: seq<bool>)
    requires |done| == |oks| && done != []
    ensures SettleJobs(jobs, done, oks) == SettleJobs(MarkJob(jobs, done[0].id, JobOutcome(oks[0])), done[1..], oks[1..])
    decreases |done|
  {
    var n := |done| - 1;
    if n > 0 {
      SettleJobsCons(jobs, done[..n], oks[..n]);
      assert done[1..][..n - 1] == done[..n][1..] && oks[1..][..n - 1] == oks[..n][1..];
      assert done[1..][n - 1] == done[n] && oks[1..][n - 1] == oks[n];
    } else {
      assert done[..0] == [] && oks[..0] == [] && done[1..] == [] && oks[1..] == [];
    }
  }

  lemma {:induction false} RestOfFlush(s: System, f: nat, done: seq<PrintJob>, oks: seq<bool>) returns (actions: seq<Action>)
    requires f < |s.flushes| && s.flushes[f] == Flush(None, JobIds(done)) && |oks| == |done|
    ensures Exec(s, actions).jobs == SettleJobs(s.jobs, done, oks)
    ensures Exec(s, actions).handed == s.handed + JobIds(done)
    decreases |done|
  {
    if done == [] {
      actions := [];
    } else {
      PrintOne(s, f, done, oks[0]);
      var rest := RestOfFlush(Step(Step(s, Hand(f)), Done(f, oks[0])), f, done[1..], oks[1..]);
      SettleJobsCons(s.jobs, done, oks);
      ExecTwo(s, Hand(f), Done(f, oks[0]), rest);
      actions := [Hand(f), Done(f, oks[0])] + rest;
      HeadId(s.handed, done);
    }
  }

  lemma HeadId(handed: seq<string>, done: seq<PrintJob>)
    requires done != []
    ensures handed + JobIds(done) == handed + [done[0].id] + JobIds(done[1..])
  {
  }

  lemma PrintOne(s: System, f: nat, done: seq<PrintJob>, ok: bool)
    requires f < |s.flushes| && done != [] && s.flushes[f] == Flush(None, JobIds(done))
    ensures var s' := Step(Step(s, Hand(f)), Done(f, ok));
            && s'.jobs == MarkJob(s.jobs, done[0].id, JobOutcome(ok)) && s'.handed == s.handed + [done[0].id]
            && f < |s'.flushes| && s'.flushes[f] == Flush(None, JobIds(done[1..]))
  {
    assert JobIds(done)[1..] == JobIds(done[1..]);
  }

  /** What the method FlushLocalPrintJobs does is what some run does: the theorems on runs
      cover it. */
  lemma FlushIsARun(s: System, oks: seq<bool>) returns (actions: seq<Action>)
    requires |oks| == |PendingJobs(s.jobs)|
    ensures var s' := Exec(s, actions);
            && s'.jobs == SettleJobs(s.jobs, PendingJobs(s.jobs), oks)
            && s'.handed == s.handed + JobIds(PendingJobs(s.jobs))
  {
    var rest := RestOfFlush(Step(s, StartFlush), |s.flushes|, PendingJobs(s.jobs), oks);
    actions := [StartFlush] + rest;
    ExecCons(s, StartFlush, rest);
  }
}
