/** The local print queue under overlapping flushes (desktop/src/main/offlineStore.ts:
    149-177; a timer, the offline branch and an IPC call all start flushes, and none
    waits for another). */
module PrintQueue {
  import opened Wrappers
  import opened LocalStore
  import opened DesktopShell

  /** A flush: the job at the printer, and the ids it has read and not handed over. */
  datatype Flush = Flush(printing: Option<string>, rest: seq<string>)

  datatype System = System(jobs: seq<PrintJob>, flushes: seq<Flush>, handed: seq<string>)

  datatype Action =
    | Queue(job: PrintJob)
    | StartFlush
    | Hand(flush: nat)
    | Done(flush: nat, ok: bool)
    | Restart

  function JobIds(jobs: seq<PrintJob>): (ids: seq<string>)
    ensures |ids| == |jobs|
  {
    seq(|jobs|, i requires 0 <= i < |jobs| => jobs[i].id)
  }

  function Selected(s: System): seq<string> {
    JobIds(PendingJobs(s.jobs))
  }

  function Step(s: System, a: Action): System {
    match a
    case Queue(job) =>
      if job.id in JobIds(s.jobs) then s else s.(jobs := s.jobs + [job.(status := JobPending)])
    case StartFlush => s.(flushes := s.flushes + [Flush(None, Selected(s))])
    case Hand(f) =>
      if f < |s.flushes| && s.flushes[f].printing.None? && s.flushes[f].rest != [] then
        var id := s.flushes[f].rest[0];
        s.(flushes := s.flushes[f := Flush(Some(id), s.flushes[f].rest[1..])], handed := s.handed + [id])
      else s
    case Done(f, ok) =>
      if f < |s.flushes| && s.flushes[f].printing.Some? then
        s.(jobs := MarkJob(s.jobs, s.flushes[f].printing.value, JobOutcome(ok)),
           flushes := s.flushes[f := s.flushes[f].(printing := None)])
      else s
    case Restart => s.(flushes := [])
  }

  function Exec(s: System, actions: seq<Action>): System
    decreases |actions|
  {
    if actions == [] then s else Step(Exec(s, actions[..|actions| - 1]), actions[|actions| - 1])
  }

  const START := System([], [], [])

  // ---- how often a job reaches the printer ---------------------------------------------

  function Waiting(flushes: seq<Flush>): multiset<string> {
    if flushes == [] then multiset{} else Waiting(flushes[..|flushes| - 1]) + multiset(flushes[|flushes| - 1].rest)
  }

  /** How often each job has been handed over, or will be by the flushes under way. */
  function Exposure(s: System): multiset<string> {
    multiset(s.handed) + Waiting(s.flushes)
  }

  lemma {:induction false} WaitingAfterUpdate(flushes: seq<Flush>, f: nat, flush: Flush, id: string)
    requires f < |flushes|
    ensures Waiting(flushes[f := flush])[id] + multiset(flushes[f].rest)[id] ==
            Waiting(flushes)[id] + multiset(flush.rest)[id]
    decreases |flushes|
  {
    var n := |flushes| - 1;
    if f == n {
      assert flushes[f := flush][..n] == flushes[..n];
    } else {
      var init, after := flushes[..n], flushes[f := flush];
      assert after[..n] == init[f := flush] && after[n] == flushes[n] && init[f] == flushes[f];
      WaitingAfterUpdate(init, f, flush, id);
    }
  }

  lemma HandExposure(s: System, f: nat, id: string)
    ensures Exposure(Step(s, Hand(f)))[id] == Exposure(s)[id]
  {
    if f < |s.flushes| && s.flushes[f].printing.None? && s.flushes[f].rest != [] {
      var rest := s.flushes[f].rest;
      assert multiset(rest)[id] == multiset([rest[0]] + rest[1..])[id] by {
        assert rest == [rest[0]] + rest[1..];
      }
      WaitingAfterUpdate(s.flushes, f, Flush(Some(rest[0]), rest[1..]), id);
    }
  }

  lemma DoneExposure(s: System, f: nat, ok: bool, id: string)
    ensures Exposure(Step(s, Done(f, ok)))[id] == Exposure(s)[id]
  {
    if f < |s.flushes| && s.flushes[f].printing.Some? {
      WaitingAfterUpdate(s.flushes, f, s.flushes[f].(printing := None), id);
    }
  }

  lemma PrinterExposure(s: System, a: Action)
    requires a.Hand? || a.Done?
    ensures Exposure(Step(s, a)) == Exposure(s)
  {
    forall id ensures Exposure(Step(s, a))[id] == Exposure(s)[id] {
      if a.Hand? {
        HandExposure(s, a.flush, id);
      } else {
        DoneExposure(s, a.flush, a.ok, id);
      }
    }
  }

  /** Only starting a flush raises the exposure, by what is pending at that moment. */
  lemma StepExposure(s: System, a: Action)
    ensures a.StartFlush? ==> Exposure(Step(s, a)) == Exposure(s) + multiset(Selected(s))
    ensures !a.StartFlush? ==> Exposure(Step(s, a)) <= Exposure(s)
    ensures !a.StartFlush? && !a.Restart? ==> Exposure(Step(s, a)) == Exposure(s)
  {
    if a.StartFlush? {
      assert Step(s, a).flushes[..|s.flushes|] == s.flushes;
    } else if a.Hand? || a.Done? {
      PrinterExposure(s, a);
    }
  }

  /** A flush starts quietly when no pending job is at the printer, on its way there, or
      has been there. */
  ghost predicate Quiet(s: System, a: Action) {
    a.StartFlush? ==> forall id | id in Selected(s) :: id !in Exposure(s)
  }

  ghost predicate QuietRun(actions: seq<Action>) {
    forall n | 0 <= n < |actions| :: Quiet(Exec(START, actions[..n]), actions[n])
  }

  ghost predicate UniqueJobs(s: System) {
    forall i, j | 0 <= i < j < |s.jobs| :: s.jobs[i].id != s.jobs[j].id
  }

  lemma {:induction false} PendingJobsUnique(jobs: seq<PrintJob>)
    requires forall i, j | 0 <= i < j < |jobs| :: jobs[i].id != jobs[j].id
    ensures forall job | job in PendingJobs(jobs) :: job in jobs && job.status == JobPending
    ensures forall job | job in jobs && job.status == JobPending :: job in PendingJobs(jobs)
    ensures forall i, j | 0 <= i < j < |PendingJobs(jobs)| :: PendingJobs(jobs)[i].id != PendingJobs(jobs)[j].id
  {
    if jobs != [] {
      var init, last := jobs[..|jobs| - 1], jobs[|jobs| - 1];
      PendingJobsUnique(init);
      assert jobs == init + [last];
      var pending := PendingJobs(init);
      forall i | 0 <= i < |pending|
        ensures pending[i].id != last.id
      {
        assert pending[i] in init;
        var k :| 0 <= k < |init| && init[k] == pending[i];
        assert jobs[k].id != jobs[|jobs| - 1].id;
      }
    }
  }

  lemma {:induction false} OnceEach(ids: seq<string>, id: string)
    requires forall i, j | 0 <= i < j < |ids| :: ids[i] != ids[j]
    ensures multiset(ids)[id] <= 1
  {
    if ids != [] {
      OnceEach(ids[..|ids| - 1], id);
      assert ids == ids[..|ids| - 1] + [ids[|ids| - 1]];
    }
  }

  lemma SelectedOnce(s: System, id: string)
    requires UniqueJobs(s)
    ensures multiset(Selected(s))[id] <= 1
  {
    PendingJobsUnique(s.jobs);
    OnceEach(Selected(s), id);
  }

  lemma {:induction false} JobsStayUnique(actions: seq<Action>)
    ensures UniqueJobs(Exec(START, actions))
    decreases |actions|
  {
    if actions != [] {
      var before, a := Exec(START, actions[..|actions| - 1]), actions[|actions| - 1];
      JobsStayUnique(actions[..|actions| - 1]);
      if a.Queue? {
        assert forall i | 0 <= i < |before.jobs| :: before.jobs[i].id == JobIds(before.jobs)[i];
      }
    }
  }

  /** In every run whose flushes start quietly, each job is handed to the printer at
      most once. */
  lemma {:induction false} PrintedAtMostOnce(actions: seq<Action>, id: string)
    requires QuietRun(actions)
    ensures Exposure(Exec(START, actions))[id] <= 1 && multiset(Exec(START, actions).handed)[id] <= 1
    decreases |actions|
  {
    if actions != [] {
      var n := |actions| - 1;
      assert forall m | 0 <= m < n :: actions[..n][..m] == actions[..m];
      PrintedAtMostOnce(actions[..n], id);
      var before := Exec(START, actions[..n]);
      JobsStayUnique(actions[..n]);
      assert Quiet(before, actions[n]);
      StepExposure(before, actions[n]);
      SelectedOnce(before, id);
    }
  }

  // ---- and when it is more than once -------------------------------------------------------

  lemma {:induction false} SomeWaiting(flushes: seq<Flush>, id: string) returns (f: nat)
    requires id in Waiting(flushes)
    ensures f < |flushes| && id in flushes[f].rest
    decreases |flushes|
  {
    var n := |flushes| - 1;
    if id in multiset(flushes[n].rest) {
      f := n;
    } else {
      f := SomeWaiting(flushes[..n], id);
    }
  }

  lemma ExecCons(s: System, a: Action, rest: seq<Action>)
    ensures Exec(s, [a] + rest) == Exec(Step(s, a), rest)
    decreases |rest|
  {
    if rest == [] {
      assert [a] + rest == [a] && [a][..0] == [];
    } else {
      var n := |rest| - 1;
      assert ([a] + rest)[..n + 1] == [a] + rest[..n];
      ExecCons(s, a, rest[..n]);
    }
  }

  function Backlog(flushes: seq<Flush>): nat {
    if flushes == [] then 0
    else
      var last := flushes[|flushes| - 1];
      Backlog(flushes[..|flushes| - 1]) + 2 * |last.rest| + if last.printing.Some? then 1 else 0
  }

  lemma {:induction false} BacklogAfterUpdate(flushes: seq<Flush>, f: nat, flush: Flush)
    requires f < |flushes|
    ensures Backlog(flushes[f := flush]) - Backlog(flushes) ==
            2 * |flush.rest| + (if flush.printing.Some? then 1 else 0)
            - 2 * |flushes[f].rest| - (if flushes[f].printing.Some? then 1 else 0)
    decreases |flushes|
  {
    var n := |flushes| - 1;
    if f == n {
      assert flushes[f := flush][..n] == flushes[..n];
    } else {
      assert flushes[f := flush][..n] == flushes[..n][f := flush];
      BacklogAfterUpdate(flushes[..n], f, flush);
    }
  }

  /** Only the flushes under way take steps. */
  ghost predicate PrinterOnly(actions: seq<Action>) {
    forall a | a in actions :: a.Hand? || a.Done?
  }

  ghost predicate CanReprint(s: System, id: string) {
    exists actions :: PrinterOnly(actions) && multiset(Exec(s, actions).handed)[id] >= 2
  }

  /** Let the flushes under way go on until the job is waiting in none of them. */
  lemma OneStepOn(s: System, f: nat) returns (a: Action)
    requires f < |s.flushes| && s.flushes[f].rest != []
    ensures (a.Hand? || a.Done?) && Backlog(Step(s, a).flushes) < Backlog(s.flushes)
  {
    a := if s.flushes[f].printing.Some? then Done(f, true) else Hand(f);
    BacklogAfterUpdate(s.flushes, f, Step(s, a).flushes[f]);
  }

  lemma {:induction false} HandAll(s: System, id: string) returns (actions: seq<Action>)
    ensures PrinterOnly(actions) && multiset(Exec(s, actions).handed)[id] == Exposure(s)[id]
    decreases Backlog(s.flushes)
  {
    if id !in Waiting(s.flushes) {
      actions := [];
    } else {
      var f := SomeWaiting(s.flushes, id);
      var a := OneStepOn(s, f);
      StepExposure(s, a);
      var rest := HandAll(Step(s, a), id);
      actions := [a] + rest;
      ExecCons(s, a, rest);
    }
  }

  lemma {:induction false} ExposureStays(s: System, actions: seq<Action>)
    requires PrinterOnly(actions)
    ensures Exposure(Exec(s, actions)) == Exposure(s)
    decreases |actions|
  {
    if actions != [] {
      var n := |actions| - 1;
      assert actions[n] in actions && forall a | a in actions[..n] :: a in actions;
      var before := Exec(s, actions[..n]);
      ExposureStays(s, actions[..n]);
      PrinterExposure(before, actions[n]);
      assert Exec(s, actions) == Step(before, actions[n]);
    }
  }

  lemma BoundedExposure(s: System, id: string)
    requires Exposure(s)[id] <= 1
    ensures !CanReprint(s, id)
  {
    forall actions | PrinterOnly(actions)
      ensures multiset(Exec(s, actions).handed)[id] < 2
    {
      ExposureStays(s, actions);
    }
  }

  /** The guard is exact: a flush that starts while a pending job is on its way to the
      printer, or at it, makes a second print possible, and no other flush does. */
  lemma StartIsSafeIff(s: System)
    requires UniqueJobs(s) && forall id :: Exposure(s)[id] <= 1
    ensures Quiet(s, StartFlush) <==> forall id :: !CanReprint(Step(s, StartFlush), id)
  {
    var s' := Step(s, StartFlush);
    StepExposure(s, StartFlush);
    if !Quiet(s, StartFlush) {
      var id :| id in Selected(s) && id in Exposure(s);
      var actions := HandAll(s', id);
      assert id in multiset(Selected(s));
      assert CanReprint(s', id);
    } else {
      forall id
        ensures !CanReprint(s', id)
      {
        SelectedOnce(s, id);
        assert id in Exposure(s) ==> id !in multiset(Selected(s));
        BoundedExposure(s', id);
      }
    }
  }

  // ---- flushes that do not overlap ----------------------------------------------------------

  predicate Ended(f: Flush) {
    f.printing.None? && f.rest == []
  }

  ghost predicate Serialized(actions: seq<Action>) {
    forall n | 0 <= n < |actions| ::
      actions[n].StartFlush? ==> forall f | f in Exec(START, actions[..n]).flushes :: Ended(f)
  }

  predicate AtPrinter(s: System) {
    exists f | f in s.flushes :: f.printing.Some?
  }

  /** The shell restarts only while no job is at the printer. */
  ghost predicate QuietRestarts(actions: seq<Action>) {
    forall n | 0 <= n < |actions| :: actions[n].Restart? ==> !AtPrinter(Exec(START, actions[..n]))
  }

  predicate With(f: Flush, id: string) {
    f.printing == Some(id) || id in f.rest
  }

  predicate UnderWay(s: System, id: string) {
    exists f | 0 <= f < |s.flushes| :: With(s.flushes[f], id)
  }

  ghost predicate Known(s: System) {
    forall id | id in Exposure(s) :: id in JobIds(s.jobs)
  }

  /** A pending job that a flush has read is still with that flush. */
  ghost predicate Held(s: System, i: nat)
    requires i < |s.jobs|
  {
    s.jobs[i].status == JobPending && s.jobs[i].id in Exposure(s) ==> UnderWay(s, s.jobs[i].id)
  }

  ghost predicate Accounted(s: System) {
    Known(s) && forall i | 0 <= i < |s.jobs| :: Held(s, i)
  }

  lemma StillUnderWay(s: System, a: Action, id: string)
    requires (a.Hand? || a.Done?) && UnderWay(s, id)
    requires a.Done? && a.flush < |s.flushes| ==> s.flushes[a.flush].printing != Some(id)
    ensures UnderWay(Step(s, a), id)
  {
    var f :| 0 <= f < |s.flushes| && With(s.flushes[f], id);
    assert With(Step(s, a).flushes[f], id);
  }

  lemma QueueKeepsAccounted(s: System, job: PrintJob)
    requires Accounted(s)
    ensures Accounted(Step(s, Queue(job)))
  {
    var s' := Step(s, Queue(job));
    assert s'.flushes == s.flushes && Exposure(s') == Exposure(s);
    if job.id !in JobIds(s.jobs) {
      assert forall i | 0 <= i < |s.jobs| :: JobIds(s'.jobs)[i] == JobIds(s.jobs)[i] && s'.jobs[i] == s.jobs[i];
      assert forall id | id in JobIds(s.jobs) :: id in JobIds(s'.jobs);
      assert forall i | 0 <= i < |s.jobs| :: Held(s, i) ==> Held(s', i);
    }
  }

  lemma PendingAfterDone(s: System, f: nat, ok: bool, i: nat)
    requires i < |s.jobs| && Step(s, Done(f, ok)).jobs[i].status == JobPending
    ensures Step(s, Done(f, ok)).jobs[i] == s.jobs[i]
    ensures f < |s.flushes| ==> s.flushes[f].printing != Some(s.jobs[i].id)
  {
  }

  lemma StaysHeld(s: System, a: Action, i: nat)
    requires (a.Hand? || a.Done?) && i < |s.jobs| && Held(s, i)
    ensures Held(Step(s, a), i)
  {
    PrinterExposure(s, a);
    var s' := Step(s, a);
    if s'.jobs[i].status == JobPending && s'.jobs[i].id in Exposure(s') {
      if a.Done? {
        PendingAfterDone(s, a.flush, a.ok, i);
      }
      StillUnderWay(s, a, s.jobs[i].id);
    }
  }

  lemma StaysKnown(s: System, a: Action)
    requires (a.Hand? || a.Done?) && Known(s)
    ensures Known(Step(s, a))
  {
    PrinterExposure(s, a);
    assert JobIds(Step(s, a).jobs) == JobIds(s.jobs);
  }

  lemma {:induction false} RestIsWaiting(flushes: seq<Flush>, f: nat, id: string)
    requires f < |flushes| && id in flushes[f].rest
    ensures id in Waiting(flushes)
    decreases |flushes|
  {
    var n := |flushes| - 1;
    if f < n {
      RestIsWaiting(flushes[..n], f, id);
    }
  }

  lemma RestartKeepsAccounted(s: System)
    requires Accounted(s) && !AtPrinter(s) && forall id :: Exposure(s)[id] <= 1
    ensures Accounted(Step(s, Restart))
  {
    forall i: nat | i < |s.jobs| && s.jobs[i].status == JobPending
      ensures s.jobs[i].id !in s.handed
    {
      var id := s.jobs[i].id;
      assert Held(s, i);
      if f: nat :| f < |s.flushes| && With(s.flushes[f], id) {
        assert s.flushes[f] in s.flushes;
        RestIsWaiting(s.flushes, f, id);
        assert Exposure(s)[id] <= 1;
      }
    }
  }

  lemma StepKeepsAccounted(s: System, a: Action)
    requires UniqueJobs(s) && Accounted(s) && forall id :: Exposure(s)[id] <= 1
    requires a.Restart? ==> !AtPrinter(s)
    ensures Accounted(Step(s, a))
  {
    if a.Restart? {
      RestartKeepsAccounted(s);
    } else if a.Queue? {
      QueueKeepsAccounted(s, a.job);
    } else if a.StartFlush? {
      StartKeepsAccounted(s);
    } else {
      StaysKnown(s, a);
      forall i: nat | i < |s.jobs|
        ensures Held(Step(s, a), i)
      {
        StaysHeld(s, a, i);
      }
    }
  }

  lemma StartKeepsAccounted(s: System)
    requires UniqueJobs(s) && Accounted(s)
    ensures Accounted(Step(s, StartFlush))
  {
    var s' := Step(s, StartFlush);
    StepExposure(s, StartFlush);
    PendingJobsUnique(s.jobs);
    var n := |s.flushes|;
    forall id | id in Selected(s)
      ensures id in JobIds(s.jobs)
    {
      var k :| 0 <= k < |PendingJobs(s.jobs)| && PendingJobs(s.jobs)[k].id == id;
      assert PendingJobs(s.jobs)[k] in s.jobs;
      var i :| 0 <= i < |s.jobs| && s.jobs[i] == PendingJobs(s.jobs)[k];
      assert JobIds(s.jobs)[i] == id;
    }
    forall i | 0 <= i < |s'.jobs| && s'.jobs[i].status == JobPending
      ensures UnderWay(s', s'.jobs[i].id)
    {
      assert s.jobs[i] in PendingJobs(s.jobs);
      var k :| 0 <= k < |PendingJobs(s.jobs)| && PendingJobs(s.jobs)[k] == s.jobs[i];
      assert Selected(s)[k] == s.jobs[i].id;
      assert With(s'.flushes[n], s.jobs[i].id);
    }
  }

  lemma {:induction false} SerializedIsAccounted(actions: seq<Action>)
    requires Serialized(actions) && QuietRestarts(actions)
    ensures Accounted(Exec(START, actions)) && forall id :: Exposure(Exec(START, actions))[id] <= 1
    decreases |actions|
  {
    if actions != [] {
      var n := |actions| - 1;
      var before := Exec(START, actions[..n]);
      assert forall m | 0 <= m < n :: actions[..n][..m] == actions[..m] && actions[..n][m] == actions[m];
      SerializedIsAccounted(actions[..n]);
      JobsStayUnique(actions[..n]);
      StepKeepsAccounted(before, actions[n]);
      if actions[n].StartFlush? { SerializedStartIsQuiet(before); }
      QuietStepKeepsBound(before, actions[n]);
    }
  }

  lemma QuietStepKeepsBound(s: System, a: Action)
    requires UniqueJobs(s) && Quiet(s, a) && forall id :: Exposure(s)[id] <= 1
    ensures forall id :: Exposure(Step(s, a))[id] <= 1
  {
    StepExposure(s, a);
    forall id ensures Exposure(Step(s, a))[id] <= 1 {
      SelectedOnce(s, id);
      assert a.StartFlush? && id in Exposure(s) ==> id !in multiset(Selected(s));
    }
  }

  lemma EndedIsIdle(s: System, id: string)
    requires forall f | f in s.flushes :: Ended(f)
    ensures !UnderWay(s, id)
  {
    forall f | 0 <= f < |s.flushes|
      ensures !With(s.flushes[f], id)
    {
      assert s.flushes[f] in s.flushes;
    }
  }

  lemma SerializedStartIsQuiet(s: System)
    requires UniqueJobs(s) && Accounted(s) && forall f | f in s.flushes :: Ended(f)
    ensures Quiet(s, StartFlush)
  {
    PendingJobsUnique(s.jobs);
    forall id | id in Selected(s)
      ensures id !in Exposure(s)
    {
      var k :| 0 <= k < |PendingJobs(s.jobs)| && PendingJobs(s.jobs)[k].id == id;
      assert PendingJobs(s.jobs)[k] in s.jobs;
      var i :| 0 <= i < |s.jobs| && s.jobs[i] == PendingJobs(s.jobs)[k];
      EndedIsIdle(s, id);
      assert Held(s, i) && s.jobs[i].status == JobPending;
    }
  }

  /** A job that is at the printer, or has been settled, was handed over. */
  ghost predicate SettledWasHanded(s: System) {
    && (forall f | 0 <= f < |s.flushes| && s.flushes[f].printing.Some? :: s.flushes[f].printing.value in s.handed)
    && (forall i | 0 <= i < |s.jobs| && s.jobs[i].status != JobPending :: s.jobs[i].id in s.handed)
  }

  lemma {:induction false} SettledStaysHanded(actions: seq<Action>)
    ensures SettledWasHanded(Exec(START, actions))
    decreases |actions|
  {
    if actions != [] {
      SettledStaysHanded(actions[..|actions| - 1]);
    }
  }

  /** When flushes do not overlap and the shell restarts only while no job is at the
      printer, every job is handed over at most once in the whole run, and every settled
      job exactly once. */
  lemma SerializedPrintsOnce(actions: seq<Action>, id: string)
    requires Serialized(actions) && QuietRestarts(actions)
    ensures multiset(Exec(START, actions).handed)[id] <= 1
    ensures forall job | job in Exec(START, actions).jobs && job.id == id && job.status != JobPending ::
              multiset(Exec(START, actions).handed)[id] == 1
  {
    SerializedIsAccounted(actions);
    assert multiset(Exec(START, actions).handed)[id] <= Exposure(Exec(START, actions))[id] <= 1;
    SettledStaysHanded(actions);
  }

  /** A job queued while flushes are under way stays pending, untouched, until another
      flush starts. */
  lemma {:induction false} QueuedMidFlushStays(s: System, actions: seq<Action>, i: nat)
    requires i < |s.jobs| && s.jobs[i].status == JobPending && !UnderWay(s, s.jobs[i].id)
    requires forall a | a in actions :: !a.StartFlush?
    ensures var s' := Exec(s, actions);
            i < |s'.jobs| && s'.jobs[i] == s.jobs[i] && !UnderWay(s', s.jobs[i].id)
    decreases |actions|
  {
    if actions != [] {
      var n := |actions| - 1;
      assert actions[n] in actions && forall a | a in actions[..n] :: a in actions;
      QueuedMidFlushStays(s, actions[..n], i);
      StepSparesOthers(Exec(s, actions[..n]), actions[n], i);
    }
  }

  lemma StepSparesOthers(s: System, a: Action, i: nat)
    requires i < |s.jobs| && !UnderWay(s, s.jobs[i].id) && !a.StartFlush?
    ensures var s' := Step(s, a);
            i < |s'.jobs| && s'.jobs[i] == s.jobs[i] && !UnderWay(s', s.jobs[i].id)
  {
    assert forall f | 0 <= f < |s.flushes| :: !With(s.flushes[f], s.jobs[i].id);
    if a.Hand? && a.flush < |s.flushes| && s.flushes[a.flush].rest != [] {
      assert s.flushes[a.flush].rest[0] in s.flushes[a.flush].rest;
    }
  }

  // ---- one flush that nothing interleaves with -----------------------------------------------

  lemma {:induction false} SettleJobsKeepsIds(jobs: seq<PrintJob>, done: seq<PrintJob>, oks: seq<bool>)
    requires |done| == |oks|
    ensures JobIds(SettleJobs(jobs, done, oks)) == JobIds(jobs)
    decreases |done|
  {
    if done != [] {
      var n := |done| - 1;
      SettleJobsKeepsIds(jobs, done[..n], oks[..n]);
      var before := SettleJobs(jobs, done[..n], oks[..n]);
      assert JobIds(MarkJob(before, done[n].id, JobOutcome(oks[n]))) == JobIds(before);
    }
  }

  lemma {:induction false} SettleJobsSpares(jobs: seq<PrintJob>, done: seq<PrintJob>, oks: seq<bool>, i: nat)
    requires |done| == |oks| && i < |jobs|
    requires jobs[i].id !in JobIds(done)
    ensures |SettleJobs(jobs, done, oks)| == |jobs| && SettleJobs(jobs, done, oks)[i] == jobs[i]
    decreases |done|
  {
    if done != [] {
      var n := |done| - 1;
      assert JobIds(done) == JobIds(done[..n]) + [done[n].id];
      SettleJobsSpares(jobs, done[..n], oks[..n], i);
    }
  }

  lemma {:induction false} SettleJobsHits(jobs: seq<PrintJob>, done: seq<PrintJob>, oks: seq<bool>, i: nat, k: nat)
    requires |done| == |oks| && i < |jobs| && k < |done|
    requires done[k].id == jobs[i].id && jobs[i].id !in JobIds(done)[..k] && jobs[i].id !in JobIds(done)[k + 1..]
    ensures |SettleJobs(jobs, done, oks)| == |jobs|
    ensures SettleJobs(jobs, done, oks)[i] == jobs[i].(status := JobOutcome(oks[k]))
    decreases |done|
  {
    var n := |done| - 1;
    assert JobIds(done) == JobIds(done[..n]) + [done[n].id];
    if k == n {
      assert JobIds(done[..n]) == JobIds(done)[..n];
      SettleJobsSpares(jobs, done[..n], oks[..n], i);
    } else {
      assert JobIds(done[..n])[..k] == JobIds(done)[..k];
      assert JobIds(done)[k + 1..] == JobIds(done[..n])[k + 1..] + [done[n].id];
      SettleJobsHits(jobs, done[..n], oks[..n], i, k);
      assert done[n].id in JobIds(done)[k + 1..];
    }
  }

  lemma PlaceInPending(jobs: seq<PrintJob>, i: nat) returns (k: nat)
    requires forall j, k | 0 <= j < k < |jobs| :: jobs[j].id != jobs[k].id
    requires i < |jobs| && jobs[i].status == JobPending
    ensures k < |PendingJobs(jobs)| && PendingJobs(jobs)[k] == jobs[i]
    ensures jobs[i].id !in JobIds(PendingJobs(jobs))[..k] && jobs[i].id !in JobIds(PendingJobs(jobs))[k + 1..]
  {
    PendingJobsUnique(jobs);
    k :| 0 <= k < |PendingJobs(jobs)| && PendingJobs(jobs)[k] == jobs[i];
  }

  lemma {:induction false} PendingFrom(jobs: seq<PrintJob>, id: string) returns (m: nat)
    requires id in JobIds(PendingJobs(jobs))
    ensures m < |jobs| && jobs[m].id == id && jobs[m].status == JobPending
    decreases |jobs|
  {
    var n := |jobs| - 1;
    if jobs[n].id == id && jobs[n].status == JobPending {
      m := n;
    } else {
      assert id in JobIds(PendingJobs(jobs[..n])) by {
        var k :| 0 <= k < |PendingJobs(jobs)| && JobIds(PendingJobs(jobs))[k] == id;
        assert JobIds(PendingJobs(jobs[..n]))[k] == id;
      }
      m := PendingFrom(jobs[..n], id);
    }
  }

  lemma NotAmongPending(jobs: seq<PrintJob>, i: nat)
    requires forall j, k | 0 <= j < k < |jobs| :: jobs[j].id != jobs[k].id
    requires i < |jobs| && jobs[i].status != JobPending
    ensures jobs[i].id !in JobIds(PendingJobs(jobs))
  {
    if jobs[i].id in JobIds(PendingJobs(jobs)) {
      var m := PendingFrom(jobs, jobs[i].id);
    }
  }

  /** A flush settles exactly the jobs that were pending at its start, each by its own
      outcome, and leaves every other job as it was. */
  lemma FlushSettlesPending(jobs: seq<PrintJob>, oks: seq<bool>, i: nat)
    requires forall j, k | 0 <= j < k < |jobs| :: jobs[j].id != jobs[k].id
    requires |oks| == |PendingJobs(jobs)| && i < |jobs|
    ensures var after := SettleJobs(jobs, PendingJobs(jobs), oks);
            && |after| == |jobs|
            && (jobs[i].status != JobPending ==> after[i] == jobs[i])
            && (jobs[i].status == JobPending ==>
                  exists k | 0 <= k < |oks| :: PendingJobs(jobs)[k] == jobs[i] && after[i] == jobs[i].(status := if oks[k] then Printed else PrintFailed))
  {
    if jobs[i].status == JobPending {
      var k := PlaceInPending(jobs, i);
      SettleJobsHits(jobs, PendingJobs(jobs), oks, i, k);
    } else {
      NotAmongPending(jobs, i);
      SettleJobsSpares(jobs, PendingJobs(jobs), oks, i);
    }
  }
}
