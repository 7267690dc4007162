/** What a worker tracks about its assignments and runs. A step is one critical section: the heartbeat
    loop, the goroutines that start tasks and those that wait for containers interleave freely. */
module Worker {
  import opened Entities

  type RunId = nat

  /** An admitted assignment: the epoch it was assigned under and the worker's epoch when it came. */
  datatype Admission = Admission(task: TaskId, assignedEpoch: int, workerEpoch: int)

  /** A tracked run leaves the executor's map first, then its done callback runs; a run whose container
      could not be created has its specification dropped once more after that. */
  datatype Phase = Tracked | Untracked(failedStart: bool) | Reported(cleanUp: bool)

  datatype RunRecord = RunRecord(admission: Admission, phase: Phase)

  /** `considering` is the assignment that the heartbeat loop found not to be running, on its way to the
      specs; `starting` are the goroutines that have yet to call the executor; `runs` and `callbacks`
      record every tracked start and every done callback so far. */
  datatype State = State(
    epoch: int,
    specs: set<TaskId>,
    considering: Option<Admission>,
    starting: seq<Admission>,
    running: map<TaskId, RunId>,
    runs: seq<RunRecord>,
    callbacks: seq<RunId>)

  const IDLE := State(0, {}, None, [], map[], [], [])

  datatype Step =
    | SetIdentity(epoch: int)
    | ResetSpecs
    | Consider(task: TaskId, assignedEpoch: int)
    | Admit
    | Start(k: nat)
    | Untrack(run: RunId, failedStart: bool)
    | Report(run: RunId)
    | CleanUp(run: RunId)

  predicate Enabled(s: State, a: Step) {
    match a
    case SetIdentity(_) => s.considering.None?
    case ResetSpecs => s.considering.None?
    case Consider(_, _) => s.considering.None?
    case Admit => s.considering.Some?
    case Start(k) => k < |s.starting|
    case Untrack(r, _) => r < |s.runs| && s.runs[r].phase == Tracked
    case Report(r) => r < |s.runs| && s.runs[r].phase.Untracked?
    case CleanUp(r) => r < |s.runs| && s.runs[r].phase == Reported(true)
  }

  function Without<T>(s: seq<T>, k: nat): seq<T>
    requires k < |s|
  {
    s[..k] + s[k + 1..]
  }

  function Apply(s: State, a: Step): State
    requires Enabled(s, a)
  {
    match a
    case SetIdentity(e) => s.(epoch := e)
    case ResetSpecs => s.(specs := {})
    case Consider(t, e) =>
      if t in s.running || e != s.epoch then s else s.(considering := Some(Admission(t, e, s.epoch)))
    case Admit =>
      var adm := s.considering.value;
      if adm.task in s.specs then s.(considering := None)
      else s.(considering := None, specs := s.specs + {adm.task}, starting := s.starting + [adm])
    case Start(k) =>
      var adm := s.starting[k];
      var rest := s.(starting := Without(s.starting, k));
      if adm.task in s.running then rest
      else rest.(running := s.running[adm.task := |s.runs|], runs := s.runs + [RunRecord(adm, Tracked)])
    case Untrack(r, failedStart) =>
      s.(running := s.running - {s.runs[r].admission.task}, runs := s.runs[r := s.runs[r].(phase := Untracked(failedStart))])
    case Report(r) =>
      s.(specs := s.specs - {s.runs[r].admission.task}, callbacks := s.callbacks + [r],
         runs := s.runs[r := s.runs[r].(phase := Reported(s.runs[r].phase.failedStart))])
    case CleanUp(r) =>
      s.(specs := s.specs - {s.runs[r].admission.task}, runs := s.runs[r := s.runs[r].(phase := Reported(false))])
  }

  // ---------- invariants ----------

  predicate Matching(adm: Admission) {
    adm.assignedEpoch == adm.workerEpoch
  }

  /** The executor's map has exactly the tracked runs, each under its task. */
  ghost predicate MapIsTracked(s: State) {
    && (forall t :: t in s.running ==> s.running[t] < |s.runs|)
    && (forall t :: t in s.running ==> s.runs[s.running[t]].phase == Tracked && s.runs[s.running[t]].admission.task == t)
    && (forall r :: 0 <= r < |s.runs| && s.runs[r].phase == Tracked ==>
                      s.runs[r].admission.task in s.running && s.running[s.runs[r].admission.task] == r)
  }

  /** The callbacks so far are one for each reported run. */
  ghost predicate OneCallbackEach(s: State) {
    && (forall r: RunId :: r in s.callbacks <==> r < |s.runs| && s.runs[r].phase.Reported?)
    && (forall i, j :: 0 <= i < j < |s.callbacks| ==> s.callbacks[i] != s.callbacks[j])
  }

  ghost predicate AllAdmitted(s: State) {
    && (s.considering.Some? ==> Matching(s.considering.value))
    && (forall k :: 0 <= k < |s.starting| ==> Matching(s.starting[k]))
    && (forall r :: 0 <= r < |s.runs| ==> Matching(s.runs[r].admission))
  }

  ghost predicate Inv(s: State) {
    MapIsTracked(s) && OneCallbackEach(s) && AllAdmitted(s)
  }

  lemma StepKeepsMap(s: State, a: Step)
    requires Enabled(s, a) && MapIsTracked(s)
    ensures MapIsTracked(Apply(s, a))
  {
    match a
    case Start(k) =>
      assert forall r :: 0 <= r < |s.runs| ==> Apply(s, a).runs[r] == s.runs[r];
    case _ =>
  }

  lemma StepKeepsCallbacks(s: State, a: Step)
    requires Enabled(s, a) && OneCallbackEach(s)
    ensures OneCallbackEach(Apply(s, a))
  {
    if a.Report? {
      assert a.run !in s.callbacks;
    }
  }

  lemma StepKeepsAdmitted(s: State, a: Step)
    requires Enabled(s, a) && AllAdmitted(s)
    ensures AllAdmitted(Apply(s, a))
  {}

  datatype Trace = Trace(states: seq<State>, steps: seq<Step>)

  ghost predicate StepAt(tr: Trace, i: nat) {
    && i < |tr.steps| && i + 1 < |tr.states|
    && Enabled(tr.states[i], tr.steps[i]) && tr.states[i + 1] == Apply(tr.states[i], tr.steps[i])
  }

  ghost predicate IsTrace(tr: Trace) {
    && |tr.states| == |tr.steps| + 1 && tr.states[0] == IDLE
    && forall i: nat :: i < |tr.steps| ==> StepAt(tr, i)
  }

  lemma {:induction false} TraceInv(tr: Trace, i: nat)
    requires IsTrace(tr) && i < |tr.states|
    ensures Inv(tr.states[i])
  {
    if i > 0 {
      TraceInv(tr, i - 1);
      assert StepAt(tr, i - 1);
      StepKeepsMap(tr.states[i - 1], tr.steps[i - 1]);
      StepKeepsCallbacks(tr.states[i - 1], tr.steps[i - 1]);
      StepKeepsAdmitted(tr.states[i - 1], tr.steps[i - 1]);
    }
  }

  /** However often assignments are redelivered and however starts and ends interleave: every run gets
      its done callback at most once, exactly when it has been reported; every run was admitted under
      the epoch the worker had when the assignment came; and a tracked run is the only one of its task,
      and the one that the executor's map has. */
  lemma RedeliveryHarmless(tr: Trace, i: nat, a: RunId)
    requires IsTrace(tr) && i < |tr.states| && a < |tr.states[i].runs|
    ensures var s := tr.states[i];
            && multiset(s.callbacks)[a] == (if s.runs[a].phase.Reported? then 1 else 0)
            && s.runs[a].admission.assignedEpoch == s.runs[a].admission.workerEpoch
            && (s.runs[a].phase == Tracked <==>
                  s.runs[a].admission.task in s.running && s.running[s.runs[a].admission.task] == a)
            && (s.runs[a].phase == Tracked ==>
                  forall b: RunId :: b < |s.runs| && b != a && s.runs[b].phase == Tracked ==>
                                       s.runs[b].admission.task != s.runs[a].admission.task)
  {
    TraceInv(tr, i);
    DistinctOnce(tr.states[i].callbacks, a);
  }

  lemma {:induction false} DistinctOnce(s: seq<RunId>, x: RunId)
    requires forall i, j :: 0 <= i < j < |s| ==> s[i] != s[j]
    ensures multiset(s)[x] <= 1
  {
    if s != [] {
      var last := |s| - 1;
      assert s == s[..last] + [s[last]];
      DistinctOnce(s[..last], x);
      assert s[last] == x ==> x !in s[..last];
    }
  }

  /** A run, once recorded, keeps its admission, and its phase only moves on: tracked, untracked,
      reported. So a tracked start is followed by at most one callback, and one that is missing is due
      from a run that is still tracked or between the two halves of its end. */
  lemma RunsOnlyMoveOn(s: State, a: Step, r: RunId)
    requires Enabled(s, a) && r < |s.runs|
    ensures r < |Apply(s, a).runs| && Apply(s, a).runs[r].admission == s.runs[r].admission
    ensures var was, now := s.runs[r].phase, Apply(s, a).runs[r].phase;
            || now == was
            || (was == Tracked && now.Untracked?)
            || (was.Untracked? && now == Reported(was.failedStart) && Apply(s, a).callbacks == s.callbacks + [r])
            || (was == Reported(true) && now == Reported(false))
  {}

  // ---------- the worker's methods ----------

  datatype Assignment = Assignment(task: TaskId, assignedEpoch: int)

  /** Handling a list of assignments with nothing in between. */
  function HandleAll(s: State, assignments: seq<Assignment>): (s': State)
    requires s.considering.None?
    ensures s'.considering.None?
  {
    if assignments == [] then s
    else
      var before := HandleAll(s, assignments[..|assignments| - 1]);
      var a := assignments[|assignments| - 1];
      var seen := Apply(before, Consider(a.task, a.assignedEpoch));
      if seen.considering.None? then seen else Apply(seen, Admit)
  }

  /** The tasks to start: named by an assignment under the worker's own epoch, with no run and no
      specification tracked. */
  ghost function ToStart(s: State, assignments: seq<Assignment>): set<TaskId> {
    set a | a in assignments && a.assignedEpoch == s.epoch && a.task !in s.running && a.task !in s.specs :: a.task
  }

  /** `tasks` have been added to the starts, each once and under the worker's epoch, and are tracked; nothing
      else has changed. */
  ghost predicate Starts(s: State, s': State, tasks: set<TaskId>) {
    match s'
    case State(_, _, _, starting, _, _, _) =>
      && s' == s.(specs := s.specs + tasks, starting := starting)
      && |starting| >= |s.starting| && starting[..|s.starting|] == s.starting
      && (forall k :: |s.starting| <= k < |starting| ==>
                        starting[k].task in tasks && starting[k].assignedEpoch == starting[k].workerEpoch == s.epoch)
      && (forall t :: t in tasks ==> exists k :: |s.starting| <= k < |starting| && starting[k].task == t)
      && (forall j, k :: |s.starting| <= j < k < |starting| ==> starting[j].task != starting[k].task)
  }

  lemma StartsKeepsInv(s: State, s': State, tasks: set<TaskId>)
    requires Inv(s) && Starts(s, s', tasks)
    ensures Inv(s')
  {
    forall k | 0 <= k < |s'.starting| ensures Matching(s'.starting[k]) {
      if k < |s.starting| {
        assert s'.starting[..|s.starting|][k] == s.starting[k];
      }
    }
  }

  lemma StartsOne(s: State, before: State, tasks: set<TaskId>, adm: Admission)
    requires Starts(s, before, tasks) && adm.task !in before.specs && adm.assignedEpoch == adm.workerEpoch == s.epoch
    ensures Starts(s, before.(specs := before.specs + {adm.task}, starting := before.starting + [adm]), tasks + {adm.task})
  {
    var s' := before.(specs := before.specs + {adm.task}, starting := before.starting + [adm]);
    assert s'.starting[|before.starting|].task == adm.task;
    forall t | t in tasks ensures exists k :: |s.starting| <= k < |s'.starting| && s'.starting[k].task == t {
      var k :| |s.starting| <= k < |before.starting| && before.starting[k].task == t;
      assert s'.starting[k].task == t;
    }
  }

  predicate Startable(s: State, a: Assignment) {
    a.assignedEpoch == s.epoch && a.task !in s.running && a.task !in s.specs
  }

  lemma ToStartNext(s: State, rest: seq<Assignment>, a: Assignment)
    ensures ToStart(s, rest + [a]) == if Startable(s, a) then ToStart(s, rest) + {a.task} else ToStart(s, rest)
  {}

  lemma HandleNext(s: State, before: State, tasks: set<TaskId>, a: Assignment)
    requires Starts(s, before, tasks) && s.considering.None?
    ensures before.considering.None?
    ensures var seen := Apply(before, Consider(a.task, a.assignedEpoch));
            var after := if seen.considering.None? then seen else Apply(seen, Admit);
            Starts(s, after, if Startable(s, a) then tasks + {a.task} else tasks)
  {
    if Startable(s, a) && a.task !in tasks {
      StartsOne(s, before, tasks, Admission(a.task, a.assignedEpoch, s.epoch));
    } else {
      assert Startable(s, a) ==> tasks + {a.task} == tasks;
    }
  }

  /** However a list of assignments is put together, it starts exactly the tasks that are to be started, each
      once. */
  lemma {:induction false} EachMatchingIsStarted(s: State, assignments: seq<Assignment>)
    requires s.considering.None?
    ensures Starts(s, HandleAll(s, assignments), ToStart(s, assignments))
  {
    if assignments == [] {
      assert s.specs + {} == s.specs;
    } else {
      var rest, a := assignments[..|assignments| - 1], assignments[|assignments| - 1];
      EachMatchingIsStarted(s, rest);
      assert assignments == rest + [a];
      ToStartNext(s, rest, a);
      HandleNext(s, HandleAll(s, rest), ToStart(s, rest), a);
    }
  }

  /** The step makes the worker forget that it tracks `t`: the scheduler has rejected its epoch, a run of `t` has
      got its callback, or is cleaned up after a start that failed. */
  predicate Forgets(s: State, a: Step, t: TaskId) {
    a.ResetSpecs? || ((a.Report? || a.CleanUp?) && a.run < |s.runs| && s.runs[a.run].admission.task == t)
  }

  /** Once forgotten and not running, a task starts again with the next matching assignment. */
  lemma ForgottenStartsAgain(s: State, a: Step, t: TaskId)
    requires Enabled(s, a) && Forgets(s, a, t) && t !in s.running
    ensures var s' := Apply(s, a); ToStart(s', [Assignment(t, s'.epoch)]) == {t}
  {
    var s' := Apply(s, a);
    assert Assignment(t, s'.epoch) in [Assignment(t, s'.epoch)];
  }

  /** The step admits an assignment of `t`. */
  predicate AdmitsTask(s: State, a: Step, t: TaskId) {
    a.Admit? && s.considering.Some? && s.considering.value.task == t && t !in s.specs
  }

  lemma {:induction false} TrackedUntilForgotten(tr: Trace, i: nat, j: nat, t: TaskId) returns (k: nat)
    requires IsTrace(tr) && i <= j < |tr.states| && t in tr.states[i].specs
    ensures t in tr.states[j].specs || (i <= k < j && Forgets(tr.states[k], tr.steps[k], t))
  {
    k := i;
    if i < j {
      k := TrackedUntilForgotten(tr, i, j - 1, t);
      assert StepAt(tr, j - 1);
      if t in tr.states[j - 1].specs && t !in tr.states[j].specs {
        k := j - 1;
      }
    }
  }

  /** Between two admissions of one task the worker has forgotten the first: redelivered assignments alone never
      make it start a task twice. */
  lemma AdmittedOnce(tr: Trace, i: nat, j: nat, t: TaskId) returns (k: nat)
    requires IsTrace(tr) && i < j < |tr.steps|
    requires AdmitsTask(tr.states[i], tr.steps[i], t) && AdmitsTask(tr.states[j], tr.steps[j], t)
    ensures i < k < j && Forgets(tr.states[k], tr.steps[k], t)
  {
    assert StepAt(tr, i);
    k := TrackedUntilForgotten(tr, i + 1, j, t);
  }

  class Agent {
    var epoch: int
    var specs: set<TaskId>
    var starting: seq<Admission>
    var running: map<TaskId, RunId>
    ghost var runs: seq<RunRecord>
    ghost var callbacks: seq<RunId>
    var nextRun: nat

    ghost function Model(): State
      reads this
    {
      State(epoch, specs, None, starting, running, runs, callbacks)
    }

    ghost predicate Valid()
      reads this
    {
      Inv(Model()) && nextRun == |runs|
    }

    constructor ()
      ensures Valid() && Model() == IDLE
    {
      epoch, specs, starting, running, nextRun := 0, {}, [], map[], 0;
      runs, callbacks := [], [];
    }

    /** The scheduler has rejected this worker's epoch: forget the specifications. */
    method ResetSpecifications()
      requires Valid()
      modifies this
      ensures Valid() && Model() == Apply(old(Model()), ResetSpecs)
    {
      StepKeepsMap(Model(), ResetSpecs);
      specs := {};
    }

    method SetIdentity(e: int)
      requires Valid()
      modifies this
      ensures Valid() && Model() == Apply(old(Model()), Step.SetIdentity(e))
    {
      epoch := e;
    }

    /** Skip what is running, refuse other epochs, skip what is tracked; start the rest. */
    method HandleAssignments(assignments: seq<Assignment>)
      requires Valid()
      modifies this
      ensures Valid() && Model() == HandleAll(old(Model()), assignments)
      ensures Starts(old(Model()), Model(), ToStart(old(Model()), assignments))
    {
      ghost var s := Model();
      EachMatchingIsStarted(s, assignments);
      StartsKeepsInv(s, HandleAll(s, assignments), ToStart(s, assignments));
      for i := 0 to |assignments|
        modifies this`specs, this`starting
        invariant Model() == HandleAll(s, assignments[..i])
      {
        assert assignments[..i + 1][..i] == assignments[..i];
        var a := assignments[i];
        if a.task in running {
          continue;
        }
        if a.assignedEpoch != epoch {
          continue;
        }
        if a.task in specs {
          continue;
        }
        specs := specs + {a.task};
        starting := starting + [Admission(a.task, a.assignedEpoch, epoch)];
      }
      assert assignments[..|assignments|] == assignments;
    }

    /** A start goroutine reaches the executor: track the run unless the task has one. */
    method StartTask(k: nat) returns (run: Option<RunId>)
      requires Valid() && k < |starting|
      modifies this
      ensures Valid() && Model() == Apply(old(Model()), Start(k))
      ensures run.None? <==> old(starting)[k].task in old(running)
    {
      StepKeepsMap(Model(), Start(k));
      StepKeepsCallbacks(Model(), Start(k));
      StepKeepsAdmitted(Model(), Start(k));
      var adm := starting[k];
      starting := starting[..k] + starting[k + 1..];
      if adm.task in running {
        return None;
      }
      running := running[adm.task := nextRun];
      runs := runs + [RunRecord(adm, Tracked)];
      run := Some(nextRun);
      nextRun := nextRun + 1;
    }

    /** The run has ended: it leaves the map, then its done callback drops the specification. */
    method Finish(task: TaskId, run: RunId, failedStart: bool)
      requires Valid() && task in running && running[task] == run
      modifies this
      ensures Valid()
      ensures Enabled(old(Model()), Untrack(run, failedStart))
      ensures Enabled(Apply(old(Model()), Untrack(run, failedStart)), Report(run))
      ensures Model() == Apply(Apply(old(Model()), Untrack(run, failedStart)), Report(run))
    {
      ghost var s := Model();
      ghost var s1 := Apply(s, Untrack(run, failedStart));
      StepKeepsMap(s, Untrack(run, failedStart));
      StepKeepsCallbacks(s, Untrack(run, failedStart));
      StepKeepsAdmitted(s, Untrack(run, failedStart));
      StepKeepsMap(s1, Report(run));
      StepKeepsCallbacks(s1, Report(run));
      StepKeepsAdmitted(s1, Report(run));
      running := running - {task};
      runs := runs[run := runs[run].(phase := Untracked(failedStart))];
      specs := specs - {task};
      callbacks := callbacks + [run];
      runs := runs[run := runs[run].(phase := Reported(failedStart))];
    }
  }
}
