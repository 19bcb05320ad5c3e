/**
 The executor of long tasks. Every section that runs under the executor's lock is one step; the steps of any number
 of tasks and of any number of threads that cancel them interleave freely.
 */
module AsyncExecutors {
  import opened Options
  import CriticalTasks

  /** Where the call of `run` for a scheduled action stands; `Skipped` has seen the flag and not called the function. */
  datatype Phase = Pending | Running | Skipped | Finished

  /** Where a call of `cancel` that has set the flag stands. */
  datatype CancelPhase = Waiting | Woken | Returned

  datatype State = State(
    scheduled: Option<string>, cancelled: bool, finished: bool, runs: seq<Phase>, cancels: seq<CancelPhase>)

  function RunningTasks(runs: seq<Phase>): set<nat> { set r | 0 <= r < |runs| && runs[r] == Running }

  datatype Step =
    | Schedule(action: string)
    | Gate(run: nat)
    | Finish(run: nat)
    | Request
    | Wake(cancel: nat)
    | Reset(cancel: nat)

  /** A task function passes the gate when it clears the event; the function itself runs until `Finish`. */
  predicate Enabled(s: State, step: Step) {
    match step
    case Schedule(_) => true
    case Gate(r) => r < |s.runs| && s.runs[r] == Pending
    case Finish(r) => r < |s.runs| && (s.runs[r] == Running || s.runs[r] == Skipped)
    case Request => true
    case Wake(c) => c < |s.cancels| && s.cancels[c] == Waiting && s.finished
    case Reset(c) => c < |s.cancels| && s.cancels[c] == Woken
  }

  /** A new action is accepted, and the call of `run` for it is on its way. */
  predicate Accepts(s: State, step: Step) { step.Schedule? && s.scheduled.None? }

  function Do(s: State, step: Step): State
    requires Enabled(s, step)
  {
    match step
    case Schedule(action) =>
      if s.scheduled.Some? then s
      else State(Some(action), false, true, s.runs + [Pending], s.cancels)
    case Gate(r) =>
      if s.cancelled then s.(runs := s.runs[r := Skipped])
      else s.(runs := s.runs[r := Running], finished := false)
    case Finish(r) => s.(scheduled := None, finished := true, runs := s.runs[r := Finished])
    case Request =>
      if s.scheduled.None? then s
      else s.(cancelled := true, cancels := s.cancels + [Waiting])
    case Wake(c) => s.(cancels := s.cancels[c := Woken])
    case Reset(c) => s.(scheduled := None, cancels := s.cancels[c := Returned])
  }

  // ---------- runs ----------

  datatype Run = Run(states: seq<State>, steps: seq<Step>)
  {
    ghost predicate Valid() {
      && |states| == |steps| + 1
      && states[0] == State(None, false, false, [], [])
      && forall i | 0 <= i < |steps| :: Enabled(states[i], steps[i]) && states[i + 1] == Do(states[i], steps[i])
    }

    /** No action is accepted while the call of `run` for another one is outstanding. */
    ghost predicate OneAtATime() {
      forall i | 0 <= i < |states| :: AtMostOne(states[i].runs)
    }

    /** No action is accepted from state `i` to state `j`. */
    ghost predicate Calm(i: nat, j: nat)
      requires Valid() && i <= j < |states|
    {
      forall k | i <= k < j :: !Accepts(states[k], steps[k])
    }
  }

  ghost predicate AtMostOne(runs: seq<Phase>) {
    forall q, r | 0 <= q < r < |runs| :: runs[q] == Finished || runs[r] == Finished
  }

  // ---------- the barrier ----------

  /** With one task at a time, a set event means that no task function is running. */
  ghost predicate EventIsRight(s: State) {
    s.finished ==> RunningTasks(s.runs) == {}
  }

  lemma StepKeepsEventRight(s: State, step: Step)
    requires Enabled(s, step) && EventIsRight(s) && AtMostOne(s.runs) && AtMostOne(Do(s, step).runs)
    ensures EventIsRight(Do(s, step))
  {
    var t := Do(s, step);
    if Accepts(s, step) {
      assert t.runs[|s.runs|] == Pending;
    } else if step.Finish? {
      assert forall r | 0 <= r < |s.runs| && r != step.run :: s.runs[r] == Finished;
    } else {
      assert RunningTasks(t.runs) == RunningTasks(s.runs) || !t.finished;
    }
  }

  lemma {:induction false} EventIsAlwaysRight(run: Run, i: nat)
    requires run.Valid() && run.OneAtATime() && i < |run.states|
    ensures EventIsRight(run.states[i])
  {
    if i > 0 {
      EventIsAlwaysRight(run, i - 1);
      assert AtMostOne(run.states[i - 1].runs) && AtMostOne(run.states[i].runs);
      StepKeepsEventRight(run.states[i - 1], run.steps[i - 1]);
    }
  }

  /** From the moment the flag is set until an action is accepted, it stays set and no function starts. */
  lemma {:induction false} NothingStarts(run: Run, i: nat, j: nat)
    requires run.Valid() && i <= j < |run.states| && run.states[i].cancelled && run.Calm(i, j)
    ensures run.states[j].cancelled && RunningTasks(run.states[j].runs) <= RunningTasks(run.states[i].runs)
  {
    if i < j {
      NothingStarts(run, i, j - 1);
      assert !Accepts(run.states[j - 1], run.steps[j - 1]);
    }
  }

  /** A task that is running stays on the list, running or finished. */
  lemma {:induction false} RunningThenFinished(run: Run, i: nat, j: nat, r: nat)
    requires run.Valid() && i <= j < |run.states| && r in RunningTasks(run.states[i].runs)
    ensures r < |run.states[j].runs| && (run.states[j].runs[r] == Running || run.states[j].runs[r] == Finished)
  {
    if i < j { RunningThenFinished(run, i, j - 1, r); }
  }

  /**
   `cancel` is a barrier: it returns only after the functions that were running when it set the flag have finished,
   and from then on no function runs until the next action is accepted.
   */
  lemma CancelIsABarrier(run: Run, i: nat, j: nat, k: nat)
    requires run.Valid() && run.OneAtATime() && i < j <= k < |run.states|
    requires run.steps[i] == Request && run.states[i].scheduled.Some?
    requires run.steps[j - 1] == Wake(|run.states[i].cancels|)
    ensures forall r | r in RunningTasks(run.states[i].runs) ::
      r < |run.states[j].runs| && run.states[j].runs[r] == Finished
    ensures run.Calm(i, k) ==> RunningTasks(run.states[k].runs) == {}
  {
    EventIsAlwaysRight(run, j - 1);
    assert Enabled(run.states[j - 1], run.steps[j - 1]);
    assert run.states[j] == Do(run.states[j - 1], run.steps[j - 1]);
    assert RunningTasks(run.states[j - 1].runs) == {};
    forall r | r in RunningTasks(run.states[i].runs)
      ensures r < |run.states[j].runs| && run.states[j].runs[r] == Finished
    {
      RunningThenFinished(run, i, j - 1, r);
      assert r !in RunningTasks(run.states[j - 1].runs);
    }
    if run.Calm(i, k) {
      assert run.states[i + 1].cancelled;
      assert run.Calm(i + 1, j) && run.Calm(j, k);
      NothingStarts(run, i + 1, j);
      NothingStarts(run, j, k);
    }
  }

  // ---------- one task after the other ----------

  /** Whenever all tasks have finished, the executor accepts an action. */
  lemma {:induction false} NeverStuck(run: Run, i: nat)
    requires run.Valid() && i < |run.states|
    requires forall r | 0 <= r < |run.states[i].runs| :: run.states[i].runs[r] == Finished
    ensures run.states[i].scheduled.None?
  {
    SomeTaskIsScheduled(run, i);
  }

  lemma {:induction false} SomeTaskIsScheduled(run: Run, i: nat)
    requires run.Valid() && i < |run.states|
    ensures run.states[i].scheduled.Some? ==>
      exists r :: 0 <= r < |run.states[i].runs| && run.states[i].runs[r] != Finished
  {
    if i > 0 {
      SomeTaskIsScheduled(run, i - 1);
      var s, step, t := run.states[i - 1], run.steps[i - 1], run.states[i];
      assert t == Do(s, step);
      if Accepts(s, step) {
        assert t.runs[|s.runs|] == Pending;
      } else if t.scheduled.Some? {
        var r :| 0 <= r < |s.runs| && s.runs[r] != Finished;
        assert t.runs[r] != Finished;
      }
    }
  }

  /** Once no function is running, a `cancel` that waits can return. */
  lemma {:induction false} CancelCanReturn(run: Run, i: nat, c: nat)
    requires run.Valid() && i < |run.states| && RunningTasks(run.states[i].runs) == {}
    requires c < |run.states[i].cancels| && run.states[i].cancels[c] == Waiting
    ensures Enabled(run.states[i], Wake(c))
  {
    EventComesBack(run, i);
  }

  lemma {:induction false} EventComesBack(run: Run, i: nat)
    requires run.Valid() && i < |run.states|
    ensures !run.states[i].finished ==> RunningTasks(run.states[i].runs) != {} || run.states[i].runs == []
    ensures run.states[i].runs == [] ==> run.states[i].scheduled.None? && run.states[i].cancels == []
  {
    if i > 0 {
      EventComesBack(run, i - 1);
      var s, step, t := run.states[i - 1], run.steps[i - 1], run.states[i];
      assert t == Do(s, step);
      if step.Gate? && !s.cancelled {
        assert step.run in RunningTasks(t.runs);
      } else if !t.finished && s.runs != [] {
        var r :| r in RunningTasks(s.runs);
        assert r in RunningTasks(t.runs);
      }
    }
  }

  /** As long as nothing is cancelled there is one task at a time: an action is refused until the last has finished. */
  lemma {:induction false} OneAtATimeWithoutCancel(run: Run, i: nat)
    requires run.Valid() && i < |run.states|
    requires forall k | 0 <= k < i :: !run.steps[k].Request?
    ensures AtMostOne(run.states[i].runs) && run.states[i].cancels == []
    ensures run.states[i].scheduled.None? ==>
      forall r | 0 <= r < |run.states[i].runs| :: run.states[i].runs[r] == Finished
  {
    if i > 0 {
      OneAtATimeWithoutCancel(run, i - 1);
      assert run.states[i] == Do(run.states[i - 1], run.steps[i - 1]);
    }
  }

  // ---------- two tasks at a time ----------

  /**
   Without that condition `cancel` does not keep the cancelled task from running: the event is set as soon as an
   action is accepted, so `cancel` returns at once when the task has not begun; when the next action is accepted the
   flag is cleared, and the cancelled task begins.
   */
  lemma CancelledTaskRuns(first: string, second: string) returns (run: Run)
    ensures run.Valid() && |run.steps| == 6
    ensures run.steps[0] == Schedule(first) && run.steps[1] == Request
    ensures run.states[4].cancels == [Returned] && run.states[4].runs == [Pending]
    ensures run.states[6].runs == [Running, Pending]
  {
    var s0 := State(None, false, false, [], []);
    var s1 := State(Some(first), false, true, [Pending], []);
    var s2 := State(Some(first), true, true, [Pending], [Waiting]);
    var s3 := State(Some(first), true, true, [Pending], [Woken]);
    var s4 := State(None, true, true, [Pending], [Returned]);
    var s5 := State(Some(second), false, true, [Pending, Pending], [Returned]);
    var s6 := State(Some(second), false, false, [Running, Pending], [Returned]);
    assert s1 == Do(s0, Schedule(first)) && s2 == Do(s1, Request);
    assert s3 == Do(s2, Wake(0)) && s4 == Do(s3, Reset(0));
    assert s5 == Do(s4, Schedule(second)) && s6 == Do(s5, Gate(0));
    assert Enabled(s0, Schedule(first)) && Enabled(s1, Request) && Enabled(s2, Wake(0));
    assert Enabled(s3, Reset(0)) && Enabled(s4, Schedule(second)) && Enabled(s5, Gate(0));
    hide Do, Enabled;
    run := Run([s0, s1, s2, s3, s4, s5, s6], [Schedule(first), Request, Wake(0), Reset(0), Schedule(second), Gate(0)]);
  }

  /** `cancel` has set the flag in step `i`, and no action has been accepted since. */
  ghost predicate CancelledSince(run: Run, i: nat, j: nat)
    requires run.Valid() && j < |run.states|
  {
    i < j && run.steps[i] == Request && run.states[i].scheduled.Some? && run.Calm(i, j)
  }

  lemma {:induction false} FlagIsSetExactly(run: Run, j: nat)
    requires run.Valid() && j < |run.states|
    ensures run.states[j].cancelled <==> exists i: nat :: CancelledSince(run, i, j)
  {
    if j > 0 {
      FlagIsSetExactly(run, j - 1);
      var s, step := run.states[j - 1], run.steps[j - 1];
      assert run.states[j] == Do(s, step);
      if step == Request && s.scheduled.Some? {
        assert CancelledSince(run, j - 1, j);
      } else if Accepts(s, step) {
        forall i: nat
          ensures !CancelledSince(run, i, j)
        {
          assert i < j ==> !run.Calm(i, j);
        }
        assert !run.states[j].cancelled;
      } else {
        forall i: nat
          ensures CancelledSince(run, i, j) <==> CancelledSince(run, i, j - 1)
        {
          if i < j - 1 { assert run.Calm(i, j) <==> run.Calm(i, j - 1); }
        }
        assert run.states[j].cancelled == s.cancelled;
        if s.cancelled {
          var i: nat :| CancelledSince(run, i, j - 1);
          assert CancelledSince(run, i, j);
        }
      }
    }
  }

  /** A task function is called exactly if an action has been accepted since the last `cancel` that set the flag. */
  lemma TaskRunsExactly(run: Run, j: nat, r: nat)
    requires run.Valid() && j < |run.steps| && run.steps[j] == Gate(r)
    ensures r < |run.states[j + 1].runs|
    ensures run.states[j + 1].runs[r] == Running <==> !exists i: nat :: CancelledSince(run, i, j)
  {
    FlagIsSetExactly(run, j);
    assert Enabled(run.states[j], run.steps[j]) && run.states[j + 1] == Do(run.states[j], run.steps[j]);
  }

  // ---------- the object ----------

  /** The fields of the executor; where the threads stand is known to the proof only. */
  class AsyncExecutor {
    var scheduledAction: Option<string>
    var isCancelled: bool
    var finishEvent: bool
    const criticalTask: CriticalTasks.CriticalTask
    ghost var runs: seq<Phase>
    ghost var cancels: seq<CancelPhase>

    ghost function Model(): State
      reads this
    {
      State(scheduledAction, isCancelled, finishEvent, runs, cancels)
    }

    constructor ()
      ensures Model() == State(None, false, false, [], []) && fresh(criticalTask)
      ensures criticalTask.result.None? && !criticalTask.isCancelled
    {
      criticalTask := new CriticalTasks.CriticalTask();
      scheduledAction, isCancelled, finishEvent := None, false, false;
      runs, cancels := [], [];
    }

    /** Returns the action that is in the way, if any. */
    method Schedule(action: string) returns (previous: Option<string>)
      modifies this
      ensures Model() == Do(old(Model()), Step.Schedule(action)) && previous == old(scheduledAction)
    {
      if scheduledAction.Some? {
        return scheduledAction;
      }
      scheduledAction := Some(action);
      isCancelled := false;
      finishEvent := true;
      runs := runs + [Pending];
      return None;
    }

    /** The first section of `run`: whether the function is called. */
    method PassGate(ghost run: nat) returns (proceed: bool)
      requires Enabled(Model(), Gate(run))
      modifies this
      ensures Model() == Do(old(Model()), Gate(run)) && (proceed <==> !old(isCancelled))
    {
      if isCancelled {
        runs := runs[run := Skipped];
        return false;
      }
      finishEvent := false;
      runs := runs[run := Running];
      return true;
    }

    /** The last section of `run`, however the function ended, if it was called; the critical task starts afresh. */
    method FinishRun(ghost run: nat, ghost task: CriticalTasks.State)
      requires Enabled(Model(), Finish(run))
      requires criticalTask.Matches(task) && CriticalTasks.Enabled(task, CriticalTasks.Step.Reset)
      modifies this, criticalTask
      ensures Model() == Do(old(Model()), Finish(run))
      ensures criticalTask.Matches(CriticalTasks.Do(task, CriticalTasks.Step.Reset))
    {
      scheduledAction := None;
      finishEvent := true;
      runs := runs[run := Finished];
      criticalTask.Reset(task);
    }

    /** The first section of `cancel`: whether there is anything to wait for. */
    method RequestCancel() returns (wait: bool)
      modifies this
      ensures Model() == Do(old(Model()), Request) && (wait <==> old(scheduledAction).Some?)
    {
      if scheduledAction.None? {
        return false;
      }
      isCancelled := true;
      cancels := cancels + [Waiting];
      return true;
    }

    /** The last section of `cancel`, after the event has been seen. */
    method ResetAfterWait(ghost cancel: nat)
      requires Enabled(Model(), Reset(cancel))
      modifies this
      ensures Model() == Do(old(Model()), Reset(cancel))
    {
      scheduledAction := None;
      cancels := cancels[cancel := Returned];
    }
  }
}
