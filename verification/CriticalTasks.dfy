/**
 The critical part of a background task, which is either cancelled or carried out. The background thread checks the
 flag, acts and stores the result while it holds the task's lock; the main thread cancels while it holds the lock.
 */
module CriticalTasks {
  import opened Options

  datatype Holder = Nobody | Background | MainThread

  /** Where the background thread stands inside its section. */
  datatype Progress = Outside | Entered | Cleared | Acting

  /** `acted` and `answers` record what has happened since the last reset. */
  datatype State = State(
    holder: Holder, progress: Progress, cancelled: bool, result: Option<int>, acted: bool, answers: seq<bool>)

  datatype Step =
    | Enter | Check | Act | Complete(result: int) | Leave
    | MainEnter | MainCancel | MainLeave
    | Reset

  /** The lock excludes the other thread, and a section that has acted stores the result before it ends. */
  predicate Enabled(s: State, step: Step) {
    match step
    case Enter => s.holder == Nobody
    case Check => s.holder == Background && s.progress == Entered
    case Act => s.holder == Background && s.progress == Cleared
    case Complete(_) => s.holder == Background && s.progress == Acting
    case Leave => s.holder == Background && s.progress != Acting
    case MainEnter => s.holder == Nobody
    case MainCancel => s.holder == MainThread
    case MainLeave => s.holder == MainThread
    case Reset => s.holder == Nobody
  }

  function Do(s: State, step: Step): State
    requires Enabled(s, step)
  {
    match step
    case Enter => s.(holder := Background, progress := Entered)
    case Check => s.(progress := if s.cancelled then Outside else Cleared)
    case Act => s.(progress := Acting, acted := true)
    case Complete(r) => s.(progress := Outside, result := Some(r))
    case Leave => s.(holder := Nobody, progress := Outside)
    case MainEnter => s.(holder := MainThread)
    case MainCancel =>
      if s.result.Some? then s.(answers := s.answers + [false])
      else s.(cancelled := true, answers := s.answers + [true])
    case MainLeave => s.(holder := Nobody)
    case Reset => s.(cancelled := false, result := None, acted := false, answers := [])
  }

  predicate Initial(s: State) { s == State(Nobody, Outside, false, None, false, []) }

  function After(s: State, steps: seq<Step>): Option<State>
    decreases |steps|
  {
    if steps == [] then Some(s)
    else if !Enabled(s, steps[0]) then None
    else After(Do(s, steps[0]), steps[1..])
  }

  /** The inductive invariant. */
  predicate Consistent(s: State) {
    && (s.holder == Background || s.progress == Outside)
    && (s.progress == Cleared ==> !s.cancelled)
    && (s.acted ==> s.result.Some? || s.progress == Acting)
    && (s.result.Some? || s.progress == Acting ==> s.acted)
    && (s.acted ==> !s.cancelled)
    && (s.cancelled <==> true in s.answers)
    && (false in s.answers ==> s.result.Some?)
  }

  lemma StepKeepsConsistent(s: State, step: Step)
    requires Consistent(s) && Enabled(s, step)
    ensures Consistent(Do(s, step))
  {
    if step.MainCancel? {
      var t := Do(s, step);
      assert forall b :: b in t.answers <==> b in s.answers || b == t.answers[|s.answers|];
    }
  }

  /**
   In every interleaving, between two resets: if some call of `cancel` returned True the critical action has not
   been carried out, if some call returned False the result is there, and so no two calls disagree.
   */
  lemma {:induction false} CancelledOrCarriedOut(s: State, steps: seq<Step>)
    requires Consistent(s) && After(s, steps).Some?
    ensures var t := After(s, steps).value;
      && !(true in t.answers && t.acted)
      && (false in t.answers ==> t.result.Some? && t.acted)
      && !(true in t.answers && false in t.answers)
    decreases |steps|
  {
    if steps != [] {
      StepKeepsConsistent(s, steps[0]);
      CancelledOrCarriedOut(Do(s, steps[0]), steps[1..]);
    }
  }

  lemma InitiallyConsistent(s: State)
    requires Initial(s)
    ensures Consistent(s)
  {}

  /** So it is in every run from the start. */
  lemma EveryRunCancelsOrCarriesOut(s: State, steps: seq<Step>)
    requires Initial(s) && After(s, steps).Some?
    ensures var t := After(s, steps).value;
      && !(true in t.answers && t.acted)
      && (false in t.answers ==> t.result.Some? && t.acted)
      && !(true in t.answers && false in t.answers)
  {
    InitiallyConsistent(s);
    CancelledOrCarriedOut(s, steps);
  }

  /** The fields of a critical task. */
  class CriticalTask {
    var isCancelled: bool
    var result: Option<int>

    ghost predicate Matches(s: State)
      reads this
    {
      isCancelled == s.cancelled && result == s.result
    }

    constructor ()
      ensures Matches(State(Nobody, Outside, false, None, false, []))
    {
      isCancelled, result := false, None;
    }

    method Reset(ghost s: State)
      requires Matches(s) && Enabled(s, Step.Reset)
      modifies this
      ensures Matches(Do(s, Step.Reset))
    {
      isCancelled, result := false, None;
    }

    /** Whether the task has been cancelled; otherwise it has run already. */
    method Cancel(ghost s: State) returns (done: bool)
      requires Matches(s) && Enabled(s, MainCancel)
      modifies this
      ensures Matches(Do(s, MainCancel)) && Do(s, MainCancel).answers == s.answers + [done]
    {
      if result.Some? {
        return false;
      }
      isCancelled := true;
      return true;
    }

    method Complete(r: int, ghost s: State)
      requires Matches(s) && Enabled(s, Step.Complete(r))
      modifies this
      ensures Matches(Do(s, Step.Complete(r)))
    {
      result := Some(r);
    }
  }
}
