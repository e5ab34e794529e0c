/** The step-by-step wizard (client/src/components/StepByStep.js): which step is active, how the
    back, next and reset buttons move it, and the hint shown for it. */
module StepByStep {
  import opened Js
  import opened RootContext

  /** A step: its hint and whether it has a `callback` that must approve moving on. */
  datatype Step = Step(hint: string, hasCallback: bool)

  class Stepper {
    const steps: seq<Step>
    var activeStep: int

    constructor(steps: seq<Step>)
      ensures this.steps == steps && activeStep == 0
    {
      this.steps := steps;
      activeStep := 0;
    }

    predicate IsFirst()
      reads this
    {
      activeStep == 0
    }

    predicate HasNext()
      reads this
    {
      activeStep < |steps| - 1
    }

    predicate HasCompleted()
      reads this
    {
      activeStep == |steps|
    }

    /** The active step is one of the steps; the back and next buttons keep it so. */
    predicate OnAStep()
      reads this
    {
      0 <= activeStep < |steps|
    }

    /** `getStepHint()`: the active step's hint, or `''` when there is no step at that index. */
    function StepHint(): (r: string)
      reads this
      ensures OnAStep() ==> r == steps[activeStep].hint
      ensures !OnAStep() ==> r == ""
    {
      if 0 <= activeStep < |steps| then steps[activeStep].hint else ""
    }

    /** `handleBack`: one step back. The button is disabled on the first step, so from a step it
        leads to a step. */
    method HandleBack()
      modifies this
      ensures activeStep == old(activeStep) - 1
      ensures old(OnAStep() && !IsFirst()) ==> OnAStep()
    {
      activeStep := activeStep - 1;
    }

    /** `handleNext`: `approval` is what the active step's callback resolves to (unused when it has
        none). The step advances by one exactly when there is no callback or its result is
        truthy. The button is shown only while `hasNext` holds, so from there it leads to a step.
        Reading `steps[activeStep]` requires the active step to exist. */
    method HandleNext(approval: Value)
      requires OnAStep()
      modifies this
      ensures activeStep == old(activeStep) + (if !steps[old(activeStep)].hasCallback || Truthy(approval) then 1 else 0)
      ensures old(HasNext()) ==> OnAStep()
    {
      if !steps[activeStep].hasCallback || Truthy(approval) {
        activeStep := activeStep + 1;
      }
    }

    /** `handleReset`: the email is no longer marked as sent, then the `onReset` callback is
        called and the first step is made active. `hasOnReset` says whether the caller passed
        `onReset`; without one the call throws after the dispatch, so the store has changed but
        the active step has not (`completed` is false). */
    method HandleReset(store: AssignmentsStore, hasOnReset: bool) returns (completed: bool)
      modifies this, store
      ensures completed == hasOnReset
      ensures store.state == old(store.state).(emailSent := false)
      ensures hasOnReset ==> activeStep == 0 && IsFirst()
      ensures !hasOnReset ==> activeStep == old(activeStep)
    {
      store.Dispatch(SetEmailSent(Bool(false)));
      if !hasOnReset {
        return false;
      }
      activeStep := 0;
      completed := true;
    }
  }
}
