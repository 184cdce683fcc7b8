// The executor: observe, observe again, mutate, observe once more (internal/executor/executor.go).
// The ports are arbitrary functions over an arbitrary world, so an observer may lie, change the world
// or answer differently each time it is asked.
module Executor {
  import opened Text
  import opened Plans
  import opened JsonValue

  type Answer = Result<Payload, string>

  // Either port may be missing.
  datatype Ports<!W> = Ports(
    observer: Option<(W, Step) -> (W, Answer)>,
    mutator: Option<(W, Step) -> (W, Option<string>)>)

  datatype Stage = Dispose | Observe | Compare | Reobserve | Apply | PostObserve | Postcondition

  datatype Class = OfDisposition | OfObserver | OfComparison | OfMutator | OfPostcondition

  datatype Cause =
    | Unsupported
    | Reported(message: string)
    | Incomparable(comparison: Comparison)
    | Differs

  datatype Port = Observer | Mutator

  datatype StepError =
    | StepError(id: string, stage: Stage, errorClass: Class, cause: Cause)
    | MissingPort(id: string, port: Port)
  {
    function Code(): string {
      match this
      case StepError(_, Dispose, _, _) => "disposition"
      case StepError(_, Observe, _, _) => "observe"
      case StepError(_, Compare, _, _) => "compare"
      case StepError(_, Reobserve, _, _) => "reobserve"
      case StepError(_, Apply, _, _) => "apply"
      case StepError(_, PostObserve, _, _) => "postobserve"
      case StepError(_, Postcondition, _, _) => "postcondition"
      case MissingPort(_, Observer) => "observer"
      case MissingPort(_, Mutator) => "mutator"
    }
  }

  datatype Verdict = Unset | Satisfied | Applied | Blocked | Projected | Failed

  datatype Outcome = Outcome(
    step: Step,
    id: string,
    owner: string,
    disposition: string,
    desired: Payload,
    observed: Payload,
    verdict: Verdict,
    noChange: bool,
    projected: bool,
    errorCode: string)

  function NewOutcome(step: Step): Outcome {
    Outcome(step, step.id, step.owner, step.disposition, step.desired, step.observed, Unset, false, false, "")
  }

  function WithObserved(outcome: Outcome, observed: Payload): Outcome {
    outcome.(observed := observed, step := outcome.step.(observed := observed))
  }

  function Failing(outcome: Outcome, error: StepError): Outcome {
    outcome.(verdict := Failed, noChange := false, errorCode := error.Code())
  }

  // A nil payload is read as no bytes at all.
  function Bytes(payload: Payload): string {
    if payload.None? then "" else payload.value
  }

  function Compared(observed: Payload, desired: Payload): Comparison {
    EqualJson(Bytes(observed), Bytes(desired))
  }

  function Incomparably(id: string, stage: Stage, comparison: Comparison): StepError {
    StepError(id, stage, if stage == Postcondition then OfPostcondition else OfComparison, Incomparable(comparison))
  }

  datatype Event =
    | Looked(step: Step, answer: Answer)
    | Mutated(step: Step, failure: Option<string>)

  // ---- What one step does ----

  datatype Turn<W> = Turn(world: W, events: seq<Event>, outcome: Outcome, error: Option<StepError>)

  function Fail<W>(world: W, events: seq<Event>, outcome: Outcome, error: StepError): Turn<W> {
    Turn(world, events, Failing(outcome, error), Some(error))
  }

  function TakeTurn<W>(ports: Ports<W>, world: W, step: Step, dryRun: bool): Turn<W> {
    var outcome := NewOutcome(step);
    if step.disposition == BLOCKED then
      Turn(world, [], outcome.(verdict := Blocked, errorCode := BLOCKED), None)
    else if step.disposition != SATISFIED && step.disposition != APPLY && step.disposition != REMOVE then
      Fail(world, [], outcome, StepError(step.id, Dispose, OfDisposition, Unsupported))
    else if ports.observer.None? then
      Fail(world, [], outcome, MissingPort(step.id, Observer))
    else
      var (next, answer) := ports.observer.value(world, step);
      var events := [Looked(step, answer)];
      if answer.Err? then
        Fail(next, events, outcome, StepError(step.id, Observe, OfObserver, Reported(answer.error)))
      else
        match Compared(answer.value, step.desired)
        case Equal => Turn(next, events, Converged(step, answer.value), None)
        case Mismatch => LookAgain(ports, next, events, step, answer.value, dryRun)
        case Invalid(_, _) =>
          Fail(next, events, WithObserved(outcome, answer.value),
               Incomparably(step.id, Compare, Compared(answer.value, step.desired)))
  }

  function Converged(step: Step, observed: Payload): Outcome {
    WithObserved(NewOutcome(step.(disposition := SATISFIED)), observed).(verdict := Satisfied, noChange := true)
  }

  function LookAgain<W>(ports: Ports<W>, world: W, events: seq<Event>, step: Step, observed: Payload, dryRun: bool): Turn<W>
    requires ports.observer.Some?
  {
    var marked := step.(observed := observed);
    var outcome := WithObserved(NewOutcome(step), observed);
    var (next, answer) := ports.observer.value(world, marked);
    var events := events + [Looked(marked, answer)];
    if answer.Err? then
      Fail(next, events, outcome, StepError(step.id, Reobserve, OfObserver, Reported(answer.error)))
    else
      match Compared(answer.value, step.desired)
      case Equal => Turn(next, events, Converged(step, answer.value), None)
      case Mismatch => Act(ports, next, events, Pending(step, answer.value), dryRun)
      case Invalid(_, _) =>
        Fail(next, events, WithObserved(outcome, answer.value),
             Incomparably(step.id, Compare, Compared(answer.value, step.desired)))
  }

  // A step the plan calls satisfied but the observer does not is applied after all.
  function Pending(step: Step, observed: Payload): Step {
    step.(disposition := if step.disposition == SATISFIED then APPLY else step.disposition, observed := observed)
  }

  function Act<W>(ports: Ports<W>, world: W, events: seq<Event>, step: Step, dryRun: bool): Turn<W>
    requires ports.observer.Some?
  {
    var outcome := NewOutcome(step);
    if dryRun then
      Turn(world, events, outcome.(verdict := Projected, projected := true), None)
    else if ports.mutator.None? then
      Fail(world, events, outcome, MissingPort(step.id, Mutator))
    else
      var (next, failure) := ports.mutator.value(world, step);
      var events := events + [Mutated(step, failure)];
      if failure.Some? then
        Fail(next, events, outcome, StepError(step.id, Apply, OfMutator, Reported(failure.value)))
      else
        Confirm(ports, next, events, step)
  }

  function Confirm<W>(ports: Ports<W>, world: W, events: seq<Event>, step: Step): Turn<W>
    requires ports.observer.Some?
  {
    var outcome := NewOutcome(step);
    var (next, answer) := ports.observer.value(world, step);
    var events := events + [Looked(step, answer)];
    if answer.Err? then
      Fail(next, events, outcome, StepError(step.id, PostObserve, OfObserver, Reported(answer.error)))
    else
      var outcome := WithObserved(outcome, answer.value);
      match Compared(answer.value, step.desired)
      case Equal => Turn(next, events, outcome.(verdict := Applied), None)
      case Mismatch => Fail(next, events, outcome, StepError(step.id, Postcondition, OfPostcondition, Differs))
      case Invalid(_, _) =>
        Fail(next, events, outcome, Incomparably(step.id, Postcondition, Compared(answer.value, step.desired)))
  }

  // A step that did not stop the run has one of four verdicts; one that did has failed.
  lemma TurnEnds<W>(ports: Ports<W>, world: W, step: Step, dryRun: bool)
    ensures var turn := TakeTurn(ports, world, step, dryRun);
            && turn.outcome.verdict != Unset
            && (turn.error.Some? <==> turn.outcome.verdict == Failed)
  {
    hide Compared, NewOutcome, WithObserved, Incomparably;
  }

  // ---- What a plan does ----

  datatype Run<W> = Run(
    world: W,
    events: seq<Event>,
    outcomes: seq<Outcome>,
    noChange: bool,
    error: Option<StepError>)

  function RunOf<W>(ports: Ports<W>, world: W, steps: seq<Step>, dryRun: bool): Run<W> {
    if steps == [] then
      Run(world, [], [], true, None)
    else
      var turn := TakeTurn(ports, world, steps[0], dryRun);
      if turn.error.Some? then
        Run(turn.world, turn.events, [turn.outcome], false, turn.error)
      else
        Follow(turn, RunOf(ports, turn.world, steps[1..], dryRun))
  }

  predicate Quiet(outcome: Outcome) {
    outcome.verdict == Satisfied || outcome.verdict == Blocked
  }

  function Follow<W>(turn: Turn<W>, rest: Run<W>): Run<W> {
    Run(rest.world, turn.events + rest.events, [turn.outcome] + rest.outcomes,
        Quiet(turn.outcome) && rest.noChange, rest.error)
  }

  // What is done already, put in front of what remains.
  function After<W>(events: seq<Event>, outcomes: seq<Outcome>, noChange: bool, rest: Run<W>): Run<W> {
    Run(rest.world, events + rest.events, outcomes + rest.outcomes, noChange && rest.noChange, rest.error)
  }

  lemma AfterTurn<W>(events: seq<Event>, outcomes: seq<Outcome>, noChange: bool, turn: Turn<W>, rest: Run<W>)
    ensures After(events, outcomes, noChange, Follow(turn, rest))
         == After(events + turn.events, outcomes + [turn.outcome], noChange && Quiet(turn.outcome), rest)
  {
    AppendIsAssociative(events, turn.events, rest.events);
    AppendIsAssociative(outcomes, [turn.outcome], rest.outcomes);
  }

  datatype Outcomes = Outcomes(outcomes: seq<Outcome>, noChange: bool)

  class Executor<!W> {
    const ports: Ports<W>
    var world: W
    // Calls made to the ports: by the steps before, and by the step in hand.
    ghost var events: seq<Event>
    ghost var recent: seq<Event>

    constructor (ports: Ports<W>, world: W)
      ensures this.ports == ports && this.world == world && events == []
    {
      this.ports, this.world, events, recent := ports, world, [], [];
    }

    method Look(step: Step) returns (answer: Answer)
      requires ports.observer.Some?
      modifies this`world, this`recent
      ensures (world, answer) == ports.observer.value(old(world), step)
      ensures recent == old(recent) + [Looked(step, answer)]
    {
      var (next, said) := ports.observer.value(world, step);
      world, answer := next, said;
      recent := recent + [Looked(step, answer)];
    }

    method Mutate(step: Step) returns (failure: Option<string>)
      requires ports.mutator.Some?
      modifies this`world, this`recent
      ensures (world, failure) == ports.mutator.value(old(world), step)
      ensures recent == old(recent) + [Mutated(step, failure)]
    {
      var (next, said) := ports.mutator.value(world, step);
      world, failure := next, said;
      recent := recent + [Mutated(step, failure)];
    }

    // The body of the loop over the plan's steps, up to the comparison that decides whether to act.
    method Take(input: Step, dryRun: bool) returns (outcome: Outcome, error: Option<StepError>)
      modifies this`world, this`recent
      ensures Turn(world, recent, outcome, error) == TakeTurn(ports, old(world), input, dryRun)
    {
      hide Compared, NewOutcome, WithObserved, Failing, Act, Incomparably;
      var step := input;
      recent := [];
      outcome, error := NewOutcome(step), None;
      if step.disposition == BLOCKED {
        outcome := outcome.(verdict := Blocked, errorCode := BLOCKED);
        return;
      }
      if step.disposition != SATISFIED && step.disposition != APPLY && step.disposition != REMOVE {
        outcome, error := Stop(outcome, StepError(step.id, Dispose, OfDisposition, Unsupported));
        return;
      }
      if ports.observer.None? {
        outcome, error := Stop(outcome, MissingPort(step.id, Observer));
        return;
      }
      var answer := Look(step);
      assert recent == [Looked(step, answer)];
      if answer.Err? {
        outcome, error := Stop(outcome, StepError(step.id, Observe, OfObserver, Reported(answer.error)));
        return;
      }
      outcome := WithObserved(outcome, answer.value);
      var comparison := Compared(answer.value, step.desired);
      if comparison.Mismatch? {
        var marked := step.(observed := answer.value);
        answer := Look(marked);
        if answer.Err? {
          outcome, error := Stop(outcome, StepError(step.id, Reobserve, OfObserver, Reported(answer.error)));
          return;
        }
        outcome := WithObserved(outcome, answer.value);
        comparison := Compared(answer.value, step.desired);
      }
      if comparison.Invalid? {
        outcome, error := Stop(outcome, Incomparably(step.id, Compare, comparison));
        return;
      }
      if comparison.Equal? {
        step := step.(disposition := SATISFIED);
        outcome := WithObserved(NewOutcome(step), answer.value);
        outcome := outcome.(verdict := Satisfied, noChange := true);
        return;
      }
      if step.disposition == SATISFIED { step := step.(disposition := APPLY); }
      step := step.(observed := answer.value);
      assert step == Pending(input, answer.value);
      outcome, error := Finish(step, dryRun);
    }

    // The rest of the body: project the change or make it and confirm it.
    method Finish(step: Step, dryRun: bool) returns (outcome: Outcome, error: Option<StepError>)
      requires ports.observer.Some?
      modifies this`world, this`recent
      ensures Turn(world, recent, outcome, error) == Act(ports, old(world), old(recent), step, dryRun)
    {
      hide Compared, NewOutcome, WithObserved, Failing, Incomparably;
      outcome, error := NewOutcome(step), None;
      if dryRun {
        outcome := outcome.(verdict := Projected, projected := true);
        return;
      }
      if ports.mutator.None? {
        outcome, error := Stop(outcome, MissingPort(step.id, Mutator));
        return;
      }
      var failure := Mutate(step);
      if failure.Some? {
        outcome, error := Stop(outcome, StepError(step.id, Apply, OfMutator, Reported(failure.value)));
        return;
      }
      var post := Look(step);
      if post.Err? {
        outcome, error := Stop(outcome, StepError(step.id, PostObserve, OfObserver, Reported(post.error)));
        return;
      }
      outcome := WithObserved(outcome, post.value);
      var comparison := Compared(post.value, step.desired);
      if comparison.Invalid? {
        outcome, error := Stop(outcome, Incomparably(step.id, Postcondition, comparison));
        return;
      }
      if comparison.Mismatch? {
        outcome, error := Stop(outcome, StepError(step.id, Postcondition, OfPostcondition, Differs));
        return;
      }
      outcome := outcome.(verdict := Applied);
    }

    method Stop(outcome: Outcome, error: StepError) returns (failed: Outcome, stopped: Option<StepError>)
      ensures failed == Failing(outcome, error) && stopped == Some(error)
    {
      failed := outcome.(verdict := Failed, noChange := false, errorCode := error.Code());
      stopped := Some(error);
    }

    method Execute(plan: Plan, dryRun: bool) returns (result: Outcomes, error: Option<StepError>)
      modifies this
      ensures old(events) <= events
      ensures RunOf(ports, old(world), plan.steps, dryRun)
           == Run(world, events[|old(events)|..], result.outcomes, result.noChange, error)
    {
      hide TakeTurn;
      ghost var run := RunOf(ports, world, plan.steps, dryRun);
      ghost var made: seq<Event> := [];
      ghost var earlier := events;
      result, error := Outcomes([], true), None;
      for i := 0 to |plan.steps|
        invariant events == earlier + made
        invariant error.None?
        invariant run == After(made, result.outcomes, result.noChange, RunOf(ports, world, plan.steps[i..], dryRun))
      {
        ghost var turn := TakeTurn(ports, world, plan.steps[i], dryRun);
        ghost var rest := RunOf(ports, turn.world, plan.steps[i + 1..], dryRun);
        assert plan.steps[i..][0] == plan.steps[i] && plan.steps[i..][1..] == plan.steps[i + 1..];
        AfterTurn(made, result.outcomes, result.noChange, turn, rest);
        AppendIsAssociative(earlier, made, turn.events);
        TurnEnds(ports, world, plan.steps[i], dryRun);
        var outcome, stopped := Take(plan.steps[i], dryRun);
        events, made := events + recent, made + recent;
        result := result.(outcomes := result.outcomes + [outcome]);
        if stopped.Some? {
          result := result.(noChange := false);
          error := stopped;
          return;
        }
        if outcome.verdict == Applied || outcome.verdict == Projected {
          result := result.(noChange := false);
        }
      }
    }
  }
}
