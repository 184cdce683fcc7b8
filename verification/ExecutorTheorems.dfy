// What a run of the executor guarantees (internal/executor/executor.go:121-206): safety with ports that
// may do anything, faithfulness of the dry run, and convergence.
module ExecutorTheorems {
  import opened Text
  import opened Plans
  import opened JsonValue
  import opened Executor

  // ---- Safety, whatever the ports do ----

  ghost predicate Saw(event: Event, step: Step, comparison: Comparison) {
    && event.Looked? && event.step.id == step.id
    && event.answer.Ok? && Compared(event.answer.value, step.desired) == comparison
  }

  ghost predicate Tried(event: Event, step: Step) {
    event.Mutated? && event.step.id == step.id && event.step.desired == step.desired
  }

  // Which step each call is handed: first the plan's own, then with what the observation before it said,
  // and for the mutation and the last observation with the disposition it is carried out with.
  ghost predicate Handed(step: Step, calls: seq<Event>) {
    && |calls| <= 4
    && (|calls| > 0 ==> calls[0].Looked? && calls[0].step == step)
    && (|calls| > 1 ==>
          && calls[0].answer.Ok?
          && calls[1].Looked? && calls[1].step == step.(observed := calls[0].answer.value))
    && (|calls| > 2 ==>
          && calls[1].answer.Ok?
          && calls[2].Mutated?
          && calls[2].step == step.(observed := calls[1].answer.value,
                                    disposition := if step.disposition == "satisfied" then "apply" else step.disposition))
    && (|calls| > 3 ==> calls[3].Looked? && calls[3].step == calls[2].step)
  }

  // The calls one step may make and what they must be for each verdict: a mutation comes third, once,
  // after two observations that both differed, and never in a dry run; a step counts as satisfied or
  // applied only when the last thing seen equals what is desired.
  ghost predicate Orderly(step: Step, dryRun: bool, calls: seq<Event>, outcome: Outcome) {
    && Names(outcome, step) && Handed(step, calls)
    && outcome.observed == LastRead(step.observed, calls)
    && (outcome.noChange <==> outcome.verdict == Satisfied) && (outcome.projected <==> outcome.verdict == Projected)
    && (forall k :: 0 <= k < |calls| && calls[k].Mutated? ==>
          k == 2 && !dryRun && Saw(calls[0], step, Mismatch) && Saw(calls[1], step, Mismatch) && Tried(calls[2], step))
    && match outcome.verdict
       case Unset => false
       case Blocked => step.disposition == BLOCKED && calls == [] && outcome.disposition == BLOCKED && outcome.errorCode == BLOCKED
       case Satisfied =>
         && step.disposition != BLOCKED && outcome.disposition == SATISFIED
         && (|calls| == 1 || (|calls| == 2 && Saw(calls[0], step, Mismatch)))
         && Saw(calls[|calls| - 1], step, Equal)
       case Projected =>
         && step.disposition != BLOCKED && dryRun && outcome.disposition == Changing(step.disposition)
         && |calls| == 2 && Saw(calls[0], step, Mismatch) && Saw(calls[1], step, Mismatch)
       case Applied =>
         && step.disposition != BLOCKED && !dryRun && outcome.disposition == Changing(step.disposition)
         && |calls| == 4 && calls[2].Mutated? && calls[2].failure.None? && Saw(calls[3], step, Equal)
       case Failed =>
         && |calls| <= 4
         && (|calls| == 4 ==> calls[2].Mutated? && calls[2].failure.None? && !Saw(calls[3], step, Equal))
  }

  ghost predicate CallsOf(step: Step, calls: seq<Event>) {
    forall k :: 0 <= k < |calls| ==> calls[k].step.id == step.id
  }

  lemma ConfirmIsOrderly<W>(ports: Ports<W>, world: W, events: seq<Event>, step: Step)
    requires ports.observer.Some?
    ensures var turn := Confirm(ports, world, events, step);
            && |turn.events| == |events| + 1 && turn.events[..|events|] == events
            && turn.events[|events|].step == step && turn.events[|events|].Looked?
            && Names(turn.outcome, step)
            && turn.outcome.verdict == (if Saw(turn.events[|events|], step, Equal) then Applied else Failed)
            && turn.outcome.disposition == step.disposition && !turn.outcome.noChange && !turn.outcome.projected
            && turn.outcome.observed == LastRead(step.observed, [turn.events[|events|]])
            && Stops(turn)
  {
    hide Compared, Incomparably, StepError.Code;
  }

  lemma ActIsOrderly<W>(ports: Ports<W>, world: W, events: seq<Event>, step: Step, dryRun: bool)
    requires ports.observer.Some?
    ensures var turn := Act(ports, world, events, step, dryRun);
            && Names(turn.outcome, step) && Stops(turn)
            && |events| <= |turn.events| && turn.events[..|events|] == events
            && var more := turn.events[|events|..];
               && |more| <= 2
               && (forall k :: 0 <= k < |more| ==> more[k].step == step)
               && turn.outcome.disposition == step.disposition && !turn.outcome.noChange
               && (turn.outcome.projected <==> turn.outcome.verdict == Projected)
               && turn.outcome.observed == LastRead(step.observed, more)
               && (|more| > 0 ==> !dryRun && Tried(more[0], step))
               && (|more| == 2 ==> more[0].failure.None? && more[1].Looked?)
               && match turn.outcome.verdict
                  case Projected => dryRun && more == []
                  case Applied => |more| == 2 && Saw(more[1], step, Equal)
                  case Failed => |more| == 2 ==> !Saw(more[1], step, Equal)
                  case _ => false
  {
    hide Compared, Incomparably, StepError.Code, Confirm;
    if !dryRun && ports.mutator.Some? {
      var (next, failure) := ports.mutator.value(world, step);
      var made := events + [Mutated(step, failure)];
      if failure.None? {
        ConfirmIsOrderly(ports, next, made, step);
        var turn := Confirm(ports, next, made, step);
        assert turn.events[..|events|] == turn.events[..|made|][..|events|] == events;
        assert turn.events[|events|] == turn.events[..|made|][|events|] == made[|events|];
        assert turn.events[|events|..] == [made[|events|]] + [turn.events[|made|]];
        LastReadOfTwo(step.observed, made[|events|], turn.events[|made|]);
      } else {
        assert made[|events|..] == [Mutated(step, failure)];
        LastReadOfOne(step.observed, Mutated(step, failure));
      }
    }
  }

  lemma ActedIsOrderly<W>(ports: Ports<W>, world: W, first: Event, second: Event, step: Step, pending: Step, dryRun: bool)
    requires ports.observer.Some? && Saw(first, step, Mismatch) && Saw(second, step, Mismatch)
    requires step.disposition != BLOCKED && pending == Pending(step, second.answer.value)
    requires first.step == step && second.step == step.(observed := first.answer.value)
    ensures var turn := Act(ports, world, [first] + [second], pending, dryRun);
            && Orderly(step, dryRun, turn.events, turn.outcome)
            && CallsOf(step, turn.events)
            && Stops(turn)
  {
    hide Compared, Act;
    var made := [first] + [second];
    ActIsOrderly(ports, world, made, pending, dryRun);
    var turn := Act(ports, world, made, pending, dryRun);
    assert turn.events == made + turn.events[2..];
    assert turn.events[0] == first && turn.events[1] == second;
    LastReadOfTwo(step.observed, first, second);
    LastReadGoesOn(step.observed, made, turn.events[2..]);
    HandedOn(step, first, second, turn.events[2..]);
  }

  lemma HandedOn(step: Step, first: Event, second: Event, more: seq<Event>)
    requires Saw(first, step, Mismatch) && Saw(second, step, Mismatch) && |more| <= 2
    requires first.step == step && second.step == step.(observed := first.answer.value)
    requires forall k :: 0 <= k < |more| ==> more[k].step == Pending(step, second.answer.value)
    requires (|more| > 0 ==> more[0].Mutated?) && (|more| > 1 ==> more[1].Looked?)
    ensures Handed(step, ([first] + [second]) + more) && CallsOf(step, ([first] + [second]) + more)
  {
    var calls := ([first] + [second]) + more;
    assert calls[0] == first;
    assert |calls| > 1 ==> calls[1] == second;
    assert |calls| > 2 ==> calls[2] == more[0];
    assert |calls| > 3 ==> calls[3] == more[1];
  }

  lemma LookAgainIsOrderly<W>(ports: Ports<W>, world: W, first: Event, step: Step, observed: Payload, dryRun: bool)
    requires ports.observer.Some? && Saw(first, step, Mismatch) && first.answer == Ok(observed) && step.disposition != BLOCKED
    requires first.step == step
    ensures var turn := LookAgain(ports, world, [first], step, observed, dryRun);
            && Orderly(step, dryRun, turn.events, turn.outcome)
            && CallsOf(step, turn.events)
            && Stops(turn)
  {
    hide Compared, Incomparably, StepError.Code, Act, LastRead, Orderly, Stops;
    var marked := step.(observed := observed);
    var (next, answer) := ports.observer.value(world, marked);
    if answer.Ok? && Compared(answer.value, step.desired) == Mismatch {
      var pending := Pending(step, answer.value);
      ActedIsOrderly(ports, next, first, Looked(marked, answer), step, pending, dryRun);
    } else {
      SecondLookEnds(ports, world, first, step, observed, dryRun);
    }
  }

  lemma SecondLookEnds<W>(ports: Ports<W>, world: W, first: Event, step: Step, observed: Payload, dryRun: bool)
    requires ports.observer.Some? && Saw(first, step, Mismatch) && first.answer == Ok(observed) && step.disposition != BLOCKED
    requires first.step == step
    requires var answer := ports.observer.value(world, step.(observed := observed)).1;
             answer.Err? || Compared(answer.value, step.desired) != Mismatch
    ensures var turn := LookAgain(ports, world, [first], step, observed, dryRun);
            && Orderly(step, dryRun, turn.events, turn.outcome)
            && CallsOf(step, turn.events)
            && Stops(turn)
  {
    hide Compared, Incomparably, StepError.Code, Act, LastRead;
    var marked := step.(observed := observed);
    var (next, answer) := ports.observer.value(world, marked);
    LastReadOfTwo(step.observed, first, Looked(marked, answer));
    LastReadOfOne(step.observed, first);
    LastReadOfOne(observed, Looked(marked, answer));
  }

  // The outcome is about the step: it repeats the plan's step but for what was observed and the disposition.
  ghost predicate Names(outcome: Outcome, step: Step) {
    && outcome.id == step.id && outcome.owner == step.owner && outcome.desired == step.desired
    && outcome.step == step.(observed := outcome.observed, disposition := outcome.disposition)
  }

  // What the last successful observation said, or what the plan noted.
  ghost function LastRead(noted: Payload, calls: seq<Event>): Payload {
    if calls == [] then noted
    else
      var last := calls[|calls| - 1];
      if last.Looked? && last.answer.Ok? then last.answer.value else LastRead(noted, calls[..|calls| - 1])
  }

  lemma LastReadOfOne(noted: Payload, event: Event)
    ensures LastRead(noted, [event]) == if event.Looked? && event.answer.Ok? then event.answer.value else noted
  {
    assert [event][..0] == [];
  }

  lemma LastReadOfTwo(noted: Payload, first: Event, second: Event)
    ensures LastRead(noted, [first] + [second]) == LastRead(LastRead(noted, [first]), [second])
  {
    LastReadGoesOn(noted, [first], [second]);
    LastReadOfOne(noted, first);
    LastReadOfOne(LastRead(noted, [first]), second);
  }

  lemma {:induction false} LastReadGoesOn(noted: Payload, a: seq<Event>, b: seq<Event>)
    ensures LastRead(noted, a + b) == LastRead(LastRead(noted, a), b)
  {
    if b == [] {
      assert a + b == a;
    } else {
      assert (a + b)[..|a + b| - 1] == a + b[..|b| - 1] && (a + b)[|a + b| - 1] == b[|b| - 1];
      LastReadGoesOn(noted, a, b[..|b| - 1]);
    }
  }

  function Changing(disposition: string): string {
    if disposition == SATISFIED then APPLY else disposition
  }

  // A step stops the run exactly when it failed.
  ghost predicate Stops<W>(turn: Turn<W>) {
    && (turn.error.Some? <==> turn.outcome.verdict == Failed)
    && (turn.error.Some? ==> turn.outcome.errorCode == turn.error.value.Code())
  }

  lemma TurnIsOrderly<W>(ports: Ports<W>, world: W, step: Step, dryRun: bool)
    ensures var turn := TakeTurn(ports, world, step, dryRun);
            && Orderly(step, dryRun, turn.events, turn.outcome)
            && CallsOf(step, turn.events)
            && Stops(turn)
  {
    hide Compared, Incomparably, StepError.Code, LookAgain;
    if step.disposition == SATISFIED || step.disposition == APPLY || step.disposition == REMOVE {
      if ports.observer.Some? {
        var (next, answer) := ports.observer.value(world, step);
        LastReadOfOne(step.observed, Looked(step, answer));
        if answer.Ok? && Compared(answer.value, step.desired) == Mismatch {
          LookAgainIsOrderly(ports, next, Looked(step, answer), step, answer.value, dryRun);
        }
      }
    }
  }

  // The stage an error names tells how far the step came: which calls had been made, and what they said.
  ghost predicate StageFits(step: Step, calls: seq<Event>, error: StepError) {
    && error.id == step.id
    && match error
       case MissingPort(_, Observer) => calls == []
       case MissingPort(_, Mutator) => |calls| == 2 && Saw(calls[1], step, Mismatch)
       case StepError(_, stage, errorClass, _) =>
         match stage
         case Dispose => calls == [] && errorClass == OfDisposition
         case Observe => |calls| == 1 && calls[0].Looked? && calls[0].answer.Err? && errorClass == OfObserver
         case Compare => 1 <= |calls| <= 2 && Incomparable(calls[|calls| - 1], step) && errorClass == OfComparison
         case Reobserve => |calls| == 2 && calls[1].Looked? && calls[1].answer.Err? && errorClass == OfObserver
         case Apply => |calls| == 3 && calls[2].Mutated? && calls[2].failure.Some? && errorClass == OfMutator
         case PostObserve => |calls| == 4 && calls[3].Looked? && calls[3].answer.Err? && errorClass == OfObserver
         case Postcondition =>
           |calls| == 4 && (Incomparable(calls[3], step) || Saw(calls[3], step, Mismatch)) && errorClass == OfPostcondition
  }

  ghost predicate Incomparable(event: Event, step: Step) {
    && event.Looked? && event.step.id == step.id
    && event.answer.Ok? && Compared(event.answer.value, step.desired).Invalid?
  }

  lemma ConfirmStage<W>(ports: Ports<W>, world: W, events: seq<Event>, step: Step)
    requires ports.observer.Some? && |events| == 3
    ensures var turn := Confirm(ports, world, events, step);
            turn.error.Some? ==> StageFits(step, turn.events, turn.error.value)
  {
    hide Compared, StepError.Code;
  }

  lemma ActStage<W>(ports: Ports<W>, world: W, events: seq<Event>, step: Step, dryRun: bool)
    requires ports.observer.Some? && |events| == 2 && Saw(events[1], step, Mismatch)
    ensures var turn := Act(ports, world, events, step, dryRun);
            turn.error.Some? ==> StageFits(step, turn.events, turn.error.value)
  {
    hide Compared, StepError.Code, Confirm;
    if !dryRun && ports.mutator.Some? {
      var (next, failure) := ports.mutator.value(world, step);
      if failure.None? { ConfirmStage(ports, next, events + [Mutated(step, failure)], step); }
    }
  }

  lemma StageTellsHowFar<W>(ports: Ports<W>, world: W, step: Step, dryRun: bool)
    ensures var turn := TakeTurn(ports, world, step, dryRun);
            turn.error.Some? ==> StageFits(step, turn.events, turn.error.value)
  {
    hide Compared, StepError.Code, LookAgain;
    if step.disposition == SATISFIED || step.disposition == APPLY || step.disposition == REMOVE {
      if ports.observer.Some? {
        var (next, answer) := ports.observer.value(world, step);
        if answer.Ok? && Compared(answer.value, step.desired) == Mismatch {
          LookAgainStage(ports, next, Looked(step, answer), step, answer.value, dryRun);
        }
      }
    }
  }

  lemma LookAgainStage<W>(ports: Ports<W>, world: W, first: Event, step: Step, observed: Payload, dryRun: bool)
    requires ports.observer.Some?
    ensures var turn := LookAgain(ports, world, [first], step, observed, dryRun);
            turn.error.Some? ==> StageFits(step, turn.events, turn.error.value)
  {
    hide Compared, StepError.Code, Act;
    var marked := step.(observed := observed);
    var (next, answer) := ports.observer.value(world, marked);
    if answer.Ok? && Compared(answer.value, step.desired) == Mismatch {
      var pending := Pending(step, answer.value);
      ActStage(ports, next, [first] + [Looked(marked, answer)], pending, dryRun);
    }
  }

  // The calls made for one step, in order.
  ghost function CallsFor(events: seq<Event>, id: string): seq<Event> {
    if events == [] then []
    else (if events[0].step.id == id then [events[0]] else []) + CallsFor(events[1..], id)
  }

  lemma {:induction false} CallsForAppend(a: seq<Event>, b: seq<Event>, id: string)
    ensures CallsFor(a + b, id) == CallsFor(a, id) + CallsFor(b, id)
  {
    if a == [] {
      assert a + b == b;
    } else {
      assert (a + b)[0] == a[0] && (a + b)[1..] == a[1..] + b;
      CallsForAppend(a[1..], b, id);
    }
  }

  lemma {:induction false} CallsForOwn(step: Step, calls: seq<Event>, id: string)
    requires CallsOf(step, calls)
    ensures CallsFor(calls, id) == if id == step.id then calls else []
  {
    if calls != [] {
      CallsForOwn(step, calls[1..], id);
      assert calls[0].step.id == step.id;
      assert calls == [calls[0]] + calls[1..];
    }
  }

  ghost predicate DistinctIds(steps: seq<Step>) {
    forall i, j :: 0 <= i < j < |steps| ==> steps[i].id != steps[j].id
  }

  ghost predicate NoneFailed(outcomes: seq<Outcome>) {
    forall i :: 0 <= i < |outcomes| ==> outcomes[i].verdict != Failed
  }

  ghost predicate AllQuiet(outcomes: seq<Outcome>) {
    forall i :: 0 <= i < |outcomes| ==> Quiet(outcomes[i])
  }

  ghost predicate InStep(outcomes: seq<Outcome>, steps: seq<Step>) {
    && |outcomes| <= |steps|
    && forall i :: 0 <= i < |outcomes| ==> outcomes[i].id == steps[i].id
  }

  ghost predicate Completed(outcomes: seq<Outcome>, error: Option<StepError>, steps: seq<Step>) {
    if error.None? then
      |outcomes| == |steps| && NoneFailed(outcomes)
    else
      && 0 < |outcomes|
      && outcomes[|outcomes| - 1].verdict == Failed
      && outcomes[|outcomes| - 1].errorCode == error.value.Code()
      && NoneFailed(outcomes[..|outcomes| - 1])
  }

  // A run reports a prefix of its steps in order. It ends in an error exactly when the last entry, and
  // only that one, failed; otherwise every step is reported. NoChange says that nothing had to change.
  lemma {:induction false} RunIsReported<W>(ports: Ports<W>, world: W, steps: seq<Step>, dryRun: bool)
    ensures var run := RunOf(ports, world, steps, dryRun);
            && InStep(run.outcomes, steps)
            && Completed(run.outcomes, run.error, steps)
            && (run.noChange <==> AllQuiet(run.outcomes))
  {
    hide TakeTurn, StepError.Code, NoneFailed, AllQuiet, InStep, Completed;
    if steps == [] {
      NothingReported(RunOf(ports, world, steps, dryRun).error, steps);
    } else {
      var turn := TakeTurn(ports, world, steps[0], dryRun);
      TurnIsOrderly(ports, world, steps[0], dryRun);
      assert Names(turn.outcome, steps[0]);
      if turn.error.Some? {
        FirstReported(turn.outcome, turn.error, steps);
      } else {
        var rest := RunOf(ports, turn.world, steps[1..], dryRun);
        RunIsReported(ports, turn.world, steps[1..], dryRun);
        NextReported(turn.outcome, rest.outcomes, rest.error, steps);
      }
    }
  }

  lemma NothingReported(error: Option<StepError>, steps: seq<Step>)
    requires steps == [] && error.None?
    ensures InStep([], steps) && Completed([], error, steps) && AllQuiet([])
  {
  }

  lemma FirstReported(outcome: Outcome, error: Option<StepError>, steps: seq<Step>)
    requires steps != [] && outcome.id == steps[0].id
    requires error.Some? && outcome.verdict == Failed && outcome.errorCode == error.value.Code()
    ensures InStep([outcome], steps) && Completed([outcome], error, steps) && !AllQuiet([outcome])
  {
    assert !Quiet([outcome][0]);
  }

  lemma NextReported(outcome: Outcome, rest: seq<Outcome>, error: Option<StepError>, steps: seq<Step>)
    requires steps != [] && outcome.id == steps[0].id && outcome.verdict != Failed
    requires InStep(rest, steps[1..]) && Completed(rest, error, steps[1..])
    ensures InStep([outcome] + rest, steps) && Completed([outcome] + rest, error, steps)
    ensures AllQuiet([outcome] + rest) <==> Quiet(outcome) && AllQuiet(rest)
  {
    hide StepError.Code, Quiet, NoneFailed, AllQuiet;
    var all := [outcome] + rest;
    assert forall i :: 0 < i < |all| ==> all[i] == rest[i - 1] && steps[i] == steps[1..][i - 1];
    NextQuiet(outcome, rest);
    if error.None? {
      NextNotFailed(outcome, rest);
    } else {
      assert all[..|all| - 1] == [outcome] + rest[..|rest| - 1];
      NextNotFailed(outcome, rest[..|rest| - 1]);
    }
  }

  lemma NextQuiet(outcome: Outcome, rest: seq<Outcome>)
    ensures AllQuiet([outcome] + rest) <==> Quiet(outcome) && AllQuiet(rest)
  {
    hide Quiet;
    var all := [outcome] + rest;
    assert all[0] == outcome && forall i :: 0 <= i < |rest| ==> all[i + 1] == rest[i];
  }

  lemma NextNotFailed(outcome: Outcome, rest: seq<Outcome>)
    requires outcome.verdict != Failed && NoneFailed(rest)
    ensures NoneFailed([outcome] + rest)
  {
  }

  // Each reported step made only the calls its verdict allows; a step after the failed one made none.
  lemma {:induction false} CallsAreOrderly<W>(ports: Ports<W>, world: W, steps: seq<Step>, dryRun: bool)
    requires DistinctIds(steps)
    ensures var run := RunOf(ports, world, steps, dryRun);
            && |run.outcomes| <= |steps|
            && (forall i :: 0 <= i < |steps| ==>
                  if i < |run.outcomes| then Orderly(steps[i], dryRun, CallsFor(run.events, steps[i].id), run.outcomes[i])
                  else CallsFor(run.events, steps[i].id) == [])
            && (forall k :: 0 <= k < |run.events| ==> exists i :: 0 <= i < |run.outcomes| && run.events[k].step.id == steps[i].id)
  {
    hide TakeTurn, Orderly;
    if steps != [] {
      var turn := TakeTurn(ports, world, steps[0], dryRun);
      var run := RunOf(ports, world, steps, dryRun);
      TurnIsOrderly(ports, world, steps[0], dryRun);
      if turn.error.Some? {
        FirstCalls(steps, dryRun, turn.events, turn.outcome);
      } else {
        var rest := RunOf(ports, turn.world, steps[1..], dryRun);
        CallsAreOrderly(ports, turn.world, steps[1..], dryRun);
        NextCalls(steps, dryRun, turn.events, turn.outcome, rest.events, rest.outcomes);
        CallsBelong(turn.events, rest.events, |rest.outcomes|, steps);
      }
    }
  }

  lemma FirstCalls(steps: seq<Step>, dryRun: bool, events: seq<Event>, outcome: Outcome)
    requires steps != [] && DistinctIds(steps) && CallsOf(steps[0], events) && Orderly(steps[0], dryRun, events, outcome)
    ensures forall i :: 0 <= i < |steps| ==>
      if i < 1 then Orderly(steps[i], dryRun, CallsFor(events, steps[i].id), outcome) else CallsFor(events, steps[i].id) == []
  {
    hide Orderly, CallsFor, CallsOf;
    forall i | 0 <= i < |steps|
      ensures CallsFor(events, steps[i].id) == if i == 0 then events else []
    {
      CallsForOwn(steps[0], events, steps[i].id);
    }
  }

  lemma NextCalls(steps: seq<Step>, dryRun: bool, events: seq<Event>, outcome: Outcome, more: seq<Event>, outcomes: seq<Outcome>)
    requires steps != [] && DistinctIds(steps) && CallsOf(steps[0], events) && Orderly(steps[0], dryRun, events, outcome)
    requires |outcomes| <= |steps[1..]|
    requires forall i :: 0 <= i < |steps[1..]| ==>
      if i < |outcomes| then Orderly(steps[1..][i], dryRun, CallsFor(more, steps[1..][i].id), outcomes[i])
      else CallsFor(more, steps[1..][i].id) == []
    requires forall k :: 0 <= k < |more| ==> exists i :: 0 <= i < |outcomes| && more[k].step.id == steps[1..][i].id
    ensures forall i :: 0 <= i < |steps| ==>
      if i < |outcomes| + 1 then Orderly(steps[i], dryRun, CallsFor(events + more, steps[i].id), ([outcome] + outcomes)[i])
      else CallsFor(events + more, steps[i].id) == []
  {
    hide Orderly, CallsFor, CallsOf;
    StrangersMakeNoCalls(more, outcomes, steps[1..], steps[0].id);
    forall i | 0 <= i < |steps|
      ensures CallsFor(events + more, steps[i].id) == if i == 0 then events else CallsFor(more, steps[i].id)
    {
      CallsForAppend(events, more, steps[i].id);
      CallsForOwn(steps[0], events, steps[i].id);
      assert events + [] == events && [] + CallsFor(more, steps[i].id) == CallsFor(more, steps[i].id);
    }
    forall i | 0 < i < |steps|
      ensures steps[i] == steps[1..][i - 1]
    {
    }
  }

  lemma CallsBelong(first: seq<Event>, rest: seq<Event>, reported: nat, steps: seq<Step>)
    requires steps != [] && reported <= |steps| - 1 && CallsOf(steps[0], first)
    requires forall k :: 0 <= k < |rest| ==> exists i :: 0 <= i < reported && rest[k].step.id == steps[1..][i].id
    ensures forall k :: 0 <= k < |first + rest| ==>
      exists i :: 0 <= i < reported + 1 && (first + rest)[k].step.id == steps[i].id
  {
    forall k | 0 <= k < |first + rest|
      ensures exists i :: 0 <= i < reported + 1 && (first + rest)[k].step.id == steps[i].id
    {
      if k < |first| {
        assert (first + rest)[k].step.id == steps[0].id;
      } else {
        var i :| 0 <= i < reported && rest[k - |first|].step.id == steps[1..][i].id;
        assert steps[1..][i] == steps[i + 1];
      }
    }
  }

  lemma {:induction false} StrangersMakeNoCalls(events: seq<Event>, outcomes: seq<Outcome>, steps: seq<Step>, id: string)
    requires |outcomes| <= |steps|
    requires forall i :: 0 <= i < |steps| ==> steps[i].id != id
    requires forall k :: 0 <= k < |events| ==> exists i :: 0 <= i < |outcomes| && events[k].step.id == steps[i].id
    ensures CallsFor(events, id) == []
  {
    if events != [] {
      assert events[0].step.id != id;
      forall k | 0 <= k < |events[1..]|
        ensures exists i :: 0 <= i < |outcomes| && events[1..][k].step.id == steps[i].id
      {
        assert events[1..][k] == events[k + 1];
      }
      StrangersMakeNoCalls(events[1..], outcomes, steps, id);
    }
  }

  // ---- The dry run ----

  // The observer answers without changing anything.
  ghost predicate Passive<W(!new)>(ports: Ports<W>) {
    && ports.observer.Some?
    && forall world: W, step: Step :: ports.observer.value(world, step).0 == world
  }

  ghost function Told<W>(ports: Ports<W>, world: W, step: Step): Answer
    requires ports.observer.Some?
  {
    ports.observer.value(world, step).1
  }

  // Nothing the observer says about a step with this id tells the two worlds apart.
  ghost predicate Alike<W>(ports: Ports<W>, a: W, b: W, id: string)
    requires ports.observer.Some?
  {
    forall step: Step :: step.id == id ==> Told(ports, a, step) == Told(ports, b, step)
  }

  // Mutating a step changes only what is observed of that step.
  ghost predicate Isolated<W(!new)>(ports: Ports<W>)
    requires ports.observer.Some?
  {
    ports.mutator.Some? ==>
      forall world: W, step: Step, id: string :: id != step.id ==> Alike(ports, world, ports.mutator.value(world, step).0, id)
  }

  lemma {:induction false} DryRunNeverMutates<W(!new)>(ports: Ports<W>, world: W, steps: seq<Step>)
    ensures forall k :: 0 <= k < |RunOf(ports, world, steps, true).events| ==> RunOf(ports, world, steps, true).events[k].Looked?
    ensures Passive(ports) ==> RunOf(ports, world, steps, true).world == world
  {
    hide Compared;
    if steps != [] {
      var turn := TakeTurn(ports, world, steps[0], true);
      assert forall k :: 0 <= k < |turn.events| ==> turn.events[k].Looked?;
      DryRunNeverMutates(ports, turn.world, steps[1..]);
    }
  }

  // What a dry run leaves unknown about an outcome: what would be observed after the change.
  ghost function Foretold(outcome: Outcome): Outcome {
    if outcome.verdict == Applied then
      WithObserved(outcome, None).(verdict := Projected, projected := true)
    else if outcome.verdict == Projected then
      WithObserved(outcome, None)
    else
      outcome
  }

  lemma TurnIsForetold<W(!new)>(ports: Ports<W>, dry: W, live: W, step: Step)
    requires Passive(ports) && Alike(ports, dry, live, step.id)
    requires TakeTurn(ports, live, step, false).error.None?
    ensures TakeTurn(ports, dry, step, true).error.None?
    ensures TakeTurn(ports, dry, step, true).world == dry
    ensures Foretold(TakeTurn(ports, dry, step, true).outcome) == Foretold(TakeTurn(ports, live, step, false).outcome)
    ensures Quiet(TakeTurn(ports, dry, step, true).outcome) == Quiet(TakeTurn(ports, live, step, false).outcome)
  {
    hide Compared, Incomparably;
    if step.disposition == SATISFIED || step.disposition == APPLY || step.disposition == REMOVE {
      var answer := Told(ports, live, step);
      assert Told(ports, dry, step) == answer;
      if answer.Ok? {
        var marked := step.(observed := answer.value);
        assert Told(ports, dry, marked) == Told(ports, live, marked);
      }
    }
  }

  // A turn changes what is observed of its own step alone.
  lemma TurnIsIsolated<W(!new)>(ports: Ports<W>, world: W, step: Step, dryRun: bool, id: string)
    requires Passive(ports) && Isolated(ports) && id != step.id
    ensures Alike(ports, world, TakeTurn(ports, world, step, dryRun).world, id)
  {
    hide Compared, Incomparably;
    var turn := TakeTurn(ports, world, step, dryRun);
    if turn.world != world {
      assert ports.mutator.Some?;
      var answer := Told(ports, world, step);
      var marked := step.(observed := answer.value);
      var pending := Pending(step, Told(ports, world, marked).value);
      assert turn.world == ports.mutator.value(world, pending).0;
    }
  }

  // When the real run succeeds, the dry run from the same world foretells it entry by entry.
  lemma {:induction false} DryRunForetells<W(!new)>(ports: Ports<W>, dry: W, live: W, steps: seq<Step>)
    requires Passive(ports) && Isolated(ports) && DistinctIds(steps)
    requires forall i :: 0 <= i < |steps| ==> Alike(ports, dry, live, steps[i].id)
    requires RunOf(ports, live, steps, false).error.None?
    ensures var d, r := RunOf(ports, dry, steps, true), RunOf(ports, live, steps, false);
            && d.error.None? && d.noChange == r.noChange
            && |d.outcomes| == |r.outcomes| == |steps|
            && forall i :: 0 <= i < |steps| ==> Foretold(d.outcomes[i]) == Foretold(r.outcomes[i])
  {
    hide TakeTurn, Foretold, Quiet, Alike;
    if steps != [] {
      var turn := TakeTurn(ports, live, steps[0], false);
      TurnIsForetold(ports, dry, live, steps[0]);
      forall i | 0 <= i < |steps[1..]|
        ensures Alike(ports, dry, turn.world, steps[1..][i].id)
      {
        TurnIsIsolated(ports, live, steps[0], false, steps[i + 1].id);
        AlikeIsTransitive(ports, dry, live, turn.world, steps[i + 1].id);
      }
      DryRunForetells(ports, dry, turn.world, steps[1..]);
    }
  }

  lemma AlikeIsTransitive<W>(ports: Ports<W>, a: W, b: W, c: W, id: string)
    requires ports.observer.Some?
    requires Alike(ports, a, b, id) && Alike(ports, b, c, id)
    ensures Alike(ports, a, c, id)
  {
  }

  // ---- Convergence ----

  // The answer does not depend on what the plan noted as observed, nor on the disposition it gave.
  ghost predicate Indifferent<W(!new)>(ports: Ports<W>)
    requires ports.observer.Some?
  {
    forall world: W, step: Step, observed: Payload, disposition: string ::
      Told(ports, world, step.(observed := observed, disposition := disposition)) == Told(ports, world, step)
  }

  lemma SameAnswer<W(!new)>(ports: Ports<W>, world: W, a: Step, b: Step)
    requires ports.observer.Some? && Indifferent(ports)
    requires a.(observed := b.observed, disposition := b.disposition) == b
    ensures Told(ports, world, a) == Told(ports, world, b)
  {
    assert Told(ports, world, a.(observed := b.observed, disposition := b.disposition)) == Told(ports, world, a);
  }

  // The world already is as the step wants it.
  ghost predicate Settled<W>(ports: Ports<W>, world: W, step: Step)
    requires ports.observer.Some?
  {
    step.disposition != BLOCKED ==>
      && (step.disposition == SATISFIED || step.disposition == APPLY || step.disposition == REMOVE)
      && Told(ports, world, step).Ok?
      && Compared(Told(ports, world, step).value, step.desired) == Equal
  }

  lemma TurnSettles<W(!new)>(ports: Ports<W>, world: W, step: Step)
    requires Passive(ports) && Indifferent(ports)
    requires TakeTurn(ports, world, step, false).error.None?
    ensures Settled(ports, TakeTurn(ports, world, step, false).world, step)
  {
    hide Compared, Incomparably, Indifferent;
    if step.disposition != BLOCKED {
      var turn := TakeTurn(ports, world, step, false);
      var first := Told(ports, world, step);
      if Compared(first.value, step.desired) == Mismatch {
        var marked := step.(observed := first.value);
        var second := Told(ports, world, marked);
        SameAnswer(ports, world, step, marked);
        var pending := Pending(step, second.value);
        assert ports.observer.value(world, step).0 == world && ports.observer.value(world, marked).0 == world;
        var next := ports.mutator.value(world, pending).0;
        assert ports.observer.value(next, pending).0 == next;
        assert turn == Act(ports, world, turn.events[..2], pending, false);
        SameAnswer(ports, turn.world, step, pending);
      }
    }
  }

  // A run leaves settled every step it reported without failing, whether or not it went on to fail.
  lemma {:induction false} RunSettles<W(!new)>(ports: Ports<W>, world: W, steps: seq<Step>)
    requires Passive(ports) && Isolated(ports) && Indifferent(ports) && DistinctIds(steps)
    ensures var run := RunOf(ports, world, steps, false);
            && |run.outcomes| <= |steps|
            && forall i :: 0 <= i < |run.outcomes| && run.outcomes[i].verdict != Failed ==> Settled(ports, run.world, steps[i])
  {
    hide TakeTurn, Settled, Alike, Isolated, Indifferent;
    if steps != [] {
      var turn := TakeTurn(ports, world, steps[0], false);
      var run := RunOf(ports, world, steps, false);
      TurnIsOrderly(ports, world, steps[0], false);
      if turn.error.None? {
        var rest := RunOf(ports, turn.world, steps[1..], false);
        RunSettles(ports, turn.world, steps[1..]);
        TurnSettles(ports, world, steps[0]);
        RunIsIsolated(ports, turn.world, steps[1..], steps[0].id);
        StaysSettled(ports, turn.world, rest.world, steps[0]);
        forall i | 0 <= i < |run.outcomes| && run.outcomes[i].verdict != Failed
          ensures Settled(ports, run.world, steps[i])
        {
          if 0 < i { assert run.outcomes[i] == rest.outcomes[i - 1] && steps[i] == steps[1..][i - 1]; }
        }
      }
    }
  }

  lemma StaysSettled<W>(ports: Ports<W>, before: W, after: W, step: Step)
    requires ports.observer.Some? && Alike(ports, before, after, step.id) && Settled(ports, before, step)
    ensures Settled(ports, after, step)
  {
    assert Told(ports, before, step) == Told(ports, after, step);
  }

  lemma {:induction false} RunIsIsolated<W(!new)>(ports: Ports<W>, world: W, steps: seq<Step>, id: string)
    requires Passive(ports) && Isolated(ports)
    requires forall i :: 0 <= i < |steps| ==> steps[i].id != id
    ensures Alike(ports, world, RunOf(ports, world, steps, false).world, id)
  {
    hide TakeTurn, Isolated;
    if steps != [] {
      var turn := TakeTurn(ports, world, steps[0], false);
      TurnIsIsolated(ports, world, steps[0], false, id);
      if turn.error.None? {
        RunIsIsolated(ports, turn.world, steps[1..], id);
        AlikeIsTransitive(ports, world, turn.world, RunOf(ports, turn.world, steps[1..], false).world, id);
      }
    }
  }

  // Where everything is settled a run only looks: once at each step that is not blocked.
  ghost predicate Untouched(outcomes: seq<Outcome>, steps: seq<Step>) {
    && |outcomes| == |steps|
    && forall i :: 0 <= i < |steps| ==>
         if steps[i].disposition == BLOCKED then outcomes[i].verdict == Blocked
         else outcomes[i].verdict == Satisfied && outcomes[i].noChange
  }

  lemma {:induction false} SettledRunIsQuiet<W(!new)>(ports: Ports<W>, world: W, steps: seq<Step>, dryRun: bool)
    requires Passive(ports)
    requires forall i :: 0 <= i < |steps| ==> Settled(ports, world, steps[i])
    ensures var run := RunOf(ports, world, steps, dryRun);
            && run.error.None? && run.noChange && run.world == world
            && Untouched(run.outcomes, steps)
            && forall k :: 0 <= k < |run.events| ==> run.events[k].Looked?
  {
    hide TakeTurn, Settled, Passive, Quiet;
    if steps != [] {
      SettledTurnIsQuiet(ports, world, steps[0], dryRun);
      SettledRunIsQuiet(ports, world, steps[1..], dryRun);
    }
  }

  lemma SettledTurnIsQuiet<W(!new)>(ports: Ports<W>, world: W, step: Step, dryRun: bool)
    requires Passive(ports) && Settled(ports, world, step)
    ensures var turn := TakeTurn(ports, world, step, dryRun);
            && turn.error.None? && turn.world == world && Quiet(turn.outcome)
            && (if step.disposition == BLOCKED then turn.outcome.verdict == Blocked
                else turn.outcome.verdict == Satisfied && turn.outcome.noChange)
            && forall k :: 0 <= k < |turn.events| ==> turn.events[k].Looked?
  {
    hide Compared;
  }

  // After a run without error every step is as desired, and the next run changes nothing and says so.
  lemma RunConverges<W(!new)>(ports: Ports<W>, world: W, steps: seq<Step>)
    requires Passive(ports) && Isolated(ports) && Indifferent(ports) && DistinctIds(steps)
    requires RunOf(ports, world, steps, false).error.None?
    ensures var after := RunOf(ports, world, steps, false).world;
            && (forall i :: 0 <= i < |steps| ==> Settled(ports, after, steps[i]))
            && var again := RunOf(ports, after, steps, false);
               && again.error.None? && again.noChange && again.world == after
               && Untouched(again.outcomes, steps)
               && forall k :: 0 <= k < |again.events| ==> again.events[k].Looked?
  {
    hide TakeTurn, Settled, Isolated, Indifferent;
    RunIsReported(ports, world, steps, false);
    RunSettles(ports, world, steps);
    SettledRunIsQuiet(ports, RunOf(ports, world, steps, false).world, steps, false);
  }

  // ---- The fixture of the acceptance exercise (internal/acceptance/exercise.go:36-61) ----

  const UNCONVERGED := "{\"fixtureState\":\"unconverged\"}"

  function FixtureObserve(values: map<string, Payload>, step: Step): (map<string, Payload>, Answer) {
    (values, Ok(if step.id in values then values[step.id] else Some(UNCONVERGED)))
  }

  function FixtureMutate(values: map<string, Payload>, step: Step): (map<string, Payload>, Option<string>) {
    (values[step.id := step.desired], None)
  }

  function FixturePorts(): Ports<map<string, Payload>> {
    Ports(Some(FixtureObserve), Some(FixtureMutate))
  }

  lemma FixtureIsWellBehaved()
    ensures Passive(FixturePorts()) && Isolated(FixturePorts()) && Indifferent(FixturePorts())
  {
  }

  // Each step that is not blocked can be compared, and starts out different from what it wants.
  ghost predicate Divergent(values: map<string, Payload>, step: Step) {
    step.disposition != BLOCKED ==>
      && (step.disposition == SATISFIED || step.disposition == APPLY || step.disposition == REMOVE)
      && step.id !in values
      && Compared(Some(UNCONVERGED), step.desired) == Mismatch
      && Compared(step.desired, step.desired) == Equal
  }

  lemma {:induction false} FixtureApplies(values: map<string, Payload>, steps: seq<Step>)
    requires DistinctIds(steps)
    requires forall i :: 0 <= i < |steps| ==> Divergent(values, steps[i])
    ensures var run := RunOf(FixturePorts(), values, steps, false);
            && run.error.None? && |run.outcomes| == |steps|
            && forall i :: 0 <= i < |steps| ==>
                 run.outcomes[i].verdict == if steps[i].disposition == BLOCKED then Blocked else Applied
    decreases |steps|
  {
    hide Compared, UNCONVERGED;
    if steps != [] {
      var turn := TakeTurn(FixturePorts(), values, steps[0], false);
      assert Divergent(values, steps[0]);
      FixtureTurn(values, steps[0]);
      forall i | 0 <= i < |steps[1..]|
        ensures Divergent(turn.world, steps[1..][i])
      {
        assert steps[1..][i] == steps[i + 1] && Divergent(values, steps[i + 1]);
      }
      FixtureApplies(turn.world, steps[1..]);
    }
  }

  lemma FixtureTurn(values: map<string, Payload>, step: Step)
    requires Divergent(values, step)
    ensures var turn := TakeTurn(FixturePorts(), values, step, false);
            && turn.error.None?
            && turn.outcome.verdict == (if step.disposition == BLOCKED then Blocked else Applied)
            && (turn.world == values || turn.world == values[step.id := step.desired])
  {
    hide Compared, UNCONVERGED;
  }

  // The experiment of the exercise: the dry run leaves the fixture alone, the first run applies every
  // step that is not blocked, the second changes nothing.
  lemma ExerciseConverges(steps: seq<Step>)
    requires DistinctIds(steps)
    requires forall i :: 0 <= i < |steps| ==> Divergent(map[], steps[i])
    ensures var dry := RunOf(FixturePorts(), map[], steps, true);
            var first := RunOf(FixturePorts(), map[], steps, false);
            var second := RunOf(FixturePorts(), first.world, steps, false);
            && dry.error.None? && dry.world == map[]
            && first.error.None? && (first.noChange <==> forall i :: 0 <= i < |steps| ==> steps[i].disposition == BLOCKED)
            && second.error.None? && second.noChange && second.world == first.world
            && forall k :: 0 <= k < |second.events| ==> second.events[k].Looked?
  {
    hide TakeTurn, Divergent, Isolated, Indifferent, FixturePorts;
    FixtureIsWellBehaved();
    FixtureApplies(map[], steps);
    DryRunNeverMutates(FixturePorts(), map[], steps);
    DryRunForetells(FixturePorts(), map[], map[], steps);
    RunIsReported(FixturePorts(), map[], steps, false);
    RunConverges(FixturePorts(), map[], steps);
  }
}
