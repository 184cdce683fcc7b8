// The canonical text of a plan decodes, so equal texts mean equivalent plans.
module DigestTheorems {
  import opened Text
  import opened Plans
  import opened Json
  import opened JsonTheorems
  import opened Digest

  /* The value a plan's text stands for */

  ghost function SetValue(values: seq<string>): Json {
    var names := InOrder(PLAIN, Elements(values));
    Arr(seq(|names|, i requires 0 <= i < |names| => Str(names[i])))
  }

  ghost function Record(names: seq<string>, values: seq<Json>): Json
    requires |names| == |values|
  {
    Obj(ReadOn(map[], names, values))
  }

  const SELECTION_NAMES := ["only", "with", "without"]
  const INVERSE_NAMES := ["operation", "value"]
  const IDENTITY_NAMES := ["id", "module", "description", "dependsOn", "scope", "network", "operation"]
  const STATE_NAMES := ["desired", "observed", "disposition"]
  const PLAN_NAMES := ["selection", "steps"]

  ghost function SelectionValue(selection: Selection): Json {
    Record(SELECTION_NAMES, [SetValue(selection.only), SetValue(selection.with), SetValue(selection.without)])
  }

  ghost function InverseValue(inverse: Inverse): Json
    requires PayloadOk(inverse.value)
  {
    Record(INVERSE_NAMES, [Str(inverse.operation), PayloadValue(inverse.value)])
  }

  ghost function IdentityValues(step: Step): seq<Json> {
    [Str(step.id), Str(step.owner), Str(step.description), SetValue(step.dependsOn), Str(step.scope), Str(step.network), Str(step.operation)]
  }

  ghost function StateValues(step: Step): seq<Json>
    requires StepOk(step)
  {
    [PayloadValue(step.desired), PayloadValue(step.observed), Str(step.disposition)]
  }

  ghost function InverseValues(step: Step): seq<Json>
    requires StepOk(step)
  {
    if step.inverse.Some? then [InverseValue(step.inverse.value)] else []
  }

  ghost function StepNames(step: Step): seq<string> {
    IDENTITY_NAMES + STATE_NAMES + if step.inverse.Some? then ["inverse"] else []
  }

  ghost function StepValue(step: Step): Json
    requires StepOk(step)
  {
    Record(StepNames(step), IdentityValues(step) + StateValues(step) + InverseValues(step))
  }

  ghost function StepValues(steps: seq<Step>): seq<Json>
    requires forall s :: s in steps ==> StepOk(s)
  {
    if steps == [] then []
    else
      var n := |steps| - 1;
      StepValues(steps[..n]) + [StepValue(steps[n])]
  }

  ghost function PlanValue(plan: Plan): Json
    requires PlanOk(plan)
  {
    Record(PLAN_NAMES, [SelectionValue(plan.selection), Arr(StepValues(plan.steps))])
  }

  /* The text renders the value */

  lemma {:induction false} NestsDeeper(v: Json, depth: nat, more: nat)
    requires Nests(v, depth) && depth <= more
    ensures Nests(v, more)
    decreases v
  {
    match v
    case Arr(items) =>
      forall x | x in items ensures Nests(x, more - 1) {
        NestsDeeper(x, depth - 1, more - 1);
      }
    case Obj(fields) =>
      forall k | k in fields ensures Nests(fields[k], more - 1) {
        NestsDeeper(fields[k], depth - 1, more - 1);
      }
    case _ =>
  }

  lemma PayloadRenders(payload: Payload, depth: nat)
    requires PayloadOk(payload) && depth >= MAX_NESTING
    ensures Renders(PayloadText(payload), PayloadValue(payload), depth)
  {
    if payload.None? {
      LiteralRenders("null", Null, depth);
    } else {
      var v := ParseSingle(payload.value).value;
      SingleIsGood(payload.value);
      NestsDeeper(v, MAX_NESTING, depth);
      PrintRenders(v, depth);
    }
  }

  lemma SetRenders(values: seq<string>, depth: nat)
    ensures Renders(SetText(values), SetValue(values), depth + 1)
  {
    var names := InOrder(PLAIN, Elements(values));
    var texts := seq(|names|, i requires 0 <= i < |names| => Quote(names[i]));
    var strings := seq(|names|, i requires 0 <= i < |names| => Str(names[i]));
    forall i | 0 <= i < |names| ensures Renders(texts[i], strings[i], depth) {
      StringRenders(names[i], depth);
    }
    ArrayRenders(texts, strings, depth);
  }

  /* Members of an object, each with a text that renders its value */

  ghost predicate FieldRenders(member: string, name: string, v: Json, depth: nat) {
    exists text :: member == Member(name, text) && Renders(text, v, depth)
  }

  ghost predicate FieldsRender(members: seq<string>, names: seq<string>, values: seq<Json>, depth: nat) {
    |members| == |names| == |values| && forall i :: 0 <= i < |members| ==> FieldRenders(members[i], names[i], values[i], depth)
  }

  lemma FieldsAppend(members: seq<string>, names: seq<string>, values: seq<Json>, depth: nat, name: string, text: string, v: Json)
    requires FieldsRender(members, names, values, depth) && Renders(text, v, depth)
    ensures FieldsRender(members + [Member(name, text)], names + [name], values + [v], depth)
  {
    assert FieldRenders(Member(name, text), name, v, depth);
  }

  lemma {:induction false} FieldsJoin(members: seq<string>, names: seq<string>, values: seq<Json>,
                   members': seq<string>, names': seq<string>, values': seq<Json>, depth: nat)
    requires FieldsRender(members, names, values, depth) && FieldsRender(members', names', values', depth)
    ensures FieldsRender(members + members', names + names', values + values', depth)
  {
  }

  lemma RecordRenders(members: seq<string>, names: seq<string>, values: seq<Json>, depth: nat)
    requires FieldsRender(members, names, values, depth)
    ensures Renders(Bracket('{', members, '}'), Record(names, values), depth + 1)
  {
    var texts := TextsOf(members, names, values, depth);
    SameElements(members, Members(names, texts));
    ObjectRenders(names, texts, values, depth);
  }

  lemma {:induction false} TextsOf(members: seq<string>, names: seq<string>, values: seq<Json>, depth: nat) returns (texts: seq<string>)
    requires FieldsRender(members, names, values, depth)
    ensures AllRender(texts, values, depth)
    ensures forall i :: 0 <= i < |members| ==> members[i] == Member(names[i], texts[i])
    decreases |members|
  {
    hide Renders, Member;
    if members == [] {
      texts := [];
    } else {
      var n := |members| - 1;
      assert FieldRenders(members[n], names[n], values[n], depth);
      var text :| members[n] == Member(names[n], text) && Renders(text, values[n], depth);
      var before := TextsOf(members[..n], names[..n], values[..n], depth);
      texts := before + [text];
    }
  }

  lemma {:induction false} SelectionRenders(selection: Selection, depth: nat)
    ensures Renders(SelectionText(selection), SelectionValue(selection), depth + 2)
  {
    SetRenders(selection.only, depth);
    SetRenders(selection.with, depth);
    SetRenders(selection.without, depth);
    var only, with, without := SetText(selection.only), SetText(selection.with), SetText(selection.without);
    var a, b, c := SetValue(selection.only), SetValue(selection.with), SetValue(selection.without);
    FieldsAppend([], [], [], depth + 1, "only", only, a);
    FieldsAppend([] + [Member("only", only)], [] + ["only"], [] + [a], depth + 1, "with", with, b);
    FieldsAppend([] + [Member("only", only)] + [Member("with", with)], [] + ["only"] + ["with"], [] + [a] + [b], depth + 1, "without", without, c);
    AppendThree([], Member("only", only), Member("with", with), Member("without", without));
    AppendThree([], "only", "with", "without");
    AppendThree([], a, b, c);
    AppendNone(SelectionMembers(selection));
    AppendNone(SELECTION_NAMES);
    AppendNone([a, b, c]);
    RecordRenders(SelectionMembers(selection), SELECTION_NAMES, [a, b, c], depth + 1);
  }

  lemma {:induction false} InverseRenders(inverse: Inverse, depth: nat)
    requires PayloadOk(inverse.value) && depth >= MAX_NESTING
    ensures Renders(InverseText(inverse), InverseValue(inverse), depth + 1)
  {
    var operation, value := Quote(inverse.operation), PayloadText(inverse.value);
    StringRenders(inverse.operation, depth);
    PayloadRenders(inverse.value, depth);
    TwoFieldsRender("operation", operation, Str(inverse.operation), "value", value, PayloadValue(inverse.value), depth);
    RecordRenders([Member("operation", operation), Member("value", value)], INVERSE_NAMES,
                  [Str(inverse.operation), PayloadValue(inverse.value)], depth);
  }

  lemma TwoFieldsRender(name: string, text: string, v: Json, name': string, text': string, v': Json, depth: nat)
    requires Renders(text, v, depth) && Renders(text', v', depth)
    ensures FieldsRender([Member(name, text), Member(name', text')], [name, name'], [v, v'], depth)
  {
    assert FieldRenders(Member(name, text), name, v, depth) && FieldRenders(Member(name', text'), name', v', depth);
  }

  lemma {:induction false} IdentityRenders(step: Step, depth: nat)
    requires depth > 0
    ensures FieldsRender(IdentityMembers(step), IDENTITY_NAMES, IdentityValues(step), depth)
  {
    hide Member, Quote, SetText, SetValue, Renders;
    StringRenders(step.id, depth);
    StringRenders(step.owner, depth);
    StringRenders(step.description, depth);
    SetRenders(step.dependsOn, depth - 1);
    StringRenders(step.scope, depth);
    StringRenders(step.network, depth);
    StringRenders(step.operation, depth);
    assert FieldRenders(Member("id", Quote(step.id)), "id", Str(step.id), depth);
    assert FieldRenders(Member("module", Quote(step.owner)), "module", Str(step.owner), depth);
    assert FieldRenders(Member("description", Quote(step.description)), "description", Str(step.description), depth);
    assert FieldRenders(Member("dependsOn", SetText(step.dependsOn)), "dependsOn", SetValue(step.dependsOn), depth);
    assert FieldRenders(Member("scope", Quote(step.scope)), "scope", Str(step.scope), depth);
    assert FieldRenders(Member("network", Quote(step.network)), "network", Str(step.network), depth);
    assert FieldRenders(Member("operation", Quote(step.operation)), "operation", Str(step.operation), depth);
  }

  lemma {:induction false} StateRenders(step: Step, depth: nat)
    requires StepOk(step) && depth > MAX_NESTING
    ensures FieldsRender(StateMembers(step), STATE_NAMES, StateValues(step), depth)
  {
    hide Member, Quote, PayloadText, PayloadValue, Renders;
    PayloadRenders(step.desired, depth);
    PayloadRenders(step.observed, depth);
    StringRenders(step.disposition, depth);
    assert FieldRenders(Member("desired", PayloadText(step.desired)), "desired", PayloadValue(step.desired), depth);
    assert FieldRenders(Member("observed", PayloadText(step.observed)), "observed", PayloadValue(step.observed), depth);
    assert FieldRenders(Member("disposition", Quote(step.disposition)), "disposition", Str(step.disposition), depth);
  }

  lemma {:induction false} StepRenders(step: Step, depth: nat)
    requires StepOk(step) && depth > MAX_NESTING
    ensures Renders(StepText(step), StepValue(step), depth + 1)
  {
    hide IdentityMembers, StateMembers, IdentityValues, StateValues, Bracket, Record, FieldsRender, Renders, Member, InverseText, InverseValue;
    IdentityRenders(step, depth);
    StateRenders(step, depth);
    var members, names, values := IdentityMembers(step) + StateMembers(step), IDENTITY_NAMES + STATE_NAMES, IdentityValues(step) + StateValues(step);
    FieldsJoin(IdentityMembers(step), IDENTITY_NAMES, IdentityValues(step), StateMembers(step), STATE_NAMES, StateValues(step), depth);
    if step.inverse.Some? {
      InverseRenders(step.inverse.value, depth - 1);
      FieldsAppend(members, names, values, depth, "inverse", InverseText(step.inverse.value), InverseValue(step.inverse.value));
    } else {
      AppendNone(members);
      AppendNone(names);
      AppendNone(values);
    }
    RecordRenders(members + InverseMembers(step), StepNames(step), values + InverseValues(step), depth);
  }

  lemma {:induction false} StepsRender(steps: seq<Step>, depth: nat)
    requires (forall s :: s in steps ==> StepOk(s)) && depth > MAX_NESTING
    ensures AllRender(StepTexts(steps), StepValues(steps), depth + 1)
  {
    hide StepText, StepValue;
    if steps != [] {
      var n := |steps| - 1;
      StepsRender(steps[..n], depth);
      StepRenders(steps[n], depth);
      AllRenderAppend(StepTexts(steps[..n]), StepValues(steps[..n]), StepText(steps[n]), StepValue(steps[n]), depth + 1);
    }
  }

  lemma AllRenderAppend(texts: seq<string>, values: seq<Json>, text: string, v: Json, depth: nat)
    requires AllRender(texts, values, depth) && Renders(text, v, depth)
    ensures AllRender(texts + [text], values + [v], depth)
  {
  }

  lemma {:induction false} PlanRenders(plan: Plan)
    requires PlanOk(plan)
    ensures Renders(Bracket('{', PlanMembers(plan), '}'), PlanValue(plan), MAX_NESTING + 4)
  {
    hide SelectionText, SelectionValue, StepTexts, StepValues, AllRender, Renders, FieldsRender;
    var depth := MAX_NESTING + 1;
    SelectionRenders(plan.selection, depth);
    StepsRender(plan.steps, depth);
    ArrayRenders(StepTexts(plan.steps), StepValues(plan.steps), depth + 1);
    TwoFieldsRender("selection", SelectionText(plan.selection), SelectionValue(plan.selection),
                    "steps", StepsText(plan.steps), Arr(StepValues(plan.steps)), depth + 2);
    RecordRenders(PlanMembers(plan), PLAN_NAMES, [SelectionValue(plan.selection), Arr(StepValues(plan.steps))], depth + 2);
  }

  // The canonical text is a JSON text: decoding it gives the plan's value and leaves the newline.
  lemma {:induction false} PlanTextDecodes(plan: Plan)
    requires PlanOk(plan)
    ensures ParseValue(PlanText(plan), MAX_NESTING + 4) == Done(PlanValue(plan), "\n")
  {
    hide PlanMembers, PlanValue, Bracket, ParseValue;
    PlanRenders(plan);
    assert Stops("\n");
  }

  /* The value determines the plan, up to the order and repetition in its sets */

  lemma {:induction false} ReadOnIsInjective(names: seq<string>, values: seq<Json>, others: seq<Json>)
    requires NoDuplicates(names) && |names| == |values| == |others|
    requires Record(names, values) == Record(names, others)
    ensures values == others
  {
    ReadOnEndsWith(map[], names, values);
    ReadOnEndsWith(map[], names, others);
    var record := ReadOn(map[], names, values);
    assert record == ReadOn(map[], names, others);
    forall i | 0 <= i < |names| ensures values[i] == others[i] {
      assert record[names[i]] == values[i];
    }
  }

  ghost predicate SameSet(a: seq<string>, b: seq<string>) {
    Elements(a) == Elements(b)
  }

  ghost predicate SameInverse(a: Inverse, b: Inverse)
    requires PayloadOk(a.value) && PayloadOk(b.value)
  {
    a.operation == b.operation && PayloadValue(a.value) == PayloadValue(b.value)
  }

  ghost predicate SameStep(a: Step, b: Step)
    requires StepOk(a) && StepOk(b)
  {
    a.id == b.id && a.owner == b.owner && a.description == b.description && SameSet(a.dependsOn, b.dependsOn) &&
    a.scope == b.scope && a.network == b.network && a.operation == b.operation && a.disposition == b.disposition &&
    PayloadValue(a.desired) == PayloadValue(b.desired) && PayloadValue(a.observed) == PayloadValue(b.observed) &&
    (a.inverse.Some? <==> b.inverse.Some?) && (a.inverse.Some? ==> SameInverse(a.inverse.value, b.inverse.value))
  }

  ghost predicate SameSelection(a: Selection, b: Selection) {
    SameSet(a.only, b.only) && SameSet(a.with, b.with) && SameSet(a.without, b.without)
  }

  // The same selection sets, and the same steps in the same order.
  ghost predicate Equivalent(p: Plan, q: Plan)
    requires PlanOk(p) && PlanOk(q)
  {
    SameSelection(p.selection, q.selection) && |p.steps| == |q.steps| &&
    forall i :: 0 <= i < |p.steps| ==> StepOk(p.steps[i]) && StepOk(q.steps[i]) && SameStep(p.steps[i], q.steps[i])
  }

  lemma SetValueIsInjective(a: seq<string>, b: seq<string>)
    ensures SetValue(a) == SetValue(b) <==> SameSet(a, b)
  {
    var first, second := InOrder(PLAIN, Elements(a)), InOrder(PLAIN, Elements(b));
    InOrderIsSorted(PLAIN, Elements(a));
    InOrderIsSorted(PLAIN, Elements(b));
    if SetValue(a) == SetValue(b) {
      forall i | 0 <= i < |first| ensures first[i] == second[i] {
        assert SetValue(a).items[i] == Str(first[i]) && SetValue(b).items[i] == Str(second[i]);
      }
      SameElements(first, second);
    }
  }

  lemma SelectionValueIsInjective(a: Selection, b: Selection)
    ensures SelectionValue(a) == SelectionValue(b) <==> SameSelection(a, b)
  {
    hide SetValue;
    SetValueIsInjective(a.only, b.only);
    SetValueIsInjective(a.with, b.with);
    SetValueIsInjective(a.without, b.without);
    if SelectionValue(a) == SelectionValue(b) {
      ReadOnIsInjective(SELECTION_NAMES, [SetValue(a.only), SetValue(a.with), SetValue(a.without)],
                        [SetValue(b.only), SetValue(b.with), SetValue(b.without)]);
    }
  }

  lemma InverseValueIsInjective(a: Inverse, b: Inverse)
    requires PayloadOk(a.value) && PayloadOk(b.value)
    ensures InverseValue(a) == InverseValue(b) <==> SameInverse(a, b)
  {
    hide PayloadValue;
    if InverseValue(a) == InverseValue(b) {
      ReadOnIsInjective(INVERSE_NAMES, [Str(a.operation), PayloadValue(a.value)], [Str(b.operation), PayloadValue(b.value)]);
    }
  }

  lemma StepNamesAreDistinct(step: Step)
    ensures NoDuplicates(StepNames(step))
    ensures "inverse" in StepNames(step) <==> step.inverse.Some?
  {
  }

  ghost function AllStepValues(step: Step): seq<Json>
    requires StepOk(step)
  {
    IdentityValues(step) + StateValues(step) + InverseValues(step)
  }

  // Both steps have an inverse or neither has: the name is there or not.
  lemma StepNamesAgree(a: Step, b: Step)
    requires StepOk(a) && StepOk(b) && StepValue(a) == StepValue(b)
    ensures StepNames(a) == StepNames(b)
  {
    hide SetValue, PayloadValue, InverseValue;
    StepNamesAreDistinct(a);
    StepNamesAreDistinct(b);
    ReadOnEndsWith(map[], StepNames(a), AllStepValues(a));
    ReadOnEndsWith(map[], StepNames(b), AllStepValues(b));
    assert "inverse" in Elements(StepNames(a)) <==> "inverse" in Elements(StepNames(b));
  }

  lemma StepValueIsInjective(a: Step, b: Step)
    requires StepOk(a) && StepOk(b)
    ensures StepValue(a) == StepValue(b) <==> SameStep(a, b)
  {
    hide SetValue, PayloadValue, InverseValue, SameInverse;
    SetValueIsInjective(a.dependsOn, b.dependsOn);
    if a.inverse.Some? && b.inverse.Some? {
      InverseValueIsInjective(a.inverse.value, b.inverse.value);
    }
    if StepValue(a) == StepValue(b) {
      StepNamesAgree(a, b);
      StepNamesAreDistinct(a);
      StepNamesAreDistinct(b);
      ReadOnIsInjective(StepNames(a), AllStepValues(a), AllStepValues(b));
      SplitValues(a, b);
    }
  }

  lemma SplitValues(a: Step, b: Step)
    requires StepOk(a) && StepOk(b) && AllStepValues(a) == AllStepValues(b)
    ensures IdentityValues(a) == IdentityValues(b) && StateValues(a) == StateValues(b) && InverseValues(a) == InverseValues(b)
  {
    hide SetValue, PayloadValue, InverseValue;
    var x, y := AllStepValues(a), AllStepValues(b);
    assert IdentityValues(a) == x[..7] && IdentityValues(b) == y[..7];
    assert StateValues(a) == x[7..10] && StateValues(b) == y[7..10];
    assert InverseValues(a) == x[10..] && InverseValues(b) == y[10..];
  }

  lemma {:induction false} StepValuesAt(steps: seq<Step>)
    requires forall s :: s in steps ==> StepOk(s)
    ensures |StepValues(steps)| == |steps|
    ensures forall i :: 0 <= i < |steps| ==> StepOk(steps[i]) && StepValues(steps)[i] == StepValue(steps[i])
  {
    hide StepValue, StepOk;
    if steps != [] {
      StepValuesAt(steps[..|steps| - 1]);
    }
  }

  lemma {:induction false} StepValuesAreInjective(a: seq<Step>, b: seq<Step>)
    requires (forall s :: s in a ==> StepOk(s)) && (forall s :: s in b ==> StepOk(s))
    ensures StepValues(a) == StepValues(b) <==>
      |a| == |b| && forall i :: 0 <= i < |a| ==> StepOk(a[i]) && StepOk(b[i]) && SameStep(a[i], b[i])
  {
    hide StepValue, SameStep, StepOk;
    StepValuesAt(a);
    StepValuesAt(b);
    forall i | 0 <= i < |a| && i < |b| ensures StepValue(a[i]) == StepValue(b[i]) <==> SameStep(a[i], b[i]) {
      StepValueIsInjective(a[i], b[i]);
    }
    if |a| == |b| && forall i :: 0 <= i < |a| ==> StepOk(a[i]) && StepOk(b[i]) && SameStep(a[i], b[i]) {
      SameElements(StepValues(a), StepValues(b));
    }
  }

  lemma PlanValueIsInjective(p: Plan, q: Plan)
    requires PlanOk(p) && PlanOk(q)
    ensures PlanValue(p) == PlanValue(q) <==> Equivalent(p, q)
  {
    hide SelectionValue, StepValues, SameSelection, SameStep;
    SelectionValueIsInjective(p.selection, q.selection);
    StepValuesAreInjective(p.steps, q.steps);
    if PlanValue(p) == PlanValue(q) {
      ReadOnIsInjective(PLAN_NAMES, [SelectionValue(p.selection), Arr(StepValues(p.steps))],
                        [SelectionValue(q.selection), Arr(StepValues(q.steps))]);
    }
  }

  /* Equivalent plans have one text */

  lemma SamePayloadText(a: Payload, b: Payload)
    requires PayloadOk(a) && PayloadOk(b) && PayloadValue(a) == PayloadValue(b)
    ensures PayloadText(a) == PayloadText(b)
  {
    assert Print(Null) == "null";
  }

  lemma {:induction false} SameStepText(a: Step, b: Step)
    requires StepOk(a) && StepOk(b) && SameStep(a, b)
    ensures StepText(a) == StepText(b)
  {
    hide Bracket, Member, Quote, PayloadText, PayloadValue;
    SamePayloadText(a.desired, b.desired);
    SamePayloadText(a.observed, b.observed);
    if a.inverse.Some? {
      SamePayloadText(a.inverse.value.value, b.inverse.value.value);
    }
  }

  lemma {:induction false} SameStepTexts(a: seq<Step>, b: seq<Step>)
    requires (forall s :: s in a ==> StepOk(s)) && (forall s :: s in b ==> StepOk(s)) && |a| == |b|
    requires forall i :: 0 <= i < |a| ==> StepOk(a[i]) && StepOk(b[i]) && SameStep(a[i], b[i])
    ensures StepTexts(a) == StepTexts(b)
    decreases |a|
  {
    hide StepText, SameStep, StepOk;
    if a != [] {
      var n := |a| - 1;
      SameStepTexts(a[..n], b[..n]);
      SameStepText(a[n], b[n]);
    }
  }

  // Two plans whose payloads decode get the same canonical text exactly when they are equivalent.
  lemma {:induction false} TextDeterminesPlan(p: Plan, q: Plan)
    requires PlanOk(p) && PlanOk(q)
    ensures PlanText(p) == PlanText(q) <==> Equivalent(p, q)
  {
    hide PlanValue, StepTexts, Bracket, SameStep, PayloadValue;
    if PlanText(p) == PlanText(q) {
      PlanTextDecodes(p);
      PlanTextDecodes(q);
      PlanValueIsInjective(p, q);
    }
    if Equivalent(p, q) {
      SameStepTexts(p.steps, q.steps);
    }
  }
}
