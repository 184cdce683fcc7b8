// The canonical text of a plan (Normalize in internal/planner/digest.go).
module Digest {
  import opened Text
  import opened Plans
  import opened Json
  import opened JsonTheorems

  /* What is written */

  predicate PayloadOk(payload: Payload) {
    payload.None? || ParseSingle(payload.value).Ok?
  }

  predicate StepOk(step: Step) {
    PayloadOk(step.desired) && PayloadOk(step.observed) && (step.inverse.Some? ==> PayloadOk(step.inverse.value.value))
  }

  predicate PlanOk(plan: Plan) {
    forall s :: s in plan.steps ==> StepOk(s)
  }

  // A missing payload is null.
  function PayloadValue(payload: Payload): Json
    requires PayloadOk(payload)
  {
    if payload.None? then Null else ParseSingle(payload.value).value
  }

  ghost function PayloadText(payload: Payload): string
    requires PayloadOk(payload)
  {
    if payload.None? then "null" else Canonical(payload.value).value
  }

  ghost function SetText(values: seq<string>): string {
    var names := InOrder(PLAIN, Elements(values));
    Bracket('[', seq(|names|, i requires 0 <= i < |names| => Quote(names[i])), ']')
  }

  ghost function SelectionMembers(selection: Selection): seq<string> {
    [Member("only", SetText(selection.only)), Member("with", SetText(selection.with)), Member("without", SetText(selection.without))]
  }

  ghost function SelectionText(selection: Selection): string {
    Bracket('{', SelectionMembers(selection), '}')
  }

  ghost function InverseText(inverse: Inverse): string
    requires PayloadOk(inverse.value)
  {
    Bracket('{', [Member("operation", Quote(inverse.operation)), Member("value", PayloadText(inverse.value))], '}')
  }

  ghost function IdentityMembers(step: Step): seq<string> {
    [Member("id", Quote(step.id)),
     Member("module", Quote(step.owner)),
     Member("description", Quote(step.description)),
     Member("dependsOn", SetText(step.dependsOn)),
     Member("scope", Quote(step.scope)),
     Member("network", Quote(step.network)),
     Member("operation", Quote(step.operation))]
  }

  ghost function StateMembers(step: Step): seq<string>
    requires PayloadOk(step.desired) && PayloadOk(step.observed)
  {
    [Member("desired", PayloadText(step.desired)),
     Member("observed", PayloadText(step.observed)),
     Member("disposition", Quote(step.disposition))]
  }

  ghost function InverseMembers(step: Step): seq<string>
    requires StepOk(step)
  {
    if step.inverse.Some? then [Member("inverse", InverseText(step.inverse.value))] else []
  }

  ghost function StepText(step: Step): string
    requires StepOk(step)
  {
    Bracket('{', IdentityMembers(step) + StateMembers(step) + InverseMembers(step), '}')
  }

  ghost function StepTexts(steps: seq<Step>): seq<string>
    requires forall s :: s in steps ==> StepOk(s)
  {
    if steps == [] then []
    else
      var n := |steps| - 1;
      StepTexts(steps[..n]) + [StepText(steps[n])]
  }

  ghost function StepsText(steps: seq<Step>): string
    requires forall s :: s in steps ==> StepOk(s)
  {
    Bracket('[', StepTexts(steps), ']')
  }

  ghost function PlanMembers(plan: Plan): seq<string>
    requires PlanOk(plan)
  {
    [Member("selection", SelectionText(plan.selection)), Member("steps", StepsText(plan.steps))]
  }

  ghost function PlanText(plan: Plan): string
    requires PlanOk(plan)
  {
    Bracket('{', PlanMembers(plan), '}') + "\n"
  }

  /* json.Marshal */

  lemma ItemsAppend(texts: seq<string>, text: string)
    ensures Items(texts + [text]) == Items(texts) + Separated(texts == [], text)
  {
    if |texts| == 0 {
      assert [] + [text] == [text];
    } else if |texts| == 1 {
      assert texts + [text] == [texts[0], text];
    } else {
      var rest := texts[1..];
      assert (texts + [text])[1..] == rest + [text];
      ItemsAppend(rest, text);
      AppendIsAssociative(texts[0], [','] + Items(rest), [','] + text);
      AppendIsAssociative([','], Items(rest), [','] + text);
    }
  }

  ghost function Separated(first: bool, text: string): string {
    if first then text else [','] + text
  }

  method Marshal(v: Json) returns (text: string)
    ensures text == Print(v)
    decreases v, 1
  {
    match v
    case Null => text := "null";
    case Bool(truth) => text := if truth then "true" else "false";
    case Num(literal) => text := literal;
    case Str(s) => text := Quote(s);
    case Arr(_) => text := MarshalArray(v);
    case Obj(_) => text := MarshalObject(v);
  }

  method MarshalArray(v: Json) returns (text: string)
    requires v.Arr?
    ensures text == Print(v)
    decreases v, 0
  {
    ghost var texts := seq(|v.items|, i requires 0 <= i < |v.items| => Print(v.items[i]));
    text := "";
    for i := 0 to |v.items|
      invariant text == Items(texts[..i])
    {
      var item := Marshal(v.items[i]);
      PrefixAppend(texts, i);
      ItemsAppend(texts[..i], item);
      text := text + (if i == 0 then item else [','] + item);
    }
    assert texts[..|v.items|] == texts;
    text := ['['] + (text + [']']);
  }

  // Members in the order of their names.
  method MarshalObject(v: Json) returns (text: string)
    requires v.Obj?
    ensures text == Print(v)
    decreases v, 0
  {
    var keys := SortedKeys(v.fields.Keys);
    SortedKeysOf(v.fields);
    PrintObject(v.fields);
    ghost var texts := Members(keys, FieldTexts(v.fields, keys));
    text := "";
    for i := 0 to |keys|
      invariant text == Items(texts[..i])
    {
      assert keys[i] in keys;
      var value := Marshal(v.fields[keys[i]]);
      var member := Member(keys[i], value);
      assert texts[i] == member;
      PrefixAppend(texts, i);
      ItemsAppend(texts[..i], member);
      text := text + (if i == 0 then member else [','] + member);
    }
    assert texts[..|keys|] == texts;
    text := ['{'] + (text + ['}']);
  }

  method CanonicalJson(raw: string) returns (canonical: Option<string>)
    ensures canonical == Canonical(raw)
  {
    match ParseSingle(raw)
    case Err(_) => canonical := None;
    case Ok(v) =>
      var text := Marshal(v);
      canonical := Some(text);
  }

  /* The writers */

  class Buffer {
    var text: string

    constructor ()
      ensures text == ""
    {
      text := "";
    }

    method Write(s: string)
      modifies this
      ensures text == old(text) + s
    {
      text := text + s;
    }

    // The comma, the quoted name and the colon before the value of a field.
    method BeginField(first: bool, name: string)
      modifies this
      ensures text == old(text) + Separated(first, Quote(name) + [':'])
    {
      if !first {
        Write(",");
        AppendIsAssociative(old(text), [','], Quote(name) + [':']);
      }
      Write(Quote(name));
      AppendIsAssociative(if first then old(text) else old(text) + [','], Quote(name), [':']);
      Write(":");
    }

    // One more member of the object that `base` opened.
    method StringField(first: bool, name: string, value: string, ghost base: string, ghost members: seq<string>)
      requires text == base + Items(members) && (first <==> members == [])
      modifies this
      ensures text == base + Items(members + [Member(name, Quote(value))])
    {
      BeginField(first, name);
      Write(Quote(value));
      FieldWritten(base, members, name, Quote(value));
    }

    method StringSetField(first: bool, name: string, values: seq<string>, ghost base: string, ghost members: seq<string>)
      requires text == base + Items(members) && (first <==> members == [])
      modifies this
      ensures text == base + Items(members + [Member(name, SetText(values))])
    {
      BeginField(first, name);
      StringSet(values);
      FieldWritten(base, members, name, SetText(values));
    }

    // A set of strings: sorted, each once.
    method StringSet(values: seq<string>)
      modifies this
      ensures text == old(text) + SetText(values)
    {
      var seen := set v | v in values;
      var names := SortedKeys(seen);
      ghost var texts := seq(|names|, i requires 0 <= i < |names| => Quote(names[i]));
      Write("[");
      ghost var base := text;
      for i := 0 to |names|
        invariant text == base + Items(texts[..i])
      {
        PrefixAppend(texts, i);
        ItemsAppend(texts[..i], texts[i]);
        AppendIsAssociative(base, Items(texts[..i]), Separated(i == 0, texts[i]));
        ghost var before := text;
        if i != 0 {
          Write(",");
          AppendIsAssociative(before, [','], Quote(names[i]));
        }
        Write(Quote(names[i]));
      }
      assert texts[..|names|] == texts;
      Write("]");
      BracketWritten(old(text), '[', texts, ']');
    }

    // A payload that does not decode stops the writing.
    method PayloadField(first: bool, name: string, payload: Payload, ghost base: string, ghost members: seq<string>) returns (ok: bool)
      requires text == base + Items(members) && (first <==> members == [])
      modifies this
      ensures ok <==> PayloadOk(payload)
      ensures ok ==> text == base + Items(members + [Member(name, PayloadText(payload))])
    {
      BeginField(first, name);
      if payload.None? {
        Write("null");
      } else {
        var canonical := CanonicalJson(payload.value);
        if canonical.None? {
          return false;
        }
        Write(canonical.value);
      }
      FieldWritten(base, members, name, PayloadText(payload));
      ok := true;
    }

    method Selection(selection: Selection)
      modifies this
      ensures text == old(text) + SelectionText(selection)
    {
      hide Items, Bracket, Member, SetText, SelectionMembers;
      Write("{");
      ghost var base, members := text, SelectionMembers(selection);
      SelectionMembersGrow(selection);
      StringSetField(true, "only", selection.only, base, []);
      StringSetField(false, "with", selection.with, base, members[..1]);
      StringSetField(false, "without", selection.without, base, members[..2]);
      Write("}");
      BracketWritten(old(text), '{', members, '}');
    }

    method Step(step: Step) returns (ok: bool)
      modifies this
      ensures ok <==> StepOk(step)
      ensures ok ==> text == old(text) + StepText(step)
    {
      Write("{");
      ghost var base := text;
      IdentityFields(step, base);
      ok := StateFields(step, base, IdentityMembers(step));
      if !ok { return; }
      ghost var members := IdentityMembers(step) + StateMembers(step);
      if step.inverse.Some? {
        ok := InverseField(step.inverse.value, base, members);
        if !ok { return; }
      }
      Write("}");
      AppendNone(members);
      BracketWritten(old(text), '{', members + InverseMembers(step), '}');
    }

    method IdentityFields(step: Step, ghost base: string)
      requires text == base
      modifies this
      ensures text == base + Items(IdentityMembers(step))
    {
      AppendNone(base);
      StringField(true, "id", step.id, base, []);
      ghost var members := [] + [Member("id", Quote(step.id))];
      StringField(false, "module", step.owner, base, members);
      members := members + [Member("module", Quote(step.owner))];
      StringField(false, "description", step.description, base, members);
      members := members + [Member("description", Quote(step.description))];
      StringSetField(false, "dependsOn", step.dependsOn, base, members);
      members := members + [Member("dependsOn", SetText(step.dependsOn))];
      StringField(false, "scope", step.scope, base, members);
      members := members + [Member("scope", Quote(step.scope))];
      StringField(false, "network", step.network, base, members);
      members := members + [Member("network", Quote(step.network))];
      StringField(false, "operation", step.operation, base, members);
      AppendSeven(Member("id", Quote(step.id)), Member("module", Quote(step.owner)), Member("description", Quote(step.description)),
                  Member("dependsOn", SetText(step.dependsOn)), Member("scope", Quote(step.scope)),
                  Member("network", Quote(step.network)), Member("operation", Quote(step.operation)));
    }

    method StateFields(step: Step, ghost base: string, ghost members: seq<string>) returns (ok: bool)
      requires text == base + Items(members) && members != []
      modifies this
      ensures ok <==> PayloadOk(step.desired) && PayloadOk(step.observed)
      ensures ok ==> text == base + Items(members + StateMembers(step))
    {
      ok := PayloadField(false, "desired", step.desired, base, members);
      if !ok { return; }
      ghost var desired := Member("desired", PayloadText(step.desired));
      ok := PayloadField(false, "observed", step.observed, base, members + [desired]);
      if !ok { return; }
      ghost var observed := Member("observed", PayloadText(step.observed));
      StringField(false, "disposition", step.disposition, base, members + [desired] + [observed]);
      AppendThree(members, desired, observed, Member("disposition", Quote(step.disposition)));
    }

    method InverseField(inverse: Inverse, ghost base: string, ghost members: seq<string>) returns (ok: bool)
      requires text == base + Items(members) && members != []
      modifies this
      ensures ok <==> PayloadOk(inverse.value)
      ensures ok ==> text == base + Items(members + [Member("inverse", InverseText(inverse))])
    {
      BeginField(false, "inverse");
      ok := WriteInverse(inverse);
      if ok {
        FieldWritten(base, members, "inverse", InverseText(inverse));
      }
    }

    method WriteInverse(inverse: Inverse) returns (ok: bool)
      modifies this
      ensures ok <==> PayloadOk(inverse.value)
      ensures ok ==> text == old(text) + InverseText(inverse)
    {
      Write("{");
      ghost var base, operation := text, Member("operation", Quote(inverse.operation));
      StringField(true, "operation", inverse.operation, base, []);
      ok := PayloadField(false, "value", inverse.value, base, [operation]);
      if ok {
        Write("}");
        AppendOne(operation, Member("value", PayloadText(inverse.value)));
        BracketWritten(old(text), '{', [operation, Member("value", PayloadText(inverse.value))], '}');
      }
    }

    method Steps(steps: seq<Step>) returns (ok: bool)
      modifies this
      ensures ok <==> forall s :: s in steps ==> StepOk(s)
      ensures ok ==> text == old(text) + StepsText(steps)
    {
      hide StepOk, StepTexts, Items, Bracket;
      NoStepTexts(steps);
      Write("[");
      ghost var base := text;
      for i := 0 to |steps|
        invariant forall s :: s in steps[..i] ==> StepOk(s)
        invariant text == base + Items(StepTexts(steps[..i]))
      {
        ok := NextStep(steps, i, base);
        if !ok {
          return;
        }
      }
      assert steps[..|steps|] == steps;
      ok := true;
      Write("]");
      BracketWritten(old(text), '[', StepTexts(steps), ']');
    }

    method Plan(plan: Plan) returns (ok: bool)
      modifies this
      ensures ok <==> PlanOk(plan)
      ensures ok ==> text == old(text) + Bracket('{', PlanMembers(plan), '}')
    {
      Write("{");
      ghost var base, selection := text, Member("selection", SelectionText(plan.selection));
      BeginField(true, "selection");
      Selection(plan.selection);
      AppendNone(base);
      FieldWritten(base, [], "selection", SelectionText(plan.selection));
      AppendNone([selection]);
      BeginField(false, "steps");
      ok := Steps(plan.steps);
      if ok {
        FieldWritten(base, [selection], "steps", StepsText(plan.steps));
        AppendOne(selection, Member("steps", StepsText(plan.steps)));
        Write("}");
        BracketWritten(old(text), '{', PlanMembers(plan), '}');
      }
    }

    method NextStep(steps: seq<Step>, i: nat, ghost base: string) returns (ok: bool)
      requires i < |steps| && forall s :: s in steps[..i] ==> StepOk(s)
      requires text == base + Items(StepTexts(steps[..i]))
      modifies this
      ensures ok ==> forall s :: s in steps[..i + 1] ==> StepOk(s)
      ensures !ok ==> !StepOk(steps[i])
      ensures ok ==> text == base + Items(StepTexts(steps[..i + 1]))
    {
      ghost var texts := StepTexts(steps[..i]);
      if i != 0 {
        Write(",");
        AppendIsAssociative(old(text), [','], if StepOk(steps[i]) then StepText(steps[i]) else "");
      }
      ok := Step(steps[i]);
      if ok {
        MemberWritten(base, texts, StepText(steps[i]));
        StepTextsGrow(steps, i);
      }
    }
  }

  lemma SelectionMembersGrow(selection: Selection)
    ensures var members := SelectionMembers(selection);
            && |members| == 3
            && members[..1] == [] + [Member("only", SetText(selection.only))]
            && members[..2] == members[..1] + [Member("with", SetText(selection.with))]
            && members == members[..2] + [Member("without", SetText(selection.without))]
    ensures Items([]) == ""
  {
    hide Member, SetText;
  }

  lemma NoStepTexts(steps: seq<Step>)
    ensures Items(StepTexts(steps[..0])) == ""
  {
  }

  lemma {:induction false} StepTextsGrow(steps: seq<Step>, i: nat)
    requires i < |steps| && StepOk(steps[i]) && forall s :: s in steps[..i] ==> StepOk(s)
    ensures forall s :: s in steps[..i + 1] ==> StepOk(s)
    ensures StepTexts(steps[..i + 1]) == StepTexts(steps[..i]) + [StepText(steps[i])]
  {
    PrefixAppend(steps, i);
    forall s | s in steps[..i + 1] ensures StepOk(s) {
      assert s in steps[..i] || s == steps[i];
    }
    assert steps[..i + 1][..i] == steps[..i] && steps[..i + 1][i] == steps[i];
  }

  lemma FieldWritten(base: string, members: seq<string>, name: string, value: string)
    ensures (base + Items(members) + Separated(members == [], Quote(name) + [':'])) + value == base + Items(members + [Member(name, value)])
  {
    var before, first := base + Items(members), members == [];
    AppendIsAssociative(before, Separated(first, Quote(name) + [':']), value);
    AppendIsAssociative(Quote(name), [':'], value);
    AppendIsAssociative([','], Quote(name) + [':'], value);
    MemberWritten(base, members, Member(name, value));
  }

  lemma MemberWritten(base: string, members: seq<string>, member: string)
    ensures (base + Items(members)) + Separated(members == [], member) == base + Items(members + [member])
  {
    ItemsAppend(members, member);
    AppendIsAssociative(base, Items(members), Separated(members == [], member));
  }

  lemma BracketWritten(before: string, open: char, texts: seq<string>, close: char)
    ensures ((before + [open]) + Items(texts)) + [close] == before + Bracket(open, texts, close)
  {
    AppendIsAssociative(before, [open], Items(texts));
    AppendIsAssociative(before, [open] + Items(texts), [close]);
    AppendIsAssociative([open], Items(texts), [close]);
  }

  // Normalize: the canonical text of a plan, if every payload in it decodes.
  method Normalize(plan: Plan) returns (normalized: Option<string>)
    ensures normalized == if PlanOk(plan) then Some(PlanText(plan)) else None
  {
    var buffer := new Buffer();
    var ok := buffer.Plan(plan);
    if !ok {
      return None;
    }
    AppendNone(Bracket('{', PlanMembers(plan), '}'));
    buffer.Write("\n");
    normalized := Some(buffer.text);
  }
}
