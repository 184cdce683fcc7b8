// The canonical text of a plan, name by name: what it says under each name, and its bytes in order
// (internal/planner/digest.go:22-265).
module DigestFields {
  import opened Text
  import opened Plans
  import opened Json
  import opened JsonTheorems
  import opened Digest
  import opened DigestTheorems
  import opened JsonGrammar

  // A list of strings, each once and in order.
  ghost predicate IsSetOf(v: Json, values: seq<string>) {
    && v.Arr?
    && (forall x :: x in v.items ==> x.Str? && x.text in values)
    && (forall value :: value in values ==> Str(value) in v.items)
    && forall i, j :: 0 <= i < j < |v.items| ==> v.items[i].Str? && v.items[j].Str? && Less(v.items[i].text, v.items[j].text)
  }

  // What a payload says: null if there is none, else the value it is a text of.
  ghost predicate SaysPayload(v: Json, payload: Payload) {
    if payload.None? then v == Null else Denotes(payload.value, v)
  }

  ghost predicate SaysSelection(v: Json, selection: Selection) {
    && v.Obj? && v.fields.Keys == {"only", "with", "without"}
    && IsSetOf(v.fields["only"], selection.only)
    && IsSetOf(v.fields["with"], selection.with)
    && IsSetOf(v.fields["without"], selection.without)
  }

  ghost predicate SaysInverse(v: Json, inverse: Inverse) {
    && v.Obj? && v.fields.Keys == {"operation", "value"}
    && v.fields["operation"] == Str(inverse.operation)
    && SaysPayload(v.fields["value"], inverse.value)
  }

  const STEP_KEYS: set<string> := {
    "id", "module", "description", "dependsOn", "scope", "network", "operation", "desired", "observed", "disposition"}

  ghost predicate SaysStep(v: Json, step: Step) {
    && v.Obj? && v.fields.Keys == STEP_KEYS + (if step.inverse.Some? then {"inverse"} else {})
    && v.fields["id"] == Str(step.id)
    && v.fields["module"] == Str(step.owner)
    && v.fields["description"] == Str(step.description)
    && IsSetOf(v.fields["dependsOn"], step.dependsOn)
    && v.fields["scope"] == Str(step.scope)
    && v.fields["network"] == Str(step.network)
    && v.fields["operation"] == Str(step.operation)
    && SaysPayload(v.fields["desired"], step.desired)
    && SaysPayload(v.fields["observed"], step.observed)
    && v.fields["disposition"] == Str(step.disposition)
    && (step.inverse.Some? ==> SaysInverse(v.fields["inverse"], step.inverse.value))
  }

  ghost predicate SaysPlan(v: Json, plan: Plan) {
    && v.Obj? && v.fields.Keys == {"selection", "steps"}
    && SaysSelection(v.fields["selection"], plan.selection)
    && v.fields["steps"].Arr? && |v.fields["steps"].items| == |plan.steps|
    && forall i :: 0 <= i < |plan.steps| ==> SaysStep(v.fields["steps"].items[i], plan.steps[i])
  }

  lemma SetIsSaid(values: seq<string>)
    ensures IsSetOf(SetValue(values), values)
  {
    var names := InOrder(PLAIN, Elements(values));
    InOrderIsSorted(PLAIN, Elements(values));
    var items := SetValue(values).items;
    forall x | x in items
      ensures x.Str? && x.text in values
    {
      var i :| 0 <= i < |items| && items[i] == x;
      assert names[i] in Elements(names);
    }
    forall value | value in values
      ensures Str(value) in items
    {
      assert value in Elements(values);
      assert value in Elements(names);
      var i :| 0 <= i < |names| && names[i] == value;
      assert items[i] == Str(value);
    }
    forall i, j | 0 <= i < j < |items|
      ensures Less(items[i].text, items[j].text)
    {
      assert Before(PLAIN, names[i], names[j]);
    }
  }

  lemma PayloadIsSaid(payload: Payload)
    requires PayloadOk(payload)
    ensures SaysPayload(PayloadValue(payload), payload)
  {
    hide Denotes, ParseSingle;
    if payload.Some? { DecodesExactlyWhen(payload.value, PayloadValue(payload)); }
  }

  lemma FieldsOfRecord(names: seq<string>, values: seq<Json>)
    requires |names| == |values| && NoDuplicates(names)
    ensures var v := Record(names, values);
            && v.Obj? && v.fields.Keys == Elements(names)
            && forall i :: 0 <= i < |names| ==> names[i] in v.fields && v.fields[names[i]] == values[i]
  {
    ReadOnEndsWith(map[], names, values);
    forall i | 0 <= i < |names|
      ensures names[i] in Elements(names)
    {
    }
  }

  lemma SelectionIsSaid(selection: Selection)
    ensures SaysSelection(SelectionValue(selection), selection)
  {
    hide IsSetOf, SetValue;
    SetIsSaid(selection.only);
    SetIsSaid(selection.with);
    SetIsSaid(selection.without);
    var values := [SetValue(selection.only), SetValue(selection.with), SetValue(selection.without)];
    FieldsOfRecord(SELECTION_NAMES, values);
    var v := SelectionValue(selection);
    assert v.fields[SELECTION_NAMES[0]] == values[0] && v.fields[SELECTION_NAMES[1]] == values[1] && v.fields[SELECTION_NAMES[2]] == values[2];
    assert Elements(SELECTION_NAMES) == {"only", "with", "without"};
  }

  lemma InverseIsSaid(inverse: Inverse)
    requires PayloadOk(inverse.value)
    ensures SaysInverse(InverseValue(inverse), inverse)
  {
    hide SaysPayload, PayloadValue;
    PayloadIsSaid(inverse.value);
    var values := [Str(inverse.operation), PayloadValue(inverse.value)];
    FieldsOfRecord(INVERSE_NAMES, values);
    var v := InverseValue(inverse);
    assert v.fields[INVERSE_NAMES[0]] == values[0] && v.fields[INVERSE_NAMES[1]] == values[1];
    assert Elements(INVERSE_NAMES) == {"operation", "value"};
  }

  lemma StepFields(step: Step)
    requires StepOk(step)
    ensures var v := StepValue(step);
            && v.Obj? && v.fields.Keys == Elements(StepNames(step))
            && var names, values := StepNames(step), AllStepValues(step);
               |names| == |values| && forall i :: 0 <= i < |names| ==> names[i] in v.fields && v.fields[names[i]] == values[i]
  {
    hide SetValue, PayloadValue, Record, InverseValue;
    StepNamesAreDistinct(step);
    FieldsOfRecord(StepNames(step), AllStepValues(step));
  }

  lemma StepKeys(step: Step)
    ensures Elements(StepNames(step)) == STEP_KEYS + (if step.inverse.Some? then {"inverse"} else {})
  {
    hide Elements;
    var last := if step.inverse.Some? then ["inverse"] else [];
    ElementsOfAppend(IDENTITY_NAMES, STATE_NAMES);
    ElementsOfAppend(IDENTITY_NAMES + STATE_NAMES, last);
    SevenElements("id", "module", "description", "dependsOn", "scope", "network", "operation");
    ThreeElements("desired", "observed", "disposition");
    AtMostOneElement("inverse");
    KeysAddUp({"id", "module", "description", "dependsOn", "scope", "network", "operation"}, {"desired", "observed", "disposition"},
              Elements(last));
  }

  lemma KeysAddUp(a: set<string>, b: set<string>, c: set<string>)
    requires a == {"id", "module", "description", "dependsOn", "scope", "network", "operation"}
    requires b == {"desired", "observed", "disposition"}
    ensures (a + b) + c == STEP_KEYS + c
  {
  }

  lemma SevenElements<T>(a: T, b: T, c: T, d: T, e: T, f: T, g: T)
    ensures Elements([a, b, c, d, e, f, g]) == {a, b, c, d, e, f, g}
  {
  }

  lemma ThreeElements<T>(a: T, b: T, c: T)
    ensures Elements([a, b, c]) == {a, b, c}
  {
  }

  lemma AtMostOneElement<T>(a: T)
    ensures Elements([a]) == {a} && Elements<T>([]) == {}
  {
  }

  lemma StepIsSaid(step: Step)
    requires StepOk(step)
    ensures SaysStep(StepValue(step), step)
  {
    hide IsSetOf, SaysPayload, SaysInverse, SetValue, PayloadValue, InverseValue, StepValue, Elements;
    StepFields(step);
    StepKeys(step);
    SetIsSaid(step.dependsOn);
    PayloadIsSaid(step.desired);
    PayloadIsSaid(step.observed);
    if step.inverse.Some? { InverseIsSaid(step.inverse.value); }
    StepNamesInOrder(step);
  }

  lemma StepNamesInOrder(step: Step)
    requires StepOk(step)
    ensures var names, values := StepNames(step), AllStepValues(step);
            && |names| >= 10 && |values| == |names|
            && names[0] == "id" && values[0] == Str(step.id)
            && names[1] == "module" && values[1] == Str(step.owner)
            && names[2] == "description" && values[2] == Str(step.description)
            && names[3] == "dependsOn" && values[3] == SetValue(step.dependsOn)
            && names[4] == "scope" && values[4] == Str(step.scope)
            && names[5] == "network" && values[5] == Str(step.network)
            && names[6] == "operation" && values[6] == Str(step.operation)
            && names[7] == "desired" && values[7] == PayloadValue(step.desired)
            && names[8] == "observed" && values[8] == PayloadValue(step.observed)
            && names[9] == "disposition" && values[9] == Str(step.disposition)
            && (step.inverse.Some? ==> |names| == 11 && names[10] == "inverse" && values[10] == InverseValue(step.inverse.value))
  {
    hide SetValue, PayloadValue, InverseValue;
  }

  // The text of a plan decodes, before its newline, to an object that says under each name what the plan
  // has there, and nothing else.
  lemma TextSaysPlan(plan: Plan) returns (v: Json)
    requires PlanOk(plan)
    ensures ParseValue(PlanText(plan), MAX_NESTING + 4) == Done(v, "\n")
    ensures SaysPlan(v, plan)
  {
    hide SaysSelection, SaysStep, StepValue, SelectionValue, PlanText, ParseValue;
    PlanTextDecodes(plan);
    v := PlanValue(plan);
    var values := [SelectionValue(plan.selection), Arr(StepValues(plan.steps))];
    FieldsOfRecord(PLAN_NAMES, values);
    assert v.fields[PLAN_NAMES[0]] == values[0] && v.fields[PLAN_NAMES[1]] == values[1];
    assert Elements(PLAN_NAMES) == {"selection", "steps"};
    SelectionIsSaid(plan.selection);
    StepValuesAt(plan.steps);
    forall i | 0 <= i < |plan.steps|
      ensures SaysStep(StepValues(plan.steps)[i], plan.steps[i])
    {
      assert plan.steps[i] in plan.steps;
      StepIsSaid(plan.steps[i]);
    }
  }

  // ---- The bytes, in order ----

  // No character that an encoder has to escape.
  ghost predicate NeedsNoEscape(s: string) {
    forall i :: 0 <= i < |s| ==> 'a' <= s[i] <= 'z' || 'A' <= s[i] <= 'Z'
  }

  lemma {:induction false} PlainQuote(s: string)
    requires NeedsNoEscape(s)
    ensures Escape(s) == s && Quote(s) == ['"'] + (s + ['"'])
  {
    if s != "" {
      PlainQuote(s[1..]);
      assert EscapeChar(s[0]) == [s[0]];
      assert s == [s[0]] + s[1..];
    }
  }

  function FieldsText(names: seq<string>, texts: seq<string>): string
    requires |names| == |texts| > 0
  {
    ['"'] + (names[0] + (['"', ':'] + (texts[0] + (if |names| == 1 then "" else [','] + FieldsText(names[1..], texts[1..])))))
  }

  // {"name":text,"name":text}
  function ObjectText(names: seq<string>, texts: seq<string>): string
    requires |names| == |texts| > 0
  {
    ['{'] + (FieldsText(names, texts) + ['}'])
  }

  lemma {:induction false} FieldsAreItems(names: seq<string>, texts: seq<string>)
    requires |names| == |texts| > 0 && forall i :: 0 <= i < |names| ==> NeedsNoEscape(names[i])
    ensures Items(Members(names, texts)) == FieldsText(names, texts)
    decreases |names|
  {
    hide NeedsNoEscape, Quote;
    var members := Members(names, texts);
    PlainQuote(names[0]);
    QuotedMember(names[0], texts[0]);
    if |names| > 1 {
      FieldsAreItems(names[1..], texts[1..]);
      assert members[1..] == Members(names[1..], texts[1..]);
      var more := [','] + FieldsText(names[1..], texts[1..]);
      AppendIsAssociative(['"'], names[0] + (['"', ':'] + texts[0]), more);
      AppendIsAssociative(names[0], ['"', ':'] + texts[0], more);
      AppendIsAssociative(['"', ':'], texts[0], more);
    } else {
      assert texts[0] + "" == texts[0];
    }
  }

  lemma QuotedMember(name: string, text: string)
    requires Quote(name) == ['"'] + (name + ['"'])
    ensures Member(name, text) == ['"'] + (name + (['"', ':'] + text))
  {
  }

  lemma ObjectIsText(names: seq<string>, texts: seq<string>)
    requires |names| == |texts| > 0 && forall i :: 0 <= i < |names| ==> NeedsNoEscape(names[i])
    ensures Bracket('{', Members(names, texts), '}') == ObjectText(names, texts)
  {
    hide NeedsNoEscape, FieldsText;
    FieldsAreItems(names, texts);
  }

  // The fields of a step stand in this order, the inverse only if there is one.
  lemma StepTextInOrder(step: Step)
    requires StepOk(step)
    ensures var names := ["id", "module", "description", "dependsOn", "scope", "network", "operation", "desired", "observed", "disposition"];
            var texts := [
              Quote(step.id), Quote(step.owner), Quote(step.description), SetText(step.dependsOn), Quote(step.scope),
              Quote(step.network), Quote(step.operation), PayloadText(step.desired), PayloadText(step.observed), Quote(step.disposition)];
            StepText(step) ==
              if step.inverse.None? then ObjectText(names, texts)
              else ObjectText(names + ["inverse"], texts + [InverseText(step.inverse.value)])
  {
    hide Quote, SetText, PayloadText, InverseText, Bracket, ObjectText, Member;
    var names := ["id", "module", "description", "dependsOn", "scope", "network", "operation", "desired", "observed", "disposition"];
    var texts := [
      Quote(step.id), Quote(step.owner), Quote(step.description), SetText(step.dependsOn), Quote(step.scope),
      Quote(step.network), Quote(step.operation), PayloadText(step.desired), PayloadText(step.observed), Quote(step.disposition)];
    PlainNames();
    if step.inverse.None? {
      ObjectIsText(names, texts);
      assert IdentityMembers(step) + StateMembers(step) + InverseMembers(step) == Members(names, texts);
    } else {
      ObjectIsText(names + ["inverse"], texts + [InverseText(step.inverse.value)]);
      assert IdentityMembers(step) + StateMembers(step) + InverseMembers(step)
          == Members(names + ["inverse"], texts + [InverseText(step.inverse.value)]);
    }
  }

  lemma PlainNames()
    ensures NeedsNoEscape("id") && NeedsNoEscape("module") && NeedsNoEscape("description") && NeedsNoEscape("dependsOn")
    ensures NeedsNoEscape("scope") && NeedsNoEscape("network") && NeedsNoEscape("operation") && NeedsNoEscape("desired")
    ensures NeedsNoEscape("observed") && NeedsNoEscape("disposition") && NeedsNoEscape("inverse")
  {
  }

  lemma OtherPlainNames()
    ensures NeedsNoEscape("operation") && NeedsNoEscape("value") && NeedsNoEscape("selection") && NeedsNoEscape("steps")
    ensures NeedsNoEscape("only") && NeedsNoEscape("with") && NeedsNoEscape("without")
  {
  }

  // The other objects, and the newline at the end.
  lemma PlanTextInOrder(plan: Plan)
    requires PlanOk(plan)
    ensures PlanText(plan) == ObjectText(["selection", "steps"], [SelectionText(plan.selection), StepsText(plan.steps)]) + "\n"
    ensures SelectionText(plan.selection) ==
      ObjectText(["only", "with", "without"], [SetText(plan.selection.only), SetText(plan.selection.with), SetText(plan.selection.without)])
  {
    hide Quote, SetText, StepsText, Bracket, ObjectText, Member;
    OtherPlainNames();
    var lists := [SetText(plan.selection.only), SetText(plan.selection.with), SetText(plan.selection.without)];
    ObjectIsText(["only", "with", "without"], lists);
    assert SelectionMembers(plan.selection) == Members(["only", "with", "without"], lists);
    var parts := [SelectionText(plan.selection), StepsText(plan.steps)];
    ObjectIsText(["selection", "steps"], parts);
    assert PlanMembers(plan) == Members(["selection", "steps"], parts);
  }

  lemma InverseTextInOrder(inverse: Inverse)
    requires PayloadOk(inverse.value)
    ensures InverseText(inverse) == ObjectText(["operation", "value"], [Quote(inverse.operation), PayloadText(inverse.value)])
  {
    hide Quote, PayloadText, Bracket, ObjectText, Member;
    OtherPlainNames();
    ObjectIsText(["operation", "value"], [Quote(inverse.operation), PayloadText(inverse.value)]);
    assert [Member("operation", Quote(inverse.operation)), Member("value", PayloadText(inverse.value))]
        == Members(["operation", "value"], [Quote(inverse.operation), PayloadText(inverse.value)]);
  }

  // ---- How strings are escaped ----

  // What an escaped character is written as: by itself, in two characters, or as \u00 and two digits,
  // or, of the separators, as their code. Nothing written needs an escape in HTML or can end a line.
  lemma EscapedCharIsSafe(c: char)
    ensures forall i :: 0 <= i < |EscapeChar(c)| ==>
      EscapeChar(c)[i] >= ' ' && EscapeChar(c)[i] !in "<>&" && EscapeChar(c)[i] != '\U{2028}' && EscapeChar(c)[i] != '\U{2029}'
    ensures |EscapeChar(c)| == 1 <==> c >= ' ' && c !in "\"\\<>&" && c != '\U{2028}' && c != '\U{2029}'
    ensures |EscapeChar(c)| == 1 ==> EscapeChar(c) == [c]
    ensures |EscapeChar(c)| == 2 <==> c in "\"\\\n\r\t" || c == '\U{0008}' || c == '\U{000C}'
    ensures |EscapeChar(c)| == 1 || |EscapeChar(c)| == 2 || |EscapeChar(c)| == 6
  {
    HexDigitsAreSafe();
    NotSafe(c);
  }

  lemma HexDigitsAreSafe()
    ensures forall n: nat :: n < 16 ==> '0' <= HexDigit(n) <= '9' || 'a' <= HexDigit(n) <= 'f'
  {
    forall n: nat | n < 16
      ensures '0' <= HexDigit(n) <= '9' || 'a' <= HexDigit(n) <= 'f'
    {
      assert "0123456789abcdef"[n] == if n < 10 then ('0' as int + n) as char else ('a' as int + (n - 10)) as char;
    }
  }

  lemma NotSafe(c: char)
    ensures c in "<>&" <==> c == '<' || c == '>' || c == '&'
    ensures c in "\"\\<>&" <==> c == '"' || c == '\\' || c == '<' || c == '>' || c == '&'
    ensures c in "\"\\\n\r\t" <==> c == '"' || c == '\\' || c == '\n' || c == '\r' || c == '\t'
  {
  }
}
