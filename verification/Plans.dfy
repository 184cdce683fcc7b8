// Plan values shared by the planner, the digest and the executor (internal/planner/plan.go).
module Plans {
  import opened Text

  // json.RawMessage: nil, or the text of a payload.
  type Payload = Option<string>

  datatype Inverse = Inverse(operation: string, value: Payload)

  datatype Step = Step(
    id: string,
    owner: string,
    dependsOn: seq<string>,
    description: string,
    scope: string,
    network: string,
    operation: string,
    disposition: string,
    desired: Payload,
    observed: Payload,
    inverse: Option<Inverse>)

  datatype Module = Module(name: string, enabled: bool, dependsOn: seq<string>, steps: seq<Step>)

  datatype Selection = Selection(only: seq<string>, with: seq<string>, without: seq<string>)

  datatype Plan = Plan(selection: Selection, steps: seq<Step>)

  const SATISFIED := "satisfied"
  const APPLY := "apply"
  const REMOVE := "remove"
  const BLOCKED := "blocked"

  function ModuleRank(name: string): nat {
    if name == "bootstrap" then 0
    else if name == "fingerprint" then 1
    else if name == "devtools" then 2
    else if name == "apps" then 3
    else if name == "vicinae" then 4
    else if name == "desktop" then 5
    else if name == "verify" then 7
    else 6
  }
}
