/**
  The step record of a test plan (main.go, `TestStep`).

  A step is a diagnostic name plus one flat action map whose keys are action
  keywords (`navigate`, `input`, `click`) and their parameters (`selector`,
  `text`). Reading the map follows Go's map semantics: a missing key reads as
  the empty string, so "missing" and "empty" cannot be told apart.
*/
module Steps {

  /** One step of the plan; `action` holds every key of the step except `name`. */
  datatype TestStep = TestStep(name: string, action: map<string, string>)

  /** Go's `m[key]` on a `map[string]string`: the zero value "" when the key is absent. */
  function Lookup(m: map<string, string>, key: string): (v: string)
    ensures v != "" <==> key in m && m[key] != ""
    ensures v != "" ==> v == m[key]
  {
    if key in m then m[key] else ""
  }
}
