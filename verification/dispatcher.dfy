/**
  The action dispatcher: the `switch` of the run loop in main.go.

  A step's kind is decided by probing the keywords `navigate`, `input` and
  `click` in that fixed order; the first with a non-empty value wins, and a
  step with none of them is a silent no-op. The browser operation a step
  asks for is a `Call`; `page.Locator` cannot fail, so locating the element is
  folded into `Fill` and `Click`.
*/
module Dispatcher {
  import opened Steps
  import opened Resolver

  datatype Option<T> = None | Some(value: T)

  /** One browser operation: `page.Goto(url)`, `page.Locator(selector).Fill(text)`, `page.Locator(selector).Click()`. */
  datatype Call = Navigate(url: string) | Fill(selector: string, text: string) | Click(selector: string)

  /** The action keywords, highest priority first. */
  const Keywords: seq<string> := ["navigate", "input", "click"]

  /** The keyword a call answers to. */
  function KindOf(call: Call): string {
    match call
    case Navigate(_) => "navigate"
    case Fill(_, _) => "input"
    case Click(_) => "click"
  }

  /**
    Reference reading of "first match wins": the position in `keys` of the
    first key whose value in `action` is non-empty, if there is one.
  */
  function FirstKeyword(action: map<string, string>, keys: seq<string>): (r: Option<nat>)
    ensures r.Some? ==> r.value < |keys| && Lookup(action, keys[r.value]) != ""
    ensures r.Some? ==> forall j :: 0 <= j < r.value ==> Lookup(action, keys[j]) == ""
    ensures r.None? ==> forall j :: 0 <= j < |keys| ==> Lookup(action, keys[j]) == ""
    decreases |keys|
  {
    if keys == [] then None
    else if Lookup(action, keys[0]) != "" then Some(0)
    else match FirstKeyword(action, keys[1..])
      case None => None
      case Some(i) => Some(i + 1)
  }

  /**
    The call a step makes, or None for a step that makes none. The navigate
    URL and both selectors are taken verbatim from the map; only the text of
    an input step goes through `ResolveEnv`.
  */
  function Dispatch(step: TestStep, env: map<string, string>): (r: Option<Call>)
    ensures r.None? <==>
      Lookup(step.action, "navigate") == "" && Lookup(step.action, "input") == "" && Lookup(step.action, "click") == ""
    ensures r.Some? && r.value.Navigate? ==> r.value.url == Lookup(step.action, "navigate")
    ensures r.Some? && r.value.Fill? ==>
      r.value.selector == Lookup(step.action, "selector") && r.value.text == ResolveEnv(env, Lookup(step.action, "text"))
    ensures r.Some? && r.value.Click? ==> r.value.selector == Lookup(step.action, "click")
  {
    if Lookup(step.action, "navigate") != "" then
      Some(Navigate(Lookup(step.action, "navigate")))
    else if Lookup(step.action, "input") != "" then
      Some(Fill(Lookup(step.action, "selector"), ResolveEnv(env, Lookup(step.action, "text"))))
    else if Lookup(step.action, "click") != "" then
      Some(Click(Lookup(step.action, "click")))
    else
      None
  }

  /**
    Dispatch follows the priority order: it makes a call exactly when some
    keyword is set, and the call is of the kind of the first keyword set.
  */
  lemma DispatchFollowsPriority(step: TestStep, env: map<string, string>)
    ensures Dispatch(step, env).None? <==> FirstKeyword(step.action, Keywords).None?
    ensures Dispatch(step, env).Some? ==>
      FirstKeyword(step.action, Keywords).Some? &&
      KindOf(Dispatch(step, env).value) == Keywords[FirstKeyword(step.action, Keywords).value]
  {
  }

  /**
    A set `navigate` decides the step on its own: whatever any other key of
    the action map holds, the step makes the same single `Navigate` call.
  */
  lemma NavigateOverridesOtherKeys(step: TestStep, env: map<string, string>, key: string, v: string)
    requires Lookup(step.action, "navigate") != ""
    requires key != "navigate"
    ensures Dispatch(TestStep(step.name, step.action[key := v]), env) == Dispatch(step, env)
    ensures Dispatch(step, env) == Some(Navigate(Lookup(step.action, "navigate")))
  {
  }

  /**
    Without `navigate`, a set `input` decides the step: keys other than
    `navigate`, `input`, `selector` and `text` (so `click` among them) do not
    change the single `Fill` call it makes.
  */
  lemma InputOverridesClick(step: TestStep, env: map<string, string>, key: string, v: string)
    requires Lookup(step.action, "navigate") == "" && Lookup(step.action, "input") != ""
    requires key !in {"navigate", "input", "selector", "text"}
    ensures Dispatch(TestStep(step.name, step.action[key := v]), env) == Dispatch(step, env)
    ensures Dispatch(step, env).Some? && Dispatch(step, env).value.Fill?
  {
  }

  /**
    The environment reaches a step only through the text of an input step:
    under two environments a step makes the same kind of call with the same
    URL or selector, and navigate and click calls are identical.
  */
  lemma EnvReachesOnlyFillText(step: TestStep, env1: map<string, string>, env2: map<string, string>)
    ensures Dispatch(step, env1).None? <==> Dispatch(step, env2).None?
    ensures Dispatch(step, env1).Some? ==>
      var c1, c2 := Dispatch(step, env1).value, Dispatch(step, env2).value;
      KindOf(c1) == KindOf(c2) && (c1.Fill? ==> c1.selector == c2.selector) && (!c1.Fill? ==> c1 == c2)
  {
  }
}
