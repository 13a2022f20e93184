/**
  Three concrete plans run against stub browsers: a navigate then an input
  whose text is an environment reference, a click the page rejects, and a
  step with an empty action map.
*/
module Scenarios {
  import opened Steps
  import opened Dispatcher
  import opened Executor

  /** Navigate, then fill `#box` with `env://GREETING` where GREETING is "hi"; the page accepts everything. */
  lemma NavigateThenInput()
    ensures Run([TestStep("go", map["navigate" := "https://example.com"]),
                 TestStep("type", map["input" := "x", "selector" := "#box", "text" := "env://GREETING"])],
                map["GREETING" := "hi"], (h: seq<Call>, c: Call) => true)
         == RunResult([Navigate("https://example.com"), Fill("#box", "hi")], 1)
  {
  }

  /** A click the page rejects ends the run with 0 after that one call, and the following step is never dispatched. */
  lemma RejectedClickStopsTheRun()
    ensures Run([TestStep("click-missing", map["click" := "#nope"]), TestStep("go", map["navigate" := "https://example.com"])],
                map[], (h: seq<Call>, c: Call) => c != Click("#nope"))
         == RunResult([Click("#nope")], 0)
  {
  }

  /** A step that names no action makes no call and the run succeeds, even on a page that rejects every call. */
  lemma EmptyActionIsNoop()
    ensures Run([TestStep("noop", map[])], map[], (h: seq<Call>, c: Call) => false) == RunResult([], 1)
  {
  }
}
