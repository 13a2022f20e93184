# playwright-exporter: the step-execution engine

playwright-exporter runs a configured list of browser steps once at start-up
(navigate to a URL, fill an input, click an element), records whether the run
passed as the Prometheus gauge `playwright_test_success{test_name="linkedin-login"}`
(1 or 0), and then serves that gauge over HTTP.

This project models the engine inside `main` and its helper `resolveEnv`
(`main.go`), in Dafny, and proves what they promise:

- `steps.dfy` (module `Steps`): the `TestStep` record, a name plus a flat
  `map<string, string>` action map, and Go's map read (`Lookup`), where a
  missing key reads as "" exactly like an empty value.
- `resolver.dfy` (module `Resolver`): `resolveEnv`. A value starting with
  `env://` is replaced by the named environment variable. It becomes "" when
  the variable is unset, and also for a name that `os.Getenv` can never find
  (the empty name, or a name containing `=`). Any other value is returned
  unchanged. The environment is a map parameter.
- `dispatcher.dfy` (module `Dispatcher`): the `switch` of the run loop. It
  gives the browser `Call` a step makes: `Navigate(url)`, `Fill(selector, text)`
  or `Click(selector)`, or none for a silent no-op. It also holds a separate
  first-match reading (`FirstKeyword`) of the priority `navigate` > `input` >
  `click`, which `Dispatch` is proved to follow.
- `executor.dfy` (module `Executor`): the `for`/`break` loop, written as the
  method `Execute`. Beside it are the spec function `RunFrom`/`Run` and the
  lemmas about it: outcome 1 exactly when every call succeeds, fail-fast, and
  no-op steps are skipped. The browser is an oracle
  `(seq<Call>, Call) -> bool`: whether a call succeeds, given the calls the
  page has already served. The loop keeps the trace of calls it made.
- `reporter.dfy` (module `Reporter`): the gauge vector as a class whose
  `values` map is overwritten by `Set`, and `RunAndRecord`, which runs the loop
  and then does the single write under `linkedin-login`.
- `scenarios.dfy` (module `Scenarios`): three concrete plans on stub pages.

The loop reproduces one detail of the source. `err` is shared by all
iterations, and only the three dispatch branches assign it. It is nil when the
loop starts, because the page-creation check before the loop passed. The loop
breaks as soon as `err` is non-nil. So a step with no recognised keyword
always sees nil and counts as a success. `Execute` keeps `err` as one variable
outside the loop, and its invariant `!err` records that fact.

## Model

| member | source | states |
|---|---|---|
| `Steps.Lookup` | main.go:80-88 | reading a step's action map: the result is non-empty exactly when the key is present with a non-empty value, and is then that value (missing and empty are the same) |
| `Resolver.HasPrefix` | main.go:109 | `strings.HasPrefix`: true exactly when the prefix is a prefix of the string |
| `Resolver.TrimPrefix` | main.go:110 | with the prefix present, prefix + result rebuilds the input; otherwise the input comes back unchanged |
| `Resolver.Getenv` | main.go:110 | `os.Getenv`: a non-empty result is the entry of a findable name (non-empty, no `=`); a findable name that is set reads as its value; every other name reads as "" |
| `Resolver.ResolveEnv` | main.go:108-113 | never fails: the result is the input itself, a value of the environment, or "" |
| `Resolver.ResolveLiteral` | main.go:108-112 | a value not starting with `env://` is returned unchanged, whatever the environment |
| `Resolver.ResolveReference` | main.go:109-110 | `env://NAME` resolves to NAME's value when NAME is a findable name that is set, and to "" otherwise, so `env://` alone resolves to "" in every environment |
| `Resolver.ReferenceNameIsUnique` | main.go:109-110 | a value with the prefix is `env://` followed by exactly one name, the trimmed rest, so literal and reference cases cover every input |
| `Dispatcher.FirstKeyword` | main.go:79-90 | reference reading of "first match wins": the position of the first key with a non-empty value, with every earlier key empty, or none when all keys are empty |
| `Dispatcher.Dispatch` | main.go:79-90 | no call exactly when `navigate`, `input` and `click` are all empty or missing; the navigate URL and the click selector are the map values verbatim; a fill uses `selector` verbatim and `text` through `ResolveEnv` |
| `Dispatcher.DispatchFollowsPriority` | main.go:79-90 | a step makes a call exactly when some keyword is set, and the call is of the kind of the first set keyword in the order navigate, input, click |
| `Dispatcher.NavigateOverridesOtherKeys` | main.go:80-81 | with `navigate` set, the step makes exactly one `Navigate` call with that URL, and changing any other key of the map does not change it |
| `Dispatcher.InputOverridesClick` | main.go:82-86 | with `navigate` empty and `input` set, the step makes one `Fill` call, unchanged by any key other than navigate, input, selector and text (click included) |
| `Dispatcher.EnvReachesOnlyFillText` | main.go:81-88 | under two environments a step makes the same kind of call with the same URL or selector; navigate and click calls are identical, so only the fill text is resolved |
| `Executor.StepCalls` | main.go:79-90 | a step makes at most one call: none exactly when it dispatches to no action, otherwise exactly the call `Dispatch` selects |
| `Executor.Calls` | main.go:78-90 | a plan makes at most one call per step |
| `Executor.CallsAppend` | main.go:78 | steps run in plan order: the calls of a concatenated plan are the calls of its parts, in order |
| `Executor.RunFrom` | main.go:78-97 | the outcome is 0 or 1; the trace extends the page's history by a prefix of the plan's calls, by all of them when the outcome is 1, and by at least the failing call when it is 0 |
| `Executor.Run` | main.go:77-97 | a run on a fresh page: the outcome is 0 or 1, the trace is a prefix of the plan's calls, all of them when the outcome is 1, and not empty when it is 0 |
| `Executor.RunSucceedsIff` | main.go:77-97 | the outcome is 1 exactly when every call of the plan succeeds in turn, and then the trace is every call of the plan; an empty plan gives 1 and no calls |
| `Executor.RunFailFast` | main.go:92-96 | when step i is the first whose call fails, the outcome is 0 and the trace is exactly the calls of steps 0..i, so no later step is dispatched |
| `Executor.RunFailureHasCulprit` | main.go:92-96 | an outcome of 0 always has a first failing step, so `RunFailFast` describes every failed run |
| `Executor.NoopStepIsSkipped` | main.go:79-92 | removing a step that names no keyword changes neither the trace nor the outcome: it makes no call and does not fail the run |
| `Executor.Invoke` | main.go:81-89 | one page call (`Goto`, `Fill` or `Click`): the call is appended to the trace, and `err` is set exactly when the page rejects it |
| `Executor.Execute` | main.go:77-97 | the loop with the shared `err` and `break` returns exactly the trace and outcome of `Run`; 1 exactly when every call succeeds, with the full plan's calls, and 0 with the calls up to the first failing step |
| `Reporter.GaugeVec.constructor` | main.go:23-29 | a new gauge vector holds no label value |
| `Reporter.GaugeVec.Set` | main.go:100 | the label's value is overwritten with the new one (last write wins) and every other label keeps its value |
| `Reporter.RunAndRecord` | main.go:77-100 | after the run the gauge at `linkedin-login` holds the outcome, which is 0 or 1 and is 1 exactly when every call succeeded; every other label is unchanged |
| `Scenarios.NavigateThenInput` | main.go:78-90 | navigate then an input whose text is `env://GREETING` with GREETING=hi makes `Navigate("https://example.com")` then `Fill("#box", "hi")` and ends with 1 |
| `Scenarios.RejectedClickStopsTheRun` | main.go:87-96 | a click the page rejects ends the run with 0 after that one call; the next step is never dispatched |
| `Scenarios.EmptyActionIsNoop` | main.go:79-92 | a step with an empty action map makes no call and ends with 1, even on a page that rejects every call |

## Left out

- Reading `/app/config/tests.yaml` and YAML decoding, including how the `,inline` tag gathers every key except `name` into `Action` (main.go:39-50): file I/O and a third-party library. The model starts from a ready `seq<TestStep>`.
- Playwright start-up, browser launch, context and page creation, and the deferred teardown (main.go:53-74): foreign calls whose failures end the process. The model starts with a page already open, and so with `err` nil.
- What `page.Goto`, `Locator.Fill` and `Locator.Click` do to the page: the browser is an oracle that answers success or failure from the call and the calls before it. A real browser can answer differently on the same history (timing, network); the model covers a deterministic page. `page.Locator` cannot fail and is folded into the `Fill`/`Click` call. The `Response` that `Goto` returns is discarded by the source and not modelled.
- The error value itself: `err` is a boolean (non-nil or nil), because the loop only tests it against nil.
- Prometheus metric registration and the `float64` type of the gauge (main.go:22-35, 100): the outcome is the integer 1 or 0 and the gauge vector is a map from label value to integer.
- `log.Printf` of the failing step's name and error, `fmt.Println`, and the `/metrics` HTTP server (main.go:93, 101, 104-105): output and concurrent serving.
- `os.Getenv` as a live call: the environment is a map from entry name to value, read once per resolution. The model follows `os.Getenv` on Unix-like systems (no case folding of names). When several entries share a name, which one wins is not modelled.
- Go strings are byte sequences; the model uses `seq<char>`. Nothing here depends on the difference: `env://` is ASCII, the prefix test and trim compare element by element, and map keys compare by equality.
