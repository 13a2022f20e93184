/**
  The run loop of main.go: the steps run in plan order, each dispatched to the
  browser, and the first failing call stops the run (fail-fast). The outcome
  starts at 1 and drops to 0 on that first failure.

  The browser is an oracle: whether a call succeeds may depend on the call and
  on every call the page has served before it. A run produces the trace of
  calls it made and the outcome.
*/
module Executor {
  import opened Steps
  import opened Resolver
  import opened Dispatcher

  /** The browser page: does `call` succeed, after the calls in the history? */
  type Oracle = (seq<Call>, Call) -> bool

  /** What a run leaves behind: the calls it made, in order, and the outcome (1 or 0). */
  datatype RunResult = RunResult(trace: seq<Call>, outcome: int)

  /** The calls one step makes: none for a no-op, otherwise exactly one. */
  function StepCalls(step: TestStep, env: map<string, string>): (r: seq<Call>)
    ensures |r| <= 1
    ensures r == [] <==> Dispatch(step, env).None?
    ensures Dispatch(step, env).Some? ==> r == [Dispatch(step, env).value]
  {
    match Dispatch(step, env)
    case None => []
    case Some(c) => [c]
  }

  /** The calls a whole plan makes when nothing fails. */
  function Calls(steps: seq<TestStep>, env: map<string, string>): (r: seq<Call>)
    ensures |r| <= |steps|
    decreases |steps|
  {
    if steps == [] then [] else StepCalls(steps[0], env) + Calls(steps[1..], env)
  }

  /** Every call of `trace` succeeds, given the calls before it. */
  ghost predicate Accepted(respond: Oracle, trace: seq<Call>) {
    forall k :: 0 <= k < |trace| ==> respond(trace[..k], trace[k])
  }

  /**
    Functional reading of the loop, from a point where the page has served
    `history`: a no-op step is skipped, a successful call is recorded and the
    run goes on, and a failing call is recorded and ends the run with 0.
    The trace extends `history` with a prefix of the plan's calls, and all of
    them when the outcome is 1.
  */
  function RunFrom(steps: seq<TestStep>, env: map<string, string>, respond: Oracle, history: seq<Call>): (r: RunResult)
    ensures r.outcome == 0 || r.outcome == 1
    ensures history <= r.trace
    ensures r.trace <= history + Calls(steps, env)
    ensures r.outcome == 1 ==> r.trace == history + Calls(steps, env)
    ensures r.outcome == 0 ==> |history| < |r.trace|
    decreases |steps|
  {
    if steps == [] then RunResult(history, 1)
    else
      var rest := Calls(steps[1..], env);
      match Dispatch(steps[0], env)
      case None =>
        assert Calls(steps, env) == rest;
        RunFrom(steps[1..], env, respond, history)
      case Some(c) =>
        assert history + Calls(steps, env) == (history + [c]) + rest;
        if respond(history, c) then RunFrom(steps[1..], env, respond, history + [c])
        else RunResult(history + [c], 0)
  }

  /** A whole run on a fresh page. */
  function Run(steps: seq<TestStep>, env: map<string, string>, respond: Oracle): (r: RunResult)
    ensures r.outcome == 0 || r.outcome == 1
    ensures r.trace <= Calls(steps, env)
    ensures r.outcome == 1 ==> r.trace == Calls(steps, env)
    ensures r.outcome == 0 ==> r.trace != []
  {
    assert [] + Calls(steps, env) == Calls(steps, env);
    RunFrom(steps, env, respond, [])
  }

  /** Step i is the first step whose call fails, after `history`. */
  ghost predicate FailsFirstAt(steps: seq<TestStep>, env: map<string, string>, respond: Oracle, history: seq<Call>, i: nat) {
    && i < |steps|
    && Dispatch(steps[i], env).Some?
    && Accepted(respond, history + Calls(steps[..i], env))
    && !respond(history + Calls(steps[..i], env), Dispatch(steps[i], env).value)
  }

  /** Steps run in plan order: the calls of a concatenated plan are those of its parts, in order. */
  lemma {:induction false} CallsAppend(a: seq<TestStep>, b: seq<TestStep>, env: map<string, string>)
    ensures Calls(a + b, env) == Calls(a, env) + Calls(b, env)
    decreases |a|
  {
    if a == [] {
      assert a + b == b;
    } else {
      assert (a + b)[0] == a[0];
      assert (a + b)[1..] == a[1..] + b;
      CallsAppend(a[1..], b, env);
    }
  }

  /** The calls of the first i steps are those of the head followed by those of the next i - 1. */
  lemma CallsOfTake(steps: seq<TestStep>, env: map<string, string>, i: nat)
    requires 0 < i <= |steps|
    ensures Calls(steps[..i], env) == StepCalls(steps[0], env) + Calls(steps[1..][..i - 1], env)
  {
    assert steps[..i][0] == steps[0];
    assert steps[..i][1..] == steps[1..][..i - 1];
  }

  lemma AcceptedExtend(respond: Oracle, trace: seq<Call>, c: Call)
    ensures Accepted(respond, trace + [c]) <==> Accepted(respond, trace) && respond(trace, c)
  {
    var t := trace + [c];
    assert t[..|trace|] == trace;
    forall k | 0 <= k < |trace|
      ensures t[..k] == trace[..k] && t[k] == trace[k]
    {
    }
  }

  /** Accepting a trace means accepting each of its prefixes. */
  lemma {:induction false} AcceptedPrefix(respond: Oracle, a: seq<Call>, b: seq<Call>)
    requires Accepted(respond, a + b)
    ensures Accepted(respond, a)
  {
    forall k | 0 <= k < |a|
      ensures respond(a[..k], a[k])
    {
      assert (a + b)[..k] == a[..k];
      assert (a + b)[k] == a[k];
    }
  }

  /**
    Outcome as a conjunction: starting from an accepted history, the run ends
    with 1 exactly when every call of the plan would succeed in turn.
  */
  lemma {:induction false} RunFromSucceedsIff(steps: seq<TestStep>, env: map<string, string>, respond: Oracle, history: seq<Call>)
    requires Accepted(respond, history)
    ensures RunFrom(steps, env, respond, history).outcome == 1 <==> Accepted(respond, history + Calls(steps, env))
    decreases |steps|
  {
    if steps == [] {
      assert history + Calls(steps, env) == history;
    } else {
      var rest := Calls(steps[1..], env);
      match Dispatch(steps[0], env)
      case None =>
        assert Calls(steps, env) == rest;
        RunFromSucceedsIff(steps[1..], env, respond, history);
      case Some(c) =>
        assert history + Calls(steps, env) == (history + [c]) + rest;
        AcceptedExtend(respond, history, c);
        if respond(history, c) {
          RunFromSucceedsIff(steps[1..], env, respond, history + [c]);
        } else {
          if Accepted(respond, (history + [c]) + rest) {
            AcceptedPrefix(respond, history + [c], rest);
            assert false;
          }
        }
    }
  }

  /**
    The run ends with 1 exactly when every call of the plan succeeds, and then
    the trace is every call of the plan. An empty plan ends with 1.
  */
  lemma RunSucceedsIff(steps: seq<TestStep>, env: map<string, string>, respond: Oracle)
    ensures Run(steps, env, respond).outcome == 1 <==> Accepted(respond, Calls(steps, env))
    ensures Run(steps, env, respond).outcome == 1 ==> Run(steps, env, respond).trace == Calls(steps, env)
    ensures steps == [] ==> Run(steps, env, respond) == RunResult([], 1)
  {
    assert [] + Calls(steps, env) == Calls(steps, env);
    RunFromSucceedsIff(steps, env, respond, []);
  }

  /** Before the first failing step, a dispatched head step's call succeeds. */
  lemma HeadSucceedsBeforeFailure(steps: seq<TestStep>, env: map<string, string>, respond: Oracle, history: seq<Call>, i: nat)
    requires 0 < i && FailsFirstAt(steps, env, respond, history, i)
    requires Dispatch(steps[0], env).Some?
    ensures respond(history, Dispatch(steps[0], env).value)
  {
    var c := Dispatch(steps[0], env).value;
    CallsOfTake(steps, env, i);
    assert history + Calls(steps[..i], env) == (history + [c]) + Calls(steps[1..][..i - 1], env);
    AcceptedPrefix(respond, history + [c], Calls(steps[1..][..i - 1], env));
    AcceptedExtend(respond, history, c);
  }

  /** One turn of the loop: when the head step's call, if any, succeeds, the run goes on from the rest of the plan. */
  lemma RunFromStep(steps: seq<TestStep>, env: map<string, string>, respond: Oracle, history: seq<Call>)
    requires steps != []
    requires Dispatch(steps[0], env).Some? ==> respond(history, Dispatch(steps[0], env).value)
    ensures RunFrom(steps, env, respond, history) == RunFrom(steps[1..], env, respond, history + StepCalls(steps[0], env))
  {
    match Dispatch(steps[0], env)
    case None =>
      assert history + StepCalls(steps[0], env) == history;
    case Some(c) =>
      assert StepCalls(steps[0], env) == [c];
  }

  lemma {:induction false} RunFromFailFast(steps: seq<TestStep>, env: map<string, string>, respond: Oracle, history: seq<Call>, i: nat)
    requires FailsFirstAt(steps, env, respond, history, i)
    ensures RunFrom(steps, env, respond, history) == RunResult(history + Calls(steps[..i + 1], env), 0)
    decreases i
  {
    if i == 0 {
      assert steps[..0] == [];
      assert history + Calls(steps[..0], env) == history;
      CallsOfTake(steps, env, 1);
      assert steps[1..][..0] == [];
    } else {
      var h' := history + StepCalls(steps[0], env);
      CallsOfTake(steps, env, i + 1);
      assert history + Calls(steps[..i + 1], env) == h' + Calls(steps[1..][..i], env);
      if Dispatch(steps[0], env).Some? {
        HeadSucceedsBeforeFailure(steps, env, respond, history, i);
      }
      RunFromStep(steps, env, respond, history);
      FailsFirstShift(steps, env, respond, history, i - 1);
      RunFromFailFast(steps[1..], env, respond, h', i - 1);
    }
  }


  /**
    Fail-fast: when step i is the first whose call fails, the run ends with 0
    and its trace is exactly the calls of steps 0..i; no later step is dispatched.
  */
  lemma RunFailFast(steps: seq<TestStep>, env: map<string, string>, respond: Oracle, i: nat)
    requires FailsFirstAt(steps, env, respond, [], i)
    ensures Run(steps, env, respond) == RunResult(Calls(steps[..i + 1], env), 0)
  {
    RunFromFailFast(steps, env, respond, [], i);
    assert [] + Calls(steps[..i + 1], env) == Calls(steps[..i + 1], env);
  }

  /** Step j of the tail is the first to fail after the head's calls exactly when step j + 1 is, after none. */
  lemma FailsFirstShift(steps: seq<TestStep>, env: map<string, string>, respond: Oracle, history: seq<Call>, j: nat)
    requires 0 < |steps|
    ensures FailsFirstAt(steps[1..], env, respond, history + StepCalls(steps[0], env), j)
        <==> FailsFirstAt(steps, env, respond, history, j + 1)
  {
    if j + 1 < |steps| {
      CallsOfTake(steps, env, j + 1);
      assert steps[1..][j] == steps[j + 1];
      assert history + Calls(steps[..j + 1], env) == (history + StepCalls(steps[0], env)) + Calls(steps[1..][..j], env);
    }
  }

  lemma {:induction false} RunFromFailureHasCulprit(steps: seq<TestStep>, env: map<string, string>, respond: Oracle, history: seq<Call>)
    requires Accepted(respond, history)
    requires RunFrom(steps, env, respond, history).outcome == 0
    ensures exists i: nat :: FailsFirstAt(steps, env, respond, history, i)
    decreases |steps|
  {
    assert steps != [];
    var c := Dispatch(steps[0], env);
    if c.Some? && !respond(history, c.value) {
      assert steps[..0] == [];
      assert history + Calls(steps[..0], env) == history;
      assert FailsFirstAt(steps, env, respond, history, 0);
    } else {
      var h' := history + StepCalls(steps[0], env);
      if c.Some? {
        assert h' == history + [c.value];
        AcceptedExtend(respond, history, c.value);
      } else {
        assert h' == history;
      }
      RunFromFailureHasCulprit(steps[1..], env, respond, h');
      var j: nat :| FailsFirstAt(steps[1..], env, respond, h', j);
      FailsFirstShift(steps, env, respond, history, j);
    }
  }

  /** A run that ends with 0 has a first failing step, so `RunFailFast` describes it. */
  lemma RunFailureHasCulprit(steps: seq<TestStep>, env: map<string, string>, respond: Oracle)
    requires Run(steps, env, respond).outcome == 0
    ensures exists i: nat :: FailsFirstAt(steps, env, respond, [], i)
  {
    RunFromFailureHasCulprit(steps, env, respond, []);
  }

  /** A step that names none of the keywords neither calls the browser nor fails the run. */
  lemma {:induction false} NoopStepIsSkipped(steps: seq<TestStep>, env: map<string, string>, respond: Oracle, history: seq<Call>, i: nat)
    requires i < |steps| && Dispatch(steps[i], env).None?
    ensures RunFrom(steps[..i] + steps[i + 1..], env, respond, history) == RunFrom(steps, env, respond, history)
    decreases i
  {
    var without := steps[..i] + steps[i + 1..];
    if i == 0 {
      assert without == steps[1..];
    } else {
      assert without[0] == steps[0];
      assert without[1..] == steps[1..][..i - 1] + steps[1..][i..];
      assert steps[1..][i - 1] == steps[i];
      assert steps[1..][i..] == steps[1..][i - 1 + 1..];
      match Dispatch(steps[0], env)
      case None =>
        NoopStepIsSkipped(steps[1..], env, respond, history, i - 1);
      case Some(c) =>
        NoopStepIsSkipped(steps[1..], env, respond, history + [c], i - 1);
    }
  }

  /** One browser call: the page records it and reports whether it failed. */
  method Invoke(respond: Oracle, trace: seq<Call>, call: Call) returns (failed: bool, trace': seq<Call>)
    ensures trace' == trace + [call]
    ensures failed <==> !respond(trace, call)
  {
    failed := !respond(trace, call);
    trace' := trace + [call];
  }

  /**
    The loop of main.go. `err` is shared by all iterations and only the three
    dispatch branches assign it; it is nil when the loop starts and the loop
    breaks as soon as it is non-nil, so a no-op step always sees nil.
  */
  method Execute(steps: seq<TestStep>, env: map<string, string>, respond: Oracle) returns (trace: seq<Call>, success: int)
    ensures RunResult(trace, success) == Run(steps, env, respond)
    ensures success == 1 <==> Accepted(respond, Calls(steps, env))
    ensures success == 1 ==> trace == Calls(steps, env)
    ensures success == 0 ==> exists i: nat :: FailsFirstAt(steps, env, respond, [], i) && trace == Calls(steps[..i + 1], env)
  {
    trace, success := [], 1;
    var err := false;
    for i := 0 to |steps|
      invariant !err && success == 1
      invariant RunFrom(steps[i..], env, respond, trace) == Run(steps, env, respond)
    {
      ghost var before := trace;
      var step := steps[i];
      assert steps[i..][0] == step && steps[i..][1..] == steps[i + 1..];
      if Lookup(step.action, "navigate") != "" {
        err, trace := Invoke(respond, trace, Navigate(Lookup(step.action, "navigate")));
      } else if Lookup(step.action, "input") != "" {
        var selector := Lookup(step.action, "selector");
        var text := ResolveEnv(env, Lookup(step.action, "text"));
        err, trace := Invoke(respond, trace, Fill(selector, text));
      } else if Lookup(step.action, "click") != "" {
        err, trace := Invoke(respond, trace, Click(Lookup(step.action, "click")));
      }
      if err {
        success := 0;
        assert RunFrom(steps[i..], env, respond, before) == RunResult(trace, 0);
        break;
      }
    }
    RunSucceedsIff(steps, env, respond);
    if success == 0 {
      RunFailureHasCulprit(steps, env, respond);
      ghost var i: nat :| FailsFirstAt(steps, env, respond, [], i);
      RunFailFast(steps, env, respond, i);
    }
  }
}
