/**
  Recording the result (main.go): after the loop, the outcome is written once
  into the gauge vector `playwright_test_success` under the label
  `test_name="linkedin-login"`. The gauge vector is modelled as a map from
  label value to the last value set; a set overwrites (last write wins).
*/
module Reporter {
  import opened Steps
  import opened Dispatcher
  import opened Executor

  /** The fixed test identity label. */
  const TestName: string := "linkedin-login"

  /** A gauge vector with one label: the value last set for each label value. */
  class GaugeVec {
    var values: map<string, int>

    /** `NewGaugeVec`: no label value has been set yet. */
    constructor ()
      ensures values == map[]
    {
      values := map[];
    }

    /**
      `WithLabelValues(name).Set(value)`: overwrites that label's value; every
      other label keeps its value (last write wins).
    */
    method Set(name: string, value: int)
      modifies this
      ensures values == old(values)[name := value]
    {
      values := values[name := value];
    }
  }

  /**
    The run and the single gauge write (main.go lines 77-100): the gauge at
    `TestName` ends at the run's outcome, which is 1 exactly when every call
    of the plan succeeded; every other name is left as it was.
  */
  method RunAndRecord(steps: seq<TestStep>, env: map<string, string>, respond: Oracle, gauge: GaugeVec)
    returns (trace: seq<Call>, success: int)
    modifies gauge
    ensures RunResult(trace, success) == Run(steps, env, respond)
    ensures gauge.values == old(gauge.values)[TestName := success]
    ensures TestName in gauge.values && (gauge.values[TestName] == 1 <==> Accepted(respond, Calls(steps, env)))
    ensures gauge.values[TestName] == 0 || gauge.values[TestName] == 1
  {
    trace, success := Execute(steps, env, respond);
    gauge.Set(TestName, success);
  }
}
