/** Concrete runs of `Do`, each configured through options and derived from
    the general properties. */
module RetryScenarios {
  import opened Errors
  import opened Events
  import opened Configuration
  import opened Retry
  import opened RetryProperties

  /** Fails with "a", then "b", then "c" on every later call. */
  function FailsABC(): Operation
  {
    (i: nat) => if i == 0 then Fail(Err("a")) else if i == 1 then Fail(Err("b")) else Fail(Err("c"))
  }

  /** Fails twice, then succeeds. */
  function SucceedsThird(): Operation
  {
    (i: nat) => if i < 2 then Fail(Err("down")) else Ok
  }

  /** Fails once, then succeeds. */
  function SucceedsSecond(): Operation
  {
    (i: nat) => if i == 0 then Fail(Err("down")) else Ok
  }

  /** Budget 3, no delay, failures "a", "b", "c": the log holds the three
      errors, its message is "c", and the observer saw indices 0, 1, 2. */
  lemma ThreeFailures()
    ensures var c := Configure(DefaultConfig(), [WithAttempts(3), WithDelay(0)]);
      Result(c, FailsABC()) == Aggregate([Err("a"), Err("b"), Err("c")]) &&
      ErrorText(Result(c, FailsABC()).log) == "c" &&
      Notices(Trace(c, FailsABC())) == [Notified(0, Err("a"), ""), Notified(1, Err("b"), ""), Notified(2, Err("c"), "")]
  {
    var c := Configure(DefaultConfig(), [WithAttempts(3), WithDelay(0)]);
    var op := FailsABC();
    assert c == DefaultConfig().(attempts := 3).(delay := 0);
    assert forall i: nat :: op(i).Fail?;
    AlwaysFailingUsesBudget(c, op);
    ReturnedLog(c, op);
    ObserverCalls(c, op);
    var log, notes := Result(c, op).log, Notices(Trace(c, op));
    assert log == [Err("a"), Err("b"), Err("c")];
    assert notes == [Notified(0, Err("a"), ""), Notified(1, Err("b"), ""), Notified(2, Err("c"), "")];
  }

  /** Budget 5, two failures then success: nil after three invocations and
      two observer calls. */
  lemma TwoFailuresThenSuccess()
    ensures var c := Configure(DefaultConfig(), [WithAttempts(5)]);
      Result(c, SucceedsThird()) == Nil &&
      Count(Trace(c, SucceedsThird()), InvokedTag) == 3 &&
      |Notices(Trace(c, SucceedsThird()))| == 2
  {
    var c := Configure(DefaultConfig(), [WithAttempts(5)]);
    assert c == DefaultConfig().(attempts := 5);
    assert Last(c) == 4 && c.retryIf(Err("down"));
    SucceedsOnInvocation(c, SucceedsThird(), 3);
  }

  /** Budget 0, one failure then success: because `attempts - 1` wraps
      around, the failure is retried, so the operation is invoked twice and
      `Do` returns nil. */
  lemma ZeroBudgetRetries()
    ensures var c := Configure(DefaultConfig(), [WithAttempts(0)]);
      Result(c, SucceedsSecond()) == Nil &&
      Count(Trace(c, SucceedsSecond()), InvokedTag) == 2
  {
    var c := Configure(DefaultConfig(), [WithAttempts(0)]);
    assert c == DefaultConfig().(attempts := 0);
    assert Last(c) > 0 && c.retryIf(Err("down"));
    SucceedsOnInvocation(c, SucceedsSecond(), 2);
  }
}
