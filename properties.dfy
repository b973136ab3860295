/** What a run of `Do` promises, stated over the specification functions
    `Result` and `Trace` that `Do` is proved to compute. */
module RetryProperties {
  import opened GoUint
  import opened Errors
  import opened Events
  import opened Configuration
  import opened Retry

  // ---------------------------------------------------------------------
  // The pieces a trace is made of

  lemma AttemptShape(c: Config, op: Operation, i: uint64)
    ensures var a := Attempt(c, op, i);
      a != [] && a[0] == Invoked(i) &&
      (forall p :: 0 <= p < |a| ==> !a[p].Slept?) &&
      Count(a, InvokedTag) == 1 && Count(a, SleptTag) == 0 &&
      Notices(a) == match op(i) case Ok => [] case Fail(e) => [Notified(i, e, c.onRetry(i, e))]
  {
    var a := Attempt(c, op, i);
    assert a[..1] == [Invoked(i)];
    if op(i).Fail? {
      assert a[..|a| - 1] == [Invoked(i)];
      assert [Invoked(i)][..0] == [];
    } else {
      assert a[..|a| - 1] == [];
    }
  }

  lemma RoundShape(c: Config, op: Operation, i: uint64)
    ensures Count(Round(c, op, i), InvokedTag) == 1
    ensures Count(Round(c, op, i), SleptTag) == 1
    ensures Notices(Round(c, op, i)) == Notices(Attempt(c, op, i))
  {
    var a := Attempt(c, op, i);
    AttemptShape(c, op, i);
    CountConcat(a, [Pause(c)], InvokedTag);
    CountConcat(a, [Pause(c)], SleptTag);
    NoticesConcat(a, [Pause(c)]);
    assert [Pause(c)][..0] == [];
  }

  /** Every attempt before the one at which the loop stops failed. */
  lemma FailedBeforeStop(c: Config, op: Operation)
    ensures forall i :: 0 <= i < StopIndex(c, op) ==> op(i).Fail?
  {
    forall i | 0 <= i < StopIndex(c, op)
      ensures op(i).Fail?
    {
      assert Retries(c, op, i);
    }
  }

  /** The first `k` attempts invoke the operation `k` times and pause `k`
      times. */
  lemma {:induction false} PrefixCounts(c: Config, op: Operation, k: nat)
    requires k <= WORD
    ensures Count(Prefix(c, op, k), InvokedTag) == k
    ensures Count(Prefix(c, op, k), SleptTag) == k
    decreases k
  {
    if k > 0 {
      PrefixCounts(c, op, k - 1);
      RoundShape(c, op, k - 1);
      CountConcat(Prefix(c, op, k - 1), Round(c, op, k - 1), InvokedTag);
      CountConcat(Prefix(c, op, k - 1), Round(c, op, k - 1), SleptTag);
    }
  }

  /** When the first `k` attempts all fail, the observer is called once for
      each of them, in order, with its index and its error. */
  lemma {:induction false} PrefixNotices(c: Config, op: Operation, k: nat)
    requires k <= WORD
    requires forall i :: 0 <= i < k ==> op(i).Fail?
    ensures |Notices(Prefix(c, op, k))| == k
    ensures forall i :: 0 <= i < k ==>
      Notices(Prefix(c, op, k))[i] == Notified(i, op(i).err, c.onRetry(i, op(i).err))
    decreases k
  {
    if k > 0 {
      var before, e := Notices(Prefix(c, op, k - 1)), op(k - 1).err;
      PrefixNotices(c, op, k - 1);
      RoundShape(c, op, k - 1);
      NoticesConcat(Prefix(c, op, k - 1), Round(c, op, k - 1));
      assert Notices(Prefix(c, op, k)) == before + [Notified(k - 1, e, c.onRetry(k - 1, e))];
    }
  }

  /** When the first `k` attempts all fail, their errors are logged in
      order. */
  lemma {:induction false} FailuresInOrder(op: Operation, k: nat)
    requires forall i :: 0 <= i < k ==> op(i).Fail?
    ensures |Failures(op, k)| == k
    ensures forall i :: 0 <= i < k ==> Failures(op, k)[i] == op(i).err
    decreases k
  {
    if k > 0 {
      FailuresInOrder(op, k - 1);
    }
  }

  /** Events without a pause, then a pause, then a run that starts with an
      invocation: the new pause lies between two invocations. */
  lemma PauseBeforeInvocation(a: seq<Event>, d: int, x: seq<Event>)
    requires forall p :: 0 <= p < |a| ==> !a[p].Slept?
    requires x != [] && x[0].Invoked?
    requires SleepsBetweenAttempts(x, d)
    ensures SleepsBetweenAttempts(a + [Slept(d)] + x, d)
  {
    var y := a + [Slept(d)] + x;
    forall p | 0 <= p < |y|
      ensures y[p].Slept? ==> y[p].duration == d && p + 1 < |y| && y[p + 1].Invoked?
    {
      if p < |a| {
        assert y[p] == a[p];
      } else if p == |a| {
        assert y[p + 1] == x[0];
      } else {
        assert y[p] == x[p - |a| - 1];
        assert p + 1 < |y| ==> y[p + 1] == x[p - |a|];
      }
    }
  }

  /** Attempts followed by pauses keep every pause between two
      invocations, provided what comes after them starts with one. */
  lemma {:induction false} PrefixSleeps(c: Config, op: Operation, k: nat, x: seq<Event>)
    requires k <= WORD
    requires x != [] && x[0].Invoked?
    requires SleepsBetweenAttempts(x, c.delay * c.units)
    ensures SleepsBetweenAttempts(Prefix(c, op, k) + x, c.delay * c.units)
    decreases k
  {
    if k == 0 {
      assert Prefix(c, op, k) + x == x;
    } else {
      var a, r := Attempt(c, op, k - 1), Round(c, op, k - 1);
      AttemptShape(c, op, k - 1);
      var y := r + x;
      assert y == a + [Slept(c.delay * c.units)] + x;
      PauseBeforeInvocation(a, c.delay * c.units, x);
      assert y[0] == a[0];
      assert Prefix(c, op, k - 1) + r + x == Prefix(c, op, k - 1) + y;
      PrefixSleeps(c, op, k - 1, y);
    }
  }

  // ---------------------------------------------------------------------
  // Properties of every run

  /** The operation is invoked at least once, once per attempt up to the one
      at which the loop stops, and there is one pause fewer than there are
      invocations. */
  lemma InvocationsAndSleeps(c: Config, op: Operation)
    ensures Count(Trace(c, op), InvokedTag) == StopIndex(c, op) + 1
    ensures Count(Trace(c, op), InvokedTag) >= 1
    ensures Count(Trace(c, op), SleptTag) == Count(Trace(c, op), InvokedTag) - 1
  {
    var k := StopIndex(c, op);
    PrefixCounts(c, op, k);
    AttemptShape(c, op, k);
    CountConcat(Prefix(c, op, k), Attempt(c, op, k), InvokedTag);
    CountConcat(Prefix(c, op, k), Attempt(c, op, k), SleptTag);
  }

  /** `Do` returns nil exactly when the last invocation succeeded; otherwise
      it returns a non-empty log holding every invocation's error in order,
      whose message is that of the last failure. */
  lemma ReturnedLog(c: Config, op: Operation)
    ensures Result(c, op).Nil? <==> op(StopIndex(c, op)).Ok?
    ensures Result(c, op).Aggregate? ==>
      var log := Result(c, op).log;
      |log| == StopIndex(c, op) + 1 &&
      |log| == Count(Trace(c, op), InvokedTag) &&
      (forall i :: 0 <= i < |log| ==> op(i).Fail? && log[i] == op(i).err) &&
      ErrorText(log) == op(StopIndex(c, op)).err.msg
  {
    var k: nat := StopIndex(c, op);
    InvocationsAndSleeps(c, op);
    if op(k).Fail? {
      FailedBeforeStop(c, op);
      FailuresInOrder(op, k + 1);
    }
  }

  /** The observer calls of a run: those of the attempts that retried, then
      the one of the last attempt if it failed. */
  lemma TraceNotices(c: Config, op: Operation)
    ensures var k := StopIndex(c, op);
      Notices(Trace(c, op)) == Notices(Prefix(c, op, k)) +
        match op(k) case Ok => [] case Fail(e) => [Notified(k, e, c.onRetry(k, e))]
  {
    var k := StopIndex(c, op);
    AttemptShape(c, op, k);
    NoticesConcat(Prefix(c, op, k), Attempt(c, op, k));
  }

  /** The observer is called once per failed invocation, in order, with
      indices 0, 1, 2, ... and that invocation's error. */
  lemma ObserverCalls(c: Config, op: Operation)
    ensures var notes := Notices(Trace(c, op));
      |notes| == (if op(StopIndex(c, op)).Ok? then StopIndex(c, op) else StopIndex(c, op) + 1) &&
      forall i :: 0 <= i < |notes| ==>
        op(i).Fail? && notes[i] == Notified(i, op(i).err, c.onRetry(i, op(i).err))
  {
    var k := StopIndex(c, op);
    var notes := Notices(Trace(c, op));
    var before := Notices(Prefix(c, op, k));
    FailedBeforeStop(c, op);
    PrefixNotices(c, op, k);
    TraceNotices(c, op);
    if op(k).Fail? {
      var e := op(k).err;
      var last := Notified(k, e, c.onRetry(k, e));
      assert notes == before + [last];
      forall i | 0 <= i < |notes|
        ensures op(i).Fail? && notes[i] == Notified(i, op(i).err, c.onRetry(i, op(i).err))
      {
        if i < k {
          assert notes[i] == before[i];
        } else {
          assert notes[i] == last;
        }
      }
    } else {
      assert notes == before;
    }
  }

  /** On failure the observer calls and the returned log line up: the
      observer call at position `i` carries index `i` and the error at
      position `i` of the log. */
  lemma ObserverMatchesLog(c: Config, op: Operation)
    ensures Result(c, op).Aggregate? ==>
      var notes, log := Notices(Trace(c, op)), Result(c, op).log;
      |notes| == |log| && forall i :: 0 <= i < |log| ==> notes[i].n == i && notes[i].err == log[i]
  {
    ObserverCalls(c, op);
    ReturnedLog(c, op);
  }

  /** Every pause of `delay * units` lies between two invocations; the run
      ends with the last invocation (on success) or with its observer call
      (on failure), never with a pause. */
  lemma NoTrailingSleep(c: Config, op: Operation)
    ensures SleepsBetweenAttempts(Trace(c, op), c.delay * c.units)
    ensures var t, k := Trace(c, op), StopIndex(c, op);
      t != [] &&
      t[|t| - 1] == match op(k) case Ok => Invoked(k) case Fail(e) => Notified(k, e, c.onRetry(k, e))
  {
    var k := StopIndex(c, op);
    var a := Attempt(c, op, k);
    AttemptShape(c, op, k);
    assert SleepsBetweenAttempts(a, c.delay * c.units);
    PrefixSleeps(c, op, k, a);
  }

  // ---------------------------------------------------------------------
  // Particular runs

  /** An operation that first succeeds on invocation `k` (counting from 1),
      with no earlier stop, makes `Do` return nil after exactly `k`
      invocations, `k - 1` observer calls and `k - 1` pauses, the last
      event being the successful invocation. */
  lemma SucceedsOnInvocation(c: Config, op: Operation, k: nat)
    requires 1 <= k && op(k - 1).Ok?
    requires forall i :: 0 <= i < k - 1 ==> op(i).Fail? && c.retryIf(op(i).err) && i != Last(c)
    ensures Result(c, op) == Nil
    ensures Count(Trace(c, op), InvokedTag) == k
    ensures |Notices(Trace(c, op))| == k - 1
    ensures Count(Trace(c, op), SleptTag) == k - 1
    ensures Trace(c, op)[|Trace(c, op)| - 1].Invoked?
  {
    assert forall i :: 0 <= i < k - 1 ==> Retries(c, op, i);
    StopIndexIsFirstStop(c, op, k - 1);
    InvocationsAndSleeps(c, op);
    ObserverCalls(c, op);
    NoTrailingSleep(c, op);
  }

  /** With a budget of at least one, an operation that always fails and a
      predicate that always retries, the operation is invoked exactly
      `attempts` times and the log holds `attempts` errors. */
  lemma AlwaysFailingUsesBudget(c: Config, op: Operation)
    requires c.attempts >= 1
    requires forall i: nat :: op(i).Fail?
    requires forall e :: c.retryIf(e)
    ensures Result(c, op).Aggregate? && |Result(c, op).log| == c.attempts
    ensures Count(Trace(c, op), InvokedTag) == c.attempts
    ensures Count(Trace(c, op), SleptTag) == c.attempts - 1
  {
    assert forall i :: 0 <= i < c.attempts - 1 ==> Retries(c, op, i);
    StopIndexIsFirstStop(c, op, c.attempts - 1);
    InvocationsAndSleeps(c, op);
    ReturnedLog(c, op);
  }

  /** With a budget of zero, `attempts - 1` wraps around to MAX_UINT, so an
      operation that always fails under a predicate that always retries is
      invoked 2^64 times, not once. */
  lemma ZeroBudgetWrapsAround(c: Config, op: Operation)
    requires c.attempts == 0
    requires forall i: nat :: op(i).Fail?
    requires forall e :: c.retryIf(e)
    ensures Last(c) == MAX_UINT
    ensures Count(Trace(c, op), InvokedTag) == WORD
    ensures Result(c, op).Aggregate? && |Result(c, op).log| == WORD
  {
    assert forall i :: 0 <= i < MAX_UINT ==> Retries(c, op, i);
    StopIndexIsFirstStop(c, op, MAX_UINT);
    InvocationsAndSleeps(c, op);
    ReturnedLog(c, op);
  }

  /** When the predicate rejects the error of attempt `k`, and every earlier
      attempt retried, the loop stops there: `k + 1` invocations, `k`
      pauses, the rejected error last in the log, and no pause after it. */
  lemma RetryIfAborts(c: Config, op: Operation, k: uint64)
    requires op(k).Fail? && !c.retryIf(op(k).err)
    requires forall i :: 0 <= i < k ==> Retries(c, op, i)
    ensures Result(c, op).Aggregate?
    ensures |Result(c, op).log| == k + 1 && Result(c, op).log[k] == op(k).err
    ensures Count(Trace(c, op), InvokedTag) == k + 1
    ensures Count(Trace(c, op), SleptTag) == k
    ensures Trace(c, op)[|Trace(c, op)| - 1] == Notified(k, op(k).err, c.onRetry(k, op(k).err))
  {
    StopIndexIsFirstStop(c, op, k);
    InvocationsAndSleeps(c, op);
    ReturnedLog(c, op);
    NoTrailingSleep(c, op);
  }

  /** Without options, an operation that always fails is invoked ten times,
      with nine pauses of 100 ms between the invocations. */
  lemma DefaultPolicy(op: Operation)
    requires forall i: nat :: op(i).Fail?
    ensures Configure(DefaultConfig(), []) == DefaultConfig()
    ensures Count(Trace(DefaultConfig(), op), InvokedTag) == 10
    ensures Count(Trace(DefaultConfig(), op), SleptTag) == 9
    ensures SleepsBetweenAttempts(Trace(DefaultConfig(), op), 100 * Millisecond)
    ensures |Result(DefaultConfig(), op).log| == 10
  {
    AlwaysFailingUsesBudget(DefaultConfig(), op);
    NoTrailingSleep(DefaultConfig(), op);
  }
}
