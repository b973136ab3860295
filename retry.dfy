/** The retry executor `Do`: it invokes an operation until it succeeds, the
    retry predicate says to stop, or the attempt budget runs out, and
    returns nil or the log of every failure.

    The operation is an oracle: `op(k)` is the outcome of its k-th
    invocation (counting from 0), so whatever state it keeps between calls
    is part of the script. The observer and the pauses are recorded in an
    event trace (module Events). */
module Retry {
  import opened GoUint
  import opened Errors
  import opened Events
  import opened Configuration

  /** What one invocation of the operation returns: nil or an error. */
  datatype Outcome = Ok | Fail(err: Err)

  /** The operation, as the outcome of each successive invocation. */
  type Operation = nat -> Outcome

  /** What `Do` returns: nil, or the aggregated `Error` of all failures. */
  datatype Returned = Nil | Aggregate(log: seq<Err>)

  /** The attempt index after which no pause is taken: `attempts - 1` in
      unsigned arithmetic, so MAX_UINT when the budget is 0. */
  function Last(c: Config): uint64
  {
    Sub(c.attempts, 1)
  }

  /** Attempt `i` fails, the predicate allows another try and `i` is not
      the last attempt: the loop pauses and goes on to attempt `i + 1`. */
  predicate Retries(c: Config, op: Operation, i: nat)
  {
    op(i).Fail? && c.retryIf(op(i).err) && i != Last(c)
  }

  /** The first attempt at or after `j` after which the loop stops. */
  function StopFrom(c: Config, op: Operation, j: uint64): (k: uint64)
    requires j <= Last(c)
    ensures j <= k <= Last(c) && !Retries(c, op, k)
    ensures forall i :: j <= i < k ==> Retries(c, op, i)
    decreases Last(c) - j
  {
    if !Retries(c, op, j) then j else StopFrom(c, op, j + 1)
  }

  /** The index of the attempt at which `Do` stops. */
  function StopIndex(c: Config, op: Operation): uint64
  {
    StopFrom(c, op, 0)
  }

  /** The loop stops at the first attempt that does not retry. */
  lemma StopIndexIsFirstStop(c: Config, op: Operation, n: nat)
    requires !Retries(c, op, n)
    requires forall i :: 0 <= i < n ==> Retries(c, op, i)
    ensures StopIndex(c, op) == n
  {
    var k := StopIndex(c, op);
    assert !Retries(c, op, k);
    assert k > n ==> Retries(c, op, n);
  }

  /** The events of attempt `i`: the invocation, and on failure the
      observer call. */
  function Attempt(c: Config, op: Operation, i: uint64): seq<Event>
  {
    match op(i)
    case Ok => [Invoked(i)]
    case Fail(e) => [Invoked(i), Notified(i, e, c.onRetry(i, e))]
  }

  /** The pause between two attempts. */
  function Pause(c: Config): Event
  {
    Slept(c.delay * c.units)
  }

  /** The events of attempt `i` when the loop goes on after it. */
  function Round(c: Config, op: Operation, i: uint64): seq<Event>
  {
    Attempt(c, op, i) + [Pause(c)]
  }

  /** The events of the first `k` attempts, each followed by a pause. */
  function Prefix(c: Config, op: Operation, k: nat): seq<Event>
    requires k <= WORD
  {
    if k == 0 then [] else Prefix(c, op, k - 1) + Round(c, op, k - 1)
  }

  /** The errors of the failed attempts among the first `k`, in order. */
  function Failures(op: Operation, k: nat): seq<Err>
  {
    if k == 0 then []
    else Failures(op, k - 1) + (match op(k - 1) case Ok => [] case Fail(e) => [e])
  }

  /** The events of a whole run of `Do` under `c`. */
  function Trace(c: Config, op: Operation): seq<Event>
  {
    var k := StopIndex(c, op);
    Prefix(c, op, k) + Attempt(c, op, k)
  }

  /** What a whole run of `Do` under `c` returns. */
  function Result(c: Config, op: Operation): Returned
  {
    var k := StopIndex(c, op);
    if op(k).Ok? then Nil else Aggregate(Failures(op, k + 1))
  }

  /** Run `op` under the default configuration updated by `opts`. */
  method Do(op: Operation, opts: seq<Option>) returns (res: Returned, trace: seq<Event>)
    ensures res == Result(Configure(DefaultConfig(), opts), op)
    ensures trace == Trace(Configure(DefaultConfig(), opts), op)
  {
    var n: uint64 := 0;

    var config := DefaultConfig();
    for i := 0 to |opts|
      invariant config == Configure(DefaultConfig(), opts[..i])
    {
      assert opts[..i + 1] == opts[..i] + [opts[i]];
      ConfigureAppend(DefaultConfig(), opts[..i], opts[i]);
      config := opts[i](config);
    }
    assert opts[..|opts|] == opts;

    var errorLog: seq<Err> := [];
    trace := [];

    // The condition is computed once, before the loop, and n is 0 then.
    var cond := n < config.attempts;
    if n == 0 {
      cond := true;
    }

    while cond
      invariant cond
      invariant n <= Last(config)
      invariant forall i :: 0 <= i < n ==> Retries(config, op, i)
      invariant errorLog == Failures(op, n)
      invariant trace == Prefix(config, op, n)
      decreases Last(config) - n
    {
      var outcome := op(n);
      trace := trace + [Invoked(n)];

      if outcome.Fail? {
        var err := outcome.err;
        trace := trace + [Notified(n, err, config.onRetry(n, err))];
        errorLog := errorLog + [err];
        assert errorLog == Failures(op, n + 1);

        if !config.retryIf(err) {
          StopIndexIsFirstStop(config, op, n);
          break;
        }

        // the last attempt is not followed by a pause
        if n == Sub(config.attempts, 1) {
          StopIndexIsFirstStop(config, op, n);
          break;
        }

        trace := trace + [Slept(config.delay * config.units)];
      } else {
        StopIndexIsFirstStop(config, op, n);
        res := Nil;
        return;
      }

      n := n + 1;
    }

    res := Aggregate(errorLog);
  }
}
