# retry-go: a verified model of the retry executor

This project models the Go package `retry` (file `retry.go`): the function
`Do`, which invokes a fallible operation until it succeeds, until the retry
predicate `retryIf` declines to go on, or until the attempt budget is spent,
and the aggregated error type `Error`, whose message is that of its last
element.

## How the model is built

- `GoUint` (`uint.dfy`): Go's `uint`, taken to be 64 bits wide, and unsigned
  subtraction modulo 2^64 (`Sub`), which `Do` uses for `attempts - 1`.
- `Errors` (`errors.dfy`): an error value is known by its message (`Err`); the
  package's `Error` is a sequence of them and `ErrorText` is its `Error()`
  method, defined only on a non-empty sequence.
- `Configuration` (`config.dfy`): the `config` record (`attempts`, `delay`,
  `units`, `onRetry`, `retryIf`), its default values, options as functions from
  configuration to configuration, and `Configure`, the left fold that applies
  them in order.
- `Events` (`events.dfy`): the observable effects of a run as a sequence of
  events: `Invoked(n)` for each call of the operation, `Notified(n, err, note)`
  for each call of `onRetry` (the note is what the observer emits), and
  `Slept(d)` for each pause of `delay * units`.
- `Retry` (`retry.dfy`): the operation as a script (`op(k)` is the outcome of
  its k-th call), the specification of a run (`StopIndex`, `Trace`, `Result`)
  and the method `Do`, which follows the Go code statement by statement: the
  loop over the options, the loop condition computed once before the loop and
  forced to true because `n` is 0, the early return on success, the two
  breaks, the pause and `n++`. `Do` is proved to return `Result` and to
  produce `Trace`.
- `RetryProperties` (`properties.dfy`): what every run promises, and the
  particular runs (success on the k-th call, an operation that always fails,
  a budget of zero, an abort by `retryIf`, the default policy).
- `RetryScenarios` (`scenarios.dfy`): concrete runs configured through
  options.

A budget of 0 does not mean "exactly one call". `if n == 0 { cond = true }`
(retry.go:85-87) only guarantees the first call; it does not cap a zero
budget at one call. The loop stops after a failure only when `retryIf` says
no or when `n == attempts - 1`. With `attempts == 0`, `attempts - 1` wraps
around to the largest `uint`, so an operation that always fails under a
predicate that always retries is called 2^64 times
(`ZeroBudgetWrapsAround`), and one that fails once and then succeeds is
called twice (`ZeroBudgetRetries`).

## Model

| member | source | states |
|---|---|---|
| `GoUint.Sub` | retry.go:101 | unsigned `a - b` is the plain difference when `a >= b` and wraps around by 2^64 otherwise |
| `Errors.ErrorText` | retry.go:121-123 | defined only on a non-empty log; the message of its last element, so a single-error log gives that error's message and dropping earlier errors never changes it |
| `Errors.TextOfAppended` | retry.go:121-123 | the message of the aggregated error is the message of the error appended last |
| `Configuration.DefaultConfig` | retry.go:69-75 | before any option: 10 attempts, delay 100, units one millisecond, an observer that emits nothing, a predicate that always retries |
| `Configuration.Configure` | retry.go:78-80 | with no options the configuration is unchanged; otherwise the last option is applied to the configuration the earlier ones built |
| `Configuration.ConfigureConcat` | retry.go:78-80 | applying two lists of options in turn is applying their concatenation |
| `Configuration.ConfigureAppend` | retry.go:78-80 | one more pass of the option loop applies the next option to the configuration built so far |
| `Configuration.UntouchedFieldKept` | retry.go:78-80 | a field that no option changes keeps the value it had before the options |
| `Configuration.LaterOptionWins` | retry.go:78-80 | an option that sets a field decides it, whatever earlier options did, unless a later option changes it |
| `Configuration.LastAttemptsOptionWins` | retry.go:69-80 | of two attempt budgets the later wins; fields no option sets keep their defaults (units stay one millisecond) |
| `Retry.StopFrom` | retry.go:89-111 | the attempt at which the loop stops is the first one that succeeds, is rejected by `retryIf` or has `n == attempts - 1`; every attempt before it retries |
| `Retry.StopIndexIsFirstStop` | retry.go:96-103 | the loop stops at `n` exactly when `n` is the first attempt that does not retry |
| `Retry.Do` | retry.go:65-114 | `Do` under the default configuration updated by the options returns `Result` and produces the events `Trace` |
| `RetryProperties.InvocationsAndSleeps` | retry.go:84-111 | the operation is called at least once, once per attempt up to the stopping one, and there is exactly one pause fewer than there are calls |
| `RetryProperties.ReturnedLog` | retry.go:92-113 | `Do` returns nil exactly when the last call succeeded; otherwise a non-empty log with one error per call, in call order, whose message is that of the last failure |
| `RetryProperties.ObserverCalls` | retry.go:93 | `onRetry` is called once per failed call, in order, with zero-based indices 0, 1, 2, ... and that call's error |
| `RetryProperties.ObserverMatchesLog` | retry.go:93-94 | on failure, the i-th observer call carries index i and the i-th error of the log |
| `RetryProperties.NoTrailingSleep` | retry.go:96-105 | every pause lasts `delay * units` and is followed by another call; a run ends with the successful call or with the last failure's observer call, never with a pause |
| `RetryProperties.SucceedsOnInvocation` | retry.go:89-108 | if the first success is call k and no earlier stop happens, `Do` returns nil after k calls, k - 1 observer calls and k - 1 pauses, ending with the successful call |
| `RetryProperties.AlwaysFailingUsesBudget` | retry.go:94-110 | with a budget of at least 1, an operation that always fails and a predicate that always retries, there are exactly `attempts` calls, `attempts` logged errors and `attempts - 1` pauses |
| `RetryProperties.ZeroBudgetWrapsAround` | retry.go:101 | with a budget of 0, `attempts - 1` is the largest `uint`, and an always-failing, always-retried operation is called 2^64 times |
| `RetryProperties.RetryIfAborts` | retry.go:96-98 | when `retryIf` rejects the error of attempt k after k retries, there are k + 1 calls and k pauses, the rejected error is last in the log and no pause follows it |
| `RetryProperties.DefaultPolicy` | retry.go:69-75 | with no options an always-failing operation is called 10 times with 9 pauses of 100 ms between the calls |
| `RetryScenarios.ThreeFailures` | retry.go:89-123 | budget 3 and failures "a", "b", "c": the log is those three errors, its message is "c", the observer sees indices 0, 1, 2 |
| `RetryScenarios.TwoFailuresThenSuccess` | retry.go:89-108 | budget 5, two failures then success: nil after 3 calls and 2 observer calls |
| `RetryScenarios.ZeroBudgetRetries` | retry.go:84-103 | budget 0, one failure then success: the failure is retried, so there are 2 calls and the result is nil |

## Left out

- Real time: `time.Sleep` and the arithmetic of `time.Duration` (retry.go:105). A pause is an event that carries the value `delay * units`; overflow of that product in Go's 64-bit `Duration` is not modelled.
- The effects of the retried operation itself (such as the HTTP request in the package comment). The operation is an oracle that returns a scripted outcome per call.
- The effects of `onRetry` beyond the note it returns. The observer is a pure function whose result is recorded with each call.
- Stateful `retryIf` and `onRetry` closures: both are pure functions of their arguments, so a Go closure that keeps state between calls (say, a `retryIf` that gives up on the third failure with the same error) cannot be expressed.
- The definitions of `config`, `Option` and the option constructors, which live in a file that is not part of this model. `config` is a record with the five fields `Do` uses, and `WithAttempts`, `WithDelay`, `WithUnits`, `WithOnRetry` and `WithRetryIf` stand in for the constructors.
- Go error values beyond their message, and Go's interface semantics for the returned `error`.
- The width of `uint` on 32-bit platforms: the model fixes 64 bits, so the wrap-around of a zero budget is at 2^64 calls.
- The overflow of `n++` (retry.go:110): it is proved unreachable, because `n` only grows while it is below `attempts - 1`.
