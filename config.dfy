/** The configuration `Do` runs under and the options that build it. Go
    passes options as functions that update a `*config` in place; here an
    option is a function from configuration to configuration, and applying
    a list of them is a left fold. */
module Configuration {
  import opened GoUint
  import opened Errors

  /** `time.Millisecond`, in nanoseconds (the unit of Go's `time.Duration`). */
  const Millisecond: int := 1_000_000

  /** The retry policy: the attempt budget, the pause between attempts as
      `delay * units`, the observer called with each failed attempt's
      zero-based index and error (what it emits is kept as a note), and the
      predicate that decides whether to go on after an error. */
  datatype Config = Config(
    attempts: uint64,
    delay: uint64,
    units: int,
    onRetry: (uint64, Err) -> string,
    retryIf: Err -> bool)

  /** An option updates one or more fields of the configuration. */
  type Option = Config -> Config

  /** The configuration before any option is applied: ten attempts, 100 ms
      apart, a silent observer and a predicate that always retries. */
  function DefaultConfig(): (c: Config)
    ensures c.attempts == 10 && c.delay == 100 && c.units == Millisecond
    ensures forall e :: c.retryIf(e)
    ensures forall n, e :: c.onRetry(n, e) == ""
  {
    Config(10, 100, Millisecond, (n: uint64, err: Err) => "", (err: Err) => true)
  }

  /** Apply `opts` to `c` from first to last: no option leaves `c` as it
      is, and otherwise the last option is applied to what the others
      built. */
  function Configure(c: Config, opts: seq<Option>): (r: Config)
    ensures opts == [] ==> r == c
    ensures opts != [] ==> r == opts[|opts| - 1](Configure(c, opts[..|opts| - 1]))
    decreases |opts|
  {
    if opts == [] then c
    else
      assert |opts| > 1 ==> opts[1..][..|opts| - 2] == opts[..|opts| - 1][1..];
      Configure(opts[0](c), opts[1..])
  }

  /** Applying two lists of options one after the other is applying their
      concatenation. */
  lemma {:induction false} ConfigureConcat(c: Config, a: seq<Option>, b: seq<Option>)
    ensures Configure(c, a + b) == Configure(Configure(c, a), b)
    decreases |a|
  {
    if a != [] {
      assert (a + b)[1..] == a[1..] + b;
      ConfigureConcat(a[0](c), a[1..], b);
    } else {
      assert a + b == b;
    }
  }

  /** Applying one more option applies it to the result of the others: the
      fold is the in-place loop over the options, one step at a time. */
  lemma ConfigureAppend(c: Config, opts: seq<Option>, o: Option)
    ensures Configure(c, opts + [o]) == o(Configure(c, opts))
  {
    assert (opts + [o])[..|opts|] == opts;
  }

  /** Options that leave a field (seen through `get`) alone leave it as it
      was before they were applied. */
  lemma {:induction false} UntouchedFieldKept<T>(c: Config, opts: seq<Option>, get: Config -> T)
    requires forall i, x: Config :: 0 <= i < |opts| ==> get(opts[i](x)) == get(x)
    ensures get(Configure(c, opts)) == get(c)
    decreases |opts|
  {
    if opts != [] {
      UntouchedFieldKept(opts[0](c), opts[1..], get);
      assert get(opts[0](c)) == get(c);
    }
  }

  /** Options compose: an option that sets a field to `v` decides that
      field, whatever came before it, as long as no later option touches
      the field. */
  lemma LaterOptionWins<T>(c: Config, opts: seq<Option>, o: Option, rest: seq<Option>, get: Config -> T, v: T)
    requires forall x: Config :: get(o(x)) == v
    requires forall i, x: Config :: 0 <= i < |rest| ==> get(rest[i](x)) == get(x)
    ensures get(Configure(c, opts + [o] + rest)) == v
  {
    ConfigureConcat(c, opts + [o], rest);
    ConfigureAppend(c, opts, o);
    UntouchedFieldKept(o(Configure(c, opts)), rest, get);
  }

  /** Option constructors, one per field. */
  function WithAttempts(a: uint64): Option { (c: Config) => c.(attempts := a) }
  function WithDelay(d: uint64): Option { (c: Config) => c.(delay := d) }
  function WithUnits(u: int): Option { (c: Config) => c.(units := u) }
  function WithOnRetry(f: (uint64, Err) -> string): Option { (c: Config) => c.(onRetry := f) }
  function WithRetryIf(p: Err -> bool): Option { (c: Config) => c.(retryIf := p) }

  /** Of two attempt budgets given in order, the later one is used; the
      other fields keep their defaults unless an option sets them. */
  lemma LastAttemptsOptionWins(a: uint64, b: uint64, d: uint64)
    ensures Configure(DefaultConfig(), [WithAttempts(a), WithDelay(d), WithAttempts(b)]).attempts == b
    ensures Configure(DefaultConfig(), [WithAttempts(a), WithDelay(d), WithAttempts(b)]).delay == d
    ensures Configure(DefaultConfig(), [WithAttempts(a), WithDelay(d), WithAttempts(b)]).units == Millisecond
  {
    var opts := [WithAttempts(a), WithDelay(d), WithAttempts(b)];
    LaterOptionWins(DefaultConfig(), opts[..2], WithAttempts(b), [], (c: Config) => c.attempts, b);
    assert opts == opts[..2] + [WithAttempts(b)] + [];
    LaterOptionWins(DefaultConfig(), [WithAttempts(a)], WithDelay(d), [WithAttempts(b)], (c: Config) => c.delay, d);
    assert opts == [WithAttempts(a)] + [WithDelay(d)] + [WithAttempts(b)];
    UntouchedFieldKept(DefaultConfig(), opts, (c: Config) => c.units);
  }
}
