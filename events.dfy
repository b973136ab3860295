/** What a run of `Do` does to the outside world, as a sequence of events:
    each invocation of the operation, each call of the `onRetry` observer
    (with the note it emits) and each pause between attempts. */
module Events {
  import opened GoUint
  import opened Errors

  datatype Event =
    | Invoked(n: uint64)
    | Notified(n: uint64, err: Err, note: string)
    | Slept(duration: int)

  datatype Tag = InvokedTag | NotifiedTag | SleptTag

  function TagOf(e: Event): Tag
  {
    match e
    case Invoked(_) => InvokedTag
    case Notified(_, _, _) => NotifiedTag
    case Slept(_) => SleptTag
  }

  /** The number of events of kind `tag` in `t`. */
  function Count(t: seq<Event>, tag: Tag): (r: nat)
    ensures r <= |t|
    decreases |t|
  {
    if t == [] then 0
    else Count(t[..|t| - 1], tag) + (if TagOf(t[|t| - 1]) == tag then 1 else 0)
  }

  lemma {:induction false} CountConcat(a: seq<Event>, b: seq<Event>, tag: Tag)
    ensures Count(a + b, tag) == Count(a, tag) + Count(b, tag)
    decreases |b|
  {
    if b == [] {
      assert a + b == a;
    } else {
      assert (a + b)[..|a + b| - 1] == a + b[..|b| - 1];
      CountConcat(a, b[..|b| - 1], tag);
    }
  }

  /** The observer calls in `t`, in order. */
  function Notices(t: seq<Event>): (r: seq<Event>)
    ensures |r| == Count(t, NotifiedTag)
    ensures forall i :: 0 <= i < |r| ==> r[i].Notified?
    decreases |t|
  {
    if t == [] then []
    else Notices(t[..|t| - 1]) + (if t[|t| - 1].Notified? then [t[|t| - 1]] else [])
  }

  lemma {:induction false} NoticesConcat(a: seq<Event>, b: seq<Event>)
    ensures Notices(a + b) == Notices(a) + Notices(b)
    decreases |b|
  {
    if b == [] {
      assert a + b == a;
    } else {
      assert (a + b)[..|a + b| - 1] == a + b[..|b| - 1];
      NoticesConcat(a, b[..|b| - 1]);
    }
  }

  /** Every pause is followed by another invocation: no pause trails a
      run, and each pause lasts `d`. */
  ghost predicate SleepsBetweenAttempts(t: seq<Event>, d: int)
  {
    forall p :: 0 <= p < |t| && t[p].Slept? ==>
      t[p].duration == d && p + 1 < |t| && t[p + 1].Invoked?
  }
}
