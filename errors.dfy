/** Error values. A Go `error` is an opaque interface value; the model keeps
    only the message its `Error()` method returns. The retry package's own
    `Error` type is a slice of such values, one per failed attempt. */
module Errors {

  /** An opaque Go error value, known by its message. */
  datatype Err = Err(msg: string)

  /** The message of the aggregated error `e`: the message of its last
      element, the most recent failure. Go indexes `e[len(e)-1]`, which is
      out of range on an empty slice, hence the precondition. */
  function ErrorText(e: seq<Err>): (r: string)
    requires |e| > 0
    ensures |e| == 1 ==> r == e[0].msg
    ensures forall k :: 0 <= k < |e| ==> ErrorText(e[k..]) == r
    decreases |e|
  {
    e[|e| - 1].msg
  }

  /** Appending an error makes that error the representative one. */
  lemma TextOfAppended(log: seq<Err>, err: Err)
    ensures ErrorText(log + [err]) == err.msg
  {
  }
}
