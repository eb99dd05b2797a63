/** Failure vocabulary shared by the disk-usage model: optional values, the
    exceptions the Ceph client libraries and the routine itself can raise, and
    results that either carry a value or an exception.
 */
module Faults {

  /** Python's `None`-or-value, used for the optional cluster and pool handles. */
  datatype Option<+T> = None | Some(value: T)

  /** The exceptions the routine can observe or raise.
      - RadosError / RbdError: raised by the cluster client libraries
        (`rados.Error`, `rbd.Error`);
      - RuntimeError: raised by the routine itself; `cause` is the exception
        it was raised from (`raise ... from e`), if any;
      - OtherError: any other exception (not caught by the library-error
        handler, so it escapes unchanged). */
  datatype Exc =
    | RadosError(msg: string)
    | RbdError(msg: string)
    | RuntimeError(msg: string, cause: Option<Exc>)
    | OtherError(msg: string)

  /** A computation that either produced a value or raised an exception. */
  datatype Result<+T> = Ok(value: T) | Err(exc: Exc)

  /** True for the exceptions caught by `except (rados.Error, rbd.Error)`. */
  predicate IsLibraryError(e: Exc) {
    e.RadosError? || e.RbdError?
  }

  /** The message prefix the routine puts in front of a wrapped library error. */
  const WrapPrefix: string := "RBD operation failed: "

  /** The library-error handler: a `rados`/`rbd` error is re-raised as a
      `RuntimeError` carrying the original message and chained to the
      original exception; any other exception passes through unchanged. */
  function Wrap(e: Exc): (w: Exc)
    ensures !IsLibraryError(w)
    ensures IsLibraryError(e) ==> w == RuntimeError(WrapPrefix + e.msg, Some(e))
    ensures !IsLibraryError(e) ==> w == e
  {
    if IsLibraryError(e) then RuntimeError(WrapPrefix + e.msg, Some(e)) else e
  }

  /** The success or failure of a call, forgetting the value it returned. */
  function Status<T>(r: Result<T>): (s: Result<()>)
    ensures s.Ok? <==> r.Ok?
    ensures s.Err? ==> s.exc == r.exc
  {
    match r
    case Ok(_) => Ok(())
    case Err(e) => Err(e)
  }

  /** The exception of the first failing call of a sequence of calls made in
      order, each only if the ones before it succeeded; `None` when all succeed. */
  function FirstErr(calls: seq<Result<()>>): (f: Option<Exc>) {
    if |calls| == 0 then None
    else if calls[0].Err? then Some(calls[0].exc)
    else FirstErr(calls[1..])
  }

  /** `FirstErr` finds no failure exactly when every call succeeds, and
      otherwise returns the exception of a failing call all of whose
      predecessors succeeded. */
  lemma {:induction false} FirstErrIsFirstFailure(calls: seq<Result<()>>)
    ensures FirstErr(calls).None? <==> forall i :: 0 <= i < |calls| ==> calls[i].Ok?
    ensures FirstErr(calls).Some? ==>
              exists i :: 0 <= i < |calls| && calls[i] == Err(FirstErr(calls).value)
                          && forall j :: 0 <= j < i ==> calls[j].Ok?
  {
    if |calls| != 0 && calls[0].Ok? {
      var tail := calls[1..];
      FirstErrIsFirstFailure(tail);
      if FirstErr(tail).Some? {
        var i :| 0 <= i < |tail| && tail[i] == Err(FirstErr(tail).value)
                 && forall j :: 0 <= j < i ==> tail[j].Ok?;
        assert calls[i + 1] == tail[i];
        forall j | 0 <= j < i + 1
          ensures calls[j].Ok?
        {
          if j > 0 { assert calls[j] == tail[j - 1]; }
        }
      } else {
        forall i | 0 <= i < |calls|
          ensures calls[i].Ok?
        {
          if i > 0 { assert calls[i] == tail[i - 1]; }
        }
      }
    }
  }

  /** The outcome of running the calls in order: success when none fails,
      otherwise the first failure's exception. */
  function AsOutcome(f: Option<Exc>): (r: Result<()>) {
    match f
    case None => Ok(())
    case Some(e) => Err(e)
  }

  /** Running two groups of calls in order: the first failure is the first
      group's, or else the second group's. */
  lemma {:induction false} FirstErrAppend(a: seq<Result<()>>, b: seq<Result<()>>)
    ensures FirstErr(a + b) == if FirstErr(a).Some? then FirstErr(a) else FirstErr(b)
  {
    if |a| == 0 {
      assert a + b == b;
    } else {
      assert (a + b)[0] == a[0] && (a + b)[1..] == a[1..] + b;
      FirstErrAppend(a[1..], b);
    }
  }
}
