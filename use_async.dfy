/** The `useAsync` hook (client/src/hooks/useAsync.ts): one `AsyncState` record that `execute`
    moves through start and then success or failure, and that `reset` clears. */
module UseAsync {
  import opened Wrappers
  import opened Errors

  class AsyncHook<T> {
    var data: Option<T>
    var isLoading: bool
    var error: Option<string>

    /** The initial state. */
    constructor ()
      ensures data == None && !isLoading && error == None
    {
      data, isLoading, error := None, false, None;
    }

    /** The first `setState` of `execute`: loading, no error, the previous data kept. */
    method Start()
      modifies this
      ensures isLoading && error == None && data == old(data)
    {
      isLoading, error := true, None;
    }

    /** The state after the operation resolves. */
    method Succeed(result: T)
      modifies this
      ensures data == Some(result) && !isLoading && error == None
    {
      data, isLoading, error := Some(result), false, None;
    }

    /** The state after the operation throws: the previous data kept. */
    method Fail(thrown: Thrown)
      modifies this
      ensures data == old(data) && !isLoading && error == Some(HandleApiError(thrown))
    {
      isLoading, error := false, Some(HandleApiError(thrown));
    }

    /** `execute`, given how the operation ends: its result, or what it throws. */
    method Execute(outcome: Result<T, Thrown>) returns (r: Option<T>)
      modifies this
      ensures !isLoading
      ensures outcome.Ok? ==> r == Some(outcome.value) && data == r && error == None
      ensures outcome.Err? ==> r == None && data == old(data) && error == Some(HandleApiError(outcome.error))
    {
      Start();
      if outcome.Ok? {
        Succeed(outcome.value);
        r := Some(outcome.value);
      } else {
        Fail(outcome.error);
        r := None;
      }
    }

    /** `reset`: back to the initial state from any state. */
    method Reset()
      modifies this
      ensures data == None && !isLoading && error == None
    {
      data, isLoading, error := None, false, None;
    }
  }

  /** A failure after a success keeps the earlier result and reports the thrown message. */
  method SuccessThenFailure<T>(x: T, e: ErrorObject) returns (data: Option<T>, error: Option<string>, loading: bool)
    ensures data == Some(x) && error == Some(e.message) && !loading
  {
    var hook := new AsyncHook<T>();
    var first := hook.Execute(Ok(x));
    var second := hook.Execute(Err(Threw(e)));
    data, error, loading := hook.data, hook.error, hook.isLoading;
  }

  /** A thrown value that is not an `Error` is reported with the fixed fallback text. */
  method ThrownValue<T>(v: Js.JsValue) returns (r: Option<T>, error: Option<string>)
    ensures r == None && error == Some(UnexpectedErrorMessage)
  {
    var hook := new AsyncHook<T>();
    r := hook.Execute(Err(ThrewValue(v)));
    error := hook.error;
  }
}
