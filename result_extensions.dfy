/** `T?.toResult()` of the `result` module. */
module ResultExtensions {
  import opened Nullables
  import opened Results

  /** A non-null receiver becomes a success holding it; `null` becomes a
      failure whose error, `Unit`, carries no information. */
  function ToResult<T>(receiver: Option<T>): (r: Result<(), T>)
    ensures r.Success? <==> receiver.Some?
    ensures receiver.Some? ==> r.data == receiver.value
    ensures receiver.None? ==> r == Failure(())
  {
    if receiver != None then Success(receiver.value) else Failure(())
  }

  /** Nothing is lost but the difference between nulls: different receivers
      give different results. */
  lemma ToResultInjective<T>(x: Option<T>, y: Option<T>)
    requires ToResult(x) == ToResult(y)
    ensures x == y
  {
  }
}
