/** `T?.toResult()` of the older `lib` module, which repeats the `result`
    module's definition. */
module LibExtensions {
  import opened Nullables
  import opened Results
  import ResultExtensions

  function ToResult<T>(receiver: Option<T>): (r: Result<(), T>)
    ensures r.Success? <==> receiver.Some?
    ensures receiver.Some? ==> r.data == receiver.value
    ensures receiver.None? ==> r.error == ()
  {
    if receiver != None then Success(receiver.value) else Failure(())
  }

  /** The two copies agree on every input. */
  lemma AgreesWithResultModule<T>(receiver: Option<T>)
    ensures ToResult(receiver) == ResultExtensions.ToResult(receiver)
  {
  }
}
