/**
 * The `Result<Error, Value>` type of the `result` module: the outcome of a
 * computation that either succeeded with some data or failed with an error,
 * and the combinators that build chains of such computations.
 *
 * Kotlin's sealed class with its two data classes becomes a datatype; each
 * method of the sealed class becomes a member function, each free function a
 * module-level function. Callbacks are total Dafny functions.
 */
module Results {

  datatype Result<E, V> = Success(data: V) | Failure(error: E) {

    /** `withDefault(defaultValue)`: the data of a success, the default otherwise.
        Kotlin defines it by the producer form, and so does this model. */
    function WithDefault(defaultValue: V): (v: V)
      ensures Success? ==> v == data
      ensures Failure? ==> v == defaultValue
    {
      WithDefaultBy(_ => defaultValue)
    }

    /** `withDefault(producer)`: the data of a success, or the producer applied
        to the error of a failure. */
    function WithDefaultBy(producer: E -> V): (v: V)
      ensures Success? ==> v == data
      ensures Failure? ==> v == producer(error)
    {
      match this
      case Success(d) => d
      case Failure(e) => producer(e)
    }

    /** `orThrowException(exceptionProducer)`: returns the data of a success;
        on a failure it throws the exception produced from the error, which the
        model reports as `Thrown`. */
    function OrThrowException<X>(exceptionProducer: E -> X): (u: Unwrapped<X, V>)
      ensures u.Returned? <==> Success?
      ensures Success? ==> u.value == data
      ensures Failure? ==> u.exception == exceptionProducer(error)
    {
      match this
      case Success(d) => Returned(d)
      case Failure(e) => Thrown(exceptionProducer(e))
    }

    /** `andThen(chain)`: feeds the data of a success to the next computation;
        a failure is passed on and the next computation is skipped. */
    function AndThen<T>(chain: V -> Result<E, T>): (r: Result<E, T>)
      ensures Success? ==> r == chain(data)
      ensures Failure? ==> r == Failure(error)
    {
      match this
      case Success(d) => chain(d)
      case Failure(e) => Failure(e)
    }

    /** `andThenError(transform)`: the dual of `andThen` on the error channel;
        it allows a failure to recover into a success. */
    function AndThenError<T>(transform: E -> Result<T, V>): (r: Result<T, V>)
      ensures Success? ==> r == Success(data)
      ensures Failure? ==> r == transform(error)
    {
      match this
      case Success(d) => Success(d)
      case Failure(e) => transform(e)
    }

    /** `map(transform)`: transforms the data of a success. */
    function Map<T>(transform: V -> T): (r: Result<E, T>)
      ensures r.Success? <==> Success?
      ensures Success? ==> r.data == transform(data)
      ensures Failure? ==> r.error == error
    {
      match this
      case Success(d) => Success(transform(d))
      case Failure(e) => Failure(e)
    }

    /** `mapError(transform)`: transforms the error of a failure. */
    function MapError<T>(transform: E -> T): (r: Result<T, V>)
      ensures r.Success? <==> Success?
      ensures Success? ==> r.data == data
      ensures Failure? ==> r.error == transform(error)
    {
      match this
      case Success(d) => Success(d)
      case Failure(e) => Failure(transform(e))
    }

    /** `use(actOn)`: returns the receiver itself. The callback's effect is
        recorded in `actions`: it happens once, with the data, on a success,
        and never on a failure. */
    function Use<A>(actOn: V -> A): (o: Observed<E, V, A>)
      ensures o.result == this
      ensures |o.actions| == (if Success? then 1 else 0)
      ensures Success? ==> o.actions[0] == actOn(data)
    {
      match this
      case Success(d) => Observed(this, [actOn(d)])
      case Failure(_) => Observed(this, [])
    }

    /** `useError(actOn)`: returns the receiver itself; the callback happens
        once, with the error, on a failure, and never on a success. */
    function UseError<A>(actOn: E -> A): (o: Observed<E, V, A>)
      ensures o.result == this
      ensures |o.actions| == (if Failure? then 1 else 0)
      ensures Failure? ==> o.actions[0] == actOn(error)
    {
      match this
      case Success(_) => Observed(this, [])
      case Failure(e) => Observed(this, [actOn(e)])
    }
  }

  /** What `orThrowException` does: return a value or throw an exception. */
  datatype Unwrapped<X, V> = Returned(value: V) | Thrown(exception: X)

  /** What `use`/`useError` do: the value they return, and the effects the
      caller's callback performed, in order. */
  datatype Observed<E, V, A> = Observed(result: Result<E, V>, actions: seq<A>)

  /** `map2(left, right, transform)`, defined as in Kotlin through `andThen`
      and `map`. */
  function Map2<E, U, V, W>(left: Result<E, U>, right: Result<E, V>, transform: (U, V) -> W): (r: Result<E, W>)
    ensures left.Success? && right.Success? ==> r == Success(transform(left.data, right.data))
    ensures left.Failure? ==> r == Failure(left.error)
    ensures left.Success? && right.Failure? ==> r == Failure(right.error)
  {
    left.AndThen(l => right.Map(r => transform(l, r)))
  }

  /** `map3(left, middle, right, transform)`, defined as in Kotlin through
      `andThen` and `map2`: the leftmost failure wins. */
  function Map3<E, U, V, W, X>(left: Result<E, U>, middle: Result<E, V>, right: Result<E, W>,
                               transform: (U, V, W) -> X): (r: Result<E, X>)
    ensures left.Success? && middle.Success? && right.Success? ==>
              r == Success(transform(left.data, middle.data, right.data))
    ensures left.Failure? ==> r == Failure(left.error)
    ensures left.Success? && middle.Failure? ==> r == Failure(middle.error)
    ensures left.Success? && middle.Success? && right.Failure? ==> r == Failure(right.error)
  {
    left.AndThen(l => Map2(middle, right, (m, r) => transform(l, m, r)))
  }

  // ---------------------------------------------------------------------------
  // Unwrapping

  /** Unwrapping never fails on a success, and what `orThrowException` returns
      is what `withDefault` returns, whatever the default. */
  lemma OrThrowExceptionAgreesWithDefault<E, V, X>(r: Result<E, V>, exceptionProducer: E -> X, d: V)
    ensures r.OrThrowException(exceptionProducer).Returned? ==>
              r.OrThrowException(exceptionProducer).value == r.WithDefault(d)
    ensures r.OrThrowException(exceptionProducer).Thrown? ==> r.WithDefault(d) == d
  {
  }

  // ---------------------------------------------------------------------------
  // Functor laws of `map` and `mapError`

  lemma MapIdentity<E, V>(r: Result<E, V>)
    ensures r.Map(x => x) == r
  {
  }

  lemma MapComposition<E, U, V, W>(r: Result<E, U>, g: U -> V, f: V -> W)
    ensures r.Map(g).Map(f) == r.Map(x => f(g(x)))
  {
  }

  lemma MapErrorIdentity<E, V>(r: Result<E, V>)
    ensures r.MapError(x => x) == r
  {
  }

  lemma MapErrorComposition<E, F, G, V>(r: Result<E, V>, g: E -> F, f: F -> G)
    ensures r.MapError(g).MapError(f) == r.MapError(x => f(g(x)))
  {
  }

  /** `map` and `mapError` act on different channels, so they commute. */
  lemma MapMapErrorCommute<E, F, V, W>(r: Result<E, V>, f: V -> W, g: E -> F)
    ensures r.Map(f).MapError(g) == r.MapError(g).Map(f)
  {
  }

  /** `map` is `andThen` followed by wrapping into a success. */
  lemma MapIsAndThenSuccess<E, V, T>(r: Result<E, V>, f: V -> T)
    ensures r.Map(f) == r.AndThen(x => Success(f(x)))
  {
  }

  // ---------------------------------------------------------------------------
  // Monad laws of `andThen`

  lemma AndThenLeftIdentity<E, V, T>(v: V, f: V -> Result<E, T>)
    ensures Success(v).AndThen(f) == f(v)
  {
  }

  lemma AndThenRightIdentity<E, V>(r: Result<E, V>)
    ensures r.AndThen(x => Success(x)) == r
  {
  }

  lemma AndThenAssociative<E, U, V, W>(r: Result<E, U>, f: U -> Result<E, V>, g: V -> Result<E, W>)
    ensures r.AndThen(f).AndThen(g) == r.AndThen(x => f(x).AndThen(g))
  {
  }

  // ---------------------------------------------------------------------------
  // Duality: the error-channel combinators are the value-channel ones seen
  // through `Swapped`, which exchanges the two variants.

  ghost function Swapped<E, V>(r: Result<E, V>): Result<V, E>
  {
    match r
    case Success(d) => Failure(d)
    case Failure(e) => Success(e)
  }

  lemma SwappedInvolution<E, V>(r: Result<E, V>)
    ensures Swapped(Swapped(r)) == r
  {
  }

  lemma MapErrorIsDualOfMap<E, V, T>(r: Result<E, V>, f: E -> T)
    ensures r.MapError(f) == Swapped(Swapped(r).Map(f))
  {
  }

  lemma AndThenErrorIsDualOfAndThen<E, V, T>(r: Result<E, V>, f: E -> Result<T, V>)
    ensures r.AndThenError(f) == Swapped(Swapped(r).AndThen(x => Swapped(f(x))))
  {
    match r
    case Success(d) =>
    case Failure(e) => SwappedInvolution(f(e));
  }

  // ---------------------------------------------------------------------------
  // Chains of `andThen`: once a step fails, the rest is skipped and that
  // failure is the final result.

  /** `r.andThen(steps[0]).andThen(steps[1])…` */
  function Chain<E, V>(r: Result<E, V>, steps: seq<V -> Result<E, V>>): Result<E, V>
    decreases |steps|
  {
    if steps == [] then r else Chain(r.AndThen(steps[0]), steps[1..])
  }

  lemma {:induction false} ChainOfFailure<E, V>(e: E, steps: seq<V -> Result<E, V>>)
    ensures Chain(Failure(e), steps) == Failure(e)
    decreases |steps|
  {
    if steps != [] {
      ChainOfFailure(e, steps[1..]);
    }
  }

  lemma {:induction false} ChainAppend<E, V>(r: Result<E, V>, steps: seq<V -> Result<E, V>>, more: seq<V -> Result<E, V>>)
    ensures Chain(r, steps + more) == Chain(Chain(r, steps), more)
    decreases |steps|
  {
    if steps != [] {
      assert (steps + more)[0] == steps[0];
      assert (steps + more)[1..] == steps[1..] + more;
      ChainAppend(r.AndThen(steps[0]), steps[1..], more);
    } else {
      assert steps + more == more;
    }
  }

  /** If the chain has failed with `e` after its first `k` steps, it ends in
      `Failure(e)`, whatever the remaining steps are. */
  lemma ChainStopsAtFirstFailure<E, V>(r: Result<E, V>, steps: seq<V -> Result<E, V>>, k: nat, e: E)
    requires k <= |steps|
    requires Chain(r, steps[..k]) == Failure(e)
    ensures Chain(r, steps) == Failure(e)
  {
    assert steps == steps[..k] + steps[k..];
    ChainAppend(r, steps[..k], steps[k..]);
    ChainOfFailure(e, steps[k..]);
  }

  // ---------------------------------------------------------------------------
  // `use` and `useError` are pass-through

  /** `r.use(a).useError(b)` is `r` and exactly one of the two callbacks runs. */
  lemma UseThenUseError<E, V, A>(r: Result<E, V>, onData: V -> A, onError: E -> A)
    ensures r.Use(onData).result.UseError(onError).result == r
    ensures |r.Use(onData).actions| + |r.Use(onData).result.UseError(onError).actions| == 1
  {
  }

  // ---------------------------------------------------------------------------
  // N-ary combination

  /** `map3` is `map2` of `left` with the `map2` of the other two, as pairs. */
  lemma Map3IsNestedMap2<E, U, V, W, X>(left: Result<E, U>, middle: Result<E, V>, right: Result<E, W>,
                                         transform: (U, V, W) -> X)
    ensures Map3(left, middle, right, transform)
         == Map2(left, Map2(middle, right, (m, r) => (m, r)), (l, p: (V, W)) => transform(l, p.0, p.1))
  {
  }

  // ---------------------------------------------------------------------------
  // Lists of results

  predicate AllSucceed<E, V>(rs: seq<Result<E, V>>)
  {
    forall i :: 0 <= i < |rs| ==> rs[i].Success?
  }

  /** `rs[k]` is the first failure in `rs`. */
  predicate FirstFailureAt<E, V>(rs: seq<Result<E, V>>, k: int)
  {
    0 <= k < |rs| && rs[k].Failure? && forall j :: 0 <= j < k ==> rs[j].Success?
  }

  /** The data of a list of successes. */
  function Values<E, V>(rs: seq<Result<E, V>>): (vs: seq<V>)
    requires AllSucceed(rs)
    ensures |vs| == |rs|
    ensures forall i :: 0 <= i < |rs| ==> vs[i] == rs[i].data
  {
    seq(|rs|, i requires 0 <= i < |rs| => rs[i].data)
  }
}
