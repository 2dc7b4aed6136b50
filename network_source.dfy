/**
 * `NetworkSource`: a source of integers that hands out a batch it keeps, in
 * order, and fetches a new batch from its network when the batch is empty.
 *
 * The network is any deterministic `Network`: its k-th fetch (counting from
 * 0) returns `answers(k)`. A network that always returns the same result, as
 * the application's tests configure it, is the constant case.
 */
module NetworkSources {
  import opened KotlinInt
  import opened Nullables
  import opened Results
  import opened NetworkInterface
  import opened SourceInterface
  import ResultExtensions

  /** A `Network` whose `fetch()` returns `answers(k)` on its k-th call, and
      that counts its calls. */
  class StubNetwork {
    const answers: nat -> Result<NetworkError, seq<Int32>>
    var fetches: nat

    constructor (answers: nat -> Result<NetworkError, seq<Int32>>)
      ensures this.answers == answers && fetches == 0
    {
      this.answers := answers;
      fetches := 0;
    }

    method Fetch() returns (r: Result<NetworkError, seq<Int32>>)
      modifies this
      ensures r == answers(old(fetches))
      ensures fetches == old(fetches) + 1
    {
      r := answers(fetches);
      fetches := fetches + 1;
    }
  }

  /** What one `integer()` call does to a batch, given what a fetch would
      return: the result and the batch afterwards. */
  function Next(batch: seq<Int32>, response: Result<NetworkError, seq<Int32>>): (o: (Result<SourceError, Int32>, seq<Int32>))
    ensures batch != [] ==> o == (Success(batch[0]), batch[1..])
    ensures batch == [] && (response.Failure? || response.data == []) ==> o == (Failure(Empty), [])
    ensures batch == [] && response.Success? && response.data != [] ==>
              o == (Success(response.data[0]), response.data[1..])
    ensures batch + Fetched(batch, response) == (if o.0.Success? then [o.0.data] else []) + o.1
  {
    var filled := batch + Fetched(batch, response);
    assert batch != [] ==> filled == batch;
    assert batch == [] ==> filled == Fetched(batch, response);
    var head := if filled == [] then None else Some(filled[0]);
    (ResultExtensions.ToResult(head).MapError(_ => Empty), if filled == [] then [] else filled[1..])
  }

  /** What a call appends to the batch: the fetched list, when the batch was
      empty and the fetch succeeded, and nothing otherwise. */
  function Fetched(batch: seq<Int32>, response: Result<NetworkError, seq<Int32>>): seq<Int32>
  {
    if batch == [] && response.Success? then response.data else []
  }

  /** The results of `n` successive calls on a batch, when the network has
      already been fetched `fetches` times. */
  function Run(batch: seq<Int32>, answers: nat -> Result<NetworkError, seq<Int32>>, fetches: nat, n: nat): seq<Result<SourceError, Int32>>
    decreases n
  {
    if n == 0 then []
    else
      var next := Next(batch, answers(fetches));
      [next.0] + Run(next.1, answers, fetches + (if batch == [] then 1 else 0), n - 1)
  }

  /** Successive calls hand out the batch in order, whatever the network. */
  lemma {:induction false} RunHandsOutBatchInOrder(batch: seq<Int32>, answers: nat -> Result<NetworkError, seq<Int32>>, fetches: nat, n: nat)
    requires n <= |batch|
    ensures |Run(batch, answers, fetches, n)| == n
    ensures forall i :: 0 <= i < n ==> Run(batch, answers, fetches, n)[i] == Success(batch[i])
    decreases n
  {
    if n > 0 {
      RunHandsOutBatchInOrder(batch[1..], answers, fetches, n - 1);
    }
  }

  /** Once the batch is empty, the list the next fetch returns is handed out
      in order. */
  lemma RunHandsOutFetchedInOrder(answers: nat -> Result<NetworkError, seq<Int32>>, fetches: nat, numbers: seq<Int32>)
    requires numbers != [] && answers(fetches) == Success(numbers)
    ensures |Run([], answers, fetches, |numbers|)| == |numbers|
    ensures forall i :: 0 <= i < |numbers| ==> Run([], answers, fetches, |numbers|)[i] == Success(numbers[i])
  {
    RunHandsOutBatchInOrder(numbers[1..], answers, fetches + 1, |numbers| - 1);
  }

  /** With an empty batch and a network that from now on only fails or
      returns empty lists, every call fails with `Empty`. */
  lemma {:induction false} RunOnFailingNetwork(answers: nat -> Result<NetworkError, seq<Int32>>, fetches: nat, n: nat)
    requires forall k :: k >= fetches ==> answers(k).Failure? || answers(k).data == []
    ensures |Run([], answers, fetches, n)| == n
    ensures forall i :: 0 <= i < n ==> Run([], answers, fetches, n)[i] == Failure(Empty)
    decreases n
  {
    if n > 0 {
      RunOnFailingNetwork(answers, fetches + 1, n - 1);
    }
  }

  class NetworkSource {
    const network: StubNetwork
    var batch: seq<Int32>

    /** `NetworkSource(network, initialBatch)`. */
    constructor (network: StubNetwork, initialBatch: seq<Int32>)
      ensures this.network == network && batch == initialBatch
    {
      this.network := network;
      batch := initialBatch;
    }

    /** `NetworkSource(network)`: starts with an empty batch. */
    constructor OfNetwork(network: StubNetwork)
      ensures this.network == network && batch == []
    {
      this.network := network;
      batch := [];
    }

    /** `fillBatch(fresh)`: appends the fetched integers to the batch. */
    method FillBatch(numbers: seq<Int32>)
      modifies this
      ensures batch == old(batch) + numbers
    {
      batch := batch + numbers;
    }

    /** `integer()`: refills an empty batch by one fetch, then hands out and
        removes the first element, or fails with `Empty`. */
    method Integer() returns (r: Result<SourceError, Int32>)
      modifies this, network
      ensures network.fetches == old(network.fetches) + (if old(batch) == [] then 1 else 0)
      ensures (r, batch) == Next(old(batch), network.answers(old(network.fetches)))
      ensures |batch| >= |old(batch)| - 1
    {
      if batch == [] {
        var fetched := network.Fetch();
        // `use(::fillBatch)`: the callback runs once on a success, never on
        // a failure; its one argument is the fetched list.
        var observed := fetched.Use(numbers => numbers);
        if observed.actions != [] {
          FillBatch(observed.actions[0]);
        }
      }
      var head: Option<Int32> := if batch == [] then None else Some(batch[0]);
      if batch != [] {
        batch := batch[1..];
      }
      r := ResultExtensions.ToResult(head).MapError(_ => Empty);
    }
  }

  /** `n` successive `integer()` calls on one source: their results are the
      `Run` of its batch, with the network answering from its current fetch
      count on. */
  method SuccessiveCalls(source: NetworkSource, n: nat) returns (rs: seq<Result<SourceError, Int32>>)
    modifies source, source.network
    ensures rs == Run(old(source.batch), source.network.answers, old(source.network.fetches), n)
  {
    var network := source.network;
    ghost var answers := network.answers;
    ghost var goal := Run(source.batch, answers, network.fetches, n);
    rs := [];
    var i := 0;
    while i < n
      invariant i <= n
      invariant rs + Run(source.batch, answers, network.fetches, n - i) == goal
    {
      ghost var batch, fetches := source.batch, network.fetches;
      var r := source.Integer();
      RunStep(rs, r, batch, source.batch, answers, fetches, network.fetches, n - i - 1);
      rs := rs + [r];
      i := i + 1;
    }
  }

  /** One call taken off the front of a run. */
  lemma RunStep(rs: seq<Result<SourceError, Int32>>, r: Result<SourceError, Int32>, batch: seq<Int32>, batch': seq<Int32>,
                answers: nat -> Result<NetworkError, seq<Int32>>, fetches: nat, fetches': nat, m: nat)
    requires (r, batch') == Next(batch, answers(fetches))
    requires fetches' == fetches + (if batch == [] then 1 else 0)
    ensures rs + Run(batch, answers, fetches, m + 1) == (rs + [r]) + Run(batch', answers, fetches', m)
  {
    var rest := Run(batch', answers, fetches', m);
    assert Run(batch, answers, fetches, m + 1) == [r] + rest;
    assert rs + ([r] + rest) == (rs + [r]) + rest;
  }

  /** Two calls on a source whose batch holds two numbers hand them out in
      order and never reach the network. */
  method ConsecutiveCalls(network: StubNetwork, first: Int32, second: Int32)
      returns (r1: Result<SourceError, Int32>, r2: Result<SourceError, Int32>)
    modifies network
    ensures r1 == Success(first) && r2 == Success(second)
    ensures network.fetches == old(network.fetches)
  {
    var source := new NetworkSource(network, [first, second]);
    r1 := source.Integer();
    r2 := source.Integer();
  }
}
