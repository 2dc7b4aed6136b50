# Result: a verified model

This project models the `Result<Error, Value>` library of alliander-opensource/Result and
the random-number example application built on it, and proves what the library and the
application promise. The project is written in Dafny.

The library part covers these pieces:

- the sealed class with its two variants, `Success(data)` and `Failure(error)`;
- its combinators `withDefault`, `orThrowException`, `andThen`, `andThenError`, `map`, `mapError`, `use` and `useError`;
- the free functions `map2` and `map3`;
- the `toResult` extension on nullable values, in both of the repository's copies.

The example application covers these pieces:

- `Int.modulo`;
- the dice (`toDice`, `roll`, `single`, `combine`);
- the batch-keeping `NetworkSource`;
- the doubling `EvenSource`;
- the body handling of the random.org client (`bodyToResult`, `BodyParser.parse`).

Kotlin values are modelled as follows:

- `Int` is the subset type `Int32`. Overflow wraps explicitly through `Wrap32`, and `%` truncates toward zero through `Rem`.
- A nullable `T?` is `Option<T>`, and `Unit` is `()`.
- A thrown exception is the `Thrown` variant of `Unwrapped`.
- The effect of a `use`/`useError` callback is recorded as the list of its results in `Observed`.
- The network behind a `NetworkSource` is any deterministic network: a stub object whose k-th fetch returns a given k-th answer, and which counts its fetches.
- The source behind a `Dice` is the list of answers it gives to the `number` questions a roll asks.

Modules:

| file | module | models |
|---|---|---|
| nullable.dfy | `Nullables` | `T?` |
| result.dfy | `Results` | `Result.kt` |
| result_extensions.dfy | `ResultExtensions` | `result/.../Extensions.kt` |
| lib_extensions.dfy | `LibExtensions` | `lib/.../Extensions.kt` |
| kotlin_int.dfy | `KotlinInt` | JVM `Int` arithmetic, `sum()` |
| kotlin_text.dfy | `KotlinText` | `isWhitespace`, `isBlank`, `trimEnd`, `split`, `joinToString`, `toString`, `parseInt` |
| integer.dfy | `Integers` | `extentions/Integer.kt` |
| network.dfy, source.dfy | `NetworkInterface`, `SourceInterface` | the `NetworkError` and `SourceError` enums |
| dice.dfy | `Dice` | `dice/Dice.kt` |
| network_source.dfy | `NetworkSources` | `sources/NetworkSource.kt` |
| even_source.dfy | `EvenSources` | `sources/EvenSource.kt` |
| random_org.dfy | `RandomOrg` | `networks/RandomOrg.kt` |

## Model

| member | source | states |
|---|---|---|
| Results.Result.WithDefault | result/src/main/kotlin/com/alliander/result/Result.kt:30-32 | a success yields its data, a failure the default value |
| Results.Result.WithDefaultBy | result/src/main/kotlin/com/alliander/result/Result.kt:44-49 | a success yields its data, a failure the producer applied to its error |
| Results.Result.OrThrowException | result/src/main/kotlin/com/alliander/result/Result.kt:61-66 | it returns normally exactly on a success, with the data; on a failure it throws the exception produced from the error |
| Results.OrThrowExceptionAgreesWithDefault | result/src/main/kotlin/com/alliander/result/Result.kt:30-66 | when `orThrowException` returns, it returns what `withDefault` returns for any default; when it throws, `withDefault` falls back to the default |
| Results.Result.AndThen | result/src/main/kotlin/com/alliander/result/Result.kt:109-114 | a success is fed to the chained computation; a failure is passed on unchanged |
| Results.Result.AndThenError | result/src/main/kotlin/com/alliander/result/Result.kt:125-130 | a success is passed on unchanged; a failure is fed to the recovery computation |
| Results.Result.Map | result/src/main/kotlin/com/alliander/result/Result.kt:140-145 | the variant is kept; a success's data is transformed; a failure's error is unchanged |
| Results.Result.MapError | result/src/main/kotlin/com/alliander/result/Result.kt:155-160 | the variant is kept; a failure's error is transformed; a success's data is unchanged |
| Results.Result.Use | result/src/main/kotlin/com/alliander/result/Result.kt:170-176 | returns the receiver itself; the callback runs exactly once, with the data, on a success and never on a failure |
| Results.Result.UseError | result/src/main/kotlin/com/alliander/result/Result.kt:186-192 | returns the receiver itself; the callback runs exactly once, with the error, on a failure and never on a success |
| Results.UseThenUseError | result/src/main/kotlin/com/alliander/result/Result.kt:170-192 | `use` followed by `useError` returns the original result, and exactly one of the two callbacks runs |
| Results.Map2 | result/src/main/kotlin/com/alliander/result/Result.kt:235-237 | two successes combine their data with the transform; otherwise the left failure wins, then the right one |
| Results.Map3 | result/src/main/kotlin/com/alliander/result/Result.kt:258-262 | three successes combine their data; otherwise the leftmost failure is the result |
| Results.Map3IsNestedMap2 | result/src/main/kotlin/com/alliander/result/Result.kt:235-262 | `map3` equals `map2` of the left result with the paired `map2` of the other two |
| Results.MapIdentity | result/src/main/kotlin/com/alliander/result/Result.kt:140-145 | mapping the identity changes nothing |
| Results.MapComposition | result/src/main/kotlin/com/alliander/result/Result.kt:140-145 | two maps in a row are one map of the composed transform |
| Results.MapErrorIdentity | result/src/main/kotlin/com/alliander/result/Result.kt:155-160 | mapping the error with the identity changes nothing |
| Results.MapErrorComposition | result/src/main/kotlin/com/alliander/result/Result.kt:155-160 | two error maps in a row are one error map of the composed transform |
| Results.MapMapErrorCommute | result/src/main/kotlin/com/alliander/result/Result.kt:140-160 | `map` and `mapError` commute |
| Results.MapIsAndThenSuccess | result/src/main/kotlin/com/alliander/result/Result.kt:109-145 | `map(f)` is `andThen` of `f` wrapped in a success |
| Results.AndThenLeftIdentity | result/src/main/kotlin/com/alliander/result/Result.kt:109-114 | `Success(v).andThen(f)` is `f(v)` |
| Results.AndThenRightIdentity | result/src/main/kotlin/com/alliander/result/Result.kt:109-114 | `andThen` of the success constructor changes nothing |
| Results.AndThenAssociative | result/src/main/kotlin/com/alliander/result/Result.kt:109-114 | chaining with `andThen` is associative |
| Results.MapErrorIsDualOfMap | result/src/main/kotlin/com/alliander/result/Result.kt:140-160 | `mapError` is `map` on the swapped result, swapped back |
| Results.AndThenErrorIsDualOfAndThen | result/src/main/kotlin/com/alliander/result/Result.kt:109-130 | `andThenError` is `andThen` on the swapped result, swapped back |
| Results.Chain | result/src/main/kotlin/com/alliander/result/Result.kt:110-113 | defined directly: `r.andThen(steps[0]).andThen(steps[1])…`, applying the steps in order |
| Results.ChainOfFailure | result/src/main/kotlin/com/alliander/result/Result.kt:68-114 | a chain of `andThen` steps started from a failure ends in that failure |
| Results.ChainAppend | result/src/main/kotlin/com/alliander/result/Result.kt:68-114 | running a chain of steps and then more steps is the same as running the concatenated chain |
| Results.ChainStopsAtFirstFailure | result/src/main/kotlin/com/alliander/result/Result.kt:68-114 | once a prefix of the chain has failed with `e`, the whole chain ends in `Failure(e)`, whatever the remaining steps are |
| ResultExtensions.ToResult | result/src/main/kotlin/com/alliander/result/Extensions.kt:12-18 | a non-null value becomes a success holding it; null becomes `Failure(Unit)` |
| ResultExtensions.ToResultInjective | result/src/main/kotlin/com/alliander/result/Extensions.kt:12-18 | different nullable values give different results, so `toResult` loses nothing |
| LibExtensions.ToResult | lib/src/main/kotlin/com/alliander/result/Extensions.kt:3-9 | a non-null value becomes a success holding it; null becomes `Failure(Unit)` |
| LibExtensions.AgreesWithResultModule | lib/src/main/kotlin/com/alliander/result/Extensions.kt:3-9 | the `lib` copy of `toResult` equals the `result` copy on every input |
| KotlinInt.Wrap32 | random-example/src/main/kotlin/com/alliander/example/dice/Dice.kt:44 | the `Int` an arithmetic operation yields: unchanged in range, otherwise congruent modulo 2^32 |
| KotlinInt.Rem | random-example/src/main/kotlin/com/alliander/example/extentions/Integer.kt:4 | JVM `%`: smaller in magnitude than the divisor, with the sign of the dividend, and differing from it by a multiple of the divisor |
| KotlinInt.SumInt32 | random-example/src/main/kotlin/com/alliander/example/dice/Dice.kt:36 | defined directly: `sum()`, adding from left to right with every partial sum wrapped to `Int` |
| KotlinInt.SumInt32IsWrappedSum | random-example/src/main/kotlin/com/alliander/example/dice/Dice.kt:36 | `sum()` with wrapping partial sums is the wrapped mathematical sum |
| KotlinInt.WrapAdd | random-example/src/main/kotlin/com/alliander/example/dice/Dice.kt:36 | wrapping an intermediate sum does not change the wrapped total |
| KotlinInt.WrapOfEvenIsEven | random-example/src/main/kotlin/com/alliander/example/sources/EvenSource.kt:10 | an even mathematical result wraps to an even `Int` |
| KotlinInt.RemOfEven | random-example/src/test/kotlin/com/alliander/example/sources/EvenSourceTest.kt:43 | an even `Int` has JVM remainder 0 modulo 2 |
| Integers.Modulo | random-example/src/main/kotlin/com/alliander/example/extentions/Integer.kt:3-10 | for a positive modulus the result lies in [0, m) and is the Euclidean remainder; a value already in [0, m) is unchanged |
| Integers.RemIsEuclidean | random-example/src/main/kotlin/com/alliander/example/extentions/Integer.kt:4-9 | for a positive modulus the truncated remainder is the Euclidean one, or that minus `m` when negative |
| Integers.ModuloAdjustmentFitsInt | random-example/src/main/kotlin/com/alliander/example/extentions/Integer.kt:7-9 | for a positive modulus, adding `m` to a negative remainder stays within `Int` range, so that branch never overflows |
| KotlinText.IsWhitespace | random-example/src/main/kotlin/com/alliander/example/networks/RandomOrg.kt:41-43 | defined directly: the JVM whitespace set that `isBlank` and `trimEnd` use, the ASCII controls TAB..CR and FS..US and the Unicode space, line and paragraph separators |
| KotlinText.IsBlank | random-example/src/main/kotlin/com/alliander/example/networks/RandomOrg.kt:41 | defined directly: `isBlank()`, every character is whitespace, the empty string included |
| KotlinText.TrimEnd | random-example/src/main/kotlin/com/alliander/example/networks/RandomOrg.kt:43 | the result is a prefix of the input without trailing whitespace, and what it drops is whitespace |
| KotlinText.TrimEndIgnoresTrailingWhitespace | random-example/src/main/kotlin/com/alliander/example/networks/RandomOrg.kt:43 | appending whitespace does not change what `trimEnd` returns |
| KotlinText.Split | random-example/src/main/kotlin/com/alliander/example/networks/RandomOrg.kt:44 | `split("\n")` gives at least one piece, and no piece holds a newline |
| KotlinText.Join | random-example/src/main/kotlin/com/alliander/example/networks/RandomOrg.kt:44 | defined directly: `joinToString("\n")`, the pieces with one newline between neighbours; `SplitJoin` and `JoinSplit` are its partners |
| KotlinText.SplitJoin | random-example/src/main/kotlin/com/alliander/example/networks/RandomOrg.kt:44 | `split("\n")` undoes `joinToString("\n")` when no piece holds a newline |
| KotlinText.JoinSplit | random-example/src/main/kotlin/com/alliander/example/networks/RandomOrg.kt:44 | `joinToString("\n")` undoes `split("\n")` on every string |
| KotlinText.ShowNat | random-example/src/test/kotlin/com/alliander/example/dice/DiceTest.kt:19 | the decimal form of a natural number is non-empty, digits only, and has no leading zero |
| KotlinText.DecimalValueOfShowNat | random-example/src/main/kotlin/com/alliander/example/dice/Dice.kt:18-19 | the value of a number's decimal form is that number |
| KotlinText.ShowNatOfDecimalValue | random-example/src/main/kotlin/com/alliander/example/dice/Dice.kt:18-19 | a numeral without a leading zero is the decimal form of its value |
| KotlinText.ShowInt | random-example/src/main/kotlin/com/alliander/example/networks/RandomOrg.kt:45 | `Int.toString()` is a non-empty line ending in a digit; `ParseIntOfShowInt` is its partner |
| KotlinText.ParseInt | random-example/src/main/kotlin/com/alliander/example/networks/RandomOrg.kt:45 | `Integer.parseInt` fails on a string without digits, and accepts no string that is empty or holds whitespace, which is why the body is trimmed first |
| KotlinText.ParseIntOfShowInt | random-example/src/main/kotlin/com/alliander/example/networks/RandomOrg.kt:45 | `parseInt` reads back every `Int` that `toString` writes, negatives included |
| Dice.DiceError.Kind | random-example/src/main/kotlin/com/alliander/example/dice/Dice.kt:26-28 | the kind is `"ParseError"` exactly for a parse error and `"SourceError"` exactly for a source error |
| Dice.IndexOfD | random-example/src/main/kotlin/com/alliander/example/dice/Dice.kt:14 | the position of the first `d`, or none when there is no `d` |
| Dice.MatchesDicePattern | random-example/src/main/kotlin/com/alliander/example/dice/Dice.kt:14 | defined directly: the whole string matches `^([1-9]\d*)d([1-9]\d*)$`, some `d` having a numeral without leading zero on either side; `DiceGroups` is its partner |
| Dice.DiceGroups | random-example/src/main/kotlin/com/alliander/example/dice/Dice.kt:14-17 | groups are found exactly when the whole string matches `^([1-9]\d*)d([1-9]\d*)$`, and then they are the two numerals around the `d` |
| Dice.ToDice | random-example/src/main/kotlin/com/alliander/example/dice/Dice.kt:15-24 | a success exactly when the pattern matches, with a positive number and faces whose decimal forms spell the input; otherwise `ParseError` of the input |
| Dice.ToDiceOfSpecification | random-example/src/test/kotlin/com/alliander/example/dice/DiceTest.kt:14-25 | `"<N>d<F>"` parses to N dice with F faces for every positive N and F |
| Dice.DiceGroupsOfNumerals | random-example/src/main/kotlin/com/alliander/example/dice/Dice.kt:14-19 | the groups of `a + "d" + b` are `a` and `b` when both are positive numerals |
| Dice.ShowNatIsInjective | random-example/src/test/kotlin/com/alliander/example/dice/DiceTest.kt:19-23 | two specifications that read the same describe the same number and faces |
| Dice.SplitAtDIsUnique | random-example/src/main/kotlin/com/alliander/example/dice/Dice.kt:14 | a string of the form digits + `d` + rest splits in only one way |
| Dice.Single | random-example/src/main/kotlin/com/alliander/example/dice/Dice.kt:40-45 | a source failure becomes `RandomSourceError` for any faces, including 0; a success becomes `answer.modulo(faces) + 1` in `Int` arithmetic for every non-zero faces, which for positive faces is `answer % faces + 1` and lies in [1, faces] |
| Dice.SingleIsTheChain | random-example/src/main/kotlin/com/alliander/example/dice/Dice.kt:41-44 | wherever `modulo` is defined, the throw is the chain `mapError(::RandomSourceError).map(modulo).map(+ 1)` |
| Dice.Combine | random-example/src/main/kotlin/com/alliander/example/dice/Dice.kt:48-55 | the accumulator's failure is kept, then the element's; two successes append the element to the list |
| Dice.Fold | random-example/src/main/kotlin/com/alliander/example/dice/Dice.kt:35 | defined directly: `fold(accumulator, ::combine)`, from left to right; `FoldOfFailure`, `FoldOfSuccesses` and `FoldStopsAtFirstFailure` state what it computes |
| Dice.FoldOfFailure | random-example/src/main/kotlin/com/alliander/example/dice/Dice.kt:35 | folding `combine` from a failure ends in that failure |
| Dice.FoldOfSuccesses | random-example/src/main/kotlin/com/alliander/example/dice/Dice.kt:35 | folding `combine` over successes appends their data in order |
| Dice.FoldStopsAtFirstFailure | random-example/src/main/kotlin/com/alliander/example/dice/Dice.kt:35 | folding `combine` from a success ends in the error of the first failing element |
| Dice.FoldOfSinglesFails | random-example/src/main/kotlin/com/alliander/example/dice/Dice.kt:34-35 | folding the throws ends in the error of the first failing answer, as a `RandomSourceError` |
| Dice.FoldOfSinglesSucceeds | random-example/src/main/kotlin/com/alliander/example/dice/Dice.kt:34-35 | when every answer succeeds, folding the throws collects all of them in order |
| Dice.Singles | random-example/src/main/kotlin/com/alliander/example/dice/Dice.kt:34 | one throw per answer, in order: a failing answer gives its `RandomSourceError`, a successful one its pip `answer.modulo(faces) + 1` in `Int` arithmetic, which for positive faces is `answer % faces + 1` |
| Dice.Roll | random-example/src/main/kotlin/com/alliander/example/dice/Dice.kt:33-38 | defined whenever no successful answer meets `faces == 0`; the first failing answer's error is the result; the roll succeeds exactly when all answers do, and is then the wrapped sum of the pips `answer.modulo(faces) + 1`, for negative faces too |
| Dice.SumOfPipsBounds | random-example/src/main/kotlin/com/alliander/example/dice/Dice.kt:36 | a sum of n values in [1, F] lies in [n, n * F] |
| Dice.RollWithinBounds | random-example/src/test/kotlin/com/alliander/example/dice/DiceTest.kt:41-52 | with all answers successful and N * F within `Int` range, a roll of NdF is the plain sum and lies between N and N * F |
| NetworkSources.StubNetwork.Fetch | random-example/src/main/kotlin/com/alliander/example/Network.kt:5-7 | the k-th fetch returns the network's k-th answer and counts one more fetch |
| NetworkSources.NetworkSource.constructor | random-example/src/main/kotlin/com/alliander/example/sources/NetworkSource.kt:6-9 | the source keeps its network and starts with the initial batch |
| NetworkSources.NetworkSource.OfNetwork | random-example/src/main/kotlin/com/alliander/example/sources/NetworkSource.kt:7 | the one-argument constructor starts with an empty batch |
| NetworkSources.NetworkSource.FillBatch | random-example/src/main/kotlin/com/alliander/example/sources/NetworkSource.kt:20-22 | the fetched numbers are appended to the batch |
| NetworkSources.NetworkSource.Integer | random-example/src/main/kotlin/com/alliander/example/sources/NetworkSource.kt:11-18 | the network is fetched exactly once if the batch was empty, and never otherwise; the result and the new batch are those of `Next` applied to the answer of that fetch |
| NetworkSources.Next | random-example/src/main/kotlin/com/alliander/example/sources/NetworkSource.kt:11-18 | a non-empty batch yields its head and keeps its tail; an empty batch yields the head of a successful non-empty fetch, or `Failure(Empty)`; the old batch plus what was fetched is the result followed by the new batch |
| NetworkSources.Run | random-example/src/main/kotlin/com/alliander/example/sources/NetworkSource.kt:11-18 | defined directly: the results of `n` successive `integer()` calls, each one `Next` on the batch the previous call left; `SuccessiveCalls` ties it to the class |
| NetworkSources.RunHandsOutBatchInOrder | random-example/src/test/kotlin/com/alliander/example/sources/NetworkSourceTest.kt:48-73 | successive calls hand out the batch's elements in order, for any network |
| NetworkSources.RunHandsOutFetchedInOrder | random-example/src/test/kotlin/com/alliander/example/sources/NetworkSourceTest.kt:39-46 | starting from an empty batch, the list the next fetch returns is handed out in order, for any network |
| NetworkSources.RunOnFailingNetwork | random-example/src/test/kotlin/com/alliander/example/sources/NetworkSourceTest.kt:56-63 | with an empty batch and a network that only fails or returns empty lists, every call fails with `Empty` |
| NetworkSources.ConsecutiveCalls | random-example/src/test/kotlin/com/alliander/example/sources/NetworkSourceTest.kt:66-73 | two calls on a source whose batch holds two numbers return them in order and never fetch |
| NetworkSources.SuccessiveCalls | random-example/src/main/kotlin/com/alliander/example/sources/NetworkSource.kt:11-18 | `n` successive `integer()` calls on one source return exactly `Run` of its batch and its network's answers, so the `Run` lemmas hold for the class |
| EvenSources.EvenInteger | random-example/src/main/kotlin/com/alliander/example/sources/EvenSource.kt:8-11 | a base failure is passed on unchanged; a base success gives a success of `2 * n` with `Int` wrap-around, which is even under JVM `%` |
| RandomOrg.BodyToResult | random-example/src/main/kotlin/com/alliander/example/networks/RandomOrg.kt:22-28 | a success holding the body exactly when the status is 200; otherwise `NotOK` |
| RandomOrg.FetchResponse | random-example/src/main/kotlin/com/alliander/example/networks/RandomOrg.kt:15-19 | a status other than 200 gives `Failure(NotOK)`, and only then; status 200 gives what the parser makes of the body; `Generic` is never produced |
| RandomOrg.ParseLines | random-example/src/main/kotlin/com/alliander/example/networks/RandomOrg.kt:45 | succeeds exactly when every line parses as an `Int`, and then holds the parsed lines in order |
| RandomOrg.Parse | random-example/src/main/kotlin/com/alliander/example/networks/RandomOrg.kt:40-51 | a blank body is the empty list; otherwise success exactly when every line of the trimmed body parses, holding the lines' values in order; every failure is `NotAnInteger` |
| RandomOrg.ShowAll | random-example/src/test/kotlin/com/alliander/example/networks/RandomOrgBodyParserTest.kt:11 | one decimal form per number: a non-empty line ending in a digit that `parseInt` reads back as that number |
| RandomOrg.ParseLinesOfShowAll | random-example/src/main/kotlin/com/alliander/example/networks/RandomOrg.kt:45 | parsing the decimal forms of a list gives the list back |
| RandomOrg.TrimEndOfLine | random-example/src/main/kotlin/com/alliander/example/networks/RandomOrg.kt:41-43 | a line that ends in a non-whitespace character, followed by a newline, is not blank, and `trimEnd` drops just the newline |
| RandomOrg.LinesOfShowAll | random-example/src/main/kotlin/com/alliander/example/networks/RandomOrg.kt:41-44 | numbers written one per line with a final newline are not blank, and their lines are the numbers' decimal forms |
| RandomOrg.ParseRoundTrip | random-example/src/test/kotlin/com/alliander/example/networks/RandomOrgBodyParserTest.kt:9-16 | any list of `Int`s, joined by newlines with a final newline, parses back to itself |
| RandomOrg.TrailingWhitespaceIgnored | random-example/src/main/kotlin/com/alliander/example/networks/RandomOrg.kt:41-43 | whitespace appended to a body does not change what it parses to |

## Left out

- HTTP: `RandomOrg.fetch` sending the request, the `HttpClient`, and `Configuration.toRequest` building the URL are left out. The model starts from the status code and the body of the response, in `RandomOrg.FetchResponse`.
- The `toString` overrides of `Success` and `Failure` are left out. They only format text for display.
- Randomness and the default `Dice(number, faces)` constructor, which wires a random.org source, are left out. A `Dice` is modelled with the list of answers its source gives in place of the `source` field.
- The `Network` and `Source` interfaces are left out as interfaces. `NetworkSource` runs against `StubNetwork`, whose k-th fetch returns a given k-th answer; the random.org network is modelled by `RandomOrg.FetchResponse`, which turns one HTTP response into such an answer. `EvenSource` is modelled as a function of its base source's answer.
- Callbacks are total functions. Their effects are visible only as the `actions` that `Use`/`UseError` record.
- Results.Result.WithDefaultBy: the model cannot show that the producer is not called on a success. It shows only that the value returned is then the data, whatever the producer is.
- Results.Result.OrThrowException: the thrown exception is a value of the `Thrown` variant, not a Kotlin control-flow exception.
- Integers.Modulo: requires `m != 0`, where the source throws ArithmeticException. It states nothing for a negative modulus, though the body models that case as written. An overflowing `result + m` wraps.
- Dice.ToDice: requires that both numerals of a matching string fit in an `Int`. For larger numerals `toInt()` throws NumberFormatException, and `toDice` does not catch it.
- Dice.Single: requires `faces != 0` only for a successful answer, which is where `modulo` throws ArithmeticException; a failing answer with `faces == 0` gives its `RandomSourceError`. For negative faces the value of a success is stated through `Integers.Modulo`, whose own contract covers only a positive modulus. It is private in the source and is modelled as a function of the faces and one source answer.
- Dice.Roll: requires that no successful answer meets `faces == 0`, which is where the source throws ArithmeticException. It also requires one answer per die. That the source is asked exactly `number` times, even after a failure, is therefore assumed by this requirement and not proved. The requirement also rules out a negative `number`, for which `List(number)` throws. For negative faces the pips are stated through `Integers.Modulo`, whose own contract covers only a positive modulus. The `mapError { error as DiceError }` cast is modelled as the identity, because in the model errors already have type `DiceError`.
- KotlinText.ParseInt: accepts only the ASCII digits. Java's `parseInt` also accepts the other Unicode decimal digits.
- KotlinText.IsWhitespace: U+180E is not treated as whitespace. This follows current JVMs.
- `NetworkSource` uses an `ArrayDeque`. In the model it is a `seq` field that the methods reassign.
