/**
 * The dice of the example application: parsing a specification `NdF`
 * (`String.toDice`), one throw of a die from a source integer (`single`),
 * collecting throws into a list (`combine`) and the total of a roll (`roll`).
 *
 * A `Dice` is asked for `number` integers by its source; the model takes the
 * source's answers to those `number` questions as a list.
 */
module Dice {
  import opened KotlinInt
  import opened KotlinText
  import opened Nullables
  import opened Results
  import opened SourceInterface
  import opened Integers

  datatype DiceError = ParseError(input: string) | RandomSourceError(error: SourceError)
  {
    /** The `kind` each subclass passes to `DiceError`. */
    function Kind(): (k: string)
      ensures k == "ParseError" <==> ParseError?
      ensures k == "SourceError" <==> RandomSourceError?
    {
      match this
      case ParseError(_) => "ParseError"
      case RandomSourceError(_) => "SourceError"
    }
  }

  datatype Dice = Dice(number: Int32, faces: Int32)

  // ---------------------------------------------------------------------------
  // Parsing `NdF`

  /** `[1-9]\d*`: a decimal numeral without leading zero. */
  predicate IsPositiveNumeral(s: string)
  {
    |s| >= 1 && '1' <= s[0] <= '9' && AllDigits(s)
  }

  /** The whole string matches `^([1-9]\d*)d([1-9]\d*)$`. */
  ghost predicate MatchesDicePattern(s: string)
  {
    exists k :: 0 <= k < |s| && s[k] == 'd' && IsPositiveNumeral(s[..k]) && IsPositiveNumeral(s[k + 1..])
  }

  /** The position of the first 'd'. */
  function IndexOfD(s: string): (r: Option<nat>)
    ensures r.Some? ==> r.value < |s| && s[r.value] == 'd'
    ensures r.Some? ==> forall j :: 0 <= j < r.value ==> s[j] != 'd'
    ensures r.None? ==> forall j :: 0 <= j < |s| ==> s[j] != 'd'
    decreases |s|
  {
    if s == [] then None
    else if s[0] == 'd' then Some(0)
    else
      match IndexOfD(s[1..])
      case None => None
      case Some(k) => Some(k + 1)
  }

  /** The two groups of the dice pattern, when the string matches it. */
  function DiceGroups(s: string): (g: Option<(string, string)>)
    ensures g.Some? <==> MatchesDicePattern(s)
    ensures g.Some? ==> IsPositiveNumeral(g.value.0) && IsPositiveNumeral(g.value.1)
    ensures g.Some? ==> s == g.value.0 + "d" + g.value.1
  {
    var g := match IndexOfD(s)
      case None => None
      case Some(k) =>
        if IsPositiveNumeral(s[..k]) && IsPositiveNumeral(s[k + 1..]) then Some((s[..k], s[k + 1..])) else None;
    assert MatchesDicePattern(s) ==> g.Some? by {
      if MatchesDicePattern(s) {
        var k :| 0 <= k < |s| && s[k] == 'd' && IsPositiveNumeral(s[..k]) && IsPositiveNumeral(s[k + 1..]);
        FirstDIsTheSeparator(s, k);
      }
    }
    assert g.Some? ==> s == g.value.0 + "d" + g.value.1 by {
      if g.Some? {
        var k := IndexOfD(s).value;
        assert s == s[..k] + "d" + s[k + 1..];
      }
    }
    g
  }

  lemma FirstDIsTheSeparator(s: string, k: nat)
    requires k < |s| && s[k] == 'd' && IsPositiveNumeral(s[..k])
    ensures IndexOfD(s) == Some(k)
  {
    assert forall j :: 0 <= j < k ==> s[..k][j] == s[j];
  }

  /** A string that `toDice` can handle: when it matches the pattern, its two
      numbers fit in an `Int` (otherwise `toInt` throws, uncaught). */
  predicate GroupsFitInt(s: string)
  {
    var g := DiceGroups(s);
    g.Some? ==> DecimalValue(g.value.0) <= MAX_VALUE && DecimalValue(g.value.1) <= MAX_VALUE
  }

  /** `String.toDice()`: a string matching the pattern becomes the dice it
      describes; any other string is a `ParseError` holding the input. */
  function ToDice(s: string): (r: Result<DiceError, Dice>)
    requires GroupsFitInt(s)
    ensures r.Success? <==> MatchesDicePattern(s)
    ensures r.Failure? ==> r.error == ParseError(s)
    ensures r.Success? ==> r.data.number >= 1 && r.data.faces >= 1
    ensures r.Success? ==> s == ShowNat(r.data.number) + "d" + ShowNat(r.data.faces)
  {
    match DiceGroups(s)
    case None => Failure(ParseError(s))
    case Some((numberGroup, facesGroup)) =>
      DecimalValuePositive(numberGroup);
      DecimalValuePositive(facesGroup);
      ShowNatOfDecimalValue(numberGroup);
      ShowNatOfDecimalValue(facesGroup);
      Success(Dice(DecimalValue(numberGroup), DecimalValue(facesGroup)))
  }

  lemma SplitAtDIsUnique(a: string, b: string, a': string, b': string)
    requires AllDigits(a) && AllDigits(a')
    requires a + "d" + b == a' + "d" + b'
    ensures a == a' && b == b'
  {
    var s := a + "d" + b;
    assert s[|a|] == 'd' && s[|a'|] == 'd';
    assert a == s[..|a|] == a';
    assert b == s[|a| + 1..] == b';
  }

  /** `"<N>d<F>"` parses to the dice with N dice of F faces. */
  lemma ToDiceOfSpecification(number: Int32, faces: Int32)
    requires number >= 1 && faces >= 1
    ensures GroupsFitInt(ShowNat(number) + "d" + ShowNat(faces))
    ensures ToDice(ShowNat(number) + "d" + ShowNat(faces)) == Success(Dice(number, faces))
  {
    SpecificationFitsInt(number, faces);
    var d := ToDice(ShowNat(number) + "d" + ShowNat(faces)).data;
    ShowNatIsInjective(number, d.number, faces, d.faces);
  }

  /** The numerals of `"<N>d<F>"` are those of N and F, so they fit in an `Int`. */
  lemma SpecificationFitsInt(number: Int32, faces: Int32)
    requires number >= 1 && faces >= 1
    ensures DiceGroups(ShowNat(number) + "d" + ShowNat(faces)) == Some((ShowNat(number), ShowNat(faces)))
    ensures GroupsFitInt(ShowNat(number) + "d" + ShowNat(faces))
  {
    DiceGroupsOfNumerals(ShowNat(number), ShowNat(faces));
    DecimalValueOfShowNat(number);
    DecimalValueOfShowNat(faces);
  }

  /** Two specifications that read the same describe the same dice. */
  lemma ShowNatIsInjective(number: nat, number': nat, faces: nat, faces': nat)
    requires ShowNat(number) + "d" + ShowNat(faces) == ShowNat(number') + "d" + ShowNat(faces')
    ensures number == number' && faces == faces'
  {
    SplitAtDIsUnique(ShowNat(number), ShowNat(faces), ShowNat(number'), ShowNat(faces'));
    DecimalValueOfShowNat(number);
    DecimalValueOfShowNat(number');
    DecimalValueOfShowNat(faces);
    DecimalValueOfShowNat(faces');
  }

  /** The groups of `a + "d" + b` are `a` and `b`. */
  lemma DiceGroupsOfNumerals(a: string, b: string)
    requires IsPositiveNumeral(a) && IsPositiveNumeral(b)
    ensures DiceGroups(a + "d" + b) == Some((a, b))
  {
    var s := a + "d" + b;
    assert s[..|a|] == a && s[|a| + 1..] == b && s[|a|] == 'd';
    var g := DiceGroups(s);
    SplitAtDIsUnique(a, b, g.value.0, g.value.1);
  }

  // ---------------------------------------------------------------------------
  // Rolling

  /** `single()`: one answer of the source becomes one die, `modulo(faces) + 1`
      with `Int` arithmetic, or a `RandomSourceError`. `modulo` throws for
      `faces == 0`, but the `map` calls only reach it on a success. */
  function Single(faces: Int32, answer: Result<SourceError, Int32>): (r: Result<DiceError, Int32>)
    requires answer.Success? ==> faces != 0
    ensures r.Success? <==> answer.Success?
    ensures answer.Failure? ==> r.error == RandomSourceError(answer.error)
    ensures answer.Success? ==> r.data == Wrap32(Modulo(answer.data, faces) as int + 1)
    ensures faces > 0 && answer.Success? ==> r.data == answer.data % faces + 1
    ensures faces > 0 && answer.Success? ==> 1 <= r.data <= faces
  {
    match answer
    case Failure(e) => Failure(RandomSourceError(e))
    case Success(n) => Success(Wrap32(Modulo(n, faces) as int + 1))
  }

  /** `single()` is the chain `mapError(::RandomSourceError)`, `map(modulo)`,
      `map(+ 1)` wherever `modulo` is defined. */
  lemma SingleIsTheChain(faces: Int32, answer: Result<SourceError, Int32>)
    requires faces != 0
    ensures Single(faces, answer)
         == answer.MapError(e => RandomSourceError(e)).Map(n => Modulo(n, faces)).Map(n => Wrap32(n as int + 1))
  {
  }

  /** The faces of a roll are usable for every answer: `modulo` throws
      ArithmeticException when a successful answer meets `faces == 0`. */
  predicate ModuloIsDefined(faces: Int32, answers: seq<Result<SourceError, Int32>>)
  {
    faces != 0 || forall i :: 0 <= i < |answers| ==> answers[i].Failure?
  }

  /** `combine`: appends the data of `element` to the list in `accumulator`;
      the first failure is kept. */
  function Combine(accumulator: Result<DiceError, seq<Int32>>, element: Result<DiceError, Int32>): (r: Result<DiceError, seq<Int32>>)
    ensures accumulator.Failure? ==> r == accumulator
    ensures accumulator.Success? && element.Failure? ==> r == Failure(element.error)
    ensures accumulator.Success? && element.Success? ==> r == Success(accumulator.data + [element.data])
  {
    accumulator.AndThen(xs => element.Map(x => xs + [x]))
  }

  /** `fold(accumulator, ::combine)` over a list, from left to right. */
  function Fold(accumulator: Result<DiceError, seq<Int32>>, elements: seq<Result<DiceError, Int32>>): Result<DiceError, seq<Int32>>
    decreases |elements|
  {
    if elements == [] then accumulator else Fold(Combine(accumulator, elements[0]), elements[1..])
  }

  lemma {:induction false} FoldOfFailure(e: DiceError, elements: seq<Result<DiceError, Int32>>)
    ensures Fold(Failure(e), elements) == Failure(e)
    decreases |elements|
  {
    if elements != [] {
      FoldOfFailure(e, elements[1..]);
    }
  }

  /** Folding successes appends their data, in order. */
  lemma {:induction false} FoldOfSuccesses(xs: seq<Int32>, elements: seq<Result<DiceError, Int32>>)
    requires AllSucceed(elements)
    ensures Fold(Success(xs), elements) == Success(xs + Values(elements))
    decreases |elements|
  {
    if elements == [] {
      assert xs + Values(elements) == xs;
    } else {
      FoldOfSuccesses(xs + [elements[0].data], elements[1..]);
      assert (xs + [elements[0].data]) + Values(elements[1..]) == xs + Values(elements);
    }
  }

  /** Folding from a success ends in the first failing element's error. */
  lemma {:induction false} FoldStopsAtFirstFailure(xs: seq<Int32>, elements: seq<Result<DiceError, Int32>>, k: int)
    requires FirstFailureAt(elements, k)
    ensures Fold(Success(xs), elements) == Failure(elements[k].error)
    decreases |elements|
  {
    if k == 0 {
      FoldOfFailure(elements[0].error, elements[1..]);
    } else {
      assert FirstFailureAt(elements[1..], k - 1);
      FoldStopsAtFirstFailure(xs + [elements[0].data], elements[1..], k - 1);
    }
  }

  /** The dice the source's answers give, `answer.modulo(faces) + 1` each in
      `Int` arithmetic; for positive faces that is `answer % faces + 1`. */
  ghost function Pips(faces: Int32, answers: seq<Result<SourceError, Int32>>): (pips: seq<Int32>)
    requires ModuloIsDefined(faces, answers) && AllSucceed(answers)
    ensures |pips| == |answers|
    ensures faces > 0 ==> forall i :: 0 <= i < |answers| ==> pips[i] == answers[i].data % faces + 1
    ensures faces > 0 ==> forall i :: 0 <= i < |answers| ==> 1 <= pips[i] <= faces
  {
    seq(|answers|, i requires 0 <= i < |answers| => Wrap32(Modulo(answers[i].data, faces) as int + 1))
  }

  /** `roll()`: one `single()` per die, in order, each asking the source once
      even after an earlier one failed; the first failure is the result,
      otherwise the `Int` sum of the dice. */
  function Roll(dice: Dice, answers: seq<Result<SourceError, Int32>>): (r: Result<DiceError, Int32>)
    requires |answers| == dice.number
    requires ModuloIsDefined(dice.faces, answers)
    ensures forall k :: FirstFailureAt(answers, k) ==> r == Failure(RandomSourceError(answers[k].error))
    ensures r.Success? <==> AllSucceed(answers)
    ensures AllSucceed(answers) ==> r.data == Wrap32(Sum(Pips(dice.faces, answers)))
  {
    var total := Fold(Success([]), Singles(dice.faces, answers)).Map(xs => SumInt32(xs)).MapError(error => error);
    assert forall k :: FirstFailureAt(answers, k) ==> total == Failure(RandomSourceError(answers[k].error)) by {
      forall k | FirstFailureAt(answers, k)
        ensures total == Failure(RandomSourceError(answers[k].error))
      {
        FoldOfSinglesFails(dice.faces, answers, k);
      }
    }
    assert !AllSucceed(answers) ==> total.Failure? by {
      if !AllSucceed(answers) {
        FoldOfSinglesFails(dice.faces, answers, FirstFailure(answers));
      }
    }
    assert AllSucceed(answers) ==> total.Success? && total.data == SumInt32(Values(Singles(dice.faces, answers))) by {
      if AllSucceed(answers) {
        FoldOfSinglesSucceeds(dice.faces, answers);
      }
    }
    assert AllSucceed(answers) ==> total.data == Wrap32(Sum(Pips(dice.faces, answers))) by {
      if AllSucceed(answers) {
        ValuesOfSinglesArePips(dice.faces, answers);
        SumInt32IsWrappedSum(Values(Singles(dice.faces, answers)));
      }
    }
    total
  }

  /** The first failing answer stops the fold of the throws. */
  lemma FoldOfSinglesFails(faces: Int32, answers: seq<Result<SourceError, Int32>>, k: int)
    requires ModuloIsDefined(faces, answers) && FirstFailureAt(answers, k)
    ensures Fold(Success([]), Singles(faces, answers)) == Failure(RandomSourceError(answers[k].error))
  {
    var singles := Singles(faces, answers);
    assert FirstFailureAt(singles, k);
    FoldStopsAtFirstFailure([], singles, k);
  }

  /** When every answer succeeds, the fold collects all throws. */
  lemma FoldOfSinglesSucceeds(faces: Int32, answers: seq<Result<SourceError, Int32>>)
    requires ModuloIsDefined(faces, answers) && AllSucceed(answers)
    ensures AllSucceed(Singles(faces, answers))
    ensures Fold(Success([]), Singles(faces, answers)) == Success(Values(Singles(faces, answers)))
  {
    var singles := Singles(faces, answers);
    FoldOfSuccesses([], singles);
    assert [] + Values(singles) == Values(singles);
  }

  /** The throws of successful answers are their pips. */
  lemma ValuesOfSinglesArePips(faces: Int32, answers: seq<Result<SourceError, Int32>>)
    requires ModuloIsDefined(faces, answers) && AllSucceed(answers)
    ensures AllSucceed(Singles(faces, answers))
    ensures Values(Singles(faces, answers)) == Pips(faces, answers)
  {
  }

  /** `List(number) { single() }`: one throw per answer of the source, in
      order; a failing answer becomes its `RandomSourceError`, a successful
      one its pip `answer.modulo(faces) + 1`. */
  function Singles(faces: Int32, answers: seq<Result<SourceError, Int32>>): (singles: seq<Result<DiceError, Int32>>)
    requires ModuloIsDefined(faces, answers)
    ensures |singles| == |answers|
    ensures forall i :: 0 <= i < |answers| ==> (singles[i].Success? <==> answers[i].Success?)
    ensures forall i :: 0 <= i < |answers| && answers[i].Failure? ==>
              singles[i] == Failure(RandomSourceError(answers[i].error))
    ensures forall i :: 0 <= i < |answers| && answers[i].Success? ==>
              singles[i] == Success(Wrap32(Modulo(answers[i].data, faces) as int + 1))
    ensures faces > 0 ==> forall i :: 0 <= i < |answers| && answers[i].Success? ==>
              singles[i] == Success(answers[i].data % faces + 1)
  {
    seq(|answers|, i requires 0 <= i < |answers| => Single(faces, answers[i]))
  }

  /** The position of the first failure in a list that is not all successes. */
  function FirstFailure<E, V>(rs: seq<Result<E, V>>): (k: nat)
    requires !AllSucceed(rs)
    ensures FirstFailureAt(rs, k)
    decreases |rs|
  {
    if rs[0].Failure? then 0 else FirstFailure(rs[1..]) + 1
  }

  lemma {:induction false} SumOfPipsBounds(pips: seq<Int32>, faces: Int32)
    requires forall i :: 0 <= i < |pips| ==> 1 <= pips[i] <= faces
    ensures |pips| <= Sum(pips) <= |pips| * faces
    decreases |pips|
  {
    if pips != [] {
      var init := pips[..|pips| - 1];
      SumOfPipsBounds(init, faces);
      MulDistributes(|init|, 1, faces);
    }
  }

  /** Each die of an `NdF` roll is in [1, F]: when the highest total fits in an
      `Int`, the roll is the plain sum, between N and N * F. */
  lemma RollWithinBounds(dice: Dice, answers: seq<Result<SourceError, Int32>>)
    requires |answers| == dice.number && dice.faces >= 1
    requires AllSucceed(answers)
    requires dice.number * dice.faces <= MAX_VALUE
    ensures Roll(dice, answers).Success?
    ensures Roll(dice, answers).data == Sum(Pips(dice.faces, answers))
    ensures dice.number <= Roll(dice, answers).data <= dice.number * dice.faces
  {
    var pips := Pips(dice.faces, answers);
    SumOfPipsBounds(pips, dice.faces);
  }
}
