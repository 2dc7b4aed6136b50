/**
 * The part of the random.org client that does not touch the network: turning
 * an HTTP response into a result (`bodyToResult`) and parsing its body, one
 * integer per line (`BodyParser.parse`).
 */
module RandomOrg {
  import opened KotlinInt
  import opened KotlinText
  import opened Nullables
  import opened Results
  import opened NetworkInterface
  import ResultExtensions

  /** `bodyToResult`: the body of a response with status 200, `NotOK` for any
      other status. */
  function BodyToResult(statusCode: int, body: string): (r: Result<NetworkError, string>)
    ensures r.Success? <==> statusCode == 200
    ensures r.Success? ==> r.data == body
    ensures r.Failure? ==> r.error == NotOK
  {
    if statusCode == 200 then Success(body) else Failure(NotOK)
  }

  /** What `fetch` makes of the response `client.send` returned:
      `bodyToResult` followed by the body parser. */
  function FetchResponse(statusCode: int, body: string): (r: Result<NetworkError, seq<Int32>>)
    ensures statusCode != 200 ==> r == Failure(NotOK)
    ensures statusCode == 200 ==> r == Parse(body)
    ensures r == Failure(NotOK) <==> statusCode != 200
    ensures r.Failure? ==> r.error != Generic
  {
    BodyToResult(statusCode, body).AndThen(Parse)
  }

  /** The `map(Integer::parseInt)` step over the lines: `None` when some line
      makes `parseInt` throw, otherwise the parsed lines in order. */
  function ParseLines(lines: seq<string>): (r: Option<seq<Int32>>)
    ensures r.Some? <==> forall i :: 0 <= i < |lines| ==> ParseInt(lines[i]).Some?
    ensures r.Some? ==> |r.value| == |lines|
    ensures r.Some? ==> forall i :: 0 <= i < |lines| ==> ParseInt(lines[i]) == Some(r.value[i])
    decreases |lines|
  {
    if lines == [] then Some([])
    else
      match ParseInt(lines[0])
      case None => None
      case Some(x) =>
        match ParseLines(lines[1..])
        case None => None
        case Some(xs) => Some([x] + xs)
  }

  /** The lines of a body: `trimEnd()` then `split("\n")`. */
  function Lines(input: string): seq<string>
  {
    Split(TrimEnd(input))
  }

  /** `BodyParser.parse`: a blank body is the empty list; otherwise the body,
      without its trailing whitespace, is split at newlines and every line
      must be an `Int`, or the result is `NotAnInteger`. */
  function Parse(input: string): (r: Result<NetworkError, seq<Int32>>)
    ensures IsBlank(input) ==> r == Success([])
    ensures r.Failure? ==> r.error == NotAnInteger
    ensures !IsBlank(input) ==>
              (r.Success? <==> forall i :: 0 <= i < |Lines(input)| ==> ParseInt(Lines(input)[i]).Some?)
    ensures !IsBlank(input) && r.Success? ==>
              && |r.data| == |Lines(input)|
              && forall i :: 0 <= i < |Lines(input)| ==> ParseInt(Lines(input)[i]) == Some(r.data[i])
  {
    if IsBlank(input) then Success([])
    else
      var parsed := ParseLines(Lines(input));
      if parsed.None? then Failure(NotAnInteger)
      else ResultExtensions.ToResult(Some(parsed.value)).MapError(_ => Generic)
  }

  /** The decimal forms of the numbers, as `joinToString` writes them: each
      one a single non-empty line ending in a digit, which `parseInt` reads
      back as its number. */
  function ShowAll(numbers: seq<Int32>): (parts: seq<string>)
    ensures |parts| == |numbers|
    ensures forall i :: 0 <= i < |numbers| ==>
              |parts[i]| >= 1 && NoNewline(parts[i]) && IsDigit(parts[i][|parts[i]| - 1])
    ensures forall i :: 0 <= i < |numbers| ==> ParseInt(parts[i]) == Some(numbers[i])
  {
    var parts := seq(|numbers|, i requires 0 <= i < |numbers| => ShowInt(numbers[i]));
    assert forall i :: 0 <= i < |numbers| ==> ParseInt(parts[i]) == Some(numbers[i]) by {
      forall i | 0 <= i < |numbers|
        ensures ParseInt(parts[i]) == Some(numbers[i])
      {
        ParseIntOfShowInt(numbers[i]);
      }
    }
    parts
  }

  lemma {:induction false} JoinEndsWithLastPart(parts: seq<string>)
    requires |parts| >= 1 && |parts[|parts| - 1]| >= 1
    ensures |Join(parts)| >= 1
    ensures Join(parts)[|Join(parts)| - 1] == parts[|parts| - 1][|parts[|parts| - 1]| - 1]
    decreases |parts|
  {
    if |parts| > 1 {
      JoinEndsWithLastPart(parts[1..]);
    }
  }

  /** A line ending in a non-blank character, followed by a newline, is not
      blank, and trimming drops just the newline. */
  lemma TrimEndOfLine(text: string)
    requires |text| >= 1 && !IsWhitespace(text[|text| - 1])
    ensures !IsBlank(text + "\n")
    ensures TrimEnd(text + "\n") == text
  {
    assert (text + "\n")[|text| - 1] == text[|text| - 1];
    TrimEndIgnoresTrailingWhitespace(text, "\n");
  }

  lemma ParseLinesOfShowAll(numbers: seq<Int32>)
    ensures ParseLines(ShowAll(numbers)) == Some(numbers)
  {
    var parsed := ParseLines(ShowAll(numbers));
    assert parsed.Some?;
    assert parsed.value == numbers;
  }

  /** Any list of `Int`s, written one per line with a final newline, parses
      back to itself. */
  lemma ParseRoundTrip(numbers: seq<Int32>)
    ensures Parse(Join(ShowAll(numbers)) + "\n") == Success(numbers)
  {
    if numbers != [] {
      LinesOfShowAll(numbers);
      ParseLinesOfShowAll(numbers);
    } else {
      assert IsWhitespace((Join(ShowAll(numbers)) + "\n")[0]);
    }
  }

  /** The lines of the written numbers are their decimal forms. */
  lemma LinesOfShowAll(numbers: seq<Int32>)
    requires numbers != []
    ensures !IsBlank(Join(ShowAll(numbers)) + "\n")
    ensures Lines(Join(ShowAll(numbers)) + "\n") == ShowAll(numbers)
  {
    var text := Join(ShowAll(numbers));
    ShownTextEndsInDigit(numbers);
    DigitIsNotWhitespace(text[|text| - 1]);
    TrimEndOfLine(text);
    SplitJoin(ShowAll(numbers));
  }

  /** The written numbers end in the last digit of the last number. */
  lemma ShownTextEndsInDigit(numbers: seq<Int32>)
    requires numbers != []
    ensures |Join(ShowAll(numbers))| >= 1
    ensures IsDigit(Join(ShowAll(numbers))[|Join(ShowAll(numbers))| - 1])
  {
    var parts := ShowAll(numbers);
    var lastPart := parts[|parts| - 1];
    assert |lastPart| >= 1 && IsDigit(lastPart[|lastPart| - 1]);
    JoinEndsWithLastPart(parts);
  }

  lemma DigitIsNotWhitespace(c: char)
    requires IsDigit(c)
    ensures !IsWhitespace(c)
  {
  }

  /** Whitespace at the end of the body does not change what it parses to. */
  lemma TrailingWhitespaceIgnored(input: string, w: string)
    requires IsBlank(w)
    ensures Parse(input + w) == Parse(input)
  {
    if !IsBlank(input) {
      var i :| 0 <= i < |input| && !IsWhitespace(input[i]);
      assert (input + w)[i] == input[i];
      TrimEndIgnoresTrailingWhitespace(input, w);
    } else {
      assert IsBlank(input + w) by {
        forall j | 0 <= j < |input + w|
          ensures IsWhitespace((input + w)[j])
        {
          if j >= |input| {
            assert (input + w)[j] == w[j - |input|];
          }
        }
      }
    }
  }
}
