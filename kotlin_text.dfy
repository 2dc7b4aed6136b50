/**
 * The pieces of Kotlin's and the JVM's text handling the example application
 * relies on: `Char.isWhitespace`, `isBlank`, `trimEnd`, `split("\n")`,
 * `joinToString("\n")`, `Int.toString()` and `Integer.parseInt`.
 * Decimal digits are the ASCII digits '0'..'9'.
 */
module KotlinText {
  import opened KotlinInt
  import opened Nullables

  // ---------------------------------------------------------------------------
  // Whitespace

  /** Kotlin's `Char.isWhitespace()` on the JVM: Java's `isWhitespace` or
      `isSpaceChar`, i.e. the ASCII controls TAB..CR and FS..US, and the
      space, line and paragraph separators of Unicode. */
  predicate IsWhitespace(c: char)
  {
    || c == ' ' || ('\t' <= c <= '\r') || ('\U{1C}' <= c <= '\U{1F}')
    || c == '\U{A0}' || c == '\U{1680}' || ('\U{2000}' <= c <= '\U{200A}')
    || c == '\U{2028}' || c == '\U{2029}' || c == '\U{202F}' || c == '\U{205F}' || c == '\U{3000}'
  }

  /** `CharSequence.isBlank()`: empty or whitespace only. */
  predicate IsBlank(s: string)
  {
    forall i :: 0 <= i < |s| ==> IsWhitespace(s[i])
  }

  /** `String.trimEnd()`: drops the trailing whitespace. */
  function TrimEnd(s: string): (t: string)
    ensures t <= s
    ensures t == [] || !IsWhitespace(t[|t| - 1])
    ensures IsBlank(s[|t|..])
    decreases |s|
  {
    if s == [] || !IsWhitespace(s[|s| - 1]) then s
    else
      var t := TrimEnd(s[..|s| - 1]);
      assert s[|t|..] == s[..|s| - 1][|t|..] + [s[|s| - 1]];
      t
  }

  /** Trailing whitespace is what `trimEnd` drops: adding more changes nothing. */
  lemma {:induction false} TrimEndIgnoresTrailingWhitespace(s: string, w: string)
    requires IsBlank(w)
    ensures TrimEnd(s + w) == TrimEnd(s)
    decreases |w|
  {
    if w == [] {
      assert s + w == s;
    } else {
      var w' := w[..|w| - 1];
      assert (s + w)[..|s + w| - 1] == s + w';
      TrimEndIgnoresTrailingWhitespace(s, w');
    }
  }

  // ---------------------------------------------------------------------------
  // Splitting and joining lines

  /** `split("\n")`: the pieces between the newlines, empty pieces included;
      a string without a newline is a single piece. */
  function Split(s: string): (parts: seq<string>)
    ensures |parts| >= 1
    ensures forall i :: 0 <= i < |parts| ==> NoNewline(parts[i])
    decreases |s|
  {
    if s == [] then [""]
    else
      var rest := Split(s[1..]);
      if s[0] == '\n' then [""] + rest else [[s[0]] + rest[0]] + rest[1..]
  }

  /** `joinToString(separator = "\n")`. */
  function Join(parts: seq<string>): string
  {
    if parts == [] then ""
    else if |parts| == 1 then parts[0]
    else parts[0] + "\n" + Join(parts[1..])
  }

  predicate NoNewline(s: string)
  {
    forall i :: 0 <= i < |s| ==> s[i] != '\n'
  }

  lemma {:induction false} SplitWithoutNewline(p: string)
    requires NoNewline(p)
    ensures Split(p) == [p]
    decreases |p|
  {
    if p != [] {
      SplitWithoutNewline(p[1..]);
      assert [p[0]] + p[1..] == p;
    }
  }

  lemma {:induction false} SplitAfterFirstLine(p: string, q: string)
    requires NoNewline(p)
    ensures Split(p + "\n" + q) == [p] + Split(q)
    decreases |p|
  {
    var s := p + "\n" + q;
    if p == [] {
      assert s[1..] == q;
    } else {
      assert s[1..] == p[1..] + "\n" + q;
      SplitAfterFirstLine(p[1..], q);
      assert [p[0]] + p[1..] == p;
    }
  }

  /** Splitting undoes joining, when no piece holds a newline. */
  lemma {:induction false} SplitJoin(parts: seq<string>)
    requires |parts| >= 1
    requires forall i :: 0 <= i < |parts| ==> NoNewline(parts[i])
    ensures Split(Join(parts)) == parts
    decreases |parts|
  {
    if |parts| == 1 {
      SplitWithoutNewline(parts[0]);
    } else {
      SplitJoin(parts[1..]);
      SplitAfterFirstLine(parts[0], Join(parts[1..]));
    }
  }

  /** Joining undoes splitting. */
  lemma {:induction false} JoinSplit(s: string)
    ensures Join(Split(s)) == s
    decreases |s|
  {
    if s != [] {
      JoinSplit(s[1..]);
      var rest := Split(s[1..]);
      if s[0] != '\n' {
        if |rest| > 1 {
          assert Join(rest) == rest[0] + "\n" + Join(rest[1..]);
          assert ([[s[0]] + rest[0]] + rest[1..])[1..] == rest[1..];
        }
      } else {
        assert ([""] + rest)[1..] == rest;
      }
    }
  }

  // ---------------------------------------------------------------------------
  // Decimal numerals

  predicate IsDigit(c: char)
  {
    '0' <= c <= '9'
  }

  predicate AllDigits(s: string)
  {
    forall i :: 0 <= i < |s| ==> IsDigit(s[i])
  }

  function DigitChar(d: nat): (c: char)
    requires d < 10
    ensures IsDigit(c)
  {
    ('0' as int + d) as char
  }

  /** The number a string of digits denotes, leading zeros allowed. */
  function DecimalValue(s: string): nat
    requires AllDigits(s)
    decreases |s|
  {
    if s == [] then 0 else DecimalValue(s[..|s| - 1]) * 10 + (s[|s| - 1] as int - '0' as int)
  }

  /** The decimal form of a natural number: digits only, with no leading zero. */
  function ShowNat(n: nat): (s: string)
    ensures |s| >= 1 && AllDigits(s)
    ensures n >= 1 ==> s[0] != '0'
    decreases n
  {
    if n < 10 then [DigitChar(n)] else ShowNat(n / 10) + [DigitChar(n % 10)]
  }

  lemma {:induction false} DecimalValueOfShowNat(n: nat)
    ensures DecimalValue(ShowNat(n)) == n
    decreases n
  {
    if n >= 10 {
      DecimalValueOfShowNat(n / 10);
      var s := ShowNat(n);
      assert s[..|s| - 1] == ShowNat(n / 10);
    }
  }

  lemma {:induction false} DecimalValuePositive(s: string)
    requires |s| >= 1 && AllDigits(s) && s[0] != '0'
    ensures DecimalValue(s) >= 1
    decreases |s|
  {
    if |s| > 1 {
      DecimalValuePositive(s[..|s| - 1]);
    }
  }

  /** A numeral without leading zero is the decimal form of its value. */
  lemma {:induction false} ShowNatOfDecimalValue(s: string)
    requires |s| >= 1 && AllDigits(s) && s[0] != '0'
    ensures ShowNat(DecimalValue(s)) == s
    decreases |s|
  {
    var init := s[..|s| - 1];
    if |s| > 1 {
      DecimalValuePositive(init);
      ShowNatOfDecimalValue(init);
      var n := DecimalValue(s);
      var d := s[|s| - 1] as int - '0' as int;
      DivModUnique(n, 10, DecimalValue(init), d);
      assert init + [s[|s| - 1]] == s;
    }
  }

  // ---------------------------------------------------------------------------
  // Int to and from text

  /** `Int.toString()`: a minus sign for negative numbers, then the digits. */
  function ShowInt(x: Int32): (s: string)
    ensures |s| >= 1 && NoNewline(s) && IsDigit(s[|s| - 1])
  {
    if x < 0 then "-" + ShowNat(-(x as int)) else ShowNat(x)
  }

  /** `Integer.parseInt(s)`: an optional sign, then at least one digit, and the
      value within `Int` range; `None` stands for the NumberFormatException
      the JVM throws otherwise. */
  function ParseInt(s: string): (r: Option<Int32>)
    ensures r.Some? ==> s != [] && forall i :: 0 <= i < |s| ==> !IsWhitespace(s[i])
    ensures (forall i :: 0 <= i < |s| ==> !IsDigit(s[i])) ==> r.None?
  {
    if s == [] then None
    else
      var digits := if s[0] == '-' || s[0] == '+' then s[1..] else s;
      if digits == [] || !AllDigits(digits) then None
      else
        var value: int := if s[0] == '-' then -(DecimalValue(digits) as int) else DecimalValue(digits);
        if MIN_VALUE <= value <= MAX_VALUE then Some(value) else None
  }

  /** The decimal form of every `Int` parses back to it. */
  lemma ParseIntOfShowInt(x: Int32)
    ensures ParseInt(ShowInt(x)) == Some(x)
  {
    var s := ShowInt(x);
    if x < 0 {
      var digits := ShowNat(-(x as int));
      assert s[0] == '-' && s[1..] == digits;
      DecimalValueOfShowNat(-(x as int));
    } else {
      var digits := ShowNat(x);
      assert s == digits && IsDigit(s[0]);
      DecimalValueOfShowNat(x);
    }
  }
}
