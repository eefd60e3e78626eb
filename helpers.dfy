/**
 * Small helpers shared by the voting-round code and the score code:
 * pair-count arithmetic, digit strings and whitespace word splitting
 * (src/helpers.cpp, and `numberOfDigits` from src/functions.cpp).
 */
module Helpers {
  import opened Types

  /** Fewest items for which reduced voting prunes anything. */
  const MinimumItemsForPruning: nat := 6

  // ---------------------------------------------------------------------
  // Pair-count arithmetic
  // ---------------------------------------------------------------------

  /** Reference definition: 0 + 1 + ... + n, term by term. */
  function SumUpTo(n: nat): nat
  {
    if n == 0 then 0 else SumUpTo(n - 1) + n
  }

  /** Closed form of 0 + 1 + ... + n. */
  function SumOfFirstIntegers(n: nat): nat
  {
    n * (n + 1) / 2
  }

  /** The closed form agrees with the term-by-term sum. */
  lemma {:induction false} SumOfFirstIntegersIsSum(n: nat)
    ensures SumOfFirstIntegers(n) == SumUpTo(n)
  {
    if n > 0 {
      SumOfFirstIntegersIsSum(n - 1);
      assert n * (n + 1) == (n - 1) * n + 2 * n;
    }
  }

  /**
   * How many circular distances reduced voting prunes: none below the
   * minimum, otherwise one plus half of the excess. Pruning never reaches
   * half the circle.
   */
  function PruningAmount(n: nat): (p: nat)
    ensures n < MinimumItemsForPruning ==> p == 0
    ensures n >= MinimumItemsForPruning ==> 1 <= p && 2 * p + 4 <= n
    ensures n >= MinimumItemsForPruning ==> 2 * p == n - 4 || 2 * p == n - 5
  {
    if n < MinimumItemsForPruning then 0
    else 1 + (n - MinimumItemsForPruning) / 2
  }

  // ---------------------------------------------------------------------
  // Digit strings
  // ---------------------------------------------------------------------

  predicate IsDigit(c: char)
  {
    '0' <= c <= '9'
  }

  /** A non-empty string of decimal digits. */
  predicate IsNumeral(s: string)
  {
    |s| > 0 && forall i :: 0 <= i < |s| ==> IsDigit(s[i])
  }

  /** `isNumber`: scans the characters, stopping at the first non-digit. */
  method IsNumber(s: string) returns (b: bool)
    ensures b == IsNumeral(s)
  {
    if |s| == 0 {
      return false;
    }
    var i := 0;
    while i < |s|
      invariant 0 <= i <= |s|
      invariant forall k :: 0 <= k < i ==> IsDigit(s[k])
    {
      if !IsDigit(s[i]) {
        return false;
      }
      i := i + 1;
    }
    return true;
  }

  function DigitValue(c: char): nat
    requires IsDigit(c)
  {
    c as int - '0' as int
  }

  function DigitChar(d: nat): (c: char)
    requires d < 10
    ensures IsDigit(c) && DigitValue(c) == d
  {
    ('0' as int + d) as char
  }

  /** The decimal reading of a digit string, most significant digit first. */
  function DecimalValue(s: string): nat
    requires forall i :: 0 <= i < |s| ==> IsDigit(s[i])
  {
    if |s| == 0 then 0
    else DecimalValue(s[..|s| - 1]) * 10 + DigitValue(s[|s| - 1])
  }

  /**
   * `parseNumber`: a value exactly when the string is a numeral, and then
   * its decimal reading.
   */
  function ParseNumber(s: string): (r: Option<nat>)
    ensures r.Some? <==> IsNumeral(s)
    ensures r.Some? ==> r.value == DecimalValue(s)
  {
    if IsNumeral(s) then Some(DecimalValue(s)) else None
  }

  function Pow10(k: nat): (r: nat)
    ensures r >= 1
  {
    if k == 0 then 1 else 10 * Pow10(k - 1)
  }

  /**
   * Exact count of decimal digits (1 for zero): the unique width `r` with
   * 10^(r-1) <= n < 10^r.
   */
  function NumberOfDigits(n: nat): (r: nat)
    ensures r >= 1
    ensures n < Pow10(r)
    ensures r > 1 ==> Pow10(r - 1) <= n
    ensures r == 1 <==> n < 10
  {
    if n < 10 then 1 else 1 + NumberOfDigits(n / 10)
  }

  /** A larger number never has fewer digits. */
  lemma {:induction false} NumberOfDigitsMonotone(m: nat, n: nat)
    requires m <= n
    ensures NumberOfDigits(m) <= NumberOfDigits(n)
  {
    if m >= 10 {
      NumberOfDigitsMonotone(m / 10, n / 10);
    }
  }

  /**
   * `std::to_string` of an unsigned value: a numeral without leading
   * zeros, as wide as the number has digits, reading back as the number.
   */
  function NatToString(n: nat): (s: string)
    ensures IsNumeral(s)
    ensures |s| == NumberOfDigits(n)
    ensures DecimalValue(s) == n
    ensures |s| > 1 ==> s[0] != '0'
  {
    if n < 10 then [DigitChar(n)]
    else
      var prefix := NatToString(n / 10);
      var s := prefix + [DigitChar(n % 10)];
      assert s[..|s| - 1] == prefix;
      s
  }

  /** Parsing a printed number gives the number back. */
  lemma ParseNumberOfNatToString(n: nat)
    ensures ParseNumber(NatToString(n)) == Some(n)
  {
  }

  // ---------------------------------------------------------------------
  // Whitespace word splitting
  // ---------------------------------------------------------------------

  /** The characters `std::isspace` accepts in the C locale. */
  predicate IsSpace(c: char)
  {
    c == ' ' || c == '\t' || c == '\n' || c == '\U{000B}' || c == '\U{000C}' || c == '\r'
  }

  predicate NoSpace(s: string)
  {
    forall i :: 0 <= i < |s| ==> !IsSpace(s[i])
  }

  predicate AllSpace(s: string)
  {
    forall i :: 0 <= i < |s| ==> IsSpace(s[i])
  }

  /** The longest prefix without whitespace. */
  function LeadingWord(s: string): (w: string)
    ensures |w| <= |s| && w == s[..|w|]
    ensures NoSpace(w)
    ensures |w| < |s| ==> IsSpace(s[|w|])
  {
    if |s| == 0 || IsSpace(s[0]) then []
    else [s[0]] + LeadingWord(s[1..])
  }

  /**
   * The whitespace-separated words of `s`, in order: what repeated
   * `stream >> word` reads.
   */
  function Words(s: string): (ws: seq<string>)
    ensures forall k :: 0 <= k < |ws| ==> |ws[k]| > 0 && NoSpace(ws[k])
    decreases |s|
  {
    if |s| == 0 then []
    else if IsSpace(s[0]) then Words(s[1..])
    else
      var w := LeadingWord(s);
      [w] + Words(s[|w|..])
  }

  /** A word followed by the end or by whitespace is read as one word. */
  lemma {:induction false} WordsOfWordThen(w: string, t: string)
    requires |w| > 0 && NoSpace(w)
    requires |t| == 0 || IsSpace(t[0])
    ensures Words(w + t) == [w] + Words(t)
  {
    LeadingWordOf(w, t);
    assert (w + t)[|w|..] == t;
  }

  lemma {:induction false} LeadingWordOf(w: string, t: string)
    requires NoSpace(w)
    requires |t| == 0 || IsSpace(t[0])
    ensures LeadingWord(w + t) == w
  {
    if |w| > 0 {
      assert (w + t)[1..] == w[1..] + t;
      LeadingWordOf(w[1..], t);
    } else {
      assert w + t == t;
    }
  }

  lemma WordsSpaceHead(c: char, t: string)
    requires IsSpace(c)
    ensures Words([c] + t) == Words(t)
  {
    assert ([c] + t)[1..] == t;
  }

  /** Leading whitespace is skipped. */
  lemma {:induction false} WordsSkipSpace(sp: string, t: string)
    requires AllSpace(sp)
    ensures Words(sp + t) == Words(t)
  {
    if |sp| > 0 {
      assert (sp + t)[1..] == sp[1..] + t;
      WordsSkipSpace(sp[1..], t);
    } else {
      assert sp + t == t;
    }
  }

  /** Words joined by single spaces. */
  function JoinWords(ws: seq<string>): string
  {
    if |ws| == 0 then []
    else if |ws| == 1 then ws[0]
    else ws[0] + " " + JoinWords(ws[1..])
  }

  /** Splitting words joined by spaces gives the words back. */
  lemma {:induction false} WordsOfJoinWords(ws: seq<string>)
    requires forall k :: 0 <= k < |ws| ==> |ws[k]| > 0 && NoSpace(ws[k])
    ensures Words(JoinWords(ws)) == ws
  {
    if |ws| == 1 {
      WordsOfWordThen(ws[0], []);
      assert ws[0] + [] == ws[0];
    } else if |ws| > 1 {
      var rest := JoinWords(ws[1..]);
      assert JoinWords(ws) == ws[0] + (" " + rest);
      assert Words(" " + rest) == ws[1..] by {
        WordsSkipSpace(" ", rest);
        WordsOfJoinWords(ws[1..]);
      }
      assert Words(ws[0] + (" " + rest)) == [ws[0]] + ws[1..] by {
        WordsOfWordThen(ws[0], " " + rest);
      }
      assert [ws[0]] + ws[1..] == ws;
    }
  }

  /** Whitespace after a collected word ends that word. */
  lemma {:induction false} SpaceEndsWord(words: seq<string>, current: string, s: string, i: nat)
    requires |current| > 0 && NoSpace(current) && i < |s| && IsSpace(s[i])
    ensures words + Words(current + s[i..]) == (words + [current]) + Words("" + s[i + 1..])
  {
    var rest := s[i + 1..];
    assert "" + rest == rest;
    assert s[i..] == [s[i]] + rest;
    WordsOfWordThen(current, s[i..]);
    WordsSpaceHead(s[i], rest);
    var tail := Words(rest);
    assert Words(current + s[i..]) == [current] + tail;
    assert words + ([current] + tail) == (words + [current]) + tail;
  }

  /** Whitespace with no word collected is skipped. */
  lemma {:induction false} SpaceSkipped(current: string, s: string, i: nat)
    requires current == "" && i < |s| && IsSpace(s[i])
    ensures Words(current + s[i..]) == Words("" + s[i + 1..])
  {
    assert s[i..] == [s[i]] + s[i + 1..];
    assert current + s[i..] == s[i..];
    assert "" + s[i + 1..] == s[i + 1..];
    WordsSpaceHead(s[i], s[i + 1..]);
  }

  /** Any other character extends the word being collected. */
  lemma CharExtendsWord(current: string, s: string, i: nat)
    requires i < |s| && NoSpace(current) && !IsSpace(s[i])
    ensures current + s[i..] == (current + [s[i]]) + s[i + 1..]
    ensures NoSpace(current + [s[i]])
  {
    assert s[i..] == [s[i]] + s[i + 1..];
    var longer := current + [s[i]];
    forall k | 0 <= k < |longer|
      ensures !IsSpace(longer[k])
    {
      if k < |current| {
        assert longer[k] == current[k];
      }
    }
  }

  /** One character read: the words still to come are unchanged. */
  lemma ParseWordsStep(words: seq<string>, current: string, s: string, i: nat)
    requires i < |s| && NoSpace(current) && words + Words(current + s[i..]) == Words(s)
    ensures IsSpace(s[i]) && |current| > 0 ==> (words + [current]) + Words("" + s[i + 1..]) == Words(s)
    ensures IsSpace(s[i]) && |current| == 0 ==> words + Words("" + s[i + 1..]) == Words(s)
    ensures !IsSpace(s[i]) ==>
      NoSpace(current + [s[i]]) && words + Words((current + [s[i]]) + s[i + 1..]) == Words(s)
  {
    if IsSpace(s[i]) {
      if |current| > 0 {
        SpaceEndsWord(words, current, s, i);
      } else {
        SpaceSkipped(current, s, i);
      }
    } else {
      CharExtendsWord(current, s, i);
    }
  }

  /**
   * `parseWords`: reads the string character by character, collecting
   * maximal runs of non-whitespace.
   */
  method ParseWords(s: string) returns (words: seq<string>)
    ensures words == Words(s)
  {
    words := [];
    var current := "";
    var i := 0;
    assert current + s[i..] == s;
    while i < |s|
      invariant 0 <= i <= |s|
      invariant NoSpace(current)
      invariant words + Words(current + s[i..]) == Words(s)
    {
      ParseWordsStep(words, current, s, i);
      if IsSpace(s[i]) {
        if |current| > 0 {
          words := words + [current];
        }
        current := "";
      } else {
        current := current + [s[i]];
      }
      i := i + 1;
    }
    assert words + Words(current) == Words(s) by {
      assert current + s[i..] == current;
    }
    if |current| > 0 {
      assert Words(current) == [current] by {
        WordsOfWordThen(current, []);
        assert current + [] == current;
      }
      words := words + [current];
    }
  }
}
