/** The parts of Go's `strings` and `strconv` packages that the admission controller relies on. */
module Text {
  import opened Wrappers

  predicate HasPrefix(s: string, prefix: string) {
    prefix <= s
  }

  predicate OccursAt(s: string, pattern: string, i: nat) {
    i + |pattern| <= |s| && s[i..i + |pattern|] == pattern
  }

  predicate Contains(s: string, pattern: string) {
    exists i :: 0 <= i <= |s| && OccursAt(s, pattern, i)
  }

  lemma OccurrenceStart(s: string, pattern: string, i: nat)
    requires OccursAt(s, pattern, i) && pattern != []
    ensures pattern[0] in s
  {
  }

  lemma OccursInConcat(a: string, b: string, pattern: string, i: nat)
    ensures OccursAt(a, pattern, i) ==> OccursAt(a + b, pattern, i)
    ensures OccursAt(b, pattern, i) ==> OccursAt(a + b, pattern, |a| + i)
    ensures i + |pattern| <= |a| && OccursAt(a + b, pattern, i) ==> OccursAt(a, pattern, i)
    ensures i >= |a| && OccursAt(a + b, pattern, i) ==> OccursAt(b, pattern, i - |a|)
  {
  }

  lemma Straddles(a: string, separator: char, b: string, pattern: string, i: nat)
    requires i <= |a| < i + |pattern| && OccursAt(a + [separator] + b, pattern, i)
    ensures separator in pattern
  {
    assert pattern[|a| - i] == (a + [separator] + b)[i..i + |pattern|][|a| - i];
  }

  /** A pattern without the separator lies on one side of it. */
  lemma ContainsAcross(a: string, separator: char, b: string, pattern: string)
    requires separator !in pattern && pattern != []
    ensures Contains(a + [separator] + b, pattern) <==> Contains(a, pattern) || Contains(b, pattern)
  {
    var whole := a + [separator] + b;
    assert whole == a + ([separator] + b) == (a + [separator]) + b;
    if Contains(a, pattern) {
      var i :| 0 <= i <= |a| && OccursAt(a, pattern, i);
      OccursInConcat(a, [separator] + b, pattern, i);
    }
    if Contains(b, pattern) {
      var i :| 0 <= i <= |b| && OccursAt(b, pattern, i);
      OccursInConcat(a + [separator], b, pattern, i);
    }
    if Contains(whole, pattern) {
      var i :| 0 <= i <= |whole| && OccursAt(whole, pattern, i);
      if i + |pattern| <= |a| {
        OccursInConcat(a, [separator] + b, pattern, i);
      } else if i > |a| {
        OccursInConcat(a + [separator], b, pattern, i);
      } else {
        Straddles(a, separator, b, pattern, i);
      }
    }
  }

  function LowerAscii(c: char): char {
    if 'A' <= c <= 'Z' then c - 'A' + 'a' else c
  }

  /**
   * Whether `strings.ToLower(s)`, or `s` under `strings.EqualFold`, equals the lower-case word `word`.
   * Only ASCII letters fold to the letters of "true", the one word this is used for.
   */
  predicate EqualsIgnoringCase(s: string, word: string) {
    |s| == |word| && forall i :: 0 <= i < |s| ==> LowerAscii(s[i]) == word[i]
  }

  /** The spellings of "true" that count, letter by letter. */
  predicate SpellsTrue(s: string) {
    && |s| == 4 && (s[0] == 't' || s[0] == 'T') && (s[1] == 'r' || s[1] == 'R')
    && (s[2] == 'u' || s[2] == 'U') && (s[3] == 'e' || s[3] == 'E')
  }

  lemma LowerIs(c: char, lower: char, upper: char)
    requires 'a' <= lower <= 'z' && upper as int == lower as int - 32
    ensures LowerAscii(c) == lower <==> c == lower || c == upper
  {
  }

  /** Comparing without regard to case accepts exactly the sixteen spellings of the word. */
  lemma TrueExactly(s: string)
    ensures EqualsIgnoringCase(s, "true") <==> SpellsTrue(s)
  {
    if |s| == 4 {
      LowerIs(s[0], 't', 'T');
      LowerIs(s[1], 'r', 'R');
      LowerIs(s[2], 'u', 'U');
      LowerIs(s[3], 'e', 'E');
      var word := "true";
      assert word[0] == 't' && word[1] == 'r' && word[2] == 'u' && word[3] == 'e';
    }
  }

  /** "True" is how Azure spells it. */
  lemma TrueExamples()
    ensures SpellsTrue("True") && SpellsTrue("TRUE") && SpellsTrue("true")
    ensures !SpellsTrue("False") && !SpellsTrue("") && !SpellsTrue("yes") && !SpellsTrue("trues")
  {
  }

  predicate IsDigit(c: char) {
    '0' <= c <= '9'
  }

  function DigitChar(d: nat): (c: char)
    requires d < 10
    ensures IsDigit(c) && c as int - '0' as int == d
  {
    '0' + d as char
  }

  function PrintNat(n: nat): (s: string)
    ensures |s| > 0 && forall c | c in s :: IsDigit(c)
  {
    if n < 10 then [DigitChar(n)] else PrintNat(n / 10) + [DigitChar(n % 10)]
  }

  /** The text of an integer under the `%d` verb. */
  function PrintInt(n: int): string {
    if n < 0 then "-" + PrintNat(-n) else PrintNat(n)
  }

  function DigitsValue(s: string): nat
    requires forall c | c in s :: IsDigit(c)
  {
    if |s| == 0 then 0
    else
      assert IsDigit(s[|s| - 1]);
      DigitsValue(s[..|s| - 1]) * 10 + (s[|s| - 1] as int - '0' as int)
  }

  datatype NumError = Syntax | Range

  const MAX_INT32: int := 0x7fff_ffff
  const MAX_INT64: int := 0x7fff_ffff_ffff_ffff

  /** `strconv.ParseInt(s, 10, …)` for the signed type whose greatest value is `max`. */
  function ParseInt(s: string, max: int): Result<int, NumError> {
    var signed := |s| > 0 && (s[0] == '+' || s[0] == '-');
    var digits := if signed then s[1..] else s;
    if |digits| == 0 || exists c | c in digits :: !IsDigit(c) then Failure(Syntax)
    else
      var magnitude: int := DigitsValue(digits);
      var value := if signed && s[0] == '-' then -magnitude else magnitude;
      if -max - 1 <= value <= max then Success(value) else Failure(Range)
  }

  lemma {:induction false} DigitsOfPrint(n: nat)
    ensures DigitsValue(PrintNat(n)) == n
  {
    if n >= 10 {
      DigitsOfPrint(n / 10);
      var s := PrintNat(n);
      assert s[..|s| - 1] == PrintNat(n / 10);
    } else {
      assert PrintNat(n)[..0] == [];
    }
  }

  /** Printing and parsing are inverse exactly on the range of the parsed type. */
  lemma ParsePrint(n: int, max: int)
    ensures ParseInt(PrintInt(n), max) == if -max - 1 <= n <= max then Success(n) else Failure(Range)
  {
    if n < 0 {
      DigitsOfPrint(-n);
      assert PrintInt(n)[1..] == PrintNat(-n);
    } else {
      DigitsOfPrint(n);
      assert PrintNat(n)[0] in PrintNat(n);
    }
  }

  lemma TwoDigits(a: char, b: char)
    requires IsDigit(a) && IsDigit(b)
    ensures (forall c | c in [a, b] :: IsDigit(c)) && DigitsValue([a, b]) == 10 * (a as int - 48) + (b as int - 48)
  {
    var one, two := [a], [a, b];
    assert one[..0] == [] && two[..1] == one;
    assert DigitsValue(one) == DigitsValue([]) * 10 + (a as int - 48);
    assert forall c | c in two :: IsDigit(c);
  }

  /** A character that is no digit makes a text no number, but for one sign in front. */
  lemma BadCharacter(s: string, i: nat, max: int)
    requires i < |s| && !('0' <= s[i] <= '9') && (i == 0 ==> s[0] != '+' && s[0] != '-')
    ensures ParseInt(s, max) == Failure(Syntax)
  {
    var digits := if s[0] == '+' || s[0] == '-' then s[1..] else s;
    var c := s[i];
    assert c in digits && !IsDigit(c) by {
      if s[0] == '+' || s[0] == '-' {
        assert digits[i - 1] == c;
      }
    }
  }

  /** Numbers are read and written in the decimal system, with an optional sign. */
  lemma NumberExamples(max: int)
    requires max >= 100
    ensures ParseInt("16", max) == Success(16) && ParseInt("+16", max) == Success(16)
    ensures ParseInt("-16", max) == Success(-16) && ParseInt("16", 15) == Failure(Range)
    ensures ParseInt("", max) == ParseInt("-", max) == ParseInt("1a", max) == ParseInt("--1", max) == Failure(Syntax)
    ensures PrintInt(0) == "0" && PrintInt(16) == "16" && PrintInt(-16) == "-16"
  {
    TwoDigits('1', '6');
    assert "+16"[1..] == "16" && "-16"[1..] == "16";
    assert PrintNat(16) == PrintNat(1) + [DigitChar(6)];
    assert "-"[1..] == "";
    BadCharacter("1a", 1, max);
    BadCharacter("--1", 1, max);
  }

  lemma IntegerRanges()
    ensures MAX_INT32 == 2147483647 && MAX_INT64 == 9223372036854775807
  {
  }
}
