/** String helpers shared by the classifier, the upload filter and the
    results panel: prefix and substring tests with the meaning of
    JavaScript's `startsWith` and `includes`, ASCII-only lower-casing,
    and the decimal rendering used for document ids. */
module Text {

  /** `s.startsWith(prefix)` */
  predicate StartsWith(s: string, prefix: string) {
    |prefix| <= |s| && s[..|prefix|] == prefix
  }

  /** `pattern` occurs in `s` starting at position `i`. */
  ghost predicate OccursAt(s: string, pattern: string, i: int) {
    0 <= i && i + |pattern| <= |s| && s[i..i + |pattern|] == pattern
  }

  /** `text.includes(pattern)`: tries every start position from left to right.
      The empty pattern occurs in every text, the empty text holds only the
      empty pattern. */
  predicate Contains(text: string, pattern: string)
    ensures Contains(text, pattern) ==> |pattern| <= |text|
    decreases |text|
  {
    StartsWith(text, pattern) || (|text| > 0 && Contains(text[1..], pattern))
  }

  /** `Contains` holds exactly when the pattern occurs at some position. */
  lemma {:induction false} ContainsIff(text: string, pattern: string)
    ensures Contains(text, pattern) <==> exists i :: OccursAt(text, pattern, i)
    decreases |text|
  {
    if Contains(text, pattern) {
      if StartsWith(text, pattern) {
        assert OccursAt(text, pattern, 0);
      } else {
        ContainsIff(text[1..], pattern);
        var i :| OccursAt(text[1..], pattern, i);
        assert text[1..][i..i + |pattern|] == text[i + 1..i + 1 + |pattern|];
        assert OccursAt(text, pattern, i + 1);
      }
    }
    if i :| OccursAt(text, pattern, i) {
      if i == 0 {
        assert StartsWith(text, pattern);
      } else {
        assert text[1..][i - 1..i - 1 + |pattern|] == text[i..i + |pattern|];
        assert OccursAt(text[1..], pattern, i - 1);
        ContainsIff(text[1..], pattern);
      }
    }
  }

  /** Only the empty pattern occurs in the empty text. */
  lemma EmptyTextContainsOnlyEmpty(pattern: string)
    ensures Contains("", pattern) <==> pattern == ""
  {
  }

  /** A pattern placed between two strings occurs in the result. */
  lemma ContainsInfix(a: string, pattern: string, b: string)
    ensures Contains(a + pattern + b, pattern)
  {
    var t := a + pattern + b;
    assert t[|a|..|a| + |pattern|] == pattern;
    assert OccursAt(t, pattern, |a|);
    ContainsIff(t, pattern);
  }

  /** A pattern with a character the text lacks does not occur in it. */
  lemma MissingCharRefutes(text: string, pattern: string, j: nat)
    requires j < |pattern| && pattern[j] !in text
    ensures !Contains(text, pattern)
  {
    ContainsIff(text, pattern);
    forall i | 0 <= i && i + |pattern| <= |text|
      ensures !OccursAt(text, pattern, i)
    {
      assert text[i..i + |pattern|][j] == text[i + j];
    }
  }

  /** Every character of `s` is drawn from `alphabet`. */
  ghost predicate OnlyChars(s: string, alphabet: set<char>) {
    forall i :: 0 <= i < |s| ==> s[i] in alphabet
  }

  lemma OnlyCharsConcat(a: string, b: string, alphabet: set<char>)
    requires OnlyChars(a, alphabet) && OnlyChars(b, alphabet)
    ensures OnlyChars(a + b, alphabet)
  {
  }

  lemma OnlyCharsExcludes(s: string, alphabet: set<char>, c: char)
    requires OnlyChars(s, alphabet) && c !in alphabet
    ensures c !in s
  {
  }

  /** Patterns that each hold, at the given position, a character outside
      the text's alphabet do not occur in the text. */
  lemma OutsideAlphabetRefutes(text: string, alphabet: set<char>, patterns: seq<string>, at: seq<nat>)
    requires OnlyChars(text, alphabet)
    requires |at| == |patterns|
    requires forall i :: 0 <= i < |patterns| ==> at[i] < |patterns[i]| && patterns[i][at[i]] !in alphabet
    ensures forall i :: 0 <= i < |patterns| ==> !Contains(text, patterns[i])
  {
    forall i | 0 <= i < |patterns|
      ensures !Contains(text, patterns[i])
    {
      MissingCharRefutes(text, patterns[i], at[i]);
    }
  }

  /** When `c` occurs in `a + [c] + b` only between `a` and `b`, a pattern
      holding `c` at `j` occurs only if its neighbours of `c` agree with the
      text's; a disagreeing neighbour refutes it. */
  lemma UniqueCharRefutes(a: string, c: char, b: string, pattern: string, j: nat)
    requires c !in a && c !in b
    requires j < |pattern| && pattern[j] == c
    requires || (0 < j && 0 < |a| && pattern[j - 1] != a[|a| - 1])
             || (j + 1 < |pattern| && 0 < |b| && pattern[j + 1] != b[0])
    ensures !Contains(a + [c] + b, pattern)
  {
    var t := a + [c] + b;
    ContainsIff(t, pattern);
    forall i | 0 <= i && i + |pattern| <= |t|
      ensures !OccursAt(t, pattern, i)
    {
      if i + j < |a| {
        assert t[i + j] == a[i + j];
        assert t[i..i + |pattern|][j] != pattern[j];
      } else if i + j > |a| {
        assert t[i + j] == b[i + j - |a| - 1];
        assert t[i..i + |pattern|][j] != pattern[j];
      } else if 0 < j && 0 < |a| && pattern[j - 1] != a[|a| - 1] {
        assert t[i + j - 1] == a[|a| - 1];
        assert t[i..i + |pattern|][j - 1] != pattern[j - 1];
      } else {
        assert t[i + j + 1] == b[0];
        assert t[i..i + |pattern|][j + 1] != pattern[j + 1];
      }
    }
  }

  predicate IsAsciiUpper(c: char) {
    'A' <= c <= 'Z'
  }

  /** JavaScript's `toLowerCase` restricted to ASCII: A-Z map to a-z and
      every other character is left alone. */
  function LowerChar(c: char): (r: char)
    ensures !IsAsciiUpper(r)
    ensures IsAsciiUpper(c) ==> r as int == c as int + 32
    ensures !IsAsciiUpper(c) ==> r == c
  {
    if IsAsciiUpper(c) then (c as int + 32) as char else c
  }

  function Lower(s: string): (r: string)
    ensures |r| == |s|
    ensures forall i :: 0 <= i < |s| ==> r[i] == LowerChar(s[i])
  {
    if s == [] then [] else [LowerChar(s[0])] + Lower(s[1..])
  }

  predicate HasNoAsciiUpper(s: string) {
    forall i :: 0 <= i < |s| ==> !IsAsciiUpper(s[i])
  }

  /** Lower-casing is the identity exactly on strings without A-Z, so it is
      idempotent. */
  lemma LowerFixedIff(s: string)
    ensures Lower(s) == s <==> HasNoAsciiUpper(s)
    ensures HasNoAsciiUpper(Lower(s))
    ensures Lower(Lower(s)) == Lower(s)
  {
    if HasNoAsciiUpper(s) {
      assert forall i :: 0 <= i < |s| ==> Lower(s)[i] == s[i];
    }
    assert forall i :: 0 <= i < |s| ==> Lower(Lower(s))[i] == Lower(s)[i];
  }

  function DigitChar(d: nat): (c: char)
    requires d < 10
  {
    "0123456789"[d]
  }

  function DigitValue(c: char): nat {
    if '0' <= c <= '9' then c as int - '0' as int else 0
  }

  predicate AllDigits(s: string) {
    forall i :: 0 <= i < |s| ==> '0' <= s[i] <= '9'
  }

  /** The decimal numeral JavaScript writes for a non-negative integer in a
      template literal: no sign, no leading zeros. */
  function Decimal(n: nat): (s: string)
    ensures 1 <= |s|
    ensures AllDigits(s)
    ensures n < 10 <==> |s| == 1
    decreases n
  {
    if n < 10 then [DigitChar(n)] else Decimal(n / 10) + [DigitChar(n % 10)]
  }

  /** Reads a string of digits back as a number. */
  function ParseDecimal(s: string): nat
    decreases |s|
  {
    if s == [] then 0 else 10 * ParseDecimal(s[..|s| - 1]) + DigitValue(s[|s| - 1])
  }

  /** Reading back a written numeral gives the number again. */
  lemma {:induction false} DecimalRoundTrip(n: nat)
    ensures ParseDecimal(Decimal(n)) == n
    decreases n
  {
    var s := Decimal(n);
    if n < 10 {
      DigitRoundTrip(n);
      assert s[..0] == [];
    } else {
      DecimalRoundTrip(n / 10);
      DigitRoundTrip(n % 10);
      assert s[..|s| - 1] == Decimal(n / 10);
    }
  }

  /** Reading back a written digit gives the digit again. */
  lemma DigitRoundTrip(d: nat)
    requires d < 10
    ensures DigitValue(DigitChar(d)) == d
  {
  }

  /** Distinct numbers have distinct numerals. */
  lemma DecimalInjective(m: nat, n: nat)
    requires Decimal(m) == Decimal(n)
    ensures m == n
  {
    DecimalRoundTrip(m);
    DecimalRoundTrip(n);
  }
}
