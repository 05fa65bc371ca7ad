/** Character classes, literal matching, maximal runs and decimal numerals:
    the building blocks of the hand-written regular-expression matchers. */
module Text {

  predicate IsDigit(c: char) { '0' <= c <= '9' }

  /** `[1-9]` */
  predicate IsNonZeroDigit(c: char) { '1' <= c <= '9' }

  /** `[a-zA-Z[0-9]`: the class spells out `[` once more inside the brackets,
      which Python's `re` reads as a literal `[`. */
  predicate IsHandleChar(c: char)
  {
    ('a' <= c <= 'z') || ('A' <= c <= 'Z') || c == '[' || IsDigit(c)
  }

  /** `[^/]` */
  predicate IsNotSlash(c: char) { c != '/' }

  /** `[/]` */
  predicate IsSlash(c: char) { c == '/' }

  /** `[/#]` */
  predicate IsSlashOrHash(c: char) { c == '/' || c == '#' }

  /** Every character of `s[i..j]` satisfies `P`. */
  ghost predicate AllIn(s: string, i: int, j: int, P: char -> bool)
    requires 0 <= i <= j <= |s|
  {
    forall k :: i <= k < j ==> P(s[k])
  }

  /** The end of the longest run of `P`-characters starting at `i`: what a
      greedy `P*` consumes. */
  function RunEnd(s: string, i: nat, P: char -> bool): (j: nat)
    requires i <= |s|
    ensures i <= j <= |s|
    ensures AllIn(s, i, j, P)
    ensures j == |s| || !P(s[j])
    decreases |s| - i
  {
    if i < |s| && P(s[i]) then RunEnd(s, i + 1, P) else i
  }

  /** A run end is determined by its two defining properties. */
  lemma RunEndUnique(s: string, i: nat, j: nat, P: char -> bool)
    requires i <= j <= |s|
    requires AllIn(s, i, j, P)
    requires j == |s| || !P(s[j])
    ensures RunEnd(s, i, P) == j
  {
  }

  /** The literal `lit` occurs in `s` starting at position `i`. */
  predicate LiteralAt(s: string, i: nat, lit: string)
  {
    i + |lit| <= |s| && LiteralFrom(s, i, lit, 0)
  }

  /** Characters `k..` of `lit` agree with `s` from `i + k`; written one
      character at a time so that concrete strings can be unfolded. */
  predicate LiteralFrom(s: string, i: nat, lit: string, k: nat)
    requires i + |lit| <= |s|
    decreases |lit| - k
  {
    k >= |lit| || (s[i + k] == lit[k] && LiteralFrom(s, i, lit, k + 1))
  }

  lemma LiteralFromMeans(s: string, i: nat, lit: string, k: nat)
    requires i + |lit| <= |s|
    requires k <= |lit|
    ensures LiteralFrom(s, i, lit, k) <==> forall m :: k <= m < |lit| ==> s[i + m] == lit[m]
    decreases |lit| - k
  {
    if k < |lit| {
      LiteralFromMeans(s, i, lit, k + 1);
    }
  }

  /** `LiteralAt` is slice equality. */
  lemma LiteralAtMeans(s: string, i: nat, lit: string)
    ensures LiteralAt(s, i, lit) <==> i + |lit| <= |s| && s[i..i + |lit|] == lit
  {
    if i + |lit| <= |s| {
      LiteralFromMeans(s, i, lit, 0);
      if LiteralAt(s, i, lit) {
        assert forall m :: 0 <= m < |lit| ==> s[i..i + |lit|][m] == lit[m];
      }
    }
  }

  // ---------------------------------------------------------------------
  // Decimal numerals

  /** `[1-9][0-9]*` as a full match. */
  predicate IsCanonicalNumeral(s: string)
  {
    |s| > 0 && IsNonZeroDigit(s[0]) && forall k :: 0 < k < |s| ==> IsDigit(s[k])
  }

  function DigitValue(c: char): (d: int)
    requires IsDigit(c)
    ensures 0 <= d <= 9
  {
    c as int - '0' as int
  }

  function DigitChar(d: int): (c: char)
    requires 0 <= d <= 9
    ensures IsDigit(c) && DigitValue(c) == d
    ensures IsNonZeroDigit(c) <==> d != 0
  {
    ('0' as int + d) as char
  }

  /** `int(s)` on a string of ASCII digits. */
  function ParseDecimal(s: string): (n: nat)
    requires forall k :: 0 <= k < |s| ==> IsDigit(s[k])
  {
    if |s| == 0 then 0
    else ParseDecimal(s[..|s| - 1]) * 10 + DigitValue(s[|s| - 1])
  }

  /** `str(n)` for a positive integer. */
  function Decimal(n: nat): (s: string)
    requires n >= 1
    decreases n
  {
    if n < 10 then [DigitChar(n)] else Decimal(n / 10) + [DigitChar(n % 10)]
  }

  /** Rendering a positive integer gives a canonical numeral. */
  lemma {:induction false} DecimalIsCanonical(n: nat)
    requires n >= 1
    ensures IsCanonicalNumeral(Decimal(n))
    decreases n
  {
    if n >= 10 {
      DecimalIsCanonical(n / 10);
    }
  }

  /** Parsing undoes rendering. */
  lemma {:induction false} ParseDecimalOfDecimal(n: nat)
    requires n >= 1
    ensures forall k :: 0 <= k < |Decimal(n)| ==> IsDigit(Decimal(n)[k])
    ensures ParseDecimal(Decimal(n)) == n
    decreases n
  {
    DecimalIsCanonical(n);
    if n >= 10 {
      ParseDecimalOfDecimal(n / 10);
      var s := Decimal(n);
      assert s[..|s| - 1] == Decimal(n / 10);
    }
  }

  /** A canonical numeral denotes a positive integer. */
  lemma {:induction false} CanonicalNumeralPositive(s: string)
    requires IsCanonicalNumeral(s)
    ensures ParseDecimal(s) >= 1
    decreases |s|
  {
    if |s| > 1 {
      CanonicalNumeralPositive(s[..|s| - 1]);
    }
  }

  /** Rendering undoes parsing, for canonical numerals: a numeral without a
      leading zero is the only spelling of its value. */
  lemma {:induction false} DecimalOfParseDecimal(s: string)
    requires IsCanonicalNumeral(s)
    ensures ParseDecimal(s) >= 1
    ensures Decimal(ParseDecimal(s)) == s
    decreases |s|
  {
    CanonicalNumeralPositive(s);
    if |s| > 1 {
      var t := s[..|s| - 1];
      DecimalOfParseDecimal(t);
      var n := ParseDecimal(s);
      assert n / 10 == ParseDecimal(t);
      assert n % 10 == DigitValue(s[|s| - 1]);
      assert DigitChar(n % 10) == s[|s| - 1];
      assert s == t + [s[|s| - 1]];
    }
  }
}
