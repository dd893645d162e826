/** Numbers as text: what a numeral means, and the numeral of a number. */
module Numerals {
  import opened Units
  import opened Division

  // The table of `itoa`, in three pieces: a remainder r stands at 35 + r, so its sign does not matter.
  const HIGH: string := "zyxwvutsrqponmlkjihgfedcba"
  const MIDDLE: string := "9876543210123456789"
  const LOW: string := "abcdefghijklmnopqrstuvwxyz"
  const TABLE: string := HIGH + MIDDLE + LOW

  const I64: int := 0x8000_0000_0000_0000

  function AsI64(n: int): (r: int)
    ensures -I64 <= r < I64
  {
    (n + I64) % U64 - I64
  }

  /** What a character counts as a digit. */
  function DigitOf(c: char): (d: int)
    ensures -1 <= d < 36
  {
    if '0' <= c <= '9' then c as int - '0' as int
    else if 'a' <= c <= 'z' then c as int - 'a' as int + 10
    else -1
  }

  /** The digit character of a remainder of either sign. */
  function Digit(r: int): (c: char)
    requires -36 < r < 36
    ensures DigitOf(c) == if r < 0 then -r else r
  {
    TableAt(35 + r);
    TABLE[35 + r]
  }

  lemma TableAt(i: nat)
    requires i < 71
    ensures |TABLE| == 71 && DigitOf(TABLE[i]) == if i < 35 then 35 - i else i - 35
  {
    if i < 26 {
      HighAt(i);
      assert TABLE[i] == HIGH[i];
    } else if i < 45 {
      MiddleAt(i - 26);
      assert TABLE[i] == MIDDLE[i - 26];
    } else {
      LowAt(i - 45);
      assert TABLE[i] == LOW[i - 45];
    }
  }

  lemma HighAt(i: nat)
    requires i < 26
    ensures |HIGH| == 26 && HIGH[i] as int == 'z' as int - i
  {
  }

  lemma MiddleAt(i: nat)
    requires i < 19
    ensures |MIDDLE| == 19 && MIDDLE[i] as int == '0' as int + if i < 9 then 9 - i else i - 9
  {
  }

  lemma LowAt(i: nat)
    requires i < 26
    ensures |LOW| == 26 && LOW[i] as int == 'a' as int + i
  {
  }

  predicate Base(b: int) { 2 <= b <= 36 }

  /** A string of digits of a base. */
  predicate DigitsOf(s: string, b: int) { forall i :: 0 <= i < |s| ==> 0 <= DigitOf(s[i]) < b }

  /** The number that digits written most significant first denote. */
  function Denotes(s: string, b: int): int
    decreases |s|
  {
    if s == [] then 0 else Denotes(s[..|s| - 1], b) * b + DigitOf(s[|s| - 1])
  }

  /** The numeral of a number. */
  function Numeral(n: nat, b: int): (s: string)
    requires Base(b)
    ensures s != []
    decreases n
  {
    if n < b then [Digit(n)] else Numeral(n / b, b) + [Digit(n % b)]
  }

  lemma DenotesSnoc(t: string, c: char, b: int)
    requires DigitsOf(t, b) && 0 <= DigitOf(c) < b
    ensures DigitsOf(t + [c], b) && Denotes(t + [c], b) == Denotes(t, b) * b + DigitOf(c)
  {
    hide DigitOf;
    assert (t + [c])[..|t|] == t;
  }

  lemma {:induction false} NumeralDenotes(n: nat, b: int)
    requires Base(b)
    ensures DigitsOf(Numeral(n, b), b) && Denotes(Numeral(n, b), b) == n
    ensures n > 0 ==> DigitOf(Numeral(n, b)[0]) > 0
    decreases n
  {
    hide Digit, DigitOf, Denotes, DigitsOf;
    if n < b {
      OneDigit(n, b);
    } else {
      var q := n / b;
      DivMod(n, b);
      Shorter(n, b);
      NumeralDenotes(q, b);
      DenotesSnoc(Numeral(q, b), Digit(n % b), b);
    }
  }

  lemma OneDigit(n: nat, b: int)
    requires n < b && Base(b)
    ensures DigitsOf([Digit(n)], b) && Denotes([Digit(n)], b) == n
  {
    hide Digit, DigitOf;
    assert [Digit(n)][..0] == [];
  }

  lemma Shorter(n: nat, b: int)
    requires 2 <= b <= n
    ensures 0 < n / b < n
  {
  }

  /** No other digits without a leading zero denote the same number. */
  lemma {:induction false} NumeralIsUnique(s: string, b: int)
    requires Base(b) && s != [] && DigitsOf(s, b) && (DigitOf(s[0]) > 0 || |s| == 1)
    ensures Denotes(s, b) >= 0 && Numeral(Denotes(s, b), b) == s
    ensures DigitOf(s[0]) > 0 ==> Denotes(s, b) > 0
    decreases |s|
  {
    hide Digit, DigitOf;
    var c := s[|s| - 1];
    DigitBack(c);
    if |s| == 1 {
      assert s[..0] == [] && Denotes(s[..0], b) == 0;
    } else {
      var t := s[..|s| - 1];
      NumeralIsUnique(t, b);
      Combine(Denotes(t, b), b, DigitOf(c));
      assert s == t + [c];
    }
  }

  /** Every digit character is the one the table has for its digit. */
  lemma DigitBack(c: char)
    requires DigitOf(c) >= 0
    ensures Digit(DigitOf(c)) == c
  {
  }

  lemma Combine(q: nat, b: int, d: int)
    requires b >= 2 && q > 0 && 0 <= d < b
    ensures q * b + d >= b && (q * b + d) / b == q && (q * b + d) % b == d
  {
    MulAtLeast(q, b);
    DivIs(q * b + d, b, q, d);
  }

  /** A numeral with its sign. */
  function Text(v: int, b: int): (s: string)
    requires Base(b)
    ensures s != []
  {
    if v < 0 then "-" + Numeral(-v, b) else Numeral(v, b)
  }

  // ----- reading -----

  predicate Decimal(c: char) { '0' <= c <= '9' }

  /** The decimal digits a string starts with. */
  function Leading(s: string): (p: string)
    ensures p <= s && DigitsOf(p, 10)
    ensures |p| < |s| ==> !Decimal(s[|p|])
  {
    if s == [] || !Decimal(s[0]) then [] else [s[0]] + Leading(s[1..])
  }

  /** What `atoi` reads: a sign, then digits up to the first other character. */
  function Parsed(s: string): int {
    if s != [] && s[0] == '-' then -Denotes(Leading(s[1..]), 10) else Denotes(Leading(s), 10)
  }

  lemma {:induction false} LeadingAll(s: string)
    requires DigitsOf(s, 10)
    ensures Leading(s) == s
  {
    if s == [] {
    } else {
      assert 0 <= DigitOf(s[0]) < 10;
      LeadingAll(s[1..]);
    }
  }

  /** Digits at the start of a string are read, whatever other character comes behind them. */
  lemma {:induction false} LeadingBefore(s: string, rest: string)
    requires DigitsOf(s, 10) && (rest == [] || !Decimal(rest[0]))
    ensures Leading(s + rest) == s
  {
    if s == [] {
      assert s + rest == rest;
    } else {
      assert 0 <= DigitOf(s[0]) < 10;
      assert (s + rest)[1..] == s[1..] + rest;
      LeadingBefore(s[1..], rest);
    }
  }

  lemma ReadDigits(s: string, rest: string)
    requires s != [] && DigitsOf(s, 10) && (rest == [] || !Decimal(rest[0]))
    ensures Parsed(s + rest) == Denotes(s, 10) && Parsed(['-'] + s + rest) == -Denotes(s, 10)
  {
    NoSign(s);
    LeadingBefore(s, rest);
    hide Denotes, Leading, DigitsOf, Decimal;
    SignThen(s + rest);
    assert (s + rest)[0] == s[0] && ['-'] + s + rest == ['-'] + (s + rest);
  }

  lemma SignThen(s: string)
    ensures Parsed(['-'] + s) == -Denotes(Leading(s), 10)
  {
    hide Denotes, Leading;
    assert (['-'] + s)[1..] == s;
  }

  lemma NoSign(s: string)
    requires s != [] && DigitsOf(s, 10)
    ensures s[0] != '-'
  {
    assert 0 <= DigitOf(s[0]);
  }

  /** What stands behind a printed number is not read. */
  lemma PrefixParses(v: int, rest: string)
    requires rest == [] || !Decimal(rest[0])
    ensures Parsed(Text(v, 10) + rest) == v
  {
    var n := if v < 0 then -v else v;
    NumeralDenotes(n, 10);
    hide Numeral, Denotes, DigitsOf, Parsed;
    TextIs(v);
    ReadDigits(Numeral(n, 10), rest);
  }

  lemma TextIs(v: int)
    ensures var n := if v < 0 then -v else v;
      Numeral(n, 10) != [] && Text(v, 10) == if v < 0 then ['-'] + Numeral(n, 10) else Numeral(n, 10)
  {
  }

  /** Printing in base ten and reading back gives the number. */
  lemma PrintedParses(v: int)
    ensures Parsed(Text(v, 10)) == v
  {
    var n := if v < 0 then -v else v;
    NumeralDenotes(n, 10);
    LeadingAll(Numeral(n, 10));
    assert Text(v, 10) == if v < 0 then ['-'] + Numeral(n, 10) else Numeral(n, 10);
    if v < 0 {
      assert Text(v, 10)[1..] == Numeral(n, 10);
    } else {
      assert 0 <= DigitOf(Numeral(n, 10)[0]);
    }
  }
}
