/** Number printing and parsing on NUL-terminated buffers. */
module CString {
  import opened Units
  import opened Division
  import opened Numerals

  const NUL: char := '\0'

  /** Division as the machine does it, toward zero. */
  function Quot(a: int, b: int): int
    requires b > 0
  {
    if a >= 0 then a / b else -(-a / b)
  }

  function Abs(v: int): nat { if v < 0 then -v else v }

  lemma QuotRest(v: int, b: int)
    requires b >= 2
    ensures Abs(Quot(v, b)) == Abs(v) / b
    ensures Abs(v - Quot(v, b) * b) == Abs(v) % b < b
    ensures v >= 0 ==> Quot(v, b) >= 0 && v - Quot(v, b) * b >= 0
    ensures v <= 0 ==> Quot(v, b) <= 0
  {
    var n := Abs(v);
    var q, m := n / b, n % b;
    DivMod(n, b);
    assert Quot(v, b) == if v >= 0 then q else -q;
    Mirror(v, q, m, b);
  }

  lemma Mirror(v: int, q: int, m: int, b: int)
    requires Abs(v) == q * b + m
    ensures v - (if v >= 0 then q else -q) * b == if v >= 0 then m else -m
  {
    assert -q * b == -(q * b);
  }

  /** A string from its last character to its first. */
  function Backwards(s: string): (r: string)
    ensures |r| == |s|
    decreases |s|
  {
    if s == [] then [] else [s[|s| - 1]] + Backwards(s[..|s| - 1])
  }

  lemma {:induction false} BackwardsAt(s: string, i: nat)
    requires i < |s|
    ensures Backwards(s)[i] == s[|s| - 1 - i]
    decreases |s|
  {
    if i == 0 {
    } else {
      BackwardsAt(s[..|s| - 1], i - 1);
    }
  }

  lemma BackwardsSnoc(s: string, c: char)
    ensures Backwards(s + [c]) == [c] + Backwards(s)
  {
    assert (s + [c])[..|s|] == s;
  }

  /** Where a C string ends. */
  ghost predicate Ends(s: array<char>, n: nat)
    reads s
  {
    n < s.Length && s[n] == NUL && forall i :: 0 <= i < n ==> s[i] != NUL
  }

  ghost predicate Terminated(s: array<char>)
    reads s
  {
    NUL in s[..]
  }

  /** The buffer holds a text and its terminator. */
  ghost predicate Holds(s: array<char>, t: string)
    reads s
  {
    |t| < s.Length && s[..|t|] == t && s[|t|] == NUL
  }

  method StrLen(str: array<char>) returns (n: nat)
    requires Terminated(str)
    ensures Ends(str, n)
  {
    n := 0;
    while str[n] != NUL
      invariant n < str.Length && NUL in str[n..] && forall i :: 0 <= i < n ==> str[i] != NUL
      decreases str.Length - n
    {
      assert str[n..] == [str[n]] + str[n + 1..];
      n := n + 1;
    }
  }

  lemma EndsOnce(s: array<char>, a: nat, b: nat)
    requires Ends(s, a) && Ends(s, b)
    ensures a == b
  {
  }

  /** Turn the first n characters around in place. */
  method Flip(s: array<char>, n: nat)
    requires n <= s.Length
    modifies s
    ensures s[..n] == Backwards(old(s[..n])) && s[n..] == old(s[n..])
  {
    ghost var before := s[..n];
    var i, j := 0, n - 1;
    while i < j
      invariant 0 <= i && i + j == n - 1 && i <= j + 1 && j < n
      invariant forall k :: i <= k <= j ==> s[k] == before[k]
      invariant forall k :: 0 <= k < i || j < k < n ==> s[k] == before[n - 1 - k]
      invariant s[n..] == old(s[n..])
    {
      var c := s[i];
      s[i] := s[j];
      s[j] := c;
      i, j := i + 1, j - 1;
    }
    forall k | 0 <= k < n ensures s[k] == Backwards(before)[k] {
      BackwardsAt(before, k);
    }
  }

  /** `reverse`: a C string turned around. */
  method Reverse(s: array<char>, ghost t: string)
    requires Holds(s, t) && NUL !in t
    modifies s
    ensures Holds(s, Backwards(t)) && s[|t|..] == old(s[|t|..])
  {
    var n := StrLen(s);
    EndsOnce(s, n, |t|);
    ghost var rest := s[n..];
    Flip(s, n);
    assert s[n] == rest[0];
  }

  // ----- printing -----

  lemma SameDigit(r: int)
    requires -36 < r < 36
    ensures Digit(r) == Digit(Abs(r))
  {
    DigitBack(Digit(r));
  }

  lemma NumeralStep(n: nat, b: int)
    requires Base(b)
    ensures Numeral(n, b) == (if n < b then [] else Numeral(n / b, b)) + [Digit(n % b)]
  {
    hide Digit;
    if n < b { DivSmall(n, b); }
  }

  /** One turn of the loop: the lowest digit of what is left goes behind the others. */
  lemma Turn(whole: string, value: int, b: int, done: string)
    requires Base(b) && whole == Numeral(Abs(value), b) + Backwards(done)
    ensures var next := Quot(value, b);
      var r := value - next * b;
      && -36 < r < 36
      && (value <= 0 ==> next <= 0) && (value >= 0 ==> next >= 0) && (next != 0 ==> Abs(next) < Abs(value))
      && whole == (if next == 0 then [] else Numeral(Abs(next), b)) + Backwards(done + [Digit(r)])
  {
    var n, next := Abs(value), Quot(value, b);
    var r := value - next * b;
    QuotRest(value, b);
    NumeralStep(n, b);
    Smaller(n, b);
    hide Digit, Numeral, Quot, Backwards;
    SameDigit(r);
    BackwardsSnoc(done, Digit(r));
    var front := if next == 0 then [] else Numeral(Abs(next), b);
    assert Numeral(n, b) == front + [Digit(r)];
    assert (front + [Digit(r)]) + Backwards(done) == front + ([Digit(r)] + Backwards(done));
  }

  lemma Smaller(n: nat, b: int)
    requires b >= 2
    ensures n / b == 0 <==> n < b
    ensures n >= b ==> n / b < n
  {
    if n < b { DivSmall(n, b); }
  }

  /** The digit loop of `itoa`: the numeral, lowest digit first, and whether the number was negative. */
  method PutDigits(start: int, result: array<char>, base: int) returns (k: nat, negative: bool)
    requires Base(base) && |Numeral(Abs(start), base)| < result.Length
    modifies result
    ensures k < result.Length && Numeral(Abs(start), base) == Backwards(result[..k])
    ensures negative == (start < 0)
  {
    hide Digit, Numeral, Quot, Backwards;
    ghost var whole := Numeral(Abs(start), base);
    var value, more, tmp := start, true, start;
    k := 0;
    while more
      invariant k <= |whole| < result.Length && (more ==> k < |whole|)
      invariant tmp < 0 <==> start < 0
      invariant more ==> (value < 0 <==> start < 0) && whole == Numeral(Abs(value), base) + Backwards(result[..k])
      invariant !more ==> whole == Backwards(result[..k])
      decreases more, Abs(value)
    {
      ghost var done := result[..k];
      Turn(whole, value, base, done);
      tmp := value;
      value := Quot(tmp, base);
      result[k] := Digit(tmp - value * base);
      k := k + 1;
      assert result[..k] == done + [result[k - 1]];
      more := value != 0;
    }
    negative := tmp < 0;
  }

  /** `itoa`: digits lowest first, the sign, the terminator, then all of it turned around. */
  method Itoa(start: int, result: array<char>, base: int)
    requires -I64 <= start < I64
    requires |if 2 <= base <= 36 then Text(start, base) else ""| < result.Length
    modifies result
    ensures Holds(result, if 2 <= base <= 36 then Text(start, base) else "")
  {
    hide Digit, Numeral, Backwards;
    if base < 2 || base > 36 {
      result[0] := NUL;
      return;
    }
    var k, negative := PutDigits(start, result, base);
    if negative {
      BackwardsSnoc(result[..k], '-');
      ghost var done := result[..k];
      result[k] := '-';
      k := k + 1;
      assert result[..k] == done + ['-'];
    }
    result[k] := NUL;
    ghost var rest := result[k..];
    Flip(result, k);
    assert result[k] == rest[0];
  }

  /** The index of `utoa`: the signed copy and the unsigned product meet again in 64 bits. */
  function TableIndex(tmp: int, value: nat, base: int): (i: nat)
  {
    (35 + tmp - value * base) % U64
  }

  lemma IndexIsRest(old64: nat, value: nat, base: int)
    requires old64 < U64 && Base(base) && value == old64 / base
    ensures TableIndex(AsI64(old64), value, base) == 35 + old64 % base < 71
    ensures TABLE[..] == TABLE && |TABLE| == 71 && TABLE[35 + old64 % base] == Digit(old64 % base)
  {
    DivMod(old64, base);
    var r := old64 - value * base;
    TableAt(35 + r);
    var tmp := AsI64(old64);
    if old64 >= I64 {
      assert tmp == old64 - U64;
      assert 35 + tmp - value * base == 35 + r - U64;
    }
  }

  /** `utoa`: the same loop on an unsigned number. */
  method Utoa(start: nat, result: array<char>, base: int)
    requires start < U64
    requires |if 2 <= base <= 36 then Numeral(start, base) else ""| < result.Length
    modifies result
    ensures Holds(result, if 2 <= base <= 36 then Numeral(start, base) else "")
  {
    hide Digit, Numeral, Backwards, Quot, AsI64, TableIndex;
    if base < 2 || base > 36 {
      result[0] := NUL;
      return;
    }
    ghost var whole := Numeral(start, base);
    var value, k, more := start, 0, true;
    while more
      invariant k <= |whole| < result.Length && (more ==> k < |whole|) && 0 <= value < U64
      invariant more ==> whole == Numeral(value, base) + Backwards(result[..k])
      invariant !more ==> whole == Backwards(result[..k])
      decreases more, value
    {
      ghost var done := result[..k];
      TurnUnsigned(whole, value, base, done);
      var tmp := AsI64(value);
      IndexIsRest(value, value / base, base);
      value := value / base;
      result[k] := TABLE[TableIndex(tmp, value, base)];
      k := k + 1;
      assert result[..k] == done + [result[k - 1]];
      more := value != 0;
    }
    result[k] := NUL;
    ghost var rest := result[k..];
    Flip(result, k);
    assert result[k] == rest[0];
  }

  lemma TurnUnsigned(whole: string, value: nat, b: int, done: string)
    requires Base(b) && whole == Numeral(value, b) + Backwards(done)
    ensures value % b < 36 && 0 <= value / b <= value && (value / b != 0 ==> value / b < value)
    ensures whole == (if value / b == 0 then [] else Numeral(value / b, b)) + Backwards(done + [Digit(value % b)])
  {
    hide Digit, Backwards, Numeral;
    NumeralStep(value, b);
    Smaller(value, b);
    BackwardsSnoc(done, Digit(value % b));
    var front := if value / b == 0 then [] else Numeral(value / b, b);
    assert (front + [Digit(value % b)]) + Backwards(done) == front + ([Digit(value % b)] + Backwards(done));
  }

  // ----- parsing -----

  lemma WrapShift(x: int, k: int)
    ensures AsI64(x - U64 * k) == AsI64(x)
  {
    var a := x + I64;
    assert a == U64 * (a / U64) + a % U64;
    assert x - U64 * k + I64 == U64 * (a / U64 - k) + a % U64;
  }

  /** Wrapping around takes away a multiple of 2^64. */
  lemma WrapTakes(x: int) returns (k: int)
    ensures AsI64(x) == x - U64 * k
  {
    k := (x + I64) / U64;
  }

  lemma WrapTimesTen(x: int, d: int)
    ensures AsI64(AsI64(AsI64(x) * 10) + d) == AsI64(x * 10 + d)
  {
    hide AsI64;
    var k := WrapTakes(x);
    WrapShift(x * 10, 10 * k);
    var l := WrapTakes(x * 10);
    WrapShift(x * 10 + d, l);
  }

  lemma WrapMinus(x: int)
    ensures AsI64(-AsI64(x)) == AsI64(-x)
  {
    hide AsI64;
    var k := WrapTakes(x);
    WrapShift(-x, -k);
  }

  lemma {:induction false} LeadingIs(s: string, i: nat)
    requires i <= |s| && (forall j :: 0 <= j < i ==> Decimal(s[j])) && (i < |s| ==> !Decimal(s[i]))
    ensures Leading(s) == s[..i]
  {
    if i == 0 {
    } else {
      LeadingIs(s[1..], i - 1);
    }
  }

  /** `atoi`: the sign, then digits to the first other character, in 64-bit arithmetic. */
  method Atoi(str: array<char>, ghost t: string) returns (r: int)
    requires Holds(str, t) && NUL !in t
    ensures r == AsI64(Parsed(t))
  {
    hide AsI64, Denotes, Leading, Decimal;
    var num, i := 0, 0;
    var negative := str[0] == '-';
    if negative {
      i := 1;
    }
    ghost var s, off := if negative then t[1..] else t, i;
    NoDigits(s);
    while str[i] != NUL
      invariant off <= i <= |t| < str.Length && str[..|t|] == t && str[|t|] == NUL
      invariant num == AsI64(Denotes(s[..i - off], 10))
      invariant forall j :: 0 <= j < i - off ==> Decimal(s[j])
      decreases |t| - i
    {
      var c := str[i];
      assert c == t[i] == s[i - off];
      DecimalIs(c);
      if c < '0' || c > '9' {
        LeadingIs(s, i - off);
        WrapMinus(Denotes(s[..i - off], 10));
        return if negative then AsI64(-num) else num;
      }
      OneMoreDigit(s, i - off);
      num := AsI64(num * 10);
      num := AsI64(num + (c as int - '0' as int));
      i := i + 1;
    }
    assert i == |t|;
    LeadingIs(s, i - off);
    WrapMinus(Denotes(s[..i - off], 10));
    return if negative then AsI64(-num) else num;
  }

  lemma NoDigits(s: string)
    ensures AsI64(Denotes(s[..0], 10)) == 0
  {
    assert s[..0] == [];
  }

  lemma DecimalIs(c: char)
    ensures Decimal(c) <==> '0' <= c <= '9'
  {
  }

  /** One digit more, in 64 bits. */
  lemma OneMoreDigit(s: string, k: nat)
    requires k < |s| && Decimal(s[k])
    ensures AsI64(AsI64(AsI64(Denotes(s[..k], 10)) * 10) + (s[k] as int - '0' as int)) == AsI64(Denotes(s[..k + 1], 10))
  {
    hide AsI64;
    assert s[..k + 1][..k] == s[..k];
    WrapTimesTen(Denotes(s[..k], 10), s[k] as int - '0' as int);
  }

  lemma Small(v: int)
    requires -I64 <= v < I64
    ensures AsI64(v) == v
  {
  }

  /** What `itoa` prints in base ten `atoi` reads back, for every 64-bit number. */
  lemma RoundTrip(v: int)
    requires -I64 <= v < I64
    ensures AsI64(Parsed(Text(v, 10))) == v
  {
    PrintedParses(v);
    Small(v);
  }

  /** Reading a numeral back, no intermediate value is larger than the number. */
  lemma {:induction false} PrefixBounded(s: string, i: nat)
    requires DigitsOf(s, 10) && i <= |s|
    ensures 0 <= Denotes(s[..i], 10) <= Denotes(s, 10)
    decreases |s|
  {
    if i == |s| {
      assert s[..i] == s;
      if i > 0 { PrefixBounded(s[..i - 1], i - 1); assert s[..i - 1][..i - 1] == s[..i - 1]; }
    } else {
      PrefixBounded(s[..|s| - 1], i);
      assert s[..|s| - 1][..i] == s[..i];
    }
  }

  /** No step of reading a printed number leaves 64 bits, except for the least number of all. */
  lemma NoOverflow(v: int)
    requires -I64 <= v < I64
    ensures (forall i: nat :: i <= |Numeral(Abs(v), 10)| ==> -I64 <= Denotes(Numeral(Abs(v), 10)[..i], 10) < I64) <==>
        v > -I64
  {
    var s := Numeral(Abs(v), 10);
    NumeralDenotes(Abs(v), 10);
    hide Numeral, Denotes;
    forall i: nat | i <= |s| ensures 0 <= Denotes(s[..i], 10) <= Abs(v) {
      PrefixBounded(s, i);
    }
    assert s[..|s|] == s;
  }

  /** No decimal text holds a terminator. */
  lemma TextHasNoEnd(v: int)
    ensures NUL !in Text(v, 10)
  {
    var n := Abs(v);
    NumeralDenotes(n, 10);
    hide Numeral, Denotes;
    var s := Numeral(n, 10);
    assert Text(v, 10) == if v < 0 then ['-'] + s else s;
    forall i | 0 <= i < |s| ensures s[i] != NUL {
      assert 0 <= DigitOf(s[i]);
    }
  }

  /** A number printed into a buffer and read back from it. */
  method PrintAndRead(v: int, buf: array<char>) returns (r: int)
    requires -I64 <= v < I64 && |Text(v, 10)| < buf.Length
    modifies buf
    ensures r == v
  {
    hide Text, Parsed, AsI64;
    Itoa(v, buf, 10);
    TextHasNoEnd(v);
    r := Atoi(buf, Text(v, 10));
    RoundTrip(v);
  }
}
