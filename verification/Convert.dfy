/** Number conversion of klibc.c, with two's-complement 32-bit arithmetic: the decimal text of a number
    and its value are inverse to each other, including the most negative number.
 */
module Convert {
  import opened Defs

  const INT_MIN := -0x8000_0000
  const INT_MAX := 0x7fff_ffff

  predicate InInt32(v: int) {
    INT_MIN <= v <= INT_MAX
  }

  /** The signed 32-bit value with the same low 32 bits. */
  function Wrap(n: int): (r: int)
    ensures InInt32(r) && (n - r) % TWO_32 == 0
  {
    var r := n % TWO_32;
    if r <= INT_MAX then r else r - TWO_32
  }

  function Magnitude(v: int): nat {
    if v < 0 then -v else v
  }

  function DigitChar(d: nat): char
    requires d < 10
  {
    '0' + d as char
  }

  function Digits(n: nat): (s: seq<char>)
    ensures |s| >= 1
  {
    if n < 10 then [DigitChar(n)] else Digits(n / 10) + [DigitChar(n % 10)]
  }

  function Decimal(n: int): seq<char> {
    (if n < 0 then ['-'] else []) + Digits(Magnitude(n))
  }

  /** A value stored in a signed 8-bit character. */
  function Char8(n: int): int {
    var r := n % 256;
    if r < 128 then r else r - 256
  }

  /** The largest digit character of a radix, which may have wrapped around. */
  function LastDigit(base: int): int {
    if base == 10 then '9' as int else Char8('0' as int + base - 1)
  }

  predicate IsDigit(c: char, base: int) {
    '0' as int <= Char8(c as int) <= LastDigit(base)
  }

  /** The leading digits of a text. */
  function DigitPrefix(s: seq<char>, base: int): seq<char> {
    if s == [] || !IsDigit(s[0], base) then [] else [s[0]] + DigitPrefix(s[1..], base)
  }

  /** The value of a digit string, without any bound. */
  function Value(s: seq<char>, base: int): int {
    if s == [] then 0 else Value(s[..|s| - 1], base) * base + (Char8(s[|s| - 1] as int) - '0' as int)
  }

  /** What `str2int` computes: the value of the leading digits, negated after a '-', modulo 2^32. */
  function Parse(s: seq<char>, base: int): int {
    if s != [] && s[0] == '-' then Wrap(-Value(DigitPrefix(s[1..], base), base))
    else Wrap(Value(DigitPrefix(s, base), base))
  }

  // ----- digit strings

  lemma {:induction false} DigitsAreDigits(n: nat)
    ensures forall i :: 0 <= i < |Digits(n)| ==> IsDigit(Digits(n)[i], 10)
  {
    if n >= 10 {
      DigitsAreDigits(n / 10);
    }
  }

  lemma {:induction false} ValueOfDigits(n: nat)
    ensures Value(Digits(n), 10) == n
  {
    if n < 10 {
      assert Digits(n)[..0] == [];
    } else {
      ValueOfDigits(n / 10);
      var s := Digits(n);
      assert s[..|s| - 1] == Digits(n / 10);
    }
  }

  lemma {:induction false} AllDigits(s: seq<char>, base: int)
    requires forall i :: 0 <= i < |s| ==> IsDigit(s[i], base)
    ensures DigitPrefix(s, base) == s
  {
    if s != [] {
      AllDigits(s[1..], base);
      assert s == [s[0]] + s[1..];
    }
  }

  /** No superfluous leading zero. */
  lemma {:induction false} NoLeadingZero(n: nat)
    ensures Digits(n)[0] == '0' ==> n == 0
  {
    if n >= 10 {
      NoLeadingZero(n / 10);
    } else {
      assert Digits(n)[0] as int == 48 + n;
    }
  }

  function Pow10(k: nat): nat {
    if k == 0 then 1 else 10 * Pow10(k - 1)
  }

  lemma {:induction false} DigitsLength(n: nat, k: nat)
    requires n < Pow10(k) && k >= 1
    ensures |Digits(n)| <= k
    decreases k
  {
    if n >= 10 {
      DigitsLength(n / 10, k - 1);
    }
  }

  lemma TenDigits()
    ensures Pow10(10) == 10_000_000_000
  {
    assert Pow10(4) == 10_000;
    assert Pow10(8) == 100_000_000 by {
      assert Pow10(6) == 1_000_000;
    }
  }

  /** The leading digits are the longest prefix of the text that consists of digits. */
  lemma {:induction false} LongestDigits(s: seq<char>, base: int)
    ensures var d := DigitPrefix(s, base);
      && |d| <= |s| && d == s[..|d|] && (forall i :: 0 <= i < |d| ==> IsDigit(d[i], base))
      && (|d| < |s| ==> !IsDigit(s[|d|], base))
    decreases |s|
  {
    if s != [] && IsDigit(s[0], base) {
      LongestDigits(s[1..], base);
    }
  }

  /** The digits of a radix up to 80 are the characters from '0' on, one for each value below the radix. */
  lemma DigitsOfRadix(c: char, base: int)
    requires 1 <= base <= 80 && c as int < 128
    ensures IsDigit(c, base) <==> 0 <= c as int - 48 < base
  {
  }

  function Power(base: int, n: nat): int {
    if n == 0 then 1 else base * Power(base, n - 1)
  }

  /** Positional notation: the leading digit counts as often as there are numbers of the length of the rest. */
  lemma {:induction false} LeadingDigit(c: char, s: seq<char>, base: int)
    requires c as int < 128
    ensures Value([c] + s, base) == (c as int - 48) * Power(base, |s|) + Value(s, base)
    decreases |s|
  {
    var t := [c] + s;
    if s == [] {
      assert t[..0] == [];
    } else {
      var n := |s| - 1;
      LeadingDigit(c, s[..n], base);
      assert t[..|t| - 1] == [c] + s[..n];
      ShiftDigit(c as int - 48, Power(base, n), Value(s[..n], base), base);
    }
  }

  lemma ShiftDigit(d: int, power: int, value: int, base: int)
    ensures (d * power + value) * base == d * (base * power) + value * base
  {
    assert (d * power) * base == d * (base * power);
  }

  // ----- round trip

  lemma WrapSmall(v: int)
    ensures InInt32(v) <==> Wrap(v) == v
  {
  }

  /** The text of a number: a minus sign (45) for a negative one, and then nothing but digits '0' to '9' (48 to 57). */
  lemma DecimalShape(v: int)
    ensures var s, first := Decimal(v), if v < 0 then 1 else 0;
      && |s| > first && (v < 0 ==> s[0] as int == 45)
      && forall i :: first <= i < |s| ==> 48 <= s[i] as int <= 57
  {
    var ds := Digits(Magnitude(v));
    forall i | 0 <= i < |ds|
      ensures 48 <= ds[i] as int <= 57
    {
      DigitsArePlain(Magnitude(v), i);
    }
  }

  lemma {:induction false} DigitsArePlain(n: nat, i: nat)
    requires i < |Digits(n)|
    ensures 48 <= Digits(n)[i] as int <= 57
  {
    if n >= 10 && i < |Digits(n / 10)| {
      DigitsArePlain(n / 10, i);
    }
  }

  lemma DigitIsNoSign(c: char, base: int)
    requires IsDigit(c, base)
    ensures c != '-'
  {
  }

  /** Converting a number to text and back gives the number exactly when it is a signed 32-bit one, the
      most negative included. */
  lemma RoundTrip(v: int)
    ensures Parse(Decimal(v), 10) == v <==> InInt32(v)
  {
    var ds := Digits(Magnitude(v));
    DigitsAreDigits(Magnitude(v));
    AllDigits(ds, 10);
    ValueOfDigits(Magnitude(v));
    WrapSmall(v);
    assert IsDigit(ds[0], 10);
    DigitIsNoSign(ds[0], 10);
    if v < 0 {
      assert Decimal(v)[1..] == ds;
    } else {
      assert Decimal(v) == ds;
    }
  }

  /** The text of a signed number fits a 12-byte buffer with its NUL. */
  lemma DecimalFits(v: int)
    requires InInt32(v)
    ensures |Decimal(v)| <= 11
  {
    TenDigits();
    DigitsLength(Magnitude(v), 10);
  }

  lemma UnsignedFits(v: nat)
    requires v < TWO_32
    ensures |Digits(v)| <= 10
  {
    TenDigits();
    DigitsLength(v, 10);
  }

  // ----- the code

  /** C division, which truncates toward zero. */
  function Quotient(v: int): int {
    if v < 0 then -(-v / 10) else v / 10
  }

  /** Append one digit at `end`. */
  method PutDigit(buf: array<char>, pos: nat, end: nat, d: nat) returns (next: nat)
    requires pos <= end < buf.Length && d < 10
    modifies buf
    ensures next == end + 1 && buf[pos..next] == old(buf[pos..end]) + [DigitChar(d)]
    ensures buf[..pos] == old(buf[..pos])
  {
    buf[end] := DigitChar(d);
    next := end + 1;
  }

  /** The recursion of cvtdec0.  Its argument is not negative, except for the most negative number,
      which negation leaves as it is. */
  method Cvtdec0(buf: array<char>, pos: nat, value: int) returns (end: nat)
    requires 0 <= value <= INT_MAX || value == INT_MIN
    requires pos + |Digits(Magnitude(value))| <= buf.Length
    modifies buf
    ensures end == pos + |Digits(Magnitude(value))| && buf[pos..end] == Digits(Magnitude(value))
    ensures buf[..pos] == old(buf[..pos])
    decreases Magnitude(value)
  {
    var quotient, digit := Quotient(value), value;
    if quotient < 0 {
      quotient, digit := 214748364, 8;
    }
    end := pos;
    if quotient != 0 {
      end := Cvtdec0(buf, pos, quotient);
    }
    end := PutDigit(buf, pos, end, digit % 10);
  }

  lemma NegateWraps(v: int)
    requires INT_MIN <= v < 0
    ensures Wrap(-v) == if v == INT_MIN then v else -v
  {
    assert 0 <= -v < TWO_32;
    SmallMod(-v);
  }

  lemma SmallMod(n: int)
    requires 0 <= n < TWO_32
    ensures n % TWO_32 == n
  {
  }

  lemma Joined(s: seq<char>, i: nat, j: nat)
    requires i <= j <= |s|
    ensures s[..j] == s[..i] + s[i..j]
  {
  }

  method Cvtdec(buf: array<char>, value: int) returns (n: nat)
    requires InInt32(value) && buf.Length >= |Decimal(value)| + 1
    modifies buf
    ensures n == |Decimal(value)| && buf[..n] == Decimal(value) && buf[n] == '\0'
  {
    var bp, v := 0, value;
    if v < 0 {
      buf[0] := '-';
      NegateWraps(v);
      v := Wrap(-v);
      bp := 1;
      assert buf[..bp] == ['-'];
    }
    n := Cvtdec0(buf, bp, v);
    Joined(buf[..], bp, n);
    assert buf[..n] == buf[..bp] + buf[bp..n];
    buf[n] := '\0';
  }

  method Cvtuns0(buf: array<char>, pos: nat, value: nat) returns (end: nat)
    requires value < TWO_32 && pos + |Digits(value)| <= buf.Length
    modifies buf
    ensures end == pos + |Digits(value)| && buf[pos..end] == Digits(value)
    ensures buf[..pos] == old(buf[..pos])
  {
    var quotient := value / 10;
    end := pos;
    if quotient != 0 {
      end := Cvtdec0(buf, pos, quotient);
    }
    end := PutDigit(buf, pos, end, value % 10);
  }

  method Cvtuns(buf: array<char>, value: nat) returns (n: nat)
    requires value < TWO_32 && buf.Length >= |Digits(value)| + 1
    modifies buf
    ensures n == |Digits(value)| && buf[..n] == Digits(value) && buf[n] == '\0'
  {
    n := Cvtuns0(buf, 0, value);
    assert buf[..n] == buf[0..n];
    buf[n] := '\0';
  }

  /** One digit of str2int, in 32-bit arithmetic. */
  function Accumulate(num: int, base: int, c: char): int {
    Wrap(num * base + Char8(c as int) - '0' as int)
  }

  lemma DigitStep(done: seq<char>, s: seq<char>, i: nat, base: int)
    requires i < |s| && IsDigit(s[i], base)
    ensures Accumulate(Wrap(Value(done, base)), base, s[i]) == Wrap(Value(done + [s[i]], base))
    ensures done + DigitPrefix(s[i..], base) == done + [s[i]] + DigitPrefix(s[i + 1..], base)
  {
    assert (done + [s[i]])[..|done|] == done;
    StepWraps(Value(done, base), base, Char8(s[i] as int) - '0' as int);
    assert s[i..][1..] == s[i + 1..];
  }

  /** Printing an unsigned number into an 11-byte buffer. */
  method PrintUnsigned(value: nat) returns (s: seq<char>)
    requires value < TWO_32
    ensures s == Digits(value) && Value(s, 10) == value
  {
    UnsignedFits(value);
    var buf := new char[11];
    var n := Cvtuns(buf, value);
    ValueOfDigits(value);
    s := buf[..n];
  }

  /** str2int on the characters of a NUL-terminated string, wrapping at every step. */
  method Str2int(s: seq<char>, base: int) returns (r: int)
    requires InInt32(base)
    ensures r == Parse(s, base)
  {
    var num, i, sign := 0, 0, 1;
    if s != [] && s[0] == '-' {
      sign, i := -1, 1;
    }
    ghost var text := s[i..];
    ghost var done: seq<char> := [];
    while i < |s| && IsDigit(s[i], base)
      invariant i <= |s| && num == Wrap(Value(done, base))
      invariant DigitPrefix(text, base) == done + DigitPrefix(s[i..], base)
    {
      DigitStep(done, s, i, base);
      num := Accumulate(num, base, s[i]);
      done := done + [s[i]];
      i := i + 1;
    }
    assert DigitPrefix(text, base) == done;
    SignWraps(Value(done, base), sign);
    r := Wrap(num * sign);
  }

  // ----- wrapping at every step is the same as wrapping at the end

  lemma WrapPeriodic(n: int, k: int)
    ensures Wrap(n + k * TWO_32) == Wrap(n)
  {
    assert (n + k * TWO_32) % TWO_32 == n % TWO_32;
  }

  lemma StepWraps(v: int, base: int, d: int)
    ensures Wrap(Wrap(v) * base + d) == Wrap(v * base + d)
  {
    var w := Wrap(v);
    var q := (v - w) / TWO_32;
    assert v == w + q * TWO_32;
    assert v * base + d == w * base + d + (q * base) * TWO_32 by {
      assert (w + q * TWO_32) * base == w * base + (q * TWO_32) * base;
      assert (q * TWO_32) * base == (q * base) * TWO_32;
    }
    WrapPeriodic(w * base + d, q * base);
  }

  lemma SignWraps(v: int, sign: int)
    requires sign == 1 || sign == -1
    ensures Wrap(Wrap(v) * sign) == Wrap(if sign < 0 then -v else v)
  {
    StepWraps(v, sign, 0);
  }

  /** A minus sign (45) negates what follows it, in every radix. */
  lemma NegatedText(s: seq<char>, base: int)
    requires s == [] || s[0] as int != 45
    ensures Parse(['-'] + s, base) == Wrap(-Parse(s, base)) && '-' as int == 45
  {
    assert (['-'] + s)[1..] == s;
    SignWraps(Value(DigitPrefix(s, base), base), -1);
  }

  /** Text that consists of digits means its value modulo 2^32. */
  lemma DigitText(s: seq<char>, base: int)
    requires forall i :: 0 <= i < |s| ==> IsDigit(s[i], base)
    ensures Parse(s, base) == Wrap(Value(s, base))
  {
    AllDigits(s, base);
    if s != [] {
      DigitIsNoSign(s[0], base);
    }
  }

  /** Converting and converting back, by the code: the number that went in comes out. */
  method PrintAndParse(value: int) returns (r: int)
    requires InInt32(value)
    ensures r == value
  {
    DecimalFits(value);
    var buf := new char[12];
    var n := Cvtdec(buf, value);
    RoundTrip(value);
    r := Str2int(buf[..n], 10);
  }
}
