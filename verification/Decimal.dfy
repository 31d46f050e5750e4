/** Decimal text: `%d` and JavaScript's number-to-string, `atoi`, and the page's `PrefixZero`. */
module Decimal {

  predicate IsDigit(c: char) {
    '0' <= c <= '9'
  }

  predicate AllDigits(s: string) {
    forall i :: 0 <= i < |s| ==> IsDigit(s[i])
  }

  function DigitChar(d: nat): (c: char)
    requires d < 10
    ensures IsDigit(c) && DigitValue(c) == d
  {
    '0' + d as char
  }

  function DigitValue(c: char): (d: nat)
    requires IsDigit(c)
    ensures d < 10
  {
    c as int - '0' as int
  }

  /** The shortest decimal numeral of `n`. */
  function Digits(n: nat): (s: string)
    ensures |s| >= 1 && AllDigits(s)
    ensures |s| > 1 ==> s[0] != '0'
  {
    if n < 10 then [DigitChar(n)] else Digits(n / 10) + [DigitChar(n % 10)]
  }

  /** The number that a digit string denotes. */
  function Value(s: string): (v: nat)
    requires AllDigits(s)
  {
    if s == [] then 0 else Value(s[..|s| - 1]) * 10 + DigitValue(s[|s| - 1])
  }

  function Pow10(n: nat): (p: nat)
    ensures p >= 1
  {
    if n == 0 then 1 else 10 * Pow10(n - 1)
  }

  function Zeros(n: nat): (s: string)
    ensures |s| == n && AllDigits(s)
  {
    seq(n, i => '0')
  }

  /** Pads `num` with `n - 1` zeros and keeps the last `n` characters. */
  function PrefixZero(num: nat, n: nat): (s: string)
    requires n >= 1
    ensures |s| == n && AllDigits(s)
  {
    var padded := Zeros(n - 1) + Digits(num);
    padded[|padded| - n..]
  }

  lemma {:induction false} ValueOfDigits(n: nat)
    ensures Value(Digits(n)) == n
  {
    if n >= 10 {
      ValueOfDigits(n / 10);
      var s := Digits(n);
      assert s[..|s| - 1] == Digits(n / 10);
    }
  }

  lemma {:induction false} ValueOfPadded(k: nat, s: string)
    requires AllDigits(s)
    ensures Value(Zeros(k) + s) == Value(s)
  {
    var t := Zeros(k) + s;
    if s != [] {
      assert t[..|t| - 1] == Zeros(k) + s[..|s| - 1];
      ValueOfPadded(k, s[..|s| - 1]);
    } else if k > 0 {
      assert t[..|t| - 1] == Zeros(k - 1) + s;
      ValueOfPadded(k - 1, s);
    }
  }

  lemma ShiftedRemainder(a: nat, p: nat, d: nat)
    requires p >= 1 && d < 10
    ensures (a % p) * 10 + d == (a * 10 + d) % (10 * p)
  {
    var q, r := a / p, a % p;
    assert a == q * p + r;
    var low := r * 10 + d;
    assert low < 10 * p;
    RemainderUnique(q, 10 * p, low, a * 10 + d);
  }

  lemma RemainderUnique(q: nat, m: nat, low: nat, x: nat)
    requires low < m && x == q * m + low
    ensures x % m == low
  {
    var k, r := x / m, x % m;
    assert x == k * m + r;
    QuotientUnique(q, k, m, low, r);
  }

  lemma QuotientUnique(q: int, k: int, m: nat, low: nat, r: nat)
    requires low < m && r < m && q * m + low == k * m + r
    ensures low == r
  {
    assert (q - k) * m == r - low;
    assert q - k >= 1 ==> (q - k) * m >= m;
    assert k - q >= 1 ==> (k - q) * m >= m;
  }

  /** The last `k` digits denote the remainder modulo 10^k. */
  lemma {:induction false} ValueOfSuffix(s: string, k: nat)
    requires AllDigits(s) && k <= |s|
    ensures Value(s[|s| - k..]) == Value(s) % Pow10(k)
  {
    if k > 0 {
      var init := s[..|s| - 1];
      var tail := s[|s| - k..];
      assert tail[..k - 1] == init[|init| - (k - 1)..];
      ValueOfSuffix(init, k - 1);
      ShiftedRemainder(Value(init), Pow10(k - 1), DigitValue(s[|s| - 1]));
    }
  }

  /** `PrefixZero` writes exactly `n` digits, and they denote `num` modulo 10^n. */
  lemma PrefixZeroValue(num: nat, n: nat)
    requires n >= 1
    ensures Value(PrefixZero(num, n)) == num % Pow10(n)
  {
    var padded := Zeros(n - 1) + Digits(num);
    ValueOfPadded(n - 1, Digits(num));
    ValueOfDigits(num);
    ValueOfSuffix(padded, n);
  }

  lemma SmallRemainder(x: nat, m: nat)
    requires x < m
    ensures x % m == x
  {
    RemainderUnique(0, m, x, x);
  }

  /** Two places: tens in front of units. */
  lemma TwoDigitText(n: nat)
    requires n < 100
    ensures PrefixZero(n, 2) == [DigitChar(n / 10), DigitChar(n % 10)]
  {
    assert Zeros(1) == ['0'];
    if n < 10 {
      assert ['0'] + Digits(n) == ['0', DigitChar(n)];
      assert DigitChar(0) == '0';
    } else {
      assert Digits(n) == [DigitChar(n / 10)] + [DigitChar(n % 10)];
      var padded := Zeros(1) + Digits(n);
      assert padded[1..] == Digits(n);
    }
  }

  /** On every `n`-digit string, `PrefixZero` undoes decoding. */
  lemma {:induction false} PrefixZeroOfValue(s: string)
    requires |s| >= 1 && AllDigits(s)
    ensures PrefixZero(Value(s), |s|) == s
  {
    var t := PrefixZero(Value(s), |s|);
    ValueBound(s);
    PrefixZeroValue(Value(s), |s|);
    SmallRemainder(Value(s), Pow10(|s|));
    ValueInjective(s, t);
  }

  lemma {:induction false} ValueBound(s: string)
    requires AllDigits(s)
    ensures Value(s) < Pow10(|s|)
  {
    if s != [] {
      ValueBound(s[..|s| - 1]);
    }
  }

  lemma {:induction false} ValueInjective(s: string, t: string)
    requires AllDigits(s) && AllDigits(t) && |s| == |t| && Value(s) == Value(t)
    ensures s == t
  {
    if s != [] {
      var a, b := s[..|s| - 1], t[..|t| - 1];
      ValueInjective(a, b);
      assert s == a + [s[|s| - 1]] && t == b + [t[|t| - 1]];
    }
  }

  lemma {:induction false} ValueOfConcat(s: string, t: string)
    requires AllDigits(s) && AllDigits(t)
    ensures Value(s + t) == Value(s) * Pow10(|t|) + Value(t)
  {
    if t == [] {
      assert s + t == s;
    } else {
      var init := t[..|t| - 1];
      assert (s + t)[..|s + t| - 1] == s + init;
      ValueOfConcat(s, init);
      ShiftedSum(Value(s), Pow10(|init|), Value(init), DigitValue(t[|t| - 1]));
    }
  }

  lemma ValueAppend(s: string, c: char)
    requires AllDigits(s) && IsDigit(c)
    ensures Value(s + [c]) == 10 * Value(s) + DigitValue(c)
  {
    assert (s + [c])[..|s|] == s;
  }

  lemma ShiftedSum(a: nat, p: nat, b: nat, d: nat)
    ensures (a * p + b) * 10 + d == a * (10 * p) + (b * 10 + d)
  {
    assert a * (10 * p) == 10 * (a * p);
  }

  predicate IsSpace(c: char) {
    c in [' ', '\t', '\n', '\r', 0x0b as char, 0x0c as char]
  }

  function LeadingDigits(s: string): (n: nat)
    ensures n <= |s| && AllDigits(s[..n])
    ensures n < |s| ==> !IsDigit(s[n])
  {
    if s == [] || !IsDigit(s[0]) then 0 else
    var n := 1 + LeadingDigits(s[1..]);
    assert s[..n] == [s[0]] + s[1..][..n - 1];
    n
  }

  /** `atoi`: optional white space, an optional sign, then digits up to the first other character. */
  function Atoi(s: string): (v: int) {
    if s == [] then 0
    else if IsSpace(s[0]) then Atoi(s[1..])
    else if s[0] == '-' then 0 - Value(s[1..][..LeadingDigits(s[1..])])
    else if s[0] == '+' then Value(s[1..][..LeadingDigits(s[1..])])
    else Value(s[..LeadingDigits(s)])
  }

  /** White space in front is skipped, a sign is applied, and the first other character ends the number. */
  lemma AtoiReads(blanks: string, digits: string, rest: string)
    requires forall i :: 0 <= i < |blanks| ==> IsSpace(blanks[i])
    requires digits != [] && AllDigits(digits) && (rest != [] ==> !IsDigit(rest[0]))
    ensures Atoi(blanks + (digits + rest)) == Value(digits)
    ensures Atoi(blanks + ("-" + (digits + rest))) == 0 - Value(digits)
    ensures Atoi(blanks + ("+" + (digits + rest))) == Value(digits)
  {
    AtoiSkips(blanks, digits + rest);
    AtoiSkips(blanks, "-" + (digits + rest));
    AtoiSkips(blanks, "+" + (digits + rest));
    AtoiUnsigned(digits, rest);
    AtoiSigned(digits, rest);
  }

  lemma AtoiUnsigned(digits: string, rest: string)
    requires digits != [] && AllDigits(digits) && (rest != [] ==> !IsDigit(rest[0]))
    ensures Atoi(digits + rest) == Value(digits)
  {
    LeadingIs(digits, rest);
    assert (digits + rest)[0] == digits[0] && IsDigit(digits[0]);
  }

  lemma AtoiSigned(digits: string, rest: string)
    requires AllDigits(digits) && (rest != [] ==> !IsDigit(rest[0]))
    ensures Atoi("-" + (digits + rest)) == 0 - Value(digits) && Atoi("+" + (digits + rest)) == Value(digits)
  {
    LeadingIs(digits, rest);
    assert ("-" + (digits + rest))[1..] == digits + rest && ("+" + (digits + rest))[1..] == digits + rest;
  }

  lemma {:induction false} AtoiSkips(blanks: string, s: string)
    requires forall i :: 0 <= i < |blanks| ==> IsSpace(blanks[i])
    ensures Atoi(blanks + s) == Atoi(s)
  {
    if blanks == [] {
      assert blanks + s == s;
    } else {
      assert (blanks + s)[1..] == blanks[1..] + s;
      AtoiSkips(blanks[1..], s);
    }
  }

  lemma {:induction false} LeadingIs(digits: string, rest: string)
    requires AllDigits(digits) && (rest != [] ==> !IsDigit(rest[0]))
    ensures LeadingDigits(digits + rest) == |digits| && (digits + rest)[..|digits|] == digits
    decreases |digits|
  {
    if digits == [] {
      assert digits + rest == rest;
    } else {
      assert (digits + rest)[1..] == digits[1..] + rest;
      LeadingIs(digits[1..], rest);
    }
  }

  lemma AtoiOfDigits(s: string)
    requires AllDigits(s)
    ensures Atoi(s) == Value(s)
  {
    if s != [] {
      assert LeadingDigits(s) == |s|;
      assert s[..|s|] == s;
    }
  }
}
