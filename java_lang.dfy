/** The few pieces of java.lang and java.math behaviour the core relies on:
    32-bit `int` arithmetic, `Character.forDigit`/`Character.digit`, radix
    rendering as done by `Integer.toString` and `BigInteger.toString(radix)`,
    radix parsing as done by `new BigInteger(text, radix)`, and the ASCII part
    of `String.toLowerCase`/`String.toUpperCase`. */
module JavaLang {

  const INT_MIN: int := -0x8000_0000
  const INT_MAX: int := 0x7fff_ffff
  const TWO_32: int := 0x1_0000_0000

  /** The values of a Java `int`. */
  type Int32 = x: int | INT_MIN <= x <= INT_MAX

  /** Java `int` arithmetic: the exact result reduced modulo 2^32 into the
      signed range, so an overflowing product or sum wraps around. */
  function Wrap32(x: int): (r: Int32)
    ensures (r - x) % TWO_32 == 0
    ensures INT_MIN <= x <= INT_MAX ==> r == x
  {
    (x - INT_MIN) % TWO_32 + INT_MIN
  }

  function Pow(b: nat, e: nat): nat
  {
    if e == 0 then 1 else b * Pow(b, e - 1)
  }

  lemma {:induction false} PowAdd(b: nat, m: nat, n: nat)
    ensures Pow(b, m + n) == Pow(b, m) * Pow(b, n)
  {
    if m > 0 {
      PowAdd(b, m - 1, n);
      assert Pow(b, m + n) == b * Pow(b, m - 1 + n);
    }
  }

  lemma {:induction false} PowAtLeastBase(b: nat, e: nat)
    requires b >= 1 && e >= 1
    ensures Pow(b, e) >= b
  {
    if e > 1 {
      PowAtLeastBase(b, e - 1);
      assert Pow(b, e) == b * Pow(b, e - 1);
    }
  }

  /** A radix accepted by `Character.forDigit` and `BigInteger.toString`. */
  type Radix = r: int | 2 <= r <= 36 witness 10

  /** `Character.digit(c, 36)`: the value of a digit or letter, -1 otherwise. */
  function DigitValue(c: char): int
  {
    if '0' <= c <= '9' then c as int - '0' as int
    else if 'a' <= c <= 'z' then c as int - 'a' as int + 10
    else if 'A' <= c <= 'Z' then c as int - 'A' as int + 10
    else -1
  }

  /** The characters `0-9a-z`. */
  predicate IsLowerDigit(c: char)
  {
    '0' <= c <= '9' || 'a' <= c <= 'z'
  }

  /** `Character.forDigit`: digits first, then lower-case letters. */
  function ForDigit(d: nat, radix: Radix): (c: char)
    requires d < radix
    ensures DigitValue(c) == d
    ensures IsLowerDigit(c)
  {
    if d < 10 then ('0' as int + d) as char else ('a' as int + d - 10) as char
  }

  /** Every character of `s` is a digit of `radix`. */
  predicate IsDigits(s: string, radix: Radix)
  {
    forall i | 0 <= i < |s| :: 0 <= DigitValue(s[i]) < radix
  }

  /** `BigInteger.toString(radix)` (and `Integer.toString(n)` for radix ten)
      of a non-negative number: lower-case, no leading zero, "0" for zero. */
  function ToRadixString(n: nat, radix: Radix): (s: string)
    ensures |s| >= 1
    ensures forall i | 0 <= i < |s| :: IsLowerDigit(s[i]) && DigitValue(s[i]) < radix
    ensures s[0] == '0' <==> n == 0
    decreases n
  {
    if n < radix then [ForDigit(n, radix)]
    else
      DivLess(n, radix);
      ToRadixString(n / radix, radix) + [ForDigit(n % radix, radix)]
  }

  /** The number a string of digits denotes, most significant digit first. */
  function ParseDigits(s: string, radix: Radix): nat
    requires IsDigits(s, radix)
  {
    if s == [] then 0
    else
      var prefix := s[..|s| - 1];
      assert IsDigits(prefix, radix) by {
        forall i | 0 <= i < |prefix| ensures 0 <= DigitValue(prefix[i]) < radix {
          assert prefix[i] == s[i];
        }
      }
      var last := DigitValue(s[|s| - 1]);
      var high := ParseDigits(prefix, radix);
      assert 0 <= last && 0 <= high * radix;
      high * radix + last
  }

  lemma ParseDigitsSnoc(s: string, c: char, radix: Radix)
    requires IsDigits(s, radix) && 0 <= DigitValue(c) < radix
    ensures IsDigits(s + [c], radix)
    ensures ParseDigits(s + [c], radix) == ParseDigits(s, radix) * radix + DigitValue(c)
  {
    assert (s + [c])[..|s|] == s;
  }

  /** Rendering in a radix and parsing back gives the number again. */
  lemma {:induction false} RadixRoundTrip(n: nat, radix: Radix)
    ensures ParseDigits(ToRadixString(n, radix), radix) == n
    decreases n
  {
    if n >= radix {
      DivLess(n, radix);
      RadixRoundTrip(n / radix, radix);
      RoundTripStep(n, radix);
    } else {
      SingleDigitRoundTrip(n, radix);
    }
  }

  lemma SingleDigitRoundTrip(n: nat, radix: Radix)
    requires n < radix
    ensures ParseDigits(ToRadixString(n, radix), radix) == n
  {
    var s := ToRadixString(n, radix);
    assert s == [ForDigit(n, radix)] && s[..0] == [];
  }

  lemma RoundTripStep(n: nat, radix: Radix)
    requires n >= radix
    requires ParseDigits(ToRadixString(n / radix, radix), radix) == n / radix
    ensures ParseDigits(ToRadixString(n, radix), radix) == n
  {
    LastDigitSplit(n, radix);
    Recombine(n, radix, ParseDigits(ToRadixString(n / radix, radix), radix));
  }

  lemma Recombine(n: nat, radix: Radix, q: nat)
    requires q == n / radix
    ensures q * radix + n % radix == n
  {
    DivMod(n, radix);
  }

  lemma LastDigitSplit(n: nat, radix: Radix)
    requires n >= radix
    ensures ParseDigits(ToRadixString(n, radix), radix)
         == ParseDigits(ToRadixString(n / radix, radix), radix) * radix + n % radix
  {
    ParseDigitsSnoc(ToRadixString(n / radix, radix), ForDigit(n % radix, radix), radix);
  }

  lemma DivLess(n: nat, r: nat)
    requires 2 <= r <= n
    ensures n / r < n
  {
    var q := n / r;
    DivMod(n, r);
    assert q * r >= q * 2 by { MulAtLeast(q, r, 2); }
  }

  lemma MulAtLeast(q: nat, r: nat, s: nat)
    requires r >= s
    ensures q * r >= q * s
  {
  }

  lemma DivMod(n: nat, r: nat)
    requires r >= 1
    ensures n == (n / r) * r + n % r
  {
  }

  lemma DivBelow(n: nat, r: nat, p: nat)
    requires r >= 1
    ensures n < r * p <==> n / r < p
  {
    var q, m := n / r, n % r;
    DivMod(n, r);
    assert n == r * q + m && 0 <= m < r;
    if q < p {
      MulAtLeast(r, p, q + 1);
      assert r * (q + 1) == r * q + r;
    } else {
      MulAtLeast(r, q, p);
    }
  }

  /** The rendering has at most k digits exactly when the number is below radix^k. */
  lemma {:induction false} RadixLength(n: nat, radix: Radix, k: nat)
    requires k >= 1
    ensures |ToRadixString(n, radix)| <= k <==> n < Pow(radix, k)
    decreases n
  {
    PowAtLeastBase(radix, k);
    if n >= radix {
      var q := n / radix;
      DivLess(n, radix);
      assert |ToRadixString(n, radix)| == |ToRadixString(q, radix)| + 1;
      if k > 1 {
        var p := Pow(radix, k - 1);
        assert Pow(radix, k) == radix * p;
        RadixLength(q, radix, k - 1);
        DivBelow(n, radix, p);
      } else {
        assert |ToRadixString(n, radix)| >= 2;
      }
    }
  }

  lemma MulShift(v: nat, p: nat, r: nat)
    ensures v * p * r == v * (r * p)
  {
  }

  /** `m` padding characters `'0'`. */
  function Zeros(m: nat): (z: string)
    ensures |z| == m
    ensures forall i | 0 <= i < m :: z[i] == '0'
  {
    if m == 0 then "" else Zeros(m - 1) + "0"
  }

  /** Appending m zero digits multiplies the denoted number by radix^m. */
  lemma {:induction false} ParseAppendZeros(s: string, radix: Radix, m: nat)
    requires IsDigits(s, radix)
    ensures IsDigits(s + Zeros(m), radix)
    ensures ParseDigits(s + Zeros(m), radix) == ParseDigits(s, radix) * Pow(radix, m)
  {
    if m == 0 {
      assert s + Zeros(0) == s;
    } else {
      ParseAppendZeros(s, radix, m - 1);
      assert s + Zeros(m) == (s + Zeros(m - 1)) + ['0'];
      ParseDigitsSnoc(s + Zeros(m - 1), '0', radix);
      MulShift(ParseDigits(s, radix), Pow(radix, m - 1), radix);
    }
  }

  /** `Integer.toString(i)`, also what `"" + i` produces. */
  function IntToString(i: int): (s: string)
    ensures |s| >= 1
    ensures s[0] == '-' <==> i < 0
    ensures i < 0 ==> |s| >= 2 && IsDigits(s[1..], 10)
    ensures i >= 0 ==> IsDigits(s, 10)
  {
    if i < 0 then "-" + ToRadixString(-i, 10) else ToRadixString(i, 10)
  }

  /** The text of an optionally signed decimal number. */
  predicate IsIntText(s: string)
  {
    if |s| >= 1 && s[0] == '-' then |s| >= 2 && IsDigits(s[1..], 10) else IsDigits(s, 10)
  }

  /** `Integer.parseInt` of well-formed text. */
  function ParseInt(s: string): int
    requires IsIntText(s)
  {
    if |s| >= 1 && s[0] == '-' then -(ParseDigits(s[1..], 10) as int) else ParseDigits(s, 10)
  }

  /** A number rendered in decimal reads back as the same number. */
  lemma IntToStringRoundTrip(i: int)
    ensures IsIntText(IntToString(i))
    ensures ParseInt(IntToString(i)) == i
  {
    var s := IntToString(i);
    if i < 0 {
      var digits := ToRadixString(-i, 10);
      assert s == "-" + digits;
      assert s[1..] == digits;
      RadixRoundTrip(-i, 10);
      assert ParseDigits(digits, 10) == -i;
    } else {
      RadixRoundTrip(i, 10);
    }
  }

  function LowerChar(c: char): char
  {
    if 'A' <= c <= 'Z' then (c as int - 'A' as int + 'a' as int) as char else c
  }

  function UpperChar(c: char): char
  {
    if 'a' <= c <= 'z' then (c as int - 'a' as int + 'A' as int) as char else c
  }

  /** `String.toLowerCase` restricted to ASCII letters. */
  function ToLowerCase(s: string): (r: string)
    ensures |r| == |s|
    ensures forall i | 0 <= i < |r| :: !('A' <= r[i] <= 'Z')
    ensures forall i | 0 <= i < |r| :: UpperChar(r[i]) == UpperChar(s[i])
  {
    seq(|s|, i requires 0 <= i < |s| => LowerChar(s[i]))
  }

  /** `String.toUpperCase` restricted to ASCII letters. */
  function ToUpperCase(s: string): (r: string)
    ensures |r| == |s|
    ensures forall i | 0 <= i < |r| :: !('a' <= r[i] <= 'z')
    ensures forall i | 0 <= i < |r| :: LowerChar(r[i]) == LowerChar(s[i])
  {
    seq(|s|, i requires 0 <= i < |s| => UpperChar(s[i]))
  }
}
