/** Model of `UUID25Generator`: a UUID compressed to 25 characters drawn from
    `0-9a-z` by re-rendering its 128 bits in base 36 and right-padding with
    `'0'`. The random UUID is an input of the model. */
module UUID25Generator {
  import opened JavaLang

  const TWO_128: nat := 0x1_0000_0000_0000_0000_0000_0000_0000_0000
  const ID_LENGTH: nat := 25

  /** The 128 bits of a `java.util.UUID`, most significant bits first, read as
      one unsigned number. */
  type Uuid = u: nat | u < TWO_128

  /** 2^128 = 16^32 < 36^25: every UUID fits in 32 hex digits and 25 base-36 digits. */
  lemma UuidBounds()
    ensures Pow(16, 32) == TWO_128
    ensures Pow(36, 24) == 22452257707354557240087211123792674816
    ensures TWO_128 < Pow(36, ID_LENGTH)
  {
    assert Pow(36, 5) == 60466176;
    assert Pow(36, 4) == 1679616;
    PowAdd(36, 5, 5);
    PowAdd(36, 10, 5);
    PowAdd(36, 15, 5);
    PowAdd(36, 20, 5);
    PowAdd(36, 20, 4);
    assert Pow(16, 8) == 0x1_0000_0000;
    PowAdd(16, 8, 8);
    PowAdd(16, 16, 16);
  }

  /** `width` lower-case hex digits of `n`, zero-padded on the left, the way
      `UUID.toString` writes each of its groups. */
  function HexGroup(n: nat, width: nat): (s: string)
    ensures |s| == width
    ensures forall i | 0 <= i < width :: IsLowerDigit(s[i]) && DigitValue(s[i]) < 16
  {
    if width == 0 then "" else HexGroup(n / 16, width - 1) + [ForDigit(n % 16, 16)]
  }

  /** A number below 16^width is exactly what its hex group denotes. */
  lemma {:induction false} HexGroupValue(n: nat, width: nat)
    requires n < Pow(16, width)
    ensures ParseDigits(HexGroup(n, width), 16) == n
  {
    if width > 0 {
      var q := n / 16;
      DivBelow(n, 16, Pow(16, width - 1));
      HexGroupValue(q, width - 1);
      ParseDigitsSnoc(HexGroup(q, width - 1), ForDigit(n % 16, 16), 16);
      DivMod(n, 16);
    }
  }

  /** `UUID.toString()`: 32 lower-case hex digits in groups 8-4-4-4-12. */
  function UuidToString(u: Uuid): (s: string)
    ensures |s| == 36
    ensures s[8] == '-' && s[13] == '-' && s[18] == '-' && s[23] == '-'
  {
    var h := HexGroup(u, 32);
    h[..8] + "-" + h[8..12] + "-" + h[12..16] + "-" + h[16..20] + "-" + h[20..]
  }

  /** `s.replaceAll("-", "")`. */
  function RemoveDashes(s: string): (r: string)
    ensures |r| <= |s|
    ensures forall i | 0 <= i < |r| :: r[i] != '-'
  {
    if s == [] then ""
    else (if s[0] == '-' then "" else [s[0]]) + RemoveDashes(s[1..])
  }

  lemma {:induction false} RemoveDashesAppend(a: string, b: string)
    ensures RemoveDashes(a + b) == RemoveDashes(a) + RemoveDashes(b)
  {
    if a == [] {
      assert a + b == b;
    } else {
      assert (a + b)[1..] == a[1..] + b;
      RemoveDashesAppend(a[1..], b);
    }
  }

  predicate NoDash(s: string)
  {
    forall i | 0 <= i < |s| :: s[i] != '-'
  }

  lemma {:induction false} RemoveDashesNone(s: string)
    requires NoDash(s)
    ensures RemoveDashes(s) == s
  {
    if s != [] {
      RemoveDashesNone(s[1..]);
    }
  }

  /** The hex text the UUID is parsed from (`uuidHex`). */
  function UuidHex(u: Uuid): string
  {
    RemoveDashes(UuidToString(u))
  }

  /** Removing the dashes of the canonical text leaves 32 hex digits that
      denote the UUID's 128-bit value. */
  lemma UuidHexDigits(u: Uuid)
    ensures |UuidHex(u)| == 32
    ensures IsDigits(UuidHex(u), 16)
    ensures ParseDigits(UuidHex(u), 16) == u
  {
    var h := HexGroup(u, 32);
    forall i | 0 <= i < |h| ensures h[i] != '-' {
      assert IsLowerDigit(h[i]);
    }
    var g1, g2, g3, g4, g5 := h[..8], h[8..12], h[12..16], h[16..20], h[20..];
    assert UuidToString(u) == g1 + "-" + g2 + "-" + g3 + "-" + g4 + "-" + g5;
    RemoveDashesNone(g1);
    RemoveDashesAfterDash(g1, g2);
    RemoveDashesAfterDash(g1 + "-" + g2, g3);
    RemoveDashesAfterDash(g1 + "-" + g2 + "-" + g3, g4);
    RemoveDashesAfterDash(g1 + "-" + g2 + "-" + g3 + "-" + g4, g5);
    assert g1 + g2 + g3 + g4 + g5 == h;
    UuidBounds();
    HexGroupValue(u, 32);
  }

  lemma RemoveDashesAfterDash(x: string, y: string)
    requires NoDash(y)
    ensures RemoveDashes(x + "-" + y) == RemoveDashes(x) + y
  {
    RemoveDashesAppend(x + "-", y);
    RemoveDashesAppend(x, "-");
    RemoveDashesNone(y);
  }

  /** `new BigInteger(uuidHex, 16).toString(36)`: the base-36 rendering before
      padding. It denotes the UUID's value, uses only `0-9a-z` and has at most
      25 digits because 2^128 < 36^25. */
  function Radix36Text(u: Uuid): (s: string)
    ensures 1 <= |s| <= ID_LENGTH
    ensures forall i | 0 <= i < |s| :: IsLowerDigit(s[i])
    ensures s == ToRadixString(u, 36)
    ensures IsDigits(s, 36) && ParseDigits(s, 36) == u
  {
    UuidHexDigits(u);
    var b := ParseDigits(UuidHex(u), 16);
    RadixRoundTrip(b, 36);
    UuidBounds();
    RadixLength(b, 36, ID_LENGTH);
    ToRadixString(b, 36)
  }

  /** `get25LettersRadix36UUID` for a given UUID: the base-36 text, then the
      padding loop that appends `'0'` until there are 25 characters. */
  method Get25LettersRadix36UUID(u: Uuid) returns (s: string)
    ensures |s| == ID_LENGTH
    ensures forall i | 0 <= i < |s| :: IsLowerDigit(s[i])
    ensures s[..|Radix36Text(u)|] == Radix36Text(u)
    ensures forall i | |Radix36Text(u)| <= i < ID_LENGTH :: s[i] == '0'
    ensures s == Id25(u)
  {
    var b := Radix36Text(u);
    s := b;
    while |s| < ID_LENGTH
      invariant |b| <= |s| <= ID_LENGTH
      invariant s == b + Zeros(|s| - |b|)
      decreases ID_LENGTH - |s|
    {
      assert Zeros(|s| + 1 - |b|) == Zeros(|s| - |b|) + "0";
      s := s + "0";
    }
  }

  /** The identifier `Get25LettersRadix36UUID` returns, as a value. */
  function Id25(u: Uuid): string
  {
    Radix36Text(u) + Zeros(ID_LENGTH - |Radix36Text(u)|)
  }

  /** Read back in base 36, the identifier is the UUID shifted left by the
      number of padding digits: padding multiplies, it does not preserve the value. */
  lemma Id25Value(u: Uuid)
    ensures IsDigits(Id25(u), 36)
    ensures ParseDigits(Id25(u), 36) == u * Pow(36, ID_LENGTH - |Radix36Text(u)|)
  {
    ParseAppendZeros(Radix36Text(u), 36, ID_LENGTH - |Radix36Text(u)|);
  }

  /** A power of the radix renders as a one followed by zeros. */
  lemma {:induction false} RadixPowerText(k: nat)
    ensures ToRadixString(Pow(36, k), 36) == "1" + Zeros(k)
  {
    if k > 0 {
      RadixPowerText(k - 1);
      var p := Pow(36, k - 1);
      assert Pow(36, k) == 36 * p;
      PowAtLeastBase(36, k);
      MulDivExact(p, 36);
      assert ToRadixString(Pow(36, k), 36) == ToRadixString(p, 36) + ['0'];
    }
  }

  lemma MulDivExact(p: nat, r: nat)
    requires r >= 1
    ensures (r * p) / r == p && (r * p) % r == 0
  {
    var n := r * p;
    DivMod(n, r);
    var q := n / r;
    MulStep(r, q, p);
    MulStep(r, p, q);
  }

  lemma MulStep(r: nat, a: nat, b: nat)
    ensures a < b ==> r * a + r <= r * b
  {
    if a < b {
      MulAtLeast(r, b, a + 1);
    }
  }

  /** 36^24 is a UUID value other than 1. */
  lemma PaddedPowerIsUuid()
    ensures 1 < Pow(36, 24) < TWO_128
  {
    UuidBounds();
  }

  /** The padded identifier does not determine the UUID: the values 1 and
      36^24 render as "1" and "1" followed by 24 zeros, and right-padding the
      first gives the second. */
  lemma RightPaddingCollides()
    ensures 1 < Pow(36, 24) < TWO_128
    ensures Id25(1) == Id25(Pow(36, 24))
  {
    PaddedPowerIsUuid();
    var big: Uuid := Pow(36, 24);
    RadixPowerText(24);
    var padded := "1" + Zeros(24);
    assert Radix36Text(big) == padded;
    assert Radix36Text(1) == "1" by {
      assert ToRadixString(1, 36) == [ForDigit(1, 36)];
    }
    assert Zeros(0) == "";
    assert Id25(big) == padded + Zeros(0);
    assert Id25(1) == padded;
  }
}
