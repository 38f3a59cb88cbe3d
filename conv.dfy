/** The few text conversions the editor relies on: Go's `strconv.Atoi`,
    `strconv.ParseInt` / `strconv.ParseUint` with base 0 and 64 bits,
    `strconv.ParseBool`, and the decimal rendering of `fmt`'s `%d`. */
module Conv {

  datatype Option<+T> = None | Some(value: T)

  const MaxInt64: int := 0x7FFF_FFFF_FFFF_FFFF
  const MinInt64: int := -0x8000_0000_0000_0000
  const MaxUint64: int := 0xFFFF_FFFF_FFFF_FFFF

  predicate IsDigit(c: char) {
    '0' <= c <= '9'
  }

  /** The value of `c` as a digit in a base up to 36 (letters of either case
      count from 10), or 36 when `c` is no digit at all. */
  function DigitValue(c: char): (d: nat)
    ensures d <= 36
    ensures IsDigit(c) <==> d < 10
  {
    if '0' <= c <= '9' then c as int - '0' as int
    else if 'a' <= c <= 'z' then c as int - 'a' as int + 10
    else if 'A' <= c <= 'Z' then c as int - 'A' as int + 10
    else 36
  }

  predicate AllDigits(s: string, base: nat) {
    forall i :: 0 <= i < |s| ==> DigitValue(s[i]) < base
  }

  /** The number a digit string denotes, most significant digit first. */
  function DigitsValue(s: string, base: nat): nat
    requires AllDigits(s, base)
  {
    if s == [] then 0
    else DigitsValue(s[..|s| - 1], base) * base + DigitValue(s[|s| - 1])
  }

  function DigitChar(d: nat): (c: char)
    requires d < 10
    ensures IsDigit(c) && DigitValue(c) == d
  {
    ('0' as int + d) as char
  }

  /** `%d` of a non-negative number. */
  function FormatNat(n: nat): (s: string)
    ensures s != [] && AllDigits(s, 10)
    ensures s[0] == '0' <==> n == 0
    ensures n == 0 ==> s == "0"
  {
    if n < 10 then [DigitChar(n)] else FormatNat(n / 10) + [DigitChar(n % 10)]
  }

  /** `%d` of any integer: a minus sign before the digits of a negative one. */
  function FormatInt(i: int): (s: string)
    ensures s != []
    ensures i >= 0 ==> AllDigits(s, 10)
    ensures i < 0 ==> s[0] == '-'
  {
    if i < 0 then "-" + FormatNat(-i) else FormatNat(i)
  }

  /** The digits `FormatNat` writes denote the number it was given. */
  lemma {:induction false} FormatNatValue(n: nat)
    ensures DigitsValue(FormatNat(n), 10) == n
  {
    var s := FormatNat(n);
    if n >= 10 {
      FormatNatValue(n / 10);
      assert s[..|s| - 1] == FormatNat(n / 10);
    }
  }

  /** Digits led by anything but '0' denote a positive number. */
  lemma {:induction false} LeadingDigitPositive(s: string)
    requires s != [] && AllDigits(s, 10) && s[0] != '0'
    ensures DigitsValue(s, 10) > 0
    decreases |s|
  {
    if |s| > 1 {
      var p := s[..|s| - 1];
      assert p[0] == s[0];
      LeadingDigitPositive(p);
    }
  }

  /** `%d` writes back exactly the digits it is given a reading of, when
      they have no leading zero. */
  lemma {:induction false} FormatNatDigits(s: string)
    requires s != [] && AllDigits(s, 10) && (s[0] != '0' || |s| == 1)
    ensures FormatNat(DigitsValue(s, 10)) == s
    decreases |s|
  {
    var v := DigitsValue(s, 10);
    var d := DigitValue(s[|s| - 1]);
    if |s| == 1 {
      assert s[..|s| - 1] == [];
      assert DigitsValue(s[..|s| - 1], 10) == 0;
    } else {
      var p := s[..|s| - 1];
      assert p[0] == s[0];
      LeadingDigitPositive(p);
      FormatNatDigits(p);
      var w := DigitsValue(p, 10);
      assert v == w * 10 + d && 0 <= d < 10;
      assert v / 10 == w && v % 10 == d;
      assert p + [s[|s| - 1]] == s;
    }
  }

  /** The sign-stripped digit part of a number's text. */
  function Unsigned(s: string): string
    requires s != []
  {
    if s[0] == '+' || s[0] == '-' then s[1..] else s
  }

  /** `strconv.Atoi` on a 64-bit platform: an optional sign, then one or more
      decimal digits, whose value must fit in an `int64`. */
  function Atoi(s: string): (r: Option<int>)
    ensures r.Some? ==> MinInt64 <= r.value <= MaxInt64
    ensures r.Some? && s != [] && IsDigit(s[0]) ==> r.value >= 0
  {
    if s == [] then None
    else
      var digits := Unsigned(s);
      if digits == [] || !AllDigits(digits, 10) then None
      else
        var n := DigitsValue(digits, 10);
        var v: int := if s[0] == '-' then -(n as int) else n;
        if MinInt64 <= v <= MaxInt64 then Some(v) else None
  }

  /** A digit-led text is an index exactly when all of it is decimal digits
      whose value fits in an `int64`. */
  lemma AtoiDigitLed(s: string)
    requires s != [] && IsDigit(s[0])
    ensures Atoi(s).Some? <==> AllDigits(s, 10) && DigitsValue(s, 10) <= MaxInt64
    ensures Atoi(s).Some? ==> Atoi(s).value == DigitsValue(s, 10)
  {
  }

  /** `Atoi` reads back every non-negative `int64` that `%d` writes. */
  lemma AtoiFormatNat(n: nat)
    requires n <= MaxInt64
    ensures Atoi(FormatNat(n)) == Some(n)
  {
    FormatNatValue(n);
  }

  /** The base that `strconv` chooses for base 0, and the digits that remain
      once the prefix that chose it is removed: `0b`, `0o` and `0x` (either
      case) select 2, 8 and 16, any other leading `0` selects 8, and
      everything else is decimal. */
  function Base0(s: string): (r: (nat, string))
    requires s != []
    ensures r.0 in {2, 8, 10, 16}
  {
    if s[0] != '0' then (10, s)
    else if |s| >= 3 && (s[1] == 'b' || s[1] == 'B') then (2, s[2..])
    else if |s| >= 3 && (s[1] == 'o' || s[1] == 'O') then (8, s[2..])
    else if |s| >= 3 && (s[1] == 'x' || s[1] == 'X') then (16, s[2..])
    else (8, s[1..])
  }

  /** `strconv.ParseUint(s, 0, 64)`, except that underscores are refused. */
  function ParseUint64(s: string): (r: Option<nat>)
    ensures r.Some? ==> r.value <= MaxUint64
    ensures r.Some? ==> s != [] && DigitValue(s[0]) < 10
  {
    if s == [] then None
    else
      var (base, digits) := Base0(s);
      if !AllDigits(digits, base) then None
      else
        var n := DigitsValue(digits, base);
        if n <= MaxUint64 then Some(n) else None
  }

  /** `strconv.ParseInt(s, 0, 64)`, except that underscores are refused: an
      optional sign before what `ParseUint64` accepts, within `int64`. */
  function ParseInt64(s: string): (r: Option<int>)
    ensures r.Some? ==> MinInt64 <= r.value <= MaxInt64
  {
    if s == [] then None
    else
      match ParseUint64(Unsigned(s))
      case None => None
      case Some(u) =>
        if s[0] == '-' then (if u <= MaxInt64 + 1 then Some(-(u as int)) else None)
        else if u <= MaxInt64 then Some(u) else None
  }

  /** Whatever `%d` writes for a `uint64`, `ParseUint64` reads back. */
  lemma ParseUint64FormatNat(n: nat)
    requires n <= MaxUint64
    ensures ParseUint64(FormatNat(n)) == Some(n)
  {
    FormatNatValue(n);
    if n == 0 {
      assert FormatNat(n) == "0";
      assert Base0(FormatNat(n)).1 == [];
    }
  }

  /** Whatever `%d` writes for an `int64`, `ParseInt64` reads back: the
      text the renderer shows for an integer field is a valid new value for
      the set operator, and leaves the field unchanged. */
  lemma ParseInt64FormatInt(i: int)
    requires MinInt64 <= i <= MaxInt64
    ensures ParseInt64(FormatInt(i)) == Some(i)
  {
    if i < 0 {
      ParseUint64FormatNat(-i);
      assert Unsigned(FormatInt(i)) == FormatNat(-i);
    } else {
      ParseUint64FormatNat(i);
      assert Unsigned(FormatInt(i)) == FormatNat(i);
    }
  }

  /** `strconv.ParseBool`: the six spellings of each truth value it knows. */
  function ParseBool(s: string): (r: Option<bool>)
    ensures r == Some(true) <==> s in {"1", "t", "T", "TRUE", "true", "True"}
    ensures r == Some(false) <==> s in {"0", "f", "F", "FALSE", "false", "False"}
  {
    if s in {"1", "t", "T", "TRUE", "true", "True"} then Some(true)
    else if s in {"0", "f", "F", "FALSE", "false", "False"} then Some(false)
    else None
  }

  /** `%v` of a bool. */
  function FormatBool(b: bool): string {
    if b then "true" else "false"
  }

  /** The text the renderer shows for a bool sets it back unchanged. */
  lemma ParseBoolFormatBool(b: bool)
    ensures ParseBool(FormatBool(b)) == Some(b)
  {
  }

  /** The widths of Go's sized integer types. */
  predicate IsWidth(bits: nat) {
    bits == 8 || bits == 16 || bits == 32 || bits == 64
  }

  /** 2 to the power `bits`: one more than the largest unsigned integer of
      that width. */
  function UnsignedLimit(bits: nat): (r: nat)
    requires IsWidth(bits)
    ensures 0x100 <= r <= MaxUint64 + 1
    ensures bits == 64 <==> r == MaxUint64 + 1
  {
    if bits == 8 then 0x100
    else if bits == 16 then 0x1_0000
    else if bits == 32 then 0x1_0000_0000
    else 0x1_0000_0000_0000_0000
  }

  /** 2 to the power `bits - 1`: one more than the largest signed integer of
      that width, and the magnitude of the smallest. */
  function SignedLimit(bits: nat): (r: nat)
    requires IsWidth(bits)
    ensures 2 * r == UnsignedLimit(bits)
    ensures r <= MaxInt64 + 1
  {
    if bits == 8 then 0x80
    else if bits == 16 then 0x8000
    else if bits == 32 then 0x8000_0000
    else 0x8000_0000_0000_0000
  }

  /** Go's conversion of an `int64` to a signed integer of `bits` bits:
      two's-complement wrap-around. */
  function WrapSigned(x: int, bits: nat): (r: int)
    requires IsWidth(bits)
    ensures -(SignedLimit(bits) as int) <= r < SignedLimit(bits)
    ensures -(SignedLimit(bits) as int) <= x < SignedLimit(bits) ==> r == x
    ensures (r - x) % UnsignedLimit(bits) == 0
  {
    var half := SignedLimit(bits);
    ModBounds(x + half, 2 * half);
    ModDifference(x + half, 2 * half);
    assert (x + half) % (2 * half) - half - x == (x + half) % (2 * half) - (x + half);
    (x + half) % (2 * half) - half
  }

  /** Go's conversion of a `uint64` to an unsigned integer of `bits` bits. */
  function WrapUnsigned(x: nat, bits: nat): (r: nat)
    requires IsWidth(bits)
    ensures r < UnsignedLimit(bits)
    ensures x < UnsignedLimit(bits) ==> r == x
    ensures (x - r) % UnsignedLimit(bits) == 0
  {
    ModBounds(x, UnsignedLimit(bits));
    ModDifference(x, UnsignedLimit(bits));
    assert (x % UnsignedLimit(bits) - x) % UnsignedLimit(bits) == 0;
    NegMultiple(x - x % UnsignedLimit(bits), UnsignedLimit(bits));
    x % UnsignedLimit(bits)
  }

  /** Reducing modulo `m` changes a number by a multiple of `m`. */
  lemma ModDifference(a: int, m: int)
    requires m > 0
    ensures (a % m - a) % m == 0
  {
    var q := a / m;
    assert a % m - a == (-q) * m;
    MultipleMod(-q, m);
  }

  lemma MultipleMod(q: int, m: int)
    requires m > 0
    ensures (q * m) % m == 0
  {
    var r := (q * m) % m;
    var d := (q * m) / m;
    assert (q - d) * m == r;
    if q - d >= 1 {
      ProductAtLeast(q - d, m);
    }
  }

  lemma {:induction false} ProductAtLeast(k: int, m: int)
    requires k >= 1 && m > 0
    ensures k * m >= m
    decreases k
  {
    if k > 1 {
      ProductAtLeast(k - 1, m);
      assert k * m == (k - 1) * m + m;
    }
  }

  lemma NegMultiple(a: int, m: int)
    requires m > 0 && (-a) % m == 0
    ensures a % m == 0
  {
    var q := (-a) / m;
    assert a == (-q) * m;
    MultipleMod(-q, m);
  }

  lemma ModBounds(a: int, m: int)
    requires m > 0
    ensures 0 <= a % m < m
    ensures 0 <= a < m ==> a % m == a
  {
  }
}
