/** Decimal strings and the exact rationals they denote. A big.Rat is a real. Of
    big.Rat's own parser only its behaviour on plain decimals is known; every other
    form (exponents, fractions, signs, hexadecimal) is left to it. */
module Decimals {
  import opened Results

  // ----- powers of ten and truncation ------------------------------------------------------

  function Pow10(n: nat): (p: int)
    ensures p >= 1
  {
    if n == 0 then 1 else 10 * Pow10(n - 1)
  }

  lemma {:induction false} Pow10Adds(a: nat, b: nat)
    ensures Pow10(a + b) == Pow10(a) * Pow10(b)
  {
    if b > 0 {
      Pow10Adds(a, b - 1);
      assert Pow10(b) == 10 * Pow10(b - 1) && Pow10(a + b) == 10 * Pow10(a + (b - 1));
      hide Pow10;
      Tenfold(Pow10(a), Pow10(b - 1));
    }
  }

  lemma Tenfold(x: int, y: int)
    ensures x * (10 * y) == 10 * (x * y)
  {}

  /** Truncation toward zero, as big.Int.Quo divides. */
  function Trunc(x: real): int {
    if x >= 0.0 then x.Floor else -((-x).Floor)
  }

  /** x in units of 10^-d. */
  function Scaled(x: real, d: nat): real {
    x * Pow10(d) as real
  }

  function FixedDecimal(value: real, decimals: nat): int {
    Trunc(Scaled(value, decimals))
  }

  function TruncateRat(value: real, decimals: int): real {
    if decimals < 0 then value else Trunc(Scaled(value, decimals)) as real / Pow10(decimals) as real
  }

  // ----- strings ------------------------------------------------------------------------------

  /** unicode.IsSpace */
  predicate IsSpace(c: char) {
    var n := c as int;
    0x09 <= n <= 0x0D || n == 0x20 || n == 0x85 || n == 0xA0 || n == 0x1680 || 0x2000 <= n <= 0x200A ||
    n == 0x2028 || n == 0x2029 || n == 0x202F || n == 0x205F || n == 0x3000
  }

  function TrimLeft(s: string): string {
    if s != "" && IsSpace(s[0]) then TrimLeft(s[1..]) else s
  }

  function TrimRight(s: string): string {
    if s != "" && IsSpace(s[|s| - 1]) then TrimRight(s[..|s| - 1]) else s
  }

  function TrimSpace(s: string): string {
    TrimRight(TrimLeft(s))
  }

  predicate AllSpace(s: string) {
    forall i :: 0 <= i < |s| ==> IsSpace(s[i])
  }

  lemma {:induction false} LeftTrimmed(s: string, i: nat)
    requires i <= |s| && AllSpace(s[..i]) && (i < |s| ==> !IsSpace(s[i]))
    ensures TrimLeft(s) == s[i..]
  {
    if i > 0 {
      assert s[..i][0] == s[0];
      assert s[1..][..i - 1] == s[..i][1..];
      LeftTrimmed(s[1..], i - 1);
    }
  }

  lemma {:induction false} RightTrimmed(s: string, j: nat)
    requires j <= |s| && AllSpace(s[j..]) && (j > 0 ==> !IsSpace(s[j - 1]))
    ensures TrimRight(s) == s[..j]
  {
    if j < |s| {
      var n := |s| - 1;
      assert s[j..][n - j] == s[n];
      assert forall k :: 0 <= k < n - j ==> s[..n][j..][k] == s[j..][k];
      RightTrimmed(s[..n], j);
      assert s[..n][..j] == s[..j];
    }
  }

  /** What TrimSpace leaves is what stands between the spaces. */
  lemma TrimmedIs(s: string, i: nat, j: nat)
    requires i < j <= |s| && AllSpace(s[..i]) && AllSpace(s[j..]) && !IsSpace(s[i]) && !IsSpace(s[j - 1])
    ensures TrimSpace(s) == s[i..j]
  {
    LeftTrimmed(s, i);
    assert s[i..][j - i..] == s[j..] && s[i..][..j - i] == s[i..j];
    RightTrimmed(s[i..], j - i);
  }

  /** It always stands between spaces and neither begins nor ends with one. */
  lemma Trimmed(s: string) returns (i: nat, j: nat)
    ensures i <= j <= |s| && AllSpace(s[..i]) && AllSpace(s[j..]) && TrimSpace(s) == s[i..j]
    ensures i < j ==> !IsSpace(s[i]) && !IsSpace(s[j - 1])
  {
    i := 0;
    while i < |s| && IsSpace(s[i])
      invariant i <= |s| && AllSpace(s[..i])
    {
      i := i + 1;
    }
    LeftTrimmed(s, i);
    j := |s|;
    while i < j && IsSpace(s[j - 1])
      invariant i <= j <= |s| && AllSpace(s[j..])
    {
      assert s[j - 1..] == [s[j - 1]] + s[j..];
      j := j - 1;
    }
    if i < j {
      TrimmedIs(s, i, j);
    } else {
      assert s[i..] == [] || i == j;
      RightTrimmed(s[i..], 0);
      assert s[i..][0..] == s[i..];
    }
  }

  lemma TrimmedOnce(s: string)
    ensures TrimSpace(TrimSpace(s)) == TrimSpace(s)
  {
    var i, j := Trimmed(s);
    if i < j {
      var t := s[i..j];
      assert t[..0] == "" && t[|t|..] == "" && t[0..|t|] == t;
      TrimmedIs(t, 0, |t|);
    }
  }

  predicate IsDigit(c: char) {
    '0' <= c <= '9'
  }

  predicate AllDigits(s: string) {
    forall i :: 0 <= i < |s| ==> IsDigit(s[i])
  }

  /** The number of characters before the first '.', or all of them. */
  function PointAt(s: string): (k: nat)
    ensures k <= |s|
    ensures forall i :: 0 <= i < k ==> s[i] != '.'
    ensures k < |s| ==> s[k] == '.'
  {
    if s == "" || s[0] == '.' then 0 else 1 + PointAt(s[1..])
  }

  function TrimZeros(s: string): string {
    if s != "" && s[|s| - 1] == '0' then TrimZeros(s[..|s| - 1]) else s
  }

  function DecimalPlaces(raw: string): nat {
    var s := TrimSpace(raw);
    var k := PointAt(s);
    if k < |s| then |TrimZeros(s[k + 1..])| else 0
  }

  // ----- plain decimals -----------------------------------------------------------------------

  function Digits(s: string): nat
    requires AllDigits(s)
  {
    if s == "" then 0 else Digits(s[..|s| - 1]) * 10 + (s[|s| - 1] as int - '0' as int)
  }

  function Fraction(s: string): string {
    var k := PointAt(s);
    if k < |s| then s[k + 1..] else ""
  }

  /** At least one digit, with an optional point before, among or after the digits. */
  predicate Plain(s: string) {
    var k := PointAt(s);
    AllDigits(s[..k]) && AllDigits(Fraction(s)) && k + |Fraction(s)| > 0
  }

  function DecimalValue(s: string): real
    requires Plain(s)
  {
    var whole, fraction := s[..PointAt(s)], Fraction(s);
    Digits(whole) as real + Digits(fraction) as real / Pow10(|fraction|) as real
  }

  /** A parser of rationals that reads plain decimals as what they denote. */
  type Parser = string -> Option<real>

  ghost predicate Faithful(parse: Parser) {
    forall s :: Plain(s) ==> parse(s) == Some(DecimalValue(s))
  }

  predicate IsInteger(x: real) {
    x.Floor as real == x
  }

  /** Trailing zeros of a fraction do not change its value. */
  lemma {:induction false} TrimmedFraction(f: string)
    requires AllDigits(f)
    ensures AllDigits(TrimZeros(f))
    ensures Digits(f) * Pow10(|TrimZeros(f)|) == Digits(TrimZeros(f)) * Pow10(|f|)
  {
    if f != "" && f[|f| - 1] == '0' {
      var g := f[..|f| - 1];
      TrimmedFraction(g);
      assert Digits(f) == Digits(g) * 10 && Pow10(|f|) == 10 * Pow10(|g|);
      hide Digits, Pow10;
      TenfoldBoth(Digits(g), Pow10(|TrimZeros(g)|), Digits(TrimZeros(g)), Pow10(|g|));
    }
  }

  lemma TenfoldBoth(x: int, y: int, z: int, w: int)
    requires x * y == z * w
    ensures (x * 10) * y == z * (10 * w)
  {
    assert (x * 10) * y == 10 * (x * y);
    assert z * (10 * w) == 10 * (z * w);
  }

  /** A plain decimal is an integer number of units in its last counted place. */
  lemma PlacesSuffice(raw: string)
    requires Plain(TrimSpace(raw))
    ensures IsInteger(Scaled(DecimalValue(TrimSpace(raw)), DecimalPlaces(raw)))
  {
    var units := InLastPlace(raw);
  }

  /** That number; if a place is counted, it does not end in a zero. */
  lemma InLastPlace(raw: string) returns (units: int)
    requires Plain(TrimSpace(raw))
    ensures Scaled(DecimalValue(TrimSpace(raw)), DecimalPlaces(raw)) == units as real
    ensures DecimalPlaces(raw) > 0 ==> units % 10 != 0
  {
    var s := TrimSpace(raw);
    var whole, f := s[..PointAt(s)], Fraction(s);
    assert AllDigits(f);
    TrimmedFraction(f);
    NoFinalZero(f);
    var d := |TrimZeros(f)|;
    assert DecimalPlaces(raw) == d;
    assert DecimalValue(s) == Digits(whole) as real + Digits(f) as real / Pow10(|f|) as real;
    units := Digits(whole) * Pow10(d) + Digits(TrimZeros(f));
    assert d > 0 ==> units % 10 == Digits(TrimZeros(f)) % 10 by {
      if d > 0 {
        EndsInZero(Digits(whole), Pow10(d - 1), Digits(TrimZeros(f)));
      }
    }
    hide *;
    ValueInUnits(Digits(whole), Digits(f), Pow10(|f|), d, Digits(TrimZeros(f)));
  }

  lemma EndsInZero(x: int, p: int, y: int)
    ensures (x * (10 * p) + y) % 10 == y % 10
  {
    assert x * (10 * p) == 10 * (x * p);
  }

  lemma {:induction false} NoFinalZero(f: string)
    requires AllDigits(f)
    ensures AllDigits(TrimZeros(f)) && (TrimZeros(f) != "" ==> Digits(TrimZeros(f)) % 10 != 0)
  {
    if f != "" && f[|f| - 1] == '0' {
      NoFinalZero(f[..|f| - 1]);
    }
  }

  /** The counted places are exactly those that the value needs. */
  lemma PlacesAreLeast(raw: string, n: nat)
    requires Plain(TrimSpace(raw))
    ensures DecimalPlaces(raw) <= n <==> IsInteger(Scaled(DecimalValue(TrimSpace(raw)), n))
  {
    hide DecimalPlaces, DecimalValue, Plain, TrimSpace;
    var x, d := DecimalValue(TrimSpace(raw)), DecimalPlaces(raw);
    var units := InLastPlace(raw);
    if d <= n {
      MorePlaces(x, d, n);
    } else if IsInteger(Scaled(x, n)) {
      MorePlaces(x, n, d - 1);
      TenUnits(x, d - 1);
      assert false;
    }
  }

  lemma TenUnits(x: real, d: nat)
    ensures Scaled(x, d + 1) == 10.0 * Scaled(x, d)
  {}

  lemma ValueInUnits(whole: nat, n: nat, den: int, d: nat, n': nat)
    requires den >= 1 && n * Pow10(d) == n' * den
    ensures Scaled(whole as real + n as real / den as real, d) == (whole * Pow10(d) + n') as real
  {
    CrossMultiply(n, den, n', Pow10(d));
    ScaledSum(whole, n as real / den as real, d, n');
  }

  lemma CrossMultiply(n: nat, den: int, n': nat, den': int)
    requires den >= 1 && den' >= 1 && n * den' == n' * den
    ensures (n as real / den as real) * den' as real == n' as real
  {
    var q := n as real / den as real;
    assert q * den as real == n as real;
    assert (q * den' as real) * den as real == n as real * den' as real;
    assert n as real * den' as real == n' as real * den as real;
  }

  lemma ScaledSum(whole: int, fraction: real, d: nat, units: int)
    requires fraction * Pow10(d) as real == units as real
    ensures Scaled(whole as real + fraction, d) == (whole * Pow10(d) + units) as real
  {
    var p := Pow10(d);
    assert whole as real * p as real == (whole * p) as real;
    assert (whole as real + fraction) * p as real == whole as real * p as real + fraction * p as real;
  }

  /** More places keep an integer number of units an integer. */
  lemma MorePlaces(x: real, d: nat, e: nat)
    requires IsInteger(Scaled(x, d)) && d <= e
    ensures IsInteger(Scaled(x, e))
  {
    var m := Scaled(x, d).Floor;
    Pow10Adds(d, e - d);
    hide Pow10;
    Rescale(x, Pow10(d), Pow10(e - d), m);
    assert Scaled(x, e) == (m * Pow10(e - d)) as real;
  }

  lemma Rescale(x: real, p: int, q: int, m: int)
    requires x * p as real == m as real
    ensures x * (p * q) as real == (m * q) as real
  {
    RealProduct(p, q);
    RealProduct(m, q);
    var rp, rq := p as real, q as real;
    assert x * (rp * rq) == (x * rp) * rq;
  }

  lemma RealProduct(a: int, b: int)
    ensures (a * b) as real == a as real * b as real
  {}
}
