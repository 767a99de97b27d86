/** The fixed-point decimal formatter of the weather-station example.
    fmtD(val, i, f) writes the low decimal digits of `val` right to left
    into a byte string of length i + f + 1: `i` integer digits, a '.', and
    `f` fraction digits.  Digits that do not fit are dropped. */
module Weather {
  import opened Optional

  /** A Go uint32. */
  type Uint32 = v: int | 0 <= v < 0x1_0000_0000

  /** A Go byte. */
  type Byte = b: int | 0 <= b < 0x100

  const Dot: Byte := 0x2E
  const Zero: Byte := 0x30

  predicate IsDigit(b: Byte) {
    Zero <= b <= Zero + 9
  }

  function DigitValue(b: Byte): int {
    b - Zero
  }

  /** itoc: the byte '0' + v, truncated to a byte as Go's conversion does. */
  function Itoc(v: Uint32): (r: Byte)
    ensures v < 10 ==> IsDigit(r) && DigitValue(r) == v
  {
    (Zero + v) % 0x100
  }

  function Pow10(k: nat): (r: nat)
    ensures r >= 1
  {
    if k == 0 then 1 else 10 * Pow10(k - 1)
  }

  /** `v` with its `k` low decimal digits dropped. */
  function Drop(v: nat, k: nat): nat {
    var d := Pow10(k);
    assert 0 <= v / d by { DivNonnegative(v, d); }
    v / d
  }

  // ---------------------------------------------------------------------
  // Zero-padded decimal runs

  /** The `k` low decimal digits of `v`, most significant first, padded
      with '0' on the left. */
  function Decimal(v: nat, k: nat): (r: seq<Byte>)
    ensures |r| == k
  {
    if k == 0 then [] else Decimal(v / 10, k - 1) + [Itoc(v % 10)]
  }

  /** The number a run of digits denotes. */
  function DecimalValue(s: seq<Byte>): int {
    if s == [] then 0 else 10 * DecimalValue(s[..|s| - 1]) + DigitValue(s[|s| - 1])
  }

  /** Digit `j` of a run is the digit of weight 10^(k - 1 - j). */
  lemma {:induction false} DecimalAt(v: nat, k: nat, j: nat)
    requires j < k
    ensures Decimal(v, k)[j] == Itoc(Drop(v, k - 1 - j) % 10)
  {
    if j < k - 1 {
      DecimalAt(v / 10, k - 1, j);
      DropSucc(v, k - 2 - j);
    }
  }

  /** A run holds digits only. */
  lemma DecimalDigits(v: nat, k: nat, j: nat)
    requires j < k
    ensures IsDigit(Decimal(v, k)[j])
  {
    DecimalAt(v, k, j);
  }

  /** Reading a run back gives `v` modulo 10^k: the digits above are dropped. */
  lemma {:induction false} DecimalRoundTrip(v: nat, k: nat)
    ensures DecimalValue(Decimal(v, k)) == v % Pow10(k)
  {
    if k > 0 {
      var s := Decimal(v, k);
      assert s[..k - 1] == Decimal(v / 10, k - 1);
      DecimalRoundTrip(v / 10, k - 1);
      ModSplit(v, Pow10(k - 1));
    }
  }

  /** A run of `i` digits of v / 10^f followed by a run of `f` digits of `v`
      is the run of i + f digits of `v`. */
  lemma {:induction false} DecimalSplit(v: nat, i: nat, f: nat)
    ensures Decimal(Drop(v, f), i) + Decimal(v, f) == Decimal(v, i + f)
  {
    if f > 0 {
      var high, low, last := Decimal(Drop(v, f), i), Decimal(v / 10, f - 1), [Itoc(v % 10)];
      DropSucc(v, f - 1);
      DecimalSplit(v / 10, i, f - 1);
      assert Decimal(v, f) == low + last;
      assert Decimal(v, i + f) == Decimal(v / 10, i + f - 1) + last;
      RunAssoc(high, low, last);
    }
  }

  /** Proof helper: re-associates three digit runs. */
  lemma RunAssoc(a: seq<Byte>, b: seq<Byte>, c: seq<Byte>)
    ensures a + (b + c) == (a + b) + c
  {
  }

  // ---------------------------------------------------------------------
  // fmtD

  /** Whether fmtD writes a '.': the loop meets position i + 1 inside the
      result and above 0. */
  predicate HasDot(i: int, f: int) {
    0 <= i && 1 <= f
  }

  /** How many digits fmtD writes. */
  function DigitCount(i: int, f: int): int {
    if HasDot(i, f) then i + f else i + f + 1
  }

  /** What fmtD returns, as runs of digits around the '.'. */
  function Formatted(val: Uint32, i: int, f: int): (r: seq<Byte>)
    requires 0 <= i + f + 1
    ensures |r| == i + f + 1
  {
    if HasDot(i, f) then Decimal(Drop(val, f), i) + [Dot] + Decimal(val, f)
    else Decimal(val, i + f + 1)
  }

  /** How many digits lie to the right of position `p`. */
  function DigitsRightOf(i: int, f: int, p: int): int {
    i + f - p - (if HasDot(i, f) && p < i then 1 else 0)
  }

  /** Position by position: the '.' at `i`, and elsewhere the digit of
      `val` whose weight is 10 to the number of digits to its right. */
  lemma FormattedAt(val: Uint32, i: int, f: int, p: nat)
    requires p < i + f + 1
    ensures 0 <= DigitsRightOf(i, f, p)
    ensures Formatted(val, i, f)[p]
         == if HasDot(i, f) && p == i then Dot else Itoc(Drop(val, DigitsRightOf(i, f, p)) % 10)
  {
    if HasDot(i, f) {
      if p < i {
        DecimalAt(Drop(val, f), i, p);
        DropAdd(val, f, i - 1 - p);
      } else if p > i {
        DecimalAt(val, f, p - i - 1);
      }
    } else {
      DecimalAt(val, i + f + 1, p);
    }
  }

  /** The result has a '.' exactly at position `i`, and only when f >= 1
      (and i >= 0). */
  lemma DotExactlyAt(val: Uint32, i: int, f: int, p: nat)
    requires p < i + f + 1
    ensures Formatted(val, i, f)[p] == Dot <==> HasDot(i, f) && p == i
  {
    FormattedAt(val, i, f, p);
  }

  /** Every other position holds an ASCII digit. */
  lemma DigitsElsewhere(val: Uint32, i: int, f: int, p: nat)
    requires p < i + f + 1 && !(HasDot(i, f) && p == i)
    ensures IsDigit(Formatted(val, i, f)[p])
  {
    FormattedAt(val, i, f, p);
  }

  /** The result with its '.' removed. */
  function WithoutDot(s: seq<Byte>, i: int, f: int): seq<Byte>
    requires 0 <= i + f + 1 == |s|
  {
    if HasDot(i, f) then s[..i] + s[i + 1..] else s
  }

  /** With the '.' removed, the result is the zero-padded run of the low
      DigitCount(i, f) digits of `val`, and it reads back as `val` modulo
      10^DigitCount(i, f). */
  lemma FormattedDigits(val: Uint32, i: int, f: int)
    requires 0 <= i + f + 1
    ensures DigitCount(i, f) >= 0
    ensures WithoutDot(Formatted(val, i, f), i, f) == Decimal(val, DigitCount(i, f))
    ensures DecimalValue(WithoutDot(Formatted(val, i, f), i, f)) == val % Pow10(DigitCount(i, f))
  {
    if HasDot(i, f) {
      var left, right := Decimal(Drop(val, f), i), Decimal(val, f);
      var s := Formatted(val, i, f);
      assert s[..i] == left;
      assert s[i + 1..] == right;
      DecimalSplit(val, i, f);
    }
    DecimalRoundTrip(val, DigitCount(i, f));
  }

  /** The example's temperature reading 2345 (in hundredths of a degree)
      with two integer and two fraction digits reads "23.45"; with one
      integer digit the leading 2 is dropped. */
  lemma TemperatureExample()
    ensures Formatted(2345, 2, 2) == [Zero + 2, Zero + 3, Dot, Zero + 4, Zero + 5]
    ensures Formatted(2345, 1, 2) == [Zero + 3, Dot, Zero + 4, Zero + 5]
  {
    assert Drop(2345, 2) == 23;
    assert Decimal(23, 2) == [Zero + 2, Zero + 3];
    assert Decimal(23, 1) == [Zero + 3];
    assert Decimal(2345, 2) == [Zero + 4, Zero + 5];
  }

  /** fmtD: the result is filled right to left, one digit of `val` per
      position, with the '.' written right after position i + 1.  A
      negative length makes Go's `make` panic; that outcome is None. */
  method FmtD(val: Uint32, i: int, f: int) returns (s: Option<seq<Byte>>)
    ensures s.None? <==> i + f + 1 < 0
    ensures s.Some? ==> |s.value| == i + f + 1 && s.value == Formatted(val, i, f)
  {
    if i + f + 1 < 0 {
      return None;
    }
    var result := new Byte[i + f + 1];
    ghost var spec := Formatted(val, i, f);
    var v := val;
    var p := result.Length - 1;
    while p >= 0
      invariant -1 <= p < result.Length
      invariant !(HasDot(i, f) && p == i)
      invariant 0 <= DigitsRightOf(i, f, p) && v == Drop(val, DigitsRightOf(i, f, p))
      invariant forall q :: p < q < result.Length ==> result[q] == spec[q]
      decreases p + 1
    {
      FormattedAt(val, i, f, p);
      result[p] := Itoc(v % 10);
      DropOne(val, DigitsRightOf(i, f, p));
      v := v / 10;
      if p == i + 1 && p > 0 {
        p := p - 1;
        FormattedAt(val, i, f, p);
        result[p] := Dot;
      }
      p := p - 1;
    }
    s := Some(result[..]);
  }

  // ---------------------------------------------------------------------
  // Arithmetic

  /** Quotient and remainder are the unique pair with a == m * q + r and
      0 <= r < m. */
  lemma DivModUnique(a: int, m: int, q: int, r: int)
    requires 0 < m && a == m * q + r && 0 <= r < m
    ensures a / m == q && a % m == r
  {
    var q', r' := a / m, a % m;
    assert a == m * q' + r';
    if q' < q {
      MulLe(m, q' + 1, q);
    } else if q < q' {
      MulLe(m, q + 1, q');
    }
  }

  lemma MulLe(m: int, a: int, b: int)
    requires 0 < m && a <= b
    ensures m * a <= m * b
  {
  }

  lemma DivDiv(a: nat, b: nat, c: nat)
    requires 0 < b && 0 < c
    ensures a / b / c == a / (b * c)
  {
    var q1, r1 := a / b, a % b;
    var q2, r2 := q1 / c, q1 % c;
    assert a == b * (c * q2 + r2) + r1;
    assert a == (b * c) * q2 + (b * r2 + r1);
    MulLe(b, r2, c - 1);
    DivModUnique(a, b * c, q2, b * r2 + r1);
  }

  lemma DivNonnegative(a: nat, b: nat)
    requires 0 < b
    ensures 0 <= a / b
  {
  }

  lemma DropSucc(v: nat, k: nat)
    ensures Drop(v / 10, k) == Drop(v, k + 1)
  {
    DivDiv(v, 10, Pow10(k));
  }

  lemma DropOne(v: nat, k: nat)
    ensures Drop(v, k) / 10 == Drop(v, k + 1)
  {
    DivDiv(v, Pow10(k), 10);
  }

  lemma DropAdd(v: nat, a: nat, b: nat)
    ensures Drop(Drop(v, a), b) == Drop(v, a + b)
  {
    DivDiv(v, Pow10(a), Pow10(b));
    Pow10Add(a, b);
  }

  lemma ModSplit(v: nat, p: nat)
    requires 0 < p
    ensures 10 * ((v / 10) % p) + v % 10 == v % (10 * p)
  {
    var a, b := v / 10, v % 10;
    var q, r := a / p, a % p;
    assert v == (10 * p) * q + (10 * r + b);
    DivModUnique(v, 10 * p, q, 10 * r + b);
  }

  lemma {:induction false} Pow10Add(a: nat, b: nat)
    ensures Pow10(a) * Pow10(b) == Pow10(a + b)
  {
    if a > 0 {
      Pow10Add(a - 1, b);
    }
  }
}
