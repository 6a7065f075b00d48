/** `DirectoryTree.format_size`: a byte count in binary units with two decimals. */
module SizeFormat {
  import opened Text

  const UnitNames: seq<string> := ["B", "KB", "MB", "GB", "TB", "PB"]

  function Pow1024(k: nat): (p: nat)
    ensures p >= 1
  {
    if k == 0 then 1 else 1024 * Pow1024(k - 1)
  }

  lemma MulAtLeast(d: int, x: int)
    requires d >= 0 && x >= 1
    ensures d * x >= d
  {
    assert d * x == d * (x - 1) + d;
    assert d * (x - 1) >= 0;
  }

  lemma MulMonotone(p: int, a: int, b: int)
    requires p >= 0 && a <= b
    ensures p * a <= p * b
  {
    assert p * b - p * a == p * (b - a);
  }

  /** Euclidean division is determined by quotient and remainder. */
  lemma DivUnique(a: int, d: int, q: int, r: int)
    requires d > 0 && a == d * q + r && 0 <= r < d
    ensures a / d == q && a % d == r
  {
    var q0, r0 := a / d, a % d;
    assert d * q0 + r0 == d * q + r;
    assert d * (q - q0) == r0 - r by {
      assert d * (q - q0) == d * q - d * q0;
    }
    if q > q0 {
      MulAtLeast(d, q - q0);
    } else if q < q0 {
      MulAtLeast(d, q0 - q);
    }
  }

  /** Dividing twice is dividing by the product. */
  lemma DivDiv(a: nat, p: nat, q: nat)
    requires p > 0 && q > 0
    ensures a / p / q == a / (p * q)
  {
    var x, r1 := a / p, a % p;
    var y, r2 := x / q, x % q;
    assert a == p * x + r1;
    assert x == q * y + r2;
    assert a == (p * q) * y + (p * r2 + r1) by {
      assert p * x == p * (q * y) + p * r2;
      assert p * (q * y) == (p * q) * y;
    }
    assert p * r2 + r1 < p * q by {
      MulAtLeast(p, q - r2);
      assert p * (q - r2) == p * q - p * r2;
    }
    assert p * r2 + r1 >= 0 by {
      assert p * r2 >= 0;
    }
    DivUnique(a, p * q, y, p * r2 + r1);
  }

  /** The loop of `format_size` with the value already divided `k` times. */
  function UnitLoop(size: nat, v: nat, k: nat): (u: nat)
    requires k <= 5 && v == size / Pow1024(k)
    requires 0 < k ==> Pow1024(k) <= size
    ensures k <= u <= 5
    ensures u < 5 ==> size < Pow1024(u + 1)
    ensures 0 < u ==> Pow1024(u) <= size
    decreases 5 - k
  {
    if k == 5 then 5
    else if v < 1024 then
      QuotientBelow(size, Pow1024(k), v);
      k
    else
      QuotientAbove(size, Pow1024(k), v);
      DivDiv(size, Pow1024(k), 1024);
      UnitLoop(size, v / 1024, k + 1)
  }

  /** A quotient below 1024 bounds the dividend by 1024 divisors. */
  lemma QuotientBelow(size: nat, p: nat, v: nat)
    requires p > 0 && v == size / p && v < 1024
    ensures size < p * 1024
  {
    assert size == p * v + size % p;
    MulMonotone(p, v, 1023);
    assert p * 1023 + p == p * 1024;
  }

  /** A quotient of 1024 or more means the dividend holds 1024 divisors. */
  lemma QuotientAbove(size: nat, p: nat, v: nat)
    requires p > 0 && v == size / p && v >= 1024
    ensures p * 1024 <= size
  {
    assert size == p * v + size % p;
    MulMonotone(p, 1024, v);
  }

  /** Index into `UnitNames` of the unit `format_size` prints: the least `k`
      with `size < 1024^(k+1)`, or PB when `size >= 1024^5`. */
  function UnitIndex(size: nat): (k: nat)
    ensures k <= 5
    ensures k < 5 ==> size < Pow1024(k + 1)
    ensures 0 < k ==> Pow1024(k) <= size
  {
    UnitLoop(size, size, 0)
  }

  /** Twice the distance from `n / d` to `q`, scaled by `d`. */
  function RoundingError(n: int, q: int, d: int): int {
    2 * n - 2 * q * d
  }

  /** Division rounded to the nearest integer, ties to even: how the `.2f`
      conversion rounds an exactly represented binary value. */
  function RoundHalfEven(n: nat, d: nat): (q: nat)
    requires d > 0
    ensures -(d as int) <= RoundingError(n, q, d) <= d
    ensures (RoundingError(n, q, d) == d || RoundingError(n, q, d) == -(d as int)) ==> q % 2 == 0
  {
    var q, r := n / d, n % d;
    assert RoundingError(n, q, d) == 2 * r by {
      assert n == q * d + r;
    }
    assert RoundingError(n, q + 1, d) == 2 * r - 2 * d by {
      assert n == q * d + r;
      assert 2 * (q + 1) * d == 2 * q * d + 2 * d;
    }
    if 2 * r < d then q
    else if 2 * r > d then q + 1
    else if q % 2 == 0 then q
    else q + 1
  }

  /** The size in hundredths of the chosen unit, as printed. */
  function Hundredths(size: nat): nat {
    RoundHalfEven(100 * size, Pow1024(UnitIndex(size)))
  }

  /** `f"{x:.2f}"` for the value `h / 100`. */
  function FixedText(h: nat): string {
    NatText(h / 100) + "." + [DigitChar(h % 100 / 10), DigitChar(h % 10)]
  }

  function FormatSize(size: nat): (s: string)
    ensures s != [] && ')' !in s && '(' !in s
  {
    var k := UnitIndex(size);
    FixedTextPlain(Hundredths(size));
    FixedText(Hundredths(size)) + " " + UnitNames[k]
  }

  /** The number is digits and a point: no parenthesis. */
  lemma FixedTextPlain(h: nat)
    ensures ')' !in FixedText(h) && '(' !in FixedText(h)
  {
    var t := FixedText(h);
    assert forall i :: 0 <= i < |t| ==> IsDigit(t[i]) || t[i] == '.';
  }

  /** Reading the printed number back gives the rounded hundredths. */
  lemma FixedTextValue(h: nat)
    ensures var t := FixedText(h);
      var whole := NatText(h / 100);
      t == whole + "." + t[|whole| + 1..]
      && |t| == |whole| + 3
      && 100 * DigitsValue(whole) + 10 * DigitOf(t[|whole| + 1]) + DigitOf(t[|whole| + 2]) == h
  {
    NatTextValue(h / 100);
  }

  /** The printed text is the unit's hundredths within half a hundredth of
      `size / 1024^k`, followed by the unit's name. */
  lemma FormatSizeMeaning(size: nat)
    ensures var k := UnitIndex(size);
      var h := Hundredths(size);
      var p: int := Pow1024(k);
      FormatSize(size) == FixedText(h) + " " + UnitNames[k]
      && -p <= RoundingError(100 * size, h, p) <= p
  {
  }

  /** 10 bytes print as "10.00 B". */
  lemma FormatSizeOfTen()
    ensures FormatSize(10) == "10.00 B"
  {
    assert UnitIndex(10) == 0;
    assert Hundredths(10) == 1000;
    assert NatText(10) == "10";
    assert FixedText(1000) == "10.00";
  }

  /** 2048 bytes print as "2.00 KB". */
  lemma FormatSizeOfTwoKiB()
    ensures FormatSize(2048) == "2.00 KB"
  {
    assert Pow1024(1) == 1024 && Pow1024(2) == 1048576;
    assert UnitLoop(2048, 2048, 0) == UnitLoop(2048, 2, 1) == 1;
    assert Hundredths(2048) == 200;
    assert NatText(2) == "2";
    assert FixedText(200) == "2.00";
  }

  /** 2058 bytes (ten bytes past 2 KiB) print as "2.01 KB". */
  lemma FormatSizeOfTwoKiBAndTen()
    ensures FormatSize(2058) == "2.01 KB"
  {
    assert Pow1024(1) == 1024 && Pow1024(2) == 1048576;
    assert UnitLoop(2058, 2058, 0) == UnitLoop(2058, 2, 1) == 1;
    assert Hundredths(2058) == 201;
    assert NatText(2) == "2";
    assert FixedText(201) == "2.01";
  }
}
