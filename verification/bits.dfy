/**
 Go's integer operations that the table code relies on, written out over
 Dafny's unbounded integers: single-bit tests on two's-complement values,
 flipping a bit (for `^`), truncating remainder, and `%04X` formatting.
 */
module Bits {

  function Pow2(k: nat): (r: nat)
    ensures r >= 1
  {
    if k == 0 then 1 else 2 * Pow2(k - 1)
  }

  /** Bit k of x in two's complement. Dafny's `/` by 2 rounds down, so this is
      also right for negative x. */
  predicate Bit(x: int, k: nat)
    decreases k
  {
    if k == 0 then x % 2 == 1 else Bit(x / 2, k - 1)
  }

  /** Go's `x & m` when m is the single bit 2^k: m when the bit is set, else 0. */
  function AndBit(x: int, k: nat): (r: int)
    ensures r == Pow2(k) * ((x / Pow2(k)) % 2)
    ensures r == Pow2(k) <==> Bit(x, k)
    ensures r == 0 <==> !Bit(x, k)
  {
    BitDiv(x, k);
    if Bit(x, k) then Pow2(k) else 0
  }

  /** Go's `x ^ 2^k`: the same value with bit k inverted, every other bit kept. */
  function FlipBit(x: int, k: nat): (r: int)
    ensures Bit(r, k) <==> !Bit(x, k)
    ensures forall j :: 0 <= j != k ==> (Bit(r, j) <==> Bit(x, j))
  {
    AddPow2(x, k);
    AddPow2(x - Pow2(k), k);
    if Bit(x, k) then x - Pow2(k) else x + Pow2(k)
  }

  /** Bit k of x is the lowest bit of x divided (rounding down) by 2^k. */
  lemma {:induction false} BitDiv(x: int, k: nat)
    ensures Bit(x, k) <==> (x / Pow2(k)) % 2 == 1
    decreases k
  {
    if k > 0 {
      BitDiv(x / 2, k - 1);
      DivDiv(x, Pow2(k - 1));
    }
  }

  /** Dividing by 2 then by p is dividing by 2p. */
  lemma DivDiv(x: int, p: nat)
    requires p > 0
    ensures x / 2 / p == x / (2 * p)
  {
    var q := x / 2 / p;
    var r := x / 2 % p;
    var t := 2 * r + x % 2;
    assert x / 2 == q * p + r;
    assert x == 2 * (x / 2) + x % 2;
    assert x == (2 * p) * q + t;
    DivUnique(x, 2 * p, q, t);
  }

  /** The quotient of Euclidean division is the only q with x - q * d in 0..d-1. */
  lemma DivUnique(x: int, d: int, q: int, t: int)
    requires d > 0 && 0 <= t < d && x == q * d + t
    ensures x / d == q
  {
    var q' := x / d;
    assert x == q' * d + x % d;
    assert (q - q') * d == x % d - t;
    if q > q' {
      MulAtLeast(q - q', d);
    } else if q < q' {
      MulAtLeast(q' - q, d);
    }
  }

  lemma MulAtLeast(n: int, d: int)
    requires n >= 1 && d > 0
    ensures n * d >= d
  {
    assert n * d == (n - 1) * d + d;
  }

  /** Adding 2^k inverts bit k and keeps the bits below it. */
  lemma {:induction false} AddPow2(x: int, k: nat)
    decreases k
    ensures Bit(x + Pow2(k), k) <==> !Bit(x, k)
    ensures forall j :: 0 <= j < k ==> (Bit(x + Pow2(k), j) <==> Bit(x, j))
    ensures forall j :: j > k && !Bit(x, k) ==> (Bit(x + Pow2(k), j) <==> Bit(x, j))
  {
    if k > 0 {
      assert (x + Pow2(k)) / 2 == x / 2 + Pow2(k - 1);
      AddPow2(x / 2, k - 1);
      assert (x + Pow2(k)) % 2 == x % 2;
    } else {
      if x % 2 == 0 {
        assert (x + 1) / 2 == x / 2;
      }
    }
  }

  /** Go's `%`, which truncates toward zero, for a positive divisor. */
  function GoMod(x: int, m: int): (r: int)
    requires m > 0
    ensures x >= 0 ==> 0 <= r < m
    ensures x < 0 ==> -m < r <= 0
    ensures (x - r) % m == 0
  {
    RemainderDividesDifference(x, m);
    RemainderDividesDifference(-x, m);
    if x >= 0 then x % m else -((-x) % m)
  }

  /** x minus its Euclidean remainder is a multiple of m. */
  lemma RemainderDividesDifference(x: int, m: int)
    requires m > 0
    ensures (x - x % m) % m == 0 && (-(x - x % m)) % m == 0
  {
    var q := x / m;
    assert x - x % m == q * m;
    assert -(x - x % m) == (-q) * m;
    DivUnique(q * m, m, q, 0);
    DivUnique((-q) * m, m, -q, 0);
  }

  lemma GoModNatural(x: int, m: int)
    requires x >= 0 && m > 0
    ensures GoMod(x, m) == x % m
  {
  }

  /** The uppercase hex digit of a value below 16. */
  function HexChar(d: nat): (c: char)
    requires d < 16
    ensures '0' <= c <= '9' || 'A' <= c <= 'F'
  {
    if d < 10 then ('0' as int + d) as char else ('A' as int + d - 10) as char
  }

  predicate IsHexDigit(c: char) {
    '0' <= c <= '9' || 'A' <= c <= 'F'
  }

  /** The value of one uppercase hex digit. */
  function DigitValue(c: char): (v: nat)
    requires IsHexDigit(c)
    ensures v < 16 && HexChar(v) == c
  {
    if c <= '9' then c as int - '0' as int else c as int - 'A' as int + 10
  }

  predicate AllHex(s: string) {
    forall i :: 0 <= i < |s| ==> IsHexDigit(s[i])
  }

  lemma DigitOfChar(d: nat)
    requires d < 16
    ensures DigitValue(HexChar(d)) == d
  {
  }

  /** The shortest uppercase hexadecimal spelling of n ("0" for zero), as `%X` prints it. */
  function HexDigits(n: nat): (s: string)
    ensures 1 <= |s| && AllHex(s)
    ensures n > 0 ==> s[0] != '0'
    decreases n
  {
    if n < 16 then [HexChar(n)] else HexDigits(n / 16) + [HexChar(n % 16)]
  }

  /** The number a string of hex digits spells. */
  function HexValue(s: string): nat
    requires AllHex(s)
  {
    if |s| == 0 then 0 else 16 * HexValue(s[..|s| - 1]) + DigitValue(s[|s| - 1])
  }

  lemma {:induction false} HexRoundTrip(n: nat)
    ensures HexValue(HexDigits(n)) == n
    decreases n
  {
    var s := HexDigits(n);
    DigitOfChar(n % 16);
    if n < 16 {
      assert s[..|s| - 1] == [];
    } else {
      HexRoundTrip(n / 16);
      assert s[..|s| - 1] == HexDigits(n / 16);
    }
  }

  /** Zeros in front of hex digits keep them hex digits. */
  lemma AllHexZeros(k: nat, s: string)
    requires AllHex(s)
    ensures AllHex(Zeros(k) + s)
  {
    var z := Zeros(k) + s;
    forall i | 0 <= i < |z| ensures IsHexDigit(z[i]) {
      if i < k { assert z[i] == '0'; } else { assert z[i] == s[i - k]; }
    }
  }

  /** Leading zeros do not change the value of a hex string. */
  lemma {:induction false} HexValueZeros(k: nat, s: string)
    requires AllHex(s)
    ensures AllHex(Zeros(k) + s)
    ensures HexValue(Zeros(k) + s) == HexValue(s)
    decreases |s|
  {
    AllHexZeros(k, s);
    var z := Zeros(k) + s;
    if |s| == 0 {
      assert z == Zeros(k);
      HexValueAllZeros(k);
    } else {
      var s' := s[..|s| - 1];
      assert AllHex(s');
      assert z[..|z| - 1] == Zeros(k) + s';
      assert z[|z| - 1] == s[|s| - 1];
      HexValueZeros(k, s');
      assert HexValue(z) == 16 * HexValue(Zeros(k) + s') + DigitValue(s[|s| - 1]);
    }
  }

  lemma {:induction false} HexValueAllZeros(k: nat)
    ensures AllHex(Zeros(k))
    ensures HexValue(Zeros(k)) == 0
  {
    assert AllHex(Zeros(k)) by {
      forall i | 0 <= i < k ensures IsHexDigit(Zeros(k)[i]) {
        assert Zeros(k)[i] == '0';
      }
    }
    if k > 0 {
      assert Zeros(k)[..k - 1] == Zeros(k - 1);
      HexValueAllZeros(k - 1);
    }
  }

  function Zeros(k: nat): (s: string)
    ensures |s| == k && forall i :: 0 <= i < k ==> s[i] == '0'
  {
    if k == 0 then "" else "0" + Zeros(k - 1)
  }

  /** Left-pads s with '0' to at least `width` characters. */
  function PadZeros(s: string, width: nat): (r: string)
    ensures |r| == if |s| >= width then |s| else width
    ensures r[|r| - |s|..] == s
    ensures forall i :: 0 <= i < |r| - |s| ==> r[i] == '0'
  {
    if |s| >= width then s else Zeros(width - |s|) + s
  }

  /** Go's `fmt.Sprintf("%04X", x)`: uppercase hex padded with zeros to width four;
      a negative value prints '-' and its magnitude padded to width three. */
  function Hex04(x: int): (s: string)
    ensures x >= 0 ==> |s| >= 4 && AllHex(s)
    ensures x < 0 ==> |s| >= 4 && s[0] == '-'
  {
    if x >= 0 then
      var d := HexDigits(x);
      if |d| < 4 then HexValueZeros(4 - |d|, d); PadZeros(d, 4) else d
    else "-" + PadZeros(HexDigits(-x), 3)
  }

  /** Reading the non-negative `%04X` output back as hex yields the formatted value. */
  lemma Hex04RoundTrip(x: nat)
    ensures HexValue(Hex04(x)) == x
  {
    var d := HexDigits(x);
    HexRoundTrip(x);
    if |d| < 4 {
      HexValueZeros(4 - |d|, d);
      assert Hex04(x) == Zeros(4 - |d|) + d;
    } else {
      assert Hex04(x) == d;
    }
  }
}
