/** Bit vectors as numeric_bit holds them, index 0 the least significant, and the full adder. */
module Bits {
  function Bit(b: bool): (n: nat)
    ensures n <= 1
  {
    if b then 1 else 0
  }

  function Pow2(n: nat): (p: nat)
    ensures p >= 1
  {
    if n == 0 then 1 else 2 * Pow2(n - 1)
  }

  /** The unsigned value. */
  function U(v: seq<bool>): (n: nat) {
    if v == [] then 0 else Bit(v[0]) + 2 * U(v[1..])
  }

  /** The signed value, in two's complement. */
  function S(v: seq<bool>): (n: int)
    requires v != []
  {
    if v[|v| - 1] then U(v) - Pow2(|v|) else U(v)
  }

  function ComputeSum(carry: bool, a: bool, b: bool): bool {
    (carry != a) != b
  }

  function ComputeCarry(carry: bool, a: bool, b: bool): bool {
    (carry && a) || (carry && b) || (a && b)
  }

  /** Three bits in, two out. */
  lemma {:induction false} FullAdder(carry: bool, a: bool, b: bool)
    ensures Bit(ComputeSum(carry, a, b)) + 2 * Bit(ComputeCarry(carry, a, b)) == Bit(carry) + Bit(a) + Bit(b)
  {
  }

  // ---- values of parts ----

  lemma {:induction false} Distributes(a: int, b: int, c: int)
    ensures a * (b + c) == a * b + a * c
  {
  }

  /** Low part and high part. */
  lemma {:induction false} UAppend(a: seq<bool>, b: seq<bool>)
    ensures U(a + b) == U(a) + Pow2(|a|) * U(b)
  {
    if a == [] {
      assert a + b == b;
    } else {
      assert (a + b)[1..] == a[1..] + b;
      UAppend(a[1..], b);
      Doubles(Pow2(|a| - 1), U(b));
    }
  }

  lemma {:induction false} Doubles(p: int, x: int)
    ensures 2 * (p * x) == (2 * p) * x
  {
  }

  lemma {:induction false} USnoc(a: seq<bool>, b: bool)
    ensures U(a + [b]) == U(a) + (if b then Pow2(|a|) else 0)
  {
    UAppend(a, [b]);
  }

  lemma {:induction false} UBound(v: seq<bool>)
    ensures U(v) < Pow2(|v|)
  {
    if v != [] {
      UBound(v[1..]);
    }
  }

  lemma {:induction false} UTake(v: seq<bool>, i: nat)
    requires i < |v|
    ensures U(v[..i + 1]) == U(v[..i]) + (if v[i] then Pow2(i) else 0)
  {
    assert v[..i + 1] == v[..i] + [v[i]];
    USnoc(v[..i], v[i]);
  }

  lemma {:induction false} USplit(v: seq<bool>, i: nat)
    requires i <= |v|
    ensures U(v) == U(v[..i]) + Pow2(i) * U(v[i..])
  {
    assert v == v[..i] + v[i..];
    UAppend(v[..i], v[i..]);
  }

  /** The signed value lies in its range, and the top bit is its sign. */
  lemma {:induction false} SRange(v: seq<bool>)
    requires v != []
    ensures -(Pow2(|v| - 1) as int) <= S(v) < Pow2(|v| - 1) && (S(v) < 0 <==> v[|v| - 1])
    ensures Pow2(|v|) == 2 * Pow2(|v| - 1)
  {
    var low := v[..|v| - 1];
    assert v == low + [v[|v| - 1]];
    USnoc(low, v[|v| - 1]);
    UBound(low);
  }

  /** Vectors of one length with the same value are the same. */
  lemma {:induction false} UInjective(a: seq<bool>, b: seq<bool>)
    requires |a| == |b| && U(a) == U(b)
    ensures a == b
  {
    if a != [] {
      UInjective(a[1..], b[1..]);
      assert a == [a[0]] + a[1..] && b == [b[0]] + b[1..];
    }
  }

  function Same(b: bool, n: nat): (v: seq<bool>)
    ensures |v| == n
  {
    seq(n, _ => b)
  }

  lemma {:induction false} USame(b: bool, n: nat)
    ensures U(Same(b, n)) == if b then Pow2(n) - 1 else 0
  {
    if n > 0 {
      assert Same(b, n)[1..] == Same(b, n - 1);
      USame(b, n - 1);
    }
  }

  function Inverted(v: seq<bool>): (r: seq<bool>)
    ensures |r| == |v|
  {
    seq(|v|, i requires 0 <= i < |v| => !v[i])
  }

  lemma {:induction false} UInverted(v: seq<bool>)
    ensures U(Inverted(v)) == Pow2(|v|) - 1 - U(v)
  {
    if v != [] {
      assert Inverted(v)[1..] == Inverted(v[1..]);
      UInverted(v[1..]);
    }
  }

  lemma {:induction false} Pow2Sum(a: nat, b: nat)
    ensures Pow2(a + b) == Pow2(a) * Pow2(b)
  {
    if a > 0 {
      Pow2Sum(a - 1, b);
      Doubles(Pow2(a - 1), Pow2(b));
    }
  }

  // ---- extension ----

  /** Widened by zeros, or by copies of the sign. */
  function Extended(v: seq<bool>, n: nat, signed: bool): (r: seq<bool>)
    requires v != [] && |v| <= n
    ensures |r| == n
  {
    v + Same(signed && v[|v| - 1], n - |v|)
  }

  lemma {:induction false} ZeroExtended(v: seq<bool>, n: nat)
    requires v != [] && |v| <= n
    ensures U(Extended(v, n, false)) == U(v)
  {
    UAppend(v, Same(false, n - |v|));
    USame(false, n - |v|);
  }

  lemma {:induction false} SignExtended(v: seq<bool>, n: nat)
    requires v != [] && |v| <= n
    ensures S(Extended(v, n, true)) == S(v)
  {
    var sign := v[|v| - 1];
    UAppend(v, Same(sign, n - |v|));
    USame(sign, n - |v|);
    Pow2Sum(|v|, n - |v|);
    Distributes(Pow2(|v|), Pow2(n - |v|), -1);
    assert Extended(v, n, true)[n - 1] == sign;
  }

  /** Zeros keep the unsigned value, copies of the sign the signed one. */
  lemma {:induction false} ExtendedValue(v: seq<bool>, n: nat)
    requires v != [] && |v| <= n
    ensures U(Extended(v, n, false)) == U(v) && S(Extended(v, n, true)) == S(v)
  {
    ZeroExtended(v, n);
    SignExtended(v, n);
  }

  // ---- wrapping ----

  /** `x` modulo 2^n. */
  function UWrap(n: nat, x: int): (r: int)
    ensures 0 <= r < Pow2(n)
  {
    x % Pow2(n)
  }

  /** `x` modulo 2^n, as a signed number. */
  function SWrap(n: nat, x: int): (r: int)
    requires n > 0
  {
    if UWrap(n, x) < Pow2(n - 1) then UWrap(n, x) else UWrap(n, x) - Pow2(n)
  }

  lemma {:induction false} ModUnique(x: int, p: int, k: int, r: int)
    requires x == r + p * k && 0 <= r < p
    ensures x % p == r
  {
    var d := x / p - k;
    assert p * (x / p) + x % p == x;
    Distributes(p, k, d);
    assert p * d == r - x % p;
    if d >= 1 {
      Grows(p, d);
    } else if d <= -1 {
      Grows(p, -d);
      Negates(p, d);
    }
  }

  lemma {:induction false} Grows(p: int, d: int)
    requires p >= 0 && d >= 1
    ensures p * d >= p
  {
    Distributes(p, 1, d - 1);
  }

  lemma {:induction false} Negates(p: int, d: int)
    ensures p * -d == -(p * d)
  {
  }

  /** A vector's value is what its bits leave of any number it differs from by a multiple. */
  lemma {:induction false} UWraps(v: seq<bool>, x: int, k: int)
    requires x == U(v) + Pow2(|v|) * k
    ensures U(v) == UWrap(|v|, x)
  {
    UBound(v);
    ModUnique(x, Pow2(|v|), k, U(v));
  }

  lemma {:induction false} SWraps(v: seq<bool>, x: int, k: int)
    requires v != [] && x == U(v) + Pow2(|v|) * k
    ensures S(v) == SWrap(|v|, x)
  {
    UWraps(v, x, k);
    SRange(v);
  }

  /** Numbers in range do not wrap. */
  lemma {:induction false} SWrapInside(n: nat, x: int)
    requires n > 0 && -(Pow2(n - 1) as int) <= x < Pow2(n - 1)
    ensures SWrap(n, x) == x
  {
    assert Pow2(n) == 2 * Pow2(n - 1);
    if x >= 0 {
      ModUnique(x, Pow2(n), 0, x);
    } else {
      ModUnique(x, Pow2(n), -1, x + Pow2(n));
    }
  }
}
