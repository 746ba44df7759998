/** Division: the restoring divider, and "/", "rem" and "mod" on unsigned and signed vectors. */
module NumericDiv {
  import opened Bits
  import opened NumericAdd

  // ---- the divider ----

  /** One turn of the divider in numbers: `low` and `top` are the shifted register, `sub` and `carry`
      its difference with the divisor. */
  lemma {:induction false} TrialSubtraction(p: int, dem: int, reg: int, low: int, top: bool, sub: int, carry: bool)
    requires 0 < dem < p && 0 <= low < p && 0 <= sub < p && reg == low + (if top then p else 0) && 0 <= reg < 2 * dem
    requires sub + (if carry then p else 0) == low + p - dem
    ensures (carry || top) <==> reg >= dem
    ensures reg >= dem ==> sub == reg - dem
  {
  }

  /** The register is below the divisor, and the quotient so far is right. */
  ghost predicate Divided(num: seq<bool>, dem: seq<bool>, quot: seq<bool>, reg: seq<bool>, i: nat) {
    i <= |num| == |quot| && |reg| == |dem| + 1
    && (U(dem) > 0 ==> U(reg) < U(dem) && U(num[i..]) == U(quot[i..]) * U(dem) + U(reg))
  }

  lemma {:induction false} DividedStep(num: seq<bool>, dem: seq<bool>, quot: seq<bool>, reg: seq<bool>, i: nat,
                                       bit: bool, reg2: seq<bool>)
    requires i < |num| && Divided(num, dem, quot, reg, i + 1) && |reg2| == |reg|
    requires U(dem) > 0 ==> U(reg2) < U(dem) && 2 * U(reg) + Bit(num[i]) == Bit(bit) * U(dem) + U(reg2)
    ensures Divided(num, dem, quot[i := bit], reg2, i)
  {
    var quot2 := quot[i := bit];
    assert quot2[i..][1..] == quot[i + 1..] && num[i..][1..] == num[i + 1..];
    Scaled(Bit(bit), U(quot[i + 1..]), U(dem));
  }

  lemma {:induction false} Scaled(b: int, q: int, d: int)
    ensures (b + 2 * q) * d == b * d + 2 * (q * d)
  {
  }

  /** Shifting in a bit. */
  lemma {:induction false} Shifted(reg: seq<bool>, b: bool, dem: seq<bool>)
    requires |reg| == |dem| + 1 && U(reg) < U(dem)
    ensures !reg[|dem|] && U([b] + reg[..|dem|]) == 2 * U(reg) + Bit(b)
  {
    UBound(dem);
    assert reg[..|dem| + 1] == reg;
    UTake(reg, |dem|);
    assert ([b] + reg[..|dem|])[1..] == reg[..|dem|];
  }

  /** One shift and trial subtraction. */
  method Trial(reg0: seq<bool>, b: bool, dem: seq<bool>) returns (reg: seq<bool>, bit: bool)
    requires |reg0| == |dem| + 1
    ensures |reg| == |reg0|
    ensures U(reg0) < U(dem) ==> U(reg) < U(dem) && 2 * U(reg0) + Bit(b) == Bit(bit) * U(dem) + U(reg)
    ensures U(dem) == 0 ==> bit
  {
    reg := [b] + reg0[..|dem|];
    ghost var low, y := reg[..|dem|], Inverted(dem);
    var sub, carry := Same(false, |dem|), true;
    for j := 0 to |dem|
      invariant Rippled(low, y, sub, true, carry, j)
    {
      RippleStep(low, y, sub, true, carry, j);
      var d := !dem[j];
      sub := sub[j := ComputeSum(carry, reg[j], d)];
      carry := ComputeCarry(carry, reg[j], d);
    }
    ghost var borrow := carry;
    RippleEnd(low, y, sub, true, carry);
    ZeroBorrow(low, dem, sub, carry);
    carry := ComputeCarry(carry, reg[|dem|], true);
    TrialValue(reg0, b, dem, reg, sub, borrow);
    bit := carry;
    if carry {
      reg := sub + [false];
      USnoc(sub, false);
    }
  }

  /** Subtracting zero never borrows. */
  lemma {:induction false} ZeroBorrow(low: seq<bool>, dem: seq<bool>, sub: seq<bool>, carry: bool)
    requires |sub| == |dem| && U(sub) + Pow2(|dem|) * Bit(carry) == U(low) + U(Inverted(dem)) + 1
    ensures U(dem) == 0 ==> carry
  {
    UInverted(dem);
    UBound(sub);
  }

  lemma {:induction false} TrialValue(reg0: seq<bool>, b: bool, dem: seq<bool>, reg: seq<bool>, sub: seq<bool>,
                                      carry: bool)
    requires |reg0| == |dem| + 1 && reg == [b] + reg0[..|dem|] && |sub| == |dem|
    requires U(sub) + Pow2(|dem|) * Bit(carry) == U(reg[..|dem|]) + U(Inverted(dem)) + 1
    ensures U(reg0) < U(dem) ==> U(reg) == 2 * U(reg0) + Bit(b)
                                 && ((carry || reg[|dem|]) <==> U(reg) >= U(dem))
                                 && (U(reg) >= U(dem) ==> U(sub) == U(reg) - U(dem))
  {
    if U(reg0) < U(dem) {
      Shifted(reg0, b, dem);
      assert reg[..|dem| + 1] == reg;
      UTake(reg, |dem|);
      UInverted(dem);
      UBound(dem);
      UBound(sub);
      UBound(reg[..|dem|]);
      TrialSubtraction(Pow2(|dem|), U(dem), U(reg), U(reg[..|dem|]), reg[|dem|], U(sub), carry);
    }
  }

  /** divmod: quotient and remainder of every number by every other; all ones for a division by zero,
      which is reported but goes on. */
  method Divmod(num: seq<bool>, dem: seq<bool>) returns (quot: seq<bool>, remain: seq<bool>)
    ensures |quot| == |num| && |remain| == |dem|
    ensures U(dem) > 0 ==> U(num) == U(quot) * U(dem) + U(remain) && U(remain) < U(dem)
    ensures U(dem) == 0 ==> quot == Same(true, |num|)
  {
    var reg := Same(false, |dem| + 1);
    USame(false, |dem| + 1);
    quot := Same(false, |num|);
    assert num[|num|..] == [] && quot[|num|..] == [];
    var i: nat := |num|;
    while i > 0
      invariant Divided(num, dem, quot, reg, i)
      invariant U(dem) == 0 ==> forall k :: i <= k < |num| ==> quot[k]
    {
      i := i - 1;
      ghost var before := reg;
      var bit;
      reg, bit := Trial(reg, num[i], dem);
      DividedStep(num, dem, quot, before, i, bit, reg);
      quot := quot[i := bit];
    }
    remain := reg[..|dem|];
    assert num[0..] == num && quot[0..] == quot;
    if U(dem) > 0 {
      LowPart(reg, dem);
    }
  }

  lemma {:induction false} LowPart(reg: seq<bool>, dem: seq<bool>)
    requires |reg| == |dem| + 1 && U(reg) < U(dem)
    ensures U(reg[..|dem|]) == U(reg)
  {
    UBound(dem);
    assert reg[..|dem| + 1] == reg;
    UTake(reg, |dem|);
  }

  /** There is only one quotient and remainder. */
  lemma {:induction false} DivisionUnique(n: nat, d: nat, q: nat, r: nat)
    requires d > 0 && n == q * d + r && r < d
    ensures q == n / d && r == n % d
  {
    Commutes(q, d);
    ModUnique(n, d, q, r);
    assert d * (n / d) + n % d == n;
    Cancels(d, q, n / d);
  }

  lemma {:induction false} Commutes(a: int, b: int)
    ensures a * b == b * a
  {
  }

  lemma {:induction false} Cancels(d: int, a: int, b: int)
    requires d > 0 && d * a == d * b
    ensures a == b
  {
  }

  // ---- unsigned ----

  method UDiv(l: seq<bool>, r: seq<bool>) returns (res: seq<bool>)
    ensures l == [] || r == [] ==> res == []
    ensures l != [] && r != [] ==> |res| == |l| && if U(r) > 0 then U(res) == U(l) / U(r) else res == Same(true, |l|)
  {
    if |l| == 0 || |r| == 0 {
      return [];
    }
    var rema;
    res, rema := Divmod(l, r);
    if U(r) > 0 {
      DivisionUnique(U(l), U(r), U(res), U(rema));
    }
  }

  /** "rem" and "mod" are the same on unsigned vectors. */
  method URem(l: seq<bool>, r: seq<bool>) returns (res: seq<bool>)
    ensures l == [] || r == [] ==> res == []
    ensures l != [] && r != [] ==> |res| == |r| && (U(r) > 0 ==> U(res) == U(l) % U(r))
  {
    if |l| == 0 || |r| == 0 {
      return [];
    }
    var quot;
    quot, res := Divmod(l, r);
    if U(r) > 0 {
      DivisionUnique(U(l), U(r), U(quot), U(res));
    }
  }

  // ---- signed ----

  function AbsOf(x: int): nat {
    if x < 0 then -x else x
  }

  /** Division that truncates toward zero, and its remainder. */
  function TruncDiv(l: int, r: int): int
    requires r != 0
  {
    if (l < 0) != (r < 0) then -(AbsOf(l) / AbsOf(r) as int) else AbsOf(l) / AbsOf(r)
  }

  function TruncRem(l: int, r: int): int
    requires r != 0
  {
    l - r * TruncDiv(l, r)
  }

  /** Division that rounds down, and its remainder. */
  function FloorDiv(l: int, r: int): int
    requires r != 0
  {
    if r > 0 then l / r else -l / -r
  }

  function FloorMod(l: int, r: int): int
    requires r != 0
  {
    l - r * FloorDiv(l, r)
  }

  // what the magnitudes say

  lemma {:induction false} Quotient(a: nat, b: nat) returns (q: nat, m: nat)
    requires b > 0
    ensures q == a / b && m == a % b && a == b * q + m && m < b && q <= a
  {
    q, m := a / b, a % b;
    if q > 0 {
      Distributes(q, 1, b - 1);
      Commutes(q, b);
    }
  }

  lemma {:induction false} TruncRemIs(l: int, r: int)
    requires r != 0
    ensures TruncRem(l, r) == if l < 0 then -(AbsOf(l) % AbsOf(r) as int) else AbsOf(l) % AbsOf(r)
  {
    var q, m := Quotient(AbsOf(l), AbsOf(r));
    Negates(r, q);
    Negates(q, r);
    Commutes(q, r);
    Commutes(q, -r);
  }

  lemma {:induction false} FloorDivIs(l: int, b: nat, m: nat, q: nat)
    requires b > 0 && AbsOf(l) == b * q + m && m < b
    ensures l >= 0 ==> l / b == q && l - b * (l / b) == m
    ensures l < 0 ==> l - b * (l / b) == if m == 0 then 0 else b - m
  {
    if l >= 0 {
      ModUnique(l, b, q, m);
    } else {
      Negates(b, q);
      var k := -(q as int);
      Distributes(b, k, -1);
      if m == 0 {
        ModUnique(l, b, k, 0);
      } else {
        ModUnique(l, b, k - 1, b - m);
      }
    }
    assert b * (l / b) + l % b == l;
    if l >= 0 {
      Cancels(b, l / b, q);
    }
  }

  lemma {:induction false} FloorModIs(l: int, r: int)
    requires r != 0
    ensures var m := AbsOf(l) % AbsOf(r);
            FloorMod(l, r) == if m == 0 then 0 else if r < 0 then (if l < 0 then -m else r + m)
                else (if l < 0 then r - m else m)
  {
    var q, m := Quotient(AbsOf(l), AbsOf(r));
    if r > 0 {
      FloorDivIs(l, r, m, q);
    } else {
      FloorDivIs(-l, -r, m, q);
      Negates(FloorDiv(l, r), r);
      Commutes(FloorDiv(l, r), r);
      Commutes(FloorDiv(l, r), -r);
    }
  }

  /** The magnitude of a signed vector, as an unsigned one of the same length; that of the most
      negative number fits too. */
  method Magnitude(v: seq<bool>) returns (u: seq<bool>)
    requires v != []
    ensures |u| == |v| && U(u) == AbsOf(S(v)) <= Pow2(|v| - 1)
  {
    SRange(v);
    if v[|v| - 1] {
      u := Negate(v);
    } else {
      u := v;
    }
  }

  lemma {:induction false} SWrapShift(n: nat, x: int, k: int)
    requires n > 0
    ensures SWrap(n, x + Pow2(n) * k) == SWrap(n, x)
  {
    var p, q := Pow2(n), x / Pow2(n);
    assert p * q + x % p == x;
    Distributes(p, q, k);
    ModUnique(x + p * k, p, q + k, x % p);
  }

  lemma {:induction false} NegatedValue(v: seq<bool>, res: seq<bool>)
    requires v != [] && |res| == |v| && S(res) == SWrap(|v|, -S(v))
    ensures S(res) == SWrap(|v|, -(U(v) as int))
  {
    if v[|v| - 1] {
      SWrapShift(|v|, -(U(v) as int), 1);
    }
  }

  /** A small magnitude as a signed vector, and its negative. */
  lemma {:induction false} SmallSigned(v: seq<bool>)
    requires v != [] && U(v) < Pow2(|v| - 1)
    ensures S(v) == U(v) && SWrap(|v|, -S(v)) == -S(v)
  {
    SRange(v);
    SWrapInside(|v|, -S(v));
  }

  /** "/" truncates toward zero; only the most negative number over -1 does not fit. */
  method SDiv(l: seq<bool>, r: seq<bool>) returns (res: seq<bool>)
    ensures l == [] || r == [] ==> res == []
    ensures l != [] && r != [] ==> |res| == |l| && (S(r) != 0 ==> S(res) == SWrap(|l|, TruncDiv(S(l), S(r))))
  {
    if |l| == 0 || |r| == 0 {
      return [];
    }
    SRange(l);
    SRange(r);
    var lu := Magnitude(l);
    var ru := Magnitude(r);
    var quot, rema := Divmod(lu, ru);
    if S(r) != 0 {
      DivisionUnique(U(lu), U(ru), U(quot), U(rema));
    }
    SWraps(quot, U(quot), 0);
    if r[|r| - 1] != l[|l| - 1] {
      res := Negate(quot);
      NegatedValue(quot, res);
    } else {
      res := quot;
    }
  }

  /** Exactly when the quotient is the number that does not fit is the result not the quotient. */
  lemma {:induction false} SDivExact(l: seq<bool>, r: seq<bool>)
    requires l != [] && r != [] && S(r) != 0
    ensures SWrap(|l|, TruncDiv(S(l), S(r))) == TruncDiv(S(l), S(r))
            <==> !(S(l) == -(Pow2(|l| - 1) as int) && S(r) == -1)
  {
    SRange(l);
    SRange(r);
    var p := Pow2(|l| - 1);
    var a, b := AbsOf(S(l)), AbsOf(S(r));
    var q, m := Quotient(a, b);
    var t := TruncDiv(S(l), S(r));
    if q == p {
      QuotientFull(a, b, q, m, p);
    }
    if -(p as int) <= t < p {
      SWrapInside(|l|, t);
      if S(l) == -(p as int) && S(r) == -1 {
        DivisionUnique(a, 1, a, 0);
      }
    } else {
      assert SWrap(|l|, t) < p;
    }
  }

  lemma {:induction false} QuotientFull(a: nat, b: nat, q: nat, m: nat, p: nat)
    requires b > 0 && a == b * q + m && a <= p == q && p > 0
    ensures b == 1 && a == p
  {
    Commutes(b, q);
    if b >= 2 {
      Distributes(q, 1, b - 1);
      Grows(q, b - 1);
    }
  }

  /** The remainder's magnitude fits the divisor's length. */
  lemma {:induction false} RemainderSmall(r: seq<bool>, rema: seq<bool>)
    requires r != [] && |rema| == |r| && U(rema) < AbsOf(S(r)) <= Pow2(|r| - 1)
    ensures S(rema) == U(rema) && SWrap(|r|, -S(rema)) == -S(rema)
  {
    SmallSigned(rema);
  }

  /** "rem": the remainder has the sign of the dividend. */
  method SRem(l: seq<bool>, r: seq<bool>) returns (res: seq<bool>)
    ensures l == [] || r == [] ==> res == []
    ensures l != [] && r != [] ==> |res| == |r| && (S(r) != 0 ==> S(res) == TruncRem(S(l), S(r)))
  {
    if |l| == 0 || |r| == 0 {
      return [];
    }
    SRange(l);
    var lu := Magnitude(l);
    var ru := Magnitude(r);
    var quot, rema := Divmod(lu, ru);
    if S(r) != 0 {
      DivisionUnique(U(lu), U(ru), U(quot), U(rema));
      RemainderSmall(r, rema);
      TruncRemIs(S(l), S(r));
    }
    if l[|l| - 1] {
      res := Negate(rema);
    } else {
      res := rema;
    }
  }

  lemma {:induction false} ZeroVector(v: seq<bool>)
    ensures v == Same(false, |v|) <==> U(v) == 0
  {
    USame(false, |v|);
    if U(v) == 0 {
      UInjective(v, Same(false, |v|));
    }
  }

  /** "mod": what rounding down leaves; it has the sign of the divisor. */
  method SMod(l: seq<bool>, r: seq<bool>) returns (res: seq<bool>)
    ensures l == [] || r == [] ==> res == []
    ensures l != [] && r != [] ==> |res| == |r| && (S(r) != 0 ==> S(res) == FloorMod(S(l), S(r)))
  {
    if |l| == 0 || |r| == 0 {
      return [];
    }
    SRange(l);
    SRange(r);
    var lu := Magnitude(l);
    var ru := Magnitude(r);
    var quot, rema := Divmod(lu, ru);
    if S(r) != 0 {
      DivisionUnique(U(lu), U(ru), U(quot), U(rema));
      RemainderSmall(r, rema);
      FloorModIs(S(l), S(r));
      ModInside(S(r), U(rema), |r|);
    }
    ZeroVector(rema);
    if rema == Same(false, |r|) {
      res := rema;
    } else if r[|r| - 1] {
      if l[|l| - 1] {
        res := Negate(rema);
      } else {
        res := VecVecBinary(r, rema, false, true);
      }
    } else {
      if l[|l| - 1] {
        res := VecVecBinary(r, rema, true, true);
      } else {
        res := rema;
      }
    }
  }

  lemma {:induction false} ModInside(r: int, m: nat, n: nat)
    requires n > 0 && -(Pow2(n - 1) as int) <= r < Pow2(n - 1) && m < AbsOf(r)
    ensures r < 0 ==> SWrap(n, r + m) == r + m
    ensures r > 0 ==> SWrap(n, r - m) == r - m
  {
    if r < 0 {
      SWrapInside(n, r + m);
    } else {
      SWrapInside(n, r - m);
    }
  }
}
