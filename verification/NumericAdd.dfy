/** "+" and "-" on vectors, and the negations: the ripple adders that the templates emit. */
module NumericAdd {
  import opened Bits

  function Max(a: nat, b: nat): nat {
    if a < b then b else a
  }

  /** The adder has done its `i` low bits. */
  ghost predicate Rippled(x: seq<bool>, y: seq<bool>, res: seq<bool>, carry0: bool, carry: bool, i: nat) {
    i <= |x| == |y| == |res| && U(res[..i]) + Pow2(i) * Bit(carry) == U(x[..i]) + U(y[..i]) + Bit(carry0)
  }

  lemma {:induction false} RippleStep(x: seq<bool>, y: seq<bool>, res: seq<bool>, carry0: bool, carry: bool, i: nat)
    requires i < |x| && Rippled(x, y, res, carry0, carry, i)
    ensures Rippled(x, y, res[i := ComputeSum(carry, y[i], x[i])], carry0, ComputeCarry(carry, y[i], x[i]), i + 1)
  {
    var sum, out := ComputeSum(carry, y[i], x[i]), ComputeCarry(carry, y[i], x[i]);
    var res2 := res[i := sum];
    assert res2[..i] == res[..i];
    UTake(x, i);
    UTake(y, i);
    UTake(res2, i);
    Weigh(Pow2(i), carry, y[i], x[i]);
  }

  lemma {:induction false} Weigh(p: nat, carry: bool, a: bool, b: bool)
    ensures p * Bit(ComputeSum(carry, a, b)) + (2 * p) * Bit(ComputeCarry(carry, a, b))
            == p * Bit(carry) + p * Bit(a) + p * Bit(b)
    ensures p * Bit(ComputeSum(carry, a, b)) == (if ComputeSum(carry, a, b) then p else 0)
    ensures p * Bit(a) == (if a then p else 0) && p * Bit(b) == (if b then p else 0)
  {
  }

  lemma {:induction false} RippleEnd(x: seq<bool>, y: seq<bool>, res: seq<bool>, carry0: bool, carry: bool)
    requires Rippled(x, y, res, carry0, carry, |x|)
    ensures U(res) + Pow2(|x|) * Bit(carry) == U(x) + U(y) + Bit(carry0)
  {
    assert res[..|x|] == res && x[..|x|] == x && y[..|x|] == y;
  }

  /** The bit of a vector at `i`, extended past its left end. */
  method ExtractExtendBit(v: seq<bool>, i: nat, signed: bool) returns (b: bool)
    requires v != []
    ensures forall n :: i < n && |v| <= n ==> b == Extended(v, n, signed)[i]
  {
    if i > |v| - 1 {
      b := signed && v[|v| - 1];
    } else {
      b := v[i];
    }
  }

  /** "+", or "-" when `minus`: null vectors give a null vector, otherwise the result is as long as
      the longer operand. */
  method VecVecBinary(l: seq<bool>, r: seq<bool>, minus: bool, signed: bool) returns (res: seq<bool>)
    ensures l == [] || r == [] ==> res == []
    ensures l != [] && r != [] ==> |res| == Max(|l|, |r|)
    ensures l != [] && r != [] && !signed ==> U(res) == UWrap(|res|, if minus then U(l) - U(r) else U(l) + U(r))
    ensures l != [] && r != [] && signed ==> S(res) == SWrap(|res|, if minus then S(l) - S(r) else S(l) + S(r))
  {
    if |l| == 0 || |r| == 0 {
      return [];
    }
    var n := Max(|l|, |r|);
    ghost var x := Extended(l, n, signed);
    ghost var y := if minus then Inverted(Extended(r, n, signed)) else Extended(r, n, signed);
    var carry := minus;
    res := Same(false, n);
    for i := 0 to n
      invariant Rippled(x, y, res, minus, carry, i)
    {
      var lb := ExtractExtendBit(l, i, signed);
      var rb := ExtractExtendBit(r, i, signed);
      if minus {
        rb := !rb;
      }
      RippleStep(x, y, res, minus, carry, i);
      res := res[i := ComputeSum(carry, rb, lb)];
      carry := ComputeCarry(carry, rb, lb);
    }
    RippleEnd(x, y, res, minus, carry);
    BinaryValue(l, r, minus, signed, n, y, res, carry);
  }

  /** The adder's equation for signed values: `ls` and `rs` say which operands are negative. */
  lemma {:induction false} SumOf(p: int, a: int, b: int, c: int, r: int, ls: int, rs: int)
    requires r + p * c == a + b
    ensures (a - p * ls) + (b - p * rs) == r + p * (c - ls - rs)
  {
    Distributes(p, c - ls, -rs);
    Distributes(p, c, -ls);
    Negates(p, ls);
    Negates(p, rs);
  }

  lemma {:induction false} DifferenceOf(p: int, a: int, b: int, c: int, r: int, ls: int, rs: int)
    requires r + p * c == a + (p - 1 - b) + 1
    ensures (a - p * ls) - (b - p * rs) == r + p * (c - 1 - ls + rs)
  {
    Distributes(p, c - 1 - ls, rs);
    Distributes(p, c - 1, -ls);
    Distributes(p, c, -1);
    Negates(p, ls);
  }

  lemma {:induction false} SignedPart(v: seq<bool>, sign: int)
    requires v != [] && sign == if v[|v| - 1] then 1 else 0
    ensures S(v) == U(v) - Pow2(|v|) * sign
  {
  }

  /** What the adder computes of two vectors of one length, read as signed. */
  lemma {:induction false} SignedBinary(x: seq<bool>, y: seq<bool>, minus: bool, res: seq<bool>, carry: bool)
    requires x != [] && |x| == |y| == |res|
    requires U(res) + Pow2(|x|) * Bit(carry) == U(x) + if minus then (Pow2(|x|) - 1 - U(y)) + 1 else U(y)
    ensures S(res) == SWrap(|x|, if minus then S(x) - S(y) else S(x) + S(y))
  {
    var ls, rs := if x[|x| - 1] then 1 else 0, if y[|x| - 1] then 1 else 0;
    SignedPart(x, ls);
    SignedPart(y, rs);
    if minus {
      DifferenceOf(Pow2(|x|), U(x), U(y), Bit(carry), U(res), ls, rs);
      SWraps(res, S(x) - S(y), Bit(carry) - 1 - ls + rs);
    } else {
      SumOf(Pow2(|x|), U(x), U(y), Bit(carry), U(res), ls, rs);
      SWraps(res, S(x) + S(y), Bit(carry) - ls - rs);
    }
  }

  lemma {:induction false} UnsignedBinary(x: seq<bool>, y: seq<bool>, minus: bool, res: seq<bool>, carry: bool)
    requires |x| == |y| == |res|
    requires U(res) + Pow2(|x|) * Bit(carry) == U(x) + if minus then (Pow2(|x|) - 1 - U(y)) + 1 else U(y)
    ensures U(res) == UWrap(|x|, if minus then U(x) - U(y) else U(x) + U(y))
  {
    if minus {
      DifferenceOf(Pow2(|x|), U(x), U(y), Bit(carry), U(res), 0, 0);
      UWraps(res, U(x) - U(y), Bit(carry) - 1);
    } else {
      UWraps(res, U(x) + U(y), Bit(carry));
    }
  }

  /** What inverting the second operand and a carry in make of the sum. */
  lemma {:induction false} Operands(l: seq<bool>, r: seq<bool>, minus: bool, signed: bool, n: nat, y: seq<bool>, p: nat,
                                    carry: nat, sum: int)
    requires l != [] && r != [] && n == Max(|l|, |r|) && p == Pow2(n)
    requires y == if minus then Inverted(Extended(r, n, signed)) else Extended(r, n, signed)
    requires sum + p * carry == U(Extended(l, n, signed)) + U(y) + Bit(minus)
    ensures sum + p * carry == U(Extended(l, n, signed))
                               + if minus then (p - 1 - U(Extended(r, n, signed))) + 1 else U(Extended(r, n, signed))
  {
    UInverted(Extended(r, n, signed));
  }

  lemma {:induction false} BinaryUnsigned(l: seq<bool>, r: seq<bool>, minus: bool, n: nat, res: seq<bool>, carry: bool)
    requires l != [] && r != [] && n == Max(|l|, |r|) == |res|
    requires U(res) + Pow2(n) * Bit(carry) == U(Extended(l, n, false))
               + if minus then (Pow2(n) - 1 - U(Extended(r, n, false))) + 1 else U(Extended(r, n, false))
    ensures U(res) == UWrap(n, if minus then U(l) - U(r) else U(l) + U(r))
  {
    ExtendedValue(l, n);
    ExtendedValue(r, n);
    UnsignedBinary(Extended(l, n, false), Extended(r, n, false), minus, res, carry);
  }

  lemma {:induction false} BinarySigned(l: seq<bool>, r: seq<bool>, minus: bool, n: nat, res: seq<bool>, carry: bool)
    requires l != [] && r != [] && n == Max(|l|, |r|) == |res|
    requires U(res) + Pow2(n) * Bit(carry) == U(Extended(l, n, true))
               + if minus then (Pow2(n) - 1 - U(Extended(r, n, true))) + 1 else U(Extended(r, n, true))
    ensures S(res) == SWrap(n, if minus then S(l) - S(r) else S(l) + S(r))
  {
    ExtendedValue(l, n);
    ExtendedValue(r, n);
    SignedBinary(Extended(l, n, true), Extended(r, n, true), minus, res, carry);
  }

  lemma {:induction false} BinaryValue(l: seq<bool>, r: seq<bool>, minus: bool, signed: bool, n: nat, y: seq<bool>,
                                       res: seq<bool>, carry: bool)
    requires l != [] && r != [] && n == Max(|l|, |r|) == |res|
    requires y == if minus then Inverted(Extended(r, n, signed)) else Extended(r, n, signed)
    requires U(res) + Pow2(n) * Bit(carry) == U(Extended(l, n, signed)) + U(y) + Bit(minus)
    ensures !signed ==> U(res) == UWrap(n, if minus then U(l) - U(r) else U(l) + U(r))
    ensures signed ==> S(res) == SWrap(n, if minus then S(l) - S(r) else S(l) + S(r))
  {
    Operands(l, r, minus, signed, n, y, Pow2(n), Bit(carry), U(res));
    if signed {
      BinarySigned(l, r, minus, n, res, carry);
    } else {
      BinaryUnsigned(l, r, minus, n, res, carry);
    }
  }

  lemma {:induction false} Times(p: int, a: int, b: int)
    requires 0 <= a <= 1 && 0 <= b <= 1
    ensures p * (b - a) == (if b == 1 then p else 0) - (if a == 1 then p else 0)
    ensures p * (-a - b) == -(if b == 1 then p else 0) - (if a == 1 then p else 0)
  {
  }

  // ---- negation ----

  /** Unary "-": invert and add one. */
  method Negate(arg: seq<bool>) returns (res: seq<bool>)
    ensures |res| == |arg|
    ensures arg != [] ==> S(res) == SWrap(|arg|, -S(arg)) && (arg[|arg| - 1] ==> U(res) == -S(arg))
  {
    if |arg| == 0 {
      return [];
    }
    ghost var x, y := Inverted(arg), Same(false, |arg|);
    var carry := true;
    res := Same(false, |arg|);
    for i := 0 to |arg|
      invariant Rippled(x, y, res, true, carry, i)
    {
      RippleStep(x, y, res, true, carry, i);
      var a := !arg[i];
      res := res[i := carry != a];
      carry := carry && a;
    }
    RippleEnd(x, y, res, true, carry);
    NegateValue(arg, res, carry);
  }

  lemma {:induction false} NegateValue(arg: seq<bool>, res: seq<bool>, carry: bool)
    requires arg != [] && |res| == |arg|
    requires U(res) + Pow2(|arg|) * Bit(carry) == U(Inverted(arg)) + U(Same(false, |arg|)) + 1
    ensures S(res) == SWrap(|arg|, -S(arg)) && (arg[|arg| - 1] ==> U(res) == -S(arg))
  {
    var p := Pow2(|arg|);
    UInverted(arg);
    USame(false, |arg|);
    UBound(res);
    SRange(arg);
    var sign := if arg[|arg| - 1] then 1 else 0;
    var k := Bit(carry) - 1 + sign;
    Distributes(p, Bit(carry), sign - 1);
    Times(p, 1, sign);
    SWraps(res, -S(arg), k);
  }

  /** "abs". */
  method Abs(arg: seq<bool>) returns (res: seq<bool>)
    ensures |res| == |arg|
    ensures arg != [] ==> S(res) == SWrap(|arg|, if S(arg) < 0 then -S(arg) else S(arg))
    ensures arg != [] ==> U(res) == if S(arg) < 0 then -S(arg) else S(arg)
  {
    if |arg| == 0 {
      return [];
    }
    SRange(arg);
    SWrapInside(|arg|, S(arg));
    if !arg[|arg| - 1] {
      return arg;
    }
    res := Negate(arg);
  }
}
