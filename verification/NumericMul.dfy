/** "*" on vectors: shift and add. */
module NumericMul {
  import opened Bits

  /** Writing one bit changes the value by the weight of its place. */
  lemma {:induction false} UUpdate(v: seq<bool>, j: nat, b: bool)
    requires j < |v|
    ensures U(v[j := b]) == U(v) + Pow2(j) * (Bit(b) - Bit(v[j]))
  {
    var w := v[j := b];
    USplit(v, j);
    USplit(w, j);
    assert w[..j] == v[..j] && w[j..][1..] == v[j..][1..];
    Distributes(Pow2(j), U(v[j..]), Bit(b) - Bit(v[j]));
  }

  /** `res` with `row` added from place `at` on, as far as bit `j`. */
  ghost predicate Added(was: int, row: seq<bool>, res: seq<bool>, at: nat, carry0: bool, carry: bool, j: nat) {
    j <= |row| && at + |row| <= |res|
    && U(res) + Pow2(at + j) * Bit(carry) == was + Pow2(at) * (U(row[..j]) + Bit(carry0))
  }

  lemma {:induction false} AddedStep(was: int, row: seq<bool>, res: seq<bool>, at: nat, carry0: bool, carry: bool,
                                     j: nat)
    requires Added(was, row, res, at, carry0, carry, j) && j < |row|
    ensures Added(was, row, res[at + j := ComputeSum(carry, res[at + j], row[j])], at, carry0,
                  ComputeCarry(carry, res[at + j], row[j]), j + 1)
  {
    var vb, lb, p := res[at + j], row[j], Pow2(at + j);
    var sum, out := ComputeSum(carry, vb, lb), ComputeCarry(carry, vb, lb);
    UUpdate(res, at + j, sum);
    UTake(row, j);
    Pow2Sum(at, j);
    FullAdder(carry, vb, lb);
    Balance(p, Bit(sum), Bit(out), Bit(carry), Bit(vb), Bit(lb));
    Distributes(Pow2(at), U(row[..j]) + Bit(carry0), if lb then Pow2(j) else 0);
  }

  lemma {:induction false} Balance(p: int, sum: int, out: int, carry: int, vb: int, lb: int)
    requires sum + 2 * out == carry + vb + lb && 0 <= lb <= 1
    ensures p * (sum - vb) + (2 * p) * out == p * carry + (if lb == 1 then p else 0)
  {
    Distributes(p, sum, -vb);
    assert p * (sum + 2 * out) == p * (carry + vb + lb);
    Distributes(p, sum, 2 * out);
    Distributes(p, carry + vb, lb);
    Distributes(p, carry, vb);
  }

  /** Adds `row` to `res` from place `at` on. */
  method AddRow(res0: seq<bool>, at: nat, row: seq<bool>, carry0: bool) returns (res: seq<bool>, carry: bool)
    requires at + |row| <= |res0|
    ensures |res| == |res0|
    ensures U(res) + Pow2(at + |row|) * Bit(carry) == U(res0) + Pow2(at) * (U(row) + Bit(carry0))
  {
    res, carry := res0, carry0;
    for j := 0 to |row|
      invariant |res| == |res0| && Added(U(res0), row, res, at, carry0, carry, j)
    {
      AddedStep(U(res0), row, res, at, carry0, carry, j);
      var vb, lb := res[at + j], row[j];
      res := res[at + j := ComputeSum(carry, vb, lb)];
      carry := ComputeCarry(carry, vb, lb);
    }
    assert row[..|row|] == row;
  }

  /** Adds a carry from place `at` on, as far as it goes. */
  method PropagateCarry(res0: seq<bool>, at: nat, carry0: bool) returns (res: seq<bool>)
    requires at <= |res0| && U(res0) + Pow2(at) * Bit(carry0) < Pow2(|res0|)
    ensures |res| == |res0| && U(res) == U(res0) + Pow2(at) * Bit(carry0)
  {
    res := res0;
    var carry := carry0;
    for j := at to |res0|
      invariant |res| == |res0| && U(res) + Pow2(j) * Bit(carry) == U(res0) + Pow2(at) * Bit(carry0)
    {
      if !carry { return; }
      var vb := res[j];
      UUpdate(res, j, carry != vb);
      res := res[j := carry != vb];
      carry := carry && vb;
    }
    UBound(res);
  }

  // ---- unsigned ----

  lemma {:induction false} ProductBelow(a: nat, p: nat, b: nat, q: nat)
    requires a < p && b < q
    ensures a * b < p * q
  {
    Distributes(a, b, q - b);
    Distributes(q, a, p - a);
    assert q * (p - a) >= q;
  }

  /** The partial product with bit `i` of `r` set. */
  lemma {:induction false} NextProduct(l: seq<bool>, r: seq<bool>, i: nat)
    requires i < |r|
    ensures U(l) * U(r[..i + 1]) == U(l) * U(r[..i]) + (if r[i] then Pow2(i) * U(l) else 0)
    ensures U(l) * U(r[..i + 1]) < Pow2(|l| + |r|)
  {
    UTake(r, i);
    Distributes(U(l), U(r[..i]), if r[i] then Pow2(i) else 0);
    PartBelow(l, r, i + 1);
  }

  lemma {:induction false} PartBelow(l: seq<bool>, r: seq<bool>, i: nat)
    requires i <= |r|
    ensures U(l) * U(r[..i]) < Pow2(|l| + |r|)
  {
    UBound(l);
    UBound(r);
    USplit(r, i);
    Monotone(U(l), U(r[..i]), U(r));
    ProductBelow(U(l), Pow2(|l|), U(r), Pow2(|r|));
    Pow2Sum(|l|, |r|);
  }

  lemma {:induction false} Monotone(a: nat, b: int, c: int)
    requires b <= c
    ensures a * b <= a * c
  {
    Distributes(a, b, c - b);
  }

  method MulUnsigned(l: seq<bool>, r: seq<bool>) returns (res: seq<bool>)
    ensures l == [] || r == [] ==> res == []
    ensures l != [] && r != [] ==> |res| == |l| + |r| && U(res) == U(l) * U(r)
  {
    if |l| == 0 || |r| == 0 {
      return [];
    }
    res := Same(false, |l| + |r|);
    USame(false, |l| + |r|);
    for i := 0 to |r|
      invariant |res| == |l| + |r| && U(res) == U(l) * U(r[..i])
    {
      NextProduct(l, r, i);
      if r[i] {
        var carry;
        res, carry := AddRow(res, i, l, false);
        res := PropagateCarry(res, i + |l|, carry);
      }
    }
    assert r[..|r|] == r;
  }

  // ---- signed ----

  /** `l` shifted by `i` and sign extended: its two parts together are worth 2^i * S(l), up to the
      length of the result. */
  lemma {:induction false} ExtendedRow(l: seq<bool>, i: nat, n: nat, sign: bool)
    requires l != [] && i <= n && sign == l[|l| - 1]
    ensures Pow2(i) * U(l) + Pow2(i + |l|) * U(Same(sign, n - i)) == Pow2(i) * S(l) + Pow2(|l| + n) * Bit(sign)
  {
    USame(sign, n - i);
    Pow2Sum(i, |l|);
    Pow2Sum(i + |l|, n - i);
    if sign {
      Distributes(Pow2(i), U(l), -(Pow2(|l|) as int));
      Distributes(Pow2(i + |l|), Pow2(n - i), -1);
      Negates(Pow2(i), Pow2(|l|));
    }
  }

  /** One turn: the sum of both rows, carry included. */
  lemma {:induction false} RowSum(u0: int, u1: int, u2: int, p1: int, c1: bool, p2: int, c2: bool, a: int, b: int)
    requires u1 + p1 * Bit(c1) == u0 + a && u2 + p2 * Bit(c2) == u1 + b + p1 * Bit(c1)
    ensures u2 == u0 + a + b + p2 * -(Bit(c2) as int)
  {
    Negates(p2, Bit(c2));
  }

  /** Adds 2^i * S(l) to `res`, modulo its length. */
  method AddShifted(res0: seq<bool>, l: seq<bool>, i: nat, ghost n: nat) returns (res: seq<bool>, ghost k: int)
    requires l != [] && i <= n && |res0| == |l| + n
    ensures |res| == |res0| && U(res) == U(res0) + Pow2(i) * S(l) + Pow2(|res0|) * k
  {
    var carry, carry2;
    res, carry := AddRow(res0, i, l, false);
    ghost var res1 := res;
    var lb := l[|l| - 1];
    res, carry2 := AddRow(res, i + |l|, Same(lb, |res0| - (i + |l|)), carry);
    k := Bit(lb) - Bit(carry2);
    ExtendedRow(l, i, n, lb);
    Distributes(Pow2(i + |l|), U(Same(lb, n - i)), Bit(carry));
    RowSum(U(res0), U(res1), U(res), Pow2(i + |l|), carry, Pow2(|res0|), carry2, Pow2(i) * U(l),
           Pow2(i + |l|) * U(Same(lb, n - i)));
    Distributes(Pow2(|res0|), Bit(lb), -(Bit(carry2) as int));
  }

  /** What the final subtraction adds: `l` inverted, its sign once more, and a carry. */
  lemma {:induction false} InvertedRow(l: seq<bool>, sign: bool, at: nat)
    requires l != [] && sign == l[|l| - 1]
    ensures Pow2(at) * (U(Inverted(l)) + 1) + Pow2(at + |l|) * Bit(!sign)
            == Pow2(at + |l| + 1) * Bit(!sign) - Pow2(at) * S(l)
  {
    var m, p := Pow2(|l|), Pow2(at);
    UInverted(l);
    Pow2Sum(at, |l|);
    if sign {
      assert U(Inverted(l)) + 1 == -S(l);
      Negates(p, S(l));
    } else {
      assert U(Inverted(l)) + 1 == m - S(l);
      Distributes(p, m, -S(l));
      Negates(p, S(l));
    }
  }

  /** Subtracts 2^at * S(l) from `res`, modulo its length. */
  method SubtractShifted(res0: seq<bool>, l: seq<bool>, at: nat) returns (res: seq<bool>, ghost k: int)
    requires l != [] && |res0| == at + |l| + 1
    ensures |res| == |res0| && U(res) == U(res0) - Pow2(at) * S(l) + Pow2(|res0|) * k
  {
    var carry, carry2;
    res, carry := AddRow(res0, at, Inverted(l), true);
    ghost var res1 := res;
    var lb := !l[|l| - 1];
    res, carry2 := AddRow(res, |res0| - 1, [lb], carry);
    k := Bit(lb) - Bit(carry2);
    InvertedRow(l, !lb, at);
    Distributes(Pow2(at + |l|), Bit(lb), Bit(carry));
    RowSum(U(res0), U(res1), U(res), Pow2(at + |l|), carry, Pow2(|res0|), carry2, Pow2(at) * (U(Inverted(l)) + 1),
           Pow2(at + |l|) * Bit(lb));
    Distributes(Pow2(|res0|), Bit(lb), -(Bit(carry2) as int));
  }

  /** `res` is the product with the low `i` bits of `r`, modulo its length. */
  ghost predicate Partial(l: seq<bool>, r: seq<bool>, res: seq<bool>, i: nat, k: int) {
    l != [] && i <= |r| && |res| == |l| + |r| && U(res) == S(l) * U(r[..i]) + Pow2(|res|) * k
  }

  lemma {:induction false} PartialNext(l: seq<bool>, r: seq<bool>, res: seq<bool>, i: nat, k: int, res2: seq<bool>,
                                       k2: int)
    requires Partial(l, r, res, i, k) && i < |r| && |res2| == |res|
    requires if r[i] then U(res2) == U(res) + Pow2(i) * S(l) + Pow2(|res|) * k2 else res2 == res && k2 == 0
    ensures Partial(l, r, res2, i + 1, k + k2)
  {
    UTake(r, i);
    PartialSum(S(l), U(r[..i]), if r[i] then Pow2(i) else 0, Pow2(|res|), k, k2);
  }

  lemma {:induction false} PartialSum(l: int, u: int, w: int, p: int, k: int, k2: int)
    ensures l * (u + w) + p * (k + k2) == l * u + p * k + w * l + p * k2
  {
    Distributes(l, u, w);
    Distributes(p, k, k2);
  }

  lemma {:induction false} PartialLast(l: seq<bool>, r: seq<bool>, res: seq<bool>, k: int, res2: seq<bool>, k2: int)
    requires r != [] && Partial(l, r, res, |r| - 1, k) && |res2| == |res|
    requires if r[|r| - 1] then U(res2) == U(res) - Pow2(|r| - 1) * S(l) + Pow2(|res|) * k2 else res2 == res && k2 == 0
    ensures U(res2) == S(l) * S(r) + Pow2(|res|) * (k + k2)
  {
    var i := |r| - 1;
    assert r[..i + 1] == r;
    UTake(r, i);
    Distributes(S(l), U(r[..i]), if r[i] then -(Pow2(i) as int) else 0);
    Negates(S(l), Pow2(i));
    Distributes(Pow2(|res|), k, k2);
  }

  /** Even the product of the two most negative numbers is in range. */
  lemma {:induction false} ProductInside(l: seq<bool>, r: seq<bool>)
    requires l != [] && r != []
    ensures -(Pow2(|l| + |r| - 1) as int) <= S(l) * S(r) < Pow2(|l| + |r| - 1)
  {
    SRange(l);
    SRange(r);
    var p, q := Pow2(|l| - 1), Pow2(|r| - 1);
    Pow2Sum(|l| - 1, |r| - 1);
    assert Pow2(|l| + |r| - 1) == 2 * (p * q);
    Within(S(l), p, S(r), q);
  }

  lemma {:induction false} Within(a: int, p: int, b: int, q: int)
    requires -p <= a <= p && -q <= b <= q && p >= 1 && q >= 1
    ensures -(p * q) <= a * b <= p * q && p * q >= 1
  {
    assert (p - a) * (q + b) >= 0 && (p + a) * (q - b) >= 0 && (p - a) * (q - b) >= 0 && (p + a) * (q + b) >= 0;
    Expand(p, a, q, b);
  }

  lemma {:induction false} Expand(p: int, a: int, q: int, b: int)
    ensures (p - a) * (q + b) == p * q + p * b - a * q - a * b
    ensures (p + a) * (q - b) == p * q - p * b + a * q - a * b
    ensures (p - a) * (q - b) == p * q - p * b - a * q + a * b
    ensures (p + a) * (q + b) == p * q + p * b + a * q + a * b
  {
  }

  /** "*" on signed vectors: exactly the product, in a result as long as both operands. */
  method MulSigned(l: seq<bool>, r: seq<bool>) returns (res: seq<bool>)
    ensures l == [] || r == [] ==> res == []
    ensures l != [] && r != [] ==> |res| == |l| + |r| && S(res) == S(l) * S(r)
  {
    if |l| == 0 || |r| == 0 {
      return [];
    }
    res := Same(false, |l| + |r|);
    USame(false, |l| + |r|);
    ghost var k := 0;
    for i := 0 to |r| - 1
      invariant Partial(l, r, res, i, k)
    {
      ghost var before, k2 := res, 0;
      if r[i] {
        res, k2 := AddShifted(res, l, i, |r|);
      }
      PartialNext(l, r, before, i, k, res, k2);
      k := k + k2;
    }
    ghost var before, k2 := res, 0;
    if r[|r| - 1] {
      res, k2 := SubtractShifted(res, l, |r| - 1);
    }
    PartialLast(l, r, before, k, res, k2);
    MultipleOf(S(l) * S(r), U(res), Pow2(|res|), k + k2);
    SWraps(res, S(l) * S(r), -(k + k2));
    ProductInside(l, r);
    SWrapInside(|res|, S(l) * S(r));
  }

  lemma {:induction false} MultipleOf(x: int, u: int, p: int, k: int)
    requires u == x + p * k
    ensures x == u + p * -k
  {
    Negates(p, k);
  }
}
