/**
 * The null-propagating elementwise wrappers over the Arrow compute backend
 * (VecAdd, VecSub, VecDiv, VecMul, VecPow, VecAbs).
 *
 * A chunked double column is a flat sequence of reals; a null `shared_ptr`
 * is `None`. Each wrapper returns `None` when a column operand is null or
 * when the backend refuses the call. The backend refuses two columns of
 * different lengths, and (because reals have no infinity) this model also
 * counts a division by zero and a zero raised to a negative power as a
 * refusal. Otherwise the result is a new column holding the elementwise
 * value; the operands are values, so nothing is mutated.
 */
module Compute {
  import opened Wrappers

  /** One logical column of doubles; its chunk layout is not modelled. */
  type Column = seq<real>

  function Abs(x: real): real {
    if x < 0.0 then -x else x
  }

  /** `x` to the natural power `n`. */
  function PowNat(x: real, n: nat): (p: real)
    ensures x != 0.0 ==> p != 0.0
  {
    if n == 0 then 1.0 else x * PowNat(x, n - 1)
  }

  /** `x` to the integer power `e`; 0 to a negative power has no real value. */
  function PowInt(x: real, e: int): real
    requires e >= 0 || x != 0.0
  {
    if e >= 0 then PowNat(x, e) else 1.0 / PowNat(x, -e)
  }

  /** A column of `n` zeros, as a builder's `AppendEmptyValues(n)` or a zero fill produces. */
  function Zeros(n: nat): (z: Column)
    ensures |z| == n
    ensures forall i :: 0 <= i < n ==> z[i] == 0.0
  {
    seq(n, _ => 0.0)
  }

  /** A unary kernel applied to every element of a column. */
  function Map1(a: Column, f: real -> real): (c: Column)
    ensures |c| == |a|
    ensures forall i :: 0 <= i < |c| ==> c[i] == f(a[i])
  {
    seq(|a|, i requires 0 <= i < |a| => f(a[i]))
  }

  /** A binary kernel applied to the elements of two columns of one length, pairwise. */
  function Map2(a: Column, b: Column, f: (real, real) -> real): (c: Column)
    requires |a| == |b|
    ensures |c| == |a|
    ensures forall i :: 0 <= i < |c| ==> c[i] == f(a[i], b[i])
  {
    seq(|a|, i requires 0 <= i < |a| => f(a[i], b[i]))
  }

  /** Whether the backend accepts two column operands: both non-null and of one length. */
  predicate Aligned(left: Option<Column>, right: Option<Column>) {
    left.Some? && right.Some? && |left.value| == |right.value|
  }

  function VecAdd(left: Option<Column>, right: Option<Column>): (res: Option<Column>)
    ensures res.Some? <==> Aligned(left, right)
    ensures res.Some? ==> |res.value| == |left.value|
    ensures res.Some? ==> forall i :: 0 <= i < |res.value| ==> res.value[i] == left.value[i] + right.value[i]
  {
    if !Aligned(left, right) then None
    else Some(Map2(left.value, right.value, (x, y) => x + y))
  }

  function VecSub(left: Option<Column>, right: Option<Column>): (res: Option<Column>)
    ensures res.Some? <==> Aligned(left, right)
    ensures res.Some? ==> |res.value| == |left.value|
    ensures res.Some? ==> forall i :: 0 <= i < |res.value| ==> res.value[i] == left.value[i] - right.value[i]
  {
    if !Aligned(left, right) then None
    else Some(Map2(left.value, right.value, (x, y) => x - y))
  }

  /** Column divided by column; a zero divisor element makes the call fail. */
  function VecDiv(left: Option<Column>, right: Option<Column>): (res: Option<Column>)
    ensures res.Some? <==> Aligned(left, right) && forall i :: 0 <= i < |right.value| ==> right.value[i] != 0.0
    ensures res.Some? ==> |res.value| == |left.value|
    ensures res.Some? ==> forall i :: 0 <= i < |res.value| ==> res.value[i] == left.value[i] / right.value[i]
  {
    if !Aligned(left, right) then None
    else if exists i :: 0 <= i < |right.value| && right.value[i] == 0.0 then None
    else Some(Map2(left.value, right.value, (x, y) => if y == 0.0 then 0.0 else x / y))
  }

  /** Column divided by a scalar broadcast to every element; only the column is null-checked. */
  function VecDivScalar(left: Option<Column>, divisor: real): (res: Option<Column>)
    ensures res.Some? <==> left.Some? && divisor != 0.0
    ensures res.Some? ==> |res.value| == |left.value|
    ensures res.Some? ==> forall i :: 0 <= i < |res.value| ==> res.value[i] == left.value[i] / divisor
  {
    if left.None? || divisor == 0.0 then None
    else Some(Map1(left.value, x => x / divisor))
  }

  function VecMul(left: Option<Column>, right: Option<Column>): (res: Option<Column>)
    ensures res.Some? <==> Aligned(left, right)
    ensures res.Some? ==> |res.value| == |left.value|
    ensures res.Some? ==> forall i :: 0 <= i < |res.value| ==> res.value[i] == left.value[i] * right.value[i]
  {
    if !Aligned(left, right) then None
    else Some(Map2(left.value, right.value, (x, y) => x * y))
  }

  /** Column times a scalar broadcast to every element; only the column is null-checked. */
  function VecMulScalar(left: Option<Column>, factor: real): (res: Option<Column>)
    ensures res.Some? <==> left.Some?
    ensures res.Some? ==> |res.value| == |left.value|
    ensures res.Some? ==> forall i :: 0 <= i < |res.value| ==> res.value[i] == left.value[i] * factor
  {
    if left.None? then None
    else Some(Map1(left.value, x => x * factor))
  }

  /** Every element raised to an integer scalar exponent; 0 to a negative power fails. */
  function VecPow(left: Option<Column>, exponent: int): (res: Option<Column>)
    ensures res.Some? <==> left.Some? && (exponent < 0 ==> forall i :: 0 <= i < |left.value| ==> left.value[i] != 0.0)
    ensures res.Some? ==> |res.value| == |left.value|
    ensures res.Some? && exponent >= 0 ==> forall i :: 0 <= i < |res.value| ==> res.value[i] == PowNat(left.value[i], exponent)
    ensures res.Some? && exponent < 0 ==> forall i :: 0 <= i < |res.value| ==> res.value[i] == 1.0 / PowNat(left.value[i], -exponent)
  {
    if left.None? then None
    else if exponent < 0 && exists i :: 0 <= i < |left.value| && left.value[i] == 0.0 then None
    else Some(seq(|left.value|, i requires 0 <= i < |left.value| => PowInt(left.value[i], exponent)))
  }

  function VecAbs(operand: Option<Column>): (res: Option<Column>)
    ensures res.Some? <==> operand.Some?
    ensures res.Some? ==> |res.value| == |operand.value|
    ensures res.Some? ==> forall i :: 0 <= i < |res.value| ==> res.value[i] == Abs(operand.value[i]) >= 0.0
  {
    if operand.None? then None
    else Some(Map1(operand.value, Abs))
  }

  /** One element of a column product, for proofs that need a single row. */
  lemma VecMulAt(left: Option<Column>, right: Option<Column>, i: int)
    requires Aligned(left, right) && 0 <= i < |left.value|
    ensures VecMul(left, right).Some?
    ensures VecMul(left, right).value[i] == left.value[i] * right.value[i]
  {
  }

  // ---------------------------------------------------------------------
  // Properties relating the wrappers to each other

  /** A null operand makes every wrapper return null. */
  lemma NullPropagates(c: Option<Column>, k: real, e: int)
    ensures VecAdd(None, c) == None && VecAdd(c, None) == None
    ensures VecSub(None, c) == None && VecSub(c, None) == None
    ensures VecMul(None, c) == None && VecMul(c, None) == None
    ensures VecDiv(None, c) == None && VecDiv(c, None) == None
    ensures VecDivScalar(None, k) == None && VecMulScalar(None, k) == None
    ensures VecPow(None, e) == None && VecAbs(None) == None
  {
  }

  /** Subtracting a column and adding it back restores the original column. */
  lemma {:induction false} SubThenAddRestores(a: Column, b: Column)
    requires |a| == |b|
    ensures VecAdd(VecSub(Some(a), Some(b)), Some(b)) == Some(a)
  {
    var d := VecSub(Some(a), Some(b));
    var s := VecAdd(d, Some(b));
    assert s.value == a by {
      forall i | 0 <= i < |a| ensures s.value[i] == a[i] {
        assert d.value[i] == a[i] - b[i];
      }
    }
  }

  /** Dividing by a nonzero scalar undoes multiplying by it. */
  lemma {:induction false} MulThenDivScalarRestores(a: Column, k: real)
    requires k != 0.0
    ensures VecDivScalar(VecMulScalar(Some(a), k), k) == Some(a)
  {
    var p := VecMulScalar(Some(a), k);
    var q := VecDivScalar(p, k);
    assert q.value == a by {
      forall i | 0 <= i < |a| ensures q.value[i] == a[i] {
        MulThenDivScalarAt(a, k, i);
      }
    }
  }

  lemma MulThenDivScalarAt(a: Column, k: real, i: int)
    requires k != 0.0 && 0 <= i < |a|
    ensures VecMulScalar(Some(a), k).value[i] / k == a[i]
  {
    var x := VecMulScalar(Some(a), k).value[i];
    assert x == a[i] * k;
    assert x / k == a[i];
  }

  /** Absolute value is idempotent. */
  lemma {:induction false} AbsIdempotent(c: Option<Column>)
    ensures VecAbs(VecAbs(c)) == VecAbs(c)
  {
    if c.Some? {
      var once := VecAbs(c);
      var twice := VecAbs(once);
      assert twice.value == once.value by {
        forall i | 0 <= i < |once.value| ensures twice.value[i] == once.value[i] {
        }
      }
    }
  }

  /** Squaring through VecPow agrees with multiplying a column by itself. */
  lemma {:induction false} PowTwoIsSelfProduct(c: Option<Column>)
    ensures VecPow(c, 2) == VecMul(c, c)
  {
    if c.Some? {
      var p := VecPow(c, 2);
      var m := VecMul(c, c);
      assert p.value == m.value by {
        forall i | 0 <= i < |c.value| ensures p.value[i] == m.value[i] {
          PowTwoIsSquare(c.value[i]);
        }
      }
    }
  }

  lemma PowTwoIsSquare(x: real)
    ensures PowNat(x, 2) == x * x
  {
    assert PowNat(x, 1) == x * PowNat(x, 0) == x;
  }

  /** Multiplication of two columns is commutative. */
  lemma {:induction false} MulCommutes(a: Option<Column>, b: Option<Column>)
    ensures VecMul(a, b) == VecMul(b, a)
  {
    if Aligned(a, b) {
      var ab := VecMul(a, b);
      var ba := VecMul(b, a);
      assert ab.value == ba.value by {
        forall i | 0 <= i < |ab.value| ensures ab.value[i] == ba.value[i] {
        }
      }
    }
  }
}
