/** Dense real matrices as sequences of rows, with numpy's `matmul` and
    `transpose` on them. */
module Matrices {

  type Matrix = seq<seq<real>>

  /** `m` has `rows` rows of `cols` entries each. */
  predicate IsMatrix(m: Matrix, rows: nat, cols: nat) {
    |m| == rows && forall i :: 0 <= i < rows ==> |m[i]| == cols
  }

  /** Sum of the products of corresponding entries. */
  function Dot(a: seq<real>, b: seq<real>): (d: real)
    requires |a| == |b|
  {
    if |a| == 0 then 0.0 else a[0] * b[0] + Dot(a[1..], b[1..])
  }

  /** Column `j` of a matrix whose rows all have more than `j` entries. */
  function Column(m: Matrix, j: nat): (c: seq<real>)
    requires forall i :: 0 <= i < |m| ==> j < |m[i]|
    ensures |c| == |m|
    ensures forall i :: 0 <= i < |m| ==> c[i] == m[i][j]
  {
    seq(|m|, i requires 0 <= i < |m| => m[i][j])
  }

  /** numpy `transpose` of a rows-by-cols matrix. */
  function Transpose(m: Matrix, rows: nat, cols: nat): (t: Matrix)
    requires IsMatrix(m, rows, cols)
    ensures IsMatrix(t, cols, rows)
    ensures forall j, i :: 0 <= j < cols && 0 <= i < rows ==> t[j][i] == m[i][j]
  {
    seq(cols, j requires 0 <= j < cols => Column(m, j))
  }

  /** numpy `matmul` of an n-by-inner matrix and an inner-by-cols matrix. */
  function MatMul(a: Matrix, b: Matrix, inner: nat, cols: nat): (c: Matrix)
    requires IsMatrix(a, |a|, inner) && IsMatrix(b, inner, cols)
    ensures IsMatrix(c, |a|, cols)
    ensures forall i, j :: 0 <= i < |a| && 0 <= j < cols ==> c[i][j] == Dot(a[i], Column(b, j))
  {
    seq(|a|, i requires 0 <= i < |a| =>
      seq(cols, j requires 0 <= j < cols => Dot(a[i], Column(b, j))))
  }

  /** The n-by-n identity matrix. */
  function Identity(n: nat): (e: Matrix)
    ensures IsMatrix(e, n, n)
    ensures forall i, j :: 0 <= i < n && 0 <= j < n ==> e[i][j] == if i == j then 1.0 else 0.0
  {
    seq(n, i requires 0 <= i < n => seq(n, j requires 0 <= j < n => if i == j then 1.0 else 0.0))
  }

  lemma {:induction false} DotCommutes(a: seq<real>, b: seq<real>)
    requires |a| == |b|
    ensures Dot(a, b) == Dot(b, a)
  {
    if |a| > 0 {
      DotCommutes(a[1..], b[1..]);
    }
  }

  /** A dot product with the k-th unit vector picks out entry k. */
  lemma {:induction false} DotUnit(a: seq<real>, e: seq<real>, k: nat)
    requires |a| == |e| && k < |a|
    requires forall i :: 0 <= i < |e| ==> e[i] == if i == k then 1.0 else 0.0
    ensures Dot(a, e) == a[k]
  {
    if k == 0 {
      DotZero(a[1..], e[1..]);
    } else {
      DotUnit(a[1..], e[1..], k - 1);
    }
  }

  lemma {:induction false} DotZero(a: seq<real>, z: seq<real>)
    requires |a| == |z|
    requires forall i :: 0 <= i < |z| ==> z[i] == 0.0
    ensures Dot(a, z) == 0.0
  {
    if |a| > 0 {
      DotZero(a[1..], z[1..]);
    }
  }

  lemma {:induction false} DotNonNegative(a: seq<real>, b: seq<real>)
    requires |a| == |b|
    requires forall i :: 0 <= i < |a| ==> 0.0 <= a[i] && 0.0 <= b[i]
    ensures 0.0 <= Dot(a, b)
  {
    if |a| > 0 {
      DotNonNegative(a[1..], b[1..]);
    }
  }

  /** Multiplying on the right by the identity gives the matrix back. */
  lemma MatMulIdentityRight(a: Matrix, n: nat)
    requires IsMatrix(a, |a|, n)
    ensures MatMul(a, Identity(n), n, n) == a
  {
    var c := MatMul(a, Identity(n), n, n);
    forall i | 0 <= i < |a| ensures c[i] == a[i] {
      forall j | 0 <= j < n ensures c[i][j] == a[i][j] {
        DotUnit(a[i], Column(Identity(n), j), j);
      }
    }
  }

  /** Multiplying on the left by the identity gives the matrix back. */
  lemma MatMulIdentityLeft(b: Matrix, n: nat, cols: nat)
    requires IsMatrix(b, n, cols)
    ensures MatMul(Identity(n), b, n, cols) == b
  {
    var e := Identity(n);
    var c := MatMul(e, b, n, cols);
    forall i | 0 <= i < n ensures c[i] == b[i] {
      forall j | 0 <= j < cols ensures c[i][j] == b[i][j] {
        DotCommutes(e[i], Column(b, j));
        DotUnit(Column(b, j), e[i], i);
      }
    }
  }

  /** The transpose of a product is the product of the transposes, in reverse order. */
  lemma MatMulTranspose(a: Matrix, b: Matrix, inner: nat, cols: nat)
    requires IsMatrix(a, |a|, inner) && IsMatrix(b, inner, cols)
    ensures Transpose(MatMul(a, b, inner, cols), |a|, cols)
         == MatMul(Transpose(b, inner, cols), Transpose(a, |a|, inner), inner, |a|)
  {
    var lhs := Transpose(MatMul(a, b, inner, cols), |a|, cols);
    var bt := Transpose(b, inner, cols);
    var at := Transpose(a, |a|, inner);
    var rhs := MatMul(bt, at, inner, |a|);
    forall j | 0 <= j < cols ensures lhs[j] == rhs[j] {
      forall i | 0 <= i < |a| ensures lhs[j][i] == rhs[j][i] {
        assert bt[j] == Column(b, j);
        assert Column(at, i) == a[i];
        DotCommutes(a[i], Column(b, j));
      }
    }
  }

  /** Products of non-negative matrices are non-negative. */
  lemma MatMulNonNegative(a: Matrix, b: Matrix, inner: nat, cols: nat)
    requires IsMatrix(a, |a|, inner) && IsMatrix(b, inner, cols)
    requires forall i, t :: 0 <= i < |a| && 0 <= t < inner ==> 0.0 <= a[i][t]
    requires forall t, j :: 0 <= t < inner && 0 <= j < cols ==> 0.0 <= b[t][j]
    ensures forall i, j :: 0 <= i < |a| && 0 <= j < cols ==> 0.0 <= MatMul(a, b, inner, cols)[i][j]
  {
    forall i, j | 0 <= i < |a| && 0 <= j < cols
      ensures 0.0 <= MatMul(a, b, inner, cols)[i][j]
    {
      DotNonNegative(a[i], Column(b, j));
    }
  }
}
