/** Dense real vectors and matrices as values: the specification side of
    the Eigen VectorXd / MatrixXd objects the finite element code fills. */
module Dense {
  type Vec = seq<real>
  type Mat = seq<seq<real>>

  /** std::abs on a double. */
  function Abs(x: real): (r: real)
    ensures r >= 0.0 && (r == x || r == -x)
  {
    if x < 0.0 then -x else x
  }

  /** m has `rows` rows of `cols` entries each. */
  predicate IsMatrix(m: Mat, rows: nat, cols: nat)
  {
    |m| == rows && forall r | 0 <= r < rows :: |m[r]| == cols
  }

  function Zeros(n: nat): (v: Vec)
    ensures |v| == n && forall i | 0 <= i < n :: v[i] == 0.0
  {
    seq(n, _ => 0.0)
  }

  /** The n-by-n zero matrix (`MatrixXd::Zero(n, n)`). */
  function ZeroMatrix(n: nat): (m: Mat)
    ensures IsMatrix(m, n, n)
    ensures forall r, s | 0 <= r < n && 0 <= s < n :: m[r][s] == 0.0
  {
    seq(n, _ => Zeros(n))
  }

  /** `v(i) += x`. */
  function AddAt(v: Vec, i: nat, x: real): (w: Vec)
    requires i < |v|
    ensures |w| == |v| && w[i] == v[i] + x
    ensures forall k | 0 <= k < |v| && k != i :: w[k] == v[k]
  {
    v[i := v[i] + x]
  }

  /** `m(r, s) += x`. */
  function AddAt2(m: Mat, r: nat, s: nat, x: real): (w: Mat)
    requires r < |m| && s < |m[r]|
    ensures |w| == |m| && w[r] == AddAt(m[r], s, x)
    ensures forall k | 0 <= k < |m| && k != r :: w[k] == m[k]
  {
    m[r := AddAt(m[r], s, x)]
  }

  predicate Symmetric(m: Mat, n: nat)
    requires IsMatrix(m, n, n)
  {
    forall r, s | 0 <= r < n && 0 <= s < n :: m[r][s] == m[s][r]
  }

  /** The sum of the entries of v. */
  function Sum(v: Vec): real
  {
    if |v| == 0 then 0.0 else Sum(v[..|v| - 1]) + v[|v| - 1]
  }

  lemma Sum3(v: Vec)
    requires |v| == 3
    ensures Sum(v) == v[0] + v[1] + v[2]
  {
    assert v[..3] == v;
    assert Sum(v[..1]) == v[0] by {
      assert v[..1][..0] == [];
    }
    assert Sum(v[..2]) == v[0] + v[1] by {
      assert v[..2][..1] == v[..1];
    }
    assert v[..3][..2] == v[..2];
  }

  /** Adding x to one entry adds x to the sum. */
  lemma {:induction false} SumAddAt(v: Vec, i: nat, x: real)
    requires i < |v|
    ensures Sum(AddAt(v, i, x)) == Sum(v) + x
  {
    var w := AddAt(v, i, x);
    var n := |v|;
    if i == n - 1 {
      assert w[..n - 1] == v[..n - 1];
    } else {
      SumAddAt(v[..n - 1], i, x);
      assert w[..n - 1] == AddAt(v[..n - 1], i, x);
    }
  }

  lemma {:induction false} SumZeros(n: nat)
    ensures Sum(Zeros(n)) == 0.0
  {
    if n > 0 {
      SumZeros(n - 1);
      assert Zeros(n)[..n - 1] == Zeros(n - 1);
    }
  }
}
