/** Global assembly by scatter-add: every cell adds its 3-by-3 element
    matrix into K at (dofs[i], dofs[j]) and area/3 into F at each of its
    three DOFs, starting from zero. The functions follow the loop order of
    the source (cells, then i, then j); the lemmas give the closed form of
    each entry and the properties that follow from it. */
module Assembly {
  import opened Dense

  /** What one cell contributes: its three DOFs, its element stiffness
      matrix and its area. */
  datatype Element = Element(dofs: seq<int>, ke: Mat, area: real)

  /** The element can be scattered into an n-DOF system. */
  predicate Fits(e: Element, n: nat)
  {
    |e.dofs| == 3 && (forall i | 0 <= i < 3 :: 0 <= e.dofs[i] < n) && IsMatrix(e.ke, 3, 3)
  }

  predicate AllFit(es: seq<Element>, n: nat)
  {
    forall c | 0 <= c < |es| :: Fits(es[c], n)
  }

  lemma AllFitPrefix(es: seq<Element>, n: nat)
    requires AllFit(es, n) && |es| > 0
    ensures AllFit(es[..|es| - 1], n)
  {
    var pre := es[..|es| - 1];
    forall c | 0 <= c < |pre| ensures Fits(pre[c], n) {
      assert pre[c] == es[c];
    }
  }

  // ---------------------------------------------------------------------
  // Stiffness scatter

  /** The first t steps of the inner loop for row i: K(dofs[i], dofs[j]) += Ke(i, j). */
  function ScatterRow(m: Mat, n: nat, e: Element, i: nat, t: nat): (w: Mat)
    requires IsMatrix(m, n, n) && Fits(e, n) && i < 3 && t <= 3
    ensures IsMatrix(w, n, n)
  {
    if t == 0 then m
    else AddAt2(ScatterRow(m, n, e, i, t - 1), e.dofs[i], e.dofs[t - 1], e.ke[i][t - 1])
  }

  /** The first t rows of the element scattered. */
  function ScatterRows(m: Mat, n: nat, e: Element, t: nat): (w: Mat)
    requires IsMatrix(m, n, n) && Fits(e, n) && t <= 3
    ensures IsMatrix(w, n, n)
  {
    if t == 0 then m else ScatterRow(ScatterRows(m, n, e, t - 1), n, e, t - 1, 3)
  }

  function Scatter(m: Mat, n: nat, e: Element): (w: Mat)
    requires IsMatrix(m, n, n) && Fits(e, n)
    ensures IsMatrix(w, n, n)
  {
    ScatterRows(m, n, e, 3)
  }

  /** K after the cells es have been scattered into MatrixXd::Zero(n, n). */
  function AssembledStiffness(n: nat, es: seq<Element>): (k: Mat)
    requires AllFit(es, n)
    ensures IsMatrix(k, n, n)
  {
    if |es| == 0 then ZeroMatrix(n)
    else
      AllFitPrefix(es, n);
      Scatter(AssembledStiffness(n, es[..|es| - 1]), n, es[|es| - 1])
  }

  // ---------------------------------------------------------------------
  // Closed form

  /** What the pair (i, j) of element e adds to entry (r, s). */
  function Term(e: Element, r: int, s: int, i: nat, j: nat): real
    requires |e.dofs| == 3 && IsMatrix(e.ke, 3, 3) && i < 3 && j < 3
  {
    if e.dofs[i] == r && e.dofs[j] == s then e.ke[i][j] else 0.0
  }

  function RowTerms(e: Element, r: int, s: int, i: nat, t: nat): real
    requires |e.dofs| == 3 && IsMatrix(e.ke, 3, 3) && i < 3 && t <= 3
  {
    if t == 0 then 0.0 else RowTerms(e, r, s, i, t - 1) + Term(e, r, s, i, t - 1)
  }

  function RowsTerms(e: Element, r: int, s: int, t: nat): real
    requires |e.dofs| == 3 && IsMatrix(e.ke, 3, 3) && t <= 3
  {
    if t == 0 then 0.0 else RowsTerms(e, r, s, t - 1) + RowTerms(e, r, s, t - 1, 3)
  }

  /** Everything element e adds to entry (r, s): the sum of Ke(i, j) over
      the pairs with dofs[i] == r and dofs[j] == s. */
  function Coupling(e: Element, r: int, s: int): real
    requires |e.dofs| == 3 && IsMatrix(e.ke, 3, 3)
  {
    RowsTerms(e, r, s, 3)
  }

  /** The sum of the couplings of all elements of es at (r, s). */
  function TotalCoupling(es: seq<Element>, r: int, s: int): real
    requires forall c | 0 <= c < |es| :: |es[c].dofs| == 3 && IsMatrix(es[c].ke, 3, 3)
  {
    if |es| == 0 then 0.0
    else TotalCoupling(es[..|es| - 1], r, s) + Coupling(es[|es| - 1], r, s)
  }

  lemma {:induction false} ScatterRowAt(m: Mat, n: nat, e: Element, i: nat, t: nat, r: nat, s: nat)
    requires IsMatrix(m, n, n) && Fits(e, n) && i < 3 && t <= 3 && r < n && s < n
    ensures ScatterRow(m, n, e, i, t)[r][s] == m[r][s] + RowTerms(e, r, s, i, t)
  {
    if t > 0 {
      ScatterRowAt(m, n, e, i, t - 1, r, s);
    }
  }

  lemma {:induction false} ScatterRowsAt(m: Mat, n: nat, e: Element, t: nat, r: nat, s: nat)
    requires IsMatrix(m, n, n) && Fits(e, n) && t <= 3 && r < n && s < n
    ensures ScatterRows(m, n, e, t)[r][s] == m[r][s] + RowsTerms(e, r, s, t)
  {
    if t > 0 {
      ScatterRowsAt(m, n, e, t - 1, r, s);
      ScatterRowAt(ScatterRows(m, n, e, t - 1), n, e, t - 1, 3, r, s);
    }
  }

  /** Scattering one element adds its coupling to every entry. */
  lemma ScatterAt(m: Mat, n: nat, e: Element, r: nat, s: nat)
    requires IsMatrix(m, n, n) && Fits(e, n) && r < n && s < n
    ensures Scatter(m, n, e)[r][s] == m[r][s] + Coupling(e, r, s)
  {
    ScatterRowsAt(m, n, e, 3, r, s);
  }

  /** Each entry of the assembled K is the total coupling of the cells at
      that entry. */
  lemma {:induction false} AssembledStiffnessAt(n: nat, es: seq<Element>, r: nat, s: nat)
    requires AllFit(es, n) && r < n && s < n
    ensures AssembledStiffness(n, es)[r][s] == TotalCoupling(es, r, s)
  {
    if |es| > 0 {
      var pre := es[..|es| - 1];
      AllFitPrefix(es, n);
      AssembledStiffnessAt(n, pre, r, s);
      ScatterAt(AssembledStiffness(n, pre), n, es[|es| - 1], r, s);
    }
  }

  // ---------------------------------------------------------------------
  // Symmetry

  /** The coupling written out as its nine terms. */
  lemma CouplingTerms(e: Element, r: int, s: int)
    requires |e.dofs| == 3 && IsMatrix(e.ke, 3, 3)
    ensures Coupling(e, r, s) ==
      Term(e, r, s, 0, 0) + Term(e, r, s, 0, 1) + Term(e, r, s, 0, 2) +
      Term(e, r, s, 1, 0) + Term(e, r, s, 1, 1) + Term(e, r, s, 1, 2) +
      Term(e, r, s, 2, 0) + Term(e, r, s, 2, 1) + Term(e, r, s, 2, 2)
  {
    forall i | 0 <= i < 3
      ensures RowTerms(e, r, s, i, 3) == Term(e, r, s, i, 0) + Term(e, r, s, i, 1) + Term(e, r, s, i, 2)
    {
      assert RowTerms(e, r, s, i, 1) == Term(e, r, s, i, 0);
      assert RowTerms(e, r, s, i, 2) == RowTerms(e, r, s, i, 1) + Term(e, r, s, i, 1);
    }
    assert RowsTerms(e, r, s, 1) == RowTerms(e, r, s, 0, 3);
    assert RowsTerms(e, r, s, 2) == RowsTerms(e, r, s, 1) + RowTerms(e, r, s, 1, 3);
  }

  /** The coupling of an element with a symmetric Ke is symmetric. */
  lemma CouplingSymmetric(e: Element, r: int, s: int)
    requires |e.dofs| == 3 && IsMatrix(e.ke, 3, 3) && Symmetric(e.ke, 3)
    ensures Coupling(e, r, s) == Coupling(e, s, r)
  {
    CouplingTerms(e, r, s);
    CouplingTerms(e, s, r);
    forall i, j | 0 <= i < 3 && 0 <= j < 3
      ensures Term(e, r, s, i, j) == Term(e, s, r, j, i)
    {
      assert e.ke[i][j] == e.ke[j][i];
    }
  }

  predicate AllSymmetric(es: seq<Element>)
    requires forall c | 0 <= c < |es| :: |es[c].dofs| == 3 && IsMatrix(es[c].ke, 3, 3)
  {
    forall c | 0 <= c < |es| :: Symmetric(es[c].ke, 3)
  }

  lemma {:induction false} TotalCouplingSymmetric(es: seq<Element>, r: int, s: int)
    requires forall c | 0 <= c < |es| :: |es[c].dofs| == 3 && IsMatrix(es[c].ke, 3, 3)
    requires AllSymmetric(es)
    ensures TotalCoupling(es, r, s) == TotalCoupling(es, s, r)
  {
    if |es| > 0 {
      var pre := es[..|es| - 1];
      assert forall c | 0 <= c < |pre| :: pre[c] == es[c];
      TotalCouplingSymmetric(pre, r, s);
      CouplingSymmetric(es[|es| - 1], r, s);
    }
  }

  /** Scattering symmetric element matrices gives a symmetric K. */
  lemma AssembledStiffnessSymmetric(n: nat, es: seq<Element>)
    requires AllFit(es, n) && AllSymmetric(es)
    ensures Symmetric(AssembledStiffness(n, es), n)
  {
    var k := AssembledStiffness(n, es);
    forall r, s | 0 <= r < n && 0 <= s < n
      ensures k[r][s] == k[s][r]
    {
      AssembledStiffnessAt(n, es, r, s);
      AssembledStiffnessAt(n, es, s, r);
      TotalCouplingSymmetric(es, r, s);
    }
  }

  // ---------------------------------------------------------------------
  // Entries no cell couples

  /** Some cell has DOF r at a position i and DOF s at a position j. */
  predicate Coupled(es: seq<Element>, r: int, s: int)
    requires forall c | 0 <= c < |es| :: |es[c].dofs| == 3
  {
    exists c, i, j | 0 <= c < |es| && 0 <= i < 3 && 0 <= j < 3 ::
      es[c].dofs[i] == r && es[c].dofs[j] == s
  }

  lemma {:induction false} UncoupledTotal(es: seq<Element>, r: int, s: int)
    requires forall c | 0 <= c < |es| :: |es[c].dofs| == 3 && IsMatrix(es[c].ke, 3, 3)
    requires !Coupled(es, r, s)
    ensures TotalCoupling(es, r, s) == 0.0
  {
    if |es| > 0 {
      var pre := es[..|es| - 1];
      var e := es[|es| - 1];
      assert forall c | 0 <= c < |pre| :: pre[c] == es[c];
      assert !Coupled(pre, r, s);
      UncoupledTotal(pre, r, s);
      CouplingTerms(e, r, s);
      forall i, j | 0 <= i < 3 && 0 <= j < 3
        ensures Term(e, r, s, i, j) == 0.0
      {
        assert !(es[|es| - 1].dofs[i] == r && es[|es| - 1].dofs[j] == s);
      }
    }
  }

  /** An entry that no cell couples stays zero. */
  lemma AssembledStiffnessUncoupled(n: nat, es: seq<Element>, r: nat, s: nat)
    requires AllFit(es, n) && r < n && s < n && !Coupled(es, r, s)
    ensures AssembledStiffness(n, es)[r][s] == 0.0
  {
    AssembledStiffnessAt(n, es, r, s);
    UncoupledTotal(es, r, s);
  }

  // ---------------------------------------------------------------------
  // Row sums

  predicate RowsSumToZero(ke: Mat)
    requires IsMatrix(ke, 3, 3)
  {
    forall i | 0 <= i < 3 :: Sum(ke[i]) == 0.0
  }

  lemma {:induction false} ScatterRowSum(m: Mat, n: nat, e: Element, i: nat, t: nat, r: nat)
    requires IsMatrix(m, n, n) && Fits(e, n) && i < 3 && t <= 3 && r < n
    ensures Sum(ScatterRow(m, n, e, i, t)[r]) ==
            Sum(m[r]) + (if r == e.dofs[i] then Sum(e.ke[i][..t]) else 0.0)
  {
    if t > 0 {
      ScatterRowSum(m, n, e, i, t - 1, r);
      var w := ScatterRow(m, n, e, i, t - 1);
      assert e.ke[i][..t][..t - 1] == e.ke[i][..t - 1];
      if r == e.dofs[i] {
        SumAddAt(w[r], e.dofs[t - 1], e.ke[i][t - 1]);
      }
    }
  }

  /** Scattering an element whose Ke rows sum to zero keeps every row sum. */
  lemma {:induction false} ScatterRowsSum(m: Mat, n: nat, e: Element, t: nat, r: nat)
    requires IsMatrix(m, n, n) && Fits(e, n) && t <= 3 && r < n && RowsSumToZero(e.ke)
    ensures Sum(ScatterRows(m, n, e, t)[r]) == Sum(m[r])
  {
    if t > 0 {
      ScatterRowsSum(m, n, e, t - 1, r);
      ScatterRowSum(ScatterRows(m, n, e, t - 1), n, e, t - 1, 3, r);
      assert e.ke[t - 1][..3] == e.ke[t - 1];
    }
  }

  /** When every Ke has zero row sums, so has K: K * 1 == 0. */
  lemma {:induction false} AssembledStiffnessRowSum(n: nat, es: seq<Element>, r: nat)
    requires AllFit(es, n) && r < n
    requires forall c | 0 <= c < |es| :: RowsSumToZero(es[c].ke)
    ensures Sum(AssembledStiffness(n, es)[r]) == 0.0
  {
    if |es| == 0 {
      SumZeros(n);
    } else {
      var pre := es[..|es| - 1];
      assert forall c | 0 <= c < |pre| :: pre[c] == es[c];
      AssembledStiffnessRowSum(n, pre, r);
      ScatterRowsSum(AssembledStiffness(n, pre), n, es[|es| - 1], 3, r);
    }
  }

  // ---------------------------------------------------------------------
  // Load vector

  /** The first t steps of F(dofs[i]) += area / 3. */
  function ScatterLoad(f: Vec, n: nat, e: Element, t: nat): (w: Vec)
    requires |f| == n && Fits(e, n) && t <= 3
    ensures |w| == n
  {
    if t == 0 then f else AddAt(ScatterLoad(f, n, e, t - 1), e.dofs[t - 1], e.area / 3.0)
  }

  /** F after the cells es have been scattered into VectorXd::Zero(n). */
  function AssembledLoad(n: nat, es: seq<Element>): (f: Vec)
    requires AllFit(es, n)
    ensures |f| == n
  {
    if |es| == 0 then Zeros(n)
    else
      AllFitPrefix(es, n);
      ScatterLoad(AssembledLoad(n, es[..|es| - 1]), n, es[|es| - 1], 3)
  }

  function TotalArea(es: seq<Element>): real
  {
    if |es| == 0 then 0.0 else TotalArea(es[..|es| - 1]) + es[|es| - 1].area
  }

  lemma {:induction false} ScatterLoadSum(f: Vec, n: nat, e: Element, t: nat)
    requires |f| == n && Fits(e, n) && t <= 3
    ensures Sum(ScatterLoad(f, n, e, t)) == Sum(f) + (t as real) * (e.area / 3.0)
  {
    if t > 0 {
      var x := e.area / 3.0;
      var w := ScatterLoad(f, n, e, t - 1);
      ScatterLoadSum(f, n, e, t - 1);
      SumAddAt(w, e.dofs[t - 1], x);
      assert Sum(ScatterLoad(f, n, e, t)) == Sum(w) + x;
      assert ((t - 1) as real) * x + x == (t as real) * x;
    }
  }

  /** The entries of F add up to the total area of the cells. */
  lemma {:induction false} AssembledLoadSum(n: nat, es: seq<Element>)
    requires AllFit(es, n)
    ensures Sum(AssembledLoad(n, es)) == TotalArea(es)
  {
    if |es| == 0 {
      SumZeros(n);
    } else {
      var pre := es[..|es| - 1];
      assert forall c | 0 <= c < |pre| :: pre[c] == es[c];
      AssembledLoadSum(n, pre);
      ScatterLoadSum(AssembledLoad(n, pre), n, es[|es| - 1], 3);
    }
  }
}
