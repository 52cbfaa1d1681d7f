/** The linear (P1) basis on the reference triangle with vertices (0,0),
    (1,0) and (0,1): phi0 = 1 - xi - eta, phi1 = xi, phi2 = eta, and their
    constant partial derivatives. An index outside 0..2 is an
    invalid_argument error. */
module ReferenceBasis {
  import opened Errors

  const ValueIndexError: Error := InvalidArgument("basisValue index out of range")
  const GradXiIndexError: Error := InvalidArgument("basisGradXi index out of range")
  const GradEtaIndexError: Error := InvalidArgument("basisGradEta index out of range")

  /** Value of basis function i at the reference point (xi, eta). */
  function BasisValue(i: int, xi: real, eta: real): (r: Result<real>)
    ensures r.Ok? <==> 0 <= i < 3
    ensures r.Err? ==> r.error == ValueIndexError
  {
    if i == 0 then Ok(1.0 - xi - eta)
    else if i == 1 then Ok(xi)
    else if i == 2 then Ok(eta)
    else Err(ValueIndexError)
  }

  /** d(phi_i)/d(xi). */
  function BasisGradXi(i: int): (r: Result<real>)
    ensures r.Ok? <==> 0 <= i < 3
    ensures r.Err? ==> r.error == GradXiIndexError
  {
    if i == 0 then Ok(-1.0)
    else if i == 1 then Ok(1.0)
    else if i == 2 then Ok(0.0)
    else Err(GradXiIndexError)
  }

  /** d(phi_i)/d(eta). */
  function BasisGradEta(i: int): (r: Result<real>)
    ensures r.Ok? <==> 0 <= i < 3
    ensures r.Err? ==> r.error == GradEtaIndexError
  {
    if i == 0 then Ok(-1.0)
    else if i == 1 then Ok(0.0)
    else if i == 2 then Ok(1.0)
    else Err(GradEtaIndexError)
  }

  /** The reference vertices (0,0), (1,0), (0,1). */
  function VertexXi(k: nat): real
    requires k < 3
  {
    if k == 1 then 1.0 else 0.0
  }

  function VertexEta(k: nat): real
    requires k < 3
  {
    if k == 2 then 1.0 else 0.0
  }

  /** The three basis functions sum to one everywhere. */
  lemma PartitionOfUnity(xi: real, eta: real)
    ensures BasisValue(0, xi, eta).value + BasisValue(1, xi, eta).value +
            BasisValue(2, xi, eta).value == 1.0
  {
  }

  /** Basis function i is 1 at vertex i and 0 at the other two. */
  lemma KroneckerAtVertices(i: nat, k: nat)
    requires i < 3 && k < 3
    ensures BasisValue(i, VertexXi(k), VertexEta(k)) == Ok(if i == k then 1.0 else 0.0)
  {
  }

  /** The gradients of the three basis functions sum to zero, so any
      constant is reproduced with zero gradient. */
  lemma GradientsSumToZero()
    ensures BasisGradXi(0).value + BasisGradXi(1).value + BasisGradXi(2).value == 0.0
    ensures BasisGradEta(0).value + BasisGradEta(1).value + BasisGradEta(2).value == 0.0
  {
  }

  /** Each derivative is the difference quotient of the basis function
      along the corresponding reference axis (the basis is affine). */
  lemma GradientsMatchValues(i: nat, xi: real, eta: real)
    requires i < 3
    ensures BasisValue(i, xi + 1.0, eta).value - BasisValue(i, xi, eta).value == BasisGradXi(i).value
    ensures BasisValue(i, xi, eta + 1.0).value - BasisValue(i, xi, eta).value == BasisGradEta(i).value
  {
  }
}
