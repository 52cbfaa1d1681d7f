/** The boundary edits of the linear system (K, F): Dirichlet rows and
    columns replaced by the identity, Neumann edge loads added to F, and
    Robin edge terms added to K and F. Each function applies the source's
    per-node or per-edge edit in list order. */
module Boundary {
  import opened Dense

  /** The system handed from assembly to the solver. */
  datatype System = System(k: Mat, f: Vec)

  predicate Sized(sys: System, n: nat)
  {
    IsMatrix(sys.k, n, n) && |sys.f| == n
  }

  // ---------------------------------------------------------------------
  // Dirichlet

  /** DOF d is constrained to val: row d and column d of K are the unit
      vector e_d and F(d) == val. */
  predicate Constrained(sys: System, n: nat, d: nat, val: real)
    requires Sized(sys, n) && d < n
  {
    (forall s | 0 <= s < n :: sys.k[d][s] == if s == d then 1.0 else 0.0) &&
    (forall r | 0 <= r < n :: sys.k[r][d] == if r == d then 1.0 else 0.0) &&
    sys.f[d] == val
  }

  /** K.row(d).setZero(); K.col(d).setZero(); K(d, d) = 1; F(d) = val. */
  function Constrain(sys: System, n: nat, d: nat, val: real): (out: System)
    requires Sized(sys, n) && d < n
    ensures Sized(out, n)
  {
    System(
      seq(n, r requires 0 <= r < n =>
        seq(n, s requires 0 <= s < n =>
          if r == d && s == d then 1.0
          else if r == d || s == d then 0.0
          else sys.k[r][s])),
      sys.f[d := val])
  }

  /** The Dirichlet loop over the DOFs ds, in order. */
  function DirichletAll(sys: System, n: nat, ds: seq<nat>, val: real): (out: System)
    requires Sized(sys, n) && forall q | 0 <= q < |ds| :: ds[q] < n
    ensures Sized(out, n)
  {
    if |ds| == 0 then sys
    else Constrain(DirichletAll(sys, n, ds[..|ds| - 1], val), n, ds[|ds| - 1], val)
  }

  lemma DirichletAllSnoc(sys: System, n: nat, ds: seq<nat>, d: nat, val: real)
    requires Sized(sys, n) && (forall q | 0 <= q < |ds| :: ds[q] < n) && d < n
    ensures DirichletAll(sys, n, ds + [d], val) == Constrain(DirichletAll(sys, n, ds, val), n, d, val)
  {
    assert (ds + [d])[..|ds|] == ds;
  }

  /** One edit constrains its DOF, keeps every DOF already constrained to
      the same value, and leaves the entries outside row d and column d. */
  lemma ConstrainEffect(sys: System, n: nat, d: nat, val: real)
    requires Sized(sys, n) && d < n
    ensures Constrained(Constrain(sys, n, d, val), n, d, val)
    ensures forall e | 0 <= e < n && Constrained(sys, n, e, val) ::
              Constrained(Constrain(sys, n, d, val), n, e, val)
    ensures forall r, s | 0 <= r < n && 0 <= s < n && r != d && s != d ::
              Constrain(sys, n, d, val).k[r][s] == sys.k[r][s]
    ensures forall r | 0 <= r < n && r != d :: Constrain(sys, n, d, val).f[r] == sys.f[r]
  {
  }

  /** Constraining a DOF that is already constrained changes nothing. */
  lemma ConstrainFixed(sys: System, n: nat, d: nat, val: real)
    requires Sized(sys, n) && d < n && Constrained(sys, n, d, val)
    ensures Constrain(sys, n, d, val) == sys
  {
    var out := Constrain(sys, n, d, val);
    forall r | 0 <= r < n
      ensures out.k[r] == sys.k[r]
    {
      assert forall s | 0 <= s < n :: out.k[r][s] == sys.k[r][s];
    }
  }

  /** Symmetry survives one edit. */
  lemma ConstrainSymmetric(sys: System, n: nat, d: nat, val: real)
    requires Sized(sys, n) && d < n && Symmetric(sys.k, n)
    ensures Symmetric(Constrain(sys, n, d, val).k, n)
  {
  }

  lemma DirichletPrefix(ds: seq<nat>, n: nat)
    requires |ds| > 0 && forall q | 0 <= q < |ds| :: ds[q] < n
    ensures forall q | 0 <= q < |ds| - 1 :: ds[..|ds| - 1][q] == ds[q] && ds[q] < n
  {
  }

  /** After the loop, every listed DOF is constrained to val. */
  lemma {:induction false} DirichletAllConstrains(sys: System, n: nat, ds: seq<nat>, val: real)
    requires Sized(sys, n) && forall q | 0 <= q < |ds| :: ds[q] < n
    ensures forall q | 0 <= q < |ds| :: Constrained(DirichletAll(sys, n, ds, val), n, ds[q], val)
  {
    if |ds| > 0 {
      DirichletPrefix(ds, n);
      var pre := DirichletAll(sys, n, ds[..|ds| - 1], val);
      DirichletAllConstrains(sys, n, ds[..|ds| - 1], val);
      ConstrainEffect(pre, n, ds[|ds| - 1], val);
      forall q | 0 <= q < |ds|
        ensures Constrained(DirichletAll(sys, n, ds, val), n, ds[q], val)
      {
        if q < |ds| - 1 {
          assert Constrained(pre, n, ds[..|ds| - 1][q], val);
        }
      }
    }
  }

  /** Entries outside the listed rows and columns, and F outside the
      listed DOFs, are unchanged. */
  lemma {:induction false} DirichletAllFrame(sys: System, n: nat, ds: seq<nat>, val: real, r: nat, s: nat)
    requires Sized(sys, n) && forall q | 0 <= q < |ds| :: ds[q] < n
    requires r < n && s < n && r !in ds && s !in ds
    ensures DirichletAll(sys, n, ds, val).k[r][s] == sys.k[r][s]
    ensures DirichletAll(sys, n, ds, val).f[r] == sys.f[r]
  {
    if |ds| > 0 {
      DirichletPrefix(ds, n);
      assert r !in ds[..|ds| - 1] && s !in ds[..|ds| - 1];
      DirichletAllFrame(sys, n, ds[..|ds| - 1], val, r, s);
      ConstrainEffect(DirichletAll(sys, n, ds[..|ds| - 1], val), n, ds[|ds| - 1], val);
    }
  }

  /** The loop keeps K symmetric. */
  lemma {:induction false} DirichletAllSymmetric(sys: System, n: nat, ds: seq<nat>, val: real)
    requires Sized(sys, n) && (forall q | 0 <= q < |ds| :: ds[q] < n) && Symmetric(sys.k, n)
    ensures Symmetric(DirichletAll(sys, n, ds, val).k, n)
  {
    if |ds| > 0 {
      DirichletPrefix(ds, n);
      DirichletAllSymmetric(sys, n, ds[..|ds| - 1], val);
      ConstrainSymmetric(DirichletAll(sys, n, ds[..|ds| - 1], val), n, ds[|ds| - 1], val);
    }
  }

  /** Applying the loop to a system whose listed DOFs are all constrained
      changes nothing. */
  lemma {:induction false} DirichletAllFixed(sys: System, n: nat, ds: seq<nat>, val: real)
    requires Sized(sys, n) && forall q | 0 <= q < |ds| :: ds[q] < n
    requires forall q | 0 <= q < |ds| :: Constrained(sys, n, ds[q], val)
    ensures DirichletAll(sys, n, ds, val) == sys
  {
    if |ds| > 0 {
      DirichletPrefix(ds, n);
      DirichletAllFixed(sys, n, ds[..|ds| - 1], val);
      ConstrainFixed(sys, n, ds[|ds| - 1], val);
    }
  }

  /** A second identical Dirichlet call changes nothing. */
  lemma DirichletIdempotent(sys: System, n: nat, ds: seq<nat>, val: real)
    requires Sized(sys, n) && forall q | 0 <= q < |ds| :: ds[q] < n
    ensures DirichletAll(DirichletAll(sys, n, ds, val), n, ds, val) == DirichletAll(sys, n, ds, val)
  {
    DirichletAllConstrains(sys, n, ds, val);
    DirichletAllFixed(DirichletAll(sys, n, ds, val), n, ds, val);
  }

  // ---------------------------------------------------------------------
  // Neumann and Robin

  /** A boundary edge after its node lookups: the two DOFs and the length. */
  datatype Edge = Edge(d1: int, d2: int, length: real)

  predicate EdgesFit(es: seq<Edge>, n: nat)
  {
    forall q | 0 <= q < |es| :: 0 <= es[q].d1 < n && 0 <= es[q].d2 < n
  }

  /** The share g L / 2 that each endpoint of an edge receives. */
  function Share(e: Edge, g: real): real
  {
    g * e.length / 2.0
  }

  /** F(d1) += g L / 2; F(d2) += g L / 2. */
  function EdgeLoad(f: Vec, e: Edge, g: real): (w: Vec)
    requires 0 <= e.d1 < |f| && 0 <= e.d2 < |f|
    ensures |w| == |f|
  {
    AddAt(AddAt(f, e.d1, Share(e, g)), e.d2, Share(e, g))
  }

  /** The Neumann loop over the edges es, in order. */
  function NeumannAll(f: Vec, es: seq<Edge>, g: real): (w: Vec)
    requires EdgesFit(es, |f|)
    ensures |w| == |f|
  {
    if |es| == 0 then f
    else
      assert EdgesFit(es[..|es| - 1], |f|) by {
        assert forall q | 0 <= q < |es| - 1 :: es[..|es| - 1][q] == es[q];
      }
      EdgeLoad(NeumannAll(f, es[..|es| - 1], g), es[|es| - 1], g)
  }

  lemma NeumannAllSnoc(f: Vec, es: seq<Edge>, e: Edge, g: real)
    requires EdgesFit(es, |f|) && 0 <= e.d1 < |f| && 0 <= e.d2 < |f|
    ensures EdgesFit(es + [e], |f|)
    ensures NeumannAll(f, es + [e], g) == EdgeLoad(NeumannAll(f, es, g), e, g)
  {
    assert (es + [e])[..|es|] == es;
  }

  /** An edge load changes only F at its two DOFs, each by g L / 2 (twice
      at a DOF that is both endpoints). */
  lemma EdgeLoadAt(f: Vec, e: Edge, g: real, r: nat)
    requires 0 <= e.d1 < |f| && 0 <= e.d2 < |f| && r < |f|
    ensures EdgeLoad(f, e, g)[r] ==
            f[r] + (if r == e.d1 then g * e.length / 2.0 else 0.0)
                 + (if r == e.d2 then g * e.length / 2.0 else 0.0)
  {
  }

  function TotalLength(es: seq<Edge>): real
  {
    if |es| == 0 then 0.0 else TotalLength(es[..|es| - 1]) + es[|es| - 1].length
  }

  lemma AddTwiceSum(f: Vec, i: nat, j: nat, c: real)
    requires i < |f| && j < |f|
    ensures Sum(AddAt(AddAt(f, i, c), j, c)) == Sum(f) + c + c
  {
    SumAddAt(f, i, c);
    SumAddAt(AddAt(f, i, c), j, c);
  }

  /** The flux g L through one edge. */
  function Flux(e: Edge, g: real): real
  {
    g * e.length
  }

  lemma ShareTwice(e: Edge, g: real)
    ensures Share(e, g) + Share(e, g) == Flux(e, g)
  {
  }

  /** One edge adds g L to the sum of F. */
  lemma EdgeLoadSum(f: Vec, e: Edge, g: real)
    requires 0 <= e.d1 < |f| && 0 <= e.d2 < |f|
    ensures Sum(EdgeLoad(f, e, g)) == Sum(f) + Flux(e, g)
  {
    AddTwiceSum(f, e.d1, e.d2, Share(e, g));
    ShareTwice(e, g);
  }

  /** The sum over the edges of g L. */
  function TotalFlux(es: seq<Edge>, g: real): real
  {
    if |es| == 0 then 0.0 else TotalFlux(es[..|es| - 1], g) + Flux(es[|es| - 1], g)
  }

  lemma {:induction false} TotalFluxFactor(es: seq<Edge>, g: real)
    ensures TotalFlux(es, g) == g * TotalLength(es)
  {
    if |es| > 0 {
      TotalFluxFactor(es[..|es| - 1], g);
      var a := TotalLength(es[..|es| - 1]);
      var l := es[|es| - 1].length;
      assert g * a + g * l == g * (a + l);
    }
  }

  lemma {:induction false} NeumannAllFlux(f: Vec, es: seq<Edge>, g: real)
    requires EdgesFit(es, |f|)
    ensures Sum(NeumannAll(f, es, g)) == Sum(f) + TotalFlux(es, g)
  {
    if |es| > 0 {
      NeumannFluxStep(f, es, g);
      NeumannAllFlux(f, es[..|es| - 1], g);
      TotalFluxSnoc(es, g);
    }
  }

  /** The last edge adds its flux g L to the sum of F. */
  lemma NeumannFluxStep(f: Vec, es: seq<Edge>, g: real)
    requires EdgesFit(es, |f|) && |es| > 0
    ensures EdgesFit(es[..|es| - 1], |f|)
    ensures Sum(NeumannAll(f, es, g)) == Sum(NeumannAll(f, es[..|es| - 1], g)) + Flux(es[|es| - 1], g)
  {
    var pre := es[..|es| - 1];
    assert forall q | 0 <= q < |pre| :: pre[q] == es[q];
    var e := es[|es| - 1];
    var w := NeumannAll(f, pre, g);
    assert NeumannAll(f, es, g) == EdgeLoad(w, e, g);
    EdgeLoadSum(w, e, g);
  }

  lemma TotalFluxSnoc(es: seq<Edge>, g: real)
    requires |es| > 0
    ensures TotalFlux(es, g) == TotalFlux(es[..|es| - 1], g) + Flux(es[|es| - 1], g)
  {
  }

  /** The Neumann loop adds g times the total length of the edges to the
      sum of F. */
  lemma NeumannAllSum(f: Vec, es: seq<Edge>, g: real)
    requires EdgesFit(es, |f|)
    ensures Sum(NeumannAll(f, es, g)) == Sum(f) + g * TotalLength(es)
  {
    NeumannAllFlux(f, es, g);
    TotalFluxFactor(es, g);
  }

  /** F outside the DOFs of the edges is unchanged. */
  lemma {:induction false} NeumannAllFrame(f: Vec, es: seq<Edge>, g: real, r: nat)
    requires EdgesFit(es, |f|) && r < |f|
    requires forall q | 0 <= q < |es| :: es[q].d1 != r && es[q].d2 != r
    ensures NeumannAll(f, es, g)[r] == f[r]
  {
    if |es| > 0 {
      assert forall q | 0 <= q < |es| - 1 :: es[..|es| - 1][q] == es[q];
      NeumannAllFrame(f, es[..|es| - 1], g, r);
    }
  }

  /** The Robin coefficient alpha L / 6 of an edge. */
  function RobinCoeff(e: Edge, alpha: real): real
  {
    alpha * e.length / 6.0
  }

  /** The four K updates of a Robin edge, with c = alpha L / 6:
      K(d1, d1) += 2c, K(d1, d2) += c, K(d2, d1) += c, K(d2, d2) += 2c. */
  function RobinStiffness(k: Mat, n: nat, e: Edge, alpha: real): (w: Mat)
    requires IsMatrix(k, n, n) && 0 <= e.d1 < n && 0 <= e.d2 < n
    ensures IsMatrix(w, n, n)
  {
    var c := RobinCoeff(e, alpha);
    var k1 := AddAt2(k, e.d1, e.d1, 2.0 * c);
    var k2 := AddAt2(k1, e.d1, e.d2, c);
    var k3 := AddAt2(k2, e.d2, e.d1, c);
    AddAt2(k3, e.d2, e.d2, 2.0 * c)
  }

  /** K(d1,d1) += 2c; K(d1,d2) += c; K(d2,d1) += c; K(d2,d2) += 2c with
      c = alpha L / 6, then the edge load of g. */
  function RobinEdge(sys: System, n: nat, e: Edge, alpha: real, g: real): (out: System)
    requires Sized(sys, n) && 0 <= e.d1 < n && 0 <= e.d2 < n
    ensures Sized(out, n)
  {
    System(RobinStiffness(sys.k, n, e, alpha), EdgeLoad(sys.f, e, g))
  }

  /** The Robin loop over the edges es, in order. */
  function RobinAll(sys: System, n: nat, es: seq<Edge>, alpha: real, g: real): (out: System)
    requires Sized(sys, n) && EdgesFit(es, n)
    ensures Sized(out, n)
  {
    if |es| == 0 then sys
    else
      assert EdgesFit(es[..|es| - 1], n) by {
        assert forall q | 0 <= q < |es| - 1 :: es[..|es| - 1][q] == es[q];
      }
      RobinEdge(RobinAll(sys, n, es[..|es| - 1], alpha, g), n, es[|es| - 1], alpha, g)
  }

  lemma RobinAllSnoc(sys: System, n: nat, es: seq<Edge>, e: Edge, alpha: real, g: real)
    requires Sized(sys, n) && EdgesFit(es, n) && 0 <= e.d1 < n && 0 <= e.d2 < n
    ensures EdgesFit(es + [e], n)
    ensures RobinAll(sys, n, es + [e], alpha, g) == RobinEdge(RobinAll(sys, n, es, alpha, g), n, e, alpha, g)
  {
    assert (es + [e])[..|es|] == es;
  }

  /** What a Robin edge adds to K(r, s): the matching entries of the block
      [[2, 1], [1, 2]] * alpha L / 6. */
  function RobinBlock(e: Edge, alpha: real, r: int, s: int): (v: real)
    ensures (r != e.d1 && r != e.d2) || (s != e.d1 && s != e.d2) ==> v == 0.0
    ensures e.d1 != e.d2 && r == s && (r == e.d1 || r == e.d2) ==> v == alpha * e.length / 3.0
    ensures e.d1 != e.d2 && r != s && (r == e.d1 || r == e.d2) && (s == e.d1 || s == e.d2) ==>
              v == alpha * e.length / 6.0
    ensures e.d1 == e.d2 && r == e.d1 && s == e.d1 ==> v == alpha * e.length
  {
    var c := alpha * e.length / 6.0;
    (if r == e.d1 && s == e.d1 then 2.0 * c else 0.0) +
    (if r == e.d1 && s == e.d2 then c else 0.0) +
    (if r == e.d2 && s == e.d1 then c else 0.0) +
    (if r == e.d2 && s == e.d2 then 2.0 * c else 0.0)
  }

  /** A Robin edge adds its block to K, touching only the four entries of
      {d1, d2} x {d1, d2}, and the block is symmetric. */
  lemma RobinEdgeAt(sys: System, n: nat, e: Edge, alpha: real, g: real, r: nat, s: nat)
    requires Sized(sys, n) && 0 <= e.d1 < n && 0 <= e.d2 < n && r < n && s < n
    ensures RobinEdge(sys, n, e, alpha, g).k[r][s] == sys.k[r][s] + RobinBlock(e, alpha, r, s)
    ensures RobinBlock(e, alpha, r, s) == RobinBlock(e, alpha, s, r)
    ensures (r != e.d1 && r != e.d2) || (s != e.d1 && s != e.d2) ==> RobinBlock(e, alpha, r, s) == 0.0
  {
  }

  /** The F part of the Robin loop is the Neumann loop with g. */
  lemma {:induction false} RobinLoadIsNeumann(sys: System, n: nat, es: seq<Edge>, alpha: real, g: real)
    requires Sized(sys, n) && EdgesFit(es, n)
    ensures RobinAll(sys, n, es, alpha, g).f == NeumannAll(sys.f, es, g)
  {
    if |es| > 0 {
      assert forall q | 0 <= q < |es| - 1 :: es[..|es| - 1][q] == es[q];
      RobinLoadIsNeumann(sys, n, es[..|es| - 1], alpha, g);
    }
  }

  /** One Robin edge keeps K symmetric. */
  lemma RobinEdgeSymmetric(sys: System, n: nat, e: Edge, alpha: real, g: real)
    requires Sized(sys, n) && 0 <= e.d1 < n && 0 <= e.d2 < n && Symmetric(sys.k, n)
    ensures Symmetric(RobinEdge(sys, n, e, alpha, g).k, n)
  {
    var out := RobinEdge(sys, n, e, alpha, g);
    forall r, s | 0 <= r < n && 0 <= s < n
      ensures out.k[r][s] == out.k[s][r]
    {
      RobinEdgeAt(sys, n, e, alpha, g, r, s);
      RobinEdgeAt(sys, n, e, alpha, g, s, r);
    }
  }

  /** The Robin loop keeps K symmetric. */
  lemma {:induction false} RobinAllSymmetric(sys: System, n: nat, es: seq<Edge>, alpha: real, g: real)
    requires Sized(sys, n) && EdgesFit(es, n) && Symmetric(sys.k, n)
    ensures Symmetric(RobinAll(sys, n, es, alpha, g).k, n)
  {
    if |es| > 0 {
      assert forall q | 0 <= q < |es| - 1 :: es[..|es| - 1][q] == es[q];
      RobinAllSymmetric(sys, n, es[..|es| - 1], alpha, g);
      RobinEdgeSymmetric(RobinAll(sys, n, es[..|es| - 1], alpha, g), n, es[|es| - 1], alpha, g);
    }
  }

  /** K outside the rows and columns of the edges' DOFs is unchanged. */
  lemma {:induction false} RobinAllFrame(sys: System, n: nat, es: seq<Edge>, alpha: real, g: real, r: nat, s: nat)
    requires Sized(sys, n) && EdgesFit(es, n) && r < n && s < n
    requires forall q | 0 <= q < |es| :: es[q].d1 != r && es[q].d2 != r
    ensures RobinAll(sys, n, es, alpha, g).k[r][s] == sys.k[r][s]
  {
    if |es| > 0 {
      assert forall q | 0 <= q < |es| - 1 :: es[..|es| - 1][q] == es[q];
      RobinAllFrame(sys, n, es[..|es| - 1], alpha, g, r, s);
      RobinEdgeAt(RobinAll(sys, n, es[..|es| - 1], alpha, g), n, es[|es| - 1], alpha, g, r, s);
    }
  }

  // ---------------------------------------------------------------------
  // The order of solvePoisson

  /** Neumann when there are Neumann edges, then Robin when there are
      Robin edges, then Dirichlet with value 0. */
  function PoissonSystem(sys: System, n: nat, neu: seq<Edge>, rob: seq<Edge>, ds: seq<nat>,
                         alpha: real, gNeu: real, gRob: real): (out: System)
    requires Sized(sys, n) && EdgesFit(neu, n) && EdgesFit(rob, n)
    requires forall q | 0 <= q < |ds| :: ds[q] < n
    ensures Sized(out, n)
  {
    var s1 := if |neu| > 0 then System(sys.k, NeumannAll(sys.f, neu, gNeu)) else sys;
    var s2 := if |rob| > 0 then RobinAll(s1, n, rob, alpha, gRob) else s1;
    DirichletAll(s2, n, ds, 0.0)
  }

  /** In the system handed to the solver every Dirichlet DOF has a unit
      row and column and a zero right-hand side, K is symmetric when the
      assembled K is, and a second Dirichlet pass would change nothing. */
  lemma PoissonSystemProperties(sys: System, n: nat, neu: seq<Edge>, rob: seq<Edge>, ds: seq<nat>,
                                alpha: real, gNeu: real, gRob: real)
    requires Sized(sys, n) && EdgesFit(neu, n) && EdgesFit(rob, n)
    requires forall q | 0 <= q < |ds| :: ds[q] < n
    ensures forall q | 0 <= q < |ds| ::
              Constrained(PoissonSystem(sys, n, neu, rob, ds, alpha, gNeu, gRob), n, ds[q], 0.0)
    ensures Symmetric(sys.k, n) ==> Symmetric(PoissonSystem(sys, n, neu, rob, ds, alpha, gNeu, gRob).k, n)
    ensures DirichletAll(PoissonSystem(sys, n, neu, rob, ds, alpha, gNeu, gRob), n, ds, 0.0) ==
            PoissonSystem(sys, n, neu, rob, ds, alpha, gNeu, gRob)
  {
    var s1 := if |neu| > 0 then System(sys.k, NeumannAll(sys.f, neu, gNeu)) else sys;
    var s2 := if |rob| > 0 then RobinAll(s1, n, rob, alpha, gRob) else s1;
    DirichletAllConstrains(s2, n, ds, 0.0);
    DirichletIdempotent(s2, n, ds, 0.0);
    if Symmetric(sys.k, n) {
      if |rob| > 0 {
        RobinAllSymmetric(s1, n, rob, alpha, gRob);
      }
      DirichletAllSymmetric(s2, n, ds, 0.0);
    }
  }
}
