/** The rigid body the integrators act on. The body belongs to an external kinematics
    component; this module gives it just the shape the force and torque code relies on:
    a scalar mass (the translational mass, or the rotational inertia for torques) and,
    for each of two derivative chains, one `dim`-component vector per derivative order
    `0..=ord` (order 0 is position, 1 velocity, 2 acceleration). */
module Kinematics {
  import opened Vectors

  /** Which derivative chain of a body: the linear one or the rotational one. */
  datatype Chain = Spatial | Angular {
    function Other(): (o: Chain)
      ensures o != this
    {
      if Spatial? then Angular else Spatial
    }
  }

  /** The abstract value of a body: its mass and, per chain, the vectors of orders `0..=ord`. */
  datatype BodyState = BodyState(mass: real, spatial: seq<Vector>, angular: seq<Vector>) {

    function Derivatives(c: Chain): seq<Vector> {
      match c
      case Spatial => spatial
      case Angular => angular
    }

    /** The body tracks orders `0..=ord` of `dim`-component vectors on both chains and its mass is positive. */
    predicate Shaped(dim: nat, ord: nat) {
      && mass > 0.0
      && |spatial| == ord + 1 && |angular| == ord + 1
      && (forall k :: 0 <= k <= ord ==> |spatial[k]| == dim)
      && (forall k :: 0 <= k <= ord ==> |angular[k]| == dim)
    }

    /** The same body with the order-`k` vector of chain `c` replaced by `v`. */
    function WithDerivative(c: Chain, k: nat, v: Vector): (s: BodyState)
      requires k < |Derivatives(c)|
      ensures s.mass == mass
      ensures s.Derivatives(c.Other()) == Derivatives(c.Other())
      ensures |s.Derivatives(c)| == |Derivatives(c)|
      ensures s.Derivatives(c)[k] == v
      ensures forall j :: 0 <= j < |Derivatives(c)| && j != k ==> s.Derivatives(c)[j] == Derivatives(c)[j]
    {
      match c
      case Spatial => this.(spatial := spatial[k := v])
      case Angular => this.(angular := angular[k := v])
    }
  }

  /** A body at rest: every derivative of both chains is zero. */
  function Rest(dim: nat, ord: nat, mass: real): (s: BodyState)
    requires mass > 0.0
    ensures s.Shaped(dim, ord)
    ensures forall c: Chain, k :: 0 <= k <= ord ==> IsZero(s.Derivatives(c)[k])
  {
    BodyState(mass, seq(ord + 1, _ => Zero(dim)), seq(ord + 1, _ => Zero(dim)))
  }

  /** The vectors stored in the rows of a matrix, one vector per row. */
  ghost function Rows(a: array2<real>): (r: seq<Vector>)
    reads a
    ensures |r| == a.Length0
    ensures forall k :: 0 <= k < a.Length0 ==> |r[k]| == a.Length1
    ensures forall k, i :: 0 <= k < a.Length0 && 0 <= i < a.Length1 ==> r[k][i] == a[k, i]
  {
    seq(a.Length0, k requires 0 <= k < a.Length0 reads a =>
      seq(a.Length1, i requires 0 <= i < a.Length1 reads a => a[k, i]))
  }

  /** A body of dimension `dim` tracking derivative orders `0..=ord`. Each chain is stored as
      an `(ord + 1) x dim` matrix: row `k` is the order-`k` vector, column `i` axis `i`. */
  class Body {
    const dim: nat
    const ord: nat
    var mass: real
    const spatial: array2<real>
    const angular: array2<real>

    ghost predicate Valid()
      reads this
    {
      && mass > 0.0
      && spatial.Length0 == ord + 1 && spatial.Length1 == dim
      && angular.Length0 == ord + 1 && angular.Length1 == dim
      && spatial != angular
    }

    /** The storage of one chain. */
    function Storage(c: Chain): (a: array2<real>)
      ensures a == (if c.Spatial? then spatial else angular)
    {
      if c.Spatial? then spatial else angular
    }

    /** The abstract value of the body. */
    ghost function State(): (s: BodyState)
      requires Valid()
      reads this, spatial, angular
      ensures s.Shaped(dim, ord)
    {
      BodyState(mass, Rows(spatial), Rows(angular))
    }

    /** A body at rest with the given mass. */
    constructor (dim: nat, ord: nat, mass: real)
      requires mass > 0.0
      ensures Valid() && fresh(spatial) && fresh(angular)
      ensures this.dim == dim && this.ord == ord
      ensures State() == Rest(dim, ord, mass)
    {
      this.dim, this.ord, this.mass := dim, ord, mass;
      spatial := new real[ord + 1, dim]((_, _) => 0.0);
      angular := new real[ord + 1, dim]((_, _) => 0.0);
      new;
      forall k | 0 <= k <= ord
        ensures Rows(spatial)[k] == Zero(dim) && Rows(angular)[k] == Zero(dim)
      {
        assert forall i :: 0 <= i < dim ==> Rows(spatial)[k][i] == 0.0 && Rows(angular)[k][i] == 0.0;
      }
    }
  }
}
