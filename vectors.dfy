/** The component-wise vector arithmetic the integrators rely on. The vector type
    itself belongs to an external linear-algebra component; only the operations that
    the force and torque code uses are modelled, on mathematical reals. */
module Vectors {

  /** A `DIM`-component vector; its dimension is its length. */
  type Vector = seq<real>

  /** The zero vector of the given dimension (the vector's default value). */
  function Zero(dim: nat): (v: Vector)
    ensures |v| == dim
    ensures IsZero(v)
  {
    seq(dim, _ => 0.0)
  }

  /** Every component is zero. */
  predicate IsZero(v: Vector) {
    forall i :: 0 <= i < |v| ==> v[i] == 0.0
  }

  /** `v / d`: every component divided by the same scalar. */
  function Div(v: Vector, d: real): (r: Vector)
    requires d != 0.0
    ensures |r| == |v|
    ensures forall i :: 0 <= i < |v| ==> r[i] == v[i] / d
  {
    seq(|v|, i requires 0 <= i < |v| => v[i] / d)
  }

  /** `v * s`: every component multiplied by the same scalar. */
  function Scale(v: Vector, s: real): (r: Vector)
    ensures |r| == |v|
    ensures forall i :: 0 <= i < |v| ==> r[i] == v[i] * s
  {
    seq(|v|, i requires 0 <= i < |v| => v[i] * s)
  }

  /** `u + v`, component by component. */
  function Add(u: Vector, v: Vector): (r: Vector)
    requires |u| == |v|
    ensures |r| == |u|
    ensures forall i :: 0 <= i < |u| ==> r[i] == u[i] + v[i]
  {
    seq(|u|, i requires 0 <= i < |u| => u[i] + v[i])
  }
}
