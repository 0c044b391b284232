/** A torque of dimension `DIM`: a wrapper around a torque vector, applied to the
    angular chain of a body of the same dimension. */
module Torques {
  import opened Vectors
  import opened Kinematics
  import Integration

  /** The torque; its dimension `DIM` is the length of the wrapped vector. */
  datatype Torque = Torque(vector: Vector) {

    /** Builds a torque from its `DIM` components, in order. */
    static function New(components: seq<real>): (t: Torque)
      ensures t.Deref() == components
      ensures |t.Deref()| == |components|
    {
      From(components)
    }

    /** Wraps an existing vector. */
    static function From(v: Vector): (t: Torque)
      ensures t.vector == v
    {
      Torque(v)
    }

    /** The default torque of dimension `dim`: every component zero. */
    static function Default(dim: nat): (t: Torque)
      ensures |t.Deref()| == dim
      ensures IsZero(t.Deref())
    {
      Torque(Zero(dim))
    }

    /** The wrapped vector; wrapping it again gives back the same torque. */
    function Deref(): (v: Vector)
      ensures From(v) == this
    {
      vector
    }

    /** Component 0; only defined when `DIM >= 1`. */
    function U(): (u: real)
      requires |vector| >= 1
      ensures u == Deref()[0]
    {
      vector[0]
    }

    /** Component 1; only defined when `DIM >= 2`. */
    function V(): (v: real)
      requires |vector| >= 2
      ensures v == Deref()[1]
    {
      vector[1]
    }

    /** Component 2; only defined when `DIM >= 3`. */
    function W(): (w: real)
      requires |vector| >= 3
      ensures w == Deref()[2]
    {
      vector[2]
    }

    /** Applies the torque to an order-1 body: one explicit Euler step of its angular
        velocity, `v := v + (T / m) * timeStep` with `m` the body's rotational inertia, and nothing else changes. */
    method ApplyFirstOrder(body: Body, timeStep: real)
      requires body.Valid() && body.ord == 1 && body.dim == |vector|
      modifies body.angular
      ensures body.Valid()
      ensures body.State() == Integration.FirstOrder(old(body.State()), Angular, vector, timeStep)
    {
      Integration.ApplyFirstOrder(body, Angular, vector, timeStep);
    }

    /** Applies the torque to an order-2 body: its angular acceleration becomes `T / m`,
        and nothing else changes. */
    method ApplySecondOrder(body: Body)
      requires body.Valid() && body.ord == 2 && body.dim == |vector|
      modifies body.angular
      ensures body.Valid()
      ensures body.State() == Integration.SecondOrder(old(body.State()), Angular, vector)
    {
      Integration.ApplySecondOrder(body, Angular, vector);
    }
  }

  /** Wrapping and dereferencing are mutually inverse: no component is altered either way. */
  lemma FromDerefRoundTrip(v: Vector, t: Torque)
    ensures Torque.From(v).Deref() == v
    ensures Torque.From(t.Deref()) == t
  {
  }

  /** The named axes of a torque built from components read those components back. */
  lemma NewAxes(components: seq<real>)
    ensures |components| >= 1 ==> Torque.New(components).U() == components[0]
    ensures |components| >= 2 ==> Torque.New(components).V() == components[1]
    ensures |components| >= 3 ==> Torque.New(components).W() == components[2]
  {
  }

  /** Every named axis of a default torque reads zero. */
  lemma DefaultAxes(dim: nat)
    ensures dim >= 1 ==> Torque.Default(dim).U() == 0.0
    ensures dim >= 2 ==> Torque.Default(dim).V() == 0.0
    ensures dim >= 3 ==> Torque.Default(dim).W() == 0.0
  {
  }

  /** A default (zero) torque leaves an order-1 body exactly as it was. */
  lemma DefaultFirstOrderIsIdentity(s: BodyState, dim: nat, timeStep: real)
    requires s.Shaped(dim, 1)
    ensures Integration.FirstOrder(s, Angular, Torque.Default(dim).Deref(), timeStep) == s
  {
    Integration.FirstOrderZero(s, Angular, Torque.Default(dim).Deref(), timeStep);
  }

  /** A three-dimensional torque (0, 0, 6) on an order-2 body of inertia 3 at rest sets its
      angular acceleration to (0, 0, 2) and leaves its angular velocity as it was. */
  lemma ThreeDimensionalScenario()
    ensures Integration.SecondOrder(Rest(3, 2, 3.0), Angular, Torque.New([0.0, 0.0, 6.0]).Deref()).angular[2] == [0.0, 0.0, 2.0]
    ensures Integration.SecondOrder(Rest(3, 2, 3.0), Angular, Torque.New([0.0, 0.0, 6.0]).Deref()).angular[1] == Zero(3)
  {
    var r := Integration.SecondOrder(Rest(3, 2, 3.0), Angular, Torque.New([0.0, 0.0, 6.0]).Deref());
    assert r.angular[2][2] == 6.0 / 3.0;
  }
}
