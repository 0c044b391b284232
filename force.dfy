/** A linear force of dimension `DIM`: a wrapper around a force vector, applied to the
    spatial chain of a body of the same dimension. */
module Forces {
  import opened Vectors
  import opened Kinematics
  import Integration

  /** The force; its dimension `DIM` is the length of the wrapped vector. */
  datatype Force = Force(vector: Vector) {

    /** Builds a force from its `DIM` components, in order. */
    static function New(components: seq<real>): (f: Force)
      ensures f.Deref() == components
      ensures |f.Deref()| == |components|
    {
      From(components)
    }

    /** Wraps an existing vector. */
    static function From(v: Vector): (f: Force)
      ensures f.vector == v
    {
      Force(v)
    }

    /** The default force of dimension `dim`: every component zero. */
    static function Default(dim: nat): (f: Force)
      ensures |f.Deref()| == dim
      ensures IsZero(f.Deref())
    {
      Force(Zero(dim))
    }

    /** The wrapped vector; wrapping it again gives back the same force. */
    function Deref(): (v: Vector)
      ensures From(v) == this
    {
      vector
    }

    /** Component 0; only defined when `DIM >= 1`. */
    function X(): (x: real)
      requires |vector| >= 1
      ensures x == Deref()[0]
    {
      vector[0]
    }

    /** Component 1; only defined when `DIM >= 2`. */
    function Y(): (y: real)
      requires |vector| >= 2
      ensures y == Deref()[1]
    {
      vector[1]
    }

    /** Component 2; only defined when `DIM >= 3`. */
    function Z(): (z: real)
      requires |vector| >= 3
      ensures z == Deref()[2]
    {
      vector[2]
    }

    /** Applies the force to an order-1 body: one explicit Euler step of its spatial
        velocity, `v := v + (F / m) * timeStep`, and nothing else changes. */
    method ApplyFirstOrder(body: Body, timeStep: real)
      requires body.Valid() && body.ord == 1 && body.dim == |vector|
      modifies body.spatial
      ensures body.Valid()
      ensures body.State() == Integration.FirstOrder(old(body.State()), Spatial, vector, timeStep)
    {
      Integration.ApplyFirstOrder(body, Spatial, vector, timeStep);
    }

    /** Applies the force to an order-2 body: its spatial acceleration becomes `F / m`,
        and nothing else changes. */
    method ApplySecondOrder(body: Body)
      requires body.Valid() && body.ord == 2 && body.dim == |vector|
      modifies body.spatial
      ensures body.Valid()
      ensures body.State() == Integration.SecondOrder(old(body.State()), Spatial, vector)
    {
      Integration.ApplySecondOrder(body, Spatial, vector);
    }
  }

  /** Wrapping and dereferencing are mutually inverse: no component is altered either way. */
  lemma FromDerefRoundTrip(v: Vector, f: Force)
    ensures Force.From(v).Deref() == v
    ensures Force.From(f.Deref()) == f
  {
  }

  /** The named axes of a force built from components read those components back. */
  lemma NewAxes(components: seq<real>)
    ensures |components| >= 1 ==> Force.New(components).X() == components[0]
    ensures |components| >= 2 ==> Force.New(components).Y() == components[1]
    ensures |components| >= 3 ==> Force.New(components).Z() == components[2]
  {
  }

  /** Every named axis of a default force reads zero. */
  lemma DefaultAxes(dim: nat)
    ensures dim >= 1 ==> Force.Default(dim).X() == 0.0
    ensures dim >= 2 ==> Force.Default(dim).Y() == 0.0
    ensures dim >= 3 ==> Force.Default(dim).Z() == 0.0
  {
  }

  /** A default (zero) force leaves an order-1 body exactly as it was. */
  lemma DefaultFirstOrderIsIdentity(s: BodyState, dim: nat, timeStep: real)
    requires s.Shaped(dim, 1)
    ensures Integration.FirstOrder(s, Spatial, Force.Default(dim).Deref(), timeStep) == s
  {
    Integration.FirstOrderZero(s, Spatial, Force.Default(dim).Deref(), timeStep);
  }

  /** A one-dimensional force of 10 on a body of mass 2 at rest, over a step of 0.5,
      gives a velocity of 2.5. */
  lemma OneDimensionalScenario()
    ensures Integration.FirstOrder(Rest(1, 1, 2.0), Spatial, Force.New([10.0]).Deref(), 0.5).spatial[1] == [2.5]
  {
    var r := Integration.FirstOrder(Rest(1, 1, 2.0), Spatial, Force.New([10.0]).Deref(), 0.5);
    assert r.spatial[1][0] == 0.0 + (10.0 / 2.0) * 0.5;
  }
}
